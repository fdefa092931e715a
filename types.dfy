/** The records of src/types.ts that carry behaviour (the Theme record is styling only). */
module Types {

  /** An optional field or a nullable value: `None` is `undefined` or `null`. */
  datatype Option<T> = None | Some(value: T)

  datatype Meaning = Meaning(id: string, definition: string)

  /** The declared type makes the highlighted span mandatory, but the entry form never sets it,
      so at run time both fields may be absent (`None`). */
  datatype Example = Example(
    id: string,
    sentence: string,
    translation: string,
    wordPosition: Option<int>,
    wordLength: Option<int>)

  datatype Word = Word(id: string, word: string, meanings: seq<Meaning>, examples: seq<Example>)

  datatype QuizKind = WordToMeaning | MeaningToWord | FillInBlank

  datatype Quiz = Quiz(
    id: string,
    kind: QuizKind,
    question: string,
    answer: string,
    options: Option<seq<string>>,
    exampleWordPosition: Option<int>,
    exampleWordLength: Option<int>)

  function Min(a: int, b: int): int { if a <= b then a else b }
}
