/** The quiz component of src/components/Quiz.tsx: question generation from the word collection,
    the one-shot answer selection, the correctness marks and the fill-in-blank display.
    Every `Math.random()` draw is a natural number supplied by the caller. */
module QuizScreen {
  import opened Types
  import opened Js

  /** The `quizType` switch: multiple-choice word questions or fill-in-blank example questions. */
  datatype QuizMode = WordMode | ExampleMode

  predicate AllHaveMeanings(words: seq<Word>) {
    forall w :: w in words ==> |w.meanings| > 0
  }

  /** The text a word contributes to a multiple-choice question: its first definition when the
      question asks for a meaning, its spelling when it asks for a word. */
  function OptionText(w: Word, kind: QuizKind): string
    requires kind != FillInBlank
    requires kind == WordToMeaning ==> |w.meanings| > 0
  {
    if kind == WordToMeaning then w.meanings[0].definition else w.word
  }

  /** The text shown as the question: the spelling when asking for a meaning, the first
      definition when asking for a word. */
  function QuestionText(w: Word, kind: QuizKind): string
    requires kind != FillInBlank && |w.meanings| > 0
  {
    if kind == WordToMeaning then w.word else w.meanings[0].definition
  }

  /** `o` is the option text of some word other than the subject. */
  ghost predicate FromOtherWord(o: string, words: seq<Word>, subjectId: string, kind: QuizKind)
    requires kind != FillInBlank
  {
    exists w :: w in words && w.id != subjectId && (kind == WordToMeaning ==> |w.meanings| > 0)
      && o == OptionText(w, kind)
  }

  /** The words that may supply distractors: every word whose id differs from the subject's. */
  function Others(words: seq<Word>, subjectId: string): (r: seq<Word>)
    ensures forall k :: 0 <= k < |r| ==> r[k] in words && r[k].id != subjectId
  {
    Filter(words, (w: Word) => w.id != subjectId)
  }

  /** A word is a possible distractor source exactly when its id differs from the subject's,
      and it is kept as often as it occurs. */
  lemma OthersCount(words: seq<Word>, subjectId: string, w: Word)
    ensures multiset(Others(words, subjectId))[w] == if w.id != subjectId then multiset(words)[w] else 0
  {
    FilterCount(words, (w: Word) => w.id != subjectId, w);
  }

  /** The option texts of the other words, in collection order. */
  function Candidates(words: seq<Word>, subjectId: string, kind: QuizKind): (r: seq<string>)
    requires kind != FillInBlank
    requires kind == WordToMeaning ==> AllHaveMeanings(words)
    ensures |r| == |Others(words, subjectId)|
    ensures forall k :: 0 <= k < |r| ==> r[k] == OptionText(Others(words, subjectId)[k], kind)
    ensures forall o :: o in r ==> FromOtherWord(o, words, subjectId, kind)
  {
    var others := Others(words, subjectId);
    var r := seq(|others|, k requires 0 <= k < |others| => OptionText(others[k], kind));
    assert forall k :: 0 <= k < |r| ==> others[k] in words && r[k] == OptionText(others[k], kind);
    r
  }

  /** The distractors: the candidates in random order, cut to the first three. */
  function Distractors(words: seq<Word>, subjectId: string, kind: QuizKind, draws: seq<nat>): (r: seq<string>)
    requires kind != FillInBlank
    requires kind == WordToMeaning ==> AllHaveMeanings(words)
    ensures |r| == Min(3, |Others(words, subjectId)|)
    ensures multiset(r) <= multiset(Candidates(words, subjectId, kind))
  {
    var shuffled := Shuffle(Candidates(words, subjectId, kind), draws);
    SliceTake(shuffled, 3);
    Slice(shuffled, Int(0), Int(3))
  }

  /** The options of a multiple-choice question: the answer and the distractors, shuffled again.
      There are `1 + min(3, #other words)` of them, at most four. */
  function Options(words: seq<Word>, subject: Word, kind: QuizKind, draws1: seq<nat>, draws2: seq<nat>): (r: seq<string>)
    requires kind != FillInBlank
    requires kind == WordToMeaning ==> |subject.meanings| > 0 && AllHaveMeanings(words)
    ensures multiset(r) == multiset([OptionText(subject, kind)] + Distractors(words, subject.id, kind, draws1))
    ensures |r| == 1 + Min(3, |Others(words, subject.id)|) <= 4
  {
    Shuffle([OptionText(subject, kind)] + Distractors(words, subject.id, kind, draws1), draws2)
  }

  /** Every distractor is the text of a word whose id differs from the subject's. */
  lemma DistractorFromOtherWord(words: seq<Word>, subjectId: string, kind: QuizKind, draws: seq<nat>, o: string)
    requires kind != FillInBlank
    requires kind == WordToMeaning ==> AllHaveMeanings(words)
    requires o in Distractors(words, subjectId, kind, draws)
    ensures FromOtherWord(o, words, subjectId, kind)
  {
    assert o in multiset(Distractors(words, subjectId, kind, draws));
    assert o in Candidates(words, subjectId, kind) by {
      assert o in multiset(Candidates(words, subjectId, kind));
    }
  }

  /** The answer is among the options, and every other option is the text of a word whose id
      differs from the subject's. */
  lemma OptionsHoldAnswerAndOthers(words: seq<Word>, subject: Word, kind: QuizKind, draws1: seq<nat>, draws2: seq<nat>)
    requires kind != FillInBlank
    requires kind == WordToMeaning ==> |subject.meanings| > 0 && AllHaveMeanings(words)
    ensures OptionText(subject, kind) in Options(words, subject, kind, draws1, draws2)
    ensures forall o :: o in Options(words, subject, kind, draws1, draws2) ==>
              o == OptionText(subject, kind) || FromOtherWord(o, words, subject.id, kind)
  {
    var answer := OptionText(subject, kind);
    var distractors := Distractors(words, subject.id, kind, draws1);
    var pool := [answer] + distractors;
    var r := Options(words, subject, kind, draws1, draws2);
    assert answer in r by {
      assert pool[0] == answer;
      assert answer in multiset(r);
    }
    forall o | o in r ensures o == answer || FromOtherWord(o, words, subject.id, kind) {
      assert o in pool by {
        assert o in multiset(pool);
      }
      if o != answer {
        assert o in distractors;
        DistractorFromOtherWord(words, subject.id, kind, draws1, o);
      }
    }
  }

  /** The subject word the `k`-th draw picks: `words[Math.floor(Math.random() * words.length)]`. */
  function Subject(words: seq<Word>, picks: seq<nat>, k: nat): (w: Word)
    requires words != [] && k < |picks|
    ensures w in words
  {
    words[Pick([picks[k]], |words|)]
  }

  /** Some draw picks a word that has examples, so the example-mode retry stops. */
  ghost predicate SomePickHasExamples(words: seq<Word>, picks: seq<nat>)
    requires words != []
  {
    exists j :: 0 <= j < |picks| && Subject(words, picks, j).examples != []
  }

  /** The attempt at which the example-mode retry stops: the first draw that picks a word
      with examples. */
  function FirstHit(words: seq<Word>, picks: seq<nat>): (k: nat)
    requires words != [] && SomePickHasExamples(words, picks)
    ensures k < |picks| && Subject(words, picks, k).examples != []
    ensures forall j :: 0 <= j < k ==> Subject(words, picks, j).examples == []
    decreases |picks|
  {
    if Subject(words, picks, 0).examples != [] then 0
    else
      assert forall j :: 1 <= j < |picks| ==> Subject(words, picks[1..], j - 1) == Subject(words, picks, j);
      var k := FirstHit(words, picks[1..]);
      assert Subject(words, picks[1..], k) == Subject(words, picks, k + 1);
      k + 1
  }

  /** `q` is a multiple-choice question about `s`: its direction, question and answer are the
      ones the coin chose, and its options hold the answer and up to three texts of other words. */
  ghost predicate IsWordQuiz(q: Quiz, words: seq<Word>, s: Word, wordToMeaning: bool)
    requires |s.meanings| > 0
  {
    && (if wordToMeaning
        then q.kind == WordToMeaning && q.question == s.word && q.answer == s.meanings[0].definition
        else q.kind == MeaningToWord && q.question == s.meanings[0].definition && q.answer == s.word)
    && q.options.Some?
    && q.answer in q.options.value
    && |q.options.value| == 1 + Min(3, |Others(words, s.id)|)
    && (forall o :: o in q.options.value ==> o == q.answer || FromOtherWord(o, words, s.id, q.kind))
    && q.exampleWordPosition.None? && q.exampleWordLength.None?
  }

  /** `q` is a fill-in-blank question on one of the examples of `s`, whose answer is the word itself. */
  ghost predicate IsBlankQuiz(q: Quiz, s: Word) {
    && q.kind == FillInBlank
    && q.answer == s.word
    && q.options.None?
    && exists e :: e in s.examples && q.question == e.sentence
         && q.exampleWordPosition == e.wordPosition && q.exampleWordLength == e.wordLength
  }

  /** The quiz `generateNewQuiz` builds, or None when the collection is empty.
      `picks` are the subject draws (one per attempt), `wordToMeaning` the sub-type coin,
      `exampleDraw` the example draw, `draws1`/`draws2` the two random sorts, `id` the fresh id. */
  function Generate(words: seq<Word>, mode: QuizMode, picks: seq<nat>, wordToMeaning: bool,
                    exampleDraw: nat, draws1: seq<nat>, draws2: seq<nat>, id: string): (r: Option<Quiz>)
    requires |picks| > 0
    requires mode == WordMode ==> AllHaveMeanings(words)
    requires mode == ExampleMode && words != [] ==> SomePickHasExamples(words, picks)
    ensures r.None? <==> words == []
    ensures r.Some? ==> r.value.id == id
    ensures r.Some? && mode == WordMode ==> IsWordQuiz(r.value, words, Subject(words, picks, 0), wordToMeaning)
    ensures r.Some? && mode == ExampleMode ==> IsBlankQuiz(r.value, Subject(words, picks, FirstHit(words, picks)))
  {
    if words == [] then None
    else if mode == WordMode then
      var subject := Subject(words, picks, 0);
      var kind := if wordToMeaning then WordToMeaning else MeaningToWord;
      OptionsHoldAnswerAndOthers(words, subject, kind, draws1, draws2);
      Some(Quiz(id, kind, QuestionText(subject, kind), OptionText(subject, kind),
                Some(Options(words, subject, kind, draws1, draws2)), None, None))
    else
      var subject := Subject(words, picks, FirstHit(words, picks));
      var example := subject.examples[exampleDraw % |subject.examples|];
      Some(Quiz(id, FillInBlank, example.sentence, subject.word, None, example.wordPosition, example.wordLength))
  }

  /** The example-mode retry as written draws again for as long as the drawn word has no
      examples. When no word of the collection has an example, no sequence of draws, however
      long, ever stops it. */
  lemma RetryNeverStopsWithoutExamples(words: seq<Word>, picks: seq<nat>)
    requires words != []
    requires forall w :: w in words ==> w.examples == []
    ensures !SomePickHasExamples(words, picks)
  {
  }

  /** The words an example question can be about. */
  function WithExamples(words: seq<Word>): (r: seq<Word>)
    ensures forall k :: 0 <= k < |r| ==> r[k] in words && r[k].examples != []
  {
    Filter(words, (w: Word) => w.examples != [])
  }

  /** Some word has examples exactly when the words with examples are not empty. */
  lemma WithExamplesEmpty(words: seq<Word>)
    ensures WithExamples(words) == [] <==> forall w :: w in words ==> w.examples == []
  {
    if WithExamples(words) == [] {
      forall w | w in words ensures w.examples == [] {
        FilterCount(words, (x: Word) => x.examples != [], w);
      }
    } else {
      assert WithExamples(words)[0] in words;
    }
  }

  /** The example-mode generation that always stops: the subject is drawn, with one draw, among
      the words that have examples, and there is no quiz when no word has one. */
  function GenerateExampleQuiz(words: seq<Word>, pick: nat, exampleDraw: nat, id: string): (r: Option<Quiz>)
    ensures r.None? <==> forall w :: w in words ==> w.examples == []
    ensures r.Some? ==> r.value.id == id && exists s :: s in words && IsBlankQuiz(r.value, s)
  {
    var candidates := WithExamples(words);
    WithExamplesEmpty(words);
    if candidates == [] then None
    else
      var subject := candidates[Pick([pick], |candidates|)];
      var example := subject.examples[Pick([exampleDraw], |subject.examples|)];
      var q := Quiz(id, FillInBlank, example.sentence, subject.word, None, example.wordPosition, example.wordLength);
      assert IsBlankQuiz(q, subject);
      Some(q)
  }

  /** The text of any word other than the subject is among the candidates. */
  lemma OtherTextIsCandidate(words: seq<Word>, subjectId: string, other: Word, kind: QuizKind)
    requires kind != FillInBlank
    requires kind == WordToMeaning ==> AllHaveMeanings(words)
    requires other in words && other.id != subjectId
    ensures OptionText(other, kind) in Candidates(words, subjectId, kind)
  {
    var others := Others(words, subjectId);
    OthersCount(words, subjectId, other);
    assert other in multiset(others);
    var k :| 0 <= k < |others| && others[k] == other;
    assert Candidates(words, subjectId, kind)[k] == OptionText(other, kind);
  }

  /** With at most three other words, no candidate is cut: the distractors are all of them. */
  lemma DistractorsKeepAllWhenFew(words: seq<Word>, subjectId: string, kind: QuizKind, draws: seq<nat>)
    requires kind != FillInBlank
    requires kind == WordToMeaning ==> AllHaveMeanings(words)
    requires |Others(words, subjectId)| <= 3
    ensures multiset(Distractors(words, subjectId, kind, draws)) == multiset(Candidates(words, subjectId, kind))
  {
    var shuffled := Shuffle(Candidates(words, subjectId, kind), draws);
    assert Clamp(3, |shuffled|) == |shuffled|;
    assert Distractors(words, subjectId, kind, draws) == shuffled[0..|shuffled|];
    assert shuffled[0..|shuffled|] == shuffled;
  }

  /** Options are not deduplicated: when another word contributes the same text as the answer
      and there are at most three other words, the answer text appears at least twice. */
  lemma {:induction false} AnswerRepeatsWhenShared(words: seq<Word>, subject: Word, other: Word, kind: QuizKind,
                                                   draws1: seq<nat>, draws2: seq<nat>)
    requires kind != FillInBlank
    requires kind == WordToMeaning ==> |subject.meanings| > 0 && AllHaveMeanings(words)
    requires other in words && other.id != subject.id
    requires |Others(words, subject.id)| <= 3
    requires OptionText(other, kind) == OptionText(subject, kind)
    ensures multiset(Options(words, subject, kind, draws1, draws2))[OptionText(subject, kind)] >= 2
  {
    var answer := OptionText(subject, kind);
    var distractors := Distractors(words, subject.id, kind, draws1);
    assert multiset(distractors)[answer] >= 1 by {
      OtherTextIsCandidate(words, subject.id, other, kind);
      DistractorsKeepAllWhenFew(words, subject.id, kind, draws1);
      assert answer in multiset(Candidates(words, subject.id, kind));
    }
    var pool := multiset([answer] + distractors);
    assert pool == multiset{answer} + multiset(distractors);
    assert pool[answer] >= 2;
  }

  /** How an option button is drawn: selected, and marked as the correct answer. */
  datatype OptionMarks = OptionMarks(isSelected: bool, isCorrect: bool)

  /** An option is drawn as selected exactly when it is the chosen one; it is drawn as correct
      only once the answer is shown, and then exactly when it is the answer. */
  function Marks(quiz: Quiz, selectedAnswer: Option<string>, showAnswer: bool, option: string): (m: OptionMarks)
    ensures m.isSelected <==> selectedAnswer == Some(option)
    ensures !showAnswer ==> !m.isCorrect
    ensures showAnswer ==> (m.isCorrect <==> option == quiz.answer)
  {
    OptionMarks(selectedAnswer == Some(option), showAnswer && option == quiz.answer)
  }

  /** Once the answer is revealed on a generated multiple-choice quiz, some option is marked
      correct and every option marked correct is the answer; before that, none is marked. */
  lemma RevealMarksAnswer(words: seq<Word>, picks: seq<nat>, wordToMeaning: bool, draws1: seq<nat>,
                          draws2: seq<nat>, id: string, selectedAnswer: Option<string>)
    requires |picks| > 0 && words != [] && AllHaveMeanings(words)
    ensures var q := Generate(words, WordMode, picks, wordToMeaning, 0, draws1, draws2, id).value;
      && q.options.Some?
      && (exists o :: o in q.options.value && Marks(q, selectedAnswer, true, o).isCorrect)
      && (forall o :: Marks(q, selectedAnswer, true, o).isCorrect <==> o == q.answer)
      && (forall o :: !Marks(q, selectedAnswer, false, o).isCorrect)
  {
    var q := Generate(words, WordMode, picks, wordToMeaning, 0, draws1, draws2, id).value;
    assert Marks(q, selectedAnswer, true, q.answer).isCorrect;
  }

  /** The fill-in-blank question text around the blank. */
  datatype BlankView = BlankView(before: string, after: string)

  /** `question.slice(0, exampleWordPosition)` and `question.slice(exampleWordPosition + exampleWordLength)`. */
  function BlankDisplay(q: Quiz): (v: BlankView)
    ensures IsPiece(v.before, q.question) && IsPiece(v.after, q.question)
  {
    var pos := FromOptional(q.exampleWordPosition);
    var len := FromOptional(q.exampleWordLength);
    BlankView(Slice(q.question, Int(0), pos), Slice(q.question, Plus(pos, len), Undefined))
  }

  /** With a span inside the question, the blank replaces exactly that span. */
  lemma BlankDisplayInBounds(q: Quiz, pos: int, len: int)
    requires q.exampleWordPosition == Some(pos) && q.exampleWordLength == Some(len)
    requires 0 <= pos && 0 <= len && pos + len <= |q.question|
    ensures BlankDisplay(q).before == q.question[..pos]
    ensures BlankDisplay(q).after == q.question[pos + len..]
    ensures BlankDisplay(q).before + q.question[pos..pos + len] + BlankDisplay(q).after == q.question
  {
    var s := q.question;
    assert s == s[..pos] + s[pos..pos + len] + s[pos + len..];
  }

  /** Without a span (the entry form never records one), the whole question is shown on both
      sides of the blank. */
  lemma BlankDisplayWithoutSpan(q: Quiz)
    requires q.exampleWordPosition.None?
    ensures BlankDisplay(q).before == q.question && BlankDisplay(q).after == q.question
  {
    assert q.question[0..|q.question|] == q.question;
  }

  /** The state of the quiz component. */
  class QuizState {
    var quizType: QuizMode
    var currentQuiz: Option<Quiz>
    var selectedAnswer: Option<string>
    var showAnswer: bool

    /** The answer is shown exactly when an option of the current quiz has been chosen. */
    ghost predicate Valid()
      reads this
    {
      && (showAnswer <==> selectedAnswer.Some?)
      && (showAnswer ==> currentQuiz.Some? && currentQuiz.value.options.Some?
                         && selectedAnswer.value in currentQuiz.value.options.value)
    }

    constructor()
      ensures Valid()
      ensures quizType == WordMode && currentQuiz.None? && selectedAnswer.None? && !showAnswer
    {
      quizType := WordMode;
      currentQuiz := None;
      selectedAnswer := None;
      showAnswer := false;
    }

    /** A quiz-type button; the regeneration that follows is a separate `GenerateNewQuiz` call. */
    method SetQuizType(mode: QuizMode)
      requires Valid()
      modifies this`quizType
      ensures Valid() && quizType == mode
    {
      quizType := mode;
    }

    /** `generateNewQuiz`: nothing happens on an empty collection; otherwise the generated quiz
        becomes current and the selection is cleared. In example mode a subject without examples
        is drawn again, one entry of `picks` per attempt. */
    method GenerateNewQuiz(words: seq<Word>, picks: seq<nat>, wordToMeaning: bool, exampleDraw: nat,
                           draws1: seq<nat>, draws2: seq<nat>, id: string)
      requires Valid()
      requires |picks| > 0
      requires quizType == WordMode ==> AllHaveMeanings(words)
      requires quizType == ExampleMode && words != [] ==> SomePickHasExamples(words, picks)
      modifies this
      ensures Valid() && quizType == old(quizType)
      ensures words == [] ==> currentQuiz == old(currentQuiz) && selectedAnswer == old(selectedAnswer)
                              && showAnswer == old(showAnswer)
      ensures words != [] ==>
                currentQuiz == Generate(words, quizType, picks, wordToMeaning, exampleDraw, draws1, draws2, id)
                && selectedAnswer.None? && !showAnswer
    {
      if |words| == 0 {
        return;
      }
      var attempt := 0;
      var subject := Subject(words, picks, 0);
      var quiz: Quiz;
      if quizType == WordMode {
        var kind := if wordToMeaning then WordToMeaning else MeaningToWord;
        quiz := Quiz(id, kind, QuestionText(subject, kind), OptionText(subject, kind),
                     Some(Options(words, subject, kind, draws1, draws2)), None, None);
      } else {
        while subject.examples == []
          invariant attempt < |picks| && subject == Subject(words, picks, attempt)
          invariant forall j :: 0 <= j < attempt ==> Subject(words, picks, j).examples == []
          invariant exists j :: attempt <= j < |picks| && Subject(words, picks, j).examples != []
          decreases |picks| - attempt
        {
          attempt := attempt + 1;
          subject := Subject(words, picks, attempt);
        }
        assert attempt == FirstHit(words, picks);
        var example := subject.examples[exampleDraw % |subject.examples|];
        quiz := Quiz(id, FillInBlank, example.sentence, subject.word, None, example.wordPosition, example.wordLength);
      }
      currentQuiz := Some(quiz);
      selectedAnswer := None;
      showAnswer := false;
    }

    /** `handleAnswerSelect`: records the chosen option and reveals the answer. */
    method HandleAnswerSelect(answer: string)
      requires Valid()
      requires currentQuiz.Some? && currentQuiz.value.options.Some? && answer in currentQuiz.value.options.value
      modifies this`selectedAnswer, this`showAnswer
      ensures Valid() && selectedAnswer == Some(answer) && showAnswer
    {
      selectedAnswer := Some(answer);
      showAnswer := true;
    }

    /** A click on an option button: accepted only while the answer is hidden, so the first
        click decides and later clicks change nothing. */
    method ClickOption(option: string)
      requires Valid()
      requires currentQuiz.Some? && currentQuiz.value.options.Some? && option in currentQuiz.value.options.value
      modifies this`selectedAnswer, this`showAnswer
      ensures Valid() && showAnswer
      ensures old(showAnswer) ==> selectedAnswer == old(selectedAnswer)
      ensures !old(showAnswer) ==> selectedAnswer == Some(option)
    {
      if !showAnswer {
        HandleAnswerSelect(option);
      }
    }

    /** The "next question" button, shown only once the answer is revealed. */
    method HandleNextQuestion(words: seq<Word>, picks: seq<nat>, wordToMeaning: bool, exampleDraw: nat,
                              draws1: seq<nat>, draws2: seq<nat>, id: string)
      requires Valid() && showAnswer
      requires |picks| > 0
      requires quizType == WordMode ==> AllHaveMeanings(words)
      requires quizType == ExampleMode && words != [] ==> SomePickHasExamples(words, picks)
      modifies this
      ensures Valid() && quizType == old(quizType)
      ensures words == [] ==> currentQuiz == old(currentQuiz) && selectedAnswer == old(selectedAnswer)
                              && showAnswer == old(showAnswer)
      ensures words != [] ==>
                currentQuiz == Generate(words, quizType, picks, wordToMeaning, exampleDraw, draws1, draws2, id)
                && selectedAnswer.None? && !showAnswer
    {
      GenerateNewQuiz(words, picks, wordToMeaning, exampleDraw, draws1, draws2, id);
    }
  }
}
