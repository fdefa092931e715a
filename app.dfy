/** The application shell of src/App.tsx: the word collection, the active tab, and the wiring
    between the entry form, the list and the quiz. */
module App {
  import opened Types
  import opened Js
  import WordForm
  import WordList
  import QuizScreen

  datatype Tab = AddTab | ListTab | QuizTab

  /** The words the form emits are exactly the ones the quiz can ask about in word mode. */
  lemma FormWordsAreQuizzable(words: seq<Word>)
    requires forall w :: w in words ==> WordForm.IsFormWord(w)
    ensures QuizScreen.AllHaveMeanings(words)
  {
  }

  class AppState {
    var activeTab: Tab
    var words: seq<Word>

    /** Every stored word came from the entry form. */
    ghost predicate Valid()
      reads this
    {
      forall w :: w in words ==> WordForm.IsFormWord(w)
    }

    constructor()
      ensures Valid() && activeTab == AddTab && words == []
    {
      activeTab := AddTab;
      words := [];
    }

    /** A navigation button: the tab becomes exactly the button's own. */
    method SelectTab(tab: Tab)
      requires Valid()
      modifies this`activeTab
      ensures Valid() && activeTab == tab
    {
      activeTab := tab;
    }

    /** `handleAddWord`: the new word goes at the end; every earlier word stays where it was. */
    method HandleAddWord(newWord: Word)
      requires Valid() && WordForm.IsFormWord(newWord)
      modifies this`words
      ensures Valid()
      ensures words == old(words) + [newWord]
      ensures |words| == |old(words)| + 1 && words[..|old(words)|] == old(words)
    {
      words := words + [newWord];
    }

    /** A submit of the entry form, whose `onAddWord` is `handleAddWord`: the collection grows by
        the emitted word, or stays as it was when the form rejects the submit. */
    method SubmitForm(form: WordForm.FormState, freshId: string) returns (emitted: Option<Word>)
      requires Valid() && form.Valid()
      modifies this`words, form`word, form`meanings, form`examples
      ensures Valid() && form.Valid()
      ensures emitted.Some? <==> !IsBlank(old(form.word)) && |old(form.meanings)| > 0
      ensures emitted.Some? ==>
                && emitted.value == Word(freshId, Trim(old(form.word)), old(form.meanings), old(form.examples))
                && words == old(words) + [emitted.value]
                && form.word == [] && form.meanings == [] && form.examples == []
      ensures emitted.None? ==>
                && words == old(words)
                && form.word == old(form.word) && form.meanings == old(form.meanings) && form.examples == old(form.examples)
    {
      emitted := form.Submit(freshId);
      if emitted.Some? {
        HandleAddWord(emitted.value);
      }
    }

    /** What the list tab shows: one card per stored word, in collection order. */
    function ListView(): (cards: seq<WordList.WordCard>)
      reads this
      ensures |cards| == |words|
      ensures forall i :: 0 <= i < |words| ==> cards[i].title == words[i].word
    {
      WordList.RenderList(words)
    }

    /** The quiz's regeneration after the collection or the quiz type changed: the stored words
        always meet the word-mode precondition. */
    method RefreshQuiz(quiz: QuizScreen.QuizState, picks: seq<nat>, wordToMeaning: bool, exampleDraw: nat,
                       draws1: seq<nat>, draws2: seq<nat>, id: string)
      requires Valid() && quiz.Valid()
      requires |picks| > 0
      requires quiz.quizType == QuizScreen.ExampleMode && words != [] ==> QuizScreen.SomePickHasExamples(words, picks)
      modifies quiz
      ensures quiz.Valid() && quiz.quizType == old(quiz.quizType)
      ensures words != [] ==>
                && quiz.currentQuiz == QuizScreen.Generate(words, quiz.quizType, picks, wordToMeaning, exampleDraw, draws1, draws2, id)
                && quiz.selectedAnswer.None? && !quiz.showAnswer
      ensures words == [] ==>
                && quiz.currentQuiz == old(quiz.currentQuiz)
                && quiz.selectedAnswer == old(quiz.selectedAnswer) && quiz.showAnswer == old(quiz.showAnswer)
    {
      FormWordsAreQuizzable(words);
      quiz.GenerateNewQuiz(words, picks, wordToMeaning, exampleDraw, draws1, draws2, id);
    }
  }

  /** Every example in a collection built by the form is listed with its sentence twice, once on
      each side of an empty highlight, since the form records no span. */
  lemma StoredExamplesRepeatSentence(words: seq<Word>, i: nat, j: nat)
    requires forall w :: w in words ==> WordForm.IsFormWord(w)
    requires i < |words| && j < |words[i].examples|
    ensures j < |WordList.RenderList(words)[i].examples|
    ensures var s := words[i].examples[j].sentence;
      WordList.RenderList(words)[i].examples[j].text == WordList.Highlight(s, [], s)
      && WordList.Joined(WordList.RenderList(words)[i].examples[j].text) != s
  {
    assert words[i] in words;
    assert words[i].examples[j] in words[i].examples;
    WordList.SplitWithoutSpan(words[i].examples[j]);
  }

  /** A fill-in-blank quiz over a collection built by the form shows the whole sentence on both
      sides of the blank, since the form records no span. */
  lemma StoredBlankQuizRepeatsSentence(words: seq<Word>, picks: seq<nat>, exampleDraw: nat, id: string)
    requires forall w :: w in words ==> WordForm.IsFormWord(w)
    requires words != [] && |picks| > 0 && QuizScreen.SomePickHasExamples(words, picks)
    ensures var q := QuizScreen.Generate(words, QuizScreen.ExampleMode, picks, false, exampleDraw, [], [], id).value;
      QuizScreen.BlankDisplay(q) == QuizScreen.BlankView(q.question, q.question)
  {
    var q := QuizScreen.Generate(words, QuizScreen.ExampleMode, picks, false, exampleDraw, [], [], id).value;
    var s := QuizScreen.Subject(words, picks, QuizScreen.FirstHit(words, picks));
    assert s in words;
    var e :| e in s.examples && q.question == e.sentence && q.exampleWordPosition == e.wordPosition;
    assert WordForm.IsFormExample(e);
    QuizScreen.BlankDisplayWithoutSpan(q);
  }
}
