# NeVoca vocabulary quiz — a Dafny model

NeVoca is a client-side flashcard application: a form collects words with their meanings and
example sentences, a list shows the collected words with the highlighted word of each example,
and a quiz asks multiple-choice questions (word to meaning, meaning to word) or fill-in-blank
questions built from an example sentence. This project models the logic behind those screens.

- `types.dfy` (module `Types`): the records `Meaning`, `Example`, `Word` and `Quiz`. The
  example's `wordPosition`/`wordLength` are modelled as `Option<int>`. The declared type makes
  them required numbers, but the object the form builds leaves them out, so at run time they
  are absent.
- `js.dfy` (module `Js`): the JavaScript built-ins the code is made of, with their edge cases:
  `slice` on integers, `undefined` and `NaN` (negative positions count from the end, every index
  is clamped, `undefined + n` is `NaN`, which reads as 0); `trim` over a fixed white-space set;
  `filter`; `sort` with a random comparator, modelled as `Shuffle` driven by caller-supplied
  draws, proved to yield a permutation and to be able to yield every permutation.
- `quiz_screen.dfy` (module `QuizScreen`): question generation as a function `Generate` of the
  collection, the mode and the random draws, and the component state as class `QuizState`
  (`quizType`, `currentQuiz`, `selectedAnswer`, `showAnswer`), whose invariant is that the
  answer is shown exactly when an option of the current quiz has been chosen. Each
  `Math.floor(Math.random() * n)` is a caller-supplied natural number reduced modulo `n`. The
  example-mode retry, which re-runs generation when the drawn word has no examples, is a loop
  over one draw per attempt. `GenerateExampleQuiz` is a corrected example-mode generation
  that always stops.
- `word_list.dfy` (module `WordList`): the read-only list rendering and the three-way split of
  an example sentence around its highlighted span, as written (`SplitAsWritten`, used by `Card`
  and `RenderList`) and as evidently intended (`Split`, used by `IntendedCard`).
- `word_form.dfy` (module `WordForm`): the entry form as class `FormState`: trimmed,
  non-blank meanings and examples are appended, removed by id, and submitted as one word.
- `app.dfy` (module `App`): the collection and the active tab as class `AppState`. Its
  invariant is that every stored word is one the form can emit. That invariant is what
  discharges the quiz's precondition that every word has a meaning.

Behaviours of the code that the model keeps as they are:
- Nothing is saved between sessions, and there is no score counter.
- Generation on an empty collection does nothing: the previous quiz, if any, stays on screen.
- A single word already yields a multiple-choice question, whose only option is the answer.
- The answer of a word-to-meaning question is the first definition only.
- Options are not deduplicated, so the answer text can appear twice (`QuizScreen.AnswerRepeatsWhenShared`).
- The answer of a fill-in-blank question is the subject word, not the highlighted span.
- The form's help text asks for the highlighted word as `*word*`, but nothing reads that
  markup: the sentence is stored with its asterisks.
- The form never records a span, so the list shows every stored example sentence twice, once
  on each side of an empty highlight (`App.StoredExamplesRepeatSentence`). A fill-in-blank
  question built from a stored example likewise shows the whole sentence on both sides of the
  blank (`App.StoredBlankQuizRepeatsSentence`).
- In example mode, when no stored word has an example, the retry never stops
  (`QuizScreen.RetryNeverStopsWithoutExamples`).

## Model

| member | source | states |
|---|---|---|
| `Js.Pick` | src/components/Quiz.tsx:142 | a random index draw always lands inside the collection (`Math.floor(Math.random() * n)` lies in [0, n)) |
| `Js.Slice` | src/components/WordList.tsx:88-97 | `slice` returns a contiguous piece of its input for any integer, `undefined` or `NaN` bounds, and exactly `s[a..b]` (or `s[a..]`) when the bounds are in range |
| `Js.SliceTake` | src/components/Quiz.tsx:161 | `slice(0, n)` is the first `min(n, length)` elements, a sub-multiset of the input |
| `Js.Trim` | src/components/WordForm.tsx:180 | `trim()` is empty (falsy) exactly when the input is blank, and otherwise starts and ends with a non-space character |
| `Js.TrimStartSpec` | src/components/WordForm.tsx:180 | removing leading white space keeps a suffix, removes only white space, and leaves no white space in front |
| `Js.TrimEndSpec` | src/components/WordForm.tsx:180 | removing trailing white space keeps a prefix, removes only white space, and leaves no white space at the end |
| `Js.TrimIsInnerPiece` | src/components/WordForm.tsx:183 | what `trim` keeps is the piece between a blank prefix and a blank suffix |
| `Js.TrimIdempotent` | src/components/WordForm.tsx:217 | trimming a trimmed text changes nothing |
| `Js.Filter` | src/components/WordForm.tsx:190 | `filter` returns only elements of its input that pass the test |
| `Js.FilterCount` | src/components/WordForm.tsx:190 | `filter` keeps each passing element as often as it occurs and drops every other |
| `Js.FilterAppend` | src/components/WordForm.tsx:190 | `filter` keeps relative order: it distributes over concatenation |
| `Js.FilterKeepsAll` | src/components/Quiz.tsx:158 | a filter that rejects nothing returns its input unchanged |
| `Js.Shuffle` | src/components/Quiz.tsx:160 | the random-comparator sort returns a permutation of its input (same length, same multiset) |
| `Js.ShuffleReachesAll` | src/components/Quiz.tsx:162 | every permutation of the input is the outcome of some draws |
| `QuizScreen.Others` | src/components/Quiz.tsx:157-158 | distractor sources are words of the collection whose id differs from the subject's |
| `QuizScreen.OthersCount` | src/components/Quiz.tsx:158 | a word is a distractor source exactly when its id differs from the subject's, with its multiplicity |
| `QuizScreen.Subject` | src/components/Quiz.tsx:142 | the subject of an attempt is a word of the collection, the one the attempt's draw selects |
| `QuizScreen.Candidates` | src/components/Quiz.tsx:157-159 | one option text per other word, each the first definition or the spelling of a word with a different id |
| `QuizScreen.Distractors` | src/components/Quiz.tsx:157-161 | the distractors are `min(3, #other words)` texts, drawn without replacement from the candidates (a sub-multiset of them) |
| `QuizScreen.DistractorFromOtherWord` | src/components/Quiz.tsx:157-161 | every distractor is the text of a word whose id differs from the subject's |
| `QuizScreen.OtherTextIsCandidate` | src/components/Quiz.tsx:157-159 | the text of every word with a different id is among the candidates |
| `QuizScreen.DistractorsKeepAllWhenFew` | src/components/Quiz.tsx:160-161 | with at most three other words, `slice(0, 3)` cuts nothing: the distractors are all the candidates |
| `QuizScreen.Options` | src/components/Quiz.tsx:155-162 | the options are a permutation of the answer plus the distractors, `1 + min(3, #other words)` ≤ 4 of them |
| `QuizScreen.OptionsHoldAnswerAndOthers` | src/components/Quiz.tsx:155-162 | the answer is among the options, and every other option is the text of a word with a different id |
| `QuizScreen.FirstHit` | src/components/Quiz.tsx:183-186 | the example-mode retry stops at the first draw that picks a word with examples |
| `QuizScreen.Generate` | src/components/Quiz.tsx:139-200 | no quiz from an empty collection; word mode: word-to-meaning asks `word` and answers `meanings[0].definition`, meaning-to-word the reverse, with the options above; example mode: the question is a sentence of one of the subject's examples with its position and length copied, the answer is the subject's word, and there are no options |
| `QuizScreen.AnswerRepeatsWhenShared` | src/components/Quiz.tsx:155-162 | options are not deduplicated: another word with the answer's text makes the answer appear at least twice |
| `QuizScreen.RetryNeverStopsWithoutExamples` | src/components/Quiz.tsx:183-186 | when no word has an example, no sequence of draws stops the example-mode retry |
| `QuizScreen.WithExamples` | src/components/Quiz.tsx:183-186 | the corrected candidates for an example question: words of the collection that have examples |
| `QuizScreen.WithExamplesEmpty` | src/components/Quiz.tsx:183-186 | there is no candidate exactly when no word of the collection has an example |
| `QuizScreen.GenerateExampleQuiz` | src/components/Quiz.tsx:182-200 | the corrected example-mode generation: no quiz exactly when no word has an example; otherwise, after one draw, a fill-in-blank quiz on an example of a word of the collection, answered by that word |
| `QuizScreen.RevealMarksAnswer` | src/components/Quiz.tsx:260-262 | once revealed, an option is marked correct exactly when it equals the answer, and one such option is shown; before that none is marked |
| `QuizScreen.Marks` | src/components/Quiz.tsx:261-262 | an option is drawn as selected exactly when it is the chosen one, and as correct only once the answer is shown and then exactly when it is the answer |
| `QuizScreen.BlankDisplay` | src/components/Quiz.tsx:243-248 | the text on each side of the blank is a contiguous piece of the question, for any recorded position and length |
| `QuizScreen.BlankDisplayInBounds` | src/components/Quiz.tsx:243-248 | with a span inside the question, the text before and after the blank is the question without exactly that span |
| `QuizScreen.BlankDisplayWithoutSpan` | src/components/Quiz.tsx:243-248 | with no position recorded, the whole question appears both before and after the blank |
| `QuizScreen.QuizState.constructor` | src/components/Quiz.tsx:130-133 | the quiz starts in word mode with no quiz, no selection and the answer hidden |
| `QuizScreen.QuizState.SetQuizType` | src/components/Quiz.tsx:225-236 | a quiz-type button sets the mode to exactly its own |
| `QuizScreen.QuizState.GenerateNewQuiz` | src/components/Quiz.tsx:139-205 | an empty collection changes nothing; otherwise the current quiz becomes the generated one, the selection is cleared and the answer hidden |
| `QuizScreen.QuizState.HandleAnswerSelect` | src/components/Quiz.tsx:207-210 | selecting records the option and reveals the answer |
| `QuizScreen.QuizState.ClickOption` | src/components/Quiz.tsx:260 | the first click records its option; once the answer is shown, later clicks change nothing |
| `QuizScreen.QuizState.HandleNextQuestion` | src/components/Quiz.tsx:212-214 | the next-question button regenerates: an empty collection leaves quiz, selection and the reveal flag as they were; otherwise the current quiz becomes the generated one, the selection is cleared and the answer hidden |
| `WordList.SplitAsWritten` | src/components/WordList.tsx:88-97 | each of the three pieces is a contiguous piece of the sentence, whatever the stored position and length |
| `WordList.SplitInBounds` | src/components/WordList.tsx:90-93 | with a span inside the sentence, the highlighted piece starts at `wordPosition`, has length `wordLength`, and the pieces give back the sentence |
| `WordList.SplitNonNegative` | src/components/WordList.tsx:88-97 | with any non-negative position and length, the clamped pieces still give back the sentence |
| `WordList.SplitWithoutSpan` | src/components/WordList.tsx:88-97 | with no position recorded, the sentence is shown before and after an empty highlight, so the rendering is not the sentence |
| `WordList.Split` | src/components/WordList.tsx:88-97 | the intended split: with no span recorded, the sentence once with nothing highlighted; otherwise the split as written |
| `WordList.SplitShowsSentenceOnce` | src/components/WordList.tsx:88-97 | the intended split always renders the sentence exactly once when no recorded value is negative |
| `WordList.Card` | src/components/WordList.tsx:76-101 | a card shows the word, its definitions in stored order, and its examples in stored order, each split as written with its translation |
| `WordList.IntendedCard` | src/components/WordList.tsx:76-101 | the intended card: the same title and definitions, with each example split by the corrected split |
| `WordList.IntendedCardShowsSentencesOnce` | src/components/WordList.tsx:85-98 | on the intended card every example sentence reads exactly once when no recorded value is negative |
| `WordList.RenderList` | src/components/WordList.tsx:75 | one card per word, in collection order |
| `WordList.RenderAppend` | src/components/WordList.tsx:75 | a word added at the end of the collection adds its card at the end and leaves the earlier cards unchanged |
| `WordList.CardsShowSentencesOnce` | src/components/WordList.tsx:85-98 | an example sentence on a card reads exactly once when its position and length are recorded and not negative |
| `WordForm.TrimmedIsEntry` | src/components/WordForm.tsx:180-183 | the trimmed text of a non-blank input is non-empty, has white space at neither end, and trimming it again changes nothing |
| `WordForm.EntryIsTrimmed` | src/components/WordForm.tsx:183 | a stored entry is its own trimmed text |
| `WordForm.WithoutMeaning` | src/components/WordForm.tsx:189-191 | removal keeps only meanings of the list whose id differs |
| `WordForm.WithoutExample` | src/components/WordForm.tsx:208-210 | removal keeps only examples of the list whose id differs |
| `WordForm.WithoutMeaningExact` | src/components/WordForm.tsx:190 | removal drops exactly the meanings with that id, keeps the others with their multiplicity, and keeps their order |
| `WordForm.WithoutExampleExact` | src/components/WordForm.tsx:209 | removal drops exactly the examples with that id, keeps the others with their multiplicity, and keeps their order |
| `WordForm.RemoveUndoesAddMeaning` | src/components/WordForm.tsx:179-191 | removing a meaning just added under a fresh id restores the list |
| `WordForm.RemoveUndoesAddExample` | src/components/WordForm.tsx:193-210 | removing an example just added under a fresh id restores the list |
| `WordForm.FormState.constructor` | src/components/WordForm.tsx:172-177 | the form starts with every field empty |
| `WordForm.FormState.SetWord` | src/components/WordForm.tsx:236 | typing sets the word input |
| `WordForm.FormState.SetNewMeaning` | src/components/WordForm.tsx:246 | typing sets the meaning input |
| `WordForm.FormState.SetNewExample` | src/components/WordForm.tsx:273 | typing sets the example input |
| `WordForm.FormState.SetNewExampleTranslation` | src/components/WordForm.tsx:278 | typing sets the translation input |
| `WordForm.FormState.AddMeaning` | src/components/WordForm.tsx:179-187 | a non-blank input appends exactly one meaning with the trimmed text at the end and clears the input; a blank input changes nothing |
| `WordForm.FormState.RemoveMeaning` | src/components/WordForm.tsx:189-191 | the meanings become the list without the entries of that id |
| `WordForm.FormState.AddExample` | src/components/WordForm.tsx:193-206 | with both inputs non-blank, appends one example with the trimmed texts and no span and clears both inputs; otherwise nothing changes |
| `WordForm.FormState.RemoveExample` | src/components/WordForm.tsx:208-210 | the examples become the list without the entries of that id |
| `WordForm.FormState.Submit` | src/components/WordForm.tsx:212-225 | a word is emitted exactly when the word is non-blank and a meaning is pending; it carries the trimmed word and the pending meanings and examples, after which word, meanings and examples are empty; a rejected submit changes nothing |
| `App.FormWordsAreQuizzable` | src/App.tsx:104-106 | every word the form emits has a meaning, which word-mode generation needs |
| `App.AppState.constructor` | src/App.tsx:69-70 | the app starts on the "add" tab with an empty collection |
| `App.AppState.SelectTab` | src/App.tsx:82-99 | each navigation button sets the tab to exactly its own |
| `App.AppState.HandleAddWord` | src/App.tsx:72-74 | the new word is appended at the end, the collection grows by one and earlier words keep their places |
| `App.AppState.SubmitForm` | src/App.tsx:104 | a word is emitted exactly when the form's word is non-blank and a meaning is pending; it holds the trimmed word and the pending meanings and examples, is appended to the collection, and the form's word, meanings and examples are cleared; a rejected submit changes neither the collection nor the form |
| `App.AppState.ListView` | src/App.tsx:105 | the list tab shows one card per stored word, in order |
| `App.AppState.RefreshQuiz` | src/App.tsx:106 | regenerating the quiz from the stored words always meets the word-mode precondition; an empty collection leaves quiz, selection and reveal flag as they were, otherwise the generated quiz is installed, the selection cleared and the answer hidden |
| `App.StoredExamplesRepeatSentence` | src/components/WordList.tsx:88-97 | every example stored through the form is listed as its sentence, an empty highlight and its sentence again, which does not read as the sentence |
| `App.StoredBlankQuizRepeatsSentence` | src/components/Quiz.tsx:243-248 | a fill-in-blank quiz over stored examples shows the whole sentence on both sides of the blank |

## Findings

| source | as written | input that shows it | evidently intended | confidence | as-written member | corrected member |
|---|---|---|---|---|---|---|
| src/components/WordList.tsx:88-97 | the split reads `wordPosition`/`wordLength`, which the form never sets (src/components/WordForm.tsx:197-201); `slice(0, undefined)` and `slice(NaN)` both return the whole sentence and the highlight is empty | any example added through the form, e.g. sentence "I run" with no span, renders as "I run" + "" + "I run" | the sentence shown once | high; not executed | `WordList.SplitWithoutSpan` | `WordList.SplitShowsSentenceOnce` |
| src/components/Quiz.tsx:183-186 | in example mode, a drawn word without examples makes generation call itself again, with no bound | a collection where no word has an example (say one word "run" with no examples) and the example-mode button pressed: every draw fails, and the recursion runs until the stack overflows | example mode offers no quiz, or draws only among words that have examples | high; not executed | `QuizScreen.RetryNeverStopsWithoutExamples` | `QuizScreen.GenerateExampleQuiz` |

## Left out

- Local-storage persistence, a score counter and word deletion: the code has none of them.
- The service-worker registration, the React root, all styled components, themes, layout and the drag-and-drop wrapper around the fill-in-blank answer: no behaviour to verify.
- The distribution of `Math.random()`: each draw is a caller-supplied natural number reduced into its range, and the random-comparator sort is `Js.Shuffle` over caller-supplied draws. Uniformity is not modelled; `Js.ShuffleReachesAll` shows that no ordering is excluded.
- `uuidv4()`: fresh ids are parameters. `AddMeaning` and `AddExample` require the id to differ from every pending one, which stands for the uniqueness of random UUIDs.
- `useEffect` scheduling: the regeneration after a change of the collection or the quiz type is the explicit call `App.AppState.RefreshQuiz` (or `QuizState.GenerateNewQuiz`).
- React mounting: only the active tab's component is mounted, so switching tabs discards the form's pending input and the quiz state (including the quiz type). The classes model one mounted lifetime each.
- QuizScreen.QuizState.GenerateNewQuiz: requires that some draw picks a word with examples in example mode. When no word has examples the code recurses until the browser's stack overflows; the model does not run that case, and records it under "## Findings" instead (`QuizScreen.RetryNeverStopsWithoutExamples`, corrected by `QuizScreen.GenerateExampleQuiz`).
- QuizScreen.Generate: requires every word to have a meaning in word mode; on a word without one the code throws a TypeError, which is not modelled. Words stored by the form always have one (`App.FormWordsAreQuizzable`).
- QuizScreen.QuizState.ClickOption: requires the option to be one of the current quiz's options, since the buttons exist only for those; the handler itself accepts any string.
- Strings are sequences of Unicode scalar values, while JavaScript indexes UTF-16 code units: positions in sentences with characters outside the Basic Multilingual Plane are not modelled.
- Positions are integers, `undefined` or `NaN`; fractional and infinite numbers are not modelled.
- `trim` removes the characters listed in `Js.IsSpace` (the ECMAScript white space and line terminators, with the Unicode space separators listed out); later Unicode additions are not tracked.
- The browser's `required` check on the word input: it only blocks an empty word, which `Submit` rejects anyway.
- Duplicate React keys when two options have the same text: a rendering warning with no state effect.
