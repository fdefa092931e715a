/** The word list of src/components/WordList.tsx: a read-only rendering of the collection, with
    each example sentence split around its highlighted span. */
module WordList {
  import opened Types
  import opened Js

  /** An example sentence in three pieces: before, highlighted, after. */
  datatype Highlight = Highlight(before: string, marked: string, after: string)

  function Joined(h: Highlight): string {
    h.before + h.marked + h.after
  }

  /** The split exactly as the list computes it: `slice(0, wordPosition)`,
      `slice(wordPosition, wordPosition + wordLength)` and `slice(wordPosition + wordLength)`,
      with absent fields read as `undefined`. Each piece is a contiguous piece of the sentence
      whatever the fields hold. */
  function SplitAsWritten(e: Example): (h: Highlight)
    ensures IsPiece(h.before, e.sentence) && IsPiece(h.marked, e.sentence) && IsPiece(h.after, e.sentence)
  {
    var pos := FromOptional(e.wordPosition);
    var end := Plus(pos, FromOptional(e.wordLength));
    Highlight(Slice(e.sentence, Int(0), pos), Slice(e.sentence, pos, end), Slice(e.sentence, end, Undefined))
  }

  /** With a span inside the sentence, the highlighted piece is that span and the three pieces
      give back the sentence. */
  lemma SplitInBounds(e: Example, pos: int, len: int)
    requires e.wordPosition == Some(pos) && e.wordLength == Some(len)
    requires 0 <= pos && 0 <= len && pos + len <= |e.sentence|
    ensures SplitAsWritten(e).marked == e.sentence[pos..pos + len]
    ensures |SplitAsWritten(e).marked| == len
    ensures Joined(SplitAsWritten(e)) == e.sentence
  {
    var s := e.sentence;
    assert s == s[..pos] + s[pos..pos + len] + s[pos + len..];
  }

  /** A non-negative span that runs past the end is clamped: the pieces still give back the sentence. */
  lemma SplitNonNegative(e: Example, pos: int, len: int)
    requires e.wordPosition == Some(pos) && e.wordLength == Some(len)
    requires 0 <= pos && 0 <= len
    ensures Joined(SplitAsWritten(e)) == e.sentence
  {
    var s := e.sentence;
    var a := Clamp(pos, |s|);
    var b := Clamp(pos + len, |s|);
    assert a <= b;
    var h := SplitAsWritten(e);
    assert h.before == s[..a];
    assert h.marked == s[a..b];
    assert h.after == s[b..];
    assert s == s[..a] + s[a..b] + s[b..];
  }

  /** Without a position (every example the entry form creates), the sentence is shown twice:
      once before and once after an empty highlight. */
  lemma SplitWithoutSpan(e: Example)
    requires e.wordPosition.None?
    ensures SplitAsWritten(e) == Highlight(e.sentence, [], e.sentence)
    ensures e.sentence != [] ==> Joined(SplitAsWritten(e)) != e.sentence
  {
    var s := e.sentence;
    assert s[0..|s|] == s;
    assert |Joined(SplitAsWritten(e))| == 2 * |s|;
  }

  /** The split the list evidently intends: with no span recorded, the sentence once with nothing
      highlighted; otherwise the split as written. */
  function Split(e: Example): (h: Highlight)
    ensures e.wordPosition.None? || e.wordLength.None? ==> h == Highlight(e.sentence, [], [])
    ensures e.wordPosition.Some? && e.wordLength.Some? ==> h == SplitAsWritten(e)
  {
    if e.wordPosition.Some? && e.wordLength.Some? then SplitAsWritten(e)
    else Highlight(e.sentence, [], [])
  }

  /** The intended split shows each sentence exactly once whenever the recorded span, if any,
      is non-negative. */
  lemma SplitShowsSentenceOnce(e: Example)
    requires e.wordPosition.Some? ==> e.wordPosition.value >= 0
    requires e.wordLength.Some? ==> e.wordLength.value >= 0
    ensures Joined(Split(e)) == e.sentence
  {
    if e.wordPosition.Some? && e.wordLength.Some? {
      SplitNonNegative(e, e.wordPosition.value, e.wordLength.value);
    } else {
      assert Joined(Split(e)) == e.sentence + [] + [];
    }
  }

  datatype ExampleItem = ExampleItem(text: Highlight, translation: string)

  /** One card: the word, its definitions and its examples, each in stored order. */
  datatype WordCard = WordCard(title: string, definitions: seq<string>, examples: seq<ExampleItem>)

  function Card(w: Word): (c: WordCard)
    ensures c.title == w.word
    ensures |c.definitions| == |w.meanings| && |c.examples| == |w.examples|
    ensures forall j :: 0 <= j < |w.meanings| ==> c.definitions[j] == w.meanings[j].definition
    ensures forall j :: 0 <= j < |w.examples| ==>
              c.examples[j] == ExampleItem(SplitAsWritten(w.examples[j]), w.examples[j].translation)
  {
    WordCard(
      w.word,
      seq(|w.meanings|, j requires 0 <= j < |w.meanings| => w.meanings[j].definition),
      seq(|w.examples|, j requires 0 <= j < |w.examples| => ExampleItem(SplitAsWritten(w.examples[j]), w.examples[j].translation)))
  }

  /** The card as evidently intended: the same card with each example split by `Split`. */
  function IntendedCard(w: Word): (c: WordCard)
    ensures c.title == w.word && c.definitions == Card(w).definitions && |c.examples| == |w.examples|
    ensures forall j :: 0 <= j < |w.examples| ==>
              c.examples[j] == ExampleItem(Split(w.examples[j]), w.examples[j].translation)
  {
    var card := Card(w);
    card.(examples := seq(|w.examples|, j requires 0 <= j < |w.examples| =>
                            ExampleItem(Split(w.examples[j]), w.examples[j].translation)))
  }

  /** On the intended card every example sentence reads exactly once when no span is negative. */
  lemma IntendedCardShowsSentencesOnce(w: Word, j: nat)
    requires j < |w.examples|
    requires w.examples[j].wordPosition.Some? ==> w.examples[j].wordPosition.value >= 0
    requires w.examples[j].wordLength.Some? ==> w.examples[j].wordLength.value >= 0
    ensures Joined(IntendedCard(w).examples[j].text) == w.examples[j].sentence
  {
    SplitShowsSentenceOnce(w.examples[j]);
  }

  /** `words.map(...)`: one card per word, in collection order. */
  function RenderList(words: seq<Word>): (cards: seq<WordCard>)
    ensures |cards| == |words|
    ensures forall i :: 0 <= i < |words| ==> cards[i].title == words[i].word
    ensures forall i :: 0 <= i < |words| ==> cards[i] == Card(words[i])
  {
    if words == [] then [] else [Card(words[0])] + RenderList(words[1..])
  }

  /** Adding a word at the end of the collection adds its card at the end of the list and leaves
      every earlier card as it was. */
  lemma {:induction false} RenderAppend(words: seq<Word>, w: Word)
    ensures RenderList(words + [w]) == RenderList(words) + [Card(w)]
  {
    var l := RenderList(words + [w]);
    var r := RenderList(words) + [Card(w)];
    assert |l| == |r|;
    forall i | 0 <= i < |l| ensures l[i] == r[i] {
      if i < |words| {
        assert (words + [w])[i] == words[i];
      } else {
        assert (words + [w])[i] == w;
      }
    }
  }

  /** An example sentence on a card reads exactly once when its span is recorded and not negative. */
  lemma CardsShowSentencesOnce(words: seq<Word>, i: nat, j: nat)
    requires i < |words| && j < |words[i].examples|
    requires words[i].examples[j].wordPosition.Some? && words[i].examples[j].wordPosition.value >= 0
    requires words[i].examples[j].wordLength.Some? && words[i].examples[j].wordLength.value >= 0
    ensures j < |RenderList(words)[i].examples|
    ensures Joined(RenderList(words)[i].examples[j].text) == words[i].examples[j].sentence
  {
    var e := words[i].examples[j];
    SplitNonNegative(e, e.wordPosition.value, e.wordLength.value);
  }
}
