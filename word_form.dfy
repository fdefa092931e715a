/** The entry form of src/components/WordForm.tsx: pending meanings and examples, validated by
    trimming, removable by id, and submitted as one new word. Fresh ids (`uuidv4()`) are parameters. */
module WordForm {
  import opened Types
  import opened Js

  /** Text as the form stores it: not empty, and white space at neither end. */
  predicate IsEntry(s: string) {
    s != [] && !IsSpace(s[0]) && !IsSpace(s[|s| - 1])
  }

  /** An entry is its own trimmed text. */
  lemma EntryIsTrimmed(s: string)
    requires IsEntry(s)
    ensures Trim(s) == s
  {
    assert TrimStart(s) == s;
    assert TrimEnd(s) == s;
  }

  /** The trimmed text of a non-blank input is an entry, and trimming it again changes nothing. */
  lemma TrimmedIsEntry(s: string)
    requires !IsBlank(s)
    ensures IsEntry(Trim(s)) && Trim(Trim(s)) == Trim(s)
  {
    EntryIsTrimmed(Trim(s));
  }

  predicate IsFormMeaning(m: Meaning) {
    IsEntry(m.definition)
  }

  /** An example as the form builds it: trimmed sentence and translation, and no highlighted span. */
  predicate IsFormExample(e: Example) {
    IsEntry(e.sentence) && IsEntry(e.translation) && e.wordPosition.None? && e.wordLength.None?
  }

  /** A word as the form emits it. */
  predicate IsFormWord(w: Word) {
    && IsEntry(w.word)
    && |w.meanings| > 0
    && (forall m :: m in w.meanings ==> IsFormMeaning(m))
    && (forall e :: e in w.examples ==> IsFormExample(e))
  }

  /** `meanings.filter((meaning) => meaning.id !== id)`. */
  function WithoutMeaning(meanings: seq<Meaning>, id: string): (r: seq<Meaning>)
    ensures forall k :: 0 <= k < |r| ==> r[k] in meanings && r[k].id != id
  {
    Filter(meanings, (m: Meaning) => m.id != id)
  }

  /** `examples.filter((example) => example.id !== id)`. */
  function WithoutExample(examples: seq<Example>, id: string): (r: seq<Example>)
    ensures forall k :: 0 <= k < |r| ==> r[k] in examples && r[k].id != id
  {
    Filter(examples, (e: Example) => e.id != id)
  }

  /** Removal drops every meaning with the id, keeps every other one as often as it occurs,
      and keeps their order (removal distributes over concatenation). */
  lemma WithoutMeaningExact(a: seq<Meaning>, b: seq<Meaning>, id: string, m: Meaning)
    ensures multiset(WithoutMeaning(a, id))[m] == if m.id != id then multiset(a)[m] else 0
    ensures WithoutMeaning(a + b, id) == WithoutMeaning(a, id) + WithoutMeaning(b, id)
  {
    FilterCount(a, (x: Meaning) => x.id != id, m);
    FilterAppend(a, b, (x: Meaning) => x.id != id);
  }

  /** The same for examples. */
  lemma WithoutExampleExact(a: seq<Example>, b: seq<Example>, id: string, e: Example)
    ensures multiset(WithoutExample(a, id))[e] == if e.id != id then multiset(a)[e] else 0
    ensures WithoutExample(a + b, id) == WithoutExample(a, id) + WithoutExample(b, id)
  {
    FilterCount(a, (x: Example) => x.id != id, e);
    FilterAppend(a, b, (x: Example) => x.id != id);
  }

  /** Removing a meaning right after adding it under a fresh id restores the list. */
  lemma RemoveUndoesAddMeaning(meanings: seq<Meaning>, m: Meaning)
    requires forall x :: x in meanings ==> x.id != m.id
    ensures WithoutMeaning(meanings + [m], m.id) == meanings
  {
    var keep := (x: Meaning) => x.id != m.id;
    FilterAppend(meanings, [m], keep);
    FilterKeepsAll(meanings, keep);
    assert Filter([m], keep) == [];
  }

  /** Removing an example right after adding it under a fresh id restores the list. */
  lemma RemoveUndoesAddExample(examples: seq<Example>, e: Example)
    requires forall x :: x in examples ==> x.id != e.id
    ensures WithoutExample(examples + [e], e.id) == examples
  {
    var keep := (x: Example) => x.id != e.id;
    FilterAppend(examples, [e], keep);
    FilterKeepsAll(examples, keep);
    assert Filter([e], keep) == [];
  }

  /** The state of the entry form. */
  class FormState {
    var word: string
    var meanings: seq<Meaning>
    var newMeaning: string
    var examples: seq<Example>
    var newExample: string
    var newExampleTranslation: string

    /** Every pending meaning and example passed the form's validation. */
    ghost predicate Valid()
      reads this
    {
      (forall m :: m in meanings ==> IsFormMeaning(m)) && (forall e :: e in examples ==> IsFormExample(e))
    }

    constructor()
      ensures Valid()
      ensures word == [] && meanings == [] && newMeaning == []
      ensures examples == [] && newExample == [] && newExampleTranslation == []
    {
      word, meanings, newMeaning := [], [], [];
      examples, newExample, newExampleTranslation := [], [], [];
    }

    /** The word input's `onChange`. */
    method SetWord(s: string)
      modifies this`word
      ensures word == s
    {
      word := s;
    }

    /** The meaning input's `onChange`. */
    method SetNewMeaning(s: string)
      modifies this`newMeaning
      ensures newMeaning == s
    {
      newMeaning := s;
    }

    /** The example inputs' `onChange`. */
    method SetNewExample(s: string)
      modifies this`newExample
      ensures newExample == s
    {
      newExample := s;
    }

    method SetNewExampleTranslation(s: string)
      modifies this`newExampleTranslation
      ensures newExampleTranslation == s
    {
      newExampleTranslation := s;
    }

    /** `handleAddMeaning`: a non-blank input is appended, trimmed, and the input cleared;
        a blank input changes nothing. */
    method AddMeaning(freshId: string)
      requires Valid()
      requires forall m :: m in meanings ==> m.id != freshId
      modifies this`meanings, this`newMeaning
      ensures Valid()
      ensures !IsBlank(old(newMeaning)) ==>
                meanings == old(meanings) + [Meaning(freshId, Trim(old(newMeaning)))] && newMeaning == []
      ensures IsBlank(old(newMeaning)) ==> meanings == old(meanings) && newMeaning == old(newMeaning)
    {
      if Trim(newMeaning) != [] {
        var m := Meaning(freshId, Trim(newMeaning));
        assert IsFormMeaning(m) by {
          TrimmedIsEntry(newMeaning);
        }
        meanings := meanings + [m];
        newMeaning := [];
      }
    }

    /** `handleRemoveMeaning`. */
    method RemoveMeaning(id: string)
      requires Valid()
      modifies this`meanings
      ensures Valid()
      ensures meanings == WithoutMeaning(old(meanings), id)
    {
      meanings := WithoutMeaning(meanings, id);
    }

    /** `handleAddExample`: both inputs must be non-blank; the example records the id and the
        trimmed texts only, and both inputs are cleared. Otherwise nothing changes. */
    method AddExample(freshId: string)
      requires Valid()
      requires forall e :: e in examples ==> e.id != freshId
      modifies this`examples, this`newExample, this`newExampleTranslation
      ensures Valid()
      ensures !IsBlank(old(newExample)) && !IsBlank(old(newExampleTranslation)) ==>
                && examples == old(examples) + [Example(freshId, Trim(old(newExample)), Trim(old(newExampleTranslation)), None, None)]
                && newExample == [] && newExampleTranslation == []
      ensures IsBlank(old(newExample)) || IsBlank(old(newExampleTranslation)) ==>
                && examples == old(examples)
                && newExample == old(newExample) && newExampleTranslation == old(newExampleTranslation)
    {
      var sentence, translation := Trim(newExample), Trim(newExampleTranslation);
      if sentence != [] && translation != [] {
        assert IsEntry(sentence) by {
          TrimmedIsEntry(newExample);
        }
        assert IsEntry(translation) by {
          TrimmedIsEntry(newExampleTranslation);
        }
        var e := Example(freshId, sentence, translation, None, None);
        assert IsFormExample(e);
        examples := examples + [e];
        newExample := [];
        newExampleTranslation := [];
      }
    }

    /** `handleRemoveExample`. */
    method RemoveExample(id: string)
      requires Valid()
      modifies this`examples
      ensures Valid()
      ensures examples == WithoutExample(old(examples), id)
    {
      examples := WithoutExample(examples, id);
    }

    /** `handleSubmit`: emits a word (for `onAddWord`) only when the word is non-blank and at least
        one meaning is pending, then clears the word, meanings and examples; the pending inputs
        are left as they are. A rejected submit changes nothing. */
    method Submit(freshId: string) returns (emitted: Option<Word>)
      requires Valid()
      modifies this`word, this`meanings, this`examples
      ensures Valid()
      ensures emitted.Some? <==> !IsBlank(old(word)) && |old(meanings)| > 0
      ensures emitted.Some? ==>
                && emitted.value == Word(freshId, Trim(old(word)), old(meanings), old(examples))
                && IsFormWord(emitted.value)
                && word == [] && meanings == [] && examples == []
      ensures emitted.None? ==> word == old(word) && meanings == old(meanings) && examples == old(examples)
    {
      if Trim(word) != [] && |meanings| > 0 {
        TrimmedIsEntry(word);
        emitted := Some(Word(freshId, Trim(word), meanings, examples));
        word, meanings, examples := [], [], [];
      } else {
        emitted := None;
      }
    }
  }
}
