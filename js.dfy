/** The JavaScript built-ins the application's logic is made of: `String.prototype.slice` and
    `Array.prototype.slice` on the numbers the code passes them (including `undefined` and `NaN`),
    `String.prototype.trim`, `Array.prototype.filter`, and `sort` with a random comparator. */
module Js {
  import opened Types

  /** A JavaScript number as it reaches the slicing code: an integer, `undefined` or `NaN`. */
  datatype Num = Int(i: int) | Undefined | NaN

  /** An optional numeric field read as a number: absent reads as `undefined`. */
  function FromOptional(o: Option<int>): Num {
    if o.Some? then Int(o.value) else Undefined
  }

  /** `a + b`: `undefined` or `NaN` on either side gives `NaN`. */
  function Plus(a: Num, b: Num): Num {
    if a.Int? && b.Int? then Int(a.i + b.i) else NaN
  }

  /** ToIntegerOrInfinity on the values above: `undefined` and `NaN` both become 0. */
  function ToInteger(n: Num): int {
    if n.Int? then n.i else 0
  }

  /** The index a relative position denotes in a sequence of length `len`:
      a negative position counts from the end, and the result lies in [0, len]. */
  function Clamp(k: int, len: nat): (r: nat)
    ensures r <= len
    ensures 0 <= k <= len ==> r == k
    ensures k >= len ==> r == len
    ensures k < 0 ==> r == if len + k < 0 then 0 else len + k
  {
    if k < 0 then (if len + k < 0 then 0 else len + k)
    else if k > len then len
    else k
  }

  /** `r` is a contiguous piece of `s`. */
  ghost predicate IsPiece<T>(r: seq<T>, s: seq<T>) {
    exists a, b :: 0 <= a <= b <= |s| && r == s[a..b]
  }

  /** `s.slice(start, end)`; an `undefined` end means the end of `s`. */
  function Slice<T>(s: seq<T>, start: Num, end: Num): (r: seq<T>)
    ensures IsPiece(r, s)
    ensures start.Int? && end.Int? && 0 <= start.i <= end.i <= |s| ==> r == s[start.i..end.i]
    ensures start.Int? && end.Undefined? && 0 <= start.i <= |s| ==> r == s[start.i..]
  {
    var from := Clamp(ToInteger(start), |s|);
    var to := if end.Undefined? then |s| else Clamp(ToInteger(end), |s|);
    if from < to then
      assert s[from..to] == s[from..to];
      s[from..to]
    else
      assert [] == s[0..0];
      []
  }

  /** The characters `trim` removes: the ECMAScript WhiteSpace and LineTerminator sets,
      with the Unicode space separators (category Zs) listed out. */
  predicate IsSpace(c: char) {
    c == ' ' || c == '\t' || c == '\n' || c == '\r' || c == '\U{000B}' || c == '\U{000C}'
    || c == '\U{00A0}' || c == '\U{1680}' || ('\U{2000}' <= c <= '\U{200A}')
    || c == '\U{2028}' || c == '\U{2029}' || c == '\U{202F}' || c == '\U{205F}'
    || c == '\U{3000}' || c == '\U{FEFF}'
  }

  predicate IsBlank(s: string) {
    forall i :: 0 <= i < |s| ==> IsSpace(s[i])
  }

  /** `s` with its leading white space removed. */
  function TrimStart(s: string): string
    decreases |s|
  {
    if s != [] && IsSpace(s[0]) then TrimStart(s[1..]) else s
  }

  /** `TrimStart` keeps a suffix, removes only white space, and leaves no white space in front. */
  lemma {:induction false} TrimStartSpec(s: string)
    ensures var r := TrimStart(s);
      && |r| <= |s| && r == s[|s| - |r|..]
      && IsBlank(s[..|s| - |r|])
      && (r == [] || !IsSpace(r[0]))
    decreases |s|
  {
    if s != [] && IsSpace(s[0]) {
      TrimStartSpec(s[1..]);
      var r := TrimStart(s);
      var k := |s| - |r|;
      assert s[1..][..k - 1] == s[1..k];
      forall i | 0 <= i < k ensures IsSpace(s[..k][i]) {
        if i > 0 { assert s[..k][i] == s[1..][..k - 1][i - 1]; }
      }
    } else {
      assert s[..0] == [];
    }
  }

  /** `s` with its trailing white space removed. */
  function TrimEnd(s: string): string
    decreases |s|
  {
    if s != [] && IsSpace(s[|s| - 1]) then TrimEnd(s[..|s| - 1]) else s
  }

  /** `TrimEnd` keeps a prefix, removes only white space, and leaves no white space at the end. */
  lemma {:induction false} TrimEndSpec(s: string)
    ensures var r := TrimEnd(s);
      && |r| <= |s| && r == s[..|r|]
      && IsBlank(s[|r|..])
      && (r == [] || !IsSpace(r[|r| - 1]))
    decreases |s|
  {
    if s != [] && IsSpace(s[|s| - 1]) {
      var p := s[..|s| - 1];
      TrimEndSpec(p);
      var r := TrimEnd(s);
      assert r == TrimEnd(p);
      assert p[..|r|] == s[..|r|];
      forall i | |r| <= i < |s| ensures IsSpace(s[i]) {
        if i < |s| - 1 { assert s[i] == p[|r|..][i - |r|]; }
      }
      assert forall i :: 0 <= i < |s[|r|..]| ==> s[|r|..][i] == s[|r| + i];
    } else {
      assert s[|s|..] == [];
    }
  }

  /** `s.trim()`. It is empty (falsy) exactly when `s` is blank, and it neither starts nor ends
      with white space. */
  function Trim(s: string): (r: string)
    ensures r == [] <==> IsBlank(s)
    ensures r == [] || (!IsSpace(r[0]) && !IsSpace(r[|r| - 1]))
  {
    var t := TrimStart(s);
    TrimStartSpec(s);
    var r := TrimEnd(t);
    TrimEndSpec(t);
    assert r == [] ==> IsBlank(s) by {
      if r == [] {
        var a := |s| - |t|;
        forall i | 0 <= i < |s| ensures IsSpace(s[i]) {
          assert s[i] == s[..a][i];
        }
      }
    }
    r
  }

  /** What `trim` removes is white space at the two ends, and what it keeps is the piece between. */
  lemma TrimIsInnerPiece(s: string)
    ensures exists a, b :: 0 <= a <= b <= |s| && Trim(s) == s[a..b] && IsBlank(s[..a]) && IsBlank(s[b..])
  {
    var t := TrimStart(s);
    TrimStartSpec(s);
    var r := TrimEnd(t);
    TrimEndSpec(t);
    var a := |s| - |t|;
    var b := a + |r|;
    assert s[a..] == t;
    assert r == s[a..b];
    assert s[b..] == t[|r|..];
  }

  /** Trimming an already trimmed string changes nothing, so a stored trimmed entry stays trimmed. */
  lemma TrimIdempotent(s: string)
    ensures Trim(Trim(s)) == Trim(s)
  {
    var r := Trim(s);
    assert TrimStart(r) == r;
    assert TrimEnd(r) == r;
  }

  /** `xs.filter(keep)`: only elements of `xs` that pass `keep`. */
  function Filter<T>(xs: seq<T>, keep: T -> bool): (r: seq<T>)
    ensures |r| <= |xs|
    ensures forall k :: 0 <= k < |r| ==> r[k] in xs && keep(r[k])
  {
    if xs == [] then []
    else (if keep(xs[0]) then [xs[0]] else []) + Filter(xs[1..], keep)
  }

  /** Filtering keeps every element that passes with its multiplicity and drops every other. */
  lemma {:induction false} FilterCount<T>(xs: seq<T>, keep: T -> bool, x: T)
    ensures multiset(Filter(xs, keep))[x] == if keep(x) then multiset(xs)[x] else 0
  {
    if xs != [] {
      assert xs == [xs[0]] + xs[1..];
      FilterCount(xs[1..], keep, x);
    }
  }

  /** Filtering keeps relative order: it distributes over concatenation. */
  lemma {:induction false} FilterAppend<T>(a: seq<T>, b: seq<T>, keep: T -> bool)
    ensures Filter(a + b, keep) == Filter(a, keep) + Filter(b, keep)
  {
    if a != [] {
      FilterAppend(a[1..], b, keep);
      assert (a + b)[0] == a[0];
      assert (a + b)[1..] == a[1..] + b;
    } else {
      assert a + b == b;
    }
  }

  /** A filter that rejects nothing returns its input unchanged. */
  lemma {:induction false} FilterKeepsAll<T>(xs: seq<T>, keep: T -> bool)
    requires forall x :: x in xs ==> keep(x)
    ensures Filter(xs, keep) == xs
  {
    if xs != [] {
      FilterKeepsAll(xs[1..], keep);
    }
  }

  /** `Math.floor(Math.random() * n)` with the random number supplied by the caller as the
      first of `draws` (0 when there is none), reduced into [0, n). */
  function Pick(draws: seq<nat>, n: nat): (i: nat)
    requires n > 0
    ensures i < n
  {
    (if draws == [] then 0 else draws[0]) % n
  }

  /** `xs.slice(0, n)` for a non-negative `n`: the first `min(n, |xs|)` elements, which occur in
      `xs` at least as often. */
  lemma SliceTake<T>(xs: seq<T>, n: nat)
    ensures Slice(xs, Int(0), Int(n)) == xs[..Min(n, |xs|)]
    ensures multiset(xs[..Min(n, |xs|)]) <= multiset(xs)
  {
    var m := Min(n, |xs|);
    assert Clamp(n, |xs|) == m;
    assert xs == xs[..m] + xs[m..];
  }

  lemma ModOfSmall(i: nat, n: nat)
    requires i < n
    ensures i % n == i
  {
  }

  /** `xs.sort(() => Math.random() - 0.5)` with the randomness supplied by the caller:
      each step moves the element at `draws[k] mod (elements left)` to the front of the result
      (a missing draw counts as 0). */
  function Shuffle<T>(xs: seq<T>, draws: seq<nat>): (r: seq<T>)
    ensures |r| == |xs|
    ensures multiset(r) == multiset(xs)
    decreases |xs|
  {
    if xs == [] then []
    else
      var i := Pick(draws, |xs|);
      assert xs == xs[..i] + [xs[i]] + xs[i + 1..];
      [xs[i]] + Shuffle(xs[..i] + xs[i + 1..], if draws == [] then [] else draws[1..])
  }

  /** Removing the element at `i` removes exactly one occurrence of it. */
  lemma RemoveAt<T>(xs: seq<T>, i: nat)
    requires i < |xs|
    ensures multiset(xs[..i] + xs[i + 1..]) == multiset(xs) - multiset{xs[i]}
  {
    assert xs == xs[..i] + [xs[i]] + xs[i + 1..];
  }

  /** A first draw of `i` puts `xs[i]` in front of a shuffle of the others. */
  lemma ShuffleFirst<T>(xs: seq<T>, i: nat, d: seq<nat>)
    requires i < |xs|
    ensures Shuffle(xs, [i] + d) == [xs[i]] + Shuffle(xs[..i] + xs[i + 1..], d)
  {
    var draws := [i] + d;
    assert draws != [] && draws[0] == i && draws[1..] == d;
    ModOfSmall(i, |xs|);
    assert Pick(draws, |xs|) == i;
  }

  /** Every reordering of `xs` is the outcome of some draws: the model of the random sort
      does not rule out any order the browser's sort could produce. */
  lemma {:induction false} ShuffleReachesAll<T>(xs: seq<T>, ys: seq<T>) returns (draws: seq<nat>)
    requires multiset(ys) == multiset(xs)
    ensures Shuffle(xs, draws) == ys
    decreases |xs|
  {
    if xs == [] {
      assert |ys| == |multiset(ys)| == 0;
      draws := [];
    } else {
      assert |ys| == |xs| by {
        assert |ys| == |multiset(ys)| == |multiset(xs)| == |xs|;
      }
      var head, tail := ys[0], ys[1..];
      assert ys == [head] + tail;
      assert ys[0] in xs by {
        assert ys[0] in multiset(ys);
      }
      var i: nat :| i < |xs| && xs[i] == ys[0];
      var rest := xs[..i] + xs[i + 1..];
      assert multiset(tail) == multiset(rest) by {
        RemoveAt(xs, i);
        RemoveAt(ys, 0);
        assert ys[..0] + ys[1..] == tail;
      }
      var d := ShuffleReachesAll(rest, tail);
      draws := [i] + d;
      ShuffleFirst(xs, i, d);
    }
  }
}
