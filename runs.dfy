/**
  Maximal runs of a character class, element filtering and concatenation.
  The settings and the command line extract words with the regular
  expressions `\w+` and `[^\d\W]+` over ASCII text; both find exactly the
  maximal non-empty runs of one byte class, left to right. Splitting on ASCII
  whitespace (`str::split_ascii_whitespace`) is the same operation with the
  class "not whitespace".
 */
module Runs {

  predicate AllIn<T>(w: seq<T>, inClass: T -> bool) {
    forall k :: 0 <= k < |w| ==> inClass(w[k])
  }

  /** Index of the first element outside the class, or |s| when there is none. */
  function FirstOutside<T>(s: seq<T>, inClass: T -> bool): (i: nat)
    ensures i <= |s|
    ensures AllIn(s[..i], inClass)
    ensures i < |s| ==> !inClass(s[i])
    decreases |s|
  {
    if s == [] || !inClass(s[0]) then 0 else 1 + FirstOutside(s[1..], inClass)
  }

  /** The maximal non-empty runs of class elements of `s`, in textual order. */
  function Runs<T>(s: seq<T>, inClass: T -> bool): seq<seq<T>>
    decreases |s|
  {
    var i := FirstOutside(s, inClass);
    (if i == 0 then [] else [s[..i]]) + (if i == |s| then [] else Runs(s[i + 1..], inClass))
  }

  function Flatten<T>(ws: seq<seq<T>>): seq<T> {
    if ws == [] then [] else Flatten(ws[..|ws| - 1]) + ws[|ws| - 1]
  }

  /** `String::retain` / `Iterator::filter`: the kept elements, in order. */
  function Filter<T>(s: seq<T>, keep: T -> bool): (r: seq<T>)
    ensures |r| <= |s|
    ensures AllIn(r, keep)
  {
    if s == [] then []
    else Filter(s[..|s| - 1], keep) + (if keep(s[|s| - 1]) then [s[|s| - 1]] else [])
  }

  lemma {:induction false} FlattenAppend<T>(a: seq<seq<T>>, b: seq<seq<T>>)
    ensures Flatten(a + b) == Flatten(a) + Flatten(b)
  {
    if b == [] {
      assert a + b == a;
    } else {
      assert (a + b)[..|a + b| - 1] == a + b[..|b| - 1];
      FlattenAppend(a, b[..|b| - 1]);
    }
  }

  lemma {:induction false} FilterAppend<T>(a: seq<T>, b: seq<T>, keep: T -> bool)
    ensures Filter(a + b, keep) == Filter(a, keep) + Filter(b, keep)
  {
    if b == [] {
      assert a + b == a;
    } else {
      assert (a + b)[..|a + b| - 1] == a + b[..|b| - 1];
      FilterAppend(a, b[..|b| - 1], keep);
    }
  }

  lemma {:induction false} FilterAll<T>(s: seq<T>, keep: T -> bool)
    requires AllIn(s, keep)
    ensures Filter(s, keep) == s
  {
    if s != [] {
      FilterAll(s[..|s| - 1], keep);
    }
  }

  /** Every run is non-empty and lies wholly inside the class. */
  lemma {:induction false} RunsAreWords<T>(s: seq<T>, inClass: T -> bool)
    ensures forall w :: w in Runs(s, inClass) ==> |w| > 0 && AllIn(w, inClass)
    decreases |s|
  {
    var i := FirstOutside(s, inClass);
    if i < |s| {
      RunsAreWords(s[i + 1..], inClass);
    }
  }

  /** A separator outside the class ends a run: runs never cross it. */
  lemma {:induction false} RunsSplit<T>(a: seq<T>, sep: T, b: seq<T>, inClass: T -> bool)
    requires !inClass(sep)
    ensures Runs(a + [sep] + b, inClass) == Runs(a, inClass) + Runs(b, inClass)
    decreases |a|
  {
    var i := FirstOutside(a, inClass);
    var head: seq<seq<T>> := if i == 0 then [] else [a[..i]];
    if i == |a| {
      RunsSplitLast(a, sep, b, inClass);
    } else {
      var tail := a[i + 1..];
      RunsSplitStep(a, sep, b, inClass);
      RunsSplit(tail, sep, b, inClass);
      ConcatAssoc(head, Runs(tail, inClass), Runs(b, inClass));
    }
  }

  /** `a` holds no separator of its own: it is the run just before `sep`. */
  lemma RunsSplitLast<T>(a: seq<T>, sep: T, b: seq<T>, inClass: T -> bool)
    requires !inClass(sep) && FirstOutside(a, inClass) == |a|
    ensures Runs(a + [sep] + b, inClass) == Runs(a, inClass) + Runs(b, inClass)
  {
    var s := a + [sep] + b;
    var i := |a|;
    assert s[..i] == a[..i] == a;
    FirstOutsideIs(s, i, inClass);
    assert s[i + 1..] == b;
  }

  /** The first run of `a` is also the first run of `a + [sep] + b`. */
  lemma RunsSplitStep<T>(a: seq<T>, sep: T, b: seq<T>, inClass: T -> bool)
    requires !inClass(sep) && FirstOutside(a, inClass) < |a|
    ensures var i := FirstOutside(a, inClass);
            var head: seq<seq<T>> := if i == 0 then [] else [a[..i]];
            && Runs(a + [sep] + b, inClass) == head + Runs(a[i + 1..] + [sep] + b, inClass)
            && Runs(a, inClass) == head + Runs(a[i + 1..], inClass)
  {
    var s := a + [sep] + b;
    var i := FirstOutside(a, inClass);
    assert s[..i] == a[..i];
    FirstOutsideIs(s, i, inClass);
    assert s[i + 1..] == a[i + 1..] + [sep] + b;
  }

  lemma ConcatAssoc<T>(x: seq<T>, y: seq<T>, z: seq<T>)
    ensures x + (y + z) == x + y + z
  {
  }

  /** A whole block of class elements is a single run. */
  lemma RunsOfBlock<T>(w: seq<T>, inClass: T -> bool)
    requires |w| > 0 && AllIn(w, inClass)
    ensures Runs(w, inClass) == [w]
  {
    FirstOutsideIs(w, |w|, inClass);
    assert w[..|w|] == w;
  }

  lemma {:induction false} FirstOutsideIs<T>(s: seq<T>, i: nat, inClass: T -> bool)
    requires i <= |s| && AllIn(s[..i], inClass) && (i < |s| ==> !inClass(s[i]))
    ensures FirstOutside(s, inClass) == i
    decreases |s|
  {
    if i > 0 {
      assert s[..i][0] == s[0];
      assert s[1..][..i - 1] == s[..i][1..];
      FirstOutsideIs(s[1..], i - 1, inClass);
    }
  }

  /** The runs, put back together, are exactly the class elements of `s` in order. */
  lemma {:induction false} RunsKeepClassElements<T>(s: seq<T>, inClass: T -> bool)
    ensures Flatten(Runs(s, inClass)) == Filter(s, inClass)
    decreases |s|
  {
    var i := FirstOutside(s, inClass);
    var head: seq<seq<T>> := if i == 0 then [] else [s[..i]];
    assert Flatten(head) == s[..i] by {
      if i > 0 { assert head[..0] == []; }
    }
    FilterAll(s[..i], inClass);
    if i == |s| {
      assert Runs(s, inClass) == head;
      assert s[..i] == s;
    } else {
      var rest := s[i + 1..];
      assert s == s[..i] + [s[i]] + rest;
      assert Runs(s, inClass) == head + Runs(rest, inClass);
      FlattenAppend(head, Runs(rest, inClass));
      RunsKeepClassElements(rest, inClass);
      FilterSkip(s[..i], s[i], rest, inClass);
    }
  }

  lemma {:induction false} FilterSkip<T>(a: seq<T>, x: T, b: seq<T>, keep: T -> bool)
    requires !keep(x)
    ensures Filter(a + [x] + b, keep) == Filter(a, keep) + Filter(b, keep)
  {
    FilterAppend(a + [x], b, keep);
    FilterAppend(a, [x], keep);
    assert [x][..0] == [];
    assert Filter([x], keep) == Filter([], keep) + [];
    assert Filter(a, keep) + [] == Filter(a, keep);
  }
}
