/**
  src/helpers.rs: parsing a range string such as "20-50" or "24" into an
  inclusive range, and changing the ASCII case of one byte of a string in place.
 */
module Helpers {
  import opened Ascii
  import Runs

  /** `RangeInclusive<usize>`: `start..=end`. */
  datatype RangeInc = RangeInc(start: nat, end: nat)

  /** The three messages `range_inc_from_str` reports. */
  datatype RangeError = MoreThanTwoSides | NonIntegerOrDash | RightSideSmaller

  /** What `range_inc_from_str` does with a string: it returns a range, reports an
      error, or panics in one of its `unwrap()` calls. */
  datatype ParseOutcome = Parsed(range: RangeInc) | Rejected(error: RangeError) | Panicked

  /** `usize::MAX` on a 64-bit target. */
  const UsizeMax: nat := 0xFFFF_FFFF_FFFF_FFFF

  predicate IsDash(c: char) { c == '-' }
  predicate NotDash(c: char) { c != '-' }
  predicate IsAsciiDigit(c: char) { '0' <= c <= '9' }

  /** The dash-separated segments of a string: the maximal dash-free runs. */
  function Segments(s: string): seq<string> {
    Runs.Runs(s, NotDash)
  }

  /** No leading or trailing dash and no two dashes in a row. */
  predicate IsNormal(s: string) {
    && (|s| > 0 ==> s[0] != '-' && s[|s| - 1] != '-')
    && forall i :: 0 <= i < |s| - 1 ==> !(s[i] == '-' && s[i + 1] == '-')
  }

  /** `str::trim_start_matches('-')`. */
  function TrimStartDashes(s: string): (r: string)
    ensures |r| <= |s|
    ensures |s| > 0 && s[0] == '-' ==> |r| < |s|
    decreases |s|
  {
    if |s| > 0 && s[0] == '-' then TrimStartDashes(s[1..]) else s
  }

  /** `str::trim_end_matches('-')`. */
  function TrimEndDashes(s: string): (r: string)
    ensures |r| <= |s|
    decreases |s|
  {
    if |s| > 0 && s[|s| - 1] == '-' then TrimEndDashes(s[..|s| - 1]) else s
  }

  /** `Regex::new("-+").replace_all(s, "-")`: each run of dashes, read left to
      right, is written as one dash. */
  function CollapseDashes(s: string): string
    decreases |s|
  {
    if s == [] then []
    else if s[0] != '-' then [s[0]] + CollapseDashes(s[1..])
    else ['-'] + CollapseDashes(TrimStartDashes(s))
  }

  /** The normalisation at src/helpers.rs:14-16. */
  function Normalise(s: string): string {
    CollapseDashes(TrimEndDashes(TrimStartDashes(s)))
  }

  predicate AllDigits(d: string) {
    forall k :: 0 <= k < |d| ==> IsAsciiDigit(d[k])
  }

  /** Value of a sequence of ASCII decimal digits. */
  function DigitsValue(d: string): nat
    requires AllDigits(d)
  {
    if d == [] then 0
    else
      var last := d[|d| - 1];
      assert IsAsciiDigit(last);
      DigitsValue(d[..|d| - 1]) * 10 + (last as int - '0' as int)
  }

  /** `usize::from_str`: an optional '+' followed by at least one ASCII digit,
      with a value that fits in a `usize`. */
  function ParseUsize(s: string): Option<nat> {
    var d := if |s| > 1 && s[0] == '+' then s[1..] else s;
    if d == [] || !AllDigits(d) then None
    else if DigitsValue(d) > UsizeMax then None
    else Some(DigitsValue(d))
  }

  /** The decimal representation of `n`. */
  function Show(n: nat): (r: string)
    ensures |r| > 0
    ensures AllDigits(r)
  {
    if n < 10 then [('0' as int + n) as char]
    else Show(n / 10) + [('0' as int + n % 10) as char]
  }

  /** `range_inc_from_str` (src/helpers.rs:10-48). `numeric` is the Unicode
      `char::is_numeric` table; its `unwrap()` calls are the `Panicked` outcome. */
  function RangeIncFromStr(range: string, numeric: char -> bool): (r: ParseOutcome)
    ensures r.Parsed? ==> r.range.start <= r.range.end
  {
    var n := Normalise(range);
    if |Runs.Filter(n, IsDash)| > 1 then Rejected(MoreThanTwoSides)
    else if exists k :: 0 <= k < |n| && !(numeric(n[k]) || n[k] == '-') then Rejected(NonIntegerOrDash)
    else if '-' in n then
      var k := Runs.FirstOutside(n, NotDash);
      var lo := ParseUsize(n[..k]);
      var hi := ParseUsize(n[k + 1..]);
      if lo.None? || hi.None? then Panicked
      else if hi.value < lo.value then Rejected(RightSideSmaller)
      else Parsed(RangeInc(lo.value, hi.value))
    else
      var v := ParseUsize(n);
      if v.None? then Panicked else Parsed(RangeInc(v.value, v.value))
  }

  /** `char::is_numeric` agrees with the ASCII digits on ASCII characters. */
  ghost predicate NumericOnAscii(numeric: char -> bool) {
    forall c: char :: c as int < 128 ==> (numeric(c) <==> IsAsciiDigit(c))
  }

  // ---------------------------------------------------------------------------
  // Normalisation

  lemma {:induction false} TrimStartShape(s: string)
    ensures var r := TrimStartDashes(s);
            && (|r| > 0 ==> r[0] != '-' && r[|r| - 1] == s[|s| - 1])
            && (|r| == 0 && |s| > 0 ==> s[|s| - 1] == '-')
    decreases |s|
  {
    if |s| > 0 && s[0] == '-' {
      TrimStartShape(s[1..]);
    }
  }

  lemma {:induction false} TrimStartSegments(s: string)
    ensures Segments(TrimStartDashes(s)) == Segments(s)
    decreases |s|
  {
    if |s| > 0 && s[0] == '-' {
      TrimStartSegments(s[1..]);
      assert s == [] + ['-'] + s[1..];
      Runs.RunsSplit([], '-', s[1..], NotDash);
    }
  }

  lemma {:induction false} TrimEndShape(s: string)
    ensures var r := TrimEndDashes(s);
            && (|r| > 0 ==> r[|r| - 1] != '-')
            && (|s| > 0 && s[0] != '-' ==> |r| > 0 && r[0] == s[0])
    decreases |s|
  {
    if |s| > 0 && s[|s| - 1] == '-' {
      TrimEndShape(s[..|s| - 1]);
    }
  }

  lemma {:induction false} TrimEndSegments(s: string)
    ensures Segments(TrimEndDashes(s)) == Segments(s)
    decreases |s|
  {
    if |s| > 0 && s[|s| - 1] == '-' {
      var p := s[..|s| - 1];
      assert Segments(s) == Segments(p) by {
        assert s == p + ['-'] + [];
        Runs.RunsSplit(p, '-', [], NotDash);
        assert Runs.Runs([], NotDash) == [];
        assert Segments(p) + [] == Segments(p);
      }
      assert TrimEndDashes(s) == TrimEndDashes(p);
      TrimEndSegments(p);
    }
  }

  /** Segments of a string that starts with a non-dash character, in terms of the
      segments of the rest. */
  lemma ConsSegments(c: char, x: string)
    requires c != '-'
    ensures Segments([c] + x) ==
      if x == [] || x[0] == '-' then [[c]] + Segments(x)
      else [[c] + Segments(x)[0]] + Segments(x)[1..]
  {
    var s := [c] + x;
    var i := Runs.FirstOutside(x, NotDash);
    assert s[1..] == x;
    assert s[..i + 1] == [c] + x[..i];
    Runs.FirstOutsideIs(s, i + 1, NotDash);
    if i < |x| {
      assert s[i + 2..] == x[i + 1..];
    }
  }

  lemma {:induction false} CollapseShape(s: string)
    ensures var r := CollapseDashes(s);
            && |r| <= |s|
            && (|r| > 0 <==> |s| > 0)
            && (|s| > 0 ==> r[0] == s[0] && r[|r| - 1] == s[|s| - 1])
            && (forall i :: 0 <= i < |r| - 1 ==> !(r[i] == '-' && r[i + 1] == '-'))
    decreases |s|
  {
    if s != [] {
      if s[0] != '-' {
        CollapseShape(s[1..]);
      } else {
        var t := TrimStartDashes(s);
        TrimStartShape(s);
        CollapseShape(t);
      }
    }
  }

  lemma {:induction false} CollapseSegments(s: string)
    ensures Segments(CollapseDashes(s)) == Segments(s)
    decreases |s|
  {
    if s != [] {
      if s[0] != '-' {
        var x := s[1..];
        CollapseSegments(x);
        CollapseShape(x);
        assert s == [s[0]] + x;
        ConsSegments(s[0], x);
        ConsSegments(s[0], CollapseDashes(x));
      } else {
        var t := TrimStartDashes(s);
        var c := CollapseDashes(t);
        CollapseSegments(t);
        TrimStartSegments(s);
        assert ['-'] + c == [] + ['-'] + c;
        Runs.RunsSplit([], '-', c, NotDash);
      }
    }
  }

  /** Normalisation leaves a normal string: no leading or trailing dash and no
      doubled dash; and the dash-separated segments are exactly those of the
      input. Together: leading and trailing dashes are stripped and every
      internal run of dashes becomes one dash. */
  lemma NormaliseSpec(s: string)
    ensures IsNormal(Normalise(s))
    ensures Segments(Normalise(s)) == Segments(s)
  {
    var a := TrimStartDashes(s);
    var b := TrimEndDashes(a);
    TrimStartShape(s);
    TrimEndShape(a);
    CollapseShape(b);
    TrimStartSegments(s);
    TrimEndSegments(a);
    CollapseSegments(b);
  }

  /** A string that is already normal is left as it is. */
  lemma {:induction false} NormalIsFixed(s: string)
    requires IsNormal(s)
    ensures Normalise(s) == s
  {
    assert TrimStartDashes(s) == s;
    assert TrimEndDashes(s) == s;
    CollapseNormal(s);
  }

  lemma {:induction false} CollapseNormal(s: string)
    requires forall i :: 0 <= i < |s| - 1 ==> !(s[i] == '-' && s[i + 1] == '-')
    requires |s| > 0 ==> s[|s| - 1] != '-'
    ensures CollapseDashes(s) == s
    decreases |s|
  {
    if s != [] {
      if s[0] == '-' {
        assert |s| > 1 && s[1] != '-';
        assert TrimStartDashes(s) == s[1..];
      }
      CollapseNormal(s[1..]);
      if s[0] == '-' {
        CollapseFrom(s[1..]);
      }
    }
  }

  lemma CollapseFrom(s: string)
    requires |s| > 0 && s[0] != '-'
    ensures CollapseDashes(s) == [s[0]] + CollapseDashes(s[1..])
  {
  }

  /** Normalisation is idempotent, so extra dashes never change the parse. */
  lemma RangeIgnoresExtraDashes(s: string, numeric: char -> bool)
    ensures RangeIncFromStr(Normalise(s), numeric) == RangeIncFromStr(s, numeric)
  {
    NormaliseSpec(s);
    NormalIsFixed(Normalise(s));
  }

  // ---------------------------------------------------------------------------
  // Parsing

  lemma {:induction false} ShowValue(n: nat)
    ensures DigitsValue(Show(n)) == n
  {
    if n >= 10 {
      ShowValue(n / 10);
      var d := Show(n);
      assert d[..|d| - 1] == Show(n / 10);
    }
  }

  lemma ParseShow(n: nat)
    ensures ParseUsize(Show(n)) == if n <= UsizeMax then Some(n) else None
  {
    ShowValue(n);
  }

  lemma NoDashInShow(n: nat)
    ensures '-' !in Show(n)
    ensures Runs.Filter(Show(n), IsDash) == []
  {
    NoDashInDigits(Show(n));
  }

  lemma NoDashInDigits(d: string)
    requires AllDigits(d)
    ensures '-' !in d
    ensures Runs.Filter(d, IsDash) == []
  {
    assert forall k :: 0 <= k < |d| ==> !IsDash(d[k]);
    FilterNone(d);
  }

  lemma {:induction false} FilterNone(s: string)
    requires forall k :: 0 <= k < |s| ==> !IsDash(s[k])
    ensures Runs.Filter(s, IsDash) == []
  {
    if s != [] {
      FilterNone(s[..|s| - 1]);
    }
  }

  /** A numeral of ASCII digits, leading zeros allowed, parses to n..=n. */
  lemma {:induction false} RangeSingle(d: string, numeric: char -> bool)
    requires NumericOnAscii(numeric) && |d| > 0 && AllDigits(d) && DigitsValue(d) <= UsizeMax
    ensures RangeIncFromStr(d, numeric) == Parsed(RangeInc(DigitsValue(d), DigitsValue(d)))
  {
    NoDashInDigits(d);
    CollapseNormal(d);
    assert TrimStartDashes(d) == d && TrimEndDashes(d) == d;
    assert Normalise(d) == d;
  }

  /** "a-b", with sides of ASCII digits, parses to a..=b when a <= b and is
      refused when b < a. */
  lemma {:induction false} RangePair(da: string, db: string, a: nat, b: nat, numeric: char -> bool)
    requires NumericOnAscii(numeric) && AllDigits(da) && AllDigits(db)
    requires ParseUsize(da) == Some(a) && ParseUsize(db) == Some(b)
    ensures RangeIncFromStr(da + "-" + db, numeric) ==
              if a <= b then Parsed(RangeInc(a, b)) else Rejected(RightSideSmaller)
  {
    var s := da + "-" + db;
    PairShape(da, db);
    NormalIsFixed(s);
    PairChars(da, db, numeric);
    RangeOfNormalPair(s, |da|, numeric);
  }

  /** On a normal string with one dash and only numerals besides, the parse
      reads the two sides around the dash. */
  lemma RangeOfNormalPair(s: string, k: nat, numeric: char -> bool)
    requires Normalise(s) == s && '-' in s && |Runs.Filter(s, IsDash)| == 1
    requires forall i :: 0 <= i < |s| ==> numeric(s[i]) || s[i] == '-'
    requires Runs.FirstOutside(s, NotDash) == k
    ensures var lo, hi := ParseUsize(s[..k]), ParseUsize(s[k + 1..]);
            RangeIncFromStr(s, numeric) ==
              if lo.None? || hi.None? then Panicked
              else if hi.value < lo.value then Rejected(RightSideSmaller)
              else Parsed(RangeInc(lo.value, hi.value))
  {
  }

  /** Every character of "a-b" with digit sides is numeric or the dash. */
  lemma PairChars(da: string, db: string, numeric: char -> bool)
    requires NumericOnAscii(numeric) && AllDigits(da) && AllDigits(db)
    ensures var s := da + "-" + db;
            forall k :: 0 <= k < |s| ==> numeric(s[k]) || s[k] == '-'
  {
    var s := da + "-" + db;
    forall k | 0 <= k < |s| ensures numeric(s[k]) || s[k] == '-' {
      if k < |da| { assert s[k] == da[k]; }
      else if k > |da| { assert s[k] == db[k - |da| - 1]; }
    }
  }

  /** `usize::from_str` reads a non-empty run of digits as its value, when it fits. */
  lemma ParseDigits(d: string)
    requires |d| > 0 && AllDigits(d)
    ensures ParseUsize(d) == if DigitsValue(d) <= UsizeMax then Some(DigitsValue(d)) else None
  {
    assert IsAsciiDigit(d[0]);
  }

  /** Two dash-free numerals joined by one dash: a normal string with one dash,
      which sits right after the first numeral. */
  lemma PairShape(sa: string, sb: string)
    requires |sa| > 0 && |sb| > 0
    requires forall k :: 0 <= k < |sa| ==> IsAsciiDigit(sa[k])
    requires forall k :: 0 <= k < |sb| ==> IsAsciiDigit(sb[k])
    ensures var s := sa + "-" + sb;
            && IsNormal(s) && '-' in s
            && |Runs.Filter(s, IsDash)| == 1
            && Runs.FirstOutside(s, NotDash) == |sa|
            && s[..|sa|] == sa && s[|sa| + 1..] == sb
  {
    var s := sa + "-" + sb;
    forall i | 0 <= i < |s| - 1 ensures !(s[i] == '-' && s[i + 1] == '-') {
      if i < |sa| { assert s[i] == sa[i]; } else { assert s[i + 1] == sb[i + 1 - |sa| - 1]; }
    }
    assert s[|sa|] == '-';
    FilterNone(sa);
    FilterNone(sb);
    Runs.FilterAppend(sa + "-", sb, IsDash);
    Runs.FilterAppend(sa, "-", IsDash);
    assert Runs.Filter("-", IsDash) == Runs.Filter([], IsDash) + ['-'];
    assert s[..|sa|] == sa;
    Runs.FirstOutsideIs(s, |sa|, NotDash);
    assert s[|sa| + 1..] == sb;
  }

  /** Three dash-free sides are refused as "more than two sides", whatever the
      sides hold: that check comes before the character check. */
  lemma {:induction false} RangeThreeSides(x: string, y: string, z: string, numeric: char -> bool)
    requires |x| > 0 && |y| > 0 && |z| > 0
    requires '-' !in x && '-' !in y && '-' !in z
    ensures RangeIncFromStr(x + "-" + y + "-" + z, numeric) == Rejected(MoreThanTwoSides)
  {
    var s := x + "-" + y + "-" + z;
    forall i | 0 <= i < |s| - 1 ensures !(s[i] == '-' && s[i + 1] == '-') {
      if i < |x| { assert s[i] == x[i]; }
      else if i == |x| { assert s[i + 1] == y[0]; }
      else if i < |x| + 1 + |y| { assert s[i] == y[i - |x| - 1]; }
      else if i == |x| + 1 + |y| { assert s[i + 1] == z[0]; }
      else { assert s[i] == z[i - |x| - |y| - 2]; }
    }
    assert s[0] == x[0] && s[|s| - 1] == z[|z| - 1];
    NormalIsFixed(s);
    FilterNone(x);
    FilterNone(y);
    FilterNone(z);
    Runs.FilterAppend(x + "-" + y + "-", z, IsDash);
    Runs.FilterAppend(x + "-" + y, "-", IsDash);
    Runs.FilterAppend(x + "-", y, IsDash);
    Runs.FilterAppend(x, "-", IsDash);
    assert Runs.Filter("-", IsDash) == Runs.Filter([], IsDash) + ['-'];
  }

  /** Empty and all-dash strings reach the `unwrap()` of src/helpers.rs:43 and panic. */
  lemma {:induction false} RangeAllDashesPanics(s: string, numeric: char -> bool)
    requires forall k :: 0 <= k < |s| ==> s[k] == '-'
    ensures RangeIncFromStr(s, numeric) == Panicked
    decreases |s|
  {
    AllDashesTrim(s);
    assert Normalise(s) == [];
    assert Runs.Filter([], IsDash) == [];
  }

  lemma {:induction false} AllDashesTrim(s: string)
    requires forall k :: 0 <= k < |s| ==> s[k] == '-'
    ensures TrimStartDashes(s) == []
    decreases |s|
  {
    if s != [] {
      AllDashesTrim(s[1..]);
    }
  }

  /** A value beyond `usize::MAX` panics in `unwrap()` instead of being reported. */
  lemma RangeOverflowPanics(numeric: char -> bool)
    requires NumericOnAscii(numeric)
    ensures RangeIncFromStr(Show(UsizeMax + 1), numeric) == Panicked
  {
    var s := Show(UsizeMax + 1);
    NoDashInShow(UsizeMax + 1);
    CollapseNormal(s);
    assert TrimStartDashes(s) == s && TrimEndDashes(s) == s;
    assert Normalise(s) == s;
    ParseShow(UsizeMax + 1);
  }

  /** A non-ASCII numeral passes the `is_numeric` check and then panics in `unwrap()`. */
  lemma RangeForeignNumeralPanics(c: char, numeric: char -> bool)
    requires c as int >= 128 && numeric(c)
    ensures RangeIncFromStr([c], numeric) == Panicked
  {
    var s := [c];
    assert TrimStartDashes(s) == s && TrimEndDashes(s) == s;
    assert s[1..] == [];
    assert CollapseDashes(s) == s;
    assert s[..0] == [];
    assert Runs.Filter(s, IsDash) == Runs.Filter([], IsDash) + [];
    assert !IsAsciiDigit(s[0]);
    assert ParseUsize(s) == None;
  }

  /** A character that is neither a dash nor numeric is refused: as a foreign
      character, or earlier as a third side. */
  lemma RangeRejectsForeignChar(s: string, i: nat, numeric: char -> bool)
    requires i < |s| && s[i] != '-' && !numeric(s[i])
    ensures RangeIncFromStr(s, numeric).Rejected?
  {
    var n := Normalise(s);
    NormaliseSpec(s);
    Runs.RunsKeepClassElements(s, NotDash);
    Runs.RunsKeepClassElements(n, NotDash);
    FilterMember(s, i, NotDash);
    var k := FilterHas(n, s[i], NotDash);
    assert !(numeric(n[k]) || n[k] == '-');
  }

  lemma {:induction false} FilterMember(s: string, i: nat, keep: char -> bool)
    requires i < |s| && keep(s[i])
    ensures s[i] in Runs.Filter(s, keep)
  {
    if i < |s| - 1 {
      FilterMember(s[..|s| - 1], i, keep);
    }
  }

  lemma {:induction false} FilterHas(s: string, c: char, keep: char -> bool) returns (k: nat)
    requires c in Runs.Filter(s, keep)
    ensures k < |s| && s[k] == c
  {
    var p := s[..|s| - 1];
    if c in Runs.Filter(p, keep) {
      k := FilterHas(p, c, keep);
    } else {
      k := |s| - 1;
    }
  }

  // ---------------------------------------------------------------------------
  // capitalise / decapitalise (src/helpers.rs:68-78)

  /** `str::is_char_boundary` on the UTF-8 bytes of a string. */
  predicate IsCharBoundary(s: Bytes, i: nat) {
    i == 0 || i == |s| || (i < |s| && (s[i] < 0x80 || s[i] >= 0xC0))
  }

  /** `s.get_mut(i..i + 1)` succeeds: the range is in bounds and on char boundaries. */
  predicate OneByteCharAt(s: Bytes, i: nat) {
    i + 1 <= |s| && IsCharBoundary(s, i) && IsCharBoundary(s, i + 1)
  }

  /** The string after converting the one-byte slice at `i` to the given ASCII case. */
  function CaseAt(s: Bytes, i: nat, upper: bool): (r: Bytes)
    ensures |r| == |s|
    ensures forall j :: 0 <= j < |s| && j != i ==> r[j] == s[j]
    ensures i < |s| ==> r[i] == s[i] || (IsLetter(s[i]) && InCase(r[i], upper) && ToLower(r[i]) == ToLower(s[i]))
    ensures !OneByteCharAt(s, i) ==> r == s
    ensures OneByteCharAt(s, i) && IsLetter(s[i]) ==> InCase(r[i], upper) && ToLower(r[i]) == ToLower(s[i])
    ensures OneByteCharAt(s, i) && !IsLetter(s[i]) ==> r[i] == s[i]
  {
    if OneByteCharAt(s, i) then s[i := ToCase(s[i], upper)] else s
  }

  /** On an ASCII string every index in bounds can be recased. */
  lemma CaseAtAscii(s: Bytes, i: nat, upper: bool)
    requires IsAscii(s) && i < |s|
    ensures CaseAt(s, i, upper) == s[i := ToCase(s[i], upper)]
  {
  }

  /** `capitalise`: uppercases the byte at `i` when `i..i + 1` is a whole character. */
  method Capitalise(s: array<byte>, i: nat)
    modifies s
    ensures s[..] == CaseAt(old(s[..]), i, true)
  {
    if i + 1 <= s.Length && IsCharBoundary(s[..], i) && IsCharBoundary(s[..], i + 1) {
      s[i] := ToUpper(s[i]);
    }
  }

  /** `decapitalise`: lowercases the byte at `i` when `i..i + 1` is a whole character. */
  method Decapitalise(s: array<byte>, i: nat)
    modifies s
    ensures s[..] == CaseAt(old(s[..]), i, false)
  {
    if i + 1 <= s.Length && IsCharBoundary(s[..], i) && IsCharBoundary(s[..], i + 1) {
      s[i] := ToLower(s[i]);
    }
  }
}
