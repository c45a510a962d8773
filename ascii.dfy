/**
  Bytes of Rust strings and the ASCII character classes that the password
  generator relies on. A Rust `String` is a UTF-8 byte vector: `len()` counts
  bytes and `is_ascii()` holds when every byte is below 0x80.
 */
module Ascii {

  newtype byte = b: int | 0 <= b < 256

  type Bytes = seq<byte>

  datatype Option<T> = None | Some(value: T)

  predicate IsAscii(s: Bytes) {
    forall i :: 0 <= i < |s| ==> s[i] < 128
  }

  predicate IsUpper(b: byte) { 65 <= b <= 90 }     // 'A'..='Z'
  predicate IsLower(b: byte) { 97 <= b <= 122 }    // 'a'..='z'
  predicate IsDigit(b: byte) { 48 <= b <= 57 }     // '0'..='9'
  predicate IsLetter(b: byte) { IsUpper(b) || IsLower(b) }

  /** The ASCII case named by `upper`. */
  predicate InCase(b: byte, upper: bool) {
    if upper then IsUpper(b) else IsLower(b)
  }

  /** `u8::to_ascii_uppercase`: only 'a'..='z' change. */
  function ToUpper(b: byte): (r: byte)
    ensures IsLower(b) ==> IsUpper(r) && r as int == b as int - 32
    ensures !IsLower(b) ==> r == b
  {
    if IsLower(b) then b - 32 else b
  }

  /** `u8::to_ascii_lowercase`: only 'A'..='Z' change. */
  function ToLower(b: byte): (r: byte)
    ensures IsUpper(b) ==> IsLower(r) && r as int == b as int + 32
    ensures !IsUpper(b) ==> r == b
  {
    if IsUpper(b) then b + 32 else b
  }

  /** Converts to the ASCII case named by `upper`. */
  function ToCase(b: byte, upper: bool): byte {
    if upper then ToUpper(b) else ToLower(b)
  }

  /** Number of bytes of `s` in the given case. */
  function CountCase(s: Bytes, upper: bool): (n: nat)
    ensures n <= |s|
  {
    if s == [] then 0
    else CountCase(s[..|s| - 1], upper) + (if InCase(s[|s| - 1], upper) then 1 else 0)
  }

  /** Positions of the bytes of `s` in the given case, in increasing order
      (the indices `char_indices().filter(..)` collects on an ASCII string). */
  function CaseIndices(s: Bytes, upper: bool): (r: seq<nat>)
  {
    if s == [] then []
    else CaseIndices(s[..|s| - 1], upper) + (if InCase(s[|s| - 1], upper) then [|s| - 1] else [])
  }

  predicate Distinct<T(==)>(s: seq<T>) {
    forall a, b :: 0 <= a < b < |s| ==> s[a] != s[b]
  }

  /** The collected index list names exactly the positions in that case, each once,
      and there are as many of them as the count says. */
  lemma {:induction false} CaseIndicesSpec(s: Bytes, upper: bool)
    ensures |CaseIndices(s, upper)| == CountCase(s, upper)
    ensures Distinct(CaseIndices(s, upper))
    ensures forall t: nat :: t in CaseIndices(s, upper) <==> t < |s| && InCase(s[t], upper)
  {
    if s != [] {
      var p := s[..|s| - 1];
      CaseIndicesSpec(p, upper);
      var q := CaseIndices(p, upper);
      forall k | 0 <= k < |q| ensures q[k] < |p| { assert q[k] in q; }
      forall t: nat | t < |p| ensures s[t] == p[t] { }
    }
  }

  /** Changing one byte moves the case counts by that byte alone. */
  lemma {:induction false} CountCaseUpdate(s: Bytes, i: nat, v: byte, upper: bool)
    requires i < |s|
    ensures CountCase(s[i := v], upper) + (if InCase(s[i], upper) then 1 else 0)
            == CountCase(s, upper) + (if InCase(v, upper) then 1 else 0)
  {
    var n := |s| - 1;
    if i < n {
      assert s[i := v][..n] == s[..n][i := v];
      CountCaseUpdate(s[..n], i, v, upper);
    } else {
      assert s[i := v][..n] == s[..n];
    }
  }

  /** Case counts of a concatenation add up. */
  lemma {:induction false} CountCaseAppend(a: Bytes, b: Bytes, upper: bool)
    ensures CountCase(a + b, upper) == CountCase(a, upper) + CountCase(b, upper)
  {
    if b != [] {
      assert (a + b)[..|a + b| - 1] == a + b[..|b| - 1];
      CountCaseAppend(a, b[..|b| - 1], upper);
    } else {
      assert a + b == a;
    }
  }
}
