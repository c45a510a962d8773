/**
  src/password.rs: one password is built in a buffer. `new` draws the knobs and
  reserves room for the digits and symbols; `get_pass_string` walks the word list
  cyclically until the buffer fits the length window; `insert_chars` or
  `replace_chars` puts the digits and symbols in; `ensure_case` corrects the upper-
  and lowercase counts. The random generator is replaced by the caller's choices
  (`Dice`), each stated with the range the generator would draw it from.
 */
module Builder {
  import opened Ascii
  import opened Helpers
  import Shuffle

  function Min(a: nat, b: nat): nat { if a <= b then a else b }

  predicate InRange(x: nat, r: RangeInc) { r.start <= x <= r.end }

  /** The settings the builder reads: the fields of `PasswordSettings` (src/settings.rs:17-152). */
  datatype Config = Config(
    capitalise: bool,
    replace: bool,
    resetAmount: nat,
    length: RangeInc,
    numberAmount: RangeInc,
    specialCharsAmount: RangeInc,
    specialChars: Bytes,
    upperAmount: RangeInc,
    lowerAmount: RangeInc,
    forceUpper: bool,
    forceLower: bool,
    dontUpper: bool,
    dontLower: bool,
    words: seq<Bytes>)

  /** What `new` needs to run without panicking: ranges `gen_range` can draw from
      (and a length range whose span does not underflow), and a non-empty ASCII
      set of special characters for `Uniform::new(0, special_chars.len())`. */
  predicate Drawable(cfg: Config) {
    && cfg.length.start <= cfg.length.end
    && cfg.numberAmount.start <= cfg.numberAmount.end
    && cfg.specialCharsAmount.start <= cfg.specialCharsAmount.end
    && cfg.upperAmount.start <= cfg.upperAmount.end
    && cfg.lowerAmount.start <= cfg.lowerAmount.end
    && |cfg.specialChars| > 0 && IsAscii(cfg.specialChars)
  }

  /** The random choices made while one password is built. */
  datatype Dice = Dice(
    window: nat,        // gen_range(min_len..=max_len - 50)
    num: nat,           // gen_range(number_amount)
    special: nat,       // gen_range(special_chars_amount)
    upper: nat,         // gen_range(upper_amount)
    lower: nat,         // gen_range(lower_amount)
    digits: seq<nat>,   // samples of Uniform::new(0, 10)
    symbols: seq<nat>,  // samples of Uniform::new(0, special_chars.len())
    order: nat -> nat,  // the swaps of `shuffle` on the insertables
    start: nat,         // gen_range(0..words.len())
    coin: nat -> bool,  // successive gen_bool(0.8) results
    spots: nat -> nat,  // successive gen_range(0..len) in insert_chars
    samples: seq<nat>,  // the samples drawn so far by replace_chars
    raise: nat -> nat,  // successive picks among the lowercase indices
    drop: nat -> nat)   // successive picks among the uppercase indices

  /** Every draw lies in the range the generator draws it from. */
  predicate DiceFit(cfg: Config, d: Dice) {
    && (cfg.length.end - cfg.length.start > 50 ==>
          cfg.length.start <= d.window <= cfg.length.end - 50)
    && InRange(d.num, cfg.numberAmount)
    && InRange(d.special, cfg.specialCharsAmount)
    && InRange(d.upper, cfg.upperAmount)
    && InRange(d.lower, cfg.lowerAmount)
    && |d.digits| == d.num && (forall k :: 0 <= k < |d.digits| ==> d.digits[k] < 10)
    && |d.symbols| == d.special
    && (forall k :: 0 <= k < |d.symbols| ==> d.symbols[k] < |cfg.specialChars|)
    && d.start < |cfg.words|
  }

  // ---------------------------------------------------------------------------
  // Password::new (src/password.rs:36-99)

  /** The working length window (src/password.rs:39-44): the configured range, or a
      50-wide window inside it when the configured span is wider than 50. */
  function Window(length: RangeInc, pick: nat): (w: RangeInc)
    requires length.start <= length.end
    requires length.end - length.start > 50 ==> length.start <= pick <= length.end - 50
    ensures length.start <= w.start <= w.end <= length.end
    ensures w.end - w.start == Min(length.end - length.start, 50)
    ensures length.end - length.start <= 50 ==> w == length
  {
    if length.end - length.start > 50 then RangeInc(pick, pick + 50) else length
  }

  /** The bounds left for the words and the number of characters to insert or replace. */
  datatype Reservation = Reservation(minLen: nat, maxLen: nat, total: nat)

  /** `total_inserts` and the reserved bounds (src/password.rs:51-63). */
  function Reserve(w: RangeInc, num: nat, special: nat, replace: bool): (r: Reservation)
    requires w.start <= w.end
    ensures r.total <= num + special && r.total <= w.end
    ensures r.minLen <= r.maxLen
    ensures replace ==> r.minLen == w.start && r.maxLen == w.end
    ensures !replace ==> r.total <= w.start && r.minLen + r.total == w.start && r.maxLen + r.total == w.end
    ensures r.total == num + special || r.total == w.end || (!replace && r.total == w.start)
  {
    var total := if num + special > w.end then w.end else num + special;
    if replace then Reservation(w.start, w.end, total)
    else
      var t := if w.start < total then w.start else total;
      Reservation(w.start - t, w.end - t, t)
  }

  /** The character of a digit sample. */
  function DigitChar(d: nat): (c: byte)
    requires d < 10
    ensures IsDigit(c)
  {
    (48 + d) as byte
  }

  function Digits(draws: seq<nat>): (r: Bytes)
    requires forall k :: 0 <= k < |draws| ==> draws[k] < 10
    ensures |r| == |draws|
    ensures forall k :: 0 <= k < |r| ==> IsDigit(r[k])
  {
    if draws == [] then [] else Digits(draws[..|draws| - 1]) + [DigitChar(draws[|draws| - 1])]
  }

  function Symbols(draws: seq<nat>, chars: Bytes): (r: Bytes)
    requires forall k :: 0 <= k < |draws| ==> draws[k] < |chars|
    ensures |r| == |draws|
    ensures forall k :: 0 <= k < |r| ==> r[k] in chars
  {
    if draws == [] then [] else Symbols(draws[..|draws| - 1], chars) + [chars[draws[|draws| - 1]]]
  }

  /** The insertables stack (src/password.rs:65-85): the digits, then the symbols, shuffled. */
  function Insertables(digits: seq<nat>, symbols: seq<nat>, chars: Bytes, order: nat -> nat): Bytes
    requires forall k :: 0 <= k < |digits| ==> digits[k] < 10
    requires forall k :: 0 <= k < |symbols| ==> symbols[k] < |chars|
  {
    Shuffle.Shuffled(Digits(digits) + Symbols(symbols, chars), order)
  }

  /** The stack holds exactly the drawn digits and symbols: one entry per draw, every
      entry a digit or one of the special characters, so it is ASCII when they are. */
  lemma InsertablesSpec(digits: seq<nat>, symbols: seq<nat>, chars: Bytes, order: nat -> nat)
    requires forall k :: 0 <= k < |digits| ==> digits[k] < 10
    requires forall k :: 0 <= k < |symbols| ==> symbols[k] < |chars|
    ensures var s := Insertables(digits, symbols, chars, order);
            && |s| == |digits| + |symbols|
            && multiset(s) == multiset(Digits(digits)) + multiset(Symbols(symbols, chars))
            && (forall k :: 0 <= k < |s| ==> IsDigit(s[k]) || s[k] in chars)
            && (IsAscii(chars) ==> IsAscii(s))
  {
    var a, b := Digits(digits), Symbols(symbols, chars);
    var s := Insertables(digits, symbols, chars, order);
    assert multiset(s) == multiset(a + b);
    forall k | 0 <= k < |s| ensures IsDigit(s[k]) || s[k] in chars {
      assert s[k] in multiset(a + b);
      assert s[k] in a + b;
    }
  }

  lemma InsertablesFit(digits: seq<nat>, symbols: seq<nat>, chars: Bytes, order: nat -> nat)
    requires forall k :: 0 <= k < |digits| ==> digits[k] < 10
    requires forall k :: 0 <= k < |symbols| ==> symbols[k] < |chars|
    requires IsAscii(chars)
    ensures |Insertables(digits, symbols, chars, order)| == |digits| + |symbols|
    ensures IsAscii(Insertables(digits, symbols, chars, order))
  {
    InsertablesSpec(digits, symbols, chars, order);
  }

  /** The block at src/password.rs:65-85: pushes one digit per digit sample, then one
      special character per symbol sample, then shuffles. */
  method DrawInsertables(digits: seq<nat>, symbols: seq<nat>, chars: Bytes, order: nat -> nat)
    returns (s: Bytes)
    requires forall k :: 0 <= k < |digits| ==> digits[k] < 10
    requires forall k :: 0 <= k < |symbols| ==> symbols[k] < |chars|
    ensures s == Insertables(digits, symbols, chars, order)
  {
    s := [];
    for k := 0 to |digits|
      invariant s == Digits(digits[..k])
    {
      assert digits[..k + 1][..k] == digits[..k];
      s := s + [DigitChar(digits[k])];
    }
    assert digits[..|digits|] == digits;
    for k := 0 to |symbols|
      invariant s == Digits(digits) + Symbols(symbols[..k], chars)
    {
      assert symbols[..k + 1][..k] == symbols[..k];
      s := s + [chars[symbols[k]]];
    }
    assert symbols[..|symbols|] == symbols;
    s := Shuffle.Shuffled(s, order);
  }

  /** Words as the settings hold them: non-empty ASCII runs. */
  predicate WordsOk(words: seq<Bytes>) {
    forall k :: 0 <= k < |words| ==> |words[k]| > 0 && IsAscii(words[k])
  }

  /** A word as pushed: with its first letter uppercased when `capitalise` is set
      (src/password.rs:110-115). */
  function Word(w: Bytes, capitalise: bool): (r: Bytes)
    requires |w| > 0
    ensures |r| == |w| && r[1..] == w[1..]
    ensures IsAscii(w) ==> IsAscii(r)
  {
    if capitalise then [ToUpper(w[0])] + w[1..] else w
  }

  /** The cursor after `steps` advances from `from` over `n` words, wrapping to 0
      after the last (src/password.rs:145-147). */
  function Cycle(from: nat, steps: nat, n: nat): (c: nat)
    requires from < n
    ensures c < n
  {
    if steps == 0 then from
    else
      var c := Cycle(from, steps - 1, n);
      if c + 1 < n then c + 1 else 0
  }

  /** The concatenation of `count` words taken cyclically from index `from`. */
  /** Advancing `a` steps and then `b` more is advancing `a + b` steps. */
  lemma {:induction false} CycleAdd(from: nat, a: nat, b: nat, n: nat)
    requires from < n
    ensures Cycle(Cycle(from, a, n), b, n) == Cycle(from, a + b, n)
  {
    if b > 0 {
      CycleAdd(from, a, b - 1, n);
    }
  }

  function Assembled(words: seq<Bytes>, capitalise: bool, from: nat, count: nat): (r: Bytes)
    requires from < |words| && WordsOk(words)
    ensures |r| >= count && IsAscii(r)
  {
    if count == 0 then []
    else Assembled(words, capitalise, from, count - 1)
         + Word(words[Cycle(from, count - 1, |words|)], capitalise)
  }

  function MaxWordLen(words: seq<Bytes>): (m: nat)
    ensures forall k :: 0 <= k < |words| ==> |words[k]| <= m
  {
    if words == [] then 0
    else
      var m := MaxWordLen(words[..|words| - 1]);
      if |words[|words| - 1]| > m then |words[|words| - 1]| else m
  }

  // ---------------------------------------------------------------------------
  // insert_chars (src/password.rs:178-192)

  /** The buffer after `n` insertions into `p`: the k-th insertion (from 0) pops the
      k-th character from the top of `stack` and inserts it before index
      `spots(k) % len`, `len` being the length at that moment (`gen_range(0..len)`). */
  function Inserted(p: Bytes, stack: Bytes, n: nat, spots: nat -> nat): (r: Bytes)
    requires |p| > 0 && n <= |stack|
    ensures |r| == |p| + n
    ensures IsAscii(p) && IsAscii(stack) ==> IsAscii(r)
    decreases n
  {
    if n == 0 then p
    else
      var q := Inserted(p, stack, n - 1, spots);
      var i := spots(n - 1) % |q|;
      q[..i] + [stack[|stack| - n]] + q[i..]
  }

  /** An increasing embedding of `p` into `q` shifts into one of `p` into `q` with one
      element inserted before index `i`. */
  lemma ShiftEmbedding(p: Bytes, q: Bytes, i: nat, c: byte, pq: seq<nat>) returns (pos: seq<nat>)
    requires i < |q| && |pq| == |p| > 0
    requires forall k :: 0 <= k < |p| ==> pq[k] < |q| && q[pq[k]] == p[k]
    requires forall a, b :: 0 <= a < b < |p| ==> pq[a] < pq[b]
    requires pq[|p| - 1] == |q| - 1
    ensures var r := q[..i] + [c] + q[i..];
            && |pos| == |p|
            && (forall k :: 0 <= k < |p| ==> pos[k] < |r| && r[pos[k]] == p[k])
            && (forall a, b :: 0 <= a < b < |p| ==> pos[a] < pos[b])
            && pos[|p| - 1] == |r| - 1
  {
    var r := q[..i] + [c] + q[i..];
    pos := seq(|p|, k requires 0 <= k < |p| => if pq[k] < i then pq[k] else pq[k] + 1);
    forall k | 0 <= k < |p| ensures pos[k] < |r| && r[pos[k]] == p[k] {
      if pq[k] < i { assert r[pq[k]] == q[pq[k]]; } else { assert r[pq[k] + 1] == q[pq[k]]; }
    }
  }

  /** The original characters survive in their order: `pos` embeds `p` into the
      result, strictly increasing. The last character stays last, because an index
      drawn below the length never inserts after it. */
  lemma {:induction false} InsertedKeepsOrder(p: Bytes, stack: Bytes, n: nat, spots: nat -> nat)
    returns (pos: seq<nat>)
    requires |p| > 0 && n <= |stack|
    ensures var r := Inserted(p, stack, n, spots);
            && |pos| == |p|
            && (forall k :: 0 <= k < |p| ==> pos[k] < |r| && r[pos[k]] == p[k])
            && (forall a, b :: 0 <= a < b < |p| ==> pos[a] < pos[b])
            && pos[|p| - 1] == |r| - 1
  {
    if n == 0 {
      pos := seq(|p|, k => k);
    } else {
      var q := Inserted(p, stack, n - 1, spots);
      var i := spots(n - 1) % |q|;
      var pq := InsertedKeepsOrder(p, stack, n - 1, spots);
      pos := ShiftEmbedding(p, q, i, stack[|stack| - n], pq);
      assert q[..i] + [stack[|stack| - n]] + q[i..] == Inserted(p, stack, n, spots);
    }
  }

  /** Insertion adds exactly the top `n` characters of the stack and loses nothing. */
  lemma {:induction false} InsertedMultiset(p: Bytes, stack: Bytes, n: nat, spots: nat -> nat)
    requires |p| > 0 && n <= |stack|
    ensures multiset(Inserted(p, stack, n, spots)) == multiset(p) + multiset(stack[|stack| - n..])
  {
    if n == 0 {
      assert stack[|stack|..] == [];
    } else {
      InsertedMultiset(p, stack, n - 1, spots);
      var q := Inserted(p, stack, n - 1, spots);
      var i := spots(n - 1) % |q|;
      var c := stack[|stack| - n];
      assert Inserted(p, stack, n, spots) == q[..i] + [c] + q[i..];
      MultisetInsert(q, i, c);
      MultisetSuffix(stack, |stack| - n);
    }
  }

  lemma MultisetInsert<T>(q: seq<T>, i: nat, c: T)
    requires i <= |q|
    ensures multiset(q[..i] + [c] + q[i..]) == multiset(q) + multiset{c}
  {
    assert q == q[..i] + q[i..];
  }

  lemma MultisetSuffix<T>(s: seq<T>, k: nat)
    requires k < |s|
    ensures multiset(s[k..]) == multiset{s[k]} + multiset(s[k + 1..])
  {
    assert s[k..] == [s[k]] + s[k + 1..];
  }

  // ---------------------------------------------------------------------------
  // replace_chars (src/password.rs:153-176)

  /** The position list the rejection loop has built after the samples `draws`:
      each sample is reduced below `len` and kept if new, until `total` are kept. */
  function Picked(draws: seq<nat>, len: nat, total: nat): (pos: seq<nat>)
    requires len > 0
    ensures |pos| <= total && Distinct(pos)
    ensures forall k :: 0 <= k < |pos| ==> pos[k] < len
  {
    if draws == [] then []
    else
      var prev := Picked(draws[..|draws| - 1], len, total);
      var x := draws[|draws| - 1] % len;
      if |prev| < total && x !in prev then prev + [x] else prev
  }

  /** Once the list is full, further samples are never drawn, and would not change it. */
  lemma {:induction false} PickedStaysFull(draws: seq<nat>, k: nat, len: nat, total: nat)
    requires len > 0 && k <= |draws| && |Picked(draws[..k], len, total)| == total
    ensures Picked(draws, len, total) == Picked(draws[..k], len, total)
    decreases |draws| - k
  {
    if k < |draws| {
      assert draws[..k + 1][..k] == draws[..k];
      assert Picked(draws[..k + 1], len, total) == Picked(draws[..k], len, total);
      PickedStaysFull(draws, k + 1, len, total);
    } else {
      assert draws[..k] == draws;
    }
  }

  function Without(s: seq<nat>, x: nat): (r: seq<nat>)
    ensures forall y :: y in r <==> y in s && y != x
    ensures x !in s ==> r == s
  {
    if s == [] then []
    else
      var r := Without(s[..|s| - 1], x);
      assert s == s[..|s| - 1] + [s[|s| - 1]];
      if s[|s| - 1] == x then r else r + [s[|s| - 1]]
  }

  lemma {:induction false} WithoutDistinct(s: seq<nat>, x: nat)
    requires Distinct(s)
    ensures Distinct(Without(s, x)) && |Without(s, x)| + 1 >= |s|
  {
    if s != [] {
      var p, last := s[..|s| - 1], s[|s| - 1];
      WithoutDistinct(p, x);
      assert s == p + [last];
      assert last !in p;
    }
  }

  /** Pigeonhole: distinct values below `len` number at most `len`. */
  lemma {:induction false} DistinctFits(s: seq<nat>, len: nat)
    requires Distinct(s) && forall k :: 0 <= k < |s| ==> s[k] < len
    ensures |s| <= len
    decreases len
  {
    if s != [] {
      assert s[0] < len;
      var t := Without(s, len - 1);
      WithoutDistinct(s, len - 1);
      forall k | 0 <= k < |t| ensures t[k] < len - 1 {
        assert t[k] in t;
        var j :| 0 <= j < |s| && s[j] == t[k];
      }
      DistinctFits(t, len - 1);
    }
  }

  /** The rejection loop can only finish when `total_inserts` does not exceed the
      buffer length: with more it draws for ever. */
  lemma PickedNeverFull(draws: seq<nat>, len: nat, total: nat)
    requires 0 < len < total
    ensures |Picked(draws, len, total)| < total
  {
    DistinctFits(Picked(draws, len, total), len);
  }

  function Iota(m: nat): (r: seq<nat>)
    ensures |r| == m && forall k :: 0 <= k < m ==> r[k] == k
  {
    if m == 0 then [] else Iota(m - 1) + [m - 1]
  }

  /** With `total_inserts` up to the buffer length the loop can finish: the samples
      0, 1, .., total - 1 fill the list. */
  lemma {:induction false} PickedCanFinish(m: nat, len: nat, total: nat)
    requires m <= total <= len && len > 0
    ensures Picked(Iota(m), len, total) == Iota(m)
  {
    if m > 0 {
      PickedCanFinish(m - 1, len, total);
      var d := Iota(m);
      assert d[..m - 1] == Iota(m - 1);
      ModBelow(m - 1, len);
      assert d[m - 1] == m - 1;
      assert m - 1 !in Iota(m - 1);
      assert Picked(d, len, total) == Picked(d[..m - 1], len, total) + [m - 1];
    }
  }

  lemma ModBelow(x: nat, n: nat)
    requires x < n
    ensures x % n == x
  {
  }

  /** How many of the positions lie below `i`: the rank of position `i`, the number
      of insertables already popped when the rewrite reaches it. */
  function Below(pos: seq<nat>, i: nat): (c: nat)
    ensures c <= |pos|
  {
    if pos == [] then 0
    else Below(pos[..|pos| - 1], i) + (if pos[|pos| - 1] < i then 1 else 0)
  }

  lemma {:induction false} BelowNone(pos: seq<nat>)
    ensures Below(pos, 0) == 0
  {
    if pos != [] {
      BelowNone(pos[..|pos| - 1]);
    }
  }

  lemma {:induction false} BelowStep(pos: seq<nat>, i: nat)
    requires Distinct(pos)
    ensures Below(pos, i + 1) == Below(pos, i) + (if i in pos then 1 else 0)
  {
    if pos != [] {
      var p := pos[..|pos| - 1];
      BelowStep(p, i);
      assert pos == p + [pos[|pos| - 1]];
      assert i in pos <==> i in p || i == pos[|pos| - 1];
    }
  }

  lemma {:induction false} BelowAll(pos: seq<nat>, len: nat)
    requires forall k :: 0 <= k < |pos| ==> pos[k] < len
    ensures Below(pos, len) == |pos|
  {
    if pos != [] {
      BelowAll(pos[..|pos| - 1], len);
    }
  }

  // ---------------------------------------------------------------------------
  // ensure_case (src/password.rs:194-257)

  /** The decision of one case pass (src/password.rs:211-221 and 239-249): `have`
      letters already in the case, `want` the drawn amount, `avail` the letters of
      the other case. Returns the new force flag and amount. */
  function Quota(have: nat, want: nat, force: bool, avail: nat): (r: (bool, nat))
    ensures r.1 <= avail
    ensures have == 0 ==> r.0
    ensures 0 < have && want <= have ==> !r.0
    ensures 0 < have < want ==> r.0 == force
    ensures r.0 ==> have + r.1 == Min(want, have + avail)
  {
    var (f, q) := if have == 0 then (true, want)
                  else if have >= want then (false, want)
                  else (force, want - have);
    (f, if q > avail then avail else q)
  }

  /** `b` is `a` with exactly `n` letters of the other case turned into case `upper`,
      and nothing else changed. */
  predicate Recased(a: Bytes, b: Bytes, upper: bool, n: nat) {
    && |a| == |b|
    && CountCase(b, upper) == CountCase(a, upper) + n
    && CountCase(b, !upper) + n == CountCase(a, !upper)
    && forall i :: 0 <= i < |a| ==> b[i] == a[i] || (InCase(a[i], !upper) && b[i] == ToCase(a[i], upper))
  }

  /** Recasing nothing changes nothing: every changed byte would move the count. */
  lemma {:induction false} RecasedNone(a: Bytes, b: Bytes, upper: bool)
    requires |a| == |b| && CountCase(b, upper) == CountCase(a, upper)
    requires forall i :: 0 <= i < |a| ==> b[i] == a[i] || (InCase(a[i], !upper) && b[i] == ToCase(a[i], upper))
    ensures a == b
  {
    if a != [] {
      var n := |a| - 1;
      RecaseMonotone(a[..n], b[..n], upper);
      assert a == a[..n] + [a[n]] && b == b[..n] + [b[n]];
      assert InCase(a[n], !upper) ==> InCase(ToCase(a[n], upper), upper) && !InCase(a[n], upper);
      assert b[n] == a[n];
      RecasedNone(a[..n], b[..n], upper);
    }
  }

  lemma {:induction false} RecaseMonotone(a: Bytes, b: Bytes, upper: bool)
    requires |a| == |b|
    requires forall i :: 0 <= i < |a| ==> b[i] == a[i] || (InCase(a[i], !upper) && b[i] == ToCase(a[i], upper))
    ensures CountCase(b, upper) >= CountCase(a, upper)
  {
    if a != [] {
      RecaseMonotone(a[..|a| - 1], b[..|b| - 1], upper);
    }
  }

  /** With `dont_upper` the upper pass is skipped, and the lower pass only lowers, so
      every uppercase byte of the result was already there. */
  lemma NoNewCapitals(a: Bytes, mid: Bytes, b: Bytes, n: nat)
    requires Recased(a, mid, true, 0) && Recased(mid, b, false, n)
    ensures forall i :: 0 <= i < |b| && IsUpper(b[i]) ==> b[i] == a[i]
  {
    RecasedNone(a, mid, true);
  }

  lemma DistinctRemove(s: seq<nat>, j: nat)
    requires Distinct(s) && j < |s|
    ensures var r := s[..j] + s[j + 1..];
            && |r| == |s| - 1 && Distinct(r)
            && forall t :: t in r <==> t in s && t != s[j]
  {
    var r := s[..j] + s[j + 1..];
    forall t | t in s && t != s[j] ensures t in r {
      var a :| 0 <= a < |s| && s[a] == t;
      if a < j { assert r[a] == t; } else { assert r[a - 1] == t; }
    }
  }

  /** The loops of src/password.rs:223-228 and 251-256: `count` times, removes the
      picked entry from the index list and recases the byte there (`capitalise` or
      `decapitalise`). The entries left are the indices not touched. */
  method Recase(buf: Bytes, indices: seq<nat>, count: nat, upper: bool, picks: nat -> nat)
    returns (r: Bytes, rest: seq<nat>)
    requires IsAscii(buf) && Distinct(indices) && count <= |indices|
    requires forall t :: t in indices ==> t < |buf| && InCase(buf[t], !upper)
    ensures IsAscii(r) && Recased(buf, r, upper, count)
    ensures |rest| + count == |indices| && Distinct(rest)
    ensures forall t :: t in rest ==> t in indices && r[t] == buf[t]
  {
    r, rest := buf, indices;
    var k := 0;
    while k < count
      invariant 0 <= k <= count && |rest| + k == |indices| && Distinct(rest)
      invariant IsAscii(r) && Recased(buf, r, upper, k)
      invariant forall t :: t in rest ==> t in indices && r[t] == buf[t]
    {
      var j := picks(k) % |rest|;
      var i := rest[j];
      assert i in rest;
      DistinctRemove(rest, j);
      rest := rest[..j] + rest[j + 1..];
      var v := ToCase(r[i], upper);
      CountCaseUpdate(r, i, v, upper);
      CountCaseUpdate(r, i, v, !upper);
      CaseAtAscii(r, i, upper);
      r := CaseAt(r, i, upper);
      k := k + 1;
    }
  }

  // ---------------------------------------------------------------------------
  // The stages' loops, on values; the methods of `Password` run them on its fields.

  /** What the loop of `get_pass_string` does after pushing a word, before the next
      word of length `next` (src/password.rs:117-143): go on pushing, stop with
      the buffer as it is, stop after truncating to `hi`, or clear and restart. */
  datatype Verdict = Push | Accept | Truncate | Restart

  /** The decision, given the buffer length `len`, whether the resets are `spent`,
      and the `gen_bool(0.8)` coin, which is flipped only once `lo` is reached and
      the next word fits. */
  function Decide(len: nat, next: nat, lo: nat, hi: nat, spent: bool, flip: bool): (v: Verdict)
    ensures v == Truncate ==> spent && (hi < len || (len < lo && hi < len + next))
    ensures v == Restart ==> !spent && (len < lo || hi < len)
    ensures v == Accept ==> lo <= len && (len <= hi || next == 0)
    ensures v == Push ==> next == 0 || len + next <= hi
  {
    var allowance := if len < hi then hi - len else 0;
    if next > allowance then
      if lo <= len <= hi then Accept else if spent then Truncate else Restart
    else if len < lo || flip then Push
    else Accept
  }

  /** Whether the decision consults the coin. */
  predicate Flips(len: nat, next: nat, lo: nat, hi: nat) {
    var allowance := if len < hi then hi - len else 0;
    next <= allowance && lo <= len
  }

  /** The state of the `get_pass_string` loop between iterations: the buffer, the
      resets spent, the word under the iterator's cursor, the coins flipped, and
      the verdict of the last decision. `from` and `count` say which words the
      buffer holds: `count` words taken cyclically from `from`; `skipped` counts
      the words pushed before the last reset. */
  datatype Progress = Progress(buf: Bytes, resets: nat, cursor: nat, flips: nat,
                               from: nat, count: nat, skipped: nat, verdict: Verdict)

  /** What holds of the loop state: the buffer is the words assembled since the
      last reset, which began where the words pushed before it left the cursor;
      the cursor is the word after them; every reset skipped at least one word;
      and a stop verdict carries the facts its branch checked. */
  ghost predicate Assembling(words: seq<Bytes>, capitalise: bool, lo: nat, hi: nat, resets0: nat,
                             resetAmount: nat, start: nat, st: Progress)
  {
    && |words| >= 2 && WordsOk(words) && start < |words|
    && st.from == Cycle(start, st.skipped, |words|)
    && st.cursor == Cycle(st.from, st.count, |words|)
    && resets0 <= st.resets <= resetAmount
    && (st.resets == resets0 ==> st.skipped == 0)
    && st.resets - resets0 <= st.skipped
    && st.buf == Assembled(words, capitalise, st.from, st.count)
    && (st.verdict != Truncate ==> |st.buf| <= hi + MaxWordLen(words))
    && (st.verdict != Truncate && st.cursor != 0 ==> |st.buf| <= hi)
    && (st.verdict == Accept ==> st.count > 0 && lo <= |st.buf| <= hi)
    && (st.verdict == Truncate ==>
          && st.count > 0 && st.resets == resetAmount
          && (hi < |st.buf| || (|st.buf| < lo && hi < |st.buf| + MaxWordLen(words))))
  }

  /** Pushing the word under the cursor extends the assembled words by one, and
      moves the cursor to the next word or, after the last, back to the first. */
  lemma PushWord(words: seq<Bytes>, capitalise: bool, lo: nat, hi: nat, resets0: nat,
                 resetAmount: nat, start: nat, st: Progress)
    requires Assembling(words, capitalise, lo, hi, resets0, resetAmount, start, st)
    requires st.verdict == Push || st.verdict == Restart
    ensures var buf := st.buf + Word(words[st.cursor], capitalise);
            && buf == Assembled(words, capitalise, st.from, st.count + 1)
            && Cycle(st.from, st.count + 1, |words|) == (if st.cursor + 1 < |words| then st.cursor + 1 else 0)
            && |st.buf| < |buf| <= hi + MaxWordLen(words) + (if st.cursor == 0 then MaxWordLen(words) else 0)
            && (st.cursor != 0 ==> |buf| <= hi + MaxWordLen(words))
  {
  }

  /** One iteration of the `get_pass_string` loop (src/password.rs:109-148): push
      the word under the cursor, capitalised when asked; then, unless the iterator
      wraps around to the first word, decide on the next word and clear the buffer
      for a restart. Either the resets spent grow, or the buffer grows, or the
      loop stops. */
  method AssembleStep(words: seq<Bytes>, capitalise: bool, lo: nat, hi: nat, resets0: nat,
                      resetAmount: nat, start: nat, coin: nat -> bool, st: Progress)
    returns (next: Progress)
    requires Assembling(words, capitalise, lo, hi, resets0, resetAmount, start, st)
    requires st.verdict == Push || st.verdict == Restart
    ensures Assembling(words, capitalise, lo, hi, resets0, resetAmount, start, next)
    ensures next.verdict == Restart ==>
              && next.buf == [] && next.count == 0 && next.resets == st.resets + 1
              && next.from == next.cursor == Cycle(st.from, st.count + 1, |words|)
              && next.skipped == st.skipped + st.count + 1
    ensures next.verdict != Restart ==> next.from == st.from && next.skipped == st.skipped
    ensures next.resets > st.resets
            || (next.resets == st.resets && |next.buf| > |st.buf|
                && (next.verdict == Push || next.verdict == Restart || |st.buf| <= hi + MaxWordLen(words)))
  {
    var n := |words|;
    PushWord(words, capitalise, lo, hi, resets0, resetAmount, start, st);
    var buf := st.buf + Word(words[st.cursor], capitalise);
    var count := st.count + 1;
    if st.cursor + 1 < n {
      var cursor := st.cursor + 1;
      var size := |words[cursor]|;
      var flip := coin(st.flips);
      var flips := if Flips(|buf|, size, lo, hi) then st.flips + 1 else st.flips;
      var v := Decide(|buf|, size, lo, hi, st.resets >= resetAmount, flip);
      if v == Restart {
        CycleAdd(start, st.skipped, count, n);
        next := Progress([], st.resets + 1, cursor, flips, cursor, 0, st.skipped + count, v);
      } else {
        next := Progress(buf, st.resets, cursor, flips, st.from, count, st.skipped, v);
      }
    } else {
      next := Progress(buf, st.resets, 0, st.flips, st.from, count, st.skipped, Push);
    }
  }

  /** The loop of `get_pass_string` (src/password.rs:101-151): starting at word
      `start`, pushes words cyclically; before each next word, `Decide` says whether
      to go on, stop, truncate to `hi` and stop once `resetAmount` resets are spent,
      or clear and restart from that word. The result is a prefix of the words
      taken from `runFrom`, inside the window unless the resets ran out; `runFrom`
      is where the cursor stood after the `skipped` words pushed before the last
      reset, so a reset never moves the cursor back. */
  method AssembleWords(words: seq<Bytes>, capitalise: bool, lo: nat, hi: nat, resets0: nat,
                       resetAmount: nat, start: nat, coin: nat -> bool)
    returns (buf: Bytes, resets: nat, ghost runFrom: nat, ghost runCount: nat, ghost skipped: nat)
    requires lo <= hi && resets0 <= resetAmount
    requires |words| >= 2 && WordsOk(words) && start < |words|
    ensures IsAscii(buf)
    ensures lo <= |buf| <= hi || (resets == resetAmount && |buf| <= hi)
    ensures |buf| < lo ==> resets == resetAmount && hi - lo + 1 < MaxWordLen(words)
    ensures |buf| > 0 || hi == 0
    ensures resets0 <= resets <= resetAmount
    ensures runFrom < |words| && runCount > 0
    ensures runFrom == Cycle(start, skipped, |words|)
    ensures resets == resets0 ==> skipped == 0 && runFrom == start
    ensures resets - resets0 <= skipped
    ensures var full := Assembled(words, capitalise, runFrom, runCount);
            && buf <= full
            && (|buf| < |full| ==> resets == resetAmount && |buf| == hi)
  {
    ghost var bound := hi + MaxWordLen(words);
    var st := Progress([], resets0, start, 0, start, 0, 0, Push);
    while st.verdict == Push || st.verdict == Restart
      invariant Assembling(words, capitalise, lo, hi, resets0, resetAmount, start, st)
      decreases resetAmount - st.resets, bound - |st.buf|, if st.verdict == Push then 1 else 0
    {
      st := AssembleStep(words, capitalise, lo, hi, resets0, resetAmount, start, coin, st);
    }
    buf, resets, runFrom, runCount, skipped := st.buf, st.resets, st.from, st.count, st.skipped;
    if st.verdict == Truncate && |buf| > hi {
      buf := buf[..hi];
    }
  }

  /** `n` rounds of the `insert_chars` loop (src/password.rs:186-191): each pops the
      top of the stack and inserts it at a drawn index below the current length. */
  method InsertAll(p: Bytes, stack: Bytes, n: nat, spots: nat -> nat) returns (r: Bytes, rest: Bytes)
    requires (|p| > 0 || n == 0) && n <= |stack| && IsAscii(p) && IsAscii(stack)
    ensures |r| == |p| + n && IsAscii(r) && IsAscii(rest)
    ensures rest == stack[..|stack| - n]
    ensures |p| > 0 ==> r == Inserted(p, stack, n, spots)
  {
    r, rest := p, stack;
    var i := 0;
    while i < n
      invariant 0 <= i <= n && rest == stack[..|stack| - i]
      invariant |p| > 0 ==> r == Inserted(p, stack, i, spots)
      invariant |r| == |p| + i && IsAscii(r)
    {
      var index := spots(i) % |r|;
      var c := rest[|rest| - 1];
      rest := rest[..|rest| - 1];
      r := r[..index] + [c] + r[index..];
      i := i + 1;
    }
  }

  /** `insert_chars` (src/password.rs:178-192) on a buffer and a stack: an empty
      buffer first receives the top of the stack, which counts as one of the `n`
      insertions; the rest go through `InsertAll`. Returns the insertions left
      planned after that first push. */
  method InsertStack(p: Bytes, stack: Bytes, n: nat, spots: nat -> nat)
    returns (r: Bytes, rest: Bytes, left: nat)
    requires (|p| > 0 || n > 0) && n <= |stack| && IsAscii(p) && IsAscii(stack)
    ensures |r| == |p| + n && IsAscii(r) && IsAscii(rest)
    ensures rest == stack[..|stack| - n]
    ensures |p| > 0 ==> left == n && r == Inserted(p, stack, n, spots)
    ensures |p| == 0 ==>
              left == n - 1 && r == Inserted([stack[|stack| - 1]], stack[..|stack| - 1], n - 1, spots)
  {
    var q, s := p, stack;
    left := n;
    if |q| == 0 {
      q := [s[|s| - 1]];
      s := s[..|s| - 1];
      left := left - 1;
    }
    r, rest := InsertAll(q, s, left, spots);
    assert rest == stack[..|stack| - n];
  }

  /** The rejection loop of `replace_chars` (src/password.rs:159-165) over the
      samples drawn so far: stops as soon as `total` distinct positions are held. */
  method PickPositions(samples: seq<nat>, len: nat, total: nat) returns (pos: seq<nat>)
    requires len > 0
    ensures pos == Picked(samples, len, total)
  {
    pos := [];
    var k := 0;
    while |pos| < total && k < |samples|
      invariant k <= |samples| && pos == Picked(samples[..k], len, total)
    {
      assert samples[..k + 1][..k] == samples[..k];
      var num := samples[k] % len;
      if num !in pos {
        pos := pos + [num];
      }
      k := k + 1;
    }
    if |pos| < total {
      assert samples[..k] == samples;
    } else {
      PickedStaysFull(samples, k, len, total);
    }
  }

  /** `r` is `p` with the bytes at `pos` replaced, in increasing order of position, by
      characters popped from the top of `stack`, and every other byte kept. */
  ghost predicate Overwritten(p: Bytes, stack: Bytes, pos: seq<nat>, r: Bytes) {
    && |r| == |p|
    && (forall j :: 0 <= j < |p| && j !in pos ==> r[j] == p[j])
    && (forall j :: 0 <= j < |p| && j in pos ==>
          Below(pos, j) < |pos| <= |stack| && r[j] == stack[|stack| - 1 - Below(pos, j)])
  }

  /** The rewrite of `replace_chars` (src/password.rs:167-173): walks the buffer and
      takes a popped character at each collected position. */
  method Overwrite(p: Bytes, stack: Bytes, pos: seq<nat>) returns (r: Bytes, rest: Bytes)
    requires Distinct(pos) && |pos| <= |stack| && IsAscii(p) && IsAscii(stack)
    requires forall k :: 0 <= k < |pos| ==> pos[k] < |p|
    ensures Overwritten(p, stack, pos, r) && IsAscii(r)
    ensures rest == stack[..|stack| - |pos|] && IsAscii(rest)
  {
    r, rest := [], stack;
    var i := 0;
    BelowNone(pos);
    assert rest == stack[..|stack| - 0];
    while i < |p|
      invariant 0 <= i <= |p| && |r| == i && IsAscii(r)
      invariant Below(pos, i) <= |pos| && rest == stack[..|stack| - Below(pos, i)]
      invariant forall j :: 0 <= j < i && j !in pos ==> r[j] == p[j]
      invariant forall j :: 0 <= j < i && j in pos ==>
                  Below(pos, j) < |pos| && r[j] == stack[|stack| - 1 - Below(pos, j)]
    {
      BelowStep(pos, i);
      if i in pos {
        r := r + [rest[|rest| - 1]];
        rest := rest[..|rest| - 1];
      } else {
        r := r + [p[i]];
      }
      i := i + 1;
    }
    BelowAll(pos, |p|);
  }

  /** One pass of `ensure_case` towards case `upper` (src/password.rs:202-228, or
      230-256 for the lower case): `have` letters already in the case, as the caller
      counted them, decide with the drawn `want` and the `force` flag; unless `dont`
      is set, that many letters of the other case, picked from their index list, are
      recased. The index entries of the other case that were not picked are
      returned: the source reads their number in the next pass. */
  method CasePass(buf: Bytes, upper: bool, have: nat, want: nat, force: bool, dont: bool,
                  picks: nat -> nat)
    returns (r: Bytes, others: seq<nat>, f: bool, w: nat)
    requires IsAscii(buf) && have == CountCase(buf, upper)
    ensures IsAscii(r)
    ensures (f, w) == Quota(have, want, force, CountCase(buf, !upper))
    ensures Recased(buf, r, upper, if f && !dont then w else 0)
    ensures |others| == CountCase(r, !upper)
  {
    others := CaseIndices(buf, !upper);
    CaseIndicesSpec(buf, !upper);
    f, w := force, want;
    if have == 0 {
      f := true;
    } else if have >= w {
      f := false;
    } else {
      w := w - have;
    }
    if w > |others| {
      w := |others|;
    }
    if f && !dont {
      r, others := Recase(buf, others, w, upper, picks);
    } else {
      r := buf;
      RecasedSame(r, upper);
    }
  }

  /** Both passes of `ensure_case` (src/password.rs:194-257): the upper pass counts
      the uppercase letters; the lower pass takes the number of lowercase letters
      the upper pass left. */
  method CasePasses(buf: Bytes, upper: nat, forceUpper: bool, dontUpper: bool, raise: nat -> nat,
                    lower: nat, forceLower: bool, dontLower: bool, drop: nat -> nat)
    returns (r: Bytes, ghost mid: Bytes, fu: bool, u: nat, fl: bool, l: nat)
    requires IsAscii(buf)
    ensures IsAscii(r)
    ensures var q := Quota(CountCase(buf, true), upper, forceUpper, CountCase(buf, false));
            && fu == q.0 && u == q.1
            && Recased(buf, mid, true, if q.0 && !dontUpper then q.1 else 0)
    ensures var q := Quota(CountCase(mid, false), lower, forceLower, CountCase(mid, true));
            && fl == q.0 && l == q.1
            && Recased(mid, r, false, if q.0 && !dontLower then q.1 else 0)
  {
    var m, lIndices;
    m, lIndices, fu, u := CasePass(buf, true, CountCase(buf, true), upper, forceUpper, dontUpper, raise);
    mid := m;
    var uIndices;
    r, uIndices, fl, l := CasePass(m, false, |lIndices|, lower, forceLower, dontLower, drop);
  }

  lemma RecasedSame(a: Bytes, upper: bool)
    ensures Recased(a, a, upper, 0)
  {
  }

  class Password {
    var password: Bytes
    var resetCount: nat
    var minLen: nat
    var maxLen: nat
    var totalInserts: nat
    var upper: nat
    var lower: nat
    var forceUpper: bool
    var forceLower: bool
    var insertables: Bytes

    /** The buffer and the stack are ASCII and the window is not inverted. */
    ghost predicate Valid()
      reads this
    {
      IsAscii(password) && IsAscii(insertables) && minLen <= maxLen
    }

    /** The stack holds a character for every planned insertion; true from `new`
        until `insert_chars` or `replace_chars` pops them. */
    ghost predicate Stocked()
      reads this
    {
      totalInserts <= |insertables|
    }

    /** `Password::new` (src/password.rs:36-99). */
    constructor New(cfg: Config, d: Dice)
      requires Drawable(cfg) && DiceFit(cfg, d)
      ensures Valid() && Stocked()
      ensures password == [] && resetCount == 0
      ensures var r := Reserve(Window(cfg.length, d.window), d.num, d.special, cfg.replace);
              minLen == r.minLen && maxLen == r.maxLen && totalInserts == r.total
      ensures upper == d.upper && lower == d.lower
      ensures forceUpper == cfg.forceUpper && forceLower == cfg.forceLower
      ensures insertables == Insertables(d.digits, d.symbols, cfg.specialChars, d.order)
    {
      var r := Reserve(Window(cfg.length, d.window), d.num, d.special, cfg.replace);
      var chars := DrawInsertables(d.digits, d.symbols, cfg.specialChars, d.order);
      InsertablesFit(d.digits, d.symbols, cfg.specialChars, d.order);
      password := [];
      resetCount := 0;
      minLen := r.minLen;
      maxLen := r.maxLen;
      totalInserts := r.total;
      upper := d.upper;
      lower := d.lower;
      forceUpper := cfg.forceUpper;
      forceLower := cfg.forceLower;
      insertables := chars;
    }

    /** A password with the given fields, as the command-line copy builds it once
        its own checks pass (src/main.rs:336-361). */
    constructor Init(minLen: nat, maxLen: nat, totalInserts: nat, upper: nat, lower: nat,
                     forceUpper: bool, forceLower: bool, insertables: Bytes)
      ensures password == [] && resetCount == 0
      ensures this.minLen == minLen && this.maxLen == maxLen && this.totalInserts == totalInserts
      ensures this.upper == upper && this.lower == lower
      ensures this.forceUpper == forceUpper && this.forceLower == forceLower
      ensures this.insertables == insertables
    {
      password := [];
      resetCount := 0;
      this.minLen := minLen;
      this.maxLen := maxLen;
      this.totalInserts := totalInserts;
      this.upper := upper;
      this.lower := lower;
      this.forceUpper := forceUpper;
      this.forceLower := forceLower;
      this.insertables := insertables;
    }

    /** `get_pass_string` (src/password.rs:101-151): pushes words cyclically from
        `start`, clearing the buffer (without moving the cursor) when the next word
        overshoots before the window is reached, at most `resetAmount` times. It ends
        inside the window, or with the resets used up and the buffer cut to the
        maximum. The buffer is always a prefix of the words of the last round.
        With a single word the source loops forever, so two are required. The
        words are assembled by `AssembleWords` into an empty buffer. */
    method GetPassString(words: seq<Bytes>, capitalise: bool, resetAmount: nat, start: nat,
                         coin: nat -> bool)
      returns (ghost runFrom: nat, ghost runCount: nat, ghost skipped: nat)
      requires Valid() && password == [] && resetCount <= resetAmount
      requires |words| >= 2 && WordsOk(words) && start < |words|
      modifies this
      ensures Valid()
      ensures minLen <= |password| <= maxLen || (resetCount == resetAmount && |password| <= maxLen)
      ensures |password| < minLen ==> resetCount == resetAmount && maxLen - minLen + 1 < MaxWordLen(words)
      ensures |password| > 0 || maxLen == 0
      ensures old(resetCount) <= resetCount <= resetAmount
      ensures runFrom < |words| && runCount > 0
      ensures runFrom == Cycle(start, skipped, |words|)
      ensures resetCount == old(resetCount) ==> skipped == 0 && runFrom == start
      ensures resetCount - old(resetCount) <= skipped
      ensures var full := Assembled(words, capitalise, runFrom, runCount);
              && password <= full
              && (|password| < |full| ==> resetCount == resetAmount && |password| == maxLen)
      ensures minLen == old(minLen) && maxLen == old(maxLen) && totalInserts == old(totalInserts)
      ensures upper == old(upper) && lower == old(lower)
      ensures forceUpper == old(forceUpper) && forceLower == old(forceLower)
      ensures insertables == old(insertables)
    {
      var buf, resets;
      buf, resets, runFrom, runCount, skipped :=
        AssembleWords(words, capitalise, minLen, maxLen, resetCount, resetAmount, start, coin);
      password := buf;
      resetCount := resets;
    }

    /** The loop of `insert_chars` (src/password.rs:186-191), run by `InsertAll`. */
    method InsertLoop(spots: nat -> nat)
      requires Valid() && Stocked() && (|password| > 0 || totalInserts == 0)
      modifies this
      ensures Valid() && totalInserts == old(totalInserts)
      ensures resetCount == old(resetCount) && minLen == old(minLen) && maxLen == old(maxLen)
      ensures upper == old(upper) && lower == old(lower)
      ensures forceUpper == old(forceUpper) && forceLower == old(forceLower)
      ensures |password| == old(|password|) + totalInserts
      ensures insertables == old(insertables)[..|old(insertables)| - totalInserts]
      ensures old(|password|) > 0 ==> password == Inserted(old(password), old(insertables), totalInserts, spots)
    {
      password, insertables := InsertAll(password, insertables, totalInserts, spots);
    }

    /** `insert_chars` (src/password.rs:178-192): an empty buffer first receives one
        popped character, counted off `total_inserts`. The final length is the
        assembled length plus the planned `total_inserts`, and the stack loses that
        many from its top. */
    method InsertChars(spots: nat -> nat)
      requires Valid() && Stocked() && (|password| > 0 || totalInserts > 0)
      modifies this
      ensures Valid()
      ensures resetCount == old(resetCount) && minLen == old(minLen) && maxLen == old(maxLen)
      ensures upper == old(upper) && lower == old(lower)
      ensures forceUpper == old(forceUpper) && forceLower == old(forceLower)
      ensures |password| == old(|password|) + old(totalInserts)
      ensures insertables == old(insertables)[..|old(insertables)| - old(totalInserts)]
      ensures old(|password|) > 0 ==>
                totalInserts == old(totalInserts)
                && password == Inserted(old(password), old(insertables), old(totalInserts), spots)
      ensures old(|password|) == 0 ==>
                totalInserts == old(totalInserts) - 1
                && password == Inserted([old(insertables)[|old(insertables)| - 1]],
                                        old(insertables)[..|old(insertables)| - 1],
                                        old(totalInserts) - 1, spots)
    {
      var r, rest, left := InsertStack(password, insertables, totalInserts, spots);
      password, insertables, totalInserts := r, rest, left;
    }

    /** `replace_chars` (src/password.rs:153-176). `samples` are the draws of
        `Uniform::new(0, len)` made so far; `finished` is false when the rejection
        loop has used them all without collecting `total_inserts` distinct positions,
        i.e. the source is still sampling, and then nothing has been rewritten. When
        finished, exactly the collected positions are overwritten, in increasing
        order, by characters popped from the stack, and everything else is kept. */
    method ReplaceChars(samples: seq<nat>) returns (finished: bool, positions: seq<nat>)
      requires Valid() && Stocked() && |password| > 0
      modifies this
      ensures Valid() && totalInserts == old(totalInserts)
      ensures resetCount == old(resetCount) && minLen == old(minLen) && maxLen == old(maxLen)
      ensures upper == old(upper) && lower == old(lower)
      ensures forceUpper == old(forceUpper) && forceLower == old(forceLower)
      ensures positions == Picked(samples, |old(password)|, totalInserts)
      ensures finished <==> |positions| == totalInserts
      ensures !finished ==> password == old(password) && insertables == old(insertables) && Stocked()
      ensures finished ==> Overwritten(old(password), old(insertables), positions, password)
      ensures finished ==> insertables == old(insertables)[..|old(insertables)| - totalInserts]
    {
      positions := PickPositions(samples, |password|, totalInserts);
      finished := |positions| == totalInserts;
      if finished {
        password, insertables := Overwrite(password, insertables, positions);
      }
    }

    /** `ensure_case` (src/password.rs:194-257). The upper pass decides from the
        uppercase count and capitalises picked lowercase letters; `mid` is the buffer
        after it. The lower pass decides from the lowercase letters left after the
        upper pass and the uppercase letters of `mid`, and lowercases picked ones.
        Each pass changes exactly the number of letters its decision allows, or none
        when it is switched off by its flag, and touches nothing but letters. */
    method EnsureCase(dontUpper: bool, dontLower: bool, raise: nat -> nat, drop: nat -> nat)
      returns (ghost mid: Bytes)
      requires Valid()
      modifies this
      ensures Valid()
      ensures resetCount == old(resetCount) && minLen == old(minLen) && maxLen == old(maxLen)
      ensures totalInserts == old(totalInserts) && insertables == old(insertables)
      ensures var q := Quota(CountCase(old(password), true), old(upper), old(forceUpper),
                             CountCase(old(password), false));
              && forceUpper == q.0 && upper == q.1
              && Recased(old(password), mid, true, if q.0 && !dontUpper then q.1 else 0)
      ensures var q := Quota(CountCase(mid, false), old(lower), old(forceLower), CountCase(mid, true));
              && forceLower == q.0 && lower == q.1
              && Recased(mid, password, false, if q.0 && !dontLower then q.1 else 0)
    {
      var r, fu, u, fl, l;
      r, mid, fu, u, fl, l := CasePasses(password, upper, forceUpper, dontUpper, raise,
                                         lower, forceLower, dontLower, drop);
      password, forceUpper, upper, forceLower, lower := r, fu, u, fl, l;
    }
    /** `generate` (src/password.rs:22-34): assemble the words, then replace or
        insert, then fix the case, and take the buffer, leaving it empty. `done` is
        false only in replace mode while the rejection loop is still sampling. The
        result keeps the length the stages give it: the assembled window, widened by
        the insertions in insert mode, and ASCII throughout. */
    method Generate(cfg: Config, d: Dice) returns (done: bool, pass: Bytes)
      requires Valid() && Stocked() && password == [] && resetCount <= cfg.resetAmount
      requires |cfg.words| >= 2 && WordsOk(cfg.words) && d.start < |cfg.words|
      requires cfg.replace ==> maxLen > 0
      requires maxLen > 0 || totalInserts > 0
      modifies this
      ensures password == [] && IsAscii(pass)
      ensures !cfg.replace ==> done
      ensures var extra := if cfg.replace then 0 else old(totalInserts);
              && (done ==> |pass| <= old(maxLen) + extra)
              && (done && resetCount < cfg.resetAmount ==> old(minLen) + extra <= |pass|)
              && (done && MaxWordLen(cfg.words) <= old(maxLen) - old(minLen) + 1 ==> old(minLen) + extra <= |pass|)
      ensures cfg.replace ==>
                && |pass| > 0
                && (done <==> |Picked(d.samples, |pass|, old(totalInserts))| == old(totalInserts))
      ensures old(resetCount) <= resetCount <= cfg.resetAmount
    {
      ghost var runFrom, runCount, skipped := GetPassString(cfg.words, cfg.capitalise, cfg.resetAmount, d.start, d.coin);
      done := true;
      if cfg.replace {
        var positions;
        done, positions := ReplaceChars(d.samples);
      } else {
        InsertChars(d.spots);
      }
      ghost var mid := EnsureCase(cfg.dontUpper, cfg.dontLower, d.raise, d.drop);
      pass, password := password, [];
    }
  }
  /** One password from the settings (src/settings.rs:327-329): `new` then
      `generate`. When done, the password fits the length window drawn for it:
      never longer than its end and never shorter than its start when some reset was
      left or no word is longer than the window's width plus one. Insert
      mode is always done; replace mode is done exactly when the samples hold
      enough distinct positions. */
  method Build(cfg: Config, d: Dice) returns (done: bool, pass: Bytes, ghost exhausted: bool)
    requires Drawable(cfg) && DiceFit(cfg, d) && cfg.length.end >= 1
    requires |cfg.words| >= 2 && WordsOk(cfg.words)
    ensures IsAscii(pass)
    ensures !cfg.replace ==> done
    ensures var w := Window(cfg.length, d.window);
            && (done ==> |pass| <= w.end)
            && (done && !exhausted ==> w.start <= |pass|)
            && (done && MaxWordLen(cfg.words) <= w.end - w.start + 1 ==> w.start <= |pass|)
    ensures cfg.replace ==>
              var total := Reserve(Window(cfg.length, d.window), d.num, d.special, true).total;
              && |pass| > 0
              && (done <==> |Picked(d.samples, |pass|, total)| == total)
  {
    var p := new Password.New(cfg, d);
    done, pass := p.Generate(cfg, d);
    exhausted := p.resetCount >= cfg.resetAmount;
  }
}
