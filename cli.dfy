/**
  src/main.rs: the older command-line program, which carries its own copy of the
  password builder. Its stages for the assembly decision, `replace_chars`,
  `ensure_case` and `capitalise`/`decapitalise` are the library's, and the model
  runs the `Builder` ones. What differs is modelled here: ranges are parsed by
  the stricter `process_range`; `Password::new` refuses a reservation that does
  not fit instead of clamping it; `configure` refuses empty text and a single
  word; the start word is drawn from all but the last; an empty assembled
  password is an error; and `insert_chars` has no empty-buffer guard.
 */
module Cli {
  import opened Ascii
  import opened Helpers
  import Runs
  import Shuffle
  import Builder
  import Settings

  /** The failures the program reports through `?`. */
  datatype CliError =
    | ParseIntError               // usize::from_str failed
    | InvalidRange                // "invalid range"
    | RightSmallerThanLeft        // "right side of range can't be smaller than left side"
    | SpecialAmountExceedsLength  // "special character amount exceeds password length"
    | LengthBelowInsertables      // "can't have password length be lower than ..."
    | NoTextProvided              // "no text provided"
    | SingleWord                  // "can't form a password from a single word"
    | EmptyPassword               // "empty password"

  datatype Result<T> = Ok(value: T) | Err(error: CliError)

  // ---------------------------------------------------------------------------
  // process_range (src/main.rs:568-587)

  /** `str::split("-")`: the pieces between dashes, empty ones included. */
  function SplitDash(s: string): (r: seq<string>)
    ensures |r| >= 1
    ensures forall k :: 0 <= k < |r| ==> '-' !in r[k]
    ensures '-' in s <==> |r| >= 2
    decreases |s|
  {
    var i := Runs.FirstOutside(s, NotDash);
    if i == |s| then
      assert forall k :: 0 <= k < |s| ==> NotDash(s[..i][k]);
      [s]
    else
      assert forall k :: 0 <= k < i ==> NotDash(s[..i][k]);
      [s[..i]] + SplitDash(s[i + 1..])
  }

  /** The pieces joined back with dashes. */
  function JoinDash(ps: seq<string>): string
    requires |ps| >= 1
  {
    if |ps| == 1 then ps[0] else ps[0] + "-" + JoinDash(ps[1..])
  }

  /** Splitting then joining gives the string back. */
  lemma {:induction false} SplitJoin(s: string)
    ensures JoinDash(SplitDash(s)) == s
    decreases |s|
  {
    var i := Runs.FirstOutside(s, NotDash);
    if i == |s| {
      assert s[..i] == s;
    } else {
      SplitJoin(s[i + 1..]);
      assert s == s[..i] + "-" + s[i + 1..];
      assert SplitDash(s)[1..] == SplitDash(s[i + 1..]);
    }
  }

  /** A dash-free head splits off as the first piece. */
  lemma SplitDashCons(x: string, y: string)
    requires '-' !in x
    ensures SplitDash(x + "-" + y) == [x] + SplitDash(y)
  {
    var s := x + "-" + y;
    assert s[..|x|] == x;
    Runs.FirstOutsideIs(s, |x|, NotDash);
    assert s[|x| + 1..] == y;
  }

  /** Joining dash-free pieces then splitting gives the pieces back. */
  lemma {:induction false} JoinSplit(ps: seq<string>)
    requires |ps| >= 1 && forall k :: 0 <= k < |ps| ==> '-' !in ps[k]
    ensures SplitDash(JoinDash(ps)) == ps
  {
    if |ps| == 1 {
      var s := ps[0];
      Runs.FirstOutsideIs(s, |s|, NotDash);
      assert s[..|s|] == s;
    } else {
      JoinSplit(ps[1..]);
      SplitDashCons(ps[0], JoinDash(ps[1..]));
      assert ps == [ps[0]] + ps[1..];
    }
  }

  /** The dash case: the first two pieces are parsed before the piece count and
      the order are checked. */
  function RangeOfPieces(pieces: seq<string>): (r: Result<RangeInc>)
    requires |pieces| >= 2
    ensures r.Ok? ==> r.value.start <= r.value.end <= UsizeMax
  {
    var lo := ParseUsize(pieces[0]);
    var hi := ParseUsize(pieces[1]);
    if lo.None? || hi.None? then Err(ParseIntError)
    else if |pieces| > 2 then Err(InvalidRange)
    else if hi.value < lo.value then Err(RightSmallerThanLeft)
    else Ok(RangeInc(lo.value, hi.value))
  }

  /** The range `process_range` writes, or the error it returns. */
  function RangeOf(range: string): (r: Result<RangeInc>)
    ensures r.Ok? ==> r.value.start <= r.value.end <= UsizeMax
    ensures r.Err? ==> r.error in {ParseIntError, InvalidRange, RightSmallerThanLeft}
  {
    if '-' in range then RangeOfPieces(SplitDash(range))
    else
      match ParseUsize(range)
      case None => Err(ParseIntError)
      case Some(v) => Ok(RangeInc(v, v))
  }

  /** `process_range` (src/main.rs:568-587): writes the parsed bounds through its
      out-parameters and returns the first error met. */
  method ProcessRange(range: string, min0: nat, max0: nat)
    returns (min: nat, max: nat, err: Option<CliError>)
    ensures err.None? <==> RangeOf(range).Ok?
    ensures err.None? ==> RangeInc(min, max) == RangeOf(range).value
    ensures err.Some? ==> err.value == RangeOf(range).error
  {
    min, max := min0, max0;
    if '-' in range {
      var r := SplitDash(range);
      var lo := ParseUsize(r[0]);
      if lo.None? {
        return min, max, Some(ParseIntError);
      }
      min := lo.value;
      var hi := ParseUsize(r[1]);
      if hi.None? {
        return min, max, Some(ParseIntError);
      }
      max := hi.value;
      if |r| > 2 {
        return min, max, Some(InvalidRange);
      }
      if max < min {
        return min, max, Some(RightSmallerThanLeft);
      }
    } else {
      var v := ParseUsize(range);
      if v.None? {
        return min, max, Some(ParseIntError);
      }
      min := v.value;
      max := min;
    }
    err := None;
  }

  /** A side `usize::from_str` accepts ("7", "007", "+7") sets both bounds to its value. */
  lemma RangeOfSingle(x: string, n: nat)
    requires ParseUsize(x) == Some(n)
    ensures RangeOf(x) == Ok(RangeInc(n, n))
  {
    NoDashInNumeral(x);
  }

  /** "a-b", with sides `usize::from_str` accepts, gives a..=b, or the "right
      side smaller" error when b < a. */
  lemma RangeOfPair(x: string, z: string, a: nat, b: nat)
    requires ParseUsize(x) == Some(a) && ParseUsize(z) == Some(b)
    ensures RangeOf(x + "-" + z) == if b < a then Err(RightSmallerThanLeft) else Ok(RangeInc(a, b))
  {
    NoDashInNumeral(x);
    NoDashInNumeral(z);
    TwoPieces(x, z);
    DashIn(x, z);
  }

  /** What `usize::from_str` accepts is an optional '+' and digits: no dash. */
  lemma NoDashInNumeral(x: string)
    requires ParseUsize(x).Some?
    ensures '-' !in x
  {
    var d := if |x| > 1 && x[0] == '+' then x[1..] else x;
    NoDashInDigits(d);
    if d != x {
      assert x == [x[0]] + d;
    }
  }

  lemma TwoPieces(x: string, z: string)
    requires '-' !in x && '-' !in z
    ensures SplitDash(x + "-" + z) == [x, z]
  {
    SplitDashCons(x, z);
    JoinSplit([z]);
  }

  /** An empty piece among the first two never parses: a leading dash, a trailing
      dash after a dash-free head, or a doubled first dash is a parse error. */
  lemma RangeOfEmptySide(x: string, y: string)
    requires '-' !in x && (x == [] || y == [] || y[0] == '-')
    ensures RangeOf(x + "-" + y) == Err(ParseIntError)
  {
    SplitDashCons(x, y);
    assert '-' in x + "-" + y by { assert (x + "-" + y)[|x|] == '-'; }
    if y != [] && y[0] == '-' {
      SplitDashCons([], y[1..]);
      assert y == [] + "-" + y[1..];
    }
  }

  /** A third piece is refused only after the first two parse, whatever it holds. */
  lemma RangeOfThree(a: nat, b: nat, y: string)
    requires a <= UsizeMax && b <= UsizeMax
    ensures RangeOf(Show(a) + "-" + (Show(b) + "-" + y)) == Err(InvalidRange)
  {
    ParseShow(a);
    ParseShow(b);
    var s := Show(a) + "-" + (Show(b) + "-" + y);
    NoDashInShow(a);
    NoDashInShow(b);
    ThreePieces(Show(a), Show(b), y);
    DashIn(Show(a), Show(b) + "-" + y);
    var pieces := SplitDash(s);
    assert RangeOfPieces(pieces) == Err(InvalidRange);
  }

  lemma ThreePieces(x: string, z: string, y: string)
    requires '-' !in x && '-' !in z
    ensures var pieces := SplitDash(x + "-" + (z + "-" + y));
            |pieces| > 2 && pieces[0] == x && pieces[1] == z
  {
    SplitDashCons(x, z + "-" + y);
    SplitDashCons(z, y);
  }

  lemma DashIn(x: string, y: string)
    ensures '-' in x + "-" + y
  {
    assert (x + "-" + y)[|x|] == '-';
  }

  // ---------------------------------------------------------------------------
  // Password::new (src/main.rs:268-362)

  /** The command-line options the builder reads (src/main.rs:16-197). */
  datatype Options = Options(
    length: string,
    num: string,
    special: string,
    upper: string,
    lower: string,
    specialChars: Bytes,
    replace: bool,
    capitalise: bool,
    maxResets: nat,
    forceUpper: bool,
    forceLower: bool,
    dontUpper: bool,
    dontLower: bool,
    keepNumbers: bool,
    randomize: bool)

  /** A draw `gen_range(min, max + 1)` lies in the parsed range whenever it is made. */
  predicate Drawn(spec: string, x: nat) {
    var r := RangeOf(spec);
    r.Ok? && r.value.end < UsizeMax ==> Builder.InRange(x, r.value)
  }

  /** Every draw lies in the range the generator draws it from. */
  predicate CliDiceFit(o: Options, d: Builder.Dice) {
    && (var l := RangeOf(o.length);
        l.Ok? && l.value.end - l.value.start > 50 ==>
          l.value.start <= d.window <= l.value.end - 50)
    && Drawn(o.num, d.num) && Drawn(o.special, d.special)
    && Drawn(o.upper, d.upper) && Drawn(o.lower, d.lower)
    && |d.digits| == d.num && (forall k :: 0 <= k < |d.digits| ==> d.digits[k] < 10)
    && |d.symbols| == d.special
    && (forall k :: 0 <= k < |d.symbols| ==> d.symbols[k] < |o.specialChars|)
  }

  /** The fields of the command-line `Password` (src/main.rs:251-265) after `new`. */
  datatype Knobs = Knobs(
    minLen: nat, maxLen: nat, num: nat, special: nat, totalInserts: nat,
    upper: nat, lower: nat, forceUpper: bool, forceLower: bool, insertables: Bytes)

  /** What `new` does: builds the fields, returns an error, or panics
      (`max + 1` or `num + special` overflowing a `usize`, or
      `Uniform::new(0, 0)` on an empty set of special characters). */
  datatype Prepared = Ready(knobs: Knobs) | Failed(error: CliError) | Panics

  /** The length window, once the length option parses. */
  function CliWindow(o: Options, d: Builder.Dice): (w: RangeInc)
    requires CliDiceFit(o, d) && RangeOf(o.length).Ok?
  {
    Builder.Window(RangeOf(o.length).value, d.window)
  }

  /** An amount option: its parse error, a panic when `max + 1` overflows, or
      `None` when a draw can be made. */
  function AmountCheck(spec: string): (r: Option<Prepared>)
    ensures r.None? <==> RangeOf(spec).Ok? && RangeOf(spec).value.end < UsizeMax
  {
    var range := RangeOf(spec);
    if range.Err? then Some(Failed(range.error))
    else if range.value.end == UsizeMax then Some(Panics)
    else None
  }

  /** The checks of `new` before the reservation (src/main.rs:271-297): the length
      and the four amounts parse and can be drawn from, and `num + special` fits a
      `usize`; `None` when they all pass. */
  function Checked(o: Options, d: Builder.Dice): (r: Option<Prepared>)
    ensures r.None? ==> RangeOf(o.length).Ok? && d.num + d.special <= UsizeMax
    ensures r.Some? ==> !r.value.Ready?
  {
    var length := RangeOf(o.length);
    if length.Err? then Some(Failed(length.error))
    else if AmountCheck(o.num).Some? then AmountCheck(o.num)
    else if AmountCheck(o.special).Some? then AmountCheck(o.special)
    else if AmountCheck(o.upper).Some? then AmountCheck(o.upper)
    else if AmountCheck(o.lower).Some? then AmountCheck(o.lower)
    else if d.num + d.special > UsizeMax then Some(Panics)
    else None
  }

  /** The reservation of `new` (src/main.rs:299-334) once the checks pass. */
  function Admit(o: Options, d: Builder.Dice): (r: Prepared)
    requires CliDiceFit(o, d) && IsAscii(o.specialChars) && RangeOf(o.length).Ok?
  {
    var w := CliWindow(o, d);
    var total := d.num + d.special;
    if total > w.end then Failed(SpecialAmountExceedsLength)
    else if !o.replace && w.start < total then Failed(LengthBelowInsertables)
    else if |o.specialChars| == 0 then Panics
    else
      var lo := if o.replace then w.start else w.start - total;
      var hi := if o.replace then w.end else w.end - total;
      Ready(Knobs(lo, hi, d.num, d.special, total, d.upper, d.lower,
                  o.forceUpper, o.forceLower,
                  Builder.Insertables(d.digits, d.symbols, o.specialChars, d.order)))
  }

  /** `Password::new` (src/main.rs:268-362), step by step. */
  function Prepare(o: Options, d: Builder.Dice): (r: Prepared)
    requires CliDiceFit(o, d) && IsAscii(o.specialChars)
  {
    match Checked(o, d)
    case Some(stop) => stop
    case None => Admit(o, d)
  }

  /** Where `new` succeeds it reserves exactly what the library's clamping
      reservation would (the clamps never fire), the stack holds the `num + special`
      drawn characters, and the knobs are the draws. */
  lemma PrepareAgreesWithLibrary(o: Options, d: Builder.Dice)
    requires CliDiceFit(o, d) && IsAscii(o.specialChars) && Prepare(o, d).Ready?
    ensures RangeOf(o.length).Ok?
    ensures var k := Prepare(o, d).knobs;
            var w := CliWindow(o, d);
            && Builder.Reserve(w, d.num, d.special, o.replace)
               == Builder.Reservation(k.minLen, k.maxLen, k.totalInserts)
            && k.totalInserts == k.num + k.special <= w.end
            && (!o.replace ==> k.totalInserts <= w.start)
            && |k.insertables| == k.totalInserts && IsAscii(k.insertables)
            && k.upper == d.upper && k.lower == d.lower
  {
    Builder.InsertablesFit(d.digits, d.symbols, o.specialChars, d.order);
  }

  /** Once every range parses without overflow, `new` refuses exactly the
      reservations the library would clamp: more insertables than the window's
      maximum, or, in insert mode, than its minimum. */
  lemma PrepareRefuses(o: Options, d: Builder.Dice)
    requires CliDiceFit(o, d) && IsAscii(o.specialChars) && Checked(o, d).None?
    ensures var w := CliWindow(o, d);
            && (Prepare(o, d) == Failed(SpecialAmountExceedsLength) <==> d.num + d.special > w.end)
            && (Prepare(o, d) == Failed(LengthBelowInsertables) <==>
                  d.num + d.special <= w.end && !o.replace && w.start < d.num + d.special)
            && (Prepare(o, d).Ready? <==>
                  d.num + d.special <= w.end && (o.replace || d.num + d.special <= w.start)
                  && |o.specialChars| > 0)
  {
  }

  /** `Password::new` (src/main.rs:268-362): the checks of `Prepare`, then the
      insertables drawn and a password built from the knobs. */
  method NewPassword(o: Options, d: Builder.Dice) returns (r: Prepared, p: Builder.Password?)
    requires CliDiceFit(o, d) && IsAscii(o.specialChars)
    ensures r == Prepare(o, d)
    ensures r.Ready? ==>
              && p != null && fresh(p) && p.Valid() && p.Stocked()
              && p.password == [] && p.resetCount == 0
              && p.minLen == r.knobs.minLen && p.maxLen == r.knobs.maxLen
              && p.totalInserts == r.knobs.totalInserts && p.insertables == r.knobs.insertables
              && p.upper == r.knobs.upper && p.lower == r.knobs.lower
              && p.forceUpper == o.forceUpper && p.forceLower == o.forceLower
  {
    r := Prepare(o, d);
    p := null;
    if r.Ready? {
      PrepareAgreesWithLibrary(o, d);
      var k := r.knobs;
      var chars := Builder.DrawInsertables(d.digits, d.symbols, o.specialChars, d.order);
      p := new Builder.Password.Init(k.minLen, k.maxLen, k.totalInserts, k.upper, k.lower,
                                     o.forceUpper, o.forceLower, chars);
    }
  }

  // ---------------------------------------------------------------------------
  // Args::configure, get_pass_string, insert_chars, generate_password

  /** The program's arguments: the options and the words `configure` fills in. */
  class Args {
    var options: Options
    var text: seq<Bytes>

    constructor (options: Options)
      ensures this.options == options && text == []
    {
      this.options := options;
      text := [];
    }

    /** `configure` (src/main.rs:200-248) on the text read from the path: the
        words `Extract` finds replace the old ones, and on an error they stay. */
    method Configure(fileText: Bytes, deunicode: Bytes -> Bytes, order: nat -> nat)
      returns (err: Option<CliError>)
      requires forall t :: IsAscii(deunicode(t))
      modifies this`text
      ensures var (words, e) := Extract(fileText, options.keepNumbers, options.randomize, deunicode, order);
              && err == e
              && (err.Some? ==> text == old(text))
              && (err.None? ==> text == words && Builder.WordsOk(text) && |text| != 1)
    {
      var words;
      words, err := ExtractWords(fileText, options.keepNumbers, options.randomize, deunicode, order);
      if err.None? {
        text := words;
      }
    }
  }

  /** The words `configure` keeps, or its error: empty text and exactly one word are
      refused; otherwise the words found, possibly none, shuffled with `randomize`. */
  function Extract(fileText: Bytes, keepNumbers: bool, randomize: bool, deunicode: Bytes -> Bytes,
                   order: nat -> nat): (seq<Bytes>, Option<CliError>)
  {
    var found := Settings.Extracted(fileText, keepNumbers, deunicode);
    if fileText == [] then ([], Some(NoTextProvided))
    else if |found| == 1 then ([], Some(SingleWord))
    else if randomize then (Shuffle.Shuffled(found, order), None)
    else (found, None)
  }

  /** The extraction block of `configure` (src/main.rs:213-242): the error cases
      are exactly empty text and a single word, zero words are accepted, and the
      words kept are non-empty ASCII words, a reordering of those found. */
  method ExtractWords(fileText: Bytes, keepNumbers: bool, randomize: bool,
                      deunicode: Bytes -> Bytes, order: nat -> nat)
    returns (words: seq<Bytes>, err: Option<CliError>)
    requires forall t :: IsAscii(deunicode(t))
    ensures (words, err) == Extract(fileText, keepNumbers, randomize, deunicode, order)
    ensures var found := Settings.Extracted(fileText, keepNumbers, deunicode);
            && (err == Some(NoTextProvided) <==> fileText == [])
            && (err == Some(SingleWord) <==> fileText != [] && |found| == 1)
            && (err.None? ==> Builder.WordsOk(words) && |words| != 1
                              && multiset(words) == multiset(found))
  {
    if fileText == [] {
      return [], Some(NoTextProvided);
    }
    var ascii := if IsAscii(fileText) then fileText else deunicode(fileText);
    var found := Runs.Runs(ascii, Settings.WordClass(keepNumbers));
    Settings.ExtractedSpec(fileText, keepNumbers, deunicode);
    var filtered := Settings.PushAll([], found);
    assert filtered == found;
    if |filtered| == 1 {
      return [], Some(SingleWord);
    }
    if randomize {
      Settings.WordsOkPermuted(filtered, Shuffle.Shuffled(filtered, order));
      filtered := Shuffle.Shuffled(filtered, order);
    }
    words, err := filtered, None;
  }

  /** `get_pass_string` (src/main.rs:398-453): the library's assembly from a start
      drawn by `gen_range(0, len - 1)`, so the last word never starts a password,
      then the empty-password error, which is reported exactly when the maximum
      length is zero. With no words, `len - 1` underflows and the source panics;
      one word was refused by `configure`. */
  method GetPassString(o: Options, text: seq<Bytes>, p: Builder.Password, start: nat,
                       coin: nat -> bool)
    returns (err: Option<CliError>, ghost runFrom: nat, ghost runCount: nat, ghost skipped: nat)
    requires p.Valid() && p.password == [] && p.resetCount <= o.maxResets
    requires |text| >= 2 && Builder.WordsOk(text) && start < |text| - 1
    modifies p
    ensures p.Valid()
    ensures err.None? || err == Some(EmptyPassword)
    ensures err == Some(EmptyPassword) <==> p.password == []
    ensures p.password == [] <==> p.maxLen == 0
    ensures p.minLen <= |p.password| <= p.maxLen || (p.resetCount == o.maxResets && |p.password| <= p.maxLen)
    ensures |p.password| < p.minLen ==>
              p.resetCount == o.maxResets && p.maxLen - p.minLen + 1 < Builder.MaxWordLen(text)
    ensures old(p.resetCount) <= p.resetCount <= o.maxResets
    ensures runFrom == Builder.Cycle(start, skipped, |text|) && runCount > 0
    ensures p.resetCount == old(p.resetCount) ==> skipped == 0 && runFrom == start && runFrom < |text| - 1
    ensures p.resetCount - old(p.resetCount) <= skipped
    ensures var full := Builder.Assembled(text, o.capitalise, runFrom, runCount);
            && p.password <= full
            && (|p.password| < |full| ==> p.resetCount == o.maxResets && |p.password| == p.maxLen)
    ensures p.minLen == old(p.minLen) && p.maxLen == old(p.maxLen)
    ensures p.totalInserts == old(p.totalInserts) && p.insertables == old(p.insertables)
    ensures p.upper == old(p.upper) && p.lower == old(p.lower)
    ensures p.forceUpper == old(p.forceUpper) && p.forceLower == old(p.forceLower)
  {
    runFrom, runCount, skipped := p.GetPassString(text, o.capitalise, o.maxResets, start, coin);
    err := None;
    if |p.password| == 0 {
      err := Some(EmptyPassword);
    }
  }

  /** `insert_chars` (src/main.rs:480-489): the library's insertion loop without its
      empty-buffer guard; `gen_range(0, 0)` would panic on an empty buffer, which
      the empty-password error rules out. */
  method InsertChars(p: Builder.Password, spots: nat -> nat)
    requires p.Valid() && p.Stocked() && |p.password| > 0
    modifies p
    ensures p.Valid() && p.totalInserts == old(p.totalInserts)
    ensures |p.password| == old(|p.password|) + p.totalInserts
    ensures p.password == Builder.Inserted(old(p.password), old(p.insertables), p.totalInserts, spots)
    ensures p.insertables == old(p.insertables)[..|old(p.insertables)| - p.totalInserts]
    ensures p.minLen == old(p.minLen) && p.maxLen == old(p.maxLen)
  {
    p.InsertLoop(spots);
  }

  /** How one run of `generate_password` ends. `Aborted` is a panic in `new`;
      `Sampling` is a replace-mode run whose rejection loop is still drawing
      positions. */
  datatype Written = Wrote | Refused(error: CliError) | Aborted | Sampling

  /** `generate_password` (src/main.rs:380-396): `new`, `get_pass_string`, replace or
      insert, `ensure_case`, and the password written to the output followed by a
      newline. The output grows only on success; the password is ASCII, never longer
      than the window's maximum and, unless the resets ran out or a word is longer
      than the window's width plus one, never shorter than its minimum. "empty
      password" is the refusal exactly when `new` succeeds with a maximum of 0,
      and insert mode writes a password whenever `new` succeeds with a larger one. */
  method GeneratePassword(args: Args, d: Builder.Dice, result: Bytes)
    returns (w: Written, pass: Bytes, out: Bytes, ghost exhausted: bool)
    requires CliDiceFit(args.options, d) && IsAscii(args.options.specialChars)
    requires |args.text| >= 2 && Builder.WordsOk(args.text) && d.start < |args.text| - 1
    ensures w == Aborted <==> Prepare(args.options, d) == Panics
    ensures Prepare(args.options, d).Failed? ==> w == Refused(Prepare(args.options, d).error)
    ensures w.Refused? ==> Prepare(args.options, d).Failed? || w.error == EmptyPassword
    ensures w == Refused(EmptyPassword) <==>
              Prepare(args.options, d).Ready? && Prepare(args.options, d).knobs.maxLen == 0
    ensures !args.options.replace && Prepare(args.options, d).Ready? && Prepare(args.options, d).knobs.maxLen > 0 ==>
              w == Wrote
    ensures w == Sampling ==> args.options.replace
    ensures w == Wrote ==> out == result + pass + [10]
    ensures w != Wrote ==> out == result
    ensures w == Wrote ==>
              && Prepare(args.options, d).Ready? && IsAscii(pass)
              && var win := CliWindow(args.options, d);
              && |pass| <= win.end
              && (!exhausted ==> win.start <= |pass|)
              && (Builder.MaxWordLen(args.text) <= win.end - win.start + 1 ==> win.start <= |pass|)
  {
    var o := args.options;
    out := result;
    pass := [];
    exhausted := false;
    var r, p := NewPassword(o, d);
    match r
    case Failed(e) =>
      PrepareNeverEmpty(o, d);
      return Refused(e), pass, out, exhausted;
    case Panics => return Aborted, pass, out, exhausted;
    case Ready(k) =>
      PrepareAgreesWithLibrary(o, d);
      w, pass, out, exhausted := WriteFrom(o, args.text, p, d, result);
  }

  /** `new` never reports an empty password: that error belongs to `get_pass_string`. */
  lemma PrepareNeverEmpty(o: Options, d: Builder.Dice)
    requires CliDiceFit(o, d) && IsAscii(o.specialChars)
    ensures Prepare(o, d).Failed? ==> Prepare(o, d).error != EmptyPassword
  {
    var c := Checked(o, d);
    if c.Some? && c.value.Failed? {
      var length := RangeOf(o.length);
      if length.Ok? {
        assert c.value.error in {ParseIntError, InvalidRange, RightSmallerThanLeft} by {
          if AmountCheck(o.num).Some? { assert c == AmountCheck(o.num); }
          else if AmountCheck(o.special).Some? { assert c == AmountCheck(o.special); }
          else if AmountCheck(o.upper).Some? { assert c == AmountCheck(o.upper); }
        }
      }
    }
  }

  /** `generate_password` (src/main.rs:383-393) once `new` has succeeded with `p`:
      assemble, refuse an empty password, replace or insert, fix the case and write.
      The bounds are those of the builder, widened by the insertions in insert mode. */
  method WriteFrom(o: Options, text: seq<Bytes>, p: Builder.Password, d: Builder.Dice, result: Bytes)
    returns (w: Written, pass: Bytes, out: Bytes, ghost exhausted: bool)
    requires p.Valid() && p.Stocked() && p.password == [] && p.resetCount == 0
    requires |text| >= 2 && Builder.WordsOk(text) && d.start < |text| - 1
    modifies p
    ensures w == Wrote || w == Refused(EmptyPassword) || w == Sampling
    ensures w == Refused(EmptyPassword) <==> old(p.maxLen) == 0
    ensures !o.replace && old(p.maxLen) > 0 ==> w == Wrote
    ensures w == Sampling ==> o.replace
    ensures w == Wrote ==> out == result + pass + [10]
    ensures w != Wrote ==> out == result
    ensures w == Wrote ==>
              && IsAscii(pass)
              && var extra := if o.replace then 0 else old(p.totalInserts);
              && |pass| <= old(p.maxLen) + extra
              && (!exhausted ==> old(p.minLen) + extra <= |pass|)
              && (Builder.MaxWordLen(text) <= old(p.maxLen) - old(p.minLen) + 1 ==>
                    old(p.minLen) + extra <= |pass|)
  {
    out := result;
    pass := [];
    exhausted := false;
    var err, runFrom, runCount, skipped := GetPassString(o, text, p, d.start, d.coin);
    if err.Some? {
      return Refused(err.value), pass, out, exhausted;
    }
    exhausted := p.resetCount >= o.maxResets;
    if o.replace {
      var finished, positions := p.ReplaceChars(d.samples);
      if !finished {
        return Sampling, pass, out, exhausted;
      }
    } else {
      InsertChars(p, d.spots);
    }
    ghost var mid := p.EnsureCase(o.dontUpper, o.dontLower, d.raise, d.drop);
    pass := p.password;
    out := result + pass + [10];
    w := Wrote;
  }
}
