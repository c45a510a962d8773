/**
  src/settings.rs: `PasswordSettings`, the library's configuration and word
  store. Words are extracted from text as the matches of `\w+` (or `[^\d\W]+`
  when numbers are not kept) over ASCII text, which are the maximal non-empty
  runs of one byte class; non-ASCII text is transliterated first by `deunicode`,
  which the caller supplies. `generate` builds `pass_amount` passwords with the
  builder.
 */
module Settings {
  import opened Ascii
  import opened Helpers
  import Runs
  import Shuffle
  import Builder

  /** `\w` on ASCII text: letters, digits and '_'. */
  predicate IsWordByte(b: byte) { IsLetter(b) || IsDigit(b) || b == 95 }

  /** `[^\d\W]` on ASCII text: letters and '_'. */
  predicate IsLetterOrUnderscore(b: byte) { IsLetter(b) || b == 95 }

  /** The class of bytes a word is made of. */
  function WordClass(keepNumbers: bool): byte -> bool {
    if keepNumbers then IsWordByte else IsLetterOrUnderscore
  }

  /** The text the expression runs over: the input when it is ASCII, its
      transliteration otherwise (src/settings.rs:273-280). */
  function AsciiText(text: Bytes, deunicode: Bytes -> Bytes): Bytes {
    if IsAscii(text) then text else deunicode(text)
  }

  /** The words `captures_iter` yields, in textual order (src/settings.rs:282-292). */
  function Extracted(text: Bytes, keepNumbers: bool, deunicode: Bytes -> Bytes): seq<Bytes> {
    Runs.Runs(AsciiText(text, deunicode), WordClass(keepNumbers))
  }

  /** Every extracted word is a non-empty ASCII word of the class, and the words
      put back together are exactly the class bytes of the text, in order: no
      byte of the class is lost and none outside it is taken. */
  lemma ExtractedSpec(text: Bytes, keepNumbers: bool, deunicode: Bytes -> Bytes)
    ensures forall w :: w in Extracted(text, keepNumbers, deunicode) ==>
              |w| > 0 && IsAscii(w) && Runs.AllIn(w, WordClass(keepNumbers))
    ensures Runs.Flatten(Extracted(text, keepNumbers, deunicode))
            == Runs.Filter(AsciiText(text, deunicode), WordClass(keepNumbers))
  {
    var c := WordClass(keepNumbers);
    var ws := Runs.Runs(AsciiText(text, deunicode), c);
    Runs.RunsAreWords(AsciiText(text, deunicode), c);
    Runs.RunsKeepClassElements(AsciiText(text, deunicode), c);
    forall w | w in ws ensures IsAscii(w) {
      ClassIsAscii(w, keepNumbers);
    }
  }

  /** Class bytes are ASCII. */
  lemma ClassIsAscii(w: Bytes, keepNumbers: bool)
    requires Runs.AllIn(w, WordClass(keepNumbers))
    ensures IsAscii(w)
  {
    if keepNumbers {
      assert forall i :: 0 <= i < |w| ==> IsWordByte(w[i]);
    } else {
      assert forall i :: 0 <= i < |w| ==> IsLetterOrUnderscore(w[i]);
    }
  }

  /** Words are maximal: a byte outside the class in ASCII text ends a word, and
      the words on either side of it are extracted independently. */
  lemma ExtractedSplit(a: Bytes, sep: byte, b: Bytes, keepNumbers: bool, deunicode: Bytes -> Bytes)
    requires IsAscii(a + [sep] + b) && !WordClass(keepNumbers)(sep)
    ensures Extracted(a + [sep] + b, keepNumbers, deunicode)
            == Extracted(a, keepNumbers, deunicode) + Extracted(b, keepNumbers, deunicode)
  {
    assert forall i :: 0 <= i < |a| ==> a[i] == (a + [sep] + b)[i];
    assert forall i :: 0 <= i < |b| ==> b[i] == (a + [sep] + b)[|a| + 1 + i];
    Runs.RunsSplit(a, sep, b, WordClass(keepNumbers));
  }

  /** An ASCII block of class bytes is extracted as one word. */
  lemma ExtractedBlock(w: Bytes, keepNumbers: bool, deunicode: Bytes -> Bytes)
    requires |w| > 0 && Runs.AllIn(w, WordClass(keepNumbers))
    ensures Extracted(w, keepNumbers, deunicode) == [w]
  {
    ClassIsAscii(w, keepNumbers);
    Runs.RunsOfBlock(w, WordClass(keepNumbers));
  }

  /** Reordering keeps every word a non-empty ASCII word. */
  lemma WordsOkPermuted(s: seq<Bytes>, r: seq<Bytes>)
    requires Builder.WordsOk(s) && multiset(r) == multiset(s)
    ensures Builder.WordsOk(r)
  {
    forall k | 0 <= k < |r| ensures |r[k]| > 0 && IsAscii(r[k])
    {
      assert r[k] in multiset(r);
      assert r[k] in multiset(s);
      var j :| 0 <= j < |s| && s[j] == r[k];
    }
  }

  /** The push loop of the extraction (src/settings.rs:288-292): each found word
      goes to the end of the list, in order. */
  method PushAll(words: seq<Bytes>, found: seq<Bytes>) returns (r: seq<Bytes>)
    requires Builder.WordsOk(words) && forall w :: w in found ==> |w| > 0 && IsAscii(w)
    ensures r == words + found && Builder.WordsOk(r)
  {
    r := words;
    var i := 0;
    while i < |found|
      invariant i <= |found|
      invariant r == words + found[..i]
      invariant Builder.WordsOk(r)
    {
      r := r + [found[i]];
      i := i + 1;
    }
    assert found[..i] == found;
  }

  /** A string literal of ASCII characters as its bytes. */
  function AsciiBytes(s: string): (r: Bytes)
    requires forall i :: 0 <= i < |s| ==> s[i] < 128 as char
    ensures |r| == |s| && IsAscii(r)
    ensures forall i :: 0 <= i < |s| ==> r[i] as int == s[i] as int
  {
    if s == [] then [] else AsciiBytes(s[..|s| - 1]) + [s[|s| - 1] as int as byte]
  }

  const DefaultSpecialChars: string := "^!(-_=)$<[@.#]>%{~,+}&*"

  datatype SetSpecialCharsError = NonAsciiSpecialChars

  datatype Stored = Stored | Refused(error: SetSpecialCharsError)

  /** The outcome of `generate`: the guard's error, the passwords, or, in replace
      mode, the passwords completed before one whose rejection loop is still
      sampling positions. */
  datatype Generation =
    | NotEnoughWords
    | Passwords(passes: seq<Bytes>)
    | Sampling(passes: seq<Bytes>)

  class PasswordSettings {
    var capitalise: bool
    var replace: bool
    var randomise: bool
    var passAmount: nat
    var resetAmount: nat
    var length: RangeInc
    var numberAmount: RangeInc
    var specialCharsAmount: RangeInc
    var specialChars: Bytes
    var upperAmount: RangeInc
    var lowerAmount: RangeInc
    var keepNumbers: bool
    var forceUpper: bool
    var forceLower: bool
    var dontUpper: bool
    var dontLower: bool
    var words: seq<Bytes>

    /** The special characters are ASCII (only `set_special_chars` writes them)
        and every word is a non-empty ASCII word (only extraction adds them). */
    ghost predicate Valid()
      reads this
    {
      IsAscii(specialChars) && Builder.WordsOk(words)
    }

    /** The fields the builder reads. */
    function Snapshot(): (cfg: Builder.Config)
      reads this
    {
      Builder.Config(capitalise, replace, resetAmount, length, numberAmount,
                     specialCharsAmount, specialChars, upperAmount, lowerAmount,
                     forceUpper, forceLower, dontUpper, dontLower, words)
    }

    /** `Default::default` (src/settings.rs:154-177): the recommended settings, with
        every range drawable and no words. */
    constructor Default()
      ensures Valid() && words == []
      ensures Builder.Drawable(Snapshot()) && length.end >= 1
      ensures !capitalise && !replace && !randomise && passAmount == 1 && resetAmount == 10
      ensures length == RangeInc(24, 30)
      ensures numberAmount == RangeInc(1, 2) && specialCharsAmount == RangeInc(1, 2)
      ensures upperAmount == RangeInc(1, 2) && lowerAmount == RangeInc(1, 2)
      ensures specialChars == AsciiBytes(DefaultSpecialChars) && |specialChars| == 23
      ensures !keepNumbers && !forceUpper && !forceLower && !dontUpper && !dontLower
    {
      capitalise, replace, randomise := false, false, false;
      passAmount, resetAmount := 1, 10;
      length := RangeInc(24, 30);
      numberAmount, specialCharsAmount := RangeInc(1, 2), RangeInc(1, 2);
      specialChars := AsciiBytes(DefaultSpecialChars);
      upperAmount, lowerAmount := RangeInc(1, 2), RangeInc(1, 2);
      keepNumbers := false;
      forceUpper, forceLower, dontUpper, dontLower := false, false, false, false;
      words := [];
    }

    /** `set_special_chars` (src/settings.rs:190-195): stores exactly the input when
        it is ASCII and refuses it, changing nothing, otherwise. */
    method SetSpecialChars(chars: Bytes) returns (r: Stored)
      requires Valid()
      modifies this`specialChars
      ensures Valid()
      ensures r == Stored <==> IsAscii(chars)
      ensures r == Stored ==> specialChars == chars
      ensures r != Stored ==> r == Refused(NonAsciiSpecialChars) && specialChars == old(specialChars)
    {
      if !IsAscii(chars) {
        return Refused(NonAsciiSpecialChars);
      }
      specialChars := chars;
      r := Stored;
    }

    /** `get_words_from_str` (src/settings.rs:268-297): empty text changes nothing;
        otherwise the extracted words are pushed after the existing ones in textual
        order and, with `randomise`, the whole list is then shuffled, old words
        included. */
    method GetWordsFromStr(text: Bytes, deunicode: Bytes -> Bytes, order: nat -> nat)
      requires Valid()
      requires forall t :: IsAscii(deunicode(t))
      modifies this`words
      ensures Valid()
      ensures text == [] ==> words == old(words)
      ensures text != [] && !randomise ==>
                words == old(words) + Extracted(text, keepNumbers, deunicode)
      ensures text != [] && randomise ==>
                words == Shuffle.Shuffled(old(words) + Extracted(text, keepNumbers, deunicode), order)
      ensures multiset(words) == multiset(old(words) + if text == [] then [] else Extracted(text, keepNumbers, deunicode))
    {
      if text == [] {
        return;
      }
      var ascii := if IsAscii(text) then text else deunicode(text);
      var found := Runs.Runs(ascii, WordClass(keepNumbers));
      ExtractedSpec(text, keepNumbers, deunicode);
      words := PushAll(words, found);
      if randomise {
        WordsOkPermuted(words, Shuffle.Shuffled(words, order));
        words := Shuffle.Shuffled(words, order);
      }
    }

    /** `clear_words` (src/settings.rs:305-307). */
    method ClearWords()
      modifies this`words
      ensures words == []
    {
      words := [];
    }

    /** `remove_word_at` (src/settings.rs:314-316): `Vec::remove` panics out of
        bounds; otherwise exactly that entry goes and the others keep their order. */
    method RemoveWordAt(index: nat)
      requires Valid() && index < |words|
      modifies this`words
      ensures Valid()
      ensures words == old(words)[..index] + old(words)[index + 1..]
      ensures |words| == |old(words)| - 1
    {
      words := words[..index] + words[index + 1..];
    }

    /** `generate` (src/settings.rs:319-332): fails with `NotEnoughWords` exactly when
        there are fewer than two words; otherwise builds `pass_amount` passwords, the
        k-th from `dice[k]`, with `Password::new` followed by `generate` (the source
        names a `Password::init` that does not exist). Changes nothing. Each password
        is ASCII and no longer than the configured maximum and, unless its resets
        ran out, no shorter than the configured minimum; insert mode always
        finishes. When no word is longer than the width of a drawn window plus
        one, every finished password reaches the configured minimum, whether or not its
        resets ran out. */
    method Generate(dice: seq<Builder.Dice>) returns (g: Generation, ghost spent: seq<bool>)
      requires Valid()
      requires |words| >= 2 && passAmount > 0 ==> Builder.Drawable(Snapshot()) && length.end >= 1
      requires |words| >= 2 ==> |dice| >= passAmount
      requires |words| >= 2 ==> forall k :: 0 <= k < passAmount ==> Builder.DiceFit(Snapshot(), dice[k])
      ensures g == NotEnoughWords <==> |words| < 2
      ensures g.Passwords? ==> |g.passes| == passAmount
      ensures g.Sampling? ==> replace && |g.passes| < passAmount
      ensures !replace && |words| >= 2 ==> g.Passwords?
      ensures !g.NotEnoughWords? ==>
                |spent| == |g.passes|
                && forall k :: 0 <= k < |g.passes| ==>
                     IsAscii(g.passes[k]) && |g.passes[k]| <= length.end
                     && (!spent[k] ==> length.start <= |g.passes[k]|)
      ensures !g.NotEnoughWords? && length.start <= length.end
              && Builder.MaxWordLen(words) <= Builder.Min(length.end - length.start, 50) + 1 ==>
                forall k :: 0 <= k < |g.passes| ==> length.start <= |g.passes[k]|
    {
      spent := [];
      if |words| < 2 {
        return NotEnoughWords, spent;
      }
      var cfg := Snapshot();
      var passes: seq<Bytes> := [];
      var k := 0;
      while k < passAmount
        invariant k <= passAmount && |passes| == k && |spent| == k
        invariant forall j :: 0 <= j < k ==>
                    IsAscii(passes[j]) && |passes[j]| <= length.end
                    && (!spent[j] ==> length.start <= |passes[j]|)
        invariant length.start <= length.end
                  && Builder.MaxWordLen(words) <= Builder.Min(length.end - length.start, 50) + 1 ==>
                    forall j :: 0 <= j < k ==> length.start <= |passes[j]|
      {
        var done, pass, exhausted := Builder.Build(cfg, dice[k]);
        if !done {
          return Sampling(passes), spent;
        }
        passes, spent := passes + [pass], spent + [exhausted];
        k := k + 1;
      }
      g := Passwords(passes);
    }
  }
}
