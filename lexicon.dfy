/**
  src/lexicon.rs: `Lexicon`, a word list filled from text. The text is split
  into pieces by one of four `Split` modes, each piece keeps the characters a
  filter accepts (`String::retain`), empty results are dropped, and the rest
  are appended; the list may then be shuffled. Text is a sequence of Unicode
  scalar values here, since every step works character by character.
  The Unicode data (`char::is_whitespace`, `is_control`, `is_numeric`), the
  UAX#29 segmenters of `unicode_segmentation` and `deunicode` are supplied as
  `Tables`; `TablesFit` states what this model relies on about them.
 */
module Lexicon {
  import Runs
  import Shuffle

  /** The way to split the text into words (src/lexicon.rs:131-238). */
  datatype Split = UnicodeWords | WordBounds | UnicodeWhitespace | AsciiWhitespace

  /** Some reasonable character filtering options (src/lexicon.rs:242-253). */
  datatype CharFilter =
    | Ascii
    | AsciiWithoutPunctuation
    | AsciiWithoutDigits
    | AsciiWithoutDigitsOrPunctuation
    | Unicode
    | UnicodeWithoutAsciiDigits
    | UnicodeWithoutNumbers
    | UnicodeWithoutAsciiPunctuation
    | UnicodeWithoutAsciiDigitsOrAsciiPunctuation
    | UnicodeWithoutNumbersOrAsciiPunctuation

  /** The foreign Unicode functions the lexicon calls. */
  datatype Tables = Tables(
    isWhitespace: char -> bool,           // char::is_whitespace (White_Space)
    isControl: char -> bool,              // char::is_control (Cc)
    isNumeric: char -> bool,              // char::is_numeric (Nd, Nl, No)
    unicodeWords: string -> seq<string>,  // str::unicode_words
    wordBounds: string -> seq<string>,    // str::split_word_bounds
    deunicode: string -> string)          // deunicode::deunicode

  // The ASCII classes of the standard library's `char::is_ascii_*`.
  predicate IsAsciiChar(c: char) { c as int < 128 }
  predicate IsAsciiDigit(c: char) { '0' <= c <= '9' }
  predicate IsAsciiLetter(c: char) { 'A' <= c <= 'Z' || 'a' <= c <= 'z' }
  /** Space, tab, line feed, form feed and carriage return; not the vertical tab. */
  predicate IsAsciiWhitespace(c: char) { c == ' ' || c == '\t' || c == '\n' || c as int == 12 || c == '\r' }
  predicate IsAsciiControl(c: char) { c as int < 32 || c as int == 127 }
  predicate IsAsciiPunctuation(c: char) {
    ('!' <= c <= '/') || (':' <= c <= '@') || ('[' <= c <= '`') || ('{' <= c <= '~')
  }

  /** What the model relies on about the foreign functions: on ASCII characters
      the Unicode properties are the ASCII ones (White_Space also holds for the
      vertical tab, Cc for the ASCII controls, and the only ASCII numerics are the
      digits); `split_word_bounds` cuts the text into non-empty pieces that
      concatenate back to it; `unicode_words` yields non-empty pieces. */
  ghost predicate TablesFit(t: Tables) {
    && (forall c: char :: IsAsciiChar(c) ==>
          (t.isWhitespace(c) <==> IsAsciiWhitespace(c) || c as int == 11))
    && (forall c: char :: IsAsciiChar(c) ==> (t.isControl(c) <==> IsAsciiControl(c)))
    && (forall c: char :: IsAsciiChar(c) ==> (t.isNumeric(c) <==> IsAsciiDigit(c)))
    && (forall s: string :: Runs.Flatten(t.wordBounds(s)) == s)
    && (forall s: string, w :: w in t.wordBounds(s) ==> |w| > 0)
    && (forall s: string, w :: w in t.unicodeWords(s) ==> |w| > 0)
  }

  /** `CharFilter::closure` (src/lexicon.rs:260-307): whether the filter keeps `c`.
      On ASCII the four ASCII filters are exactly the printable non-space
      characters, the letters and digits, those without the digits, and the
      letters; they keep no other character. */
  function Keeps(f: CharFilter, t: Tables, c: char): (r: bool)
    ensures f == Ascii ==> (r <==> '!' <= c <= '~')
    ensures f == AsciiWithoutPunctuation ==> (r <==> IsAsciiLetter(c) || IsAsciiDigit(c))
    ensures f == AsciiWithoutDigits ==> (r <==> '!' <= c <= '~' && !IsAsciiDigit(c))
    ensures f == AsciiWithoutDigitsOrPunctuation ==> (r <==> IsAsciiLetter(c))
  {
    match f
    case Ascii =>
      IsAsciiChar(c) && !IsAsciiWhitespace(c) && !IsAsciiControl(c)
    case AsciiWithoutPunctuation =>
      IsAsciiChar(c) && !IsAsciiPunctuation(c) && !IsAsciiWhitespace(c) && !IsAsciiControl(c)
    case AsciiWithoutDigits =>
      IsAsciiChar(c) && !IsAsciiDigit(c) && !IsAsciiWhitespace(c) && !IsAsciiControl(c)
    case AsciiWithoutDigitsOrPunctuation =>
      IsAsciiChar(c) && !IsAsciiDigit(c) && !IsAsciiPunctuation(c)
      && !IsAsciiWhitespace(c) && !IsAsciiControl(c)
    case Unicode =>
      !t.isWhitespace(c) && !t.isControl(c)
    case UnicodeWithoutAsciiDigits =>
      !IsAsciiDigit(c) && !t.isWhitespace(c) && !t.isControl(c)
    case UnicodeWithoutNumbers =>
      !t.isNumeric(c) && !t.isWhitespace(c) && !t.isControl(c)
    case UnicodeWithoutAsciiPunctuation =>
      !IsAsciiPunctuation(c) && !t.isWhitespace(c) && !t.isControl(c)
    case UnicodeWithoutAsciiDigitsOrAsciiPunctuation =>
      !IsAsciiDigit(c) && !IsAsciiPunctuation(c) && !t.isWhitespace(c) && !t.isControl(c)
    case UnicodeWithoutNumbersOrAsciiPunctuation =>
      !t.isNumeric(c) && !IsAsciiPunctuation(c) && !t.isWhitespace(c) && !t.isControl(c)
  }

  /** On ASCII characters each Unicode filter agrees with its ASCII counterpart:
      `Unicode` with `Ascii`, and the variants without numbers or ASCII digits
      with `AsciiWithoutDigits`, and so on. */
  lemma UnicodeFiltersOnAscii(t: Tables, c: char)
    requires TablesFit(t) && IsAsciiChar(c)
    ensures Keeps(Unicode, t, c) == Keeps(Ascii, t, c)
    ensures Keeps(UnicodeWithoutAsciiDigits, t, c) == Keeps(AsciiWithoutDigits, t, c)
    ensures Keeps(UnicodeWithoutNumbers, t, c) == Keeps(AsciiWithoutDigits, t, c)
    ensures Keeps(UnicodeWithoutAsciiPunctuation, t, c) == Keeps(AsciiWithoutPunctuation, t, c)
    ensures Keeps(UnicodeWithoutAsciiDigitsOrAsciiPunctuation, t, c)
            == Keeps(AsciiWithoutDigitsOrPunctuation, t, c)
    ensures Keeps(UnicodeWithoutNumbersOrAsciiPunctuation, t, c)
            == Keeps(AsciiWithoutDigitsOrPunctuation, t, c)
  {
    assert t.isWhitespace(c) <==> IsAsciiWhitespace(c) || c as int == 11;
    assert t.isControl(c) <==> IsAsciiControl(c);
    assert t.isNumeric(c) <==> IsAsciiDigit(c);
  }

  predicate NotAsciiWhitespace(c: char) { !IsAsciiWhitespace(c) }

  /** The pieces of `text` for a split mode (src/lexicon.rs:81-86). The two
      whitespace modes yield the maximal runs of non-whitespace characters
      (`split_whitespace`, `split_ascii_whitespace`). */
  function Pieces(split: Split, t: Tables, text: string): seq<string> {
    match split
    case UnicodeWords => t.unicodeWords(text)
    case WordBounds => t.wordBounds(text)
    case UnicodeWhitespace => Runs.Runs(text, (c: char) => !t.isWhitespace(c))
    case AsciiWhitespace => Runs.Runs(text, NotAsciiWhitespace)
  }

  /** `AsciiWhitespace` pieces are non-empty and hold no ASCII whitespace. */
  lemma AsciiWhitespacePieces(t: Tables, text: string)
    ensures forall w :: w in Pieces(AsciiWhitespace, t, text) ==>
              |w| > 0 && forall k :: 0 <= k < |w| ==> !IsAsciiWhitespace(w[k])
  {
    Runs.RunsAreWords(text, NotAsciiWhitespace);
  }

  /** Splitting on ASCII whitespace loses only the whitespace: the pieces, joined,
      are the text's other characters in order. */
  lemma AsciiWhitespaceKeepsText(t: Tables, text: string)
    ensures Runs.Flatten(Pieces(AsciiWhitespace, t, text)) == Runs.Filter(text, NotAsciiWhitespace)
  {
    Runs.RunsKeepClassElements(text, NotAsciiWhitespace);
  }

  /** A thin space (U+2009) is not ASCII whitespace: "x   y" splits around the
      two spaces only, keeping the thin space as a piece of its own, as in the
      example of src/lexicon.rs:229-235. */
  lemma ThinSpaceStaysInPiece(t: Tables)
    ensures Pieces(AsciiWhitespace, t, "x \U{2009} y") == ["x", "\U{2009}", "y"]
  {
    var thin := "\U{2009}";
    Runs.RunsOfBlock("x", NotAsciiWhitespace);
    Runs.RunsOfBlock(thin, NotAsciiWhitespace);
    Runs.RunsOfBlock("y", NotAsciiWhitespace);
    Runs.RunsSplit(thin, ' ', "y", NotAsciiWhitespace);
    assert "x \U{2009} y" == "x" + [' '] + (thin + [' '] + "y");
    Runs.RunsSplit("x", ' ', thin + [' '] + "y", NotAsciiWhitespace);
  }

  /** The words made from `pieces`: each piece keeps the characters `keep` accepts,
      in order, and the empty results are dropped (src/lexicon.rs:88-96). */
  function Kept(pieces: seq<string>, keep: char -> bool): (r: seq<string>)
    ensures forall w :: w in r ==> |w| > 0 && Runs.AllIn(w, keep)
    ensures |r| <= |pieces|
  {
    if pieces == [] then []
    else
      var w := Runs.Filter(pieces[|pieces| - 1], keep);
      Kept(pieces[..|pieces| - 1], keep) + (if w == [] then [] else [w])
  }

  /** The words, put back together, are exactly the kept characters of the pieces
      put back together, in order. */
  lemma {:induction false} KeptFlatten(pieces: seq<string>, keep: char -> bool)
    ensures Runs.Flatten(Kept(pieces, keep)) == Runs.Filter(Runs.Flatten(pieces), keep)
  {
    if pieces != [] {
      var p, x := pieces[..|pieces| - 1], pieces[|pieces| - 1];
      var w := Runs.Filter(x, keep);
      var tail: seq<string> := if w == [] then [] else [w];
      KeptFlatten(p, keep);
      Runs.FlattenAppend(Kept(p, keep), tail);
      assert Runs.Flatten(tail) == w by {
        if w != [] { assert tail[..0] == []; }
      }
      Runs.FilterAppend(Runs.Flatten(p), x, keep);
    }
  }

  /** With `WordBounds` and a filter that keeps everything, the words concatenate
      back to the text. */
  lemma WordBoundsRoundTrip(t: Tables, text: string)
    requires TablesFit(t)
    ensures Runs.Flatten(Kept(Pieces(WordBounds, t, text), (c: char) => true)) == text
  {
    KeptFlatten(t.wordBounds(text), (c: char) => true);
    Runs.FilterAll(text, (c: char) => true);
  }

  /** With `WordBounds` and any filter, the words hold exactly the kept characters
      of the text, in order. */
  lemma WordBoundsKeepsFiltered(t: Tables, text: string, keep: char -> bool)
    requires TablesFit(t)
    ensures Runs.Flatten(Kept(Pieces(WordBounds, t, text), keep)) == Runs.Filter(text, keep)
  {
    KeptFlatten(t.wordBounds(text), keep);
  }

  /** One more piece adds its filtered word, unless that is empty. */
  lemma KeptStep(pieces: seq<string>, i: nat, keep: char -> bool)
    requires i < |pieces|
    ensures var w := Runs.Filter(pieces[i], keep);
            Kept(pieces[..i + 1], keep) == Kept(pieces[..i], keep) + (if w == [] then [] else [w])
  {
    assert pieces[..i + 1][..i] == pieces[..i];
  }

  /** The loop of `extract_words` (src/lexicon.rs:88-96): every piece is filtered
      and the non-empty results are pushed in order. */
  method PushKept(words: seq<string>, pieces: seq<string>, keep: char -> bool)
    returns (r: seq<string>)
    ensures r == words + Kept(pieces, keep)
  {
    r := words;
    var i := 0;
    while i < |pieces|
      invariant i <= |pieces|
      invariant r == words + Kept(pieces[..i], keep)
    {
      var word := Runs.Filter(pieces[i], keep);
      KeptStep(pieces, i, keep);
      if word != [] {
        Runs.ConcatAssoc(words, Kept(pieces[..i], keep), [word]);
        r := r + [word];
      } else {
        assert Kept(pieces[..i + 1], keep) == Kept(pieces[..i], keep) + [];
      }
      i := i + 1;
    }
    assert pieces[..i] == pieces;
  }

  class Lexicon {
    var split: Split
    var deunicode: bool
    var randomise: bool
    var words: seq<string>

    /** `Lexicon::new` (src/lexicon.rs:51-56): the split mode, both flags off, no words. */
    constructor New(split: Split)
      ensures this.split == split && !deunicode && !randomise && words == []
    {
      this.split := split;
      deunicode := false;
      randomise := false;
      words := [];
    }

    /** The text the pieces are cut from (src/lexicon.rs:73-79). */
    function Source(t: Tables, text: string): string
      reads this
    {
      if deunicode then t.deunicode(text) else text
    }

    /** `extract_words` (src/lexicon.rs:65-101) with a filter that depends on the
        character alone: empty text changes nothing; otherwise the kept pieces are
        appended after the existing words in split order and, with `randomise`, the
        whole list is shuffled. No empty word is ever added. */
    method ExtractWords(text: string, keep: char -> bool, t: Tables, order: nat -> nat)
      modifies this`words
      ensures text == [] ==> words == old(words)
      ensures text != [] && !randomise ==>
                words == old(words) + Kept(Pieces(split, t, Source(t, text)), keep)
      ensures text != [] && randomise ==>
                words == Shuffle.Shuffled(old(words) + Kept(Pieces(split, t, Source(t, text)), keep), order)
      ensures multiset(words) ==
                multiset(old(words) + if text == [] then [] else Kept(Pieces(split, t, Source(t, text)), keep))
      ensures (forall w :: w in old(words) ==> |w| > 0) ==> forall w :: w in words ==> |w| > 0
    {
      if text == [] {
        return;
      }
      var source := if deunicode then t.deunicode(text) else text;
      var pieces := Pieces(split, t, source);
      words := PushKept(words, pieces, keep);
      if randomise {
        Randomise(order);
      }
    }

    /** `randomise` (src/lexicon.rs:104-106): a reordering of the same words. */
    method Randomise(order: nat -> nat)
      modifies this`words
      ensures words == Shuffle.Shuffled(old(words), order)
      ensures multiset(words) == multiset(old(words))
      ensures (forall w :: w in old(words) ==> |w| > 0) ==> forall w :: w in words ==> |w| > 0
    {
      words := Shuffle.Shuffled(words, order);
      forall w | w in words ensures w in old(words) {
        assert w in multiset(words);
      }
    }

    /** `clear_words` (src/lexicon.rs:114-116). */
    method ClearWords()
      modifies this`words
      ensures words == []
    {
      words := [];
    }

    /** `remove_word_at` (src/lexicon.rs:123-125): `Vec::remove` panics out of bounds;
        otherwise exactly that entry goes and the others keep their order. */
    method RemoveWordAt(index: nat)
      requires index < |words|
      modifies this`words
      ensures words == old(words)[..index] + old(words)[index + 1..]
      ensures |words| == |old(words)| - 1
    {
      words := words[..index] + words[index + 1..];
    }
  }
}
