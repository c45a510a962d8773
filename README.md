# genrepass in Dafny

genrepass makes a "readable" password out of the words of a text:

1. It extracts a word list from the text.
2. It walks the list cyclically from a random start until the joined words fit a length window.
3. It inserts random digits and special characters, or overwrites characters with them.
4. It adjusts how many letters are upper and lower case.

This project models that library and the older standalone command line program that carries its own copy of the builder. It proves the promises each step makes, for every outcome of the random choices.

The model has one module per part of the program:

| module | file | models |
|---|---|---|
| `Ascii` | ascii.dfy | bytes, ASCII letter classes and case changes, case counts and case index lists |
| `Runs` | runs.dfy | maximal runs of a character class: the word extraction that the regular expressions `\w+` and `[^\d\W]+` perform, and the whitespace splits |
| `Shuffle` | shuffle.dfy | the Fisher–Yates `shuffle` of the `rand` crate, driven by a caller-supplied choice of swaps |
| `Helpers` | helpers.dfy | `range_inc_from_str`, `capitalise` and `decapitalise` (src/helpers.rs) |
| `Builder` | password.dfy | the `Password` builder of src/password.rs: the draw of the knobs, word assembly, insertion, replacement and the two case passes |
| `Settings` | settings.dfy | `PasswordSettings` (src/settings.rs): defaults, the special-character setter, word extraction, clearing, removal, and generation of a batch |
| `Lexicon` | lexicon.dfy | `Lexicon` and `CharFilter` (src/lexicon.rs) |
| `Cli` | cli.dfy | src/main.rs: `process_range`, the stricter `Password::new`, `Args::configure`, `get_pass_string`, `insert_chars` and `generate_password` |

Modelling choices:

- **Strings.** Rust strings handled by the builder, the settings and the command line are UTF-8 byte sequences (`Ascii.Bytes`). Lengths and indices are therefore byte counts, as in Rust. The range parser and the `Lexicon` work on `string`, that is, on Unicode scalar values.
- **Randomness.** Every random draw is a parameter. `Builder.Dice` collects:
  - the window start, the amounts, the digit and symbol samples, the start word;
  - the `gen_bool(0.8)` coin;
  - the insertion spots, the replacement samples and the case picks.

  The `requires` clauses restrict each draw to the range the source draws from, and every property holds for every such draw.
- **Foreign code.** `deunicode`, the Unicode `is_whitespace`/`is_control`/`is_numeric` tables and the `unicode_segmentation` splitters are function parameters. Their documented guarantees are stated as preconditions:
  - `deunicode` returns ASCII;
  - the tables agree with ASCII on ASCII characters;
  - word-bound pieces are non-empty and concatenate back to the text.
- **Classes.** The mutable structs `Password`, `PasswordSettings`, `Lexicon` and `Args` are classes whose methods update fields in place. Each loop of the source is a method with its invariants, proved against a specification function (`Assembled`, `Inserted`, `Picked`, `Recased`, `Extracted`, `Kept`, `Shuffled`).
- **Panics.** A panic of the source is one of two things:
  - an explicit outcome (`Helpers.ParseOutcome.Panicked`, `Cli.Prepared.Panics`, `Cli.Written.Aborted`);
  - or a precondition listed under "Left out". The library's callers must avoid these cases, either because the library itself refuses them earlier or because its public fields let a caller set them.

Where the source snapshot is inconsistent, the model follows the code that exists:

- src/settings.rs:328 calls `Password::init`, which src/password.rs does not define. `Builder.Build` uses `Password::new` (src/password.rs:36-99), the only constructor shown.
- src/helpers.rs:1 imports a `RangeError` that src/settings.rs does not define. `Helpers.RangeError` is a local error type carrying the three messages.
- src/lexicon.rs is not declared in src/lib.rs. It is modelled as written.

## Model

| member | source | states |
|---|---|---|
| Ascii.ToUpper | src/helpers.rs:70 | `make_ascii_uppercase`: a lowercase letter becomes the uppercase letter 32 below it; every other byte is unchanged |
| Ascii.ToLower | src/helpers.rs:76 | `make_ascii_lowercase`: an uppercase letter becomes the lowercase letter 32 above it; every other byte is unchanged |
| Ascii.CaseIndicesSpec | src/password.rs:197-209 | the index list built by `char_indices().filter(..)` has as many entries as the case count, no duplicates, and holds exactly the indices of letters of that case |
| Ascii.CountCaseAppend | src/password.rs:197-200 | the count of letters of one case is additive over concatenation |
| Runs.RunsAreWords | src/settings.rs:288-292 | every captured run is non-empty and lies wholly in the character class |
| Runs.RunsKeepClassElements | src/settings.rs:288-292 | the runs, joined, are exactly the text's class characters in order: nothing of the class is lost and nothing outside it is kept |
| Runs.RunsSplit | src/settings.rs:288-292 | a separator outside the class splits the runs: the runs of `a + [sep] + b` are the runs of `a` followed by those of `b` |
| Runs.RunsOfBlock | src/settings.rs:288-292 | a non-empty block of class characters is captured as one word |
| Shuffle.Shuffled | src/settings.rs:294-296 | the shuffled list has the same length and the same multiset of entries as the original |
| Shuffle.ShuffleLast | src/lexicon.rs:104-106 | the last slot receives the entry that the last swap picks, as in Fisher–Yates |
| Shuffle.EveryPermutation | src/lexicon.rs:104-106 | every rearrangement of the list with the same entries is the result of some sequence of draws |
| Helpers.RangeIncFromStr | src/helpers.rs:10-48 | every parsed range has start ≤ end |
| Helpers.NormaliseSpec | src/helpers.rs:14-16 | after trimming and collapsing, no dash leads, trails or is doubled, and the dash-separated segments are those of the input |
| Helpers.NormalIsFixed | src/helpers.rs:14-16 | an already normal string is left unchanged by trimming and collapsing |
| Helpers.RangeIgnoresExtraDashes | src/helpers.rs:14-16 | leading, trailing and repeated dashes never change the outcome of the parse |
| Helpers.TrimStartSegments | src/helpers.rs:14 | trimming leading dashes keeps the segments |
| Helpers.TrimEndSegments | src/helpers.rs:14 | trimming trailing dashes keeps the segments |
| Helpers.CollapseSegments | src/helpers.rs:15-16 | collapsing runs of dashes keeps the segments |
| Helpers.RangeThreeSides | src/helpers.rs:18-22 | three dash-free sides give "more than two sides", whatever characters they hold, because that check comes first |
| Helpers.RangeRejectsForeignChar | src/helpers.rs:24-28 | a character that is neither numeric nor a dash makes the parse fail with an error, never a range |
| Helpers.RangePair | src/helpers.rs:30-41 | `"a-b"` with sides of ASCII digits that `usize::from_str` reads as a and b (leading zeros allowed, as in "007-9") parses to `a..=b` when a ≤ b and is refused with "right side of range can't be smaller than left side" when b < a |
| Helpers.RangeSingle | src/helpers.rs:42-46 | a numeral of ASCII digits (leading zeros allowed) parses to `n..=n` |
| Helpers.ParseShow | src/helpers.rs:43 | `usize::from_str` reads back the decimal form of n exactly when n fits in a usize |
| Helpers.RangeAllDashesPanics | src/helpers.rs:43 | empty and all-dash input panic in `unwrap()` |
| Helpers.RangeOverflowPanics | src/helpers.rs:43 | a value of `usize::MAX + 1` panics in `unwrap()` instead of being reported |
| Helpers.RangeForeignNumeralPanics | src/helpers.rs:24-43 | a non-ASCII numeral passes the `is_numeric` check and then panics in `unwrap()` |
| Helpers.CaseAt | src/helpers.rs:68-78 | length and every other byte are unchanged; the byte at i is unchanged or is the same letter in the requested case, and on a one-byte char a letter always takes the requested case while any other byte is kept; nothing changes when `i..i+1` is out of bounds or off a char boundary |
| Helpers.CaseAtAscii | src/helpers.rs:68-78 | on ASCII text with i in bounds, exactly the byte at i is case-converted |
| Helpers.Capitalise | src/helpers.rs:68-72 | the array afterwards is `CaseAt(old, i, upper)` |
| Helpers.Decapitalise | src/helpers.rs:74-78 | the array afterwards is `CaseAt(old, i, lower)` |
| Builder.Window | src/password.rs:39-44 | the working window lies inside the configured length range, is exactly 50 wide when the range is wider, and is the range itself otherwise |
| Builder.Reserve | src/password.rs:51-63 | `total_inserts` ≤ num + special and ≤ max; in insert mode it is also ≤ min and the bounds are the window minus it (no underflow); in replace mode the bounds are the window |
| Builder.Digits | src/password.rs:70-73 | one ASCII digit per sample |
| Builder.Symbols | src/password.rs:75-81 | one character of `special_chars` per sample |
| Builder.InsertablesSpec | src/password.rs:65-85 | the insertables are num digits plus special characters from `special_chars`, shuffled: the length is num + special, the multiset is the digits' plus the symbols', and they are ASCII when the special characters are |
| Builder.DrawInsertables | src/password.rs:65-85 | the loop builds exactly the insertables |
| Builder.Word | src/password.rs:110-115 | a pushed word keeps its length and everything after its first byte, and stays ASCII |
| Builder.Cycle | src/password.rs:103-106 | the cursor stays inside the word list |
| Builder.Assembled | src/password.rs:103-147 | `count` words read cyclically from `from` are ASCII and at least `count` bytes long |
| Builder.Decide | src/password.rs:120-143 | truncate only with the reset budget spent and either the length above the window or below it with a next word that overshoots the maximum; restart only with budget left; accept only at or above the minimum; push only when the next word fits |
| Builder.PushWord | src/password.rs:109-116 | pushing the word under the cursor extends the buffer to the next cyclic prefix, wraps the cursor to 0 at the end, and bounds the growth |
| Builder.AssembleStep | src/password.rs:108-150 | one step keeps the assembly invariant and either spends a reset or grows the buffer, which is what makes the loop terminate; a reset empties the buffer and restarts the run at the word under the cursor, one past the last word taken, so the run's start has advanced by the words skipped so far |
| Builder.AssembleWords | src/password.rs:101-151 | the loop ends with min ≤ len ≤ max, or with the reset budget spent and the buffer truncated to max; it ends below min only when some word is longer than max − min + 1; the buffer is a prefix of a cyclic run of words; that run starts `skipped` words after the drawn word, where `skipped` is 0 without a reset and at least the number of resets otherwise |
| Builder.Inserted | src/password.rs:186-191 | inserting n popped insertables grows the length by exactly n and keeps ASCII |
| Builder.InsertedKeepsOrder | src/password.rs:186-191 | the original characters stay in the result in order, and the last one stays last |
| Builder.InsertedMultiset | src/password.rs:186-191 | the result holds exactly the original characters plus the n popped insertables |
| Builder.InsertAll | src/password.rs:186-191 | the insertion loop computes `Inserted` and pops n insertables off the stack |
| Builder.InsertStack | src/password.rs:178-192 | an empty buffer first receives one popped insertable and the count drops by one; otherwise all n are inserted |
| Builder.Picked | src/password.rs:159-165 | the rejection loop keeps at most `total_inserts` distinct positions, all inside the password |
| Builder.PickedStaysFull | src/password.rs:159-165 | once enough positions are found, later samples change nothing |
| Builder.PickedNeverFull | src/password.rs:159-165 | when `total_inserts` exceeds the password length the loop never completes, whatever is sampled |
| Builder.PickedCanFinish | src/password.rs:159-165 | when `total_inserts` ≤ the length, some sequence of samples completes the loop |
| Builder.PickPositions | src/password.rs:159-165 | the loop computes `Picked` of the samples |
| Builder.Overwrite | src/password.rs:167-175 | the length is kept, every non-picked position is copied unchanged, each picked position gets the next popped insertable, and exactly one insertable per position is popped |
| Builder.Quota | src/password.rs:211-221 | no letters of the case switch forcing on; having enough switches it off; too few leaves the flag and lowers the target by the count; the target is capped at the letters of the other case |
| Builder.Recase | src/password.rs:224-227 | removing random entries of the index list changes exactly `count` letters of the other case into the requested case and nothing else |
| Builder.CasePass | src/password.rs:197-228 | one pass computes the quota and changes that many letters unless `dont_*` is set; length and non-letters are unchanged |
| Builder.CasePasses | src/password.rs:194-257 | the upper pass runs first; the lower pass recounts from the buffer the upper pass produced |
| Builder.NoNewCapitals | src/password.rs:223-256 | when the upper pass changed nothing, every uppercase letter of the final password was already in the assembled one |
| Builder.Password.New | src/password.rs:36-99 | the fields hold the reservation of the drawn window, the drawn amounts, the `force_*` flags and the drawn insertables; the password is empty |
| Builder.Password.Init | src/password.rs:87-98 | a builder with the given fields and an empty password |
| Builder.Password.GetPassString | src/password.rs:101-151 | the assembled password satisfies the window or was truncated after the reset budget, and is short only when some word is longer than the window's width plus one; it is a prefix of a cyclic run of words, which starts at the drawn word without a reset and, after resets, a number of words later that is at least the number of resets; the other fields are unchanged |
| Builder.Password.InsertLoop | src/password.rs:186-191 | the password becomes `Inserted` of the old one and the insertables lose their top `total_inserts` entries |
| Builder.Password.InsertChars | src/password.rs:178-192 | the length grows by `total_inserts`; an empty password first receives one insertable and `total_inserts` drops by one |
| Builder.Password.ReplaceChars | src/password.rs:153-176 | the positions are `Picked` of the samples; when enough distinct positions are found the password is `Overwritten` there and the stack is popped that often; otherwise nothing changes |
| Builder.Password.EnsureCase | src/password.rs:194-257 | the upper pass then the lower pass, each with its quota and flag update |
| Builder.Password.Generate | src/password.rs:22-34 | the password is taken out, leaving the field empty; insert mode always completes; in replace mode it completes exactly when the samples hold `total_inserts` distinct positions below the length; a completed password is ASCII, at most max (+ inserts) long, and at least min (+ inserts) long unless the reset budget ran out and some word is longer than the window's width plus one |
| Builder.Build | src/settings.rs:328 | `Password::new` then `generate`: a completed password is ASCII and at most the window's end long; it is at least the window's start long whenever no word is longer than the window's width plus one; insert mode always completes, replace mode exactly when the samples hold enough distinct positions |
| Settings.ClassIsAscii | src/settings.rs:282-286 | both word classes contain only ASCII bytes |
| Settings.ExtractedSpec | src/settings.rs:273-292 | every extracted word is a non-empty ASCII run of the class, and together the words are exactly the class characters of the (transliterated) text |
| Settings.ExtractedSplit | src/settings.rs:288-292 | a byte outside the class separates words: extraction of `a + [sep] + b` is that of `a` followed by that of `b` |
| Settings.ExtractedBlock | src/settings.rs:288-292 | a non-empty block of word bytes is extracted as one word |
| Settings.WordsOkPermuted | src/settings.rs:294-296 | shuffling keeps every word non-empty and ASCII |
| Settings.PushAll | src/settings.rs:288-292 | the push loop appends the found words after the existing ones, in order |
| Settings.AsciiBytes | src/settings.rs:166 | an ASCII literal becomes the bytes with the same codes |
| Settings.PasswordSettings.Default | src/settings.rs:156-176 | the documented defaults; the special characters are the 23 ASCII characters of the literal, every range has start ≤ end, and the word list is empty |
| Settings.PasswordSettings.SetSpecialChars | src/settings.rs:190-195 | accepts exactly ASCII input and stores it unchanged; otherwise returns the non-ASCII error and leaves the field as it was |
| Settings.PasswordSettings.GetWordsFromStr | src/settings.rs:268-297 | empty text changes nothing; otherwise the extracted words are appended in text order, and with `randomise` the whole list is shuffled, so the result is a permutation of old ++ new |
| Settings.PasswordSettings.ClearWords | src/settings.rs:305-307 | no words remain |
| Settings.PasswordSettings.RemoveWordAt | src/settings.rs:314-316 | exactly the entry at the index is removed, the others keep their order |
| Settings.PasswordSettings.Generate | src/settings.rs:319-332 | `NotEnoughWords` exactly when there are fewer than 2 words; otherwise `pass_amount` passwords, each ASCII and no longer than the length range; each reaches the range's start whenever no word is longer than the window's width plus one; the words are not modified |
| Lexicon.Keeps | src/lexicon.rs:260-307 | `Ascii` keeps exactly 0x21–0x7E; `AsciiWithoutPunctuation` exactly letters and digits; `AsciiWithoutDigits` exactly 0x21–0x7E minus digits; `AsciiWithoutDigitsOrPunctuation` exactly letters |
| Lexicon.UnicodeFiltersOnAscii | src/lexicon.rs:284-305 | on ASCII characters each Unicode filter agrees with its ASCII counterpart |
| Lexicon.AsciiWhitespacePieces | src/lexicon.rs:85 | `split_ascii_whitespace` pieces are non-empty and hold no ASCII whitespace |
| Lexicon.AsciiWhitespaceKeepsText | src/lexicon.rs:85 | `split_ascii_whitespace` drops only whitespace: the pieces, joined, are the text's other characters in order |
| Lexicon.ThinSpaceStaysInPiece | src/lexicon.rs:229-235 | a U+2009 thin space is not ASCII whitespace and stays in its own piece |
| Lexicon.Kept | src/lexicon.rs:88-96 | every kept word is non-empty and holds only characters the filter accepts; no more words than pieces |
| Lexicon.KeptFlatten | src/lexicon.rs:88-96 | the kept words, joined, are exactly the accepted characters of the joined pieces, in order |
| Lexicon.WordBoundsRoundTrip | src/lexicon.rs:172-187 | with a pass-through filter, `WordBounds` words concatenate back to the text |
| Lexicon.WordBoundsKeepsFiltered | src/lexicon.rs:81-96 | with `WordBounds`, the words joined are the text's accepted characters in order |
| Lexicon.PushKept | src/lexicon.rs:88-96 | the loop appends exactly the kept words after the existing ones |
| Lexicon.Lexicon.New | src/lexicon.rs:51-56 | the given split mode, both flags off and no words |
| Lexicon.Lexicon.ExtractWords | src/lexicon.rs:65-101 | empty text changes nothing; otherwise the kept pieces are appended in split order, shuffled together with the old words when `randomise` is set; no empty word is ever added |
| Lexicon.Lexicon.Randomise | src/lexicon.rs:104-106 | the words are permuted |
| Lexicon.Lexicon.ClearWords | src/lexicon.rs:114-116 | no words remain |
| Lexicon.Lexicon.RemoveWordAt | src/lexicon.rs:123-125 | exactly the entry at the index is removed, the others keep their order |
| Cli.SplitDash | src/main.rs:570 | `split("-")` gives at least one piece, no piece holds a dash, and there are two or more pieces exactly when the input has a dash |
| Cli.SplitJoin | src/main.rs:570 | joining the pieces with dashes gives back the input |
| Cli.JoinSplit | src/main.rs:570 | splitting dash-free pieces joined with dashes gives back the pieces |
| Cli.RangeOfPieces | src/main.rs:569-580 | an accepted range has start ≤ end ≤ usize::MAX |
| Cli.RangeOf | src/main.rs:568-587 | an accepted range has start ≤ end ≤ usize::MAX; a refused one carries a parse, invalid-range or order error |
| Cli.ProcessRange | src/main.rs:568-587 | the out-parameters and the error are those of `RangeOf` |
| Cli.RangeOfSingle | src/main.rs:581-584 | any numeral `usize::from_str` accepts ("7", "007", "+7") gives min = max = its value |
| Cli.RangeOfPair | src/main.rs:569-580 | "a-b", with sides `usize::from_str` accepts (such as "+5-007"), gives a..=b, or the "right side smaller" error when b < a |
| Cli.RangeOfEmptySide | src/main.rs:569-572 | a leading, trailing or doubled dash leaves an empty side and fails to parse |
| Cli.RangeOfThree | src/main.rs:574-576 | three pieces whose first two parse give "invalid range" |
| Cli.AmountCheck | src/main.rs:279-297 | an amount range passes when it parses and its end is below usize::MAX, so `max + 1` does not overflow |
| Cli.Checked | src/main.rs:268-299 | when no range fails or panics, the length range parsed and num + special fits in a usize |
| Cli.PrepareAgreesWithLibrary | src/main.rs:268-311 | an accepted draw reserves exactly what the library's `Password::new` reserves, with num + special ≤ max (≤ min in insert mode), nothing clamped |
| Cli.PrepareRefuses | src/main.rs:299-311 | "special character amount exceeds password length" exactly when num + special > max; "length lower than insertables" exactly when it fits max but not min in insert mode; otherwise the draw is accepted |
| Cli.NewPassword | src/main.rs:268-362 | the result is `Prepare`, and on success a fresh builder holds the knobs and the drawn insertables |
| Cli.Args.constructor | src/main.rs:195-196 | the options as parsed and no words yet |
| Cli.ExtractWords | src/main.rs:213-244 | "no text provided" exactly on empty text, "single word" exactly when one word is extracted; otherwise a permutation of the extracted words, none empty; zero words is accepted |
| Cli.Args.Configure | src/main.rs:200-248 | the word list is replaced by the extraction on success and left unchanged on error |
| Cli.GetPassString | src/main.rs:398-453 | the assembled password is a prefix of a cyclic run of words; without a reset the run starts at the drawn start word, which is never the last one; after resets it starts a number of words later that is at least the number of resets; the password fits the window or was truncated, and is short only when some word is longer than the window's width plus one; "empty password" exactly when it is empty, which happens exactly when max is 0 |
| Cli.InsertChars | src/main.rs:480-489 | the length grows by exactly `total_inserts`, the password becomes `Inserted`, with no empty-buffer step |
| Cli.PrepareNeverEmpty | src/main.rs:268-362 | `Password::new` never fails with "empty password" |
| Cli.WriteFrom | src/main.rs:383-393 | after a successful `new`: "empty password" exactly when the maximum is 0, otherwise insert mode always writes; a written password is ASCII and within the builder's bounds, widened by the insertions, whenever no word is longer than the window's width plus one |
| Cli.GeneratePassword | src/main.rs:380-396 | a written password is appended followed by a newline, is ASCII, at most the window's end long, and at least its start long whenever no word is longer than the window's width plus one; refusals carry the error of `Password::new`, or "empty password" exactly when `new` succeeds with a maximum of 0; insert mode writes whenever `new` succeeds with a larger maximum; panics of the range draws abort |

## Left out

- Filesystem reading is not modelled: `get_text_from_dir` (src/helpers.rs:50-66, src/main.rs:365-378), the metadata and reading part of `get_words_from_path` (src/settings.rs:221-231), and the file reading in `Args::configure`. `Cli.Args.Configure` takes the text that was read as a parameter.
- `get_words_from_path` after reading is the same extraction as `get_words_from_str`; it is covered by `Settings.PasswordSettings.GetWordsFromStr`.
- `deunicode`, the `regex` engine, `unicode_segmentation` and the Unicode character tables are foreign crates. They are parameters with their documented contracts, and the two regular expressions are modelled directly as ASCII byte classes.
- The random generator is not modelled. Its draws are parameters (see `Builder.Dice`), and no probabilities are stated.
- `RwLock` and `generate_parallel` (src/settings.rs:336-368) are concurrency. The lock is modelled as a plain field.
- Argument parsing, the clipboard and stdout of src/main.rs:16-197, the `serde` attributes, the GUI examples, the benchmarks, build.rs, src/lib.rs and src/bin/main.rs are outside the model.
- The getters `get_special_chars`, `get_words` and `Lexicon::words` only read a field; the fields are public in the model.
- `Lexicon.Lexicon.ExtractWords`: the `FnMut` filter is modelled as a pure `char -> bool`, so a filter that keeps state between calls is not captured.
- `Helpers.RangeIncFromStr`: `usize` is taken to be 64 bits wide.
- `Builder.Password.New` and `Builder.Build`: they require non-empty, ASCII special characters, because `Uniform::new(0, 0)` panics (src/password.rs:68).
- `Builder.Password.New`, `Builder.Build` and `Settings.PasswordSettings.Generate`: they require every range of the settings to be ordered (start ≤ end). The library does not check this, and the fields are public. A reversed length range underflows in `max_len - min_len` (src/password.rs:41), and a reversed amount range makes `gen_range` panic on an empty range (src/password.rs:46-49).
- `Builder.Reserve`, `Builder.Password.New` and `Builder.Build`: `num + special` (src/password.rs:51) is an unbounded sum in the model; the `usize` overflow of the source is not modelled.
- `Builder.Build`: it requires a length range ending at 1 or more. With a maximum of 0 the source panics in `Uniform::new(0, 0)` in replace mode, or underflows `total_inserts` in insert mode.
- `Builder.Password.Generate`, `Builder.Password.GetPassString` and `Builder.AssembleWords`: they require at least two words. The library's `generate` refuses fewer, and with one word the assembly loop never ends.
- `Builder.Password.InsertChars`: it requires a non-empty password or at least one insert; otherwise `total_inserts -= 1` underflows and panics.
- `Builder.Password.ReplaceChars`: the rejection loop is modelled over a finite sequence of samples. When they do not yet hold enough distinct positions, the method reports an unfinished run instead of looping; `Builder.PickedNeverFull` shows which runs can never finish.
- `Settings.PasswordSettings.Generate`: it requires the same non-empty special characters and length bound as `Builder.Build`. In replace mode a batch whose sampling has not finished is reported as `Sampling`.
- `Cli.NewPassword`, `Cli.GeneratePassword` and `Cli.PrepareRefuses`: they require ASCII special characters. The command line accepts any string, and with a non-ASCII one it either fails with "unsuported special character" (src/main.rs:328) or pushes a multi-byte character whose later byte-indexed insertion can panic.
- `Cli.Checked`: an overflowing `num + special` (src/main.rs:299) is modelled as a panic, as in a debug build; the wrap-around of a release build is not modelled.
- `Cli.GetPassString`: it requires at least two words. With none, `len - 1` underflows (src/main.rs:400); `Args::configure` lets zero words through.
- The command line's `replace_chars` and `ensure_case` (src/main.rs:455-554) and `capitalise`/`decapitalise` (src/main.rs:556-566) are the same code as the library's. They are modelled once, by `Builder.Password.ReplaceChars`, `Builder.Password.EnsureCase` and `Helpers.Capitalise`/`Helpers.Decapitalise`.
- The command line's `Password` fields `num` and `special` are only read while drawing the insertables; they are kept in `Cli.Knobs`, not in the builder.
