# WebVTT-style transcript model

The project models the transcript component of the repository. It lives in `src/anon/vtt_util.py`, in the classes `VttFile` and `VttFormatBlock`. The Dafny model covers:

- **Reading.** A file's lines go into a deque. The header is popped and checked. After that, blank lines are dropped and every other line starts a block that takes three lines: an index, a time token, and a `speaker: text` line.
- **Writing.** The header, a blank line, then four lines per block.
- **Speaker remapping** through a map, and **anonymisation** to `Speaker A` … `Speaker Z`.
- **Collapsed rendering.** One `speaker:` header per run of consecutive blocks by the same speaker, then the stripped texts.

Modules:

- `Wrappers`: `Option` and `Result`. A Python exception becomes an `Err` carrying a `ParseError` or a `RemapError`.
- `Seqs`: facts about slicing and regrouping concatenated sequences, used by the proofs.
- `PyText`: the Python string built-ins the component relies on. These are `str.isspace`, `strip` (with `lstrip`/`rstrip`), `split` on a one-character separator, `int()` of a decimal literal and `str()` of an int.
- `Deque`: the `collections.deque` of lines as a class whose `items` field `PopLeft` updates in place.
- `VttFormatBlock`: a block as a value, and `absorb` as a specification function (`AbsorbLines`) plus a method (`Absorb`). `Absorb` pops the three lines off the shared deque. Also `change_speaker` and `regenerate`.
- `VttFile`: a transcript as a value (`Transcript`).
  - `read_from_file` becomes the specification function `Parse` and the method `ReadFromLines`, whose `while` loop consumes the deque.
  - `gen_file_lines` and `gen_collapsed_form` become methods with `for` loops, each proved equal to a specification function.
  - `get_speaker_set`, `remap_speaker` and `anonymize` are functions.
- `VttLaws`: laws that tie reading to writing. Writing and then reading gives blocks of the ordinary shape (`Reparsable`, below) back with a space added in front of each text. No byte-exact round trip exists, and one concrete file shows it. Reading sees only stripped lines, so line terminators do not matter. The module also works the collapsed rendering through a small transcript.

Behaviour of the code worth knowing:

- **Speaker line.** The code splits the stripped line on every colon (`split(":")`) and keeps pieces 0 and 1, so whatever follows a second colon is lost (`VttLaws.SecondColonEndsText`). The text keeps the space that followed the first colon.
- **Block length.** `absorb` pops exactly three lines: index, time token and speaker line. The blank line the writer puts after each block is dropped by the reading loop like any other blank line.
- **Header.** The literal first line of the file is stripped and compared with `WEBVTT`. A blank line before it makes the read fail.
- **Time token.** It is stored stripped.
- **Round trip.** The writer produces `"{speaker}: {text}"`, and the text read back still begins with the space after the colon. For a block that is `Reparsable` the read-back text therefore gains one leading space (`VttLaws.WriteThenRead`). `Reparsable` means:
  - the time token is already stripped;
  - neither the speaker nor the text holds a colon;
  - the speaker does not start with whitespace;
  - the text is non-empty and does not end with whitespace.

  Other blocks read back differently. An empty text reads back unchanged, because the trailing space is stripped away (`VttFormatBlock.AbsorbRegenerateEmptyText`). A colon in the text cuts the text short. `VttLaws.NoExactRoundTrip` exhibits a file, laid out exactly as the writer lays it out, that changes when it is read and written again.

## Model

| member | source | states |
|---|---|---|
| PyText.IsSpace | src/anon/vtt_util.py:90 | the whitespace `strip()` removes includes space, tab, newline and carriage return, and never includes a digit, a colon or a sign |
| PyText.LStrip | src/anon/vtt_util.py:90 | the result is no longer than the input and does not start with whitespace, and every character removed from the front is whitespace |
| PyText.RStrip | src/anon/vtt_util.py:90 | the result is a prefix of the input that does not end with whitespace, and every character removed from the end is whitespace |
| PyText.Strip | src/anon/vtt_util.py:90 | the stripped line has no whitespace at either end |
| PyText.LStripIsSuffix | src/anon/vtt_util.py:90 | what `lstrip` leaves is a suffix of the line |
| PyText.StripIsSlice | src/anon/vtt_util.py:90 | `strip` leaves one contiguous slice of the line, and all that is cut off on either side is whitespace |
| PyText.StripUnchanged | src/anon/vtt_util.py:133 | a line with no whitespace at either end is its own strip |
| PyText.StripKeepsNonSpace | src/anon/vtt_util.py:135 | stripping keeps every non-whitespace character such as ':': one is in the stripped line iff it is in the line |
| PyText.LStripKeepsNonSpace | src/anon/vtt_util.py:135 | `lstrip` keeps every non-whitespace character, in both directions |
| PyText.RStripKeepsNonSpace | src/anon/vtt_util.py:135 | `rstrip` keeps every non-whitespace character, in both directions |
| PyText.LStripAppend | src/anon/vtt_util.py:98 | how `lstrip` of a concatenation follows from `lstrip` of its first part |
| PyText.StripIgnoresTrailingSpace | src/anon/vtt_util.py:88-90 | a trailing whitespace character, such as the "\n" left on each line read from a file, does not change the stripped line |
| PyText.Split | src/anon/vtt_util.py:135 | `split(":")` gives at least one piece, no piece holds the separator, joining the pieces with it gives the line back, and there is exactly one piece iff the line has no separator |
| PyText.SplitAtFirst | src/anon/vtt_util.py:135 | the split of a line with a first separator is the piece before it followed by the split of the rest |
| PyText.JoinFirstTwo | src/anon/vtt_util.py:137-138 | where the first two pieces of a split lie in the joined line |
| PyText.NatToString | src/anon/vtt_util.py:152 | `str(n)` for n ≥ 0 is non-empty, starts and ends with a digit, and is one character long iff n < 10 |
| PyText.IntToString | src/anon/vtt_util.py:152 | `f"{n}"` is non-empty, ends with a digit, and starts with '-' iff n is negative |
| PyText.NatToStringNumeral | src/anon/vtt_util.py:152 | the numeral `str(n)` writes for n ≥ 0 consists of decimal digits, has the value n and has no leading zero |
| PyText.ParseInt | src/anon/vtt_util.py:132 | `int()` of a line whose stripped form is a run of digits is its decimal value; any success needs a stripped form ending in a digit, and a negative result one starting with '-' |
| PyText.ParseIntUnsigned | src/anon/vtt_util.py:132 | `int()` of a run of digits is its decimal value |
| PyText.ParseIntNegative | src/anon/vtt_util.py:132 | `int()` of '-' and a run of digits is the negated value |
| PyText.ParseIntOfIntToString | src/anon/vtt_util.py:132 | `int(f"{n}") == n` for every integer n: the written index line reads back as the index |
| Deque.LineDeque.IsEmpty | src/anon/vtt_util.py:96 | `while vdeq` goes on exactly while lines are left |
| Deque.LineDeque.Front | src/anon/vtt_util.py:98 | `vdeq[0]` is a line of the deque, the one in front of the rest |
| Deque.LineDeque.PopLeft | src/anon/vtt_util.py:99 | `popleft` returns the front line and removes it; on an empty deque it fails (None) and changes nothing |
| VttFormatBlock.SplitSpeakerLine | src/anon/vtt_util.py:135-138 | the speaker line fails (index error on piece 1) iff it has no colon |
| VttFormatBlock.SplitSpeakerLinePositions | src/anon/vtt_util.py:135-138 | in the stripped line the speaker runs up to the first colon, the text from there up to the second colon or the end, and neither holds a colon |
| VttFormatBlock.AbsorbLines | src/anon/vtt_util.py:130-140 | a block is read iff there are three lines, the first parses as an int and the third holds a colon. The block's index, stripped time token, speaker and text come from those lines. A bad index, a deque that runs out and a speaker line without a colon (`MissingColon`) are told apart exactly |
| VttFormatBlock.AbsorbReadsThreeLines | src/anon/vtt_util.py:132-135 | lines after the first three do not affect the block |
| VttFormatBlock.Absorb | src/anon/vtt_util.py:130-140 | the method returns what `AbsorbLines` specifies and leaves the deque without the lines it popped: one after a bad index, all of them when it runs out, three otherwise |
| VttFormatBlock.ChangeSpeaker | src/anon/vtt_util.py:142-148 | the copy has the mapped speaker and the same index, time token and text; it fails with that speaker iff the speaker is not a key of the map |
| VttFormatBlock.Regenerate | src/anon/vtt_util.py:151-155 | four lines are written for a block, the time token as stored second and a blank line last; what they read back as is `VttFormatBlock.AbsorbRegenerate` |
| VttFormatBlock.SplitWrittenSpeakerLine | src/anon/vtt_util.py:154 | the line `"{speaker}: {text}"` splits back into the speaker and the text with a space in front |
| VttFormatBlock.AbsorbRegenerate | src/anon/vtt_util.py:151-155 | the four lines written for a `Reparsable` block (stripped time token, no colon in speaker or text, speaker not starting with whitespace, non-empty text not ending with whitespace) read back as the same block with a space added in front of its text |
| VttFormatBlock.AbsorbRegenerateEmptyText | src/anon/vtt_util.py:151-155 | a block with an empty text, a stripped time token and a speaker without colon or leading whitespace reads back unchanged: the separator space is stripped |
| VttFile.Parse | src/anon/vtt_util.py:84-111 | an empty file fails with `EmptyFile`; a successful read had `WEBVTT` as its stripped first line and has fewer than a third as many blocks as lines |
| VttFile.ParseBlocks | src/anon/vtt_util.py:94-105 | the blocks read never outnumber a third of the lines |
| VttFile.ParseBlocksAtBlank | src/anon/vtt_util.py:98-100 | a blank line where a block could start is dropped |
| VttFile.ParseBlocksAtBlock | src/anon/vtt_util.py:102 | a non-blank line starts a block. Its failure fails the whole read; otherwise the block comes before the blocks of the lines after its three |
| VttFile.ParseNeedsHeader | src/anon/vtt_util.py:90-91 | a read succeeds only if the stripped first line is `WEBVTT`. Otherwise it fails with that stripped line, and an empty file fails before any check |
| VttFile.ParseBlocksSkipsBlankLines | src/anon/vtt_util.py:96-100 | any number of blank lines in front of the blocks change nothing |
| VttFile.ParseBlocksConcat | src/anon/vtt_util.py:94-105 | if some lines read completely, then the blocks of whatever follows come after theirs, in order, and a failure there fails the whole read |
| VttFile.TruncatedTailFails | src/anon/vtt_util.py:132-135 | a block cut short by the end of the file fails the read even after blocks that were read |
| VttFile.ReadFromLines | src/anon/vtt_util.py:84-111 | the deque-consuming loop gives exactly `Parse` of the lines |
| VttFile.RegenerateAll | src/anon/vtt_util.py:63-64 | four lines are written per block |
| VttFile.RegenerateAllAt | src/anon/vtt_util.py:63-64 | block k is written on lines 4k to 4k+3 |
| VttFile.FileLines | src/anon/vtt_util.py:58-64 | the written file has 2 + 4·n lines and starts with `WEBVTT` and a blank line |
| VttFile.FileLinesLayout | src/anon/vtt_util.py:58-64 | the written file has 2 + 4·n lines: `WEBVTT`, a blank line, then each block's index, time token, `"{speaker}: {text}"` line and blank line in block order |
| VttFile.GenFileLines | src/anon/vtt_util.py:58-64 | the loop yields exactly `FileLines` of the transcript |
| VttFile.CollapsedFrom | src/anon/vtt_util.py:44-55 | the collapsed form has at least one line and at most four lines per block |
| VttFile.Runs | src/anon/vtt_util.py:44-55 | the blocks split into non-empty runs by one speaker, whose concatenation is the blocks, with neighbouring runs by different speakers (maximal runs), the first run starting with the first block |
| VttFile.RenderRunsLength | src/anon/vtt_util.py:44-55 | rendering runs gives three header lines per run and one line per block |
| VttFile.CollapsedFromRuns | src/anon/vtt_util.py:44-55 | rendering block by block with a last-speaker variable equals rendering run by run. No header is emitted for a first block whose speaker was heard last |
| VttFile.CollapsedFirstRun | src/anon/vtt_util.py:49-55 | what follows the first header of the first run is the first stripped text and then the rendering of the remaining blocks with that speaker heard last |
| VttFile.CollapsedByRuns | src/anon/vtt_util.py:44-55 | the collapsed form equals the maximal runs rendered in order. It has one header per run and one text line per block, \|blocks\| + 3·\|runs\| lines in all |
| VttFile.GenCollapsedForm | src/anon/vtt_util.py:44-55 | the loop with `lastspeaker` yields the maximal runs rendered in order, \|blocks\| + 3·\|runs\| lines |
| VttFile.RemapBlocks | src/anon/vtt_util.py:35 | the remapping succeeds iff every speaker is a key. Success keeps the count and order and changes only each speaker; failure names the first speaker that is not a key |
| VttFile.GetSpeakerSet | src/anon/vtt_util.py:113-115 | the set holds exactly the speakers of the blocks |
| VttFile.RemapSpeaker | src/anon/vtt_util.py:33-36 | a new transcript with the same blocks in the same order, each with its speaker mapped. It succeeds iff every speaker of the transcript is a key, and a failure names such a speaker |
| VttFile.RemapSpeakerSet | src/anon/vtt_util.py:33-36 | the speakers after a remapping are the images of the speakers before |
| VttFile.PartName | src/anon/vtt_util.py:25-27 | position idx gets `"Speaker "` and the idx-th uppercase letter; from position 26 on it fails |
| VttFile.LabelInjective | src/anon/vtt_util.py:27 | two positions get the same label iff they are the same position |
| VttFile.IndexOf | src/anon/vtt_util.py:29 | the position `enumerate` gives a speaker: the first place where it occurs |
| VttFile.EnumerationSize | src/anon/vtt_util.py:29 | iterating over a set visits as many speakers as the set holds |
| VttFile.BuildSpeakerMap | src/anon/vtt_util.py:29 | the comprehension succeeds iff there are at most 26 speakers, and its keys are exactly the speakers |
| VttFile.BuildSpeakerMapLabels | src/anon/vtt_util.py:29 | over an order without repeats, each speaker maps to the label of its position |
| VttFile.Anonymize | src/anon/vtt_util.py:23-30 | for any iteration order of the speaker set, anonymising succeeds iff there are at most 26 distinct speakers. Success keeps the blocks and their order and replaces each speaker by the label of its position in that order |
| VttFile.AnonymizeKeepsWhoSpoke | src/anon/vtt_util.py:23-30 | two blocks get the same label iff they had the same speaker |
| VttFile.FirstAppearance | src/anon/vtt_util.py:113-115 | the order lists no more speakers than there are blocks |
| VttFile.FirstAppearanceEnumerates | src/anon/vtt_util.py:113-115 | the order lists the speaker set exactly once each, so it is one valid iteration order for `anonymize` |
| VttFile.FirstAppearancePrefix | src/anon/vtt_util.py:113-115 | the order for the first k blocks is a prefix of the order for all blocks |
| VttFile.FirstAppearanceOrder | src/anon/vtt_util.py:113-115 | the speakers of the first k blocks are exactly the leading entries of the order, each once, so a speaker comes before every speaker who first speaks later |
| VttLaws.ParseBlocksSeesStripped | src/anon/vtt_util.py:94-105 | reading blocks depends on the stripped lines only |
| VttLaws.ParseSeesStripped | src/anon/vtt_util.py:88-105 | reading a transcript depends on the stripped lines only |
| VttLaws.ParseIgnoresLineTerminators | src/anon/vtt_util.py:88 | the lines an open file yields, each ending in "\n", read exactly like the bare lines |
| VttLaws.PadTextsAt | src/anon/vtt_util.py:138 | block i read back has the written block's text with a space in front |
| VttLaws.ParseBlocksOfRegenerate | src/anon/vtt_util.py:151-155 | one `Reparsable` block's four written lines read back as that block alone, its text with a space in front |
| VttLaws.IndexLineNotBlank | src/anon/vtt_util.py:152 | the written index line is never blank, so the reader never skips it |
| VttLaws.ParseBlocksOfRegenerateAll | src/anon/vtt_util.py:63-64 | `Reparsable` blocks, once written, read back in order, with each text gaining a leading space |
| VttLaws.WriteThenRead | src/anon/vtt_util.py:58-64 | when every block is `Reparsable` (stripped time token, no colon in speaker or text, speaker not starting with whitespace, non-empty text not ending with whitespace), writing the transcript and reading it back gives the same blocks, order, indexes, time tokens and speakers, with one more leading space on every text |
| VttLaws.NoExactRoundTrip | src/anon/vtt_util.py:154 | the six lines `WEBVTT`, an empty line, `1`, `00:01 --> 00:02`, `Alice: hi` and an empty line read successfully, but writing the result back gives `Alice:  hi` as the fifth line |
| VttLaws.SecondColonEndsText | src/anon/vtt_util.py:135-138 | on a speaker line with two colons the text stops at the second colon and the rest is dropped |
| VttLaws.CollapsedExample | src/anon/vtt_util.py:44-55 | two blocks by Ann and then one by Bob collapse to two headers and three text lines |

## Left out

- File I/O. `read_from_file` opens the file and asserts that it exists. `write_to_file` and `write_collapsed_form` write lines with "\n". The model reads and yields line sequences. `VttLaws.ParseIgnoresLineTerminators` covers the "\n" that reading leaves on each line. The splitting of file contents into lines is not modelled.
- The `print` of the block count after reading: a diagnostic with no effect on the result.
- Laziness. `gen_file_lines`, `gen_collapsed_form` and `regenerate` are generators; the model yields whole sequences.
- `VttFile.Anonymize`: the iteration order of the Python `set` in `get_speaker_set` is not fixed. It is a parameter that must list the speaker set exactly once (`Enumerates`). `VttFile.FirstAppearance` is one such order, and no particular order is claimed.
- `PyText.ParseInt`: `int()` is modelled as surrounding whitespace, an optional sign and ASCII decimal digits. Underscores between digits and non-ASCII decimal digits, which Python also accepts, are not modelled. Such a line reads as a bad index in the model. In the other direction the model accepts two kinds of line where Python raises. It strips the whitespace of `str.strip()`, which includes U+001C to U+001F, while `int()` skips only tab, newline, vertical tab, form feed, carriage return and space around ASCII digits; so an index line such as "\x1c1" reads as index 1 in the model. It also places no bound on the number of digits, while Python 3.11 and later reject numerals longer than 4300 digits.
- `PyText.IsSpace` lists the Unicode whitespace of `str.isspace` by code point. It is not derived from the Unicode database.
- `VttFile.Transcript` and `VttFormatBlock.Block` are values. `absorb` fills a fresh block object, and `change_speaker`/`remap_speaker` make copies, so nothing is shared or updated in place. Aliasing of block objects is not represented.
- `AssertionError`, `ValueError` and `IndexError` become `Err` values. The exception messages are not modelled.
- `src/main/submit_util.py`, `src/main/tm_s3_util.py`, `src/main/demo_submit.py`, `src/main/demo_submitter.py` and `src/anon/demo_anonymizer.py` are not part of this model. They cover environment lookup, randomness, storage and network clients, and command-line entry points.
