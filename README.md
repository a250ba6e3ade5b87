# whisper quick-start transcriber — a Dafny model of `main.py`

`main.py` is a small desktop script. It lets the user pick a speech-recognition
model and a language from two dropdowns. It then asks for an audio file and
for an output path, transcribes the audio, and writes the timed segments to
the output path as a SubRip (`.srt`) subtitle file. This project models the
parts of that script that compute something:

- `format_timestamp`: seconds rendered as `HH:MM:SS,mmm`, with milliseconds truncated
  (modules `Timestamp` and `Decimal`);
- `str.strip()` as applied to each segment's text (module `Whitespace`);
- the two label→code tables, the first-match lookup behind the OK button, and
  the `selected` dictionary with its OK and Cancel callbacks (module `Options`);
- the loop that writes one block per segment: index, timing line, stripped
  text, blank line (module `Srt`);
- the chain of early exits in `transcribe_audio` (module `Driver`).

Python floats are modelled as exact non-negative reals (`Timestamp.Seconds`).
`int(x)` and `x // d` become `.Floor`, and `x % d` becomes `x - d * (x // d)`;
for non-negative operands these agree with Python.

The dialogs, the speech model and the file system are not modelled as code.
The event that ends the option dialog and the paths the file dialogs return
are inputs. The segments the speech model produces are an input too. The calls
into the model and the file system are recorded, in order, as a trace of
`Driver.Effect` values. The output file is modelled as the string written to it.

The code writes `"\n\n"` after every block, including the last, so a
non-empty file ends with a blank line (`Srt.EndsWithBlankLine`).

Worked examples (module `Examples`) reduce concrete timestamps and a
two-segment file to literal strings.

## Model

| member | source | states |
|---|---|---|
| Decimal.Digits | main.py:146 | `str(n)`: at least one digit, all digits, no leading zero beyond a single "0"; one digit exactly below 10, at most two below 100, at most three below 1000 |
| Decimal.ValueOfDigits | main.py:146 | reading `str(n)` back as a decimal number gives `n` |
| Decimal.PadLeft | main.py:146 | zero padding keeps a digit string all digits and makes it `max(width, len)` long |
| Decimal.ZeroPad | main.py:146 | `{n:0w}` is all digits, exactly `w` long when `str(n)` is shorter, otherwise `str(n)`'s length |
| Decimal.PadLeftValue | main.py:146 | leading zeros added by the padding do not change the value |
| Decimal.PaddedValue | main.py:146 | reading a zero-padded field back gives the number that was padded |
| Timestamp.FloorDiv | main.py:143-144 | Python's float `x // d` for a positive divisor, as the floor of the exact quotient; its meaning for 3600 and 60 is carried by `FloorHours` and `FloorMinutes` |
| Timestamp.FloatMod | main.py:144-145 | Python's float `x % d` for a positive divisor, as `x - d * (x // d)`; its meaning is carried by `FloorOfMod3600` and `FloorOfMod60` |
| Timestamp.Split | main.py:142-145 | the four fields, computed line by line as the code does; their meaning is carried by `SplitFields` and `SplitUnique` |
| Timestamp.Render | main.py:146 | the f-string `{h:02}:{m:02}:{s:02},{millis:03}`; its layout is carried by `FormatShape` |
| Timestamp.Format | main.py:138-146 | `format_timestamp`: the rendering of the split fields; its meaning is carried by `SplitFields`, `SplitUnique`, `FormatShape` and `ParseFormat` |
| Timestamp.FloorHours | main.py:143 | `int(seconds // 3600)` is the whole seconds divided by 3600 |
| Timestamp.FloorMinutes | main.py:144 | `x // 60` is the whole seconds of `x` divided by 60 |
| Timestamp.FloorOfMod3600 | main.py:144 | `seconds % 3600` is non-negative and its whole part is the whole seconds modulo 3600 |
| Timestamp.FloorOfMod60 | main.py:145 | `int(seconds % 60)` is the whole seconds modulo 60 |
| Timestamp.FloorOfFraction | main.py:142 | `int((seconds - int(seconds)) * 1000)` is the whole milliseconds left after the whole seconds, below 1000 |
| Timestamp.ClockFields | main.py:143-145 | whole seconds split into hours, minutes below 60 and seconds below 60 that add back up to it |
| Timestamp.SplitFields | main.py:142-145 | the four fields: minutes and seconds below 60, milliseconds below 1000, hours/minutes/seconds adding up to the whole seconds, and all four adding up to `floor(seconds * 1000)` milliseconds |
| Timestamp.SplitUnique | main.py:142-146 | any fields with those bounds and those sums are the ones computed, and the timestamp is their rendering |
| Timestamp.FormatShape | main.py:146 | layout of the timestamp: at least two hour digits, then `:` two digits `:` two digits `,` three digits, each field the zero-padded number; only digits, `:` and `,` occur |
| Timestamp.ParseFormat | main.py:138-146 | round trip: the timestamp parses back into the computed fields, so into `floor(seconds * 1000)` milliseconds (truncated, never rounded) |
| Whitespace.IsSpace | main.py:185 | the characters `str.isspace` accepts, which `strip()` removes; used by `LeadingSpace`, `TrailingStart` and `StripUnique` |
| Whitespace.Strip | main.py:185 | `str.strip()`: the text between the leading and trailing whitespace runs; its meaning is carried by `StripTrimmed`, `StripParts`, `StripUnique` and `StripIdempotent` |
| Whitespace.StripEnd | main.py:185 | where the stripped text ends: never before where it starts, never past the end |
| Whitespace.LeadingSpace | main.py:185 | the leading whitespace run: all whitespace, and followed by a non-whitespace character or the end |
| Whitespace.TrailingStart | main.py:185 | the trailing whitespace run: all whitespace, and preceded by a non-whitespace character or the start |
| Whitespace.StripTrimmed | main.py:185 | the stripped text neither starts nor ends with whitespace |
| Whitespace.StripParts | main.py:185 | the text is whitespace, then the stripped text, then whitespace |
| Whitespace.StripUnique | main.py:185 | any split of the text into whitespace, a trimmed middle and whitespace has the stripped text as its middle |
| Whitespace.StripIdempotent | main.py:185 | stripping twice is stripping once |
| Options.ModelOptions | main.py:10-21 | the model table, entry for entry; `TablesHaveDistinctLabels` and `EveryOptionResolves` state its properties |
| Options.LanguageOptions | main.py:24-33 | the language table, entry for entry; `TablesHaveDistinctLabels` and `EveryOptionResolves` state its properties |
| Options.Lookup | main.py:57-58 | the first-match lookup is None exactly when no entry has the label; otherwise its value belongs to an entry with that label and no earlier entry has it |
| Options.LookupFindsEntry | main.py:57-58 | with distinct labels, each entry is found by its own label |
| Options.TablesHaveDistinctLabels | main.py:10-33 | no two entries of either table share a label |
| Options.EveryOptionResolves | main.py:10-33 | every label offered by either dropdown resolves to its own non-empty code |
| Options.Selection.constructor | main.py:51 | the dictionary starts with no model and no language |
| Options.Selection.OnOk | main.py:53-59 | OK sets the model and the language to the lookups of the two labels shown |
| Options.Selection.OnCancel | main.py:61-62 | Cancel leaves both entries as they were |
| Options.ChooseModelAndLanguage | main.py:35-106 | the dialog returns the lookups on OK and (None, None) on Cancel or close; a label from the tables gives a value |
| Options.DialogResult | main.py:51-62 | what the dialog returns for each way it can end; `ChooseModelAndLanguage` is proved to return it, and `DefaultSelection` evaluates it |
| Options.DefaultSelection | main.py:70-91 | OK on the untouched dropdowns gives model "tiny" and language "en" |
| Srt.TimeLine | main.py:188 | the timing line `start --> end`; its meaning is carried by `TimeLineRoundTrip` |
| Srt.Block | main.py:187-189 | the three lines written for one segment; its meaning is carried by `BlockParts` |
| Srt.Document | main.py:182-189 | the whole file, one block per segment; its meaning is carried by `WriteSrt`, `AppendSegment`, `BlockAt`, `DocumentSpan` and `EndsWithBlankLine` |
| Srt.WriteSrt | main.py:181-189 | the writing loop's output is exactly the document: one block per segment, in order, numbered from 1 |
| Srt.PrefixDocument | main.py:182-189 | the file for the first `i` segments is a prefix of the whole file |
| Srt.DocumentStep | main.py:187-189 | writing segment `i` appends exactly its block, numbered `i + 1` |
| Srt.AppendSegment | main.py:182-189 | appending a segment appends exactly its block, numbered after the others |
| Srt.BlockAt | main.py:182-189 | the text between consecutive block offsets is the block of that segment |
| Srt.DocumentSpan | main.py:182-189 | block offsets run from the start to the end of the file |
| Srt.EndsWithBlankLine | main.py:189 | a non-empty file ends in "\n\n": the last block keeps its blank line |
| Srt.SpaceIndex | main.py:188 | helper of the timing-line reader `ParseTimeLine` (not of the writer): the first space of a line, or its length when there is none; `TimeLineRoundTrip` uses it to read back the line written here |
| Srt.TimeLineRoundTrip | main.py:188 | the timing line parses back into the start and end fields |
| Srt.BlockParts | main.py:187-189 | a block is the index line, the timing line and the stripped text with a blank line; the index reads back as the index, the timing line as the offsets, and the text is trimmed |
| Driver.Given | main.py:159-169 | Python truthiness of a dialog result, `not x` negated: present and not empty; the guards of `TranscribeAudio` are stated with it |
| Driver.TranscribeAudio | main.py:158-189 | no model or language, no audio, or no output path each end the run with nothing loaded or written; otherwise the model is loaded, the audio transcribed and the document written to the output path |
| Driver.DefaultsPassFirstGuard | main.py:158-161 | the untouched dialog passes the first guard with "tiny" and "en" |
| Driver.OfferedChoicePassesFirstGuard | main.py:158-161 | any pair of offered entries passes the first guard |
| Examples.FormatExample | main.py:138-146 | 3725.4567 s renders as "01:02:05,456" |
| Examples.StampZero | main.py:138-146 | 0 s renders as "00:00:00,000" |
| Examples.StampOneAndAHalf | main.py:138-146 | 1.5 s renders as "00:00:01,500" |
| Examples.StampThree | main.py:138-146 | 3 s renders as "00:00:03,000" |
| Examples.StripHello | main.py:185 | " Hello " strips to "Hello" |
| Examples.ExampleDocument | main.py:181-189 | two segments, the first with padded text, give the expected two blocks, the last followed by a blank line |

## Left out

- The Tk windows, the dropdown widgets and the event loop: the dialog is
  replaced by the event that ends it (`Options.DialogEvent`).
- `select_file` and `save_output`: the paths they return are inputs, with
  None or "" standing for a cancelled dialog.
- `whisper.load_model` and `model.transcribe`: they are recorded as effects.
  The segments are an input and their contents are not checked.
- Driver.TranscribeAudio: the three foreign calls (`whisper.load_model`,
  `model.transcribe`, `open(output_file, "w")`) are assumed to return. In the
  code none of them is guarded, so a raising call ends the run with a
  traceback: no file is written when loading, transcribing or opening the
  file fails, and a failure while writing can leave a partial file. The model
  has no such outcome.
- The `whisper.tokenizer.LANGUAGES` lookup and every `print`: they only
  produce console output.
- Opening the file and its UTF-8 encoding: the file is the string written to
  it.
- `warnings.filterwarnings`: it has no effect on the computed values.
- Timestamp.Split: IEEE-754 rounding is not modelled. Seconds are exact reals,
  so a value such as 1.001 keeps its exact 1 ms, where a float may yield 0 ms.
- Timestamp.Seconds: negative offsets are excluded by the type. On a negative
  float `int` truncates while `//` floors, and the model does not follow that
  case.
- Options.ChooseModelAndLanguage: closing the window and pressing Cancel are
  the same outcome, as in the code. Repeated clicks before the window closes
  are not modelled.
