# ia-codyssey exercises, modelled in Dafny

This project models the logic of eleven small Python programs from a
course of weekly exercises set on a Mars base. Each program becomes one
Dafny module:

| module | program | what it does |
|---|---|---|
| `LogTools` | `week1/main.py` | sorts mission log lines by timestamp, newest first; writes the lines that mention a problem keyword |
| `Inventory` | `week2/mian.py` | sorts the inventory by flammability; filters the dangerous items; writes and reads the binary inventory file |
| `MissionComputer` | `week5/mars_mission_computer.py` | loads `setting.txt`, with a default file when it is missing; keeps a history of sensor values and its five-minute average |
| `CalculatorApp` | `week6/calculator.py` | the button handlers of the GUI calculator |
| `Calculator` | `week7/calculator.py` | the calculator engine with its keypad state |
| `DoorHacking` | `week8/door_hacking.py` | brute-forces a six-character zip password, optionally after a list of common patterns |
| `Caesar` | `week9/main.py` | Caesar decoding with every shift; the dictionary check of a decoded text |
| `Recordings` | `week10/javis.py` | names voice recordings after the clock; lists them by date within a window |
| `ChatServer` | `2nd_semester/1week/server.py` | the multi-client chat server: joining, broadcasts, whispers, leaving, shutdown |
| `Headlines` | `2nd_semester/week3/crawling_KBS.py` | the headline scraper: the link-capturing HTML parser, de-duplication, the page fallback |
| `RequestLog` | `2nd_semester/week2/server.py` | the HTTP server's request counters, path rewrite, geolocation text and log line |

Four helper modules hold what several programs share:

- `Wrappers`: `Option`.
- `Seqs`: `Filter`, subsequences and prefixes.
- `Sorting`: one stable insertion sort, `SortBy`. It is proved sorted, a permutation and stable, and it stands for Python's `sorted`/`list.sort`, which are stable.
- `Text`: Python's `str` operations used by the programs (`strip`, `split`, `split(sep, n)`, `startswith`, `in`, `upper`/`lower`, string `<`).

Code that updates objects in place is modelled as classes whose methods are proved equal to specification functions:

- `Calculator.Calculator`
- `CalculatorApp.CalculatorApp`
- `MissionComputer.Monitor`
- `Headlines.HeadlineParser`
- `ChatServer.ChatServer`
- `RequestLog.Counters`
- `RequestLog.Handler`

Loops become methods with invariants, for example:

- `Caesar.DecodeAll`
- `Inventory.WriteRecords`
- `Inventory.ReadAll`
- `LogTools.SaveProblematicLogs`
- `DoorHacking.UnlockZip`
- `Recordings.ListRecordingsByDate`
- `Headlines.UniqueKeepOrder`
- `Headlines.GetHeadlines`

Pure code becomes functions and lemmas.

The environment is passed in as parameters:

- Files, the clock, the network and the zip archive are oracles or values.
- The float formatting of the calculators is the `format` parameter.
- HTML tokenising, URL joining and unescaping in the scraper are a `Library` value.

The text of `2nd_semester/1week/server.py` is missing the characters `/`, `:`, `\`, `<`, `>`, `|`, `?`, `*` and `"`. The model restores them the way the client program and the rest of the code require:

- the quit keyword is `/종료`;
- the whisper prefix is `/w `;
- a chat line is `name: text`;
- the whisper confirmation reads `sender -> target: message`.

## Model

| member | source | states |
|---|---|---|
| LogTools.Key | week1/main.py:61 | the sort key is the text before the first comma: a prefix of the line without a comma, followed by a comma; empty when the line has none |
| LogTools.KeyGeqTotal | week1/main.py:59-63 | "key not smaller" is a total preorder, so the reversed sort is well defined |
| LogTools.SortLogsReversed | week1/main.py:41-66 | the result is a permutation of the lines; an empty input is returned as is; the header line stays first, and the rest is a permutation of the other lines |
| LogTools.SortLogsReversedSpec | week1/main.py:59-63 | after the header the keys never increase, and lines with equal keys keep their input order (a stable reverse sort) |
| LogTools.HeaderPart | week1/main.py:82-83 | the first line is kept as a header exactly when it contains a comma |
| LogTools.SelectedSpec | week1/main.py:77-88 | a header with a comma comes first; every body line with a problem keyword is selected and nothing else; the selection keeps input order |
| LogTools.SelectedKeepsProblems | week1/main.py:85-88 | every body line with a problem keyword is selected |
| LogTools.SelectedOnly | week1/main.py:85-88 | only the comma header and problem lines are selected |
| LogTools.SelectionOrder | week1/main.py:82-88 | the header followed by any subsequence of the body is a subsequence of the input |
| LogTools.SaveProblematicLogs | week1/main.py:68-99 | nothing is written exactly when at most one line (the header) was selected; otherwise the selected lines are written |
| LogTools.NothingToSave | week1/main.py:90-92 | a log without problem lines writes nothing |
| Inventory.FlammabilityGeqTotal | week2/mian.py:56 | "flammability not smaller" is a total preorder |
| Inventory.SortByFlammability | week2/mian.py:46-56 | the sorted inventory is a permutation of the items |
| Inventory.SortByFlammabilitySpec | week2/mian.py:56 | flammability never increases along the result, and items of equal flammability keep their order (`sorted(..., reverse=True)` is stable) |
| Inventory.FilterDangerous | week2/mian.py:59-70 | exactly the items with flammability at least the threshold are kept |
| Inventory.FilterDangerousInOrder | week2/mian.py:70 | the dangerous items keep their inventory order |
| Inventory.SortedFilterIsPrefix | week2/mian.py:56-70 | on a list sorted by decreasing flammability, the dangerous items form a prefix |
| Inventory.DangerousAfterSortIsPrefix | week2/mian.py:56-70 | filtering the sorted inventory gives a prefix of it |
| Inventory.LittleEndianInverse | week2/mian.py:113 | reading back the little-endian bytes of a number below 256^width gives the number |
| Inventory.LittleEndianCanonical | week2/mian.py:158 | any bytes are the little-endian encoding of their value |
| Inventory.U32 | week2/mian.py:113 | `struct.pack('I', n)` is four bytes |
| Inventory.ReadU32 | week2/mian.py:158 | reading a u32 succeeds exactly when four bytes are left |
| Inventory.ReadU32At | week2/mian.py:113-158 | a written u32 reads back as its value |
| Inventory.ReadU32Canonical | week2/mian.py:158 | a u32 that is read is below 2^32 and its encoding is the bytes read |
| Inventory.ReadMany | week2/mian.py:160-182 | reading n values gives n values |
| Inventory.ReadManyInverse | week2/mian.py:115-182 | reading back n encoded values gives the values and the position after them |
| Inventory.ReadManyCanonical | week2/mian.py:160-182 | values that are read are valid, and their encoding is exactly the bytes consumed |
| Inventory.ReadManyStable | week2/mian.py:160-182 | a read depends only on the bytes it consumes |
| Inventory.EncodeField | week2/mian.py:117-119 | a written field takes four length bytes plus its own bytes |
| Inventory.Utf8Examples | week2/mian.py:165 | the strict UTF-8 check accepts ASCII and a two-byte letter, and rejects a stray byte, an encoded surrogate and an overlong form |
| Inventory.Utf8Append | week2/mian.py:117-177 | well-formed text followed by well-formed text is well-formed |
| Inventory.ReadField | week2/mian.py:164-165 | a field that is read ends after its length prefix and within the data, and its bytes decode as UTF-8 |
| Inventory.ReadFieldAt | week2/mian.py:117-165 | a written field reads back as itself |
| Inventory.FieldInverts | week2/mian.py:117-165 | reading fields inverts writing them |
| Inventory.FieldCanonical | week2/mian.py:164-165 | every field that is read is the encoding of what was read |
| Inventory.ReadRecordAt | week2/mian.py:115-180 | a written record reads back as itself |
| Inventory.RecordInverts | week2/mian.py:115-180 | reading records inverts writing them |
| Inventory.RecordCanonical | week2/mian.py:160-182 | every record that is read is the encoding of what was read |
| Inventory.ToRecord | week2/mian.py:115-137 | an item can be written exactly when its four text fields encode as UTF-8 into fewer than 2^32 bytes and its flammability packs; the record holds the four fields in order |
| Inventory.ToRecords | week2/mian.py:115-137 | the inventory can be written exactly when every item can; the records correspond one to one to the items |
| Inventory.Encode | week2/mian.py:99-141 | the file can be written exactly when the count fits a u32 and every item can be written |
| Inventory.DecodeRejectsInvalidText | week2/mian.py:164-165 | a first substance that is not UTF-8 makes the whole read return the empty list |
| Inventory.Decode | week2/mian.py:144-189 | a non-empty result has as many records as the count at the start of the file |
| Inventory.EncodedLayout | week2/mian.py:113-137 | a written file starts with the item count and is followed by the records, whatever trails it |
| Inventory.DecodeEncode | week2/mian.py:110-182 | reading a written file, even with trailing bytes, gives back the records of the items |
| Inventory.EncodeDecode | week2/mian.py:154-182 | the records of any file that reads successfully re-encode to a prefix of that file |
| Inventory.DecodeTruncated | week2/mian.py:184-189 | any strictly shorter prefix of a written file reads as the empty list (the reader's error path) |
| Inventory.WriteRecord | week2/mian.py:115-137 | one loop pass: it fails exactly when the item cannot be written, and otherwise writes the record's encoding |
| Inventory.WriteRecords | week2/mian.py:115-137 | the loop writes the encoding of every record, or reports failure exactly when some item cannot be written |
| Inventory.WriteBinary | week2/mian.py:99-141 | `write_binary_file` returns true exactly when the file can be encoded, and then writes that encoding |
| Inventory.ReadAll | week2/mian.py:160-182 | the reading loop computes `ReadMany` |
| Inventory.ReadBinary | week2/mian.py:144-189 | `read_binary_file` returns `Decode` of the bytes |
| MissionComputer.Settings.Add | week5/mars_mission_computer.py:104 | an item is appended to its own section only |
| MissionComputer.Classify | week5/mars_mission_computer.py:95-104 | an item line is the stripped line, and it is not empty |
| MissionComputer.Kinds | week5/mars_mission_computer.py:94-95 | every line is classified, in order |
| MissionComputer.ScanAppend | week5/mars_mission_computer.py:94-104 | scanning two blocks of lines is scanning one after the other |
| MissionComputer.NoHeaderNoItems | week5/mars_mission_computer.py:103-104 | lines before any header add nothing |
| MissionComputer.ItemsAppendInOrder | week5/mars_mission_computer.py:99-104 | under a header, items are appended to that section in file order and the other section is untouched |
| MissionComputer.WithDefaults | week5/mars_mission_computer.py:107-110 | each empty section is replaced by its default list, and a non-empty one is kept |
| MissionComputer.WithDefaultsIdempotent | week5/mars_mission_computer.py:107-110 | applying the defaults twice is applying them once |
| MissionComputer.LinesConcat | week5/mars_mission_computer.py:90 | `readlines` of text written line by line gives back those lines |
| MissionComputer.WriteSettingsFile | week5/mars_mission_computer.py:115-122 | the loop writes the comment, both headers and every item, each on its own line |
| MissionComputer.FileReadsBack | week5/mars_mission_computer.py:89-122 | a settings file the program writes, with clean items, parses back to the same settings |
| MissionComputer.DefaultFileRoundTrip | week5/mars_mission_computer.py:83-124 | the default file that is created loads as the defaults |
| MissionComputer.LoadSettings | week5/mars_mission_computer.py:81-127 | a readable file gives its sections with defaults; a missing file gives the defaults and writes the default file; an unreadable one gives the defaults and writes nothing |
| MissionComputer.ParseLines | week5/mars_mission_computer.py:93-104 | the section loop computes `Parse` |
| MissionComputer.LoadedNeverEmpty | week5/mars_mission_computer.py:106-127 | the loaded settings never have an empty section |
| MissionComputer.TickedSpec | week5/mars_mission_computer.py:149-150 | a tick appends exactly one value, at the end, to each sensor that was read, and leaves the others alone |
| MissionComputer.SumBounds | week5/mars_mission_computer.py:180 | the sum of values within bounds lies between n times each bound |
| MissionComputer.MeanBounds | week5/mars_mission_computer.py:179-180 | the mean of a non-empty history lies within the bounds of its values |
| MissionComputer.Monitor.constructor | week5/mars_mission_computer.py:62-75 | every sensor reads 0.0 and has an empty history |
| MissionComputer.Monitor.RecordTick | week5/mars_mission_computer.py:144-150 | `env_values` is updated with the readings, and each history grows by its sensor's reading |
| MissionComputer.Monitor.AverageAndReset | week5/mars_mission_computer.py:175-189 | the averages are the means of the histories (0.0 when empty), after which every sensor's history is empty |
| CalculatorApp.NegateIsToggle | week6/calculator.py:204-211 | the GUI's negate rewrites the display like the engine's toggle sign |
| CalculatorApp.Calculated | week6/calculator.py:253-289 | an exception escapes exactly when both operands parse and the operator is none of the four; without a pending operation nothing changes; with a known operator the result is that of the engine's equals |
| CalculatorApp.OperationApplied | week6/calculator.py:183-190 | the press raises exactly when its pending calculation does; otherwise the new operator is pending and the next digit starts a new number; the first operand is stored; a chained operator first computes the pending one |
| CalculatorApp.DivideByZeroKeepsPending | week6/calculator.py:270-274 | division by zero shows the error text and keeps the pending operation |
| CalculatorApp.CalculateSucceeds | week6/calculator.py:276-285 | a successful calculation shows the formatted result, stores it and clears the operator |
| CalculatorApp.UnknownOperatorDiffers | week6/calculator.py:264-281 | with an unknown operator the GUI's calculation raises, and so does an operator press that must calculate first, while the engine would show the second operand |
| CalculatorApp.CalculatorApp.constructor | week6/calculator.py:80-83 | the calculator starts at display "0" with nothing pending |
| CalculatorApp.CalculatorApp.NumberPressed | week6/calculator.py:159-171 | a digit is handled like the engine's input number |
| CalculatorApp.CalculatorApp.DecimalPressed | week6/calculator.py:173-181 | a point is handled like the engine's decimal input |
| CalculatorApp.CalculatorApp.OperationPressed | week6/calculator.py:183-190 | it reports whether an exception escaped; the state becomes that of `OperationApplied`, or stays as it was when the press raised |
| CalculatorApp.CalculatorApp.ClearAll | week6/calculator.py:196-202 | back to the initial state |
| CalculatorApp.CalculatorApp.Negate | week6/calculator.py:204-211 | the display's sign is toggled |
| CalculatorApp.CalculatorApp.Calculate | week6/calculator.py:253-289 | it reports whether an exception escaped; the state becomes that of `Calculated`, or stays as it was when it raised |
| Calculator.DotsAppend | week7/calculator.py:57-62 | counting the points of a concatenation adds up |
| Calculator.Divide | week7/calculator.py:29-32 | division fails exactly on a zero divisor, and otherwise the quotient times b is a |
| Calculator.Apply | week7/calculator.py:79-88 | only ÷ by zero fails; an unknown operator gives the second operand |
| Calculator.ApplyInverses | week7/calculator.py:20-32 | subtracting b undoes adding it, and dividing by a non-zero b undoes multiplying by it |
| Calculator.EqualComputes | week7/calculator.py:79-99 | with both operands parsed, equals stores the sum, difference, product or (for a non-zero divisor) quotient |
| Calculator.ToggleSign | week7/calculator.py:34-38 | "0" is kept; otherwise a leading minus is removed or added |
| Calculator.ToggleTwice | week7/calculator.py:34-38 | toggling twice restores the display exactly when it is not "-0" and does not start with "--" |
| Calculator.CalcState.InputNumber | week7/calculator.py:47-55 | the operands are kept; a fresh display takes the digit; a shorter display gets it appended; a full display of nine characters ignores it |
| Calculator.CalcState.InputDecimal | week7/calculator.py:57-62 | the display then holds a point and the operands are kept; a fresh display becomes "0."; a display without a point gets one appended; a second point is ignored |
| Calculator.CalcState.Toggle | week7/calculator.py:34-38 | only the display changes |
| Calculator.CalcState.Equal | week7/calculator.py:71-102 | without a pending operation nothing changes; otherwise the display shows the error text or the result is computed and stored |
| Calculator.CalcState.SetOperation | week7/calculator.py:64-69 | the operator is pending and the next digit starts a new number; with nothing to chain, the display is stored as the first operand |
| Calculator.DecimalIdempotent | week7/calculator.py:57-62 | pressing the point twice is pressing it once |
| Calculator.KeypadKeepsOneDot | week7/calculator.py:47-62 | digits, the point and the sign key never give the display a second point |
| Calculator.TypedNumber | week7/calculator.py:47-55 | on a fresh display, up to nine keys not starting with 0 show exactly the keys typed |
| Calculator.DigitCap | week7/calculator.py:54-55 | a digit key never makes a display of at most nine characters longer than nine |
| Calculator.SignAndPointPassCap | week7/calculator.py:34-62 | the cap is on digits only: the sign key and the decimal key take a nine-digit display to ten characters |
| Calculator.DivideByZeroShowsError | week7/calculator.py:29-31 | dividing by zero shows "Error" and changes nothing else |
| Calculator.EqualSucceeds | week7/calculator.py:90-99 | a good calculation shows the formatted result, stores it and clears the operator |
| Calculator.EqualRejectsOperand | week7/calculator.py:101-102 | an operand that does not parse shows "Error" |
| Calculator.ChainedOperator | week7/calculator.py:64-69 | a second operator first computes the pending operation and chains from its result |
| Calculator.Calculator.constructor | week7/calculator.py:9-18 | the engine starts at display "0" with nothing pending |
| Calculator.Calculator.Reset | week7/calculator.py:14-18 | back to the initial state |
| Calculator.Calculator.ToggleSign | week7/calculator.py:34-38 | the state becomes `Toggle` of the old state |
| Calculator.Calculator.InputNumber | week7/calculator.py:47-55 | the state becomes `InputNumber` of the old state |
| Calculator.Calculator.InputDecimal | week7/calculator.py:57-62 | the state becomes `InputDecimal` of the old state |
| Calculator.Calculator.SetOperation | week7/calculator.py:64-69 | the state becomes `SetOperation` of the old state |
| Calculator.Calculator.Equal | week7/calculator.py:71-102 | the state becomes `Equal` of the old state |
| DoorHacking.Symbol | week8/door_hacking.py:16 | the i-th character of `digits + ascii_lowercase` is a symbol whose index is i |
| DoorHacking.CharactersInOrder | week8/door_hacking.py:16 | the character set has 36 symbols, in `Symbol` order |
| DoorHacking.SpaceSizeValue | week8/door_hacking.py:23 | there are 36^6 = 2,176,782,336 candidates |
| DoorHacking.Numeral | week8/door_hacking.py:37-38 | the k-th tuple of `itertools.product` joined into a string of n symbols |
| DoorHacking.ValueOfNumeral | week8/door_hacking.py:37-38 | the position of the k-th candidate is k |
| DoorHacking.NumeralOfValue | week8/door_hacking.py:37-38 | every string of symbols is the candidate at its own position |
| DoorHacking.CandidateUnique | week8/door_hacking.py:37 | no candidate is tried twice |
| DoorHacking.EveryPasswordEnumerated | week8/door_hacking.py:37 | every six-symbol password is among the candidates |
| DoorHacking.Timed | week8/door_hacking.py:48-92 | an attempt counts as accepted exactly when the archive accepts it and the clock has moved since the start; a stalled clock turns an acceptance into a passed-over failure, and every other attempt is unchanged |
| DoorHacking.Search | week8/door_hacking.py:37-92 | the position found is accepted and no earlier one is; none is found only if no candidate is accepted |
| DoorHacking.UnlockZip | week8/door_hacking.py:7-107 | the loop returns the first candidate accepted with the clock moved, and counts its attempts; it returns `None` for an unopenable archive, and after trying all 36^6 candidates when none gets through |
| DoorHacking.UnlockedIsFirst | week8/door_hacking.py:37-96 | the password returned is accepted with the clock moved, and every earlier candidate is refused or was accepted with the clock stalled; `None` means every six-symbol password is refused or accepted with the clock stalled |
| DoorHacking.StalledPasswordMissed | week8/door_hacking.py:48-92 | when the only accepted password is read before the clock moves, the division by zero in its report makes the full search return `None` |
| DoorHacking.PatternPhase | week8/door_hacking.py:137-157 | a pattern found is six characters long, listed and accepted; an exhausted phase rejected every six-character pattern |
| DoorHacking.PatternPhaseAppend | week8/door_hacking.py:137-157 | after an exhausted block, the phase goes on with the next patterns |
| DoorHacking.PatternPhaseStops | week8/door_hacking.py:149-154 | the phase stops at its first accepted or failing pattern |
| DoorHacking.UnlockZipOptimized | week8/door_hacking.py:110-165 | the common patterns are tried in group order; the first accepted one is returned once its file is written; without a success, or when that file cannot be written, it falls back to `unlock_zip` |
| DoorHacking.ResultsAccepted | week8/door_hacking.py:85-154 | any password either search returns is accepted by the archive |
| DoorHacking.UnsavedFallsBack | week8/door_hacking.py:152-165 | when the password file cannot be written, the optimised search returns what the full search returns |
| DoorHacking.OptimizedAgrees | week8/door_hacking.py:110-165 | for an archive with one six-symbol password and a clock that has moved when it is found, both searches return it, whether or not the password file can be written |
| DoorHacking.SearchFinds | week8/door_hacking.py:37-85 | an accepted candidate means the search finds something |
| Caesar.Letter | week9/main.py:6 | the p-th letter is a capital |
| Caesar.Position | week9/main.py:20 | a capital's position names it back |
| Caesar.LetterPosition | week9/main.py:20 | letters and positions are inverse |
| Caesar.InAlphabet | week9/main.py:18-20 | a character is in the alphabet exactly when it is a capital, and `index` finds its position |
| Caesar.DecodeChar | week9/main.py:17-26 | a capital moves back by the shift, modulo 26; any other character is kept |
| Caesar.EncodeChar | week9/main.py:17-26 | the forward shift that partners decoding |
| Caesar.Decoded | week9/main.py:15-27 | the decoded text has the length of the input |
| Caesar.DecodeAll | week9/main.py:1-32 | one result per shift 0 to 25, each the input decoded with that shift |
| Caesar.DecodeOne | week9/main.py:18-26 | the alphabet lookup computes `DecodeChar` |
| Caesar.DecodeEncodeChar | week9/main.py:17-26 | decoding an encoded character gives it back |
| Caesar.EncodeDecodeChar | week9/main.py:17-26 | encoding a decoded character gives it back |
| Caesar.DecodeEncoded | week9/main.py:14-28 | decoding an encoded text gives the upper-cased text |
| Caesar.EncodeDecoded | week9/main.py:14-28 | encoding a decoded text gives the upper-cased text |
| Caesar.ShiftedIsUpper | week9/main.py:17 | decoded text is already upper case |
| Caesar.DecodeShiftZero | week9/main.py:22 | shift 0 only upper-cases the text |
| Caesar.DecodedKeepsLayout | week9/main.py:24-26 | letters stay letters and every other character stays in place |
| Caesar.Cleaned | week9/main.py:64 | commas and points become spaces and nothing else changes |
| Caesar.CheckMeaningfulWords | week9/main.py:49-71 | the words found are the words of the cleaned text, in their own case and order, whose upper-case form is in the word list |
| Caesar.KeepMatching | week9/main.py:67-69 | the word loop keeps exactly the matching words, in order |
| Caesar.MeaningfulWordsSpec | week9/main.py:64-71 | a word is reported exactly when it is a word of the cleaned text whose upper-case form is a common word, in text order |
| Caesar.FoundWordsAreClean | week9/main.py:64 | every word found is non-empty and has no space, comma or point |
| Recordings.DaysInMonth | week10/javis.py:145 | months have 28 to 31 days |
| Recordings.BeforeIsStrictOrder | week10/javis.py:148-163 | date order is a strict total order |
| Recordings.Pad2 | week10/javis.py:38 | two digits whose value is n |
| Recordings.Pad4 | week10/javis.py:38 | four digits whose value is the year |
| Recordings.ParseYmd | week10/javis.py:145 | `strptime(s, '%Y%m%d')` gives only valid dates |
| Recordings.ParseDateDigits | week10/javis.py:38-145 | the eight digits `strftime` writes parse back as the date |
| Recordings.ParseEightDigits | week10/javis.py:145 | eight digits parse as a date exactly when they are that date's `%Y%m%d` |
| Recordings.SevenCharacterDate | week10/javis.py:145 | `strptime` also accepts a one-digit month: "2024110" is 10 January 2024 |
| Recordings.SpacePaddedDay | week10/javis.py:145 | `strptime` also accepts a space-padded day: "20241 5" is 5 January 2024 |
| Recordings.RecordingNameDate | week10/javis.py:35-39 | a recording's name ends in ".wav" and its text before the first "-" parses back as the day it was made |
| Recordings.Admit | week10/javis.py:141-157 | a name is listed exactly when it ends in ".wav", its date parses and the date lies in the window |
| Recordings.ByDateTotal | week10/javis.py:163 | date order is a total preorder |
| Recordings.ListRecordingsByDate | week10/javis.py:133-164 | no directory gives `[]`; otherwise the admitted entries sorted by date |
| Recordings.CollectedMembers | week10/javis.py:140-157 | an entry is collected exactly when some listed name admits it |
| Recordings.ListingSpec | week10/javis.py:140-164 | the list is sorted by date, holds exactly the admitted entries, and same-day entries keep directory order |
| Recordings.RecordingListed | week10/javis.py:35-164 | a recording the recorder made is listed exactly when its day is in the window |
| Recordings.ListedInWindow | week10/javis.py:141-151 | every listed entry is a ".wav" file dated within the window |
| ChatServer.NameOf | 2nd_semester/1week/server.py:17 | a connection has a name exactly when it is registered |
| ChatServer.FindConn | 2nd_semester/1week/server.py:99-104 | the connection found is registered under exactly that name; `None` means nobody has it |
| ChatServer.BroadcastTo | 2nd_semester/1week/server.py:106-118 | a broadcast pass only removes clients, closes connections and appends to the log |
| ChatServer.BroadcastAll | 2nd_semester/1week/server.py:106-118 | the same for a broadcast to the whole registry |
| ChatServer.Removal | 2nd_semester/1week/server.py:120-130 | afterwards the connection is unregistered and closed |
| ChatServer.RemoveWritesLeaveLines | 2nd_semester/1week/server.py:120-130 | removal writes nothing but leave notices |
| ChatServer.BroadcastLeaveLines | 2nd_semester/1week/server.py:112-130 | a leave-notice broadcast, with the removals it causes, writes only leave notices |
| ChatServer.StaysUnregistered | 2nd_semester/1week/server.py:120-124 | an unregistered connection does not come back |
| ChatServer.BroadcastToSnapshot | 2nd_semester/1week/server.py:108-115 | the message is written exactly once to every connection of the snapshot, in snapshot order |
| ChatServer.BroadcastDropsFailed | 2nd_semester/1week/server.py:114-118 | every target whose write failed is unregistered when the pass ends |
| ChatServer.FirstFailedDropped | 2nd_semester/1week/server.py:114-118 | a first target whose write fails ends unregistered |
| ChatServer.BroadcastOtherWritesAreLeaves | 2nd_semester/1week/server.py:112-130 | every other write of a pass is a leave notice |
| ChatServer.RemoveUnregistered | 2nd_semester/1week/server.py:120-128 | removing an unregistered connection only closes it |
| ChatServer.RemoveTwice | 2nd_semester/1week/server.py:120-130 | `remove_client` is idempotent |
| ChatServer.RemoveAnnouncesOnlyNamed | 2nd_semester/1week/server.py:121-130 | a removal without a non-empty name writes nothing |
| ChatServer.SendOrEnd | 2nd_semester/1week/server.py:61 | a write to the session's own connection is logged and succeeds exactly when the connection is open and the write goes through |
| ChatServer.WhisperStep | 2nd_semester/1week/server.py:78-97 | a whisper only appends to the log and changes neither registry nor closed set |
| ChatServer.WhisperTo | 2nd_semester/1week/server.py:91-97 | the same for a whisper to a client that was found |
| ChatServer.Read | 2nd_semester/1week/server.py:55-57 | data is the next non-empty chunk; a connection the server closed reads as a reset |
| ChatServer.Classify | 2nd_semester/1week/server.py:59-67 | quit exactly on the keyword; whisper exactly on the "/w " prefix otherwise |
| ChatServer.SessionLoop | 2nd_semester/1week/server.py:54-70 | the loop only appends to the log |
| ChatServer.SessionRun | 2nd_semester/1week/server.py:38-76 | after a session, its connection is unregistered and closed, and the log starts with the name prompt |
| ChatServer.UndecodableIsReset | 2nd_semester/1week/server.py:54-76 | bytes that are not UTF-8 end the loop at once, and end a session exactly as a reset does |
| ChatServer.Joined | 2nd_semester/1week/server.py:47-76 | after the join, the join broadcast is in the log and the connection ends unregistered and closed |
| ChatServer.ShutdownState | 2nd_semester/1week/server.py:132-144 | shutdown empties the registry, closes every registered connection and sends nothing |
| ChatServer.RegisterSpec | 2nd_semester/1week/server.py:47-48 | registering sets the connection's name, keeps every other name, and adds at most one entry |
| ChatServer.RegistryKeysStayUnique | 2nd_semester/1week/server.py:17 | registering and popping keep the registry's keys unique, as a dict's keys are |
| ChatServer.WhisperParts | 2nd_semester/1week/server.py:79-84 | a three-part split gives a target without spaces, and the parts rejoin as the line |
| ChatServer.SplitWhisper | 2nd_semester/1week/server.py:79-84 | "/w target message" splits back into its target and its verbatim message |
| ChatServer.WhisperRoutes | 2nd_semester/1week/server.py:84-97 | the whisper goes to the target, then the confirmation to the sender; a failed write is reported to the sender |
| ChatServer.WhisperWritesOnlyPair | 2nd_semester/1week/server.py:78-97 | a whisper writes only to the sender and the client found; a bad line or an unknown name gets one reply |
| ChatServer.SessionWithoutName | 2nd_semester/1week/server.py:40-44 | a session that gets no name registers nothing and sends only the prompt |
| ChatServer.BroadcastReachesAll | 2nd_semester/1week/server.py:106-115 | a broadcast is offered to every connection registered when it starts |
| ChatServer.SessionJoinStep | 2nd_semester/1week/server.py:45-50 | the stripped name is registered and the join notice is broadcast to the new registry |
| ChatServer.SessionAnnouncesJoin | 2nd_semester/1week/server.py:47-50 | the join notice reaches every client registered before, and the newcomer |
| ChatServer.QuitEndsLoop | 2nd_semester/1week/server.py:60-62 | the quit keyword ends the loop after the closing notice, whatever follows |
| ChatServer.ChatServer.constructor | 2nd_semester/1week/server.py:10-18 | no clients, nothing closed, nothing written |
| ChatServer.ChatServer.Send | 2nd_semester/1week/server.py:115 | a `sendall` is logged with its outcome |
| ChatServer.ChatServer.FindConnByUsername | 2nd_semester/1week/server.py:99-104 | the scan in insertion order computes `FindConn` |
| ChatServer.ChatServer.RemoveClient | 2nd_semester/1week/server.py:120-130 | the state becomes `Removal` |
| ChatServer.ChatServer.Broadcast | 2nd_semester/1week/server.py:106-118 | the state becomes `BroadcastAll` |
| ChatServer.ChatServer.HandleWhisper | 2nd_semester/1week/server.py:78-97 | the state becomes `WhisperStep` |
| ChatServer.ChatServer.ServeLines | 2nd_semester/1week/server.py:54-70 | the state becomes `SessionLoop` |
| ChatServer.ChatServer.HandleClient | 2nd_semester/1week/server.py:38-76 | the state becomes `SessionRun` |
| ChatServer.ChatServer.Shutdown | 2nd_semester/1week/server.py:132-144 | the state becomes `ShutdownState` |
| Headlines.Href | 2nd_semester/week3/crawling_KBS.py:55 | there is no href when no attribute is named "href" |
| Headlines.HrefIsLast | 2nd_semester/week3/crawling_KBS.py:55 | `dict(attrs)` keeps the last "href" attribute |
| Headlines.LooksLikeArticle | 2nd_semester/week3/crawling_KBS.py:47-51 | a missing or empty href is never an article; otherwise the link patterns decide |
| Headlines.CollapseSpaces | 2nd_semester/week3/crawling_KBS.py:68 | every whitespace run becomes one space, and the result is empty only for empty text |
| Headlines.CollapseKeepsText | 2nd_semester/week3/crawling_KBS.py:68 | collapsing whitespace keeps every other character, in order |
| Headlines.OnStartTag | 2nd_semester/week3/crawling_KBS.py:53-59 | an article anchor starts a capture with an empty buffer and its absolute href, and raises exactly when `urljoin` rejects that href; any other tag changes nothing |
| Headlines.OnData | 2nd_semester/week3/crawling_KBS.py:61-63 | while capturing, non-empty text is appended to the buffer; otherwise nothing changes |
| Headlines.OnEndTag | 2nd_semester/week3/crawling_KBS.py:65-73 | closing a captured anchor adds at most one headline, and only when its text is non-empty |
| Headlines.RunSpec | 2nd_semester/week3/crawling_KBS.py:53-73 | a feed that does not raise only appends headlines, at most one per event |
| Headlines.RunRaises | 2nd_semester/week3/crawling_KBS.py:53-59 | the feed raises exactly when some article anchor has an href that `urljoin` rejects |
| Headlines.HeadlineParser.constructor | 2nd_semester/week3/crawling_KBS.py:39-45 | no capture, empty buffer, no items |
| Headlines.HeadlineParser.HandleStartTag | 2nd_semester/week3/crawling_KBS.py:53-59 | the state becomes `OnStartTag`; when `urljoin` raises, the capture flag and the emptied buffer are already set and the href is unchanged |
| Headlines.HeadlineParser.HandleData | 2nd_semester/week3/crawling_KBS.py:61-63 | the state becomes `OnData` |
| Headlines.HeadlineParser.HandleEndTag | 2nd_semester/week3/crawling_KBS.py:65-73 | the state becomes `OnEndTag` |
| Headlines.Dedup | 2nd_semester/week3/crawling_KBS.py:83-93 | the same elements as the input, no more of them |
| Headlines.DedupSpec | 2nd_semester/week3/crawling_KBS.py:83-93 | no duplicates, in first-seen order |
| Headlines.DedupHas | 2nd_semester/week3/crawling_KBS.py:83-93 | an element is kept exactly when it occurs |
| Headlines.UniqueKeepOrder | 2nd_semester/week3/crawling_KBS.py:83-93 | the loop with its seen set computes `UniqueLong` |
| Headlines.UniqueLongSpec | 2nd_semester/week3/crawling_KBS.py:83-93 | the result has no duplicates and only titles of six characters or more; it keeps every such pair, in order |
| Headlines.TakePrefix | 2nd_semester/week3/crawling_KBS.py:109 | `items[:n]` is a prefix whose length Python's slice rules give, for negative n too |
| Headlines.GetHeadlines | 2nd_semester/week3/crawling_KBS.py:96-114 | the page loop computes `HeadlinesFrom` over the two candidate pages: a page that fails to load, or whose parse raises, is skipped |
| Headlines.HeadlinesSpec | 2nd_semester/week3/crawling_KBS.py:96-114 | at most `max_items` headlines when it is not negative, no duplicates, and every title at least six characters long |
| RequestLog.SumUpdate | 2nd_semester/week2/server.py:73-78 | updating one counter changes the sum by the difference |
| RequestLog.Counters.constructor | 2nd_semester/week2/server.py:25-26 | the counters start at zero with no addresses |
| RequestLog.Counters.Count | 2nd_semester/week2/server.py:73-78 | one request adds one to the total and to its address's count; the total stays the sum of the per-address counts |
| RequestLog.CountOthersUnchanged | 2nd_semester/week2/server.py:76-77 | other addresses' counts are unchanged |
| RequestLog.CountAllSum | 2nd_semester/week2/server.py:25-26 | after counting any sequence of requests, the per-address counts add up to the number of requests |
| RequestLog.ClientIp | 2nd_semester/week2/server.py:70 | a missing client address is logged as "-" |
| RequestLog.RewritePath | 2nd_semester/week2/server.py:101-104 | the path is kept unless it is empty or "/", which become "/index.html" |
| RequestLog.RewritePathIdempotent | 2nd_semester/week2/server.py:101-104 | rewriting twice is rewriting once |
| RequestLog.Handler.DoGet | 2nd_semester/week2/server.py:101-104 | the handler's path is rewritten |
| RequestLog.FetchGeoEmpty | 2nd_semester/week2/server.py:33-48 | the location text is empty exactly when there is no reply, the status is not "success", or all three fields are empty |
| RequestLog.FetchGeoFull | 2nd_semester/week2/server.py:42-48 | with all three fields, the text is "country / region / city" |
| RequestLog.FetchGeoCityOnly | 2nd_semester/week2/server.py:42-48 | empty fields are left out of the text |
| RequestLog.LoggedGeo | 2nd_semester/week2/server.py:81-84 | loopback addresses and a disabled lookup log no location |
| RequestLog.SizeText | 2nd_semester/week2/server.py:85-86 | an integer size is its decimal text followed by "B" |
| RequestLog.MessageShape | 2nd_semester/week2/server.py:87-91 | the log line starts with its head and ends with the location tag, or with "]" when there is no location |
| RequestLog.AnalyticsRow | 2nd_semester/week2/server.py:93-99 | six cells, with the client address second and the location last |
| RequestLog.Handler.LogRequest | 2nd_semester/week2/server.py:68-99 | the counters are updated, and the message and CSV row are built from the address, the counts and the location |
| RequestLog.ShippedWithoutGeo | 2nd_semester/week2/server.py:81-84 | as shipped, with the lookup disabled, no request logs a location |

## Left out

- Files, directories, sockets, the clock, the microphone, `print`, `input` and `time.sleep` are not modelled as effects. Their contents and outcomes are parameters: the lines of a log, `SettingsFile`, a directory listing, a `Moment`, the chunks a peer sends, and a write oracle.
- Float arithmetic is modelled on exact reals.
  - The float text of the calculators (`str`, `round(result, 6)`, integer display) is the `format` parameter.
  - Parsing the display is the `parse` parameter.
  - Float32 packing in the inventory file is the `pack` parameter; `struct`'s native byte order is taken as little-endian.
- The `percent`/`percentage` keys and the display-formatting functions `get_display` and `update_display` of both calculators are not modelled, because they only format floats.
- `CalculatorApp.Calculated`: an unknown operator leaves `result` unassigned, and the `UnboundLocalError` escapes the handler before any field is assigned. The model reports this as `Raised` and keeps the state; what the Qt event loop then does with the escaped exception is not modelled.
- Case mapping (`upper`, `lower`) covers ASCII letters only; other characters are kept.
- `Recordings.ParseYmd` recognises ASCII digits only. The year is taken as exactly four digits, as `strftime('%Y')` writes for years from 1000 on.
- `os.path.join` is modelled as joining with "/".
- `os.listdir`'s order is a parameter.
- The HTML tokenizer, the link-pattern regexes, `urljoin` and `html.unescape` of the scraper are parameters, the `Library` value. `urljoin` may fail, as Python's raises `ValueError` on a malformed address. The page download is an oracle that may fail. Exceptions from `html.unescape` and from the tokenizer itself are not modelled.
- `RequestLog.LoggedGeo`: the network lookup is a parameter, and any exception in `fetch_geo` is folded into "no reply".
- `RequestLog.Handler.LogRequest`: a failure while writing the CSV row only prints a warning, so it is not modelled. CSV quoting is not modelled either.
- `RequestLog.SizeText`: `isinstance(size, int)` is also true for `bool`; the model's `Arg` has only integers and text.
- `do_HEAD` and the static file serving of the HTTP server are library code and are not modelled.
- The chat server's threads and lock are not modelled; each session is a sequential run over the shared state. `start()` and `client.py` are not part of this model.
- `DoorHacking.UnlockZip`: the archive is an oracle that accepts, rejects or fails each attempt. The clock enters only as `stalled`, which says whether no time has passed when a password opens the archive. The progress printing, the elapsed-time figures and the writing of `password.txt` are left out.
- `MissionComputer`: the random sensor values, the JSON printing, the five-minute timing and the stop-input thread are left out. `MissionComputer.Monitor.RecordTick` requires every reading to name a sensor with a history; otherwise the source raises `KeyError`.
- `Caesar`: the interactive `main` and `save_result_to_file` are left out; they only do input and file output.
- `LogTools`: reading the log file, printing and writing the output file are left out; the model gives the lines to be written.
