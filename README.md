# ScoreSync in Dafny

ScoreSync bridges a scoreboard controller to a TCP endpoint.

- **Reading.** It reads frames from a serial port. STX (0x02) opens a frame, and ETX (0x03) ends the read.
- **Decoding.** It matches each frame against two fixed-width patterns, tried in this order:
  - `F`: the full scoreboard frame, 33 characters;
  - `C`: the clock frame, 9 characters.
- **State.** The handler of the first pattern that matches writes the normalised scoreboard state, the class `ScoreboardOCRData`.
- **Sending.** The state is serialised into an `ocr` JSON document. The document is sent over a fresh TCP connection, but only when it differs from the last document delivered.

The model has six modules, following the program's structure:

| file | module | what it holds |
|---|---|---|
| `wrappers.dfy` | `Wrappers` | `Option` |
| `dotnet_text.dfy` | `DotNetText` | the two .NET string services the state relies on: `String.Trim()` (over `char.IsWhiteSpace`), and `int.TryParse` under `NumberStyles.Integer` with the 32-bit range |
| `scoreboard_data.dfy` | `ScoreboardData` | `checkNumericValue`; the thirteen backing fields as a value (`Fields`) and as the class `ScoreboardOCRData` with its property getters and setters; the seventeen property values the serializer sees; the JSON envelope |
| `layouts.dfy` | `Layouts` | the two patterns as `Regex.Match` applies them (unanchored, leftmost match, `.` matching anything but a line feed); the capture groups at fixed offsets; the two handlers as functions on `Fields`; first-match dispatch over the table `[F, C]` |
| `frame_reader.dfy` | `FrameReader` | `ReadData` as a loop over the bytes the port delivers, proved against a reference function `Read` |
| `bridge.dfy` | `Bridge` | the class `Program`, holding the scoreboard object and `LastSentJson`; its methods cover the handlers, `TransformToScoreboardData`, `SendJsonData`, one turn of the main loop and the loop itself, with the value-level specifications they are proved against |

Each imperative piece of the source is a method. Each method is proved equal to a function of its inputs and its old state:

- `ReadData` equals `Read`;
- `TransformToScoreboardData` equals `Dispatch`;
- `SendJsonData` equals `Gate`;
- the main loop equals `Run`.

The properties of the program are proved as lemmas about those functions.

### Where the code and the design description differ

The model follows the code in each case below.

- **Numeric sub-fields are not trimmed before coercion.** `checkNumericValue` returns its input unchanged, surrounding white space included, whenever `int.TryParse` accepts it (`ScoreboardData.CheckNumericValueKeepsText`).
- **The clock text is always `d0d1:d2d3.d4`.** That is seven characters with a tenths digit. There is no `MM:SS` variant.
- **There is no "no-op" or "disable publishing" transport target.** Every changed document is attempted.

## Model

| member | source | states |
|---|---|---|
| DotNetText.Trim | ScoreboardOCRData.cs:60 | `String.Trim()`: the result has no white space at either end; it is empty exactly when the input is all white space; and it is the input with exactly its leading and trailing white space removed |
| DotNetText.TrimUnique | ScoreboardOCRData.cs:60 | trimming white space + a trimmed middle + white space yields exactly that middle |
| DotNetText.TrimOfTrimmed | ScoreboardOCRData.cs:60 | a string with no white space at either end is its own trim |
| DotNetText.TrimIdempotent | ScoreboardOCRData.cs:60 | trimming twice is trimming once |
| DotNetText.TryParseInt32 | ScoreboardOCRData.cs:251 | `int.TryParse` succeeds only on optional white space, an optional sign, one or more digits and optional white space, with a value in the 32-bit range, and it returns that value |
| DotNetText.TryParseComplete | ScoreboardOCRData.cs:251 | converse: every such text parses, to its value, exactly when the value is in range |
| DotNetText.ScannedHasDigit | ScoreboardOCRData.cs:251 | text that `int.TryParse` reads as an integer holds a digit, so it is not all white space |
| DotNetText.WhiteSpaceNotParsable | ScoreboardOCRData.cs:247-251 | a blank string never parses, so the blank test in `checkNumericValue` agrees with `TryParse` |
| ScoreboardData.CheckNumericValue | ScoreboardOCRData.cs:243-257 | the result always parses; an input that parses is returned unchanged; `null` and anything that does not parse give `"0"` |
| ScoreboardData.CheckNumericValueKeepsText | ScoreboardOCRData.cs:251-256 | text that parses is stored untrimmed, padding and sign included |
| ScoreboardData.ShotClockText | ScoreboardOCRData.cs:54-61 | the `ShotClock` setter's value: it never has white space at either end, and a value without such white space is stored as it is |
| ScoreboardData.CheckNumericValueBlank | ScoreboardOCRData.cs:247-250 | an empty or white-space-only value gives `"0"` |
| ScoreboardData.CheckNumericValueIdempotent | ScoreboardOCRData.cs:243-257 | coercing twice is coercing once |
| ScoreboardData.DefaultsSatisfyInvariant | ScoreboardOCRData.cs:221-233 | the field initialisers satisfy the numeric invariant |
| ScoreboardData.HomeFlag | ScoreboardOCRData.cs:206-219 | `PossessionHome` is `"1"` exactly when the code is `"H"`, and `""` otherwise |
| ScoreboardData.AwayFlag | ScoreboardOCRData.cs:192-205 | `PossessionAway` is `"1"` exactly when the code is `"V"`, and `""` otherwise |
| ScoreboardData.FlagsExclusive | ScoreboardOCRData.cs:192-219 | the two possession flags are never both `"1"` |
| ScoreboardData.PropertyValues | ScoreboardOCRData.cs:13-219 | the seventeen public property values in declaration order, which is what the serializer sees; `Quarter` repeats `Period`, `PlayClock` repeats `ShotClock`, and the two possession flags are never both `"1"` |
| ScoreboardData.PropertyValuesInjective | ScoreboardOCRData.cs:13-219 | the seventeen property values the serializer sees determine all thirteen fields |
| ScoreboardData.JsonValues | ScoreboardOCRData.cs:238 | a document it accepts is exactly the `ocr` envelope around the returned values text |
| ScoreboardData.JsonDocument | ScoreboardOCRData.cs:237-238 | the document is the `ocr` envelope around the serialization of the property values: unwrapping it gives that serialization back |
| ScoreboardData.JsonDocumentDetectsChange | ScoreboardOCRData.cs:235-241 | with a serializer that tells values apart, two documents are equal exactly when the states are |
| ScoreboardData.ScoreboardOCRData.constructor | ScoreboardOCRData.cs:221-233 | a new object holds the defaults and satisfies the invariant (every coerced field parses, and the shot clock is trimmed) |
| ScoreboardData.ScoreboardOCRData.GameClock | ScoreboardOCRData.cs:15-18 | returns the `gameClock` field |
| ScoreboardData.ScoreboardOCRData.ShotClock | ScoreboardOCRData.cs:48-51 | on a valid object, the shot clock has no white space at either end |
| ScoreboardData.ScoreboardOCRData.Possession | ScoreboardOCRData.cs:183-186 | returns the `possession` field |
| ScoreboardData.ScoreboardOCRData.ToJson | ScoreboardOCRData.cs:235-241 | unwrapping the document gives back the serialization of the object's seventeen property values |
| ScoreboardData.ScoreboardOCRData.Period | ScoreboardOCRData.cs:24-29 | the getter of a valid object returns parsable text |
| ScoreboardData.ScoreboardOCRData.Quarter | ScoreboardOCRData.cs:35-40 | `Quarter` reads the field `Period` reads |
| ScoreboardData.ScoreboardOCRData.PlayClock | ScoreboardOCRData.cs:64-69 | `PlayClock` reads the field `ShotClock` reads |
| ScoreboardData.ScoreboardOCRData.ScoreAway | ScoreboardOCRData.cs:82-87 | the getter of a valid object returns parsable text |
| ScoreboardData.ScoreboardOCRData.ScoreHome | ScoreboardOCRData.cs:93-98 | the getter of a valid object returns parsable text |
| ScoreboardData.ScoreboardOCRData.FoulsAway | ScoreboardOCRData.cs:104-109 | the getter of a valid object returns parsable text |
| ScoreboardData.ScoreboardOCRData.FoulsHome | ScoreboardOCRData.cs:115-120 | the getter of a valid object returns parsable text |
| ScoreboardData.ScoreboardOCRData.TimeoutsAway | ScoreboardOCRData.cs:126-131 | the getter of a valid object returns parsable text |
| ScoreboardData.ScoreboardOCRData.TimeoutsHome | ScoreboardOCRData.cs:137-142 | the getter of a valid object returns parsable text |
| ScoreboardData.ScoreboardOCRData.Downs | ScoreboardOCRData.cs:148-153 | the getter of a valid object returns parsable text |
| ScoreboardData.ScoreboardOCRData.Yards | ScoreboardOCRData.cs:159-164 | the getter of a valid object returns parsable text |
| ScoreboardData.ScoreboardOCRData.LOS | ScoreboardOCRData.cs:170-175 | the getter of a valid object returns parsable text |
| ScoreboardData.ScoreboardOCRData.PossessionAway | ScoreboardOCRData.cs:192-205 | `"1"` exactly when `Possession` is `"V"`, otherwise `""` |
| ScoreboardData.ScoreboardOCRData.PossessionHome | ScoreboardOCRData.cs:206-219 | `"1"` exactly when `Possession` is `"H"`, otherwise `""` |
| ScoreboardData.ScoreboardOCRData.SetGameClock | ScoreboardOCRData.cs:19-22 | stores the text verbatim in `gameClock`; no other field changes; the invariant is kept |
| ScoreboardData.ScoreboardOCRData.SetPeriod | ScoreboardOCRData.cs:30-33 | stores the coerced value in `period`; no other field changes; the invariant is kept |
| ScoreboardData.ScoreboardOCRData.SetQuarter | ScoreboardOCRData.cs:41-44 | writes the same field as `SetPeriod`, in the same way |
| ScoreboardData.ScoreboardOCRData.SetShotClock | ScoreboardOCRData.cs:52-62 | stores `""` for `null` and otherwise the trimmed value, without coercion; no other field changes; the invariant, trimmed shot clock included, is kept |
| ScoreboardData.ScoreboardOCRData.SetPlayClock | ScoreboardOCRData.cs:70-80 | writes the same field as `SetShotClock`, in the same way |
| ScoreboardData.ScoreboardOCRData.SetScoreAway | ScoreboardOCRData.cs:88-91 | stores the coerced value in `scoreAway` only; the invariant is kept |
| ScoreboardData.ScoreboardOCRData.SetScoreHome | ScoreboardOCRData.cs:99-102 | stores the coerced value in `scoreHome` only; the invariant is kept |
| ScoreboardData.ScoreboardOCRData.SetFoulsAway | ScoreboardOCRData.cs:110-113 | stores the coerced value in `foulsAway` only; the invariant is kept |
| ScoreboardData.ScoreboardOCRData.SetFoulsHome | ScoreboardOCRData.cs:121-124 | stores the coerced value in `foulsHome` only; the invariant is kept |
| ScoreboardData.ScoreboardOCRData.SetTimeoutsAway | ScoreboardOCRData.cs:132-135 | stores the coerced value in `timeoutsAway` only; the invariant is kept |
| ScoreboardData.ScoreboardOCRData.SetTimeoutsHome | ScoreboardOCRData.cs:143-146 | stores the coerced value in `timeoutsHome` only; the invariant is kept |
| ScoreboardData.ScoreboardOCRData.SetDowns | ScoreboardOCRData.cs:154-157 | stores the coerced value in `down` only; the invariant is kept |
| ScoreboardData.ScoreboardOCRData.SetYards | ScoreboardOCRData.cs:165-168 | stores the coerced value in `toGo` only; the invariant is kept |
| ScoreboardData.ScoreboardOCRData.SetLOS | ScoreboardOCRData.cs:176-179 | stores the coerced value in `ballOn` only; the invariant is kept |
| ScoreboardData.ScoreboardOCRData.SetPossession | ScoreboardOCRData.cs:187-190 | stores the code unvalidated in `possession` only |
| Layouts.Cuts | Program.cs:81 | the group offsets of each pattern: the first group starts after the tag, and consecutive offsets are one group width apart |
| Layouts.Length | Program.cs:81 | an `F` match is 33 characters and a `C` match is 9 |
| Layouts.MatchesAt | Program.cs:81-95 | the pattern of a layout matches at a position: the tag there, and the rest of the match inside the frame with no line feed in it |
| Layouts.MatchesAtChars | Program.cs:81-95 | the same, character by character: the tag, then one non-line-feed character for each `.` of the groups |
| Layouts.FindMatch | Program.cs:81 | the leftmost position from which the pattern matches, if any; no position before it matches, and `None` means no position matches |
| Layouts.Groups | Program.cs:81 | one capture group per pattern group, each exactly its declared width |
| Layouts.GroupsTileMatch | Program.cs:81 | the tag followed by the groups, in order, is exactly the matched text |
| Layouts.MatchAt | Program.cs:81 | `Groups[0]` is the whole match, followed by the capture groups, with the widths the handlers rely on |
| Layouts.RegexMatch | Program.cs:145 | `Regex.Match`: a match returned is at a matching position, and no earlier position matches |
| Layouts.RegexMatchSuccess | Program.cs:146 | `Match.Success` holds exactly when the pattern matches somewhere in the frame |
| Layouts.FormatClock | Program.cs:98 | the clock text is seven characters, with `:` at offset 2 and `.` at offset 5, and its digits are the five clock digits |
| Layouts.FormatClockInverse | Program.cs:98 | every text of that shape is the formatting of its own digits |
| Layouts.DecodeFull | Program.cs:82-92 | the `F` handler on values: `GameClock`, `Period`, `ShotClock` and both foul counts are unchanged; `Possession` is group 10 as it is; the coerced fields stay parsable |
| Layouts.DecodeClock | Program.cs:96-101 | the `C` handler on values: the ten fields other than clock, period and shot clock are unchanged; the clock text has the `d0d1:d2d3.d4` shape and its digits are group 1; the coerced fields stay parsable |
| Layouts.Decode | Program.cs:78-103 | the handler of either layout keeps every coerced field parsable |
| Layouts.FullDecodeFields | Program.cs:81-91 | the `F` handler writes these fields from these offsets: `ScoreHome` [11,13), `TimeoutsHome` [13,14), `ScoreAway` [24,26), `TimeoutsAway` [26,27), `Downs` [27,28), `Yards` [28,30), `LOS` [30,32), `Possession` [32,33); the other five fields are unchanged |
| Layouts.ClockDecodeFields | Program.cs:95-100 | the `C` handler writes `GameClock` from [1,6), `Period` from [6,7) and `ShotClock` from [7,9), trimmed; the other ten fields are unchanged |
| Layouts.FirstMatch | Program.cs:143-151 | the first table entry, from a given index on, whose pattern matches; every earlier entry fails |
| Layouts.FirstMatchOfTable | Program.cs:78-103 | the table is tried `F` first, then `C` |
| Layouts.Dispatch | Program.cs:141-154 | `TransformToScoreboardData` on values: when it reports no match, the state is unchanged; every coerced field stays parsable |
| Layouts.FirstMatchSkip | Program.cs:143-151 | an entry that does not match moves the search on |
| Layouts.DispatchAt | Program.cs:145-149 | the first entry that matches runs its handler and decides the result |
| Layouts.DispatchExhausted | Program.cs:153 | after the whole table fails, the result is `false` and the state is unchanged |
| Layouts.DispatchPrefersFull | Program.cs:141-154 | an `F` match wins even when the frame also holds a `C` match |
| Layouts.DispatchClockOtherwise | Program.cs:141-154 | the `C` handler runs only when there is no `F` match |
| Layouts.DispatchNoMatch | Program.cs:141-154 | when neither pattern matches, the result is `false` and every field is unchanged |
| Layouts.DispatchMatchedIff | Program.cs:141-154 | the result is `true` exactly when one of the patterns matches somewhere |
| Layouts.DispatchPreservesInvariant | Program.cs:84-100 | both handlers keep every coerced field parsable |
| Layouts.DispatchIdempotent | Program.cs:141-154 | dispatching the same frame twice has the effect of dispatching it once |
| FrameReader.Chars | Program.cs:129 | each byte becomes the character with the same code |
| FrameReader.IndexOf | Program.cs:122-126 | the first position holding a given byte |
| FrameReader.LastIndexOf | Program.cs:117-120 | the last position holding a given byte |
| FrameReader.FrameOf | Program.cs:108-130 | the buffer after bytes without ETX: the characters after the last STX, or empty when no frame is open; it never holds the STX character and is shorter than the bytes read |
| FrameReader.Read | Program.cs:106-139 | the read is pending exactly while no ETX has arrived; otherwise it consumes the bytes up to and including the first ETX |
| FrameReader.FrameOfSnoc | Program.cs:117-130 | one more byte: STX clears the buffer; an ordinary byte is appended inside a frame and ignored outside one |
| FrameReader.ReadData | Program.cs:106-139 | the reading loop returns exactly `Read` of the delivered bytes |
| FrameReader.ReadFrame | Program.cs:117-130 | bytes before the last STX are discarded; the bytes between it and the first ETX are returned; reading stops right after that ETX |
| FrameReader.ReadStopsAfter | Program.cs:122-126 | the first ETX ends the read |
| FrameReader.FrameAfterStx | Program.cs:117-120 | after an STX the buffer holds exactly the bytes that follow it |
| FrameReader.ReadStrayEtx | Program.cs:122-126 | an ETX before any STX ends the read with `""` |
| FrameReader.FrameHasNoMarkers | Program.cs:117-129 | a returned frame never contains the STX or ETX characters |
| Bridge.Gate | Program.cs:156-178 | a send is attempted exactly when the document differs from `LastSentJson`; `LastSentJson` becomes the document only after a delivered send, and otherwise stays |
| Bridge.GateNoResend | Program.cs:158 | a delivered document is not sent again |
| Bridge.GateRetriesAfterFailure | Program.cs:168-176 | a failed send leaves `LastSentJson` alone, so the same document is attempted on the next call |
| Bridge.HandleFrame | Program.cs:59-70 | an empty frame and an unmatched frame change nothing and send nothing; a send is attempted exactly for a non-empty, matched frame whose document differs from `LastSentJson`; `LastSentJson` becomes that document when the attempt is delivered and stays otherwise |
| Bridge.HandleFramePreserves | Program.cs:59-70 | one turn keeps the fields parsable, and `LastSentJson` is empty or a document of some state |
| Bridge.SendsExactlyOnChange | Program.cs:62-65 | with an injective serializer, a matched frame is sent exactly when it changes the state from the one last delivered |
| Bridge.RepeatedFrameIsNoOp | Program.cs:59-70 | after a delivered frame, the same frame again changes nothing and sends nothing |
| Bridge.HandleFrames | Program.cs:57-71 | the loop over a list of frames: at most one send per frame |
| Bridge.Copies | Program.cs:57-71 | `n` identical frames |
| Bridge.RepeatedFrameSentOnce | Program.cs:57-71 | a frame repeated any number of times is sent at most once, when the first attempt is delivered, and leaves the state the first copy left |
| Bridge.StableUnderRepeats | Program.cs:57-71 | a state that a frame leaves alone stays put under any number of copies of that frame |
| Bridge.RunPreserves | Program.cs:57-71 | however long the loop runs, the fields stay parsable and `LastSentJson` stays a past document |
| Bridge.Run | Program.cs:57-71 | the main loop over the delivered bytes: at most one send per byte is added to the count, and bytes with no ETX change nothing and send nothing |
| Bridge.RunStrayEtx | Program.cs:59-60 | an ETX with no open frame costs one turn and changes nothing |
| Bridge.Frames | Program.cs:59 | no frames are read from bytes without an ETX |
| Bridge.RunIsHandleFrames | Program.cs:57-71 | the loop handles the frames in the order `ReadData` returns them, and does nothing else |
| Bridge.FramesOfFrame | Program.cs:59 | a well-formed frame at the head of the bytes is the first frame read |
| Bridge.FramesOfRepeat | Program.cs:57-71 | a frame transmitted `k` times is read as `k` copies of its body |
| Bridge.RepeatedTransmissionSentOnce | Program.cs:57-71 | a scoreboard that keeps sending the same frame causes at most one TCP send, once the first attempt is delivered |
| Bridge.Program.constructor | Program.cs:16-17 | the static state starts as the defaults and `LastSentJson == ""` |
| Bridge.Program.HandleFull | Program.cs:82-92 | the `F` handler's eight setters, called in source order, leave exactly `DecodeFull` of the old fields |
| Bridge.Program.HandleClock | Program.cs:96-101 | the `C` handler's three setters leave exactly `DecodeClock` of the old fields |
| Bridge.Program.TransformToScoreboardData | Program.cs:141-154 | the loop over the handler table, with its early return, gives exactly `Dispatch`: the result flag and the new fields |
| Bridge.Program.SendJsonData | Program.cs:156-178 | the attempt and the new `LastSentJson` are exactly `Gate` of the old one |
| Bridge.Program.Iteration | Program.cs:59-70 | one turn reads exactly `Read` of the bytes; if the read is pending, nothing changes; for a frame, the new state and the send are exactly `HandleFrame` of the old state, and the run from the old state equals the run from the new state over the remaining bytes, with the turn's send counted |
| Bridge.Program.MainLoop | Program.cs:57-71 | the final state and the number of send attempts are exactly `Run` from the initial state over the delivered bytes |

## Left out

- The serial port is the finite sequence of bytes it will deliver. The port is assumed never to report end of stream: `SerialPort.ReadByte()` returning -1 would put the character U+FFFF into an open frame, and a byte value outside 0-255 is not modelled. A read that meets no ETX returns `Pending` instead of blocking, and the main loop stops there. The `OperationCanceledException` rethrow (Program.cs:132-135) is plain control flow and is not modelled.
- TCP is reduced to the outcome of each attempt: `Delivered` or `Failed`. `MainLoop` takes the set of turn numbers whose attempt fails. The connection, the stream, `WriteAsync` and `async`/`await` are not modelled. Neither is the UTF-8 encoding of the document.
- `JsonConvert.SerializeObject` is a foreign library. It is a function parameter `serialize` over the seventeen property values in declaration order. Escaping and property names are not modelled.
- `Main`'s argument parsing, the server-port check, COM port enumeration and opening, and the serial settings (Program.cs:19-56) are process plumbing.
- Console and `Debug.WriteLine` output is logging only. This includes the `|data|` line for unmatched frames and the failure messages.
- Regular expressions in general are not modelled; only the two fixed patterns are.
- The table is the list `[F, C]`. This relies on `Dictionary` enumerating two entries added to an empty dictionary in insertion order.
- DotNetText.TryParseInt32: culture-specific sign symbols are not modelled (only `+` and `-`), and neither is .NET's acceptance of trailing NUL characters.
- ScoreboardData.ScoreboardOCRData.SetGameClock: the `GameClock` setter takes a non-null string. In the source, `null.ToString()` would throw, and the handlers never pass `null`.
- ScoreboardData.ScoreboardOCRData.SetPossession: the `Possession` setter takes a non-null string, since the handlers never pass `null`.
