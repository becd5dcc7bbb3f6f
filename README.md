# Recloser setpoints — a Dafny model

`recloser_setpoints` logs in to SEL recloser controls (651R, 351R, 351RS)
over Telnet. For each line of an IP list it:

- reads the relay model from the `ID` banner and the active settings group
  from `GRO`;
- sends the `SHO` command sequence and keeps the transcript;
- cuts the CT ratio and ten protection settings out of that transcript with
  chains of `str.split` / `str.strip`;
- appends one CSV row per recloser to `output_<timestamp>.csv`, and writes
  connection problems to an error log.

This project models that logic and proves what it does.

- `PyStr` gives Python's `str.split(m)[i]`, `str.strip()`,
  `str.replace(c, r)` for one character, and `str(n)`.
- `Numbers` parses a restricted decimal grammar for `int(float(t))` and
  `float(t)`, with exact arithmetic (see "## Left out").
- `Markers` defines extraction chains (sequences of `split(m)[0]`,
  `split(m)[1]` and `strip()` steps), their meaning, and when they raise.
- `Setpoints` holds the three firmware families' marker tables and the
  field parsers as functions of the transcript.
- `Session` holds the `Recloser` class. Its fields are overwritten by the
  stage methods, exactly as `main.py` does; the Telnet link is a state plus a
  trace of writes.
- `Driver` holds the per-line decision, the driver loop, the output row and
  the file name.

The device is replaced by its answers: the connect outcome, the banner, the
group reply and the setpoints transcript. A read that raises is `None`.
The setpoints read has no handler, so a `None` there stops the program.

## Model

| member | source | states |
|---|---|---|
| PyStr.IndexOf | main.py:74 | the first occurrence of a marker: it occurs there, nowhere before, and there is none exactly when the marker does not occur |
| PyStr.Split | main.py:74 | Python's `str.split(m)`: the pieces between the non-overlapping occurrences of `m` found left to right; SplitAtZero and SplitAtOne pin the first two pieces to the first and second occurrence, JoinSplit and SplitPiecesFree state that the pieces rejoin to the text and hold no `m` |
| PyStr.SplitAt | main.py:74 | `split(m)[i]`, `None` where the index raises; SplitAtZero and SplitAtOne give `[0]` and `[1]` |
| PyStr.JoinSplit | main.py:74 | joining the pieces of `split(m)` with `m` gives back the text |
| PyStr.SplitPiecesFree | main.py:74 | no piece of `split(m)` contains `m` |
| PyStr.SplitAtZero | main.py:74 | `split(m)[0]` never raises; it is the whole text when `m` is absent, else the text before the first `m` |
| PyStr.SplitAtOne | main.py:111 | `split(m)[1]` succeeds exactly when `m` occurs, and is the text between the first and second `m` (or to the end) |
| PyStr.SplitAtZeroIdempotent | main.py:363 | cutting at `m` twice is cutting once |
| PyStr.MissingChar | main.py:74 | a marker with a character the text lacks does not occur in it |
| PyStr.IsSpace | main.py:205 | the characters `strip()` removes: ASCII `isspace`, i.e. space, `\t` to `\r` and U+001C to U+001F; StripLeft, StripRight and StripShape state that `strip()` removes exactly the runs of these at either end |
| PyStr.Strip | main.py:205 | `str.strip()` on ASCII whitespace; StripShape, StripIdempotent and StripFixed state its meaning |
| PyStr.StripLeft | main.py:205 | removes exactly the leading whitespace run: the rest is a suffix that starts with a non-space |
| PyStr.StripRight | main.py:205 | removes exactly the trailing whitespace run |
| PyStr.StripShape | main.py:205 | `strip()` is the middle slice, with only whitespace on either side, and begins and ends with a non-space |
| PyStr.StripIdempotent | main.py:205 | stripping twice is stripping once |
| PyStr.StripFixed | main.py:205 | text with no whitespace at either end is unchanged by `strip()` |
| PyStr.StripKeepsFree | main.py:268 | stripping never creates a marker occurrence |
| PyStr.StripSlice | main.py:205 | the text is leading space + stripped value + trailing space |
| PyStr.ReplaceChar | main.py:599 | `str.replace(c, r)` for one character `c`; ReplaceCharRemoves, ReplaceCharConcat and ReplaceCharAbsent state its meaning |
| PyStr.ReplaceCharRemoves | main.py:599 | after `replace(c, r)`, with `c` not in `r`, `c` is gone and no new characters appear |
| PyStr.ReplaceCharConcat | main.py:599 | `replace` distributes over concatenation |
| PyStr.ReplaceCharAbsent | main.py:599 | `replace` of an absent character changes nothing |
| PyStr.NatToString | main.py:128 | `str(n)` is a non-empty string of digits, and one digit for `n < 10` |
| Numbers.DigitRun | main.py:165 | the length of the leading digit run, stopped at a non-digit |
| Numbers.DigitsOfNat | main.py:165 | the digits of `str(n)` read back as `n` |
| Numbers.ParseDecimal | main.py:165 | `int(float(t))` on the restricted grammar, `None` where it raises; ParseNat, ParseSigned, ParseDropsFraction and ParseRejects state its meaning |
| Numbers.IsDecimal | main.py:206 | whether `float(x)` accepts the text, on the restricted grammar; ParseNat, ParseNatWithFraction and ParseRejects state which texts it accepts, Setpoints.ExtractedField ties it to a pickup's return code |
| Numbers.ParseNat | main.py:165 | `int(float(str(n)))` is `n` |
| Numbers.ParseUnsigned | main.py:165 | `w.f` without sign reads as the integer part `w` |
| Numbers.ParseSigned | main.py:176 | a leading `-` negates and a leading `+` keeps the value |
| Numbers.ParseDropsFraction | main.py:187 | `int(float(w.f))` truncates the fraction |
| Numbers.ParseNatWithFraction | main.py:187 | `int(float(str(n) + "." + f))` is `n` |
| Numbers.ParseRejects | main.py:165-172 | text with a character other than digits, a leading sign and a point raises, so the CTR falls back to 999999 |
| Markers.Apply | main.py:205 | one step of a chain: `split(m)[i]`, `None` for the `IndexError`, or `strip()`; PieceMeaning states its meaning |
| Markers.Eval | main.py:205 | a chain applied left to right, `None` once a step raises; EvalFails, EvalAppend, BracketValue and AssignedValue state its meaning |
| Markers.PieceMeaning | main.py:205 | `[0]` is always `Before(s, m)`; `[1]` is `After(s, m)` exactly when `m` occurs, otherwise it raises |
| Markers.BeforeFree | main.py:268 | the text before the first `m` contains no `m` |
| Markers.BeforePrefix | main.py:74 | the cut text is a prefix of its input |
| Markers.BeforeKeepsHead | main.py:111 | a cut keeps the first character when it does not start the marker |
| Markers.EvalFails | main.py:200-228 | a chain raises exactly when some `split(m)[1]` meets text without `m` |
| Markers.EvalAppend | main.py:266-268 | a chain followed by another chain applies the second to the first's value |
| Markers.EndsStripped | main.py:205 | a chain ending in `strip()` yields stripped text |
| Markers.BracketValue | main.py:214 | `split(a)[1].split(b)[0].strip()` raises exactly when `a` is missing, else it is the stripped text between `a` and `b` |
| Markers.AssignedValue | main.py:205 | `split(a)[1].split(e)[1].split(b)[0].strip()` raises exactly when `a` or, after it, `e` is missing; else it is the stripped value after `e` up to `b` |
| Markers.CutValue | main.py:268-273 | the extra `split(m)[0].strip()` never raises, so the inner `except` is unreachable; a missing marker keeps the whole value |
| Markers.CutAgain | main.py:361-363 | cutting again at the marker a chain just stopped at changes nothing |
| Markers.CutFixed | main.py:363 | cut-and-stripped text is a fixed point of the same cut |
| Setpoints.FamilyOf | main.py:76-88 | the three `model ==` tests, each true exactly for its own model text |
| Setpoints.Settings.Set | main.py:205 | assigning one setting changes that field only |
| Setpoints.Chain651R | main.py:200-537 | the 651R branch of each of the ten parse methods (`split(a)[1].split(":=")[1].split(b)[0].strip()`, some with a trailing cut); Table651RWellFormed, AssignedValue and CutValue state its meaning |
| Setpoints.Chain351R | main.py:200-537 | the 351R branch of each parse method (`split(a)[1].split(b)[0].strip()`, two with a trailing cut); Table351RWellFormed, BracketValue and GroundSlowDialCut state its meaning |
| Setpoints.Chain351RS | main.py:200-400 | the 351RS branch of the five phase parse methods; Table351RSWellFormed, AssignedValue and SlowDialCutTwice state its meaning |
| Setpoints.RuleOf | main.py:200-537 | which parsers extract and which copy: the 351RS ground parsers copy their phase field, every other parser extracts; GroundMirrorsPhase and ExtractorsIndependent state the consequences |
| Setpoints.CtrChain | main.py:160-194 | the CTR chain of each family; TablesWellFormed states it is well formed |
| Setpoints.ReadCtr | main.py:160-194 | `int(float(...))` of the CTR chain, `None` where either raises; Session.Recloser.ParseCtr states what is stored and logged |
| Setpoints.ParseField | main.py:200-228 | one parse method: the new record and the return code; ExtractedField states them for extracting parsers, MirrorField (the copied value and code 0) and MirrorsCopy for copying ones |
| Setpoints.ParseFields | main.py:539-551 | the ten parsers in their fixed order; SeparateFields and GroundMirrorsPhase state the resulting fields |
| Setpoints.TablesWellFormed | main.py:200-537 | every marker of the three tables is non-empty and only `[0]` and `[1]` are taken |
| Setpoints.ExtractedField | main.py:200-228 | a parser stores the chain's value exactly when each `split(m)[1]` marker occurs; otherwise it returns 1 and the record is unchanged; a pickup also returns 1 when the value is no number |
| Setpoints.ExtractedStripped | main.py:200-537 | every extracted value is stripped, except the 351R ground slow time dial |
| Setpoints.GroundSlowDialCut | main.py:519-521 | the 351R ground slow time dial is the bracket value cut at `51G2RS`, not re-stripped |
| Setpoints.GroundSlowDialUnstripped | main.py:521 | so a transcript `51G2TD=1 51G2RS` stores `"1 "`, which `strip()` would have changed |
| Setpoints.SlowDialCutTwice | main.py:361-363 | the 351RS phase slow time dial's second `51P2RS` cut is a no-op |
| Setpoints.CutsNeverFail | main.py:266-273 | a chain with a trailing cut succeeds exactly when the chain without it does |
| Setpoints.ExtractorsIndependent | main.py:539-551 | running extracting parsers in sequence: each field gets its own chain's value, unlisted fields keep theirs |
| Setpoints.MirrorField | main.py:397-400 | a copying parser stores its phase field's value in its own field and returns 0 |
| Setpoints.MirrorsCopy | main.py:399 | running copying parsers in sequence copies each source field as it was before |
| Setpoints.RunParsersAppend | main.py:539-551 | running two parser lists one after the other is running their concatenation |
| Setpoints.SeparateFields | main.py:539-551 | for 651R and 351R every field after `parse_all_settings` is its own extraction or its prior value |
| Setpoints.GroundMirrorsPhase | main.py:541-551 | for 351RS each ground field ends equal to its phase field's final value, even when that is still the default |
| Session.LogLine | main.py:38 | a connection-error log line, `fid + "," + ip + reason`; ConnectRecloser, Login and ParseCtr state when one is appended, ConnectReasonsDistinct that the connection reasons differ |
| Session.ConnectReason | main.py:35-49 | the reason text of each connection failure; Driver.ConnectReasonsDistinct states that they differ |
| Session.BannerModel | main.py:74 | `output.split("SEL-")[1].split("-")[0]`, `None` where it raises; BannerModelMeaning states its meaning |
| Session.GroupDigit | main.py:111 | the first character of the `Active Group = ` field as a digit, `None` where main.py raises; GroupDigitMeaning states its meaning |
| Session.ShowCommand | main.py:128 | `SHO `, the group's decimal text, then CR LF; NatToString and DigitsOfNat state the group text |
| Session.SetpointsTrace | main.py:124-157 | what `retrieve_setpoints` sends and reads for each family: nothing for an unknown model, otherwise `SHO <group>` first and one read last, 2 events for 651R and 4 for 351R/351RS |
| Session.BannerModelMeaning | main.py:74 | the model text is between the first `SEL-` and the next `-`, and exists exactly when `SEL-` occurs |
| Session.GroupDigitMeaning | main.py:111 | the group digit exists exactly when the character right after the first `Active Group = ` is a digit, and it is that digit |
| Session.Recloser.constructor | main.py:10-29 | group 9, every setting and the model the integer 1, empty setpoints, no link, and no `ctr` attribute |
| Session.Recloser.ConnectRecloser | main.py:31-52 | 0 and an open link on success; otherwise 1 and one log line with the reason for a timeout, an address error or a refusal |
| Session.Recloser.CloseConnection | main.py:55-61 | an open or closed link ends closed; without a link nothing changes |
| Session.Recloser.RetrieveModel | main.py:64-88 | sends `ID`, then: model becomes the banner's model text, or a failed read / missing `SEL-` closes the link and keeps the model; 0 exactly for 651R, 351R, 351RS |
| Session.Recloser.Login | main.py:91-102 | on an open link sends `ACC` and the password, each followed by a sleep of `WAIT`, and returns 0; otherwise one `NoneType` line and 1 |
| Session.Recloser.RetrieveGroup | main.py:105-121 | group becomes the digit read, or 99 when there is none; 0 exactly when the digit is 1 to 8, and digits 0 and 9 are kept |
| Session.Recloser.RetrieveSetpoints | main.py:124-157 | a known family sends its `SHO` trace and reads once: the reply becomes the setpoints, or the read raises and the setpoints are kept; other models do nothing; it raises exactly for a known family whose read fails |
| Session.Recloser.ParseCtr | main.py:160-194 | known family: CTR read with code 0, or 999999 with code 1 and one `No CTR` line; other models: nothing changes and no code |
| Session.Recloser.ParseSetting | main.py:200-537 | each field parser leaves the family's field result and code; other models change nothing |
| Session.Recloser.ParseAllSettings | main.py:539-551 | CTR first, then the ten parsers in order: the settings are `ParseFields` of the prior ones |
| Session.Recloser.RunFieldParsers | main.py:541-551 | the ten parse methods in order leave `ParseFields` of the prior settings; an unknown model changes nothing |
| Session.ParseOrder | main.py:541-551 | ten parser steps in the fixed order compose to `ParseFields` |
| Driver.Row | main.py:598 | the output row; RowColumns states its columns |
| Driver.RowColumns | main.py:598 | 16 columns: fid, model, ip, group, ctr, the ten settings in parse order, timestamp |
| Driver.DeviceOutcome | main.py:584-602 | one line stage by stage; RowWritten, LineStops and ProcessDevice state and connect its meaning |
| Driver.ParsedOutcome | main.py:591-602 | a line whose stages passed: a failed setpoints read or an unset `ctr` stops the program, otherwise the parsed row; Finish proves the method sequence equal to it |
| Driver.ProcessDevice | main.py:584-602 | one line, run on a fresh `Recloser`, has exactly the outcome `DeviceOutcome` gives |
| Driver.RunStages | main.py:584-589 | the stages pass exactly when connect, login and group return 0; a failure leaves just that line's log |
| Driver.Fetch | main.py:591-592 | the `SHO` trace is appended, the setpoints become the transcript for a known family whose read succeeds, the link ends closed, or stays open when the read raises; model, group, CTR, settings and log are kept |
| Driver.Parse | main.py:595 | the CTR, settings and log after parsing, stated for the line |
| Driver.Finish | main.py:591-602 | after the stages pass, the line has the parsed outcome, including the stop when the setpoints read raises |
| Driver.Conclude | main.py:595-602 | parsing the fetched setpoints and building the row give the parsed outcome |
| Driver.Report | main.py:598 | an unset `ctr` stops the program; otherwise the row of the record's fields |
| Driver.RowWritten | main.py:584-602 | as written, a row is appended exactly when connect, login and group return 0, the model is known and its setpoints read succeeds; the driver never checks `retrieve_model`'s code, yet as written a row needs it to be 0, because an unknown model stops the program at `recloser.ctr` |
| Driver.LineStops | main.py:591-598 | as written, the program stops exactly at a line whose stages pass and whose model is none of the three or whose setpoints read raises |
| Driver.UnknownModelExample | main.py:598 | a `SEL-751` banner with group 1 stops the program |
| Driver.CorrectedRowWritten | main.py:584-602 | with the constructor's CTR stored, a row is appended exactly when connect, login and group return 0 and no setpoints read raises, and only such a read stops the program; here `retrieve_model`'s code plays no part |
| Driver.CorrectionAgrees | main.py:10 | the correction changes nothing for the three known models |
| Driver.ConnectReasonsDistinct | main.py:35-49 | the three connection failures log different reasons |
| Driver.Batch | main.py:574-602 | the lines in order until one stops the program; BatchStops, AbortEndsBatch and CorrectedBatch state its meaning |
| Driver.RunBatch | main.py:574-602 | the driver loop gives `Batch` of the IP list: rows and log lines in order, up to a line that stops it |
| Driver.BatchStops | main.py:598 | once a line stops the program, later lines add nothing |
| Driver.AbortEndsBatch | main.py:598 | the first stopping line ends the batch |
| Driver.CorrectedBatch | main.py:574-602 | with the correction the batch stops exactly when some line's setpoints read raises, and otherwise writes one row per line whose stages pass |
| Driver.Timestamp | main.py:558 | the timestamp text; FileNameOfTimestamp states the file name it gives |
| Driver.FileName | main.py:599 | the output file name; FileNameClean and FileNameOfTimestamp state its meaning |
| Driver.FileNameClean | main.py:599 | the output file name has no space and no colon, for any timestamp |
| Driver.FileNameOfTimestamp | main.py:558-599 | for a real timestamp the name is `output_YYYYMMDD-HHMM.csv` |
| Driver.FileNameOfParts | main.py:599 | replacing the one space and the one colon of `date h:m` gives `date-hm` |

## Left out

- Telnet, sockets and `sleep` are not modelled. The connect outcome is an
  enumeration. Each read is a reply given to the method, with `None` where it
  raises. Writes and waits are recorded as a trace of events.
- The timeout and wait lengths are the constants 5 and 1.
- File I/O is not modelled:
  - reading `PASSWORD` (it becomes a parameter) and `ip_list.csv` (its lines
    become a sequence of devices);
  - writing the transcript files;
  - the error log file and the CSV file (kept as sequences of lines and
    rows).
- `print` output, `datetime.now()` (the timestamp is a parameter, or built
  from its five fields) and the row-counting loop for the progress message
  are not modelled.
- IP-list lines with fewer than two columns, which raise `IndexError`, are
  outside the model.
- A non-ASCII password, which raises on `encode('ascii')`, is outside the
  model.
- `float(x) * self.ctr`, used only for printing, is not modelled. Its one
  observable effect is kept: a pickup whose text is no number is stored but
  returns 1.
- `float` is restricted to an optional sign followed by digits with an
  optional point and fraction digits (`5`, `5.`, `5.25`, `.25`; not `.`).
  Exponents, `inf`, `nan`, underscores and surrounding whitespace are
  rejected, so `ParseCtr` can give 999999 on text Python would accept.
- Numbers.ParseDecimal: rounding to double precision is not modelled; the
  value is exact. Python agrees with it for integer parts below 2^53 whose
  fraction does not round up to the next integer. It differs elsewhere, e.g.
  `int(float("9007199254740993"))` is 9007199254740992 and
  `int(float("1.99999999999999999"))` is 2, where the model gives
  9007199254740993 and 1. Rounding never decides whether `float` accepts a
  text, so the pickup return codes are unaffected.
- Numbers.ParseDecimal: overflow is not modelled either. A CTR text whose
  value rounds beyond the largest double (every integer part of 310 or more
  digits, and 309-digit ones at or above about 1.7976931348623158e308)
  makes `float` give `inf` and `int` raise `OverflowError`, so main.py:167-172
  stores 999999 and logs `No CTR`; the model returns the exact integer.
- Session.Recloser.RetrieveModel: a failed read (`None`) is handled as
  `ConnectionResetError`, the one error main.py catches there. Any other
  read or decode error would leave the method uncaught and stop the program;
  that stop is not modelled.
- Session.Recloser.ConnectRecloser: a connect error other than the three
  caught kinds (an `OSError` such as "No route to host", main.py:34) is not
  caught and stops the program; the connect outcome has no such case, so
  that stop is not modelled.
- Session.Recloser.RetrieveModel: a write of `ID` that raises on an open
  link (`ConnectionResetError`, `BrokenPipeError`, main.py:66) is not caught
  and stops the program; writes on an open link always succeed in the
  model, so that stop is not modelled.
- Session.Recloser.Login: a write that raises anything other than
  `AttributeError` (main.py:94, 96), such as `BrokenPipeError` on an open
  link, stops the program; not modelled, for the same reason.
- Session.Recloser.RetrieveSetpoints: a write of the `SHO` command or of a
  blank line that raises (main.py:128-152) stops the program; not modelled.
  Only a failed read is.
- Session.Recloser.RetrieveGroup: a read or decode error is caught by the
  bare `except` with the other failures; it is one `None` reply.
- The ten setting attributes `phPU` … `gSTD` are one field of type
  `Settings`. The methods assign that field one setting at a time.
- Two behaviours of main.py a reader may not expect are modelled as the
  code has them:
  - a group digit 0 or 9 is stored, not replaced by 99;
  - a banner with an unknown model does not close the link.

## Findings

| source | as written | input that shows it | evidently intended | confidence | as-written member | corrected member |
|---|---|---|---|---|---|---|
| main.py:10-29, 160-194, 598 | the constructor takes `ctr=1000` but never stores it, and `parse_ctr` only assigns `ctr` for 651R, 351R and 351RS; the driver reads `recloser.ctr` after `parse_all_settings` | connect succeeds, banner `SEL-751`, group reply `Active Group = 1`: `recloser.ctr` raises `AttributeError` and the whole IP list stops there | the constructor stores `self.ctr = ctr`, so such a line gets a row with CTR 1000 and default settings, and the loop continues (a failed setpoints read still stops it) | not executed | Driver.UnknownModelExample | Driver.CorrectedRowWritten |
