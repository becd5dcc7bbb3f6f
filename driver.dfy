/** The driver loop: one `Recloser` per line of the IP list, the stage
    sequence that decides whether a result row is written, the row itself, the
    output file name, and the batch over all lines. */
module Driver {
  import opened Wrappers
  import opened PyStr
  import opened Setpoints
  import opened Session

  /** One line of the IP list (`fid`, `ip`) and how the device at that address
      answers: the connect result, the `ID` banner, the `GRO` reply and the
      setpoints transcript, each `None` where reading it raises. */
  datatype Device = Device(
    fid: string, ip: string, connect: ConnectResult,
    banner: Option<string>, groupReply: Option<string>, transcript: Option<string>)

  /** What one line leads to: the row appended to the output file, if any, the
      lines appended to the connection error log, and whether the program
      stopped there with an uncaught exception. */
  datatype Outcome = Outcome(row: Option<seq<Value>>, log: seq<string>, aborted: bool)

  /** The output row: feeder id, model, ip, group, CTR, the ten settings in
      parse order, the timestamp. */
  function Row(fid: string, model: Value, ip: string, group: nat, ctr: int, st: Settings, ts: string): seq<Value> {
    [Str(fid), model, Str(ip), Num(group), Num(ctr),
     st.phPU, st.phFC, st.phFTD, st.phSC, st.phSTD, st.gPU, st.gFC, st.gFTD, st.gSC, st.gSTD,
     Str(ts)]
  }

  /** The row's columns: the identification, then each setting at its place in
      the parse order, then the timestamp. */
  lemma RowColumns(fid: string, model: Value, ip: string, group: nat, ctr: int, st: Settings, ts: string)
    ensures var r := Row(fid, model, ip, group, ctr, st, ts);
      |r| == 16
      && r[0] == Str(fid) && r[1] == model && r[2] == Str(ip) && r[3] == Num(group)
      && r[4] == Num(ctr) && r[15] == Str(ts)
      && forall i :: 0 <= i < 10 ==> r[5 + i] == st.Get(Order[i])
  {
  }

  // ---------------------------------------------------------------------------
  // The stages of one line, as functions of the device's answers
  // ---------------------------------------------------------------------------

  /** `connect_recloser() == 0`. */
  predicate Connects(d: Device) {
    d.connect == Connected
  }

  /** The banner names a model, so `retrieve_model` leaves the link open and
      `login() == 0`. */
  predicate LogsIn(d: Device) {
    d.banner.Some? && BannerModel(d.banner.value).Some?
  }

  /** The digit `retrieve_group` reads. */
  function GroupOf(d: Device): Option<nat> {
    if d.groupReply.Some? then GroupDigit(d.groupReply.value) else None
  }

  /** `retrieve_group() == 0`. */
  predicate GroupOk(d: Device) {
    GroupOf(d).Some? && 1 <= GroupOf(d).value <= 8
  }

  /** The model after `retrieve_model`: the banner's text, or the default 1. */
  function ModelOf(d: Device): Value {
    if LogsIn(d) then Str(BannerModel(d.banner.value).value) else Num(1)
  }

  /** `retrieve_setpoints` reads for the line's model, and that read raises. */
  predicate ReadFails(d: Device) {
    FamilyOf(ModelOf(d)).Some? && d.transcript.None?
  }

  /** A line whose three stages pass but whose setpoints read raises. */
  predicate ReadRaises(d: Device) {
    Connects(d) && LogsIn(d) && GroupOk(d) && ReadFails(d)
  }

  /** What main.py does with one line, stage by stage. With `corrected` the
      record starts with the constructor's `ctr=1000` stored, as its signature
      promises; as written it does not, and a device that reaches the row with a
      model none of the parsers knows stops the program. Either way a setpoints
      read that raises stops it. */
  function DeviceOutcome(d: Device, ts: string, corrected: bool): Outcome {
    if !Connects(d) then Outcome(None, [LogLine(d.fid, d.ip, ConnectReason(d.connect))], false)
    else if !LogsIn(d) then Outcome(None, [LogLine(d.fid, d.ip, ", NoneType\r")], false)
    else if !GroupOk(d) then Outcome(None, [], false)
    else ParsedOutcome(d, ts, corrected)
  }

  /** The outcome of a line whose three stages succeeded. */
  function ParsedOutcome(d: Device, ts: string, corrected: bool): Outcome
    requires GroupOk(d)
  {
    match FamilyOf(ModelOf(d))
    case None =>
      if corrected then Outcome(Some(Row(d.fid, ModelOf(d), d.ip, GroupOf(d).value, 1000, Defaults, ts)), [], false)
      else Outcome(None, [], true)
    case Some(fam) =>
      match d.transcript
      case None => Outcome(None, [], true)
      case Some(text) =>
        var n := ReadCtr(fam, text);
        var ctr := n.GetOr(NoCtr);
        Outcome(
          Some(Row(d.fid, ModelOf(d), d.ip, GroupOf(d).value, ctr, ParseFields(fam, text, Some(ctr), Defaults), ts)),
          if n.Some? then [] else [LogLine(d.fid, d.ip, ", No CTR\r")],
          false)
  }

  /** The abort cases of `ParsedOutcome`. */
  lemma ParsedAbort(d: Device, ts: string)
    requires GroupOk(d) && (FamilyOf(ModelOf(d)).None? || d.transcript.None?)
    ensures ParsedOutcome(d, ts, false) == Outcome(None, [], true)
  {
  }

  /** The row case of `ParsedOutcome`, given its parts. */
  lemma ParsedRow(d: Device, ts: string, fam: Family, text: string, ctr: int, st: Settings, log: seq<string>)
    requires GroupOk(d) && FamilyOf(ModelOf(d)) == Some(fam) && d.transcript == Some(text)
    requires ctr == ReadCtr(fam, text).GetOr(NoCtr)
    requires st == ParseFields(fam, text, Some(ctr), Defaults)
    requires log == if ReadCtr(fam, text).Some? then [] else [LogLine(d.fid, d.ip, ", No CTR\r")]
    ensures ParsedOutcome(d, ts, false) == Outcome(Some(Row(d.fid, ModelOf(d), d.ip, GroupOf(d).value, ctr, st, ts)), log, false)
  {
  }

  // ---------------------------------------------------------------------------
  // One line, run on a `Recloser`
  // ---------------------------------------------------------------------------

  /** The body of the driver loop for one line (the row is returned instead of
      being appended to the output file). */
  method ProcessDevice(d: Device, password: string, ts: string) returns (o: Outcome)
    ensures o == DeviceOutcome(d, ts, false)
  {
    var recloser := new Recloser(d.fid, d.ip, password);
    var ok := RunStages(recloser, d);
    if !ok {
      return Outcome(None, recloser.log, false);
    }
    o := Finish(recloser, d, ts);
  }

  /** Connect, read the model, log in, read the group: true exactly when the
      three checked codes are 0. On failure the log is the line's log; on
      success the record holds the model and group, nothing else changed. */
  method RunStages(recloser: Recloser, d: Device) returns (ok: bool)
    requires recloser.fid == d.fid && recloser.ip == d.ip
    requires recloser.State() == Record(9, Defaults, Num(1), None, "", Unconnected, [], [])
    modifies recloser
    ensures ok <==> Connects(d) && LogsIn(d) && GroupOk(d)
    ensures !ok ==> recloser.log == DeviceOutcome(d, "", false).log
    ensures ok ==> recloser.link == Open && recloser.model == ModelOf(d) && recloser.group == GroupOf(d).value
    ensures ok ==> recloser.log == [] && recloser.ctr.None? && recloser.settings == Defaults
  {
    var connected := recloser.ConnectRecloser(d.connect);
    if connected != 0 {
      return false;
    }
    var _ := recloser.RetrieveModel(d.banner);
    if d.banner.Some? {
      BannerModelMeaning(d.banner.value);
    }
    assert recloser.model == ModelOf(d) && recloser.log == [];
    assert recloser.link == Open <==> LogsIn(d);
    var loggedIn := recloser.Login();
    if loggedIn != 0 {
      return false;
    }
    var grouped := recloser.RetrieveGroup(d.groupReply);
    ok := grouped == 0;
  }

  /** Read the setpoints and close the link. For a known family the
      `SHO` trace is sent and the transcript becomes the setpoints; when that
      read raises, the exception skips `close_connection` and the link stays
      open. An unknown model sends nothing and keeps the setpoints. The model,
      group, CTR, settings and log are kept. */
  method Fetch(recloser: Recloser, d: Device) returns (raised: bool)
    requires recloser.link == Open
    modifies recloser
    ensures raised <==> FamilyOf(recloser.model).Some? && d.transcript.None?
    ensures recloser.State() == old(recloser.State()).(
      setpoints := if FamilyOf(old(recloser.model)).Some? && d.transcript.Some? then d.transcript.value else old(recloser.setpoints),
      sent := old(recloser.sent) + SetpointsTrace(FamilyOf(old(recloser.model)), old(recloser.group)),
      link := if raised then Open else Closed)
    ensures recloser.model == old(recloser.model) && recloser.group == old(recloser.group)
    ensures recloser.ctr == old(recloser.ctr) && recloser.settings == old(recloser.settings) && recloser.log == old(recloser.log)
  {
    raised := recloser.RetrieveSetpoints(d.transcript);
    if raised {
      return;
    }
    recloser.CloseConnection();
  }

  /** `parse_all_settings` on the fetched setpoints, stated for the line. */
  method Parse(recloser: Recloser, d: Device)
    requires recloser.fid == d.fid && recloser.ip == d.ip && recloser.model == ModelOf(d)
    requires recloser.log == [] && recloser.ctr.None? && recloser.settings == Defaults
    requires FamilyOf(ModelOf(d)).Some? ==> d.transcript.Some? && recloser.setpoints == d.transcript.value
    modifies recloser`ctr, recloser`log, recloser`settings
    ensures Parsed(recloser, d)
  {
    recloser.ParseAllSettings();
  }

  /** The CTR, settings and log of the line's record after
      `parse_all_settings`: untouched for an unknown model; for a known family
      the CTR read from the transcript (or 999999 and one `No CTR` line) and
      the ten settings parsed with it from the defaults. */
  predicate Parsed(recloser: Recloser, d: Device)
    reads recloser
  {
    (FamilyOf(ModelOf(d)).None? ==> recloser.ctr.None? && recloser.log == [])
    && (FamilyOf(ModelOf(d)).Some? ==>
      d.transcript.Some? &&
      var fam := FamilyOf(ModelOf(d)).value;
      var n := ReadCtr(fam, d.transcript.value);
      recloser.ctr == Some(n.GetOr(NoCtr))
      && recloser.settings == ParseFields(fam, d.transcript.value, recloser.ctr, Defaults)
      && recloser.log == if n.Some? then [] else [LogLine(d.fid, d.ip, ", No CTR\r")])
  }

  /** Read the setpoints, close, parse, and build the row; a setpoints read
      that raises stops the program, and as written so does a model none of
      the parsers knows, which leaves `ctr` unset. */
  method Finish(recloser: Recloser, d: Device, ts: string) returns (o: Outcome)
    requires Connects(d) && LogsIn(d) && GroupOk(d)
    requires recloser.fid == d.fid && recloser.ip == d.ip
    requires recloser.link == Open && recloser.model == ModelOf(d) && recloser.group == GroupOf(d).value
    requires recloser.log == [] && recloser.ctr.None? && recloser.settings == Defaults
    modifies recloser
    ensures o == ParsedOutcome(d, ts, false)
  {
    var raised := Fetch(recloser, d);
    if raised {
      // the exception of `read_very_eager` is not caught anywhere
      ParsedAbort(d, ts);
      return Outcome(None, recloser.log, true);
    }
    o := Conclude(recloser, d, ts);
  }

  /** Parse the fetched setpoints and build the row. */
  method Conclude(recloser: Recloser, d: Device, ts: string) returns (o: Outcome)
    requires GroupOk(d)
    requires recloser.fid == d.fid && recloser.ip == d.ip
    requires recloser.model == ModelOf(d) && recloser.group == GroupOf(d).value
    requires recloser.log == [] && recloser.ctr.None? && recloser.settings == Defaults
    requires FamilyOf(ModelOf(d)).Some? ==> d.transcript.Some? && recloser.setpoints == d.transcript.value
    modifies recloser`ctr, recloser`log, recloser`settings
    ensures o == ParsedOutcome(d, ts, false)
  {
    Parse(recloser, d);
    o := Report(recloser, d, ts);
  }

  /** The outcome once the settings are parsed: reading `ctr` raises when it
      was never assigned, otherwise the row of the record's fields. */
  method Report(recloser: Recloser, d: Device, ts: string) returns (o: Outcome)
    requires GroupOk(d)
    requires recloser.fid == d.fid && recloser.ip == d.ip
    requires recloser.model == ModelOf(d) && recloser.group == GroupOf(d).value
    requires Parsed(recloser, d)
    ensures o == ParsedOutcome(d, ts, false)
  {
    if recloser.ctr.None? {
      // reading `recloser.ctr` raises AttributeError
      ParsedAbort(d, ts);
      return Outcome(None, recloser.log, true);
    }
    ParsedRow(d, ts, FamilyOf(ModelOf(d)).value, d.transcript.value, recloser.ctr.value, recloser.settings, recloser.log);
    var row := Row(recloser.fid, recloser.model, recloser.ip, recloser.group, recloser.ctr.value, recloser.settings, ts);
    return Outcome(Some(row), recloser.log, false);
  }

  // ---------------------------------------------------------------------------
  // Properties of one line
  // ---------------------------------------------------------------------------

  /** As written, a row is appended exactly when connecting, logging in and
      reading the group all return 0, the model is one the parsers know and
      its setpoints read succeeds; `retrieve_model`'s own return code is not
      consulted. */
  lemma RowWritten(d: Device, ts: string)
    ensures DeviceOutcome(d, ts, false).row.Some? <==>
      Connects(d) && LogsIn(d) && GroupOk(d) && FamilyOf(ModelOf(d)).Some? && d.transcript.Some?
  {
  }

  /** As written, the program stops exactly at a line whose stages all succeed
      and whose model is none of 651R, 351R and 351RS (`parse_ctr` never
      assigns `ctr` and the constructor does not either), or whose setpoints
      read raises. */
  lemma LineStops(d: Device, ts: string)
    ensures DeviceOutcome(d, ts, false).aborted <==>
      Connects(d) && LogsIn(d) && GroupOk(d) && (FamilyOf(ModelOf(d)).None? || d.transcript.None?)
  {
  }

  /** Such a line exists: a 751 relay answering with group 1. */
  lemma UnknownModelExample(d: Device, ts: string)
    requires d.connect == Connected && d.banner == Some("SEL-751") && d.groupReply == Some("Active Group = 1")
    ensures DeviceOutcome(d, ts, false).aborted
  {
    BannerExample();
    GroupExample(d.groupReply.value);
    assert ModelOf(d) == Str("751");
    LineStops(d, ts);
  }

  lemma BannerExample()
    ensures BannerModel("SEL-751") == Some("751")
  {
    var b := "SEL-751";
    assert OccursAt(b, "SEL-", 0);
    assert b[4..] == "751";
    MissingChar("751", "SEL-", 0);
    MissingChar("751", "-", 0);
    BannerModelMeaning(b);
  }

  lemma GroupExample(reply: string)
    requires reply == "Active Group = 1"
    ensures GroupDigit(reply) == Some(1)
  {
    assert OccursAt(reply, GroupMarker, 0);
    GroupDigitMeaning(reply);
  }

  /** With the CTR default stored, a row is appended exactly when connecting,
      logging in and reading the group all return 0 and no setpoints read
      raises, and only such a read stops the program. */
  lemma CorrectedRowWritten(d: Device, ts: string)
    ensures DeviceOutcome(d, ts, true).row.Some? <==> Connects(d) && LogsIn(d) && GroupOk(d) && !ReadFails(d)
    ensures DeviceOutcome(d, ts, true).aborted <==> ReadRaises(d)
  {
  }

  /** The correction changes nothing for the three known families. */
  lemma CorrectionAgrees(d: Device, ts: string)
    requires FamilyOf(ModelOf(d)).Some?
    ensures DeviceOutcome(d, ts, true) == DeviceOutcome(d, ts, false)
  {
  }

  /** The log lines of a line that fails to connect differ by reason. */
  lemma ConnectReasonsDistinct(a: ConnectResult, b: ConnectResult)
    requires a != Connected && b != Connected && a != b
    ensures ConnectReason(a) != ConnectReason(b)
  {
    assert ConnectReason(TimedOut)[2] == 'T';
    assert ConnectReason(AddressError)[2] == 'S';
    assert ConnectReason(Refused)[2] == 'R';
  }

  // ---------------------------------------------------------------------------
  // The batch
  // ---------------------------------------------------------------------------

  datatype BatchResult = BatchResult(rows: seq<seq<Value>>, log: seq<string>, aborted: bool)

  /** The lines processed in order, each adding its row and log lines, until
      one stops the program. */
  function Batch(ds: seq<Device>, ts: string, corrected: bool): BatchResult
    decreases |ds|
  {
    if |ds| == 0 then BatchResult([], [], false)
    else
      var b := Batch(ds[..|ds| - 1], ts, corrected);
      if b.aborted then b
      else
        var o := DeviceOutcome(ds[|ds| - 1], ts, corrected);
        BatchResult(b.rows + (if o.row.Some? then [o.row.value] else []), b.log + o.log, o.aborted)
  }

  /** Once a line has stopped the program, later lines change nothing. */
  lemma {:induction false} BatchStops(ds: seq<Device>, i: nat, ts: string, corrected: bool)
    requires i <= |ds| && Batch(ds[..i], ts, corrected).aborted
    ensures Batch(ds, ts, corrected) == Batch(ds[..i], ts, corrected)
    decreases |ds| - i
  {
    if i < |ds| {
      assert ds[..i + 1][..i] == ds[..i];
      BatchStops(ds, i + 1, ts, corrected);
    } else {
      assert ds[..i] == ds;
    }
  }

  /** The driver loop over the IP list. The error log starts empty (it is
      cleared before the loop). */
  method RunBatch(ds: seq<Device>, password: string, ts: string) returns (rows: seq<seq<Value>>, log: seq<string>, aborted: bool)
    ensures BatchResult(rows, log, aborted) == Batch(ds, ts, false)
  {
    rows, log, aborted := [], [], false;
    var i := 0;
    while i < |ds| && !aborted
      invariant 0 <= i <= |ds|
      invariant BatchResult(rows, log, aborted) == Batch(ds[..i], ts, false)
    {
      var o := ProcessDevice(ds[i], password, ts);
      assert ds[..i + 1][..i] == ds[..i];
      if o.row.Some? {
        rows := rows + [o.row.value];
      }
      log := log + o.log;
      aborted := o.aborted;
      i := i + 1;
    }
    if i < |ds| {
      BatchStops(ds, i, ts, false);
    } else {
      assert ds[..i] == ds;
    }
  }

  /** The number of lines whose three stages succeed. */
  function Successes(ds: seq<Device>): nat
    decreases |ds|
  {
    if |ds| == 0 then 0
    else Successes(ds[..|ds| - 1]) + (var d := ds[|ds| - 1]; if Connects(d) && LogsIn(d) && GroupOk(d) then 1 else 0)
  }

  /** With the CTR default stored, the batch stops exactly when some line's
      setpoints read raises; otherwise it runs to the end and writes one row
      per line whose stages all succeed. */
  lemma {:induction false} CorrectedBatch(ds: seq<Device>, ts: string)
    ensures Batch(ds, ts, true).aborted <==> exists j :: 0 <= j < |ds| && ReadRaises(ds[j])
    ensures !Batch(ds, ts, true).aborted ==> |Batch(ds, ts, true).rows| == Successes(ds)
    decreases |ds|
  {
    if |ds| > 0 {
      var pre, last := ds[..|ds| - 1], ds[|ds| - 1];
      CorrectedBatch(pre, ts);
      CorrectedRowWritten(last, ts);
      ExistsSnoc(ds, pre, ReadRaises);
      var b, o := Batch(pre, ts, true), DeviceOutcome(last, ts, true);
      assert Batch(ds, ts, true)
        == if b.aborted then b else BatchResult(b.rows + (if o.row.Some? then [o.row.value] else []), b.log + o.log, o.aborted);
    }
  }

  /** Some element of a non-empty sequence satisfies `p` exactly when some
      element of its prefix or its last element does. */
  lemma ExistsSnoc<T>(s: seq<T>, pre: seq<T>, p: T -> bool)
    requires |s| > 0 && pre == s[..|s| - 1]
    ensures (exists j :: 0 <= j < |s| && p(s[j]))
      <==> (exists j :: 0 <= j < |pre| && p(pre[j])) || p(s[|s| - 1])
  {
    if exists j :: 0 <= j < |s| && p(s[j]) {
      var j :| 0 <= j < |s| && p(s[j]);
      if j < |pre| {
        assert pre[j] == s[j];
      }
    }
    if exists j :: 0 <= j < |pre| && p(pre[j]) {
      var j :| 0 <= j < |pre| && p(pre[j]);
      assert s[j] == pre[j];
    }
  }

  /** As written, the first line that stops the program is the last one
      processed: the batch result is that of the lines up to it. */
  lemma AbortEndsBatch(ds: seq<Device>, i: nat, ts: string)
    requires i < |ds| && DeviceOutcome(ds[i], ts, false).aborted
    requires forall j :: 0 <= j < i ==> !DeviceOutcome(ds[j], ts, false).aborted
    ensures Batch(ds, ts, false).aborted
    ensures Batch(ds, ts, false) == Batch(ds[..i + 1], ts, false)
  {
    NotAbortedBefore(ds, i, ts);
    assert ds[..i + 1][..i] == ds[..i];
    BatchStops(ds, i + 1, ts, false);
  }

  lemma {:induction false} NotAbortedBefore(ds: seq<Device>, i: nat, ts: string)
    requires i <= |ds|
    requires forall j :: 0 <= j < i ==> !DeviceOutcome(ds[j], ts, false).aborted
    ensures !Batch(ds[..i], ts, false).aborted
    decreases i
  {
    if i > 0 {
      assert ds[..i][..i - 1] == ds[..i - 1];
      NotAbortedBefore(ds, i - 1, ts);
    }
  }

  // ---------------------------------------------------------------------------
  // Timestamp and output file name
  // ---------------------------------------------------------------------------

  function Pad2(n: nat): (r: string)
    requires n < 100
    ensures |r| == 2 && IsDigit(r[0]) && IsDigit(r[1])
  {
    [DigitChar(n / 10), DigitChar(n % 10)]
  }

  /** `strftime("%Y%m%d") + " " + strftime("%H") + ":" + strftime("%M")` for a
      four-digit year. */
  function Timestamp(year: nat, month: nat, day: nat, hour: nat, minute: nat): string
    requires 1000 <= year <= 9999 && 1 <= month <= 12 && 1 <= day <= 31 && hour < 24 && minute < 60
  {
    NatToString(year) + Pad2(month) + Pad2(day) + " " + Pad2(hour) + ":" + Pad2(minute)
  }

  /** `"output_" + timestamp.replace(" ", "-").replace(":", "") + ".csv"`. */
  function FileName(ts: string): string {
    "output_" + ReplaceChar(ReplaceChar(ts, ' ', "-"), ':', "") + ".csv"
  }

  /** The output file name has no space and no colon, whatever the timestamp. */
  lemma FileNameClean(ts: string)
    ensures ' ' !in FileName(ts) && ':' !in FileName(ts)
  {
    var once := ReplaceChar(ts, ' ', "-");
    ReplaceCharRemoves(ts, ' ', "-");
    ReplaceCharRemoves(once, ':', "");
    var twice := ReplaceChar(once, ':', "");
    assert ' ' !in twice;
    var name := FileName(ts);
    assert name == "output_" + twice + ".csv";
    forall i | 0 <= i < |name| ensures name[i] != ' ' && name[i] != ':' {
      if i < 7 {
        assert name[i] == "output_"[i];
      } else if i < 7 + |twice| {
        assert name[i] == twice[i - 7];
      } else {
        assert name[i] == ".csv"[i - 7 - |twice|];
      }
    }
  }

  /** For a real timestamp the name is `output_YYYYMMDD-HHMM.csv`. */
  lemma FileNameOfTimestamp(year: nat, month: nat, day: nat, hour: nat, minute: nat)
    requires 1000 <= year <= 9999 && 1 <= month <= 12 && 1 <= day <= 31 && hour < 24 && minute < 60
    ensures FileName(Timestamp(year, month, day, hour, minute))
      == "output_" + NatToString(year) + Pad2(month) + Pad2(day) + "-" + Pad2(hour) + Pad2(minute) + ".csv"
  {
    var y, mo, dd := NatToString(year), Pad2(month), Pad2(day);
    var h, m := Pad2(hour), Pad2(minute);
    DigitsHaveNo(y);
    DigitsHaveNo(mo);
    DigitsHaveNo(dd);
    DigitsHaveNo(h);
    DigitsHaveNo(m);
    FileNameOfParts(y + mo + dd, h, m);
  }

  /** The name of a timestamp `date + " " + h + ":" + m` whose parts hold no
      space and no colon. */
  lemma FileNameOfParts(date: string, h: string, m: string)
    requires ' ' !in date && ' ' !in h && ' ' !in m
    requires ':' !in date && ':' !in h && ':' !in m
    ensures FileName(date + " " + h + ":" + m) == "output_" + date + "-" + h + m + ".csv"
  {
    var time := h + ":" + m;
    assert ' ' !in time by {
      assert time == h + [':'] + m;
    }
    assert date + " " + h + ":" + m == date + [' '] + time;
    ReplaceOne(date, ' ', time, ' ', "-");
    var once := date + "-" + time;
    assert once == (date + "-" + h) + [':'] + m;
    ReplaceOne(date + "-" + h, ':', m, ':', "");
  }

  /** Replacing a character that occurs once, at a known place. */
  lemma ReplaceOne(a: string, x: char, b: string, c: char, repl: string)
    requires c !in a && c !in b
    ensures ReplaceChar(a + [x] + b, c, repl) == a + (if x == c then repl else [x]) + b
  {
    ReplaceCharConcat(a + [x], b, c, repl);
    ReplaceCharConcat(a, [x], c, repl);
    ReplaceCharAbsent(a, c, repl);
    ReplaceCharAbsent(b, c, repl);
    ReplaceSingle(x, c, repl);
  }

  lemma ReplaceSingle(x: char, c: char, repl: string)
    ensures ReplaceChar([x], c, repl) == if x == c then repl else [x]
  {
    assert [x][0] == x && [x][1..] == [];
    assert ReplaceChar([], c, repl) == [];
  }

  /** Digit strings contain neither a space nor a colon. */
  lemma DigitsHaveNo(s: string)
    requires forall i :: 0 <= i < |s| ==> IsDigit(s[i])
    ensures ' ' !in s && ':' !in s
  {
  }
}
