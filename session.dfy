/** The `Recloser` record and its stage methods. The Telnet link is replaced by
    its state and a trace of what is written to it; each read of the device
    (`read_very_eager`) is a reply given to the method, `None` where reading
    raises. Lines appended to the connection error log are kept in `log`. */
module Session {
  import opened Wrappers
  import opened PyStr
  import opened Markers
  import opened Setpoints

  /** Telnet port and connect timeout in seconds. */
  const Port := 1700
  const Timeout := 5

  /** `self.WAIT`: the settle time after a write, in seconds. */
  const Wait: nat := 1

  /** `self.tn`: never opened, open, or closed (writing to a closed Telnet
      object raises `AttributeError`, as does writing before it exists). */
  datatype Link = Unconnected | Open | Closed

  /** How `Telnet(host, port, timeout)` ends: a connection, `socket.timeout`,
      `socket.gaierror` or `ConnectionRefusedError`. */
  datatype ConnectResult = Connected | TimedOut | AddressError | Refused

  /** What the program does on the link: opening it, writing bytes followed by
      a `sleep` of `wait` seconds, and reading what has arrived. */
  datatype Event = Dial(host: string, port: int, timeout: int) | Send(data: string, wait: nat) | Drain

  /** The reason logged for a failed connection. */
  function ConnectReason(r: ConnectResult): string {
    match r
    case Connected => ""
    case TimedOut => ", Timed out\r"
    case AddressError => ", Socket Error\r"
    case Refused => ", Refused connection\r"
  }

  /** The model text in an `ID` banner: between the first `SEL-` and the next
      `-`; `None` when the banner has no `SEL-`. */
  function BannerModel(banner: string): Option<string> {
    Eval([Piece("SEL-", 1), Piece("-", 0)], banner)
  }

  /** The marker before the active group number in the `GRO` reply. */
  const GroupMarker := "Active Group = "

  /** `int((output.split("Active Group = ")[1].split("=>")[0])[0])`, or `None`
      where that expression raises. */
  function GroupDigit(reply: string): Option<nat> {
    match Eval([Piece(GroupMarker, 1), Piece("=>", 0)], reply)
    case None => None
    case Some(p) => if |p| > 0 && IsDigit(p[0]) then Some(p[0] as int - '0' as int) else None
  }

  /** The banner's model is the text between the first `SEL-` and the next
      `-`, and there is one exactly when the banner contains `SEL-`. */
  lemma BannerModelMeaning(banner: string)
    ensures BannerModel(banner)
      == if Contains(banner, "SEL-") then Some(Before(After(banner, "SEL-"), "-")) else None
  {
    EvalSingle(Piece("SEL-", 1), banner);
    EvalSnoc([Piece("SEL-", 1)], Piece("-", 0), banner);
    assert [Piece("SEL-", 1)] + [Piece("-", 0)] == [Piece("SEL-", 1), Piece("-", 0)];
    PieceMeaning(banner, "SEL-");
    if Contains(banner, "SEL-") {
      PieceMeaning(After(banner, "SEL-"), "-");
    }
  }

  /** The group digit is the character right after the first
      `Active Group = `, when that character is a decimal digit; in every other
      case (marker missing, nothing after it, another character) there is none. */
  lemma GroupDigitMeaning(reply: string)
    ensures GroupDigit(reply).Some? <==>
      Contains(reply, GroupMarker)
      && IndexOf(reply, GroupMarker).value + |GroupMarker| < |reply|
      && IsDigit(reply[IndexOf(reply, GroupMarker).value + |GroupMarker|])
    ensures GroupDigit(reply).Some? ==>
      GroupDigit(reply).value == reply[IndexOf(reply, GroupMarker).value + |GroupMarker|] as int - '0' as int
  {
    var m := GroupMarker;
    var c := [Piece(m, 1), Piece("=>", 0)];
    EvalSingle(Piece(m, 1), reply);
    EvalSnoc([Piece(m, 1)], Piece("=>", 0), reply);
    assert [Piece(m, 1)] + [Piece("=>", 0)] == c;
    PieceMeaning(reply, m);
    if Contains(reply, m) {
      var k := IndexOf(reply, m).value + |m|;
      var rest := reply[k..];
      var a := After(reply, m);
      assert a == Before(rest, m);
      PieceMeaning(a, "=>");
      var p := Before(a, "=>");
      BeforePrefix(rest, m);
      BeforePrefix(a, "=>");
      if |p| > 0 {
        assert p[0] == a[0] == rest[0];
      }
      if |rest| > 0 && IsDigit(rest[0]) {
        BeforeKeepsHead(rest, m);
        BeforeKeepsHead(a, "=>");
      }
    }
  }

  /** A line of the connection error log: feeder id, ip, then the reason,
      which starts with a comma and ends with a carriage return. */
  function LogLine(fid: string, ip: string, reason: string): string {
    fid + "," + ip + reason
  }

  /** The `SHO` command for a settings group. */
  function ShowCommand(group: nat): string {
    "SHO " + NatToString(group) + "\r\n"
  }

  /** What `retrieve_setpoints` writes and reads on the link for a model of
      family `fam`: 651R sends `SHO <group>` and sleeps `2 * WAIT`; 351R and
      351RS send it and two blank lines, sleeping `4 * WAIT` after each; every
      known family then reads once. Other models do nothing. */
  function SetpointsTrace(fam: Option<Family>, group: nat): (t: seq<Event>)
    ensures fam.None? <==> t == []
    ensures fam.Some? ==> t[0] == Send(ShowCommand(group), if fam == Some(SEL651R) then 2 * Wait else 4 * Wait) && t[|t| - 1] == Drain
    ensures fam.Some? ==> |t| == if fam == Some(SEL651R) then 2 else 4
  {
    match fam
    case None => []
    case Some(SEL651R) => [Send(ShowCommand(group), 2 * Wait), Drain]
    case Some(_) => [Send(ShowCommand(group), 4 * Wait), Send("\r\n", 4 * Wait), Send("\r\n", 4 * Wait), Drain]
  }

  /** Everything about a recloser that its methods can change. */
  datatype Record = Record(
    group: nat, settings: Settings, model: Value, ctr: Option<int>, setpoints: string,
    link: Link, sent: seq<Event>, log: seq<string>)

  class Recloser {
    const fid: string
    const ip: string
    const password: string
    var group: nat
    /** The ten setting attributes `phPU` ... `gSTD`, kept together. */
    var settings: Settings
    var model: Value
    /** `self.ctr`: `None` while the attribute does not exist; the constructor
        never creates it. */
    var ctr: Option<int>
    var setpoints: string
    var link: Link
    var sent: seq<Event>
    var log: seq<string>

    function State(): Record
      reads this
    {
      Record(group, settings, model, ctr, setpoints, link, sent, log)
    }

    /** The record at the constructor's defaults: group 9, every setting and
        the model the integer 1, no CTR, empty setpoints. */
    constructor (fid: string, ip: string, password: string)
      ensures this.fid == fid && this.ip == ip && this.password == password
      ensures State() == Record(9, Defaults, Num(1), None, "", Unconnected, [], [])
    {
      this.fid := fid;
      this.ip := ip;
      this.password := password;
      group := 9;
      settings := Defaults;
      model := Num(1);
      ctr := None;
      setpoints := "";
      link := Unconnected;
      sent := [];
      log := [];
    }

    /** `connect_recloser`: 0 and an open link on success; otherwise 1 and one
        log line naming the reason. */
    method ConnectRecloser(result: ConnectResult) returns (code: int)
      modifies this
      ensures code == 0 <==> result == Connected
      ensures code == 1 <==> result != Connected
      ensures State() == old(State()).(
        link := if result == Connected then Open else old(link),
        sent := old(sent) + [Dial(ip, Port, Timeout)],
        log := old(log) + if result == Connected then [] else [LogLine(fid, ip, ConnectReason(result))])
    {
      sent := sent + [Dial(ip, Port, Timeout)];
      if result == Connected {
        link := Open;
        code := 0;
      } else {
        log := log + [LogLine(fid, ip, ConnectReason(result))];
        code := 1;
      }
    }

    /** `close_connection`: closing a closed link is harmless; without a link
        the error is caught and nothing changes. */
    method CloseConnection()
      modifies this
      ensures State() == old(State()).(link := if old(link) == Unconnected then Unconnected else Closed)
    {
      if link != Unconnected {
        link := Closed;
      }
    }

    /** `retrieve_model` on an open link: sends `ID`, waits, reads. A failed
        read (`ConnectionResetError`) or a banner without `SEL-` closes the
        link and keeps the model; otherwise the model becomes the banner's
        model text. Returns 0 exactly when the model is then one of the three
        known families. */
    method RetrieveModel(reply: Option<string>) returns (code: int)
      requires link == Open
      modifies this
      ensures var found := if reply.Some? then BannerModel(reply.value) else None;
        State() == old(State()).(
          model := if found.Some? then Str(found.value) else old(model),
          link := if found.Some? then Open else Closed,
          sent := old(sent) + [Send("ID\r\n", Wait), Drain])
      ensures code == 0 <==> FamilyOf(model).Some?
      ensures code == 1 <==> FamilyOf(model).None?
    {
      sent := sent + [Send("ID\r\n", Wait), Drain];
      match reply {
        case None =>
          link := Closed;
        case Some(output) =>
          var m := BannerModel(output);
          if m.Some? {
            model := Str(m.value);
          } else {
            link := Closed;
          }
      }
      if model == Str("651R") {
        code := 0;
      } else if model == Str("351R") {
        code := 0;
      } else if model == Str("351RS") {
        code := 0;
      } else {
        code := 1;
      }
    }

    /** `login`: on an open link sends `ACC` and the password, each followed by
        one wait, and returns 0; otherwise the write raises `AttributeError`,
        which is logged as `NoneType`, and it returns 1. */
    method Login() returns (code: int)
      modifies this
      ensures code == 0 <==> old(link) == Open
      ensures code == 1 <==> old(link) != Open
      ensures old(link) == Open ==>
        State() == old(State()).(sent := old(sent) + [Send("ACC\r\n", Wait), Send(password + "\r\n", Wait)])
      ensures old(link) != Open ==>
        State() == old(State()).(log := old(log) + [LogLine(fid, ip, ", NoneType\r")])
    {
      if link == Open {
        sent := sent + [Send("ACC\r\n", Wait), Send(password + "\r\n", Wait)];
        code := 0;
      } else {
        log := log + [LogLine(fid, ip, ", NoneType\r")];
        code := 1;
      }
    }

    /** `retrieve_group`: sends `GRO`, waits, reads, and stores the digit after
        `Active Group = `. Returns 0 exactly when that digit is 1 to 8; a digit
        0 or 9 is stored and returns 1; no link, a failed read, a missing marker
        or no digit there store 99 and return 1. */
    method RetrieveGroup(reply: Option<string>) returns (code: int)
      modifies this
      ensures var d := if old(link) == Open && reply.Some? then GroupDigit(reply.value) else None;
        State() == old(State()).(
          group := if d.Some? then d.value else 99,
          sent := old(sent) + if old(link) == Open then [Send("GRO\r\n", Wait), Drain] else [])
        && (code == 0 <==> d.Some? && 1 <= d.value <= 8)
        && (code == 1 <==> !(d.Some? && 1 <= d.value <= 8))
    {
      if link != Open {
        group := 99;
        code := 1;
        return;
      }
      sent := sent + [Send("GRO\r\n", Wait), Drain];
      var d := if reply.Some? then GroupDigit(reply.value) else None;
      match d
      case None =>
        group := 99;
        code := 1;
      case Some(digit) =>
        group := digit;
        if group > 0 && group < 9 {
          code := 0;
        } else {
          code := 1;
        }
    }

    /** `retrieve_setpoints`: for 651R one `SHO <group>` and a sleep of
        `2 * WAIT`; for 351R and 351RS that command and two blank lines, each
        followed by a sleep of `4 * WAIT`; then one read that becomes `setpoints`. The read
        has no handler: when it raises (`None`), the exception leaves the
        method with `setpoints` as it was, and `raised` is true. Any other
        model sends and reads nothing and keeps `setpoints`. */
    method RetrieveSetpoints(reply: Option<string>) returns (raised: bool)
      requires FamilyOf(model).Some? ==> link == Open
      modifies this
      ensures raised <==> FamilyOf(model).Some? && reply.None?
      ensures State() == old(State()).(
        setpoints := if FamilyOf(model).Some? && reply.Some? then reply.value else old(setpoints),
        sent := old(sent) + SetpointsTrace(FamilyOf(model), group))
    {
      raised := false;
      if model == Str("651R") {
        sent := sent + [Send(ShowCommand(group), 2 * Wait), Drain];
        if reply.None? {
          return true;
        }
        setpoints := reply.value;
      }
      if model == Str("351R") {
        sent := sent + [Send(ShowCommand(group), 4 * Wait), Send("\r\n", 4 * Wait), Send("\r\n", 4 * Wait), Drain];
        if reply.None? {
          return true;
        }
        setpoints := reply.value;
      }
      if model == Str("351RS") {
        sent := sent + [Send(ShowCommand(group), 4 * Wait), Send("\r\n", 4 * Wait), Send("\r\n", 4 * Wait), Drain];
        if reply.None? {
          return true;
        }
        setpoints := reply.value;
      }
    }

    /** `parse_ctr`: for a known family the CTR becomes the number read from
        the setpoints and the code 0, or 999999, the code 1 and one `No CTR`
        log line; any other model changes nothing and returns no code. */
    method ParseCtr() returns (code: Option<int>)
      modifies this`ctr, this`log
      ensures FamilyOf(model).None? ==> code.None? && ctr == old(ctr) && log == old(log)
      ensures FamilyOf(model).Some? ==>
        var n := ReadCtr(FamilyOf(model).value, setpoints);
        ctr == Some(n.GetOr(NoCtr))
        && log == old(log) + (if n.Some? then [] else [LogLine(fid, ip, ", No CTR\r")])
        && code == Some(if n.Some? then 0 else 1)
    {
      match FamilyOf(model)
      case None =>
        code := None;
      case Some(fam) =>
        match ReadCtr(fam, setpoints)
        case Some(n) =>
          ctr := Some(n);
          code := Some(0);
        case None =>
          ctr := Some(NoCtr);
          log := log + [LogLine(fid, ip, ", No CTR\r")];
          code := Some(1);
    }

    /** One of the ten `parse_ph*` / `parse_g*` methods: for a known family
        the field parser's result, for any other model no change and no code. */
    method ParseSetting(f: Setting) returns (code: Option<int>)
      modifies this`settings
      ensures settings == SettingsAfter(model, f, setpoints, ctr, old(settings))
      ensures code == if FamilyOf(model).Some? then Some(ParseField(FamilyOf(model).value, f, setpoints, ctr, old(settings)).1) else None
    {
      match FamilyOf(model)
      case None =>
        code := None;
      case Some(fam) =>
        var (next, c) := ParseField(fam, f, setpoints, ctr, settings);
        settings := next;
        code := Some(c);
    }

    /** `parse_all_settings`: `parse_ctr`, the five phase parsers, then the
        five ground parsers, their codes ignored. */
    method ParseAllSettings()
      modifies this`ctr, this`log, this`settings
      ensures FamilyOf(model).None? ==> ctr == old(ctr) && log == old(log) && settings == old(settings)
      ensures FamilyOf(model).Some? ==>
        var fam := FamilyOf(model).value;
        var n := ReadCtr(fam, setpoints);
        ctr == Some(n.GetOr(NoCtr))
        && settings == ParseFields(fam, setpoints, ctr, old(settings))
        && log == old(log) + (if n.Some? then [] else [LogLine(fid, ip, ", No CTR\r")])
    {
      var _ := ParseCtr();
      RunFieldParsers();
    }

    /** The ten field parsers of `parse_all_settings`, in `Order`. */
    method RunFieldParsers()
      modifies this`settings
      ensures FamilyOf(model).None? ==> settings == old(settings)
      ensures FamilyOf(model).Some? ==> settings == ParseFields(FamilyOf(model).value, setpoints, ctr, old(settings))
    {
      ghost var s0 := settings;
      var _ := ParseSetting(PhPU);
      ghost var s1 := settings;
      var _ := ParseSetting(PhFC);
      ghost var s2 := settings;
      var _ := ParseSetting(PhFTD);
      ghost var s3 := settings;
      var _ := ParseSetting(PhSC);
      ghost var s4 := settings;
      var _ := ParseSetting(PhSTD);
      ghost var s5 := settings;
      var _ := ParseSetting(GPU);
      ghost var s6 := settings;
      var _ := ParseSetting(GFC);
      ghost var s7 := settings;
      var _ := ParseSetting(GFTD);
      ghost var s8 := settings;
      var _ := ParseSetting(GSC);
      ghost var s9 := settings;
      var _ := ParseSetting(GSTD);
      ghost var s10 := settings;
      ParseOrder(model, setpoints, ctr, s0, s1, s2, s3, s4, s5, s6, s7, s8, s9, s10);
    }
  }

  /** What a field parser leaves in the settings for a record whose model is
      `model`. */
  function SettingsAfter(model: Value, f: Setting, text: string, ctr: Option<int>, cur: Settings): Settings {
    match FamilyOf(model)
    case None => cur
    case Some(fam) => ParseField(fam, f, text, ctr, cur).0
  }

  /** Running the parsers of `Order` one by one on a known family gives
      `ParseFields`; on any other model nothing changes. */
  lemma ParseOrder(model: Value, text: string, ctr: Option<int>, s0: Settings, s1: Settings, s2: Settings, s3: Settings, s4: Settings, s5: Settings, s6: Settings, s7: Settings, s8: Settings, s9: Settings, s10: Settings)
    requires s1 == SettingsAfter(model, PhPU, text, ctr, s0)
    requires s2 == SettingsAfter(model, PhFC, text, ctr, s1)
    requires s3 == SettingsAfter(model, PhFTD, text, ctr, s2)
    requires s4 == SettingsAfter(model, PhSC, text, ctr, s3)
    requires s5 == SettingsAfter(model, PhSTD, text, ctr, s4)
    requires s6 == SettingsAfter(model, GPU, text, ctr, s5)
    requires s7 == SettingsAfter(model, GFC, text, ctr, s6)
    requires s8 == SettingsAfter(model, GFTD, text, ctr, s7)
    requires s9 == SettingsAfter(model, GSC, text, ctr, s8)
    requires s10 == SettingsAfter(model, GSTD, text, ctr, s9)
    ensures FamilyOf(model).Some? ==> s10 == ParseFields(FamilyOf(model).value, text, ctr, s0)
    ensures FamilyOf(model).None? ==> s10 == s0
  {
    if FamilyOf(model).Some? {
      var fam := FamilyOf(model).value;
      RunParsersStep(fam, Order, 0, text, ctr, s0);
      RunParsersStep(fam, Order, 1, text, ctr, s1);
      RunParsersStep(fam, Order, 2, text, ctr, s2);
      RunParsersStep(fam, Order, 3, text, ctr, s3);
      RunParsersStep(fam, Order, 4, text, ctr, s4);
      RunParsersStep(fam, Order, 5, text, ctr, s5);
      RunParsersStep(fam, Order, 6, text, ctr, s6);
      RunParsersStep(fam, Order, 7, text, ctr, s7);
      RunParsersStep(fam, Order, 8, text, ctr, s8);
      RunParsersStep(fam, Order, 9, text, ctr, s9);
      assert Order[0..] == Order && Order[10..] == [];
    }
  }
}
