/** The recloser's setting fields, the marker tables of the three firmware
    families, and what the field parsers and `parse_all_settings` compute from
    a setpoints transcript. */
module Setpoints {
  import opened Wrappers
  import opened PyStr
  import opened Numbers
  import opened Markers

  /** A Python value held by a record field: the constructor's integer
      defaults, or text read from the device. */
  datatype Value = Num(n: int) | Str(text: string)

  datatype Family = SEL651R | SEL351R | SEL351RS

  /** Which of the `self.model == "651R"` / `"351R"` / `"351RS"` tests holds;
      the integer default and any other text match none of them. */
  function FamilyOf(model: Value): (r: Option<Family>)
    ensures r == Some(SEL651R) <==> model == Str("651R")
    ensures r == Some(SEL351R) <==> model == Str("351R")
    ensures r == Some(SEL351RS) <==> model == Str("351RS")
  {
    if model == Str("651R") then Some(SEL651R)
    else if model == Str("351R") then Some(SEL351R)
    else if model == Str("351RS") then Some(SEL351RS)
    else None
  }

  /** The ten protection settings: phase and ground pickup, fast curve, fast
      time dial, slow curve and slow time dial. */
  datatype Setting = PhPU | PhFC | PhFTD | PhSC | PhSTD | GPU | GFC | GFTD | GSC | GSTD {
    predicate IsGround() {
      this in {GPU, GFC, GFTD, GSC, GSTD}
    }

    /** Pickups are the two fields whose parser also evaluates
        `float(value) * self.ctr`. */
    predicate IsPickup() {
      this == PhPU || this == GPU
    }

    /** The phase setting a ground setting corresponds to. */
    function Phase(): (r: Setting)
      ensures !r.IsGround()
      ensures !IsGround() ==> r == this
    {
      match this
      case GPU => PhPU
      case GFC => PhFC
      case GFTD => PhFTD
      case GSC => PhSC
      case GSTD => PhSTD
      case _ => this
    }
  }

  /** The ten setting fields of the record. */
  datatype Settings = Settings(
    phPU: Value, phFC: Value, phFTD: Value, phSC: Value, phSTD: Value,
    gPU: Value, gFC: Value, gFTD: Value, gSC: Value, gSTD: Value)
  {
    function Get(f: Setting): Value {
      match f
      case PhPU => phPU
      case PhFC => phFC
      case PhFTD => phFTD
      case PhSC => phSC
      case PhSTD => phSTD
      case GPU => gPU
      case GFC => gFC
      case GFTD => gFTD
      case GSC => gSC
      case GSTD => gSTD
    }

    /** The record with field `f` assigned and every other field kept. */
    function Set(f: Setting, v: Value): (r: Settings)
      ensures r.Get(f) == v
      ensures forall g :: g != f ==> r.Get(g) == Get(g)
    {
      match f
      case PhPU => this.(phPU := v)
      case PhFC => this.(phFC := v)
      case PhFTD => this.(phFTD := v)
      case PhSC => this.(phSC := v)
      case PhSTD => this.(phSTD := v)
      case GPU => this.(gPU := v)
      case GFC => this.(gFC := v)
      case GFTD => this.(gFTD := v)
      case GSC => this.(gSC := v)
      case GSTD => this.(gSTD := v)
    }
  }

  /** The constructor's defaults: every setting is the integer 1. */
  const Defaults := Settings(Num(1), Num(1), Num(1), Num(1), Num(1), Num(1), Num(1), Num(1), Num(1), Num(1))

  const Phases: seq<Setting> := [PhPU, PhFC, PhFTD, PhSC, PhSTD]
  const Grounds: seq<Setting> := [GPU, GFC, GFTD, GSC, GSTD]

  /** The order in which `parse_all_settings` calls the field parsers: the
      five phase parsers, then the five ground parsers. */
  const Order: seq<Setting> := [PhPU, PhFC, PhFTD, PhSC, PhSTD, GPU, GFC, GFTD, GSC, GSTD]

  // ---------------------------------------------------------------------------
  // Marker tables
  // ---------------------------------------------------------------------------

  /** How a field parser obtains its value: by an extraction chain over the
      transcript, or (351RS ground settings) by copying a phase field. */
  datatype Rule = Extract(chain: Chain) | Mirror(source: Setting)

  function RuleOf(fam: Family, f: Setting): Rule {
    match fam
    case SEL651R => Extract(Chain651R(f))
    case SEL351R => Extract(Chain351R(f))
    case SEL351RS => if f.IsGround() then Mirror(f.Phase()) else Extract(Chain351RS(f))
  }

  /** 651R settings print as `NAME := value`. */
  function Chain651R(f: Setting): Chain {
    match f
    case PhPU => Assigned("51PJP", ":=", "51PJC")
    case PhFC => Assigned("51PJC", ":=", "51PJTD")
    case PhFTD => Assigned("51PJTD", ":=", "51PJCT") + Cut("51PJRS")
    case PhSC => Assigned("51PKC", ":=", "51PKTD")
    case PhSTD => Assigned("51PKTD", ":=", "51PKRS") + Cut("51PKCT")
    case GPU => Assigned("51G1JP", ":=", "51G1JC")
    case GFC => Assigned("51G1JC", ":=", "51G1JTD")
    case GFTD => Assigned("51G1JTD", ":=", "51G1JCT") + Cut("51G1JRS")
    case GSC => Assigned("51G1KC", ":=", "51G1KTD")
    case GSTD => Assigned("51G1KTD", ":=", "51G1KRS") + Cut("51G1KCT")
  }

  /** 351R settings print as `NAME =value`; the opening marker includes the `=`.
      The ground slow time dial is cut at `51G2RS` without a final strip. */
  function Chain351R(f: Setting): Chain {
    match f
    case PhPU => Bracket("51P1P =", "51P1C")
    case PhFC => Bracket("51P1C =", "51P1TD=")
    case PhFTD => Bracket("51P1TD=", "51P1CT")
    case PhSC => Bracket("51P2C =", "51P2TD")
    case PhSTD => Bracket("51P2TD=", "51P2CT=") + Cut("51P2RS")
    case GPU => Bracket("51G1P =", "51G1C")
    case GFC => Bracket("51G1C =", "51G1TD=")
    case GFTD => Bracket("51G1TD=", "51G1CT=")
    case GSC => Bracket("51G2C =", "51G2TD=")
    case GSTD => Bracket("51G2TD=", "51G2CT=") + [Piece("51G2RS", 0)]
  }

  /** 351RS phase settings print as `NAME = value`; its ground settings are
      not read from the transcript. */
  function Chain351RS(f: Setting): Chain {
    match f
    case PhPU => Assigned("51P1P", "=", "51P1C")
    case PhFC => Assigned("51P1C", "=", "51P1TD")
    case PhFTD => Assigned("51P1TD", "=", "51P1CT")
    case PhSC => Assigned("51P2C", "=", "51P2TD")
    case PhSTD => Assigned("51P2TD", "=", "51P2RS") + Cut("51P2RS")
    case _ => []
  }

  /** The chain `parse_ctr` reads the current transformer ratio with. */
  function CtrChain(fam: Family): Chain {
    match fam
    case SEL651R => [Piece("CTR", 1), Piece(":=", 1), Trim]
    case SEL351R => [Piece("CTR", 1), Piece("=", 1), Trim]
    case SEL351RS => Assigned("CTR", "=", "PTR")
  }

  // ---------------------------------------------------------------------------
  // The parsers
  // ---------------------------------------------------------------------------

  /** The value `parse_ctr` stores when the ratio cannot be read. */
  const NoCtr := 999999

  /** `int(float(...))` of the CTR text, or `None` when a marker is missing or
      the text is not a number. */
  function ReadCtr(fam: Family, s: string): Option<int> {
    match Eval(CtrChain(fam), s)
    case None => None
    case Some(t) => ParseDecimal(t)
  }

  /** The value an extracting parser leaves in its field: the chain's text, or
      the previous value when the chain raises. */
  function Extracted(c: Chain, s: string, previous: Value): Value {
    match Eval(c, s)
    case None => previous
    case Some(v) => Str(v)
  }

  /** One field parser of a recognised family: the record afterwards and the
      return code. A mirrored field copies its phase field and returns 0. An
      extracted field keeps its old value and returns 1 when the chain raises;
      otherwise the text is stored, and a pickup still returns 1 when the text
      is no number or the CTR has never been set. */
  function ParseField(fam: Family, f: Setting, s: string, ctr: Option<int>, cur: Settings): (Settings, int) {
    match RuleOf(fam, f)
    case Mirror(p) => (cur.Set(f, cur.Get(p)), 0)
    case Extract(c) =>
      match Eval(c, s)
      case None => (cur, 1)
      case Some(v) =>
        (cur.Set(f, Str(v)), if f.IsPickup() && !(IsDecimal(v) && ctr.Some?) then 1 else 0)
  }

  /** The parsers of `fs` run one after the other. */
  function RunParsers(fam: Family, fs: seq<Setting>, s: string, ctr: Option<int>, cur: Settings): Settings
    decreases |fs|
  {
    if |fs| == 0 then cur
    else RunParsers(fam, fs[1..], s, ctr, ParseField(fam, fs[0], s, ctr, cur).0)
  }

  /** The settings after `parse_all_settings` (its CTR part is `ReadCtr`). */
  function ParseFields(fam: Family, s: string, ctr: Option<int>, cur: Settings): Settings {
    RunParsers(fam, Order, s, ctr, cur)
  }

  // ---------------------------------------------------------------------------
  // Properties of the parsers
  // ---------------------------------------------------------------------------

  /** Every chain in the tables is well formed. */
  lemma TablesWellFormed(fam: Family, f: Setting)
    ensures RuleOf(fam, f).Extract? ==> WellFormed(RuleOf(fam, f).chain)
    ensures WellFormed(CtrChain(fam))
  {
    match fam
    case SEL651R =>
      Table651RWellFormed(f);
      ShapesWellFormed("CTR", ":=", ":=");
    case SEL351R =>
      Table351RWellFormed(f);
    case SEL351RS =>
      Table351RSWellFormed(f);
      ShapesWellFormed("CTR", "=", "PTR");
  }

  lemma Table651RWellFormed(f: Setting)
    ensures WellFormed(Chain651R(f))
  {
    match f {
      case PhPU => ShapesWellFormed("51PJP", ":=", "51PJC");
      case PhFC => ShapesWellFormed("51PJC", ":=", "51PJTD");
      case PhFTD => ShapesWellFormed("51PJTD", ":=", "51PJCT"); ShapesWellFormed("51PJTD", ":=", "51PJRS");
        AppendWellFormed(Assigned("51PJTD", ":=", "51PJCT"), Cut("51PJRS"));
      case PhSC => ShapesWellFormed("51PKC", ":=", "51PKTD");
      case PhSTD => ShapesWellFormed("51PKTD", ":=", "51PKRS"); ShapesWellFormed("51PKTD", ":=", "51PKCT");
        AppendWellFormed(Assigned("51PKTD", ":=", "51PKRS"), Cut("51PKCT"));
      case GPU => ShapesWellFormed("51G1JP", ":=", "51G1JC");
      case GFC => ShapesWellFormed("51G1JC", ":=", "51G1JTD");
      case GFTD => ShapesWellFormed("51G1JTD", ":=", "51G1JCT"); ShapesWellFormed("51G1JTD", ":=", "51G1JRS");
        AppendWellFormed(Assigned("51G1JTD", ":=", "51G1JCT"), Cut("51G1JRS"));
      case GSC => ShapesWellFormed("51G1KC", ":=", "51G1KTD");
      case GSTD => ShapesWellFormed("51G1KTD", ":=", "51G1KRS"); ShapesWellFormed("51G1KTD", ":=", "51G1KCT");
        AppendWellFormed(Assigned("51G1KTD", ":=", "51G1KRS"), Cut("51G1KCT"));
    }
  }

  lemma Table351RWellFormed(f: Setting)
    ensures WellFormed(Chain351R(f))
  {
    match f {
      case PhPU => ShapesWellFormed("51P1P =", "=", "51P1C");
      case PhFC => ShapesWellFormed("51P1C =", "=", "51P1TD=");
      case PhFTD => ShapesWellFormed("51P1TD=", "=", "51P1CT");
      case PhSC => ShapesWellFormed("51P2C =", "=", "51P2TD");
      case PhSTD => ShapesWellFormed("51P2TD=", "=", "51P2CT="); ShapesWellFormed("51P2TD=", "=", "51P2RS");
        AppendWellFormed(Bracket("51P2TD=", "51P2CT="), Cut("51P2RS"));
      case GPU => ShapesWellFormed("51G1P =", "=", "51G1C");
      case GFC => ShapesWellFormed("51G1C =", "=", "51G1TD=");
      case GFTD => ShapesWellFormed("51G1TD=", "=", "51G1CT=");
      case GSC => ShapesWellFormed("51G2C =", "=", "51G2TD=");
      case GSTD => ShapesWellFormed("51G2TD=", "=", "51G2CT="); ShapesWellFormed("51G2TD=", "=", "51G2RS");
        AppendWellFormed(Bracket("51G2TD=", "51G2CT="), [Piece("51G2RS", 0)]);
    }
  }

  lemma Table351RSWellFormed(f: Setting)
    ensures WellFormed(Chain351RS(f))
  {
    match f {
      case PhPU => ShapesWellFormed("51P1P", "=", "51P1C");
      case PhFC => ShapesWellFormed("51P1C", "=", "51P1TD");
      case PhFTD => ShapesWellFormed("51P1TD", "=", "51P1CT");
      case PhSC => ShapesWellFormed("51P2C", "=", "51P2TD");
      case PhSTD => ShapesWellFormed("51P2TD", "=", "51P2RS");
        AppendWellFormed(Assigned("51P2TD", "=", "51P2RS"), Cut("51P2RS"));
      case _ =>
    }
  }

  /** An extracting parser assigns its field exactly when every `split(m)[1]`
      finds its marker, and then stores the chain's text; when a marker is
      missing it returns 1 and leaves the whole record as it was. */
  lemma ExtractedField(fam: Family, f: Setting, s: string, ctr: Option<int>, cur: Settings)
    requires RuleOf(fam, f).Extract?
    ensures var c := RuleOf(fam, f).chain;
      var (next, code) := ParseField(fam, f, s, ctr, cur);
      ((exists k: nat :: MissingAt(c, s, k)) ==> next == cur && code == 1)
      && (!(exists k: nat :: MissingAt(c, s, k)) ==>
            Eval(c, s).Some? && next == cur.Set(f, Str(Eval(c, s).value))
            && (code == 0 <==> !f.IsPickup() || (IsDecimal(Eval(c, s).value) && ctr.Some?)))
  {
    TablesWellFormed(fam, f);
    EvalFails(RuleOf(fam, f).chain, s);
  }

  /** Every extracted value is free of surrounding whitespace, except the 351R
      ground slow time dial, whose last cut is not followed by `strip()`. */
  lemma ExtractedStripped(fam: Family, f: Setting, s: string)
    requires RuleOf(fam, f).Extract? && (fam, f) != (SEL351R, GSTD)
    requires Eval(RuleOf(fam, f).chain, s).Some?
    ensures Strip(Eval(RuleOf(fam, f).chain, s).value) == Eval(RuleOf(fam, f).chain, s).value
  {
    EndsStripped(RuleOf(fam, f).chain, s);
  }

  /** The 351R ground slow time dial is the bracketed text cut at `51G2RS`,
      with no strip after the cut. */
  lemma GroundSlowDialCut(s: string)
    ensures Eval(Chain351R(GSTD), s)
      == match Eval(Bracket("51G2TD=", "51G2CT="), s) case None => None case Some(t) => Some(Before(t, "51G2RS"))
  {
    EvalAppend(Bracket("51G2TD=", "51G2CT="), [Piece("51G2RS", 0)], s);
    match Eval(Bracket("51G2TD=", "51G2CT="), s)
    case None =>
    case Some(t) =>
      EvalSingle(Piece("51G2RS", 0), t);
      PieceMeaning(t, "51G2RS");
  }

  /** The exception: a 351R transcript where the ground slow time dial keeps a
      trailing space that `strip()` would remove. */
  lemma GroundSlowDialUnstripped()
    ensures Eval(Chain351R(GSTD), "51G2TD=1 51G2RS") == Some("1 ")
    ensures Strip("1 ") == "1"
  {
    var s := "51G2TD=1 51G2RS";
    var rest := "1 51G2RS";
    BracketExample(s, rest);
    GroundSlowDialCut(s);
    assert Eval(Chain351R(GSTD), s) == Some(Before(rest, "51G2RS"));
    CutExample(rest);
    TrailingSpaceStripped();
  }

  lemma TrailingSpaceStripped()
    ensures Strip("1 ") == "1"
  {
    assert StripLeft("1 ") == "1 ";
  }

  lemma CutExample(rest: string)
    requires rest == "1 51G2RS"
    ensures Before(rest, "51G2RS") == "1 "
  {
    assert OccursAt(rest, "51G2RS", 2);
    assert rest[0..6][0] == '1' && rest[1..7][0] == ' ';
    assert IndexOf(rest, "51G2RS") == Some(2);
    assert rest[..2] == "1 ";
  }

  lemma BracketExample(s: string, rest: string)
    requires s == "51G2TD=1 51G2RS" && rest == "1 51G2RS"
    ensures Eval(Bracket("51G2TD=", "51G2CT="), s) == Some(rest)
  {
    assert OccursAt(s, "51G2TD=", 0);
    assert IndexOf(s, "51G2TD=") == Some(0);
    assert s[7..] == rest;
    MissingChar(rest, "51G2TD=", 4);
    assert After(s, "51G2TD=") == rest;
    MissingChar(rest, "51G2CT=", 5);
    assert Before(rest, "51G2CT=") == rest;
    StripFixed(rest);
    BracketValue("51G2TD=", "51G2CT=", s);
  }

  /** The 351RS phase slow time dial is cut at `51P2RS` twice; the second cut
      changes nothing. */
  lemma SlowDialCutTwice(s: string)
    ensures Eval(Chain351RS(PhSTD), s) == Eval(Assigned("51P2TD", "=", "51P2RS"), s)
  {
    CutAgain(Assigned("51P2TD", "=", "51P2RS"), "51P2RS", s);
  }

  /** The cut after an extraction never raises: the chain with the cut
      succeeds exactly when the chain without it does. */
  lemma CutsNeverFail(a: Chain, m: string, s: string)
    requires |m| > 0
    ensures Eval(a + Cut(m), s).Some? <==> Eval(a, s).Some?
  {
    EvalAppend(a, Cut(m), s);
    if Eval(a, s).Some? {
      CutValue(m, Eval(a, s).value);
    }
  }

  /** A run of parsers that all extract leaves each field it covers with that
      field's own extraction (applied to the value it had before), and every
      other field untouched: fields do not influence each other. */
  lemma {:induction false} ExtractorsIndependent(fam: Family, fs: seq<Setting>, s: string, ctr: Option<int>, cur: Settings, g: Setting)
    requires forall f :: f in fs ==> RuleOf(fam, f).Extract?
    ensures RunParsers(fam, fs, s, ctr, cur).Get(g)
      == if g in fs then Extracted(RuleOf(fam, g).chain, s, cur.Get(g)) else cur.Get(g)
    decreases |fs|
  {
    if |fs| > 0 {
      var f, rest := fs[0], fs[1..];
      var next := ParseField(fam, f, s, ctr, cur).0;
      ExtractStep(fam, f, s, ctr, cur, g);
      assert forall h :: h in rest ==> h in fs;
      ExtractorsIndependent(fam, rest, s, ctr, next, g);
      assert RunParsers(fam, fs, s, ctr, cur) == RunParsers(fam, rest, s, ctr, next);
      assert g in fs <==> g == f || g in rest;
      if g in fs {
        ExtractTwice(RuleOf(fam, g).chain, s, g == f, g in rest,
          cur.Get(g), next.Get(g), RunParsers(fam, rest, s, ctr, next).Get(g));
      }
    }
  }

  /** A field extracted once or twice with the same chain ends the same. */
  lemma ExtractTwice(c: Chain, s: string, first: bool, second: bool, x0: Value, x1: Value, r: Value)
    requires x1 == if first then Extracted(c, s, x0) else x0
    requires r == if second then Extracted(c, s, x1) else x1
    ensures r == if first || second then Extracted(c, s, x0) else x0
  {
  }

  /** One extracting parser changes its own field only, to its extraction. */
  lemma ExtractStep(fam: Family, f: Setting, s: string, ctr: Option<int>, cur: Settings, g: Setting)
    requires RuleOf(fam, f).Extract?
    ensures ParseField(fam, f, s, ctr, cur).0.Get(g)
      == if g == f then Extracted(RuleOf(fam, f).chain, s, cur.Get(g)) else cur.Get(g)
  {
    var c := RuleOf(fam, f).chain;
    ExtractRecord(fam, f, c, s, ctr, cur);
  }

  /** The record after an extracting parser whose chain is `c`. */
  lemma ExtractRecord(fam: Family, f: Setting, c: Chain, s: string, ctr: Option<int>, cur: Settings)
    requires RuleOf(fam, f) == Extract(c)
    ensures ParseField(fam, f, s, ctr, cur).0 == cur.Set(f, Extracted(c, s, cur.Get(f)))
  {
    match Eval(c, s)
    case None =>
      assert cur.Set(f, cur.Get(f)) == cur by {
        SetSame(cur, f);
      }
    case Some(v) =>
  }

  /** Assigning a field its own value changes nothing. */
  lemma SetSame(cur: Settings, f: Setting)
    ensures cur.Set(f, cur.Get(f)) == cur
  {
  }

  /** A copying parser stores its source field's value and always returns 0. */
  lemma MirrorField(fam: Family, f: Setting, s: string, ctr: Option<int>, cur: Settings)
    requires RuleOf(fam, f).Mirror?
    ensures ParseField(fam, f, s, ctr, cur) == (cur.Set(f, cur.Get(RuleOf(fam, f).source)), 0)
  {
  }

  /** A run of mirror parsers copies each mirrored field's source as it was
      before the run, provided no source is itself overwritten by the run. */
  lemma {:induction false} MirrorsCopy(fam: Family, fs: seq<Setting>, s: string, ctr: Option<int>, cur: Settings, g: Setting)
    requires forall f :: f in fs ==> RuleOf(fam, f).Mirror? && RuleOf(fam, f).source !in fs
    ensures RunParsers(fam, fs, s, ctr, cur).Get(g)
      == if g in fs then cur.Get(RuleOf(fam, g).source) else cur.Get(g)
    decreases |fs|
  {
    if |fs| > 0 {
      var f := fs[0];
      var next := ParseField(fam, f, s, ctr, cur).0;
      assert forall h :: h in fs[1..] ==> h in fs;
      MirrorsCopy(fam, fs[1..], s, ctr, next, g);
      assert g in fs <==> g == f || g in fs[1..];
      if g in fs {
        assert RuleOf(fam, g).source !in fs;
      }
    }
  }

  /** Running the parsers from position `i` on is running the one at `i`,
      then the rest. */
  lemma RunParsersStep(fam: Family, fs: seq<Setting>, i: nat, s: string, ctr: Option<int>, cur: Settings)
    requires i < |fs|
    ensures RunParsers(fam, fs[i..], s, ctr, cur)
      == RunParsers(fam, fs[i + 1..], s, ctr, ParseField(fam, fs[i], s, ctr, cur).0)
  {
    assert fs[i..][1..] == fs[i + 1..];
  }

  /** Running `a` then `b` is running their concatenation. */
  lemma {:induction false} RunParsersAppend(fam: Family, a: seq<Setting>, b: seq<Setting>, s: string, ctr: Option<int>, cur: Settings)
    ensures RunParsers(fam, a + b, s, ctr, cur)
      == RunParsers(fam, b, s, ctr, RunParsers(fam, a, s, ctr, cur))
    decreases |a|
  {
    if |a| == 0 {
      assert a + b == b;
    } else {
      assert (a + b)[0] == a[0] && (a + b)[1..] == a[1..] + b;
      RunParsersAppend(fam, a[1..], b, s, ctr, ParseField(fam, a[0], s, ctr, cur).0);
    }
  }

  /** For 651R and 351R, `parse_all_settings` leaves every field with its own
      extraction from the transcript, or its previous value when that
      extraction raises. */
  lemma SeparateFields(fam: Family, s: string, ctr: Option<int>, cur: Settings, g: Setting)
    requires fam != SEL351RS
    ensures ParseFields(fam, s, ctr, cur).Get(g) == Extracted(RuleOf(fam, g).chain, s, cur.Get(g))
  {
    ExtractorsIndependent(fam, Order, s, ctr, cur, g);
  }

  /** For 351RS the phase parsers extract and the ground parsers copy a
      phase field. */
  lemma Rules351RS()
    ensures forall f :: f in Phases ==> RuleOf(SEL351RS, f) == Extract(Chain351RS(f))
    ensures forall f :: f in Grounds ==> RuleOf(SEL351RS, f) == Mirror(f.Phase()) && f.Phase() !in Grounds
  {
  }

  /** For 351RS, `parse_all_settings` reads the phase fields from the
      transcript and then every ground field equals its phase field, even when
      that phase field still holds its previous value. */
  lemma GroundMirrorsPhase(s: string, ctr: Option<int>, cur: Settings, g: Setting)
    ensures var after := ParseFields(SEL351RS, s, ctr, cur);
      after.Get(g) == Extracted(Chain351RS(g.Phase()), s, cur.Get(g.Phase()))
  {
    assert Order == Phases + Grounds;
    RunParsersAppend(SEL351RS, Phases, Grounds, s, ctr, cur);
    var mid := RunParsers(SEL351RS, Phases, s, ctr, cur);
    Rules351RS();
    assert g.Phase() in Phases;
    assert g in Grounds <==> g.IsGround();
    ExtractorsIndependent(SEL351RS, Phases, s, ctr, cur, g.Phase());
    MirrorsCopy(SEL351RS, Grounds, s, ctr, mid, g);
  }
}
