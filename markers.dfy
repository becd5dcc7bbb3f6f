/** Extraction chains: every setting a recloser parser reads is an expression
    `setpoints.split(m1)[1]...split(mk)[0].strip()`. A chain lists those steps;
    evaluating it fails (Python raises `IndexError`) exactly where a `[1]`
    finds its marker missing. */
module Markers {
  import opened Wrappers
  import opened PyStr

  /** One link: `.split(sep)[index]` or `.strip()`. */
  datatype Step = Piece(sep: string, index: nat) | Trim

  type Chain = seq<Step>

  function Apply(step: Step, s: string): Option<string> {
    match step
    case Piece(sep, i) => SplitAt(s, sep, i)
    case Trim => Some(Strip(s))
  }

  /** The chain applied left to right; `None` once a step raises. */
  function Eval(c: Chain, s: string): Option<string>
    decreases |c|
  {
    if |c| == 0 then Some(s)
    else
      match Eval(c[..|c| - 1], s)
      case None => None
      case Some(t) => Apply(c[|c| - 1], t)
  }

  /** The chains the parsers use: markers are non-empty and only `[0]` and
      `[1]` are taken. */
  predicate WellFormed(c: Chain) {
    forall k :: 0 <= k < |c| ==> (c[k].Piece? ==> |c[k].sep| > 0 && c[k].index <= 1)
  }

  // ---------------------------------------------------------------------------
  // Reference meaning of the two pieces
  // ---------------------------------------------------------------------------

  /** The text before the first `m`, or all of `s` when `m` does not occur. */
  function Before(s: string, m: string): string
    requires |m| > 0
  {
    match IndexOf(s, m)
    case None => s
    case Some(k) => s[..k]
  }

  /** The text strictly between the first `m` and the next one, or from the
      first `m` to the end of `s`. */
  function After(s: string, m: string): string
    requires |m| > 0 && Contains(s, m)
  {
    Before(s[IndexOf(s, m).value + |m|..], m)
  }

  /** `[0]` always succeeds with `Before`; `[1]` succeeds exactly when the
      marker occurs, with `After`. */
  lemma PieceMeaning(s: string, m: string)
    requires |m| > 0
    ensures Apply(Piece(m, 0), s) == Some(Before(s, m))
    ensures Apply(Piece(m, 1), s) == if Contains(s, m) then Some(After(s, m)) else None
  {
    SplitAtZero(s, m);
    SplitAtOne(s, m);
  }

  /** `Before` never contains its marker. */
  lemma BeforeFree(s: string, m: string)
    requires |m| > 0
    ensures !Contains(Before(s, m), m)
  {
    if Contains(s, m) {
      PrefixBeforeFirst(s, m, IndexOf(s, m).value);
    }
  }

  /** `Before` is a prefix of its text. */
  lemma BeforePrefix(s: string, m: string)
    requires |m| > 0
    ensures |Before(s, m)| <= |s| && Before(s, m) == s[..|Before(s, m)|]
  {
  }

  /** Text that does not start with the marker's first character keeps its
      first character in `Before`. */
  lemma BeforeKeepsHead(s: string, m: string)
    requires |m| > 0 && |s| > 0 && s[0] != m[0]
    ensures |Before(s, m)| > 0 && Before(s, m)[0] == s[0]
  {
    if Contains(s, m) {
      var k := IndexOf(s, m).value;
      assert s[k..k + |m|][0] == s[k];
    }
  }

  // ---------------------------------------------------------------------------
  // Failure of a chain
  // ---------------------------------------------------------------------------

  /** Step `k` is a `[1]` whose marker is missing from the text it is given. */
  predicate MissingAt(c: Chain, s: string, k: nat) {
    k < |c| && c[k].Piece? && c[k].index == 1 && Eval(c[..k], s).Some?
    && !Contains(Eval(c[..k], s).value, c[k].sep)
  }

  /** A well-formed chain fails exactly when some `split(m)[1]` meets text
      without `m`; `[0]` and `strip()` never fail. */
  lemma {:induction false} EvalFails(c: Chain, s: string)
    requires WellFormed(c)
    ensures Eval(c, s).None? <==> exists k: nat :: MissingAt(c, s, k)
    decreases |c|
  {
    if |c| > 0 {
      var p := c[..|c| - 1];
      PrefixWellFormed(c);
      EvalFails(p, s);
      PrefixMissing(c, s);
      match Eval(p, s)
      case None =>
        var k: nat :| MissingAt(p, s, k);
        assert MissingAt(c, s, k);
      case Some(t) =>
        LastStep(c, p, s, t);
    }
  }

  /** A prefix of a well-formed chain is well formed. */
  lemma PrefixWellFormed(c: Chain)
    requires |c| > 0 && WellFormed(c)
    ensures WellFormed(c[..|c| - 1])
  {
    var p := c[..|c| - 1];
    forall k | 0 <= k < |p| ensures (p[k].Piece? ==> |p[k].sep| > 0 && p[k].index <= 1) {
      assert p[k] == c[k];
    }
  }

  /** The steps of the prefix fail in the chain exactly where they fail in the
      prefix. */
  lemma PrefixMissing(c: Chain, s: string)
    requires |c| > 0
    ensures forall k: nat :: k < |c| - 1 ==> (MissingAt(c[..|c| - 1], s, k) <==> MissingAt(c, s, k))
  {
    var p := c[..|c| - 1];
    forall k: nat | k < |p|
      ensures MissingAt(p, s, k) <==> MissingAt(c, s, k)
    {
      assert p[..k] == c[..k];
      assert p[k] == c[k];
    }
  }

  /** When the prefix succeeds with `t`, the chain fails exactly when its last
      step is a `[1]` whose marker `t` lacks, which is `MissingAt` of the last
      index. */
  lemma LastStep(c: Chain, p: Chain, s: string, t: string)
    requires |c| > 0 && p == c[..|c| - 1] && WellFormed(c) && Eval(p, s) == Some(t)
    requires !exists k: nat :: MissingAt(p, s, k)
    requires forall k: nat :: k < |p| ==> (MissingAt(p, s, k) <==> MissingAt(c, s, k))
    ensures Eval(c, s).None? <==> exists k: nat :: MissingAt(c, s, k)
  {
    var last := c[|c| - 1];
    assert Eval(c, s) == Apply(last, t);
    if last.Piece? {
      PieceMeaning(t, last.sep);
    }
    if Eval(c, s).None? {
      assert MissingAt(c, s, |c| - 1);
    } else {
      forall k: nat ensures !MissingAt(c, s, k) {
        if k < |c| - 1 {
          assert !MissingAt(p, s, k);
        }
      }
    }
  }

  /** Evaluating one more step. */
  lemma EvalSnoc(c: Chain, step: Step, s: string)
    ensures Eval(c + [step], s) == match Eval(c, s) case None => None case Some(t) => Apply(step, t)
  {
    assert (c + [step])[..|c|] == c;
  }

  /** A one-step chain is that step. */
  lemma EvalSingle(step: Step, s: string)
    ensures Eval([step], s) == Apply(step, s)
  {
    assert [step][..0] == [];
  }

  /** A chain made of two chains: the second is applied to the first's value. */
  lemma {:induction false} EvalAppend(a: Chain, b: Chain, s: string)
    ensures Eval(a + b, s) == match Eval(a, s) case None => None case Some(t) => Eval(b, t)
    decreases |b|
  {
    if |b| == 0 {
      assert a + b == a;
    } else {
      var b' := b[..|b| - 1];
      assert (a + b)[..|a + b| - 1] == a + b';
      assert (a + b)[|a + b| - 1] == b[|b| - 1];
      EvalAppend(a, b', s);
    }
  }

  /** A chain ending in `strip()` yields stripped text. */
  lemma EndsStripped(c: Chain, s: string)
    requires |c| > 0 && c[|c| - 1] == Trim && Eval(c, s).Some?
    ensures Strip(Eval(c, s).value) == Eval(c, s).value
  {
    StripIdempotent(Eval(c[..|c| - 1], s).value);
  }

  // ---------------------------------------------------------------------------
  // The chain shapes of the three firmware families
  // ---------------------------------------------------------------------------

  /** `split(open)[1].split(close)[0].strip()` (the 351R layout, `NAME =value`). */
  function Bracket(open: string, close: string): Chain {
    [Piece(open, 1), Piece(close, 0), Trim]
  }

  /** `split(open)[1].split(eq)[1].split(close)[0].strip()` (the 651R layout with
      `:=`, the 351RS layout with `=`). */
  function Assigned(open: string, eq: string, close: string): Chain {
    [Piece(open, 1), Piece(eq, 1), Piece(close, 0), Trim]
  }

  /** The extra cut a few parsers apply afterwards: `split(m)[0].strip()`. */
  function Cut(m: string): Chain {
    [Piece(m, 0), Trim]
  }

  /** The shapes are well formed when their markers are non-empty, and so is
      a chain made of well-formed parts. */
  lemma ShapesWellFormed(open: string, eq: string, close: string)
    requires |open| > 0 && |eq| > 0 && |close| > 0
    ensures WellFormed(Bracket(open, close)) && WellFormed(Assigned(open, eq, close))
    ensures WellFormed(Cut(close)) && WellFormed([Piece(close, 0)])
  {
  }

  lemma AppendWellFormed(a: Chain, b: Chain)
    requires WellFormed(a) && WellFormed(b)
    ensures WellFormed(a + b)
  {
    forall k | 0 <= k < |a + b|
      ensures (a + b)[k].Piece? ==> |(a + b)[k].sep| > 0 && (a + b)[k].index <= 1
    {
      if k < |a| {
        assert (a + b)[k] == a[k];
      } else {
        assert (a + b)[k] == b[k - |a|];
      }
    }
  }

  /** A bracket chain fails exactly when `open` is missing; otherwise it gives
      the trimmed text after `open` up to `close`. */
  lemma BracketValue(open: string, close: string, s: string)
    requires |open| > 0 && |close| > 0
    ensures Eval(Bracket(open, close), s)
      == if Contains(s, open) then Some(Strip(Before(After(s, open), close))) else None
  {
    var c := Bracket(open, close);
    assert c == [Piece(open, 1)] + [Piece(close, 0)] + [Trim];
    EvalSingle(Piece(open, 1), s);
    EvalSnoc([Piece(open, 1)], Piece(close, 0), s);
    EvalSnoc([Piece(open, 1)] + [Piece(close, 0)], Trim, s);
    PieceMeaning(s, open);
    if Contains(s, open) {
      PieceMeaning(After(s, open), close);
    }
  }

  /** An assigned chain fails exactly when `open` is missing or `eq` does not
      follow it; otherwise it gives the trimmed value after `eq` up to `close`. */
  lemma AssignedValue(open: string, eq: string, close: string, s: string)
    requires |open| > 0 && |eq| > 0 && |close| > 0
    ensures Eval(Assigned(open, eq, close), s)
      == if Contains(s, open) && Contains(After(s, open), eq)
         then Some(Strip(Before(After(After(s, open), eq), close)))
         else None
  {
    var c := Assigned(open, eq, close);
    var c1 := [Piece(open, 1)];
    var c2 := c1 + [Piece(eq, 1)];
    var c3 := c2 + [Piece(close, 0)];
    assert c == c3 + [Trim];
    EvalSingle(Piece(open, 1), s);
    EvalSnoc(c1, Piece(eq, 1), s);
    EvalSnoc(c2, Piece(close, 0), s);
    EvalSnoc(c3, Trim, s);
    PieceMeaning(s, open);
    if Contains(s, open) {
      var a := After(s, open);
      PieceMeaning(a, eq);
      if Contains(a, eq) {
        PieceMeaning(After(a, eq), close);
      }
    }
  }

  /** A cut never fails: a missing marker keeps the whole (trimmed) value, so
      the inner `except` around a cut is never taken. */
  lemma CutValue(m: string, s: string)
    requires |m| > 0
    ensures Eval(Cut(m), s) == Some(Strip(Before(s, m)))
  {
    assert Cut(m) == [Piece(m, 0)] + [Trim];
    EvalSingle(Piece(m, 0), s);
    EvalSnoc([Piece(m, 0)], Trim, s);
    PieceMeaning(s, m);
  }

  /** Cutting at the marker the chain already stopped at changes nothing: the
      value has no such marker left and is already trimmed. */
  lemma CutAgain(c: Chain, m: string, s: string)
    requires |m| > 0 && |c| >= 2 && c[|c| - 2] == Piece(m, 0) && c[|c| - 1] == Trim
    ensures Eval(c + Cut(m), s) == Eval(c, s)
  {
    EvalAppend(c, Cut(m), s);
    var q := c[..|c| - 1];
    var p := q[..|q| - 1];
    assert q[|q| - 1] == Piece(m, 0);
    match Eval(p, s)
    case None =>
    case Some(t) =>
      PieceMeaning(t, m);
      assert Eval(q, s) == Some(Before(t, m));
      BeforeFree(t, m);
      CutFixed(Before(t, m), m);
  }

  /** Text cut at `m` and trimmed is left alone by a second cut at `m`. */
  lemma CutFixed(b: string, m: string)
    requires |m| > 0 && !Contains(b, m)
    ensures Eval(Cut(m), Strip(b)) == Some(Strip(b))
  {
    StripKeepsFree(b, m);
    StripIdempotent(b);
    CutValue(m, Strip(b));
  }
}
