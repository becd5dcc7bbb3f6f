/** `int(float(t))` on the text a relay prints for a setting, restricted to plain
    decimal numbers: an optional sign, digits, and an optional fraction. Python's
    `float` also accepts exponents, `inf`, `nan` and digit separators; those are
    not part of this model and are rejected here. */
module Numbers {
  import opened Wrappers
  import opened PyStr

  predicate AllDigits(s: string) {
    forall i :: 0 <= i < |s| ==> IsDigit(s[i])
  }

  /** The value of a string of decimal digits (0 for the empty string). */
  function DigitsValue(s: string): nat
    requires AllDigits(s)
    decreases |s|
  {
    if |s| == 0 then 0
    else DigitsValue(s[..|s| - 1]) * 10 + (s[|s| - 1] as int - '0' as int)
  }

  /** `float(t)` accepts `t` (within the restricted grammar). */
  predicate IsDecimal(t: string) {
    ParseDecimal(t).Some?
  }

  /** The number of decimal digits at the front of `s`. */
  function DigitRun(s: string): (r: nat)
    ensures r <= |s| && AllDigits(s[..r])
    ensures r < |s| ==> !IsDigit(s[r])
    decreases |s|
  {
    if |s| > 0 && IsDigit(s[0]) then
      var r := 1 + DigitRun(s[1..]);
      assert s[..r] == [s[0]] + s[1..][..r - 1];
      r
    else 0
  }

  /** The unsigned part of `int(float(t))`: digits with an optional fraction,
      at least one digit in all; the fraction is dropped. */
  function ParseUnsignedText(body: string): Option<nat> {
    var n := DigitRun(body);
    var rest := body[n..];
    if rest == [] && n > 0 then Some(DigitsValue(body[..n]))
    else if rest != [] && rest[0] == '.' && AllDigits(rest[1..]) && n + |rest| > 1 then
      Some(DigitsValue(body[..n]))
    else None
  }

  /** `int(float(t))`: the number with its fraction truncated toward zero, or
      `None` where Python raises `ValueError`. */
  function ParseDecimal(t: string): Option<int> {
    if |t| > 0 && t[0] == '-' then
      match ParseUnsignedText(t[1..]) case None => None case Some(v) => Some(0 - v)
    else if |t| > 0 && t[0] == '+' then
      match ParseUnsignedText(t[1..]) case None => None case Some(v) => Some(v)
    else
      match ParseUnsignedText(t) case None => None case Some(v) => Some(v)
  }

  /** Reading back the decimal digits of `n` gives `n`. */
  lemma {:induction false} DigitsOfNat(n: nat)
    ensures AllDigits(NatToString(n)) && DigitsValue(NatToString(n)) == n
  {
    var s := NatToString(n);
    if n >= 10 {
      DigitsOfNat(n / 10);
      assert s[..|s| - 1] == NatToString(n / 10);
    }
  }

  /** `int(float(str(n)))` is `n`. */
  lemma ParseNat(n: nat)
    ensures ParseDecimal(NatToString(n)) == Some(n)
  {
    var s := NatToString(n);
    DigitsOfNat(n);
    assert DigitRun(s) == |s|;
    assert s[..|s|] == s;
  }

  /** The unsigned part `w + "." + f` of a number reads as the digits `w`. */
  lemma ParseUnsigned(w: string, f: string)
    requires AllDigits(w) && AllDigits(f) && |w| > 0
    ensures ParseUnsignedText(w + "." + f) == Some(DigitsValue(w))
  {
    var body := w + "." + f;
    DigitRunStopsAtDot(w, f);
    assert body[..|w|] == w;
    assert body[|w|..][1..] == f;
  }

  /** The digit run is the length of the all-digit prefix that is followed by
      a non-digit or the end. */
  lemma {:induction false} DigitRunIs(s: string, k: nat)
    requires k <= |s| && AllDigits(s[..k]) && (k < |s| ==> !IsDigit(s[k]))
    ensures DigitRun(s) == k
    decreases k
  {
    if k > 0 {
      assert s[..k][0] == s[0];
      var tail := s[1..][..k - 1];
      forall i | 0 <= i < |tail|
        ensures IsDigit(tail[i])
      {
        assert tail[i] == s[..k][i + 1];
      }
      DigitRunIs(s[1..], k - 1);
    }
  }

  /** The digit run of `w + "." + f` ends at the decimal point. */
  lemma DigitRunStopsAtDot(w: string, f: string)
    requires AllDigits(w)
    ensures DigitRun(w + "." + f) == |w|
  {
    var body := w + "." + f;
    assert body[..|w|] == w;
    assert body[|w|] == '.';
    DigitRunIs(body, |w|);
  }

  /** A sign in front of the unsigned text negates or keeps its value. */
  lemma ParseSigned(sign: string, body: string, v: nat)
    requires sign == "" || sign == "+" || sign == "-"
    requires sign == "" ==> |body| > 0 && IsDigit(body[0])
    requires ParseUnsignedText(body) == Some(v)
    ensures ParseDecimal(sign + body) == Some(if sign == "-" then 0 - v else v)
  {
    var t := sign + body;
    if sign == "" {
      assert t == body;
    } else {
      assert t[0] == sign[0] && t[1..] == body;
    }
  }

  /** `int(float(w + "." + f))` drops the fraction, so `int(float("1000.5"))` is 1000. */
  lemma ParseDropsFraction(w: string, f: string)
    requires AllDigits(w) && |w| > 0 && AllDigits(f)
    ensures ParseDecimal(w + "." + f) == Some(DigitsValue(w))
  {
    var body := w + "." + f;
    ParseUnsigned(w, f);
    assert body[0] == w[0];
    ParseSigned("", body, DigitsValue(w));
    assert "" + body == body;
  }

  /** `int(float(str(n) + "." + f))` is `n`. */
  lemma ParseNatWithFraction(n: nat, f: string)
    requires AllDigits(f)
    ensures ParseDecimal(NatToString(n) + "." + f) == Some(n)
  {
    DigitsOfNat(n);
    ParseDropsFraction(NatToString(n), f);
  }

  /** Text with a character that is neither a digit, a sign in front, nor the
      decimal point is not a number. */
  lemma ParseRejects(t: string, i: nat)
    requires i < |t| && !IsDigit(t[i]) && t[i] != '.'
    requires i > 0 || (t[0] != '-' && t[0] != '+')
    ensures ParseDecimal(t) == None
  {
    var signed := t[0] == '-' || t[0] == '+';
    var body := if signed then t[1..] else t;
    var j := if signed then i - 1 else i;
    assert body[j] == t[i];
    var n := DigitRun(body);
    if j >= n && body[n..] != [] && body[n] == '.' {
      assert body[n..][1..][j - n - 1] == body[j];
    }
  }
}
