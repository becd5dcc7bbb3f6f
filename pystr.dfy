/** The few Python `str` operations the extraction logic is built from:
    `s.split(sep)`, indexing its result, `s.strip()`, `s.replace(c, r)` for a
    one-character `c`, and `str(n)` for a natural number. */
module PyStr {
  import opened Wrappers

  // ---------------------------------------------------------------------------
  // Occurrences of a separator
  // ---------------------------------------------------------------------------

  /** `sep` occurs in `s` starting at index `k`. */
  predicate OccursAt(s: string, sep: string, k: int) {
    0 <= k && k + |sep| <= |s| && s[k..k + |sep|] == sep
  }

  predicate Contains(s: string, sep: string) {
    exists k :: 0 <= k <= |s| && OccursAt(s, sep, k)
  }

  /** The first index at or after `i` where `sep` occurs in `s`. */
  function IndexFrom(s: string, sep: string, i: nat): (r: Option<nat>)
    requires |sep| > 0
    ensures r.Some? ==> i <= r.value && OccursAt(s, sep, r.value)
    ensures r.Some? ==> forall j :: i <= j < r.value ==> !OccursAt(s, sep, j)
    ensures r.None? ==> forall j :: i <= j ==> !OccursAt(s, sep, j)
    decreases |s| - i
  {
    if i + |sep| > |s| then None
    else if s[i..i + |sep|] == sep then Some(i)
    else IndexFrom(s, sep, i + 1)
  }

  /** Index of the first occurrence of `sep` in `s` (what `s.find(sep)` scans for). */
  function IndexOf(s: string, sep: string): (r: Option<nat>)
    requires |sep| > 0
    ensures r.Some? ==> OccursAt(s, sep, r.value)
    ensures r.Some? ==> forall j :: 0 <= j < r.value ==> !OccursAt(s, sep, j)
    ensures r.None? <==> !Contains(s, sep)
  {
    IndexFrom(s, sep, 0)
  }

  /** A piece of a string that has no occurrence of `sep` has none either. */
  lemma FreePiece(s: string, a: string, b: string, c: string, sep: string)
    requires s == a + b + c && !Contains(s, sep)
    ensures !Contains(b, sep)
  {
    forall k | 0 <= k <= |b| && k + |sep| <= |b|
      ensures !OccursAt(b, sep, k)
    {
      assert s[|a| + k..|a| + k + |sep|] == b[k..k + |sep|];
      assert !OccursAt(s, sep, |a| + k);
    }
  }

  /** The prefix before the first occurrence has no occurrence. */
  lemma PrefixBeforeFirst(s: string, sep: string, k: nat)
    requires |sep| > 0 && IndexOf(s, sep) == Some(k)
    ensures !Contains(s[..k], sep)
  {
    forall j | 0 <= j <= k
      ensures !OccursAt(s[..k], sep, j)
    {
      if j + |sep| <= k {
        assert !OccursAt(s, sep, j);
        assert s[..k][j..j + |sep|] == s[j..j + |sep|];
      }
    }
  }

  // ---------------------------------------------------------------------------
  // str.split
  // ---------------------------------------------------------------------------

  /** `s.split(sep)` for a non-empty `sep`: the pieces between successive
      non-overlapping occurrences, scanned left to right. */
  function Split(s: string, sep: string): (r: seq<string>)
    requires |sep| > 0
    ensures |r| >= 1
    decreases |s|
  {
    match IndexOf(s, sep)
    case None => [s]
    case Some(k) => [s[..k]] + Split(s[k + |sep|..], sep)
  }

  /** `sep.join(parts)`. */
  function Join(parts: seq<string>, sep: string): string
    decreases |parts|
  {
    if |parts| == 0 then ""
    else if |parts| == 1 then parts[0]
    else parts[0] + sep + Join(parts[1..], sep)
  }

  /** One step of the split: the piece before the first occurrence, then the
      split of what follows it. */
  lemma SplitStep(s: string, sep: string, k: nat)
    requires |sep| > 0 && IndexOf(s, sep) == Some(k)
    ensures Split(s, sep) == [s[..k]] + Split(s[k + |sep|..], sep)
    ensures s == s[..k] + sep + s[k + |sep|..]
  {
    assert s[k..k + |sep|] == sep;
    Thirds(s, k, k + |sep|);
  }

  /** A string is its three slices at `i <= j`, put back together. */
  lemma Thirds(s: string, i: nat, j: nat)
    requires i <= j <= |s|
    ensures s == s[..i] + s[i..j] + s[j..]
  {
    assert s[..j] == s[..i] + s[i..j];
    assert s == s[..j] + s[j..];
  }

  /** Slices of a suffix are slices of the string. */
  lemma SuffixSlices(s: string, i: nat, n: nat)
    requires i + n <= |s|
    ensures s[i..][..n] == s[i..i + n] && s[i..][n..] == s[i + n..]
  {
  }

  /** Joining the pieces with the separator gives the string back. */
  lemma {:induction false} JoinSplit(s: string, sep: string)
    requires |sep| > 0
    ensures Join(Split(s, sep), sep) == s
    decreases |s|
  {
    match IndexOf(s, sep)
    case None =>
    case Some(k) =>
      var rest := s[k + |sep|..];
      JoinSplit(rest, sep);
      SplitStep(s, sep, k);
      var tail := Split(rest, sep);
      var parts := [s[..k]] + tail;
      assert parts[0] == s[..k] && parts[1..] == tail;
  }

  /** No piece of the split contains the separator. */
  lemma {:induction false} SplitPiecesFree(s: string, sep: string)
    requires |sep| > 0
    ensures forall i :: 0 <= i < |Split(s, sep)| ==> !Contains(Split(s, sep)[i], sep)
    decreases |s|
  {
    match IndexOf(s, sep)
    case None =>
    case Some(k) =>
      PrefixBeforeFirst(s, sep, k);
      SplitPiecesFree(s[k + |sep|..], sep);
  }

  /** `s.split(sep)[i]`: `None` is the `IndexError` of a missing piece, and an
      empty separator is Python's `ValueError`. */
  function SplitAt(s: string, sep: string, i: nat): Option<string> {
    if |sep| == 0 then None
    else
      var parts := Split(s, sep);
      if i < |parts| then Some(parts[i]) else None
  }

  /** `s.split(sep)[0]` never fails: it is the text before the first occurrence
      of `sep`, or all of `s` when `sep` does not occur. */
  lemma SplitAtZero(s: string, sep: string)
    requires |sep| > 0
    ensures SplitAt(s, sep, 0).Some?
    ensures !Contains(s, sep) ==> SplitAt(s, sep, 0) == Some(s)
    ensures Contains(s, sep) ==>
      var k := IndexOf(s, sep).value;
      SplitAt(s, sep, 0) == Some(s[..k])
  {
  }

  /** `s.split(sep)[1]` exists exactly when `sep` occurs, and it is the text
      strictly between the first occurrence and the next one, or the end of `s`. */
  lemma SplitAtOne(s: string, sep: string)
    requires |sep| > 0
    ensures SplitAt(s, sep, 1).Some? <==> Contains(s, sep)
    ensures Contains(s, sep) ==>
      var rest := s[IndexOf(s, sep).value + |sep|..];
      SplitAt(s, sep, 1) == Some(if Contains(rest, sep) then rest[..IndexOf(rest, sep).value] else rest)
  {
    if Contains(s, sep) {
      var k := IndexOf(s, sep).value;
      var rest := s[k + |sep|..];
      assert Split(s, sep) == [s[..k]] + Split(rest, sep);
    }
  }

  /** Taking the prefix before `sep` a second time changes nothing. */
  lemma SplitAtZeroIdempotent(s: string, sep: string)
    requires |sep| > 0
    ensures SplitAt(SplitAt(s, sep, 0).value, sep, 0) == SplitAt(s, sep, 0)
  {
    var p := SplitAt(s, sep, 0).value;
    SplitPiecesFree(s, sep);
    assert p == Split(s, sep)[0];
    assert !Contains(p, sep);
  }

  /** A separator with a character that `s` lacks does not occur in `s`. */
  lemma MissingChar(s: string, sep: string, i: nat)
    requires i < |sep| && sep[i] !in s
    ensures !Contains(s, sep)
  {
    forall k | 0 <= k <= |s| && k + |sep| <= |s|
      ensures !OccursAt(s, sep, k)
    {
      assert s[k..k + |sep|][i] == s[k + i];
    }
  }

  // ---------------------------------------------------------------------------
  // str.strip
  // ---------------------------------------------------------------------------

  /** `c.isspace()` on ASCII: space, `\t\n\v\f\r` and the separators U+001C..U+001F. */
  predicate IsSpace(c: char) {
    c == ' ' || ('\t' <= c <= '\r') || ('\U{1C}' <= c <= '\U{1F}')
  }

  predicate AllSpace(s: string) {
    forall i :: 0 <= i < |s| ==> IsSpace(s[i])
  }

  /** `s.lstrip()`: the suffix left after the leading whitespace. */
  function StripLeft(s: string): (r: string)
    ensures |r| <= |s| && r == s[|s| - |r|..]
    ensures AllSpace(s[..|s| - |r|])
    ensures r == [] || !IsSpace(r[0])
    decreases |s|
  {
    if |s| > 0 && IsSpace(s[0]) then
      var r := StripLeft(s[1..]);
      assert s[..|s| - |r|] == [s[0]] + s[1..][..|s| - 1 - |r|];
      r
    else s
  }

  /** `s.rstrip()`: the prefix left after the trailing whitespace. */
  function StripRight(s: string): (r: string)
    ensures |r| <= |s| && r == s[..|r|]
    ensures AllSpace(s[|r|..])
    ensures r == [] || !IsSpace(r[|r| - 1])
    decreases |s|
  {
    if |s| > 0 && IsSpace(s[|s| - 1]) then
      var p := s[..|s| - 1];
      var r := StripRight(p);
      assert s[..|r|] == p[..|r|];
      assert s[|r|..] == p[|r|..] + [s[|s| - 1]];
      AllSpaceSnoc(p[|r|..], s[|s| - 1]);
      r
    else s
  }

  lemma AllSpaceSnoc(a: string, c: char)
    requires AllSpace(a) && IsSpace(c)
    ensures AllSpace(a + [c])
  {
    forall i | 0 <= i < |a + [c]| ensures IsSpace((a + [c])[i]) {
      if i < |a| {
        assert (a + [c])[i] == a[i];
      }
    }
  }

  /** `s.strip()`. */
  function Strip(s: string): string {
    StripRight(StripLeft(s))
  }

  /** The number of whitespace characters `s.strip()` removes at the front. */
  function LeadingSpace(s: string): nat {
    |s| - |StripLeft(s)|
  }

  /** `r` is `s` with the whitespace-only prefix of length `i` and a
      whitespace-only suffix removed, and neither end of `r` is whitespace. */
  predicate Trimmed(s: string, i: nat, r: string) {
    i + |r| <= |s| && r == s[i..i + |r|] && AllSpace(s[..i]) && AllSpace(s[i + |r|..])
    && (r == [] || (!IsSpace(r[0]) && !IsSpace(r[|r| - 1])))
  }

  /** `s.strip()` is `s` with its leading and trailing whitespace removed, and
      neither end of the result is whitespace. */
  lemma StripShape(s: string)
    ensures Trimmed(s, LeadingSpace(s), Strip(s))
  {
    var l := StripLeft(s);
    var r := StripRight(l);
    assert LeadingSpace(s) == |s| - |l| && Strip(s) == r;
    TrimmedShape(s, l, r);
  }

  /** The shape of a string with a whitespace run cut from its front (`l`)
      and then from the back of that (`r`). */
  lemma TrimmedShape(s: string, l: string, r: string)
    requires |l| <= |s| && l == s[|s| - |l|..] && AllSpace(s[..|s| - |l|]) && (l == [] || !IsSpace(l[0]))
    requires |r| <= |l| && r == l[..|r|] && AllSpace(l[|r|..]) && (r == [] || !IsSpace(r[|r| - 1]))
    ensures Trimmed(s, |s| - |l|, r)
  {
    var i := |s| - |l|;
    SuffixSlices(s, i, |r|);
    if r != [] {
      assert r[0] == l[0];
    }
  }

  /** Stripping twice is the same as stripping once. */
  lemma StripIdempotent(s: string)
    ensures Strip(Strip(s)) == Strip(s)
  {
    StripShape(s);
    StripFixed(Strip(s));
  }

  /** A string without whitespace at either end is its own strip. */
  lemma StripFixed(s: string)
    requires s == [] || (!IsSpace(s[0]) && !IsSpace(s[|s| - 1]))
    ensures Strip(s) == s
  {
    assert StripLeft(s) == s;
  }

  /** Stripping a string without `sep` cannot create an occurrence of `sep`. */
  lemma StripKeepsFree(s: string, sep: string)
    requires !Contains(s, sep)
    ensures !Contains(Strip(s), sep)
  {
    var l := StripLeft(s);
    var r := StripRight(l);
    var i := |s| - |l|;
    assert LeadingSpace(s) == i && Strip(s) == r;
    StripSlice(s);
    FreePiece(s, s[..i], r, s[i + |r|..], sep);
  }

  /** `s.strip()` is the slice of `s` after the leading whitespace. */
  lemma StripSlice(s: string)
    ensures LeadingSpace(s) + |Strip(s)| <= |s|
    ensures Strip(s) == s[LeadingSpace(s)..LeadingSpace(s) + |Strip(s)|]
    ensures s == s[..LeadingSpace(s)] + Strip(s) + s[LeadingSpace(s) + |Strip(s)|..]
  {
    StripShape(s);
    var i, r := LeadingSpace(s), Strip(s);
    Thirds(s, i, i + |r|);
  }

  // ---------------------------------------------------------------------------
  // str.replace with a one-character pattern, and str(n)
  // ---------------------------------------------------------------------------

  /** `s.replace(c, repl)` for a one-character pattern `c`: every `c` becomes `repl`. */
  function ReplaceChar(s: string, c: char, repl: string): (r: string)
    decreases |s|
  {
    if |s| == 0 then ""
    else (if s[0] == c then repl else [s[0]]) + ReplaceChar(s[1..], c, repl)
  }

  /** After the replacement `c` no longer occurs unless `repl` brings it back, and
      every other character of the result was already in `s` or `repl`. */
  lemma {:induction false} ReplaceCharRemoves(s: string, c: char, repl: string)
    requires c !in repl
    ensures c !in ReplaceChar(s, c, repl)
    ensures forall x :: x in ReplaceChar(s, c, repl) ==> x in s || x in repl
    decreases |s|
  {
    if |s| > 0 {
      ReplaceCharRemoves(s[1..], c, repl);
    }
  }

  /** Replacement distributes over concatenation. */
  lemma {:induction false} ReplaceCharConcat(a: string, b: string, c: char, repl: string)
    ensures ReplaceChar(a + b, c, repl) == ReplaceChar(a, c, repl) + ReplaceChar(b, c, repl)
    decreases |a|
  {
    if |a| > 0 {
      assert (a + b)[0] == a[0] && (a + b)[1..] == a[1..] + b;
      ReplaceCharConcat(a[1..], b, c, repl);
    } else {
      assert a + b == b;
    }
  }

  /** A string without `c` is left as it is. */
  lemma {:induction false} ReplaceCharAbsent(s: string, c: char, repl: string)
    requires c !in s
    ensures ReplaceChar(s, c, repl) == s
    decreases |s|
  {
    if |s| > 0 {
      ReplaceCharAbsent(s[1..], c, repl);
    }
  }

  predicate IsDigit(c: char) {
    '0' <= c <= '9'
  }

  function DigitChar(d: nat): (c: char)
    requires d < 10
    ensures IsDigit(c) && c as int - '0' as int == d
  {
    ('0' as int + d) as char
  }

  /** `str(n)` for a natural number: its decimal digits, most significant first. */
  function NatToString(n: nat): (r: string)
    ensures |r| >= 1 && forall i :: 0 <= i < |r| ==> IsDigit(r[i])
    ensures n < 10 ==> r == [DigitChar(n)]
  {
    if n < 10 then [DigitChar(n)] else NatToString(n / 10) + [DigitChar(n % 10)]
  }
}
