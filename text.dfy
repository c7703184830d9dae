/** The parts of Rust's `str` that the diagnostic pipeline relies on:
    `starts_with`, `splitn(3, '\n')`, `lines()`, and the decimal text of an
    unsigned integer (`to_string` and `parse`). */
module Text {
  import opened Wrappers

  predicate IsDigit(c: char) { '0' <= c <= '9' }

  predicate AllDigits(s: string) { forall k :: 0 <= k < |s| ==> IsDigit(s[k]) }

  /** `s.starts_with(prefix)` */
  predicate StartsWith(s: string, prefix: string) {
    |prefix| <= |s| && s[..|prefix|] == prefix
  }

  function Spaces(n: nat): (r: string)
    ensures |r| == n && forall k :: 0 <= k < n ==> r[k] == ' '
  {
    seq(n, _ => ' ')
  }

  /** The first index at or after `i` that holds `c`, or `|s|` if there is none. */
  function FindChar(s: string, c: char, i: nat): (k: nat)
    requires i <= |s|
    ensures i <= k <= |s|
    ensures k < |s| ==> s[k] == c
    ensures forall j :: i <= j < k ==> s[j] != c
    decreases |s| - i
  {
    if i == |s| || s[i] == c then i else FindChar(s, c, i + 1)
  }

  /** The end of the run of `c` that starts at `i`. */
  function SpanChar(s: string, c: char, i: nat): (k: nat)
    requires i <= |s|
    ensures i <= k <= |s|
    ensures k < |s| ==> s[k] != c
    ensures forall j :: i <= j < k ==> s[j] == c
    decreases |s| - i
  {
    if i == |s| || s[i] != c then i else SpanChar(s, c, i + 1)
  }

  /** The end of the run of decimal digits that starts at `i`. */
  function SpanDigits(s: string, i: nat): (k: nat)
    requires i <= |s|
    ensures i <= k <= |s|
    ensures k < |s| ==> !IsDigit(s[k])
    ensures forall j :: i <= j < k ==> IsDigit(s[j])
    decreases |s| - i
  {
    if i == |s| || !IsDigit(s[i]) then i else SpanDigits(s, i + 1)
  }

  /** A prefix stays a prefix when the same text is put in front of both, and
      what follows it is unchanged. */
  lemma StartsWithPrepend(p: string, w: string, m: string)
    requires StartsWith(w, m)
    ensures StartsWith(p + w, p + m)
    ensures (p + w)[|p + m|..] == w[|m|..]
  {
    assert (p + w)[..|p + m|] == p + w[..|m|];
  }

  lemma StartsWithSplit(s: string, p: string)
    requires StartsWith(s, p)
    ensures s == p + s[|p|..]
  {
  }

  lemma FindCharOf(a: string, c: char, rest: string)
    requires c !in a
    requires rest == "" || rest[0] == c
    ensures FindChar(a + rest, c, 0) == |a|
  {
    if rest != "" {
      assert (a + rest)[|a|] == rest[0];
    }
    assert forall j :: 0 <= j < |a| ==> (a + rest)[j] == a[j];
  }

  lemma SpanCharOf(a: string, c: char, rest: string)
    requires forall k :: 0 <= k < |a| ==> a[k] == c
    requires rest == "" || rest[0] != c
    ensures SpanChar(a + rest, c, 0) == |a|
  {
    if rest != "" {
      assert (a + rest)[|a|] == rest[0];
    }
    assert forall j :: 0 <= j < |a| ==> (a + rest)[j] == a[j];
  }

  lemma SpanDigitsOf(a: string, rest: string)
    requires AllDigits(a)
    requires rest == "" || !IsDigit(rest[0])
    ensures SpanDigits(a + rest, 0) == |a|
  {
    if rest != "" {
      assert (a + rest)[|a|] == rest[0];
    }
    assert forall j :: 0 <= j < |a| ==> (a + rest)[j] == a[j];
  }

  /** The text up to the first newline of `w`. */
  function RestOfLine(w: string): (m: string)
    ensures '\n' !in m && StartsWith(w, m)
    ensures |m| == |w| || w[|m|] == '\n'
  {
    var k := FindChar(w, '\n', 0);
    assert forall j :: 0 <= j < k ==> w[..k][j] == w[j];
    w[..k]
  }

  lemma RestOfLineOf(m: string, tail: string)
    requires '\n' !in m
    requires tail == "" || tail[0] == '\n'
    ensures RestOfLine(m + tail) == m
  {
    FindCharOf(m, '\n', tail);
    assert (m + tail)[..|m|] == m;
  }

  // ---------------------------------------------------------------------------
  // splitn(3, '\n')
  // ---------------------------------------------------------------------------

  /** Splits `s` at its first newline, if it has one. */
  function SplitOnce(s: string): (r: Option<(string, string)>)
    ensures r.None? <==> '\n' !in s
    ensures r.Some? ==> s == r.value.0 + "\n" + r.value.1 && '\n' !in r.value.0
  {
    var k := FindChar(s, '\n', 0);
    if k == |s| then None
    else
      assert s == s[..k] + "\n" + s[k + 1..];
      Some((s[..k], s[k + 1..]))
  }

  /** The pieces joined back together with a newline between neighbours. */
  function JoinLines(ps: seq<string>): string
  {
    if |ps| <= 1 then (if ps == [] then "" else ps[0])
    else ps[0] + "\n" + JoinLines(ps[1..])
  }

  /** `s.splitn(3, '\n').collect()`: at most three pieces; only the last may
      hold a newline, and only when there are three. */
  function SplitN3(s: string): (ps: seq<string>)
    ensures 1 <= |ps| <= 3
    ensures JoinLines(ps) == s
    ensures forall k :: 0 <= k < |ps| - 1 ==> '\n' !in ps[k]
    ensures |ps| < 3 ==> '\n' !in ps[|ps| - 1]
  {
    match SplitOnce(s)
    case None => [s]
    case Some((a, rest)) =>
      match SplitOnce(rest)
      case None => [a, rest]
      case Some((b, c)) =>
        assert JoinLines([b, c]) == rest by { assert [b, c][1..] == [c]; }
        assert [a, b, c][1..] == [b, c];
        [a, b, c]
  }

  lemma SplitOnceAt(a: string, t: string)
    requires '\n' !in a
    ensures SplitOnce(a + "\n" + t) == Some((a, t))
  {
    var s := a + "\n" + t;
    var k := FindChar(s, '\n', 0);
    assert s[|a|] == '\n';
    assert s[..k] == a;
    assert s[k + 1..] == t;
  }

  /** The pieces are determined by the properties `SplitN3` promises: any list
      of at most three pieces, none but a third one holding a newline, that
      joins back to `s` is `SplitN3(s)`. */
  lemma SplitN3Unique(s: string, ps: seq<string>)
    requires 1 <= |ps| <= 3 && JoinLines(ps) == s
    requires forall k :: 0 <= k < |ps| && k < 2 ==> '\n' !in ps[k]
    ensures SplitN3(s) == ps
  {
    if |ps| == 1 {
      assert s == ps[0];
    } else if |ps| == 2 {
      assert JoinLines(ps[1..]) == ps[1];
      SplitOnceAt(ps[0], ps[1]);
    } else {
      assert JoinLines(ps[1..]) == ps[1] + "\n" + ps[2] by {
        assert ps[1..][1..] == [ps[2]];
      }
      assert s == ps[0] + "\n" + (ps[1] + "\n" + ps[2]);
      SplitOnceAt(ps[0], ps[1] + "\n" + ps[2]);
      SplitOnceAt(ps[1], ps[2]);
    }
  }

  // ---------------------------------------------------------------------------
  // lines()
  // ---------------------------------------------------------------------------

  /** Drops one trailing carriage return, as `lines()` does with a `"\r\n"` ending. */
  function StripCr(l: string): (r: string)
    ensures |r| <= |l| && r == l[..|r|]
  {
    if |l| > 0 && l[|l| - 1] == '\r' then l[..|l| - 1] else l
  }

  /** `s.lines()`: the pieces between newlines, each without a `"\r"` that
      precedes its newline; a final newline does not open an empty line, and
      an unterminated last line is kept as it is. */
  function Lines(s: string): (ls: seq<string>)
    ensures forall k :: 0 <= k < |ls| ==> '\n' !in ls[k]
    decreases |s|
  {
    match SplitOnce(s)
    case None => if s == "" then [] else [s]
    case Some((l, rest)) =>
      var first := StripCr(l);
      assert forall c :: c in first ==> c in l;
      [first] + Lines(rest)
  }

  /** A line ended by `"\r\n"` loses the carriage return, and only that one. */
  lemma LinesCrLf(l: string, rest: string)
    requires '\n' !in l
    ensures Lines(l + "\r\n" + rest) == [l] + Lines(rest)
  {
    assert l + "\r\n" + rest == (l + "\r") + "\n" + rest;
    assert '\n' !in l + "\r";
    LinesCons(l + "\r", rest);
    assert (l + "\r")[..|l|] == l;
  }

  /** Every line written out followed by a newline. */
  function Terminated(ls: seq<string>): string
  {
    if ls == [] then "" else ls[0] + "\n" + Terminated(ls[1..])
  }

  lemma LinesCons(l: string, rest: string)
    requires '\n' !in l
    ensures Lines(l + "\n" + rest) == [StripCr(l)] + Lines(rest)
  {
    SplitOnceAt(l, rest);
  }

  /** `lines()` undoes `Terminated` for lines that hold no newline and do not
      end in a carriage return. */
  lemma {:induction false} LinesOfTerminated(ls: seq<string>)
    requires forall k :: 0 <= k < |ls| ==> '\n' !in ls[k] && StripCr(ls[k]) == ls[k]
    ensures Lines(Terminated(ls)) == ls
  {
    if ls != [] {
      LinesCons(ls[0], Terminated(ls[1..]));
      LinesOfTerminated(ls[1..]);
    }
  }

  /** Conversely, text without carriage returns that is empty or ends in a
      newline is its own lines written out with their newlines. */
  lemma {:induction false} TerminatedOfLines(s: string)
    requires '\r' !in s
    requires s == "" || s[|s| - 1] == '\n'
    ensures Terminated(Lines(s)) == s
    decreases |s|
  {
    match SplitOnce(s)
    case None =>
    case Some((l, rest)) =>
      assert forall c :: c in l ==> c in s;
      if |l| > 0 {
        assert l[|l| - 1] in l;
      }
      assert StripCr(l) == l;
      assert forall c :: c in rest ==> c in s;
      if rest != "" {
        assert rest[|rest| - 1] == s[|s| - 1];
      }
      TerminatedOfLines(rest);
  }

  // ---------------------------------------------------------------------------
  // Decimal text of unsigned integers
  // ---------------------------------------------------------------------------

  function DigitValue(c: char): nat
    requires IsDigit(c)
  {
    c as int - '0' as int
  }

  function DigitChar(n: nat): (c: char)
    requires n < 10
    ensures IsDigit(c) && DigitValue(c) == n
  {
    ('0' as int + n) as char
  }

  /** The value of a run of decimal digits, as `str::parse` computes it. */
  function DecimalValue(d: string): nat
    requires AllDigits(d)
    decreases |d|
  {
    if d == [] then 0 else 10 * DecimalValue(d[..|d| - 1]) + DigitValue(d[|d| - 1])
  }

  /** `n.to_string()`: the shortest decimal text of `n`, with no leading zero
      unless `n` is zero; reading it back gives `n`. */
  function DecimalString(n: nat): (r: string)
    ensures |r| >= 1 && AllDigits(r)
    ensures DecimalValue(r) == n
    ensures n == 0 ==> r == "0"
    ensures n > 0 ==> r[0] != '0'
    decreases n
  {
    if n < 10 then [DigitChar(n)]
    else
      var r := DecimalString(n / 10) + [DigitChar(n % 10)];
      assert r[..|r| - 1] == DecimalString(n / 10);
      r
  }
}
