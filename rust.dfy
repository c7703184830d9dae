/** One compiler diagnostic: its kind, the text it is printed as, and the
    parser that reads one diagnostic block back (src/rust.rs). */
module Rust {
  import opened Wrappers
  import opened Text

  /** Line and column numbers are `u32`. */
  const U32_LIMIT: int := 0x1_0000_0000

  type uint32 = n: int | 0 <= n < U32_LIMIT

  datatype Type = Error | Warning

  /** `Display for Type` */
  function TypeName(t: Type): string
  {
    match t
    case Error => "error"
    case Warning => "warning"
  }

  /** `FromStr for Type`: exactly the two words are accepted, and each names
      the kind it came from. */
  function TypeFromStr(inp: string): (r: Outcome<Type>)
    ensures r.Ok? <==> inp == "error" || inp == "warning"
    ensures r.Ok? ==> TypeName(r.value) == inp
    ensures r.Err? ==> r.error == "Invalid rust diagnostic type " + inp
    ensures !r.Panic?
  {
    if inp == "error" then Ok(Error)
    else if inp == "warning" then Ok(Warning)
    else Err("Invalid rust diagnostic type " + inp)
  }

  /** Reading back the word a kind is displayed as gives that kind. */
  lemma TypeNameParses(t: Type)
    ensures TypeFromStr(TypeName(t)) == Ok(t)
  {
  }

  /** `RustDiagnostic`; `RustDiagnostic::new` is this constructor. */
  datatype RustDiagnostic = RustDiagnostic(
    kind: Type,
    num: Option<string>,
    message: string,
    file: Option<string>,
    line: Option<uint32>,
    column: Option<uint32>,
    details: Option<string>)

  /** An error code as `E[0-9]+` admits it. */
  predicate IsCode(c: string) {
    |c| >= 2 && c[0] == 'E' && AllDigits(c[1..])
  }

  // ---------------------------------------------------------------------------
  // Display
  // ---------------------------------------------------------------------------

  function CodePart(num: Option<string>): string
  {
    match num
    case None => ""
    case Some(n) => "[" + n + "]"
  }

  function NumberText(n: Option<uint32>): string
  {
    match n
    case None => "-"
    case Some(v) => DecimalString(v)
  }

  function HeaderLine(d: RustDiagnostic): string
  {
    TypeName(d.kind) + CodePart(d.num) + ": " + d.message
  }

  function LocationLine(d: RustDiagnostic): string
    requires d.file.Some?
  {
    "  --> " + (d.file.value + ":" + (NumberText(d.line) + ":" + NumberText(d.column)))
  }

  /** `Display for RustDiagnostic`: the header line, the location line when
      there is a file, then the details, each followed by a newline. */
  function Render(d: RustDiagnostic): string
  {
    HeaderLine(d) + "\n"
    + (if d.file.Some? then LocationLine(d) + "\n" else "")
    + (if d.details.Some? then d.details.value + "\n" else "")
  }

  // ---------------------------------------------------------------------------
  // REGEX_ERR = (error|warning)(\[(E[0-9]+)\])?: (.*)
  // ---------------------------------------------------------------------------

  /** Capture groups 1, 3 and 4 of `REGEX_ERR`. */
  datatype ErrCaptures = ErrCaptures(kind: string, num: Option<string>, message: string)

  /** `REGEX_ERR` matches at the start of `t` with captures `c`: the kind word,
      then the text `CodeAndMessage` describes. */
  predicate ErrMatches(t: string, c: ErrCaptures)
  {
    && (c.kind == "error" || c.kind == "warning")
    && StartsWith(t, c.kind)
    && CodeAndMessage(t[|c.kind|..], c.num, c.message)
  }

  /** `u` starts with the bracketed code when there is one, then `": "`, then
      the message, which runs to the end of the line (`.` does not match a
      newline). */
  predicate CodeAndMessage(u: string, num: Option<string>, message: string)
  {
    var sep := CodePart(num) + ": ";
    && (num.Some? ==> IsCode(num.value))
    && StartsWith(u, sep)
    && RestOfLine(u[|sep|..]) == message
  }

  /** What any match of `REGEX_ERR` captures: one of the two kind words, a
      code of the form `E` and digits, a message without a newline. */
  predicate ValidErrCaptures(c: ErrCaptures)
  {
    && (c.kind == "error" || c.kind == "warning")
    && (c.num.Some? ==> IsCode(c.num.value))
    && '\n' !in c.message
  }

  /** The group `\[(E[0-9]+)\]` at the start of `u`: the code and what follows `]`. */
  function CodeGroup(u: string): (r: Option<(string, string)>)
    ensures r.Some? ==> u == "[" + r.value.0 + "]" + r.value.1 && IsCode(r.value.0)
  {
    if |u| >= 2 && u[0] == '[' && u[1] == 'E' then
      var d := SpanDigits(u, 2);
      if 2 < d < |u| && u[d] == ']' then
        assert u[1..d][1..] == u[2..d];
        assert u == "[" + u[1..d] + "]" + u[d + 1..];
        Some((u[1..d], u[d + 1..]))
      else None
    else None
  }

  /** `SpanDigits` from `i` is `i` plus `SpanDigits` of the suffix from 0. */
  lemma SpanDigitsShift(u: string, i: nat)
    requires i <= |u|
    ensures SpanDigits(u, i) == i + SpanDigits(u[i..], 0)
  {
    var k := SpanDigits(u[i..], 0);
    if i + k < |u| {
      assert u[i..][k] == u[i + k];
    }
    assert forall j :: i <= j < i + k ==> u[j] == u[i..][j - i];
  }

  lemma CodeGroupOf(code: string, rest: string)
    requires IsCode(code)
    ensures CodeGroup("[" + code + "]" + rest) == Some((code, rest))
  {
    var u := "[" + code + "]" + rest;
    assert u[2..] == code[1..] + ("]" + rest);
    SpanDigitsOf(code[1..], "]" + rest);
    SpanDigitsShift(u, 2);
    assert u[1..|code| + 1] == code;
    assert u[|code| + 2..] == rest;
  }

  /** What follows the kind word: the code group is tried first; without it
      `": "` must come next. */
  function MatchCodeAndMessage(u: string): (r: Option<(Option<string>, string)>)
    ensures r.Some? ==> CodeAndMessage(u, r.value.0, r.value.1)
  {
    var code := CodeGroup(u);
    if code.Some? && StartsWith(code.value.1, ": ") then
      var rest := code.value.1;
      StartsWithPrepend("[" + code.value.0 + "]", rest, ": ");
      Some((Some(code.value.0), RestOfLine(rest[2..])))
    else if StartsWith(u, ": ") then
      Some((None, RestOfLine(u[2..])))
    else None
  }

  lemma MatchCodeAndMessageComplete(u: string, num: Option<string>, message: string)
    requires CodeAndMessage(u, num, message)
    ensures MatchCodeAndMessage(u) == Some((num, message))
  {
    var sep := CodePart(num) + ": ";
    var v := u[|sep|..];
    StartsWithSplit(u, sep);
    match num
    case Some(code) =>
      var rest := ": " + v;
      assert u == "[" + code + "]" + rest;
      CodeGroupOf(code, rest);
      assert StartsWith(rest, ": ");
      assert rest[2..] == v;
    case None =>
      assert u[0] == ':';
      assert CodeGroup(u).None?;
      assert u[2..] == v;
  }

  /** The match of `REGEX_ERR` that starts exactly at the start of `t`, if any. */
  function MatchErr(t: string): (r: Option<ErrCaptures>)
    ensures r.Some? ==> ErrMatches(t, r.value)
  {
    var kind := if StartsWith(t, "error") then "error"
                else if StartsWith(t, "warning") then "warning"
                else "";
    if kind == "" then None
    else
      match MatchCodeAndMessage(t[|kind|..])
      case None => None
      case Some((num, message)) => Some(ErrCaptures(kind, num, message))
  }

  /** Every match of `REGEX_ERR` at the start of `t` is the one `MatchErr` finds. */
  lemma MatchErrComplete(t: string, c: ErrCaptures)
    requires ErrMatches(t, c)
    ensures MatchErr(t) == Some(c)
  {
    if c.kind == "warning" {
      assert t[0] == 'w';
    }
    MatchCodeAndMessageComplete(t[|c.kind|..], c.num, c.message);
  }

  /** The match of `REGEX_ERR` starting at position `i` of `s`. */
  function MatchErrAt(s: string, i: nat): Option<ErrCaptures>
    requires i <= |s|
  {
    MatchErr(s[i..])
  }

  /** The leftmost position at or after `i` where `REGEX_ERR` matches. */
  function LeftmostErr(s: string, i: nat): (k: Option<nat>)
    requires i <= |s|
    ensures k.Some? ==> i <= k.value <= |s| && MatchErrAt(s, k.value).Some?
    ensures forall j :: i <= j <= |s| && (k.None? || j < k.value) ==> MatchErrAt(s, j).None?
    decreases |s| - i
  {
    if MatchErrAt(s, i).Some? then Some(i)
    else if i == |s| then None
    else LeftmostErr(s, i + 1)
  }

  /** `REGEX_ERR.captures(s)`: an unanchored, leftmost search. */
  function CaptureErr(s: string): (r: Option<ErrCaptures>)
    ensures r.Some? ==> ValidErrCaptures(r.value)
  {
    match LeftmostErr(s, 0)
    case None => None
    case Some(k) => MatchErrAt(s, k)
  }

  /** `captures` finds nothing exactly when `REGEX_ERR` matches at no position. */
  lemma CaptureErrNone(s: string)
    ensures CaptureErr(s).None? <==> forall k :: 0 <= k <= |s| ==> MatchErrAt(s, k).None?
  {
  }

  /** `captures` reports the match at the leftmost position where there is one. */
  lemma CaptureErrLeftmost(s: string, k: nat)
    requires k <= |s| && MatchErrAt(s, k).Some?
    requires forall j :: 0 <= j < k ==> MatchErrAt(s, j).None?
    ensures CaptureErr(s) == MatchErrAt(s, k)
  {
  }

  // ---------------------------------------------------------------------------
  // REGEX_CONTEXT = " +--> ([^:]+):([0-9]+):([0-9]+)"
  // ---------------------------------------------------------------------------

  /** Capture groups 1, 2 and 3 of `REGEX_CONTEXT`, as text. */
  datatype ContextCaptures = ContextCaptures(file: string, line: string, column: string)

  /** `REGEX_CONTEXT` matches at the start of `t` after `n` spaces, with
      captures `c`: `n` spaces and `"--> "`, then what `FileLineColumn`
      describes. */
  predicate ContextMatches(t: string, n: nat, c: ContextCaptures)
  {
    && n >= 1
    && StartsWith(t, Spaces(n) + "--> ")
    && FileLineColumn(t[n + 4..], c)
  }

  /** `w` starts with a file name without a colon, `':'`, then the text
      `LineColumn` describes. */
  predicate FileLineColumn(w: string, c: ContextCaptures)
  {
    && c.file != "" && ':' !in c.file
    && StartsWith(w, c.file + ":")
    && LineColumn(w[|c.file| + 1..], c.line, c.column)
  }

  /** `x` starts with a line number, `':'` and a column number. */
  predicate LineColumn(x: string, line: string, column: string)
  {
    && line != "" && AllDigits(line)
    && StartsWith(x, line + ":")
    && DigitRun(x[|line| + 1..], column)
  }

  /** `y` starts with the whole run of digits `d`, which is not empty. */
  predicate DigitRun(y: string, d: string)
  {
    d != "" && AllDigits(d) && StartsWith(y, d) && (|y| == |d| || !IsDigit(y[|d|]))
  }

  function MatchLineColumn(x: string): (r: Option<(string, string)>)
    ensures r.Some? ==> LineColumn(x, r.value.0, r.value.1)
  {
    var l := SpanDigits(x, 0);
    if l == 0 || l == |x| || x[l] != ':' then None
    else
      var y := x[l + 1..];
      var e := SpanDigits(y, 0);
      if e == 0 then None
      else
        assert x == x[..l] + ":" + y;
        assert AllDigits(x[..l]) by {
          assert forall j :: 0 <= j < l ==> x[..l][j] == x[j];
        }
        assert AllDigits(y[..e]) by {
          assert forall j :: 0 <= j < e ==> y[..e][j] == y[j];
        }
        Some((x[..l], y[..e]))
  }

  lemma MatchLineColumnComplete(x: string, line: string, column: string)
    requires LineColumn(x, line, column)
    ensures MatchLineColumn(x) == Some((line, column))
  {
    var y := x[|line| + 1..];
    StartsWithSplit(x, line + ":");
    assert x == line + (":" + y);
    SpanDigitsOf(line, ":" + y);
    assert x[|line|] == ':';
    StartsWithSplit(y, column);
    SpanDigitsOf(column, y[|column|..]);
  }

  /** What any match of `REGEX_CONTEXT` captures: a file without a colon,
      two non-empty runs of digits. */
  predicate ValidContextCaptures(c: ContextCaptures)
  {
    && c.file != "" && ':' !in c.file
    && c.line != "" && AllDigits(c.line)
    && c.column != "" && AllDigits(c.column)
  }

  function MatchFileLineColumn(w: string): (r: Option<ContextCaptures>)
    ensures r.Some? ==> FileLineColumn(w, r.value)
  {
    var f := FindChar(w, ':', 0);
    if f == 0 || f == |w| then None
    else
      match MatchLineColumn(w[f + 1..])
      case None => None
      case Some((line, column)) =>
        assert w == w[..f] + ":" + w[f + 1..];
        assert ':' !in w[..f] by {
          assert forall j :: 0 <= j < f ==> w[..f][j] == w[j];
        }
        Some(ContextCaptures(w[..f], line, column))
  }

  lemma MatchFileLineColumnComplete(w: string, c: ContextCaptures)
    requires FileLineColumn(w, c)
    ensures MatchFileLineColumn(w) == Some(c)
  {
    var x := w[|c.file| + 1..];
    StartsWithSplit(w, c.file + ":");
    assert w == c.file + (":" + x);
    FindCharOf(c.file, ':', ":" + x);
    MatchLineColumnComplete(x, c.line, c.column);
  }

  /** The match of `REGEX_CONTEXT` that starts exactly at the start of `t`, if
      any. The greedy ` +`, `[^:]+` and `[0-9]+` each take a whole run: a
      shorter one could never be followed by what the pattern needs next. */
  function MatchContext(t: string): (r: Option<ContextCaptures>)
    ensures r.Some? ==> ContextMatches(t, SpanChar(t, ' ', 0), r.value)
  {
    var n := SpanChar(t, ' ', 0);
    if n == 0 || !StartsWith(t[n..], "--> ") then None
    else
      SpacesPrefix(t, n);
      StartsWithPrepend(t[..n], t[n..], "--> ");
      MatchFileLineColumn(t[n + 4..])
  }

  lemma SpacesPrefix(t: string, n: nat)
    requires n <= |t| && forall j :: 0 <= j < n ==> t[j] == ' '
    ensures t == Spaces(n) + t[n..]
  {
    assert t[..n] == Spaces(n);
    assert t == t[..n] + t[n..];
  }

  /** Every match of `REGEX_CONTEXT` at the start of `t` is the one
      `MatchContext` finds. */
  lemma MatchContextComplete(t: string, n: nat, c: ContextCaptures)
    requires ContextMatches(t, n, c)
    ensures MatchContext(t) == Some(c)
  {
    StartsWithSplit(t, Spaces(n) + "--> ");
    var w := t[n + 4..];
    assert t == Spaces(n) + ("--> " + w);
    SpanCharOf(Spaces(n), ' ', "--> " + w);
    assert t[n..] == "--> " + w;
    MatchFileLineColumnComplete(w, c);
  }

  /** The match of `REGEX_CONTEXT` starting at position `i` of `s`. */
  function MatchContextAt(s: string, i: nat): Option<ContextCaptures>
    requires i <= |s|
  {
    MatchContext(s[i..])
  }

  /** The leftmost position at or after `i` where `REGEX_CONTEXT` matches. */
  function LeftmostContext(s: string, i: nat): (k: Option<nat>)
    requires i <= |s|
    ensures k.Some? ==> i <= k.value <= |s| && MatchContextAt(s, k.value).Some?
    ensures forall j :: i <= j <= |s| && (k.None? || j < k.value) ==> MatchContextAt(s, j).None?
    decreases |s| - i
  {
    if MatchContextAt(s, i).Some? then Some(i)
    else if i == |s| then None
    else LeftmostContext(s, i + 1)
  }

  /** `REGEX_CONTEXT.captures(s)`: an unanchored, leftmost search. */
  function CaptureContext(s: string): (r: Option<ContextCaptures>)
    ensures r.Some? ==> ValidContextCaptures(r.value)
  {
    match LeftmostContext(s, 0)
    case None => None
    case Some(k) => MatchContextAt(s, k)
  }

  /** `captures` finds nothing exactly when `REGEX_CONTEXT` matches at no position. */
  lemma CaptureContextNone(s: string)
    ensures CaptureContext(s).None? <==> forall k :: 0 <= k <= |s| ==> MatchContextAt(s, k).None?
  {
  }

  /** `captures` reports the match at the leftmost position where there is one. */
  lemma CaptureContextLeftmost(s: string, k: nat)
    requires k <= |s| && MatchContextAt(s, k).Some?
    requires forall j :: 0 <= j < k ==> MatchContextAt(s, j).None?
    ensures CaptureContext(s) == MatchContextAt(s, k)
  {
  }

  // ---------------------------------------------------------------------------
  // FromStr for RustDiagnostic
  // ---------------------------------------------------------------------------

  /** Whether the second piece of a block is a location line to be matched. */
  predicate HasLocation(pieces: seq<string>) {
    |pieces| > 1 && pieces[1] != ""
  }

  /** `FromStr for RustDiagnostic`: the block is split into at most three
      pieces on newlines; the first must hold a match of `REGEX_ERR`, a
      non-empty second one a match of `REGEX_CONTEXT`, and a non-empty third
      one is kept as the details. Line and column that do not fit a `u32`
      make `expect` panic. */
  function ParseDiagnostic(inp: string): (r: Outcome<RustDiagnostic>)
    ensures r.Err? <==>
      CaptureErr(SplitN3(inp)[0]).None?
      || (HasLocation(SplitN3(inp)) && CaptureContext(SplitN3(inp)[1]).None?)
    ensures r.Err? ==> r.error == "Invalid input: " + inp
    ensures r.Panic? ==>
      r.reason == "Line number was not a number!" || r.reason == "Column number was not a number!"
    ensures r.Ok? ==> ParsedFrom(r.value, SplitN3(inp))
    ensures !r.Err? ==> r == Build(CaptureErr(SplitN3(inp)[0]).value,
      if HasLocation(SplitN3(inp)) then CaptureContext(SplitN3(inp)[1]) else None, DetailsPiece(SplitN3(inp)))
  {
    ParsePieces(SplitN3(inp), "Invalid input: " + inp)
  }

  /** What a diagnostic read from `pieces` is made of: the kind, code and
      message `REGEX_ERR` captures in the first piece; when the second piece
      is not empty, the file `REGEX_CONTEXT` captures in it and the values of
      the line and column digits, and otherwise no location; the third piece,
      when not empty, as the details. */
  predicate ParsedFrom(d: RustDiagnostic, pieces: seq<string>)
    requires 1 <= |pieces| <= 3
  {
    && CaptureErr(pieces[0]) == Some(ErrCaptures(TypeName(d.kind), d.num, d.message))
    && (if HasLocation(pieces) then
          var loc := CaptureContext(pieces[1]);
          && loc.Some?
          && d.file == Some(loc.value.file)
          && d.line == Some(DecimalValue(loc.value.line))
          && d.column == Some(DecimalValue(loc.value.column))
        else d.file.None? && d.line.None? && d.column.None?)
    && d.details == DetailsPiece(pieces)
  }

  /** The fields of a parsed diagnostic are of the shape the two patterns
      admit. */
  lemma ParsedFromShape(d: RustDiagnostic, pieces: seq<string>)
    requires 1 <= |pieces| <= 3 && ParsedFrom(d, pieces)
    ensures '\n' !in d.message
    ensures d.num.Some? ==> IsCode(d.num.value)
    ensures d.file.Some? == d.line.Some? == d.column.Some?
    ensures d.file.Some? <==> HasLocation(pieces)
    ensures d.file.Some? ==> d.file.value != "" && ':' !in d.file.value
    ensures d.details.Some? <==> |pieces| == 3 && pieces[2] != ""
    ensures d.details.Some? ==> d.details.value == pieces[2]
  {
  }

  /** The body of `FromStr for RustDiagnostic` once the input is cut into
      pieces; `invalid` is its error message. */
  function ParsePieces(pieces: seq<string>, invalid: string): (r: Outcome<RustDiagnostic>)
    requires 1 <= |pieces| <= 3
    ensures r.Err? <==>
      CaptureErr(pieces[0]).None? || (HasLocation(pieces) && CaptureContext(pieces[1]).None?)
    ensures r.Err? ==> r.error == invalid
    ensures r.Panic? ==>
      r.reason == "Line number was not a number!" || r.reason == "Column number was not a number!"
    ensures r.Ok? ==> ParsedFrom(r.value, pieces)
    ensures !r.Err? ==> r == Build(CaptureErr(pieces[0]).value,
      if HasLocation(pieces) then CaptureContext(pieces[1]) else None, DetailsPiece(pieces))
  {
    match CaptureErr(pieces[0])
    case None => Err(invalid)
    case Some(h) =>
      if !HasLocation(pieces) then Build(h, None, DetailsPiece(pieces))
      else
        match CaptureContext(pieces[1])
        case None => Err(invalid)
        case Some(c) => Build(h, Some(c), DetailsPiece(pieces))
  }

  /** The third piece, when there is one and it is not empty. */
  function DetailsPiece(pieces: seq<string>): (r: Option<string>)
    requires |pieces| <= 3
    ensures r.Some? <==> |pieces| == 3 && pieces[2] != ""
    ensures r.Some? ==> r.value == pieces[2]
  {
    if |pieces| > 2 && pieces[2] != "" then Some(pieces[2]) else None
  }

  /** The diagnostic made from the captures of the header and, if present,
      of the location line: the kind word is read with `Type::from_str`, and
      line and column with `parse::<u32>().expect(..)`. */
  function Build(h: ErrCaptures, location: Option<ContextCaptures>, details: Option<string>)
    : (r: Outcome<RustDiagnostic>)
    requires location.Some? ==> ValidContextCaptures(location.value)
    ensures r.Err? <==> TypeFromStr(h.kind).Err?
    ensures r.Err? ==> r.error == "Invalid rust diagnostic type " + h.kind
    ensures r.Panic? ==>
      r.reason == "Line number was not a number!" || r.reason == "Column number was not a number!"
    ensures r.Ok? <==> TypeFromStr(h.kind).Ok? && (location.Some? ==>
      DecimalValue(location.value.line) < U32_LIMIT && DecimalValue(location.value.column) < U32_LIMIT)
    ensures r.Ok? ==>
      && TypeName(r.value.kind) == h.kind && r.value.num == h.num && r.value.message == h.message
      && r.value.details == details
      && (location.None? ==> r.value.file.None? && r.value.line.None? && r.value.column.None?)
      && (location.Some? ==>
            && r.value.file == Some(location.value.file)
            && r.value.line == Some(DecimalValue(location.value.line))
            && r.value.column == Some(DecimalValue(location.value.column)))
  {
    match TypeFromStr(h.kind)
    case Err(e) => Err(e)
    case Panic(p) => Panic(p)
    case Ok(kind) =>
      match location
      case None => Ok(RustDiagnostic(kind, h.num, h.message, None, None, None, details))
      case Some(c) =>
        var line := DecimalValue(c.line);
        var column := DecimalValue(c.column);
        if line >= U32_LIMIT then Panic("Line number was not a number!")
        else if column >= U32_LIMIT then Panic("Column number was not a number!")
        else Ok(RustDiagnostic(kind, h.num, h.message, Some(c.file), Some(line), Some(column), details))
  }

  // ---------------------------------------------------------------------------
  // What the parser accepts and what the printer writes
  // ---------------------------------------------------------------------------

  /** A match of `REGEX_ERR` at the very start of the line is the one
      `captures` reports. */
  lemma CaptureErrAtStart(s: string, c: ErrCaptures)
    requires ErrMatches(s, c)
    ensures CaptureErr(s) == Some(c)
  {
    assert s[0..] == s;
    MatchErrComplete(s, c);
  }

  /** A match of `REGEX_CONTEXT` at the very start of the line is the one
      `captures` reports. */
  lemma CaptureContextAtStart(s: string, n: nat, c: ContextCaptures)
    requires ContextMatches(s, n, c)
    ensures CaptureContext(s) == Some(c)
  {
    assert s[0..] == s;
    MatchContextComplete(s, n, c);
  }

  lemma NoNewlineInDigits(d: string)
    requires AllDigits(d)
    ensures '\n' !in d && ':' !in d
  {
    forall k | 0 <= k < |d| ensures d[k] != '\n' && d[k] != ':' {
      assert IsDigit(d[k]);
    }
  }

  lemma CodeAndMessageOf(num: Option<string>, message: string)
    requires num.Some? ==> IsCode(num.value)
    requires '\n' !in message
    ensures CodeAndMessage(CodePart(num) + ": " + message, num, message)
  {
    var sep := CodePart(num) + ": ";
    assert (sep + message)[|sep|..] == message;
    RestOfLineOf(message, "");
    assert message + "" == message;
  }

  lemma CodePartNoNewline(num: Option<string>)
    requires num.Some? ==> IsCode(num.value)
    ensures '\n' !in CodePart(num)
  {
    if num.Some? {
      NoNewlineInDigits(num.value[1..]);
      assert num.value == [num.value[0]] + num.value[1..];
    }
  }

  lemma HeaderLineNoNewline(d: RustDiagnostic)
    requires d.num.Some? ==> IsCode(d.num.value)
    requires '\n' !in d.message
    ensures '\n' !in HeaderLine(d)
  {
    CodePartNoNewline(d.num);
  }

  /** `REGEX_ERR` matches the header line `Display` writes, at its start, with
      the kind, code and message it was written from. */
  lemma HeaderLineShape(d: RustDiagnostic)
    requires d.num.Some? ==> IsCode(d.num.value)
    requires '\n' !in d.message
    ensures ErrMatches(HeaderLine(d), ErrCaptures(TypeName(d.kind), d.num, d.message))
  {
    var kind := TypeName(d.kind);
    var u := CodePart(d.num) + ": " + d.message;
    CodeAndMessageOf(d.num, d.message);
    assert HeaderLine(d) == kind + u;
    assert HeaderLine(d)[|kind|..] == u;
  }

  /** The header line `Display` writes is read back by `REGEX_ERR.captures`
      with the kind, code and message it was written from. */
  lemma HeaderLineMatches(d: RustDiagnostic)
    requires d.num.Some? ==> IsCode(d.num.value)
    requires '\n' !in d.message
    ensures '\n' !in HeaderLine(d)
    ensures CaptureErr(HeaderLine(d)) == Some(ErrCaptures(TypeName(d.kind), d.num, d.message))
  {
    HeaderLineNoNewline(d);
    HeaderLineShape(d);
    CaptureErrAtStart(HeaderLine(d), ErrCaptures(TypeName(d.kind), d.num, d.message));
  }

  lemma LineColumnOf(line: string, column: string)
    requires line != "" && AllDigits(line) && column != "" && AllDigits(column)
    ensures LineColumn(line + ":" + column, line, column)
  {
    var x := line + ":" + column;
    assert x[..|line| + 1] == line + ":";
    assert x[|line| + 1..] == column;
  }

  lemma FileLineColumnOf(file: string, line: string, column: string)
    requires file != "" && ':' !in file
    requires line != "" && AllDigits(line) && column != "" && AllDigits(column)
    ensures FileLineColumn(file + ":" + (line + ":" + column), ContextCaptures(file, line, column))
  {
    LineColumnOf(line, column);
    var w := file + ":" + (line + ":" + column);
    assert w[..|file| + 1] == file + ":";
    assert w[|file| + 1..] == line + ":" + column;
  }

  /** `REGEX_CONTEXT` matches the location line `Display` writes, at its
      start, with the file and the decimal text of the line and column. */
  lemma LocationLineShape(d: RustDiagnostic)
    requires d.file.Some? && d.line.Some? && d.column.Some?
    requires d.file.value != "" && ':' !in d.file.value && '\n' !in d.file.value
    ensures '\n' !in LocationLine(d)
    ensures ContextMatches(LocationLine(d), 2,
      ContextCaptures(d.file.value, DecimalString(d.line.value), DecimalString(d.column.value)))
  {
    var line, column := DecimalString(d.line.value), DecimalString(d.column.value);
    LocationTextNoNewline(d.file.value, line, column);
    LocationText(d.file.value, line, column);
  }

  lemma LocationTextNoNewline(file: string, line: string, column: string)
    requires '\n' !in file && AllDigits(line) && AllDigits(column)
    ensures '\n' !in "  --> " + (file + ":" + (line + ":" + column))
  {
    NoNewlineInDigits(line);
    NoNewlineInDigits(column);
  }

  lemma LocationText(file: string, line: string, column: string)
    requires file != "" && ':' !in file
    requires line != "" && AllDigits(line) && column != "" && AllDigits(column)
    ensures ContextMatches("  --> " + (file + ":" + (line + ":" + column)), 2, ContextCaptures(file, line, column))
  {
    FileLineColumnOf(file, line, column);
    var w := file + ":" + (line + ":" + column);
    var t := "  --> " + w;
    assert Spaces(2) + "--> " == "  --> ";
    assert t[..6] == "  --> ";
    assert t[6..] == w;
  }

  /** The location line `Display` writes is read back by
      `REGEX_CONTEXT.captures` with the file and the decimal text of the line
      and column. */
  lemma LocationLineMatches(d: RustDiagnostic)
    requires d.file.Some? && d.line.Some? && d.column.Some?
    requires d.file.value != "" && ':' !in d.file.value && '\n' !in d.file.value
    ensures '\n' !in LocationLine(d)
    ensures CaptureContext(LocationLine(d))
      == Some(ContextCaptures(d.file.value, DecimalString(d.line.value), DecimalString(d.column.value)))
  {
    LocationLineShape(d);
    CaptureContextAtStart(LocationLine(d), 2,
      ContextCaptures(d.file.value, DecimalString(d.line.value), DecimalString(d.column.value)));
  }

  /** The pieces `splitn(3, '\n')` cuts the text of `Display` into, when the
      message and file hold no newline: the header line, the location line
      when there is a file, and the details with the newline written after
      them. */
  lemma RenderPieces(d: RustDiagnostic)
    requires '\n' !in HeaderLine(d)
    requires d.file.Some? ==> '\n' !in LocationLine(d)
    requires d.file.Some? || d.details.None?
    ensures SplitN3(Render(d)) ==
      if d.file.None? then [HeaderLine(d), ""]
      else [HeaderLine(d), LocationLine(d), if d.details.Some? then d.details.value + "\n" else ""]
  {
    var h := HeaderLine(d);
    if d.file.None? {
      assert Render(d) == h + "\n" + "";
      assert JoinLines([h, ""]) == h + "\n" + JoinLines([""]) by { assert [h, ""][1..] == [""]; }
      SplitN3Unique(Render(d), [h, ""]);
    } else {
      var l := LocationLine(d);
      var rest := if d.details.Some? then d.details.value + "\n" else "";
      assert Render(d) == h + "\n" + (l + "\n" + rest);
      assert JoinLines([l, rest]) == l + "\n" + rest by { assert [l, rest][1..] == [rest]; }
      assert JoinLines([h, l, rest]) == h + "\n" + JoinLines([l, rest]) by { assert [h, l, rest][1..] == [l, rest]; }
      SplitN3Unique(Render(d), [h, l, rest]);
    }
  }

  /** The diagnostics that `Display` and `FromStr` carry through unchanged: no
      details, and lines the two patterns read back. */
  predicate RoundTrips(d: RustDiagnostic)
  {
    d.details.None? && PrintableLines(d)
  }

  /** The header and location lines `Display` writes are read back by the two
      patterns: a code of the form `E` and digits, a one-line message, and
      either no location at all or a file without colon or newline together
      with a line and a column. */
  predicate PrintableLines(d: RustDiagnostic)
  {
    && (d.num.Some? ==> IsCode(d.num.value))
    && '\n' !in d.message
    && (d.file.None? ==> d.line.None? && d.column.None?)
    && (d.file.Some? ==>
          d.file.value != "" && ':' !in d.file.value && '\n' !in d.file.value
          && d.line.Some? && d.column.Some?)
  }

  /** A block whose first piece matches `REGEX_ERR` with a known kind word
      and whose second piece is missing or empty is read with no file, line
      or column, and the third piece, if not empty, as the details. */
  lemma ParseHeaderBlock(ps: seq<string>, c: ErrCaptures, kind: Type, invalid: string)
    requires 1 <= |ps| <= 3 && !HasLocation(ps)
    requires CaptureErr(ps[0]) == Some(c) && TypeFromStr(c.kind) == Ok(kind)
    ensures ParsePieces(ps, invalid) == Ok(RustDiagnostic(kind, c.num, c.message, None, None, None, DetailsPiece(ps)))
  {
  }

  /** A header line on its own, without a newline, reads back as the
      diagnostic it was written from when that has no location and no
      details. */
  lemma HeaderLineParses(d: RustDiagnostic)
    requires PrintableLines(d) && d.file.None? && d.details.None?
    ensures ParseDiagnostic(HeaderLine(d)) == Ok(d)
  {
    var h := HeaderLine(d);
    HeaderLineMatches(d);
    SplitN3Unique(h, [h]);
    TypeNameParses(d.kind);
    ParseHeaderBlock([h], ErrCaptures(TypeName(d.kind), d.num, d.message), d.kind, "Invalid input: " + h);
  }

  /** `"error: x"`, a header line with no newline at all, is a valid block. */
  lemma BareHeaderParses()
    ensures ParseDiagnostic("error: x") == Ok(RustDiagnostic(Error, None, "x", None, None, None, None))
  {
    var d := RustDiagnostic(Error, None, "x", None, None, None, None);
    assert HeaderLine(d) == "error: x";
    HeaderLineParses(d);
  }

  /** A line number beyond `u32` makes the `expect` on the line panic, once
      the kind word is known. */
  lemma LineOverflowPanics(ps: seq<string>, c: ErrCaptures, kind: Type, loc: ContextCaptures, invalid: string)
    requires 2 <= |ps| <= 3 && ps[1] != ""
    requires CaptureErr(ps[0]) == Some(c) && TypeFromStr(c.kind) == Ok(kind)
    requires CaptureContext(ps[1]) == Some(loc) && ValidContextCaptures(loc)
    requires DecimalValue(loc.line) >= U32_LIMIT
    ensures ParsePieces(ps, invalid) == Panic("Line number was not a number!")
  {
  }

  /** A column number beyond `u32`, with a line number that fits, makes the
      `expect` on the column panic. */
  lemma ColumnOverflowPanics(ps: seq<string>, c: ErrCaptures, kind: Type, loc: ContextCaptures, invalid: string)
    requires 2 <= |ps| <= 3 && ps[1] != ""
    requires CaptureErr(ps[0]) == Some(c) && TypeFromStr(c.kind) == Ok(kind)
    requires CaptureContext(ps[1]) == Some(loc) && ValidContextCaptures(loc)
    requires DecimalValue(loc.line) < U32_LIMIT && DecimalValue(loc.column) >= U32_LIMIT
    ensures ParsePieces(ps, invalid) == Panic("Column number was not a number!")
  {
  }

  /** A block of a header line, a non-empty second piece and a third piece is
      built from the captures of the first two and the third piece. */
  lemma PiecesWithLocation(ps: seq<string>, c: ErrCaptures, loc: ContextCaptures, invalid: string)
    requires 2 <= |ps| <= 3
    requires CaptureErr(ps[0]) == Some(c)
    requires ps[1] != "" && CaptureContext(ps[1]) == Some(loc)
    ensures ParsePieces(ps, invalid) == Build(c, Some(loc), DetailsPiece(ps))
  {
  }

  /** With a known kind word and a line and column that fit a `u32`, the
      diagnostic takes the captured file and the values of the digits. */
  lemma BuildLocated(c: ErrCaptures, kind: Type, loc: ContextCaptures, details: Option<string>)
    requires TypeFromStr(c.kind) == Ok(kind)
    requires ValidContextCaptures(loc)
    requires DecimalValue(loc.line) < U32_LIMIT && DecimalValue(loc.column) < U32_LIMIT
    ensures Build(c, Some(loc), details) == Ok(Located(c, kind, loc, details))
  {
  }

  /** The diagnostic made of the captures of both lines, the values of the
      line and column digits, and the details. */
  function Located(c: ErrCaptures, kind: Type, loc: ContextCaptures, details: Option<string>): RustDiagnostic
    requires ValidContextCaptures(loc)
    requires DecimalValue(loc.line) < U32_LIMIT && DecimalValue(loc.column) < U32_LIMIT
  {
    RustDiagnostic(kind, c.num, c.message, Some(loc.file), Some(DecimalValue(loc.line)), Some(DecimalValue(loc.column)),
      details)
  }

  /** A text cut into a matching header line, a matching non-empty location
      line with a line and column that fit a `u32`, and a third piece, reads
      as the diagnostic made of those captures and that piece. */
  lemma ParseLocated(inp: string, h: string, l: string, rest: string,
                     c: ErrCaptures, kind: Type, loc: ContextCaptures)
    requires SplitN3(inp) == [h, l, rest]
    requires CaptureErr(h) == Some(c) && TypeFromStr(c.kind) == Ok(kind)
    requires l != "" && CaptureContext(l) == Some(loc) && ValidContextCaptures(loc)
    requires DecimalValue(loc.line) < U32_LIMIT && DecimalValue(loc.column) < U32_LIMIT
    ensures ParseDiagnostic(inp) == Ok(Located(c, kind, loc, if rest == "" then None else Some(rest)))
  {
    var ps := [h, l, rest];
    assert ps[0] == h && ps[1] == l && ps[2] == rest;
    PiecesWithLocation(ps, c, loc, "Invalid input: " + inp);
    BuildLocated(c, kind, loc, DetailsPiece(ps));
  }

  /** Parsing what `Display` writes gives back the same diagnostic. */
  lemma RenderParsesBack(d: RustDiagnostic)
    requires RoundTrips(d)
    ensures ParseDiagnostic(Render(d)) == Ok(d)
  {
    if d.file.Some? {
      RenderedLocated(d, "");
    } else {
      var c := ErrCaptures(TypeName(d.kind), d.num, d.message);
      assert SplitN3(Render(d)) == [HeaderLine(d), ""] by {
        HeaderLineMatches(d);
        RenderPieces(d);
      }
      assert CaptureErr(HeaderLine(d)) == Some(c) by { HeaderLineMatches(d); }
      TypeNameParses(d.kind);
      ParseHeaderBlock([HeaderLine(d), ""], c, d.kind, "Invalid input: " + Render(d));
    }
  }

  /** With a file, details come back with the newline `Display` wrote after
      them (everything after the second newline is kept). */
  lemma DetailsGainNewline(d: RustDiagnostic)
    requires PrintableLines(d)
    requires d.file.Some? && d.details.Some?
    ensures ParseDiagnostic(Render(d)) == Ok(d.(details := Some(d.details.value + "\n")))
  {
    RenderedLocated(d, d.details.value + "\n");
  }

  /** The text `Display` writes for a diagnostic with a file reads back as
      that diagnostic with `rest`, the third piece, as its details. */
  lemma RenderedLocated(d: RustDiagnostic, rest: string)
    requires PrintableLines(d) && d.file.Some?
    requires rest == (if d.details.Some? then d.details.value + "\n" else "")
    ensures ParseDiagnostic(Render(d)) == Ok(d.(details := if rest == "" then None else Some(rest)))
  {
    var loc := ContextCaptures(d.file.value, DecimalString(d.line.value), DecimalString(d.column.value));
    LocatedLines(d, rest);
    TypeNameParses(d.kind);
    ParseLocated(Render(d), HeaderLine(d), LocationLine(d), rest,
      ErrCaptures(TypeName(d.kind), d.num, d.message), d.kind, loc);
  }

  /** `splitn(3, '\n')` cuts the text `Display` writes for a diagnostic with a
      file into the header line, the location line and the details, and both
      patterns read back the first two. */
  lemma LocatedLines(d: RustDiagnostic, rest: string)
    requires PrintableLines(d) && d.file.Some?
    requires rest == (if d.details.Some? then d.details.value + "\n" else "")
    ensures SplitN3(Render(d)) == [HeaderLine(d), LocationLine(d), rest]
    ensures CaptureErr(HeaderLine(d)) == Some(ErrCaptures(TypeName(d.kind), d.num, d.message))
    ensures LocationLine(d) != ""
    ensures CaptureContext(LocationLine(d))
      == Some(ContextCaptures(d.file.value, DecimalString(d.line.value), DecimalString(d.column.value)))
  {
    HeaderLineMatches(d);
    LocationLineMatches(d);
    RenderPieces(d);
    assert LocationLine(d)[0] == ' ';
  }

  /** Without a file, the first line of the details is read as the location
      line: when it is not empty and holds no match of `REGEX_CONTEXT`, the
      whole text is rejected. */
  lemma DetailsWithoutFileRejected(d: RustDiagnostic)
    requires PrintableLines(d)
    requires d.file.None? && d.details.Some?
    requires RestOfLine(d.details.value) != ""
    requires forall k :: 0 <= k <= |RestOfLine(d.details.value)| ==> MatchContextAt(RestOfLine(d.details.value), k).None?
    ensures ParseDiagnostic(Render(d)) == Err("Invalid input: " + Render(d))
  {
    var first := RestOfLine(d.details.value);
    CaptureContextNone(first);
    DetailsWithoutFilePieces(d);
    RejectedLocation(HeaderLine(d), first, DetailsAfterFirstLine(d.details.value), "Invalid input: " + Render(d));
  }

  /** What follows the first line of the details in the printed text. */
  function DetailsAfterFirstLine(s: string): string
  {
    var first := RestOfLine(s);
    if |first| < |s| then s[|first| + 1..] + "\n" else ""
  }

  /** Without a file, `splitn(3, '\n')` cuts the printed text into the header
      line, the first line of the details, and the rest. */
  lemma DetailsWithoutFilePieces(d: RustDiagnostic)
    requires PrintableLines(d)
    requires d.file.None? && d.details.Some?
    ensures SplitN3(Render(d))
      == [HeaderLine(d), RestOfLine(d.details.value), DetailsAfterFirstLine(d.details.value)]
  {
    var h := HeaderLine(d);
    var s := d.details.value;
    var first := RestOfLine(s);
    var third := DetailsAfterFirstLine(s);
    HeaderLineNoNewline(d);
    if |first| < |s| {
      assert s == first + "\n" + s[|first| + 1..];
    }
    assert Render(d) == h + "\n" + (first + "\n" + third);
    assert JoinLines([first, third]) == first + "\n" + third by { assert [first, third][1..] == [third]; }
    assert JoinLines([h, first, third]) == h + "\n" + JoinLines([first, third]) by {
      assert [h, first, third][1..] == [first, third];
    }
    SplitN3Unique(Render(d), [h, first, third]);
  }

  /** A non-empty second piece without a match of `REGEX_CONTEXT` rejects the
      block, whatever the other pieces hold. */
  lemma RejectedLocation(h: string, l: string, rest: string, invalid: string)
    requires l != "" && CaptureContext(l).None?
    ensures ParsePieces([h, l, rest], invalid) == Err(invalid)
  {
    var ps := [h, l, rest];
    assert ps[0] == h && ps[1] == l;
  }
}
