/** The scan of the compiler's standard error in `cargo::run` (src/cargo.rs):
    blocks of lines that start with `warning` or `error` and end at an empty
    line are read with `FromStr for RustDiagnostic` and sorted into errors and
    warnings. */
module Cargo {
  import opened Wrappers
  import opened Text
  import opened Rust

  /** `CompileResult`: the exit status and the diagnostics found, each list in
      the order the blocks were closed. */
  datatype CompileResult = CompileResult(
    success: bool,
    errors: seq<RustDiagnostic>,
    warnings: seq<RustDiagnostic>)

  /** `ParseState`: idle, or collecting the text of one diagnostic block. */
  datatype ParseState = Nothing | Diagnostic(buffer: string)

  /** A line that opens a block. */
  predicate IsStarter(line: string) {
    StartsWith(line, "warning") || StartsWith(line, "error")
  }

  // ---------------------------------------------------------------------------
  // The scan, line by line
  // ---------------------------------------------------------------------------

  /** One turn of the loop: the next state, and the block the line closes. */
  function Step(st: ParseState, line: string): (ParseState, Option<string>)
  {
    match st
    case Nothing => (if IsStarter(line) then Diagnostic(line + "\n") else Nothing, None)
    case Diagnostic(buffer) =>
      if line == "" then (Nothing, Some(buffer)) else (Diagnostic(buffer + line + "\n"), None)
  }

  /** The blocks closed while scanning `lines` from state `st`, in order. */
  function Blocks(st: ParseState, lines: seq<string>): seq<string>
    decreases |lines|
  {
    if lines == [] then []
    else
      var next := Step(st, lines[0]);
      (if next.1.Some? then [next.1.value] else []) + Blocks(next.0, lines[1..])
  }

  /** Pushes a diagnostic onto the list for its kind. */
  function Push(res: CompileResult, d: RustDiagnostic): CompileResult
  {
    match d.kind
    case Error => res.(errors := res.errors + [d])
    case Warning => res.(warnings := res.warnings + [d])
  }

  /** The failure of a parse, passed on by `?`. */
  function Failed(o: Outcome<RustDiagnostic>): Outcome<CompileResult>
    requires !o.Ok?
  {
    match o
    case Err(e) => Err(e)
    case Panic(p) => Panic(p)
  }

  /** `parse` applied to each closed block, in order; the scan reads blocks
      with `FromStr for RustDiagnostic`. */
  function ParseEach(blocks: seq<string>, parse: string -> Outcome<RustDiagnostic>)
    : (os: seq<Outcome<RustDiagnostic>>)
    ensures |os| == |blocks|
    ensures forall k :: 0 <= k < |blocks| ==> os[k] == parse(blocks[k])
  {
    seq(|blocks|, k requires 0 <= k < |blocks| => parse(blocks[k]))
  }

  /** Pushing the parsed diagnostics in order; the first block that did not
      parse ends it all, through the `?` after `parse`. */
  function Collect(os: seq<Outcome<RustDiagnostic>>, success: bool): Outcome<CompileResult>
    decreases |os|
  {
    if os == [] then Ok(CompileResult(success, [], []))
    else
      var last := os[|os| - 1];
      match Collect(os[..|os| - 1], success)
      case Ok(res) =>
        (match last
         case Ok(d) => Ok(Push(res, d))
         case Err(e) => Err(e)
         case Panic(p) => Panic(p))
      case Err(e) => Err(e)
      case Panic(p) => Panic(p)
  }

  /** What `run` returns for the standard error `output` and exit status
      `success`. */
  function Scanned(output: string, success: bool): Outcome<CompileResult>
  {
    Collect(ParseEach(Blocks(Nothing, Lines(output)), ParseDiagnostic), success)
  }

  /** The loop of `run` over `output.lines()`. */
  method Scan(output: string, success: bool) returns (r: Outcome<CompileResult>)
    ensures r == Scanned(output, success)
  {
    var lines := Lines(output);
    var state := Nothing;
    var result := CompileResult(success, [], []);
    ghost var done: seq<string> := [];
    for i := 0 to |lines|
      invariant Blocks(Nothing, lines) == done + Blocks(state, lines[i..])
      invariant Collect(ParseEach(done, ParseDiagnostic), success) == Ok(result)
    {
      var line := lines[i];
      BlocksStep(state, lines, i);
      ghost var next := Step(state, line);
      assert next.1.Some? ==> Blocks(Nothing, lines) == (done + [next.1.value]) + Blocks(next.0, lines[i + 1..]);
      assert next.1.None? ==> Blocks(Nothing, lines) == done + Blocks(next.0, lines[i + 1..]);
      match state {
      case Nothing =>
        if IsStarter(line) {
          state := Diagnostic(line + "\n");
        }
      case Diagnostic(diag) =>
        if line == "" {
          var parsed := ParseDiagnostic(diag);
          CollectNext(done, diag, ParseDiagnostic, success);
          if !parsed.Ok? {
            FailureEndsScan(done + [diag], Blocks(Nothing, lines[i + 1..]), ParseDiagnostic, success);
            return Failed(parsed);
          }
          var d := parsed.value;
          match d.kind {
            case Error => result := result.(errors := result.errors + [d]);
            case Warning => result := result.(warnings := result.warnings + [d]);
          }
          done := done + [diag];
          state := Nothing;
        } else {
          state := Diagnostic(diag + line + "\n");
        }
      }
    }
    assert lines[|lines|..] == [];
    assert done + [] == done;
    return Ok(result);
  }

  /** One turn of the loop over the remaining lines. */
  lemma BlocksStep(st: ParseState, lines: seq<string>, i: nat)
    requires i < |lines|
    ensures Step(st, lines[i]).1.None? ==>
      Blocks(st, lines[i..]) == Blocks(Step(st, lines[i]).0, lines[i + 1..])
    ensures Step(st, lines[i]).1.Some? ==>
      Blocks(st, lines[i..]) == [Step(st, lines[i]).1.value] + Blocks(Step(st, lines[i]).0, lines[i + 1..])
  {
    assert lines[i..][0] == lines[i] && lines[i..][1..] == lines[i + 1..];
    var x := Blocks(Step(st, lines[i]).0, lines[i + 1..]);
    assert [] + x == x;
  }

  /** Parsing one more closed block. */
  lemma CollectNext(done: seq<string>, b: string, parse: string -> Outcome<RustDiagnostic>, success: bool)
    ensures Collect(ParseEach(done + [b], parse), success) ==
      match Collect(ParseEach(done, parse), success)
      case Ok(res) => (if parse(b).Ok? then Ok(Push(res, parse(b).value)) else Failed(parse(b)))
      case Err(e) => Err(e)
      case Panic(p) => Panic(p)
  {
    ParseEachAppend(done, b, parse);
    var os := ParseEach(done, parse) + [parse(b)];
    assert os[..|os| - 1] == ParseEach(done, parse);
  }

  /** A block that fails to parse decides the outcome of the whole scan. */
  lemma FailureEndsScan(blocks: seq<string>, more: seq<string>,
                        parse: string -> Outcome<RustDiagnostic>, success: bool)
    requires !Collect(ParseEach(blocks, parse), success).Ok?
    ensures Collect(ParseEach(blocks + more, parse), success) == Collect(ParseEach(blocks, parse), success)
  {
    ParseEachConcat(blocks, more, parse);
    CollectFailureSticks(ParseEach(blocks, parse), ParseEach(more, parse), success);
  }

  // ---------------------------------------------------------------------------
  // Which lines make a block
  // ---------------------------------------------------------------------------

  lemma TerminatedCons(head: string, body: seq<string>)
    ensures Terminated([head] + body) == head + "\n" + Terminated(body)
  {
    assert ([head] + body)[1..] == body;
  }

  /** While a block is open, every non-empty line is appended with its newline
      (even one that looks like a starter), and the first empty line closes
      the block and returns the scan to idle. */
  lemma {:induction false} BlockBody(buffer: string, body: seq<string>, rest: seq<string>)
    requires forall k :: 0 <= k < |body| ==> body[k] != ""
    ensures Blocks(Diagnostic(buffer), body + [""] + rest)
      == [buffer + Terminated(body)] + Blocks(Nothing, rest)
    decreases |body|
  {
    var ls := body + [""] + rest;
    if body == [] {
      assert ls[0] == "" && ls[1..] == rest;
      assert buffer + Terminated(body) == buffer;
    } else {
      assert ls[0] == body[0] != "" && ls[1..] == body[1..] + [""] + rest;
      BlockBody(buffer + body[0] + "\n", body[1..], rest);
      assert buffer + Terminated(body) == (buffer + body[0] + "\n") + Terminated(body[1..]);
    }
  }

  /** A block is its starter line and every following non-empty line, each
      with its newline; the empty line after them closes it. */
  lemma ClosedBlock(head: string, body: seq<string>, rest: seq<string>)
    requires IsStarter(head)
    requires forall k :: 0 <= k < |body| ==> body[k] != ""
    ensures Blocks(Nothing, [head] + body + [""] + rest)
      == [Terminated([head] + body)] + Blocks(Nothing, rest)
  {
    var ls := [head] + body + [""] + rest;
    assert ls[0] == head && ls[1..] == body + [""] + rest;
    BlockBody(head + "\n", body, rest);
    TerminatedCons(head, body);
  }

  /** While idle, lines that do not start with `warning` or `error` are
      dropped and never reach the parser. */
  lemma {:induction false} SkipChatter(junk: seq<string>, rest: seq<string>)
    requires forall k :: 0 <= k < |junk| ==> !IsStarter(junk[k])
    ensures Blocks(Nothing, junk + rest) == Blocks(Nothing, rest)
    decreases |junk|
  {
    if junk == [] {
      assert junk + rest == rest;
    } else {
      var ls := junk + rest;
      assert ls[0] == junk[0] && !IsStarter(ls[0]) && ls[1..] == junk[1..] + rest;
      SkipChatter(junk[1..], rest);
      assert Blocks(Nothing, ls) == [] + Blocks(Nothing, ls[1..]);
    }
  }

  /** A block still open when the output ends is dropped without being
      parsed. */
  lemma {:induction false} OpenBlockDropped(buffer: string, body: seq<string>)
    requires forall k :: 0 <= k < |body| ==> body[k] != ""
    ensures Blocks(Diagnostic(buffer), body) == []
    decreases |body|
  {
    if body != [] {
      OpenBlockDropped(buffer + body[0] + "\n", body[1..]);
    }
  }

  // ---------------------------------------------------------------------------
  // What the closed blocks add up to
  // ---------------------------------------------------------------------------

  lemma ParseEachAppend(blocks: seq<string>, b: string, parse: string -> Outcome<RustDiagnostic>)
    ensures ParseEach(blocks + [b], parse) == ParseEach(blocks, parse) + [parse(b)]
  {
    var all := blocks + [b];
    assert forall k :: 0 <= k < |blocks| ==> all[k] == blocks[k];
  }

  lemma ParseEachConcat(blocks: seq<string>, more: seq<string>, parse: string -> Outcome<RustDiagnostic>)
    ensures ParseEach(blocks + more, parse) == ParseEach(blocks, parse) + ParseEach(more, parse)
  {
    var all := blocks + more;
    assert forall k :: 0 <= k < |all| ==> all[k] == (if k < |blocks| then blocks[k] else more[k - |blocks|]);
  }

  /** The diagnostics of outcomes that are all `Ok`, in order. */
  function Values(os: seq<Outcome<RustDiagnostic>>): (ds: seq<RustDiagnostic>)
    requires forall k :: 0 <= k < |os| ==> os[k].Ok?
    ensures |ds| == |os|
    ensures forall k :: 0 <= k < |os| ==> os[k] == Ok(ds[k])
    decreases |os|
  {
    if os == [] then [] else Values(os[..|os| - 1]) + [os[|os| - 1].value]
  }

  /** The diagnostics of kind `t`, in their order. */
  function OfKind(ds: seq<RustDiagnostic>, t: Type): (r: seq<RustDiagnostic>)
    ensures |r| <= |ds|
    ensures forall k :: 0 <= k < |r| ==> r[k].kind == t && r[k] in ds
    decreases |ds|
  {
    if ds == [] then []
    else
      var last := ds[|ds| - 1];
      OfKind(ds[..|ds| - 1], t) + (if last.kind == t then [last] else [])
  }

  /** Every diagnostic goes to exactly one of the two lists. */
  lemma {:induction false} KindsPartition(ds: seq<RustDiagnostic>)
    ensures |OfKind(ds, Error)| + |OfKind(ds, Warning)| == |ds|
    decreases |ds|
  {
    if ds != [] {
      KindsPartition(ds[..|ds| - 1]);
    }
  }

  /** The scan succeeds exactly when every closed block parses. */
  lemma {:induction false} CollectOk(os: seq<Outcome<RustDiagnostic>>, success: bool)
    ensures Collect(os, success).Ok? <==> forall k :: 0 <= k < |os| ==> os[k].Ok?
    decreases |os|
  {
    if os != [] {
      var init := os[..|os| - 1];
      CollectOk(init, success);
      assert forall k :: 0 <= k < |init| ==> init[k] == os[k];
    }
  }

  /** When every closed block parses, the exit status is passed through, and
      errors and warnings are the parsed blocks of each kind in the order
      they were closed. */
  lemma {:induction false} CollectValue(os: seq<Outcome<RustDiagnostic>>, success: bool)
    requires forall k :: 0 <= k < |os| ==> os[k].Ok?
    ensures Collect(os, success)
      == Ok(CompileResult(success, OfKind(Values(os), Error), OfKind(Values(os), Warning)))
    decreases |os|
  {
    if os != [] {
      var init := os[..|os| - 1];
      assert forall k :: 0 <= k < |init| ==> init[k] == os[k];
      CollectValue(init, success);
      var ds := Values(os);
      var d := ds[|ds| - 1];
      assert ds[..|ds| - 1] == Values(init);
      assert os[|os| - 1] == Ok(d);
      var errors, warnings := OfKind(Values(init), Error), OfKind(Values(init), Warning);
      if d.kind == Error {
        assert OfKind(ds, Error) == errors + [d];
        assert OfKind(ds, Warning) == warnings + [] == warnings;
      } else {
        assert OfKind(ds, Error) == errors + [] == errors;
        assert OfKind(ds, Warning) == warnings + [d];
      }
    }
  }

  /** Once a block fails to parse, the blocks after it change nothing: the
      diagnostics collected so far are discarded. */
  lemma {:induction false} CollectFailureSticks(os: seq<Outcome<RustDiagnostic>>,
                                                more: seq<Outcome<RustDiagnostic>>, success: bool)
    requires !Collect(os, success).Ok?
    ensures Collect(os + more, success) == Collect(os, success)
    decreases |more|
  {
    if more == [] {
      assert os + more == os;
    } else {
      var all := os + more;
      assert all[..|all| - 1] == os + more[..|more| - 1];
      CollectFailureSticks(os, more[..|more| - 1], success);
    }
  }

  /** The outcome of a failed scan is the failure of the first block that
      does not parse. */
  lemma CollectFirstFailure(os: seq<Outcome<RustDiagnostic>>, success: bool, k: nat)
    requires k < |os| && !os[k].Ok?
    requires forall j :: 0 <= j < k ==> os[j].Ok?
    ensures Collect(os, success) == Failed(os[k])
  {
    var init := os[..k];
    assert forall j :: 0 <= j < k ==> init[j] == os[j];
    CollectOk(init, success);
    assert os[..k + 1][..k] == init;
    assert os == os[..k + 1] + os[k + 1..];
    CollectFailureSticks(os[..k + 1], os[k + 1..], success);
  }

  // ---------------------------------------------------------------------------
  // Whole outputs
  // ---------------------------------------------------------------------------

  /** Output without a line that starts with `warning` or `error`, the empty
      output among them, gives empty lists and the exit status as it is. */
  lemma QuietOutput(output: string, success: bool)
    requires forall k :: 0 <= k < |Lines(output)| ==> !IsStarter(Lines(output)[k])
    ensures Scanned(output, success) == Ok(CompileResult(success, [], []))
  {
    SkipChatter(Lines(output), []);
    assert Lines(output) + [] == Lines(output);
  }

  /** A scan that succeeds reports each closed block exactly once, errors in
      one list and warnings in the other, and passes the exit status through
      whatever it found. */
  lemma ScannedCounts(output: string, success: bool)
    requires Scanned(output, success).Ok?
    ensures Scanned(output, success).value.success == success
    ensures |Scanned(output, success).value.errors| + |Scanned(output, success).value.warnings|
      == |Blocks(Nothing, Lines(output))|
    ensures forall d :: d in Scanned(output, success).value.errors ==> d.kind == Error
    ensures forall d :: d in Scanned(output, success).value.warnings ==> d.kind == Warning
  {
    var os := ParseEach(Blocks(Nothing, Lines(output)), ParseDiagnostic);
    CollectOk(os, success);
    CollectValue(os, success);
    KindsPartition(Values(os));
  }

  /** A header line that ends the output is never reported. */
  lemma UnclosedAtEnd(success: bool)
    ensures Scanned("error: x\n", success) == Ok(CompileResult(success, [], []))
  {
    LinesOfTerminated(["error: x"]);
    assert Terminated(["error: x"]) == "error: x\n";
    var ls := ["error: x"];
    assert ls[1..] == [];
    OpenBlockDropped("error: x\n", []);
  }

  /** A diagnostic printed by `Display` and followed by an empty line is
      reported back, unchanged, in the list for its kind. */
  lemma RenderedIsReported(d: RustDiagnostic, success: bool)
    requires RoundTrips(d)
    requires d.message == "" || d.message[|d.message| - 1] != '\r'
    ensures Scanned(Render(d) + "\n", success) == Ok(Push(CompileResult(success, [], []), d))
  {
    RenderedBlock(d);
    RenderParsesBack(d);
    CollectSingle(Render(d), ParseDiagnostic, d, success);
  }

  /** The text of `Display` followed by an empty line is one closed block. */
  lemma RenderedBlock(d: RustDiagnostic)
    requires RoundTrips(d)
    requires d.message == "" || d.message[|d.message| - 1] != '\r'
    ensures Blocks(Nothing, Lines(Render(d) + "\n")) == [Render(d)]
  {
    var h := HeaderLine(d);
    HeaderLineClean(d);
    if d.file.Some? {
      var l := LocationLine(d);
      LocationLineClean(d);
      assert Render(d) == h + "\n" + l + "\n";
      TwoLines(h, l);
      TwoLineBlock(h, l);
    } else {
      assert Render(d) == h + "\n";
      OneLineBlock(h);
    }
  }

  /** A lone starter line, then an empty line, make one block. */
  lemma OneLineBlock(h: string)
    requires IsStarter(h) && '\n' !in h && StripCr(h) == h
    ensures Blocks(Nothing, Lines(h + "\n" + "\n")) == [h + "\n"]
  {
    var ls := [h, ""];
    TerminatedCons(h, [""]);
    TerminatedCons("", []);
    assert h + "\n" + "\n" == Terminated(ls);
    LinesOfTerminated(ls);
    BlockOfLines(h, []);
    TerminatedCons(h, []);
    assert [h] + [] == [h];
  }

  /** A starter line and one more line, then an empty line, make one block. */
  lemma TwoLineBlock(h: string, l: string)
    requires IsStarter(h) && '\n' !in h && StripCr(h) == h
    requires l != "" && '\n' !in l && StripCr(l) == l
    ensures Blocks(Nothing, [h] + [l] + [""]) == [h + "\n" + l + "\n"]
  {
    BlockOfLines(h, [l]);
    TerminatedCons(h, [l]);
    TerminatedCons(l, []);
    assert [l] + [] == [l];
    assert Terminated([h] + [l]) == h + "\n" + l + "\n";
  }

  lemma TwoLines(h: string, l: string)
    requires '\n' !in h && StripCr(h) == h
    requires '\n' !in l && StripCr(l) == l
    ensures Lines(h + "\n" + l + "\n" + "\n") == [h] + [l] + [""]
  {
    var ls := [h] + [l] + [""];
    assert ls == [h] + [l, ""];
    TerminatedCons(h, [l, ""]);
    TerminatedCons(l, [""]);
    TerminatedCons("", []);
    assert h + "\n" + l + "\n" + "\n" == Terminated(ls);
    LinesOfTerminated(ls);
  }

  /** `ClosedBlock` with nothing after the empty line. */
  lemma BlockOfLines(head: string, body: seq<string>)
    requires IsStarter(head)
    requires forall k :: 0 <= k < |body| ==> body[k] != ""
    ensures Blocks(Nothing, [head] + body + [""]) == [Terminated([head] + body)]
  {
    ClosedBlock(head, body, []);
    assert [head] + body + [""] + [] == [head] + body + [""];
    assert [Terminated([head] + body)] + [] == [Terminated([head] + body)];
  }

  /** The header line opens a block and is a line of its own. */
  lemma HeaderLineClean(d: RustDiagnostic)
    requires d.num.Some? ==> IsCode(d.num.value)
    requires '\n' !in d.message
    requires d.message == "" || d.message[|d.message| - 1] != '\r'
    ensures IsStarter(HeaderLine(d))
    ensures '\n' !in HeaderLine(d) && HeaderLine(d) != "" && StripCr(HeaderLine(d)) == HeaderLine(d)
  {
    var h := HeaderLine(d);
    HeaderLineNoNewline(d);
    assert h == TypeName(d.kind) + (CodePart(d.num) + ": " + d.message);
    assert h[|h| - 1] != '\r' by {
      if d.message != "" {
        assert h[|h| - 1] == d.message[|d.message| - 1];
      }
    }
  }

  /** The location line is not empty and is a line of its own. */
  lemma LocationLineClean(d: RustDiagnostic)
    requires d.file.Some? && d.line.Some? && d.column.Some?
    requires d.file.value != "" && '\n' !in d.file.value
    ensures '\n' !in LocationLine(d) && LocationLine(d) != "" && StripCr(LocationLine(d)) == LocationLine(d)
  {
    var column := DecimalString(d.column.value);
    NoNewlineInDigits(DecimalString(d.line.value));
    NoNewlineInDigits(column);
    var l := LocationLine(d);
    assert l[|l| - 1] == column[|column| - 1];
    assert IsDigit(column[|column| - 1]);
  }

  lemma CollectSingle(b: string, parse: string -> Outcome<RustDiagnostic>, d: RustDiagnostic, success: bool)
    requires parse(b) == Ok(d)
    ensures Collect(ParseEach([b], parse), success) == Ok(Push(CompileResult(success, [], []), d))
  {
    assert ParseEach([b], parse)[..0] == [];
  }
}
