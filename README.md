# Compiler diagnostics: codec and block scanner

This project models the part of the watcher that turns a compiler's standard
error into structured diagnostics, and proves properties of it in Dafny.

- `src/rust.rs` handles a single diagnostic. `Type` is printed as and read from the words
  `error` and `warning`. `RustDiagnostic` is printed by `Display` as a header line
  `kind[code]: message`, an optional `  --> file:line:column` line and optional details.
  `FromStr` reads one block back. It cuts the block into at most three pieces with
  `splitn(3, '\n')` and searches the first two pieces with two regular expressions:
  `REGEX_ERR = (error|warning)(\[(E[0-9]+)\])?: (.*)` and
  `REGEX_CONTEXT = " +--> ([^:]+):([0-9]+):([0-9]+)"`.
- `src/cargo.rs` holds the loop of `cargo::run`. It walks the lines of the decoded standard
  error with a two-state automaton (`Nothing`, `Diagnostic(buffer)`). A line starting with
  `warning` or `error` opens a block, and the first empty line closes it. Each closed block
  is parsed and pushed onto `errors` or `warnings`.

The files:

- `wrappers.dfy` defines `Option` and `Outcome`. `Outcome` is `Ok | Err | Panic`: `Err` is the
  `Err(String)` of a Rust `Result`, and `Panic` is an `expect` that fails.
- `text.dfy` models the pieces of Rust's `str` that the code relies on: `starts_with`,
  `splitn(3, '\n')` (`SplitN3`), `lines()` (`Lines`), and the decimal text of an unsigned
  number (`DecimalString`, `DecimalValue`).
- `rust.dfy` models `Type` and `RustDiagnostic`, `Display` (`Render`) and `FromStr`
  (`ParseDiagnostic`).
- Each regular expression is a hand-written matcher at one position (`MatchErr`,
  `MatchContext`). Each has a declarative description of what a match is (`ErrMatches`,
  `ContextMatches`) and proofs in both directions.
- `captures` is an unanchored, leftmost search over the positions of the line
  (`CaptureErr`, `CaptureContext`).
- `cargo.dfy` models `CompileResult`, `ParseState` and the loop of `run`. The loop is the
  method `Scan`, proved against the specification `Scanned`, which is the blocks closed
  by `Blocks` parsed and collected by `Collect`.

What the code does at its edges:

- `Display` and `FromStr` do not round-trip every diagnostic. The model follows the code:
  - details come back followed by the newline `Display` wrote after them
    (`Rust.DetailsGainNewline`);
  - without a file, the first line of the details is read as the location line:
    - when that line is not empty and holds no match of `REGEX_CONTEXT`, the whole text is
      rejected (`Rust.DetailsWithoutFileRejected`);
    - when it holds a match, the match comes back as a file, line and column; a line or
      column in the match beyond `u32` makes the parse panic;
    - when it is empty, there is no file, line or column;
    - in both of these cases, the text after the first newline of the details comes back as
      the details, followed by a newline, and details with no newline at all come back as
      no details. So `"  --> a:1:2\n"` comes back as details `"\n"`, details made only of
      newlines come back unchanged, and empty details come back as no details;
  - a line or column without a file is not printed at all, so it is lost;
  - a file without a line or column is printed with `-`, which `REGEX_CONTEXT` does not
    admit.

  `Rust.RenderParsesBack` states a condition under which the round trip holds
  (`Rust.RoundTrips`).
- Line and column can only be digit runs, because `REGEX_CONTEXT` captures nothing else. So
  the only failure left when they are read is a value beyond `u32`. That makes `expect`
  panic (`Outcome.Panic`, `Rust.LineOverflowPanics`, `Rust.ColumnOverflowPanics`); it is
  not an `Err`.

## Model

| member | source | states |
|---|---|---|
| Rust.TypeFromStr | src/rust.rs:27-37 | `Ok` exactly for `"error"` and `"warning"`; an `Ok` kind prints as the input; any other input gives `Err("Invalid rust diagnostic type " + input)`; it never panics |
| Rust.TypeNameParses | src/rust.rs:18-37 | reading back the word a kind prints as gives that kind |
| Rust.CodeGroup | src/rust.rs:8 | a match of `\[(E[0-9]+)\]` at the start splits the text into `[`, a code `E` plus digits, `]` and the rest |
| Rust.CodeGroupOf | src/rust.rs:8 | a bracketed code of the form `E` plus digits is always matched, whatever follows |
| Rust.MatchCodeAndMessage | src/rust.rs:8 | the optional code group followed by `": "` and the message up to the end of the line: whatever it returns satisfies `CodeAndMessage` |
| Rust.MatchCodeAndMessageComplete | src/rust.rs:8 | every code and message that `CodeAndMessage` admits is the one returned |
| Rust.MatchErr | src/rust.rs:8 | a match of `REGEX_ERR` found at the start of a text satisfies `ErrMatches`: a kind word, the optional code, `": "`, and the message running to the first newline |
| Rust.MatchErrComplete | src/rust.rs:8 | every match of `REGEX_ERR` at the start of a text is the one `MatchErr` returns (the pattern is deterministic at a position) |
| Rust.LeftmostErr | src/rust.rs:117 | the position returned holds a match, and no earlier position at or after the start does |
| Rust.CaptureErr | src/rust.rs:117 | `captures` returns only captures that any match of `REGEX_ERR` has: a kind word, an `E`-and-digits code, a message without newline |
| Rust.CaptureErrNone | src/rust.rs:117 | `captures` finds nothing exactly when `REGEX_ERR` matches at no position of the line |
| Rust.CaptureErrLeftmost | src/rust.rs:117 | `captures` reports the match at the leftmost matching position |
| Rust.CaptureErrAtStart | src/rust.rs:117 | a match at the start of the line is the one `captures` reports |
| Rust.MatchLineColumn | src/rust.rs:9 | `([0-9]+):([0-9]+)`: two non-empty digit runs, the column a whole run |
| Rust.MatchLineColumnComplete | src/rust.rs:9 | every line and column admitted by `LineColumn` is the pair returned |
| Rust.MatchFileLineColumn | src/rust.rs:9 | `([^:]+):` then line and column: the file is non-empty, has no colon and is followed by `:` |
| Rust.MatchFileLineColumnComplete | src/rust.rs:9 | every file, line and column admitted by `FileLineColumn` is the capture returned |
| Rust.MatchContext | src/rust.rs:9 | a match of `REGEX_CONTEXT` at the start of a text: the whole run of spaces (at least one), `"--> "`, then the file, line and column |
| Rust.SpacesPrefix | src/rust.rs:9 | a text whose first `n` characters are spaces is `n` spaces followed by the rest |
| Rust.MatchContextComplete | src/rust.rs:9 | every match of `REGEX_CONTEXT` at the start of a text, with any number of spaces, is the one `MatchContext` returns |
| Rust.LeftmostContext | src/rust.rs:125 | the position returned holds a match, and no earlier position at or after the start does |
| Rust.CaptureContext | src/rust.rs:125 | `captures` returns a non-empty file without colon and two non-empty digit runs |
| Rust.CaptureContextNone | src/rust.rs:125 | `captures` finds nothing exactly when `REGEX_CONTEXT` matches at no position of the line |
| Rust.CaptureContextLeftmost | src/rust.rs:125 | `captures` reports the match at the leftmost matching position |
| Rust.CaptureContextAtStart | src/rust.rs:125 | a match at the start of the line is the one `captures` reports |
| Rust.ParseDiagnostic | src/rust.rs:110-150 | `Err("Invalid input: " + input)` exactly when the first piece has no `REGEX_ERR` match or a non-empty second piece has no `REGEX_CONTEXT` match; a panic only with the two `expect` messages; an `Ok` result is made of the captures of the pieces (`ParsedFrom`); any result that is not `Err` is what `Build` makes of the captures, so it is `Ok` exactly when the kind word is known and line and column fit a `u32`, and a `Panic` otherwise |
| Rust.ParsePieces | src/rust.rs:114-149 | the same, piece by piece: no partial diagnostic is ever returned for a rejected block; any other result is what `Build` makes of the captures and the third piece, so it is `Ok` exactly when the kind word is known and line and column fit a `u32` |
| Rust.DetailsPiece | src/rust.rs:135-139 | details exist exactly when there is a non-empty third piece, and then are that piece verbatim |
| Rust.Build | src/rust.rs:141-148 | `Err` exactly when the kind word is not a kind; `Ok` exactly when, in addition, line and column fit a `u32`; the kind, code, message, file, line and column values of the result are those of the captures |
| Rust.ParsedFromShape | src/rust.rs:117-139 | a parsed diagnostic has a one-line message and a valid code; file, line and column are all present or all absent, present exactly when the second piece is not empty; the file is non-empty with no colon; details exist exactly when the third piece is not empty |
| Rust.CodeAndMessageOf | src/rust.rs:76-82 | the code part and message that `Display` writes after the kind are read back by the code-and-message part of `REGEX_ERR` |
| Rust.CodePartNoNewline | src/rust.rs:78-81 | the bracketed code that `Display` writes holds no newline |
| Rust.NoNewlineInDigits | src/rust.rs:9 | a digit run holds neither a newline nor a colon |
| Rust.HeaderLineShape | src/rust.rs:74-83 | `REGEX_ERR` matches the header line `Display` writes at its start, with the kind, code and message it was written from |
| Rust.HeaderLineMatches | src/rust.rs:74-117 | `REGEX_ERR.captures` reads the header line back with the kind, code and message it was written from |
| Rust.LocationLineShape | src/rust.rs:85-97 | the location line is one line, and `REGEX_CONTEXT` matches it at its start with the file and the decimal text of line and column |
| Rust.LocationLineMatches | src/rust.rs:85-125 | `REGEX_CONTEXT.captures` reads the location line back with the file and the decimal text of line and column |
| Rust.RenderPieces | src/rust.rs:72-114 | `splitn(3, '\n')` cuts the printed text into the header line, the location line when there is a file, and the details with their newline |
| Rust.ParseHeaderBlock | src/rust.rs:117-149 | a block whose first piece matches with a known kind word and whose second piece is missing or empty is valid: no file, line or column, and a non-empty third piece as details |
| Rust.HeaderLineParses | src/rust.rs:72-150 | a header line written by `Display`, alone and without a newline, reads back as the diagnostic when that has no location and no details |
| Rust.BareHeaderParses | src/rust.rs:110-150 | `"error: x"` reads as an error with message `x` and nothing else |
| Rust.LineOverflowPanics | src/rust.rs:146 | with a known kind word, a captured line number beyond `u32` panics with `"Line number was not a number!"` |
| Rust.ColumnOverflowPanics | src/rust.rs:146-147 | with a known kind word and a line that fits, a captured column number beyond `u32` panics with `"Column number was not a number!"` |
| Rust.PiecesWithLocation | src/rust.rs:124-139 | with two or three pieces and a non-empty second piece that matches, the result is built from both captures and the third piece |
| Rust.ParseLocated | src/rust.rs:110-150 | a text cut into a matching header line, a matching non-empty location line with line and column below 2^32, and a third piece reads as the diagnostic of those captures with the third piece (when not empty) as its details |
| Rust.BuildLocated | src/rust.rs:141-148 | with a known kind word and a line and column that fit a `u32`, the result holds the captured file and the values of the digits |
| Rust.RenderParsesBack | src/rust.rs:72-150 | for every diagnostic in `RoundTrips`, parsing what `Display` writes gives the same diagnostic, field for field |
| Rust.LocatedLines | src/rust.rs:72-125 | for a diagnostic with a file, `splitn` gives exactly the header line, the location line and the details with their newline, and both patterns read the first two back |
| Rust.RenderedLocated | src/rust.rs:72-150 | for a diagnostic with a file, parsing the printed text gives the same kind, code, message, file, line and column, with the third piece as details |
| Rust.DetailsGainNewline | src/rust.rs:99-139 | with a file and details, parsing the printed text gives the details followed by a newline |
| Rust.DetailsWithoutFileRejected | src/rust.rs:85-130 | without a file, the first line of the details is taken as the location line; when it is not empty and has no `REGEX_CONTEXT` match, the whole text is rejected with `Err("Invalid input: " + text)` |
| Rust.DetailsWithoutFilePieces | src/rust.rs:72-114 | without a file, `splitn` gives the header line, the first line of the details and the rest of the details |
| Rust.RejectedLocation | src/rust.rs:124-125 | a non-empty second piece without a `REGEX_CONTEXT` match makes the block an `Err` carrying the invalid-input message |
| Text.RestOfLine | src/rust.rs:8 | `(.*)`: the longest prefix without a newline; it ends at the end of the text or before a newline |
| Text.SplitN3 | src/rust.rs:114 | `splitn(3, '\n')`: one to three pieces that join back to the input with newlines; only a third piece may hold a newline |
| Text.SplitN3Unique | src/rust.rs:114 | any pieces with those properties are the ones `splitn` returns |
| Text.Lines | src/cargo.rs:43 | `lines()`: no line holds a newline |
| Text.LinesCrLf | src/cargo.rs:43 | a line ended by `"\r\n"` comes out without that one carriage return, and the lines after it are those of the rest |
| Text.LinesOfTerminated | src/cargo.rs:43 | `lines()` gives back lines that were each written with a newline, when none holds a newline or ends in a carriage return |
| Text.TerminatedOfLines | src/cargo.rs:43 | text without carriage returns that is empty or ends in a newline is its lines, each written with a newline |
| Text.DecimalString | src/rust.rs:90-95 | `to_string` of a number is a non-empty digit run whose value is that number, `"0"` for zero and with no leading zero otherwise |
| Cargo.Scan | src/cargo.rs:37-68 | the loop over `output.lines()` returns exactly `Scanned`: the blocks closed by the automaton, parsed in order, pushed by kind, with the first failure returned instead |
| Cargo.BlocksStep | src/cargo.rs:44-65 | one turn of the loop: the blocks closed from here on are the one this line closes, if any, followed by those closed after it |
| Cargo.CollectNext | src/cargo.rs:53-59 | parsing one more closed block pushes its diagnostic onto the result so far, or replaces the result by the parse failure |
| Cargo.FailureEndsScan | src/cargo.rs:54 | once a block fails to parse, the blocks after it do not change the outcome |
| Cargo.BlockBody | src/cargo.rs:51-63 | while a block is open, each non-empty line (even one that looks like a starter) is appended with its newline, and the first empty line closes the block and returns the scan to `Nothing` |
| Cargo.ClosedBlock | src/cargo.rs:45-63 | a block is its starter line and every following non-empty line, each with a newline; the empty line after them closes it |
| Cargo.SkipChatter | src/cargo.rs:45-49 | while idle, lines that start with neither `warning` nor `error` are dropped and never reach the parser |
| Cargo.OpenBlockDropped | src/cargo.rs:43-68 | a block still open when the output ends is never parsed |
| Cargo.ParseEach | src/cargo.rs:54 | one parse outcome per closed block, in order |
| Cargo.Values | src/cargo.rs:53-58 | the diagnostics of a run of successful parses, one per outcome, in order |
| Cargo.ParseEachAppend | src/cargo.rs:54 | parsing one more block appends its outcome |
| Cargo.ParseEachConcat | src/cargo.rs:54 | parsing two runs of blocks one after the other is parsing them together |
| Cargo.OfKind | src/cargo.rs:55-58 | the diagnostics of one kind, all of that kind and taken from the input |
| Cargo.KindsPartition | src/cargo.rs:55-58 | every diagnostic lands in exactly one of the two lists |
| Cargo.CollectOk | src/cargo.rs:54 | the result is `Ok` exactly when every closed block parses |
| Cargo.CollectValue | src/cargo.rs:38-59 | when every block parses, `success` is the exit status, `errors` are the parsed blocks of kind `Error` and `warnings` those of kind `Warning`, each in the order the blocks closed |
| Cargo.CollectFailureSticks | src/cargo.rs:54 | after a failure, further blocks change nothing: what was collected before is discarded |
| Cargo.CollectFirstFailure | src/cargo.rs:54 | a failed scan returns the failure of the first block that does not parse |
| Cargo.QuietOutput | src/cargo.rs:38-49 | output with no starter line, the empty output included, gives `Ok` with empty lists and the exit status unchanged |
| Cargo.ScannedCounts | src/cargo.rs:38-68 | a successful scan passes the exit status through, reports as many diagnostics as blocks were closed, errors in one list and warnings in the other |
| Cargo.UnclosedAtEnd | src/cargo.rs:43-68 | the output `"error: x\n"`, with no empty line after the block, reports nothing |
| Cargo.RenderedIsReported | src/cargo.rs:43-59 | a diagnostic in `RoundTrips` whose message does not end in a carriage return (which `lines()` would drop), printed by `Display` and followed by an empty line, is reported unchanged in the list for its kind |
| Cargo.RenderedBlock | src/cargo.rs:43-63 | the printed text of a diagnostic followed by an empty line is exactly one closed block, that text |
| Cargo.TwoLines | src/cargo.rs:43 | `lines()` of a header line, a location line and an empty line gives those three lines |
| Cargo.OneLineBlock | src/cargo.rs:45-63 | a lone starter line followed by an empty line closes one block, the line with its newline |
| Cargo.TwoLineBlock | src/cargo.rs:45-63 | a starter line and one more line followed by an empty line close one block, both lines with their newlines |
| Cargo.BlockOfLines | src/cargo.rs:45-63 | a starter line, non-empty lines and an empty line close one block |
| Cargo.HeaderLineClean | src/cargo.rs:47 | the header line `Display` writes opens a block and is a line of its own |
| Cargo.LocationLineClean | src/cargo.rs:61 | the location line `Display` writes is not empty, so it is appended to the open block |
| Cargo.CollectSingle | src/cargo.rs:53-59 | one block that parses gives one diagnostic, in the list for its kind |

## Left out

- Process spawning is not modelled: the choice of `sh -c` or `cmd /C`, `Command::output` and
  the working directory (src/cargo.rs:20-34). The captured standard error and the exit status
  are the parameters `output` and `success` of `Cargo.Scan`.
- UTF-8 decoding of standard error (src/cargo.rs:35) is left out; the model starts from the
  decoded text.
- src/main.rs (the GTK interface) and src/watcher.rs (the watch thread, its shared state and
  debouncing) are not part of this model. They are presentation and concurrency code.
- The `regex` and `lazy_static` crates are not modelled. Only the two fixed patterns are,
  as matchers with the crate's leftmost-first, unanchored `captures` semantics.
- `RustDiagnostic::new` (src/rust.rs:51-69) only turns borrowed text into owned text. Here it
  is the datatype constructor, with no contract of its own.
- `Rust.TypeName` (`Display for Type`, src/rust.rs:18-25) has no contract of its own. It is
  stated by `Rust.TypeNameParses` and by the `Ok` clause of `Rust.TypeFromStr`.
- `Text.StartsWith` (`starts_with`, src/cargo.rs:47) is a definition with no contract; it is
  used by `Cargo.IsStarter`.
- `Text.DecimalValue` (`parse::<u32>` before its range check, src/rust.rs:146-147) is a
  definition with no contract. `Text.DecimalString` states that it undoes `to_string`, and
  `Rust.Build` states the range check.
- `Cargo.IsStarter` (the test of src/cargo.rs:47) has no contract of its own. It is stated by
  `Cargo.SkipChatter` and `Cargo.ClosedBlock`.
- `Cargo.Blocks` (the blocks the loop of src/cargo.rs:43-65 closes) has no contract of its own.
  It is stated by `Cargo.BlocksStep`, `Cargo.BlockBody`, `Cargo.ClosedBlock`,
  `Cargo.SkipChatter` and `Cargo.OpenBlockDropped`.
- `Cargo.Scanned` (what `run` returns, src/cargo.rs:37-68) has no contract of its own. It is
  stated by `Cargo.Scan`, `Cargo.QuietOutput`, `Cargo.ScannedCounts`, `Cargo.UnclosedAtEnd`
  and `Cargo.RenderedIsReported`.
- `Cargo.Step` (one turn of the loop, src/cargo.rs:44-65) has no contract of its own. It is
  stated by `Cargo.BlocksStep`, `Cargo.BlockBody`, `Cargo.ClosedBlock`, `Cargo.SkipChatter`
  and `Cargo.OpenBlockDropped`.
- `Cargo.Push` (src/cargo.rs:55-58) has no contract of its own. It is stated by
  `Cargo.CollectValue` and `Cargo.KindsPartition`.
- `Cargo.Collect` (the pushes and the `?` of src/cargo.rs:53-59) has no contract of its own.
  It is stated by `Cargo.CollectOk`, `Cargo.CollectValue`, `Cargo.CollectFailureSticks` and
  `Cargo.CollectFirstFailure`.
- `Rust.Render` (`Display`) has no contract of its own. What it writes is stated by the lemmas
  about it: `Rust.RenderPieces`, `Rust.HeaderLineMatches`, `Rust.LocationLineMatches` and
  `Rust.RenderParsesBack`.
- The `err.get(1)` and `err.get(4)` failures (src/rust.rs:119-121) cannot happen: both groups
  take part in every match of `REGEX_ERR`. The model reads the captures directly.
- `Type::from_str` failing inside `FromStr` (src/rust.rs:142) cannot happen either, for the same
  reason. It is still modelled, in `Rust.Build`.
- A failed `expect` is a Rust panic that unwinds. It is modelled as the value `Outcome.Panic`,
  returned at once; nothing about unwinding is modelled.
- `Text.Lines` follows the `lines()` of current Rust: a carriage return is removed only when it
  comes right before a newline, so an unterminated last line keeps a final `"\r"`. Older
  standard libraries also removed it from an unterminated last line. That changes the scan
  when the last line is a bare `"\r"` after an open block: `"error: x\n\r"` closes one block
  under the older rule (the `"\r"` becomes an empty line), and closes none here.
- Derived `Clone`, `Debug` and `Default` have no model.
- Cargo.Scan: pushing onto `errors` and `warnings` in place is modelled as reassigning the
  sequences of a local `CompileResult` value; aliasing of the vectors is not modelled.
