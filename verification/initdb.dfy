/**
 * The statement splitter of the database initialisation script
 * (init_db.py): the SQL file is read line by line, comments and blank lines
 * are skipped, `DELIMITER` lines switch the statement terminator, and every
 * line ending with the current terminator completes a statement. Executing
 * the statements is left to the caller; here they are returned in order.
 */
module InitDb {
  import opened Text

  /** The state between lines: the lines of the statement being read, and the current terminator. */
  datatype Splitter = Splitter(buffer: seq<string>, delimiter: string)

  const Initial: Splitter := Splitter([], ";")

  /** A trimmed line the splitter skips: blank, or a `--` comment. */
  predicate Ignored(line: string) {
    HasPrefix(line, "--") || line == ""
  }

  /** A trimmed line that switches the terminator. */
  predicate IsDelimiterCommand(line: string) {
    HasPrefix(line, "DELIMITER")
  }

  /** A line without leading or trailing whitespace. */
  predicate Trimmed(line: string) {
    line == [] || (!IsSpace(line[0]) && !IsSpace(line[|line| - 1]))
  }

  /** A line that may sit in the buffer: trimmed, and neither skipped nor a terminator switch. */
  predicate Bufferable(line: string) {
    Trimmed(line) && !Ignored(line) && !IsDelimiterCommand(line)
  }

  /** The splitter's invariant: only bufferable lines are buffered, and the terminator is one whitespace-free token. */
  predicate Clean(st: Splitter) {
    && (forall k :: 0 <= k < |st.buffer| ==> Bufferable(st.buffer[k]))
    && st.delimiter != [] && NoSpace(st.delimiter)
  }

  /** The statement a terminated buffer yields: its lines joined by single spaces, trailing terminator characters stripped. */
  function Statement(lines: seq<string>, delimiter: string): (stmt: string)
    ensures StartsWith(Join(lines, " "), stmt)
    ensures forall k :: |stmt| <= k < |Join(lines, " ")| ==> Join(lines, " ")[k] in delimiter
    ensures stmt != [] ==> stmt[|stmt| - 1] !in delimiter
  {
    RStripChars(Join(lines, " "), delimiter)
  }

  /** Python's `line.split()[-1]`: the last whitespace-separated word of a line that is not blank. */
  function LastWord(line: string): (w: string)
    requires !AllSpace(line)
    ensures w != [] && NoSpace(w)
    ensures exists i :: IsLastWordAt(line, w, i)
  {
    var words := Words(line);
    var w := words[|words| - 1];
    LastWordFound(line, w);
    w
  }

  lemma LastWordFound(line: string, w: string)
    requires !AllSpace(line) && w == Words(line)[|Words(line)| - 1]
    ensures exists i :: IsLastWordAt(line, w, i)
  {
    var i := WordsLast(line, w);
  }

  /** What one line of the script is, once stripped. */
  datatype Line = Skip | Switch(delimiter: string) | Content(text: string)

  /**
   * Classifies a raw line by its stripped text: blank and `--` lines are
   * skipped; a `DELIMITER` line names its last whitespace-separated token
   * as the new terminator; anything else is statement text.
   */
  function Classify(raw: string): (l: Line)
    ensures l.Skip? <==> Ignored(Strip(raw))
    ensures l.Switch? <==> !Ignored(Strip(raw)) && IsDelimiterCommand(Strip(raw))
    ensures l.Switch? ==> !AllSpace(Strip(raw)) && l.delimiter == LastWord(Strip(raw))
    ensures l.Content? ==> l.text == Strip(raw) && Bufferable(l.text)
  {
    var line := Strip(raw);
    if Ignored(line) then Skip
    else if IsDelimiterCommand(line) then
      assert !AllSpace(line) by { assert !IsSpace(line[0]); }
      Switch(LastWord(line))
    else
      Content(line)
  }

  /**
   * One line of the script: the next state and the statement it completes,
   * if any. A terminator switch keeps the buffer; a line that ends with the
   * terminator completes the buffered statement, which is emitted only when
   * not blank, and resets both buffer and terminator, even when nothing is
   * emitted.
   */
  function Step(st: Splitter, raw: string): (r: (Splitter, seq<string>))
    ensures |r.1| <= 1
    ensures r.1 != [] ==> !AllSpace(r.1[0])
    ensures Classify(raw).Content? && EndsWith(Classify(raw).text, st.delimiter) ==> r.0 == Initial
    ensures !Classify(raw).Content? ==> r.0.buffer == st.buffer && r.1 == []
    ensures r.1 != [] ==> r.1[0] == Statement(st.buffer + [Strip(raw)], st.delimiter)
  {
    match Classify(raw)
    case Skip => (st, [])
    case Switch(delimiter) => (st.(delimiter := delimiter), [])
    case Content(line) =>
      var buffer := st.buffer + [line];
      if EndsWith(line, st.delimiter) then
        var stmt := Statement(buffer, st.delimiter);
        (Initial, if !AllSpace(stmt) then [stmt] else [])
      else
        (st.(buffer := buffer), [])
  }

  /** Every step keeps the splitter's invariant. */
  lemma StepKeepsClean(st: Splitter, raw: string)
    requires Clean(st)
    ensures Clean(Step(st, raw).0)
  {
    match Classify(raw)
    case Skip =>
    case Switch(_) =>
    case Content(line) =>
      var buffer := st.buffer + [line];
      assert forall k :: 0 <= k < |buffer| ==> Bufferable(buffer[k]) by {
        forall k | 0 <= k < |buffer| ensures Bufferable(buffer[k]) {
          if k < |st.buffer| { assert buffer[k] == st.buffer[k]; }
        }
      }
  }

  /** `step` applied to each line in turn from `st`: the final state and everything emitted, in line order. */
  function Scan(step: (Splitter, string) -> (Splitter, seq<string>), st: Splitter, lines: seq<string>): (Splitter, seq<string>)
  {
    if lines == [] then (st, [])
    else
      var (before, emitted) := Scan(step, st, lines[..|lines| - 1]);
      var (after, more) := step(before, lines[|lines| - 1]);
      (after, emitted + more)
  }

  /** Scanning `a + b` is scanning `a`, then `b` from the state `a` left; the outputs concatenate in order. */
  lemma {:induction false} ScanAppend(step: (Splitter, string) -> (Splitter, seq<string>), st: Splitter, a: seq<string>, b: seq<string>)
    ensures Scan(step, st, a + b).0 == Scan(step, Scan(step, st, a).0, b).0
    ensures Scan(step, st, a + b).1 == Scan(step, st, a).1 + Scan(step, Scan(step, st, a).0, b).1
    decreases |b|
  {
    var mid := Scan(step, st, a);
    if b == [] {
      assert a + b == a;
      assert mid.1 + [] == mid.1;
    } else {
      var b' := b[..|b| - 1];
      var last := b[|b| - 1];
      assert (a + b)[..|a + b| - 1] == a + b';
      assert (a + b)[|a + b| - 1] == last;
      ScanAppend(step, st, a, b');
      var inner := Scan(step, mid.0, b');
      var next := step(inner.0, last);
      assert (mid.1 + inner.1) + next.1 == mid.1 + (inner.1 + next.1);
    }
  }

  /** A line that leaves every state as it is and emits nothing can be dropped from anywhere. */
  lemma ScanSkip(step: (Splitter, string) -> (Splitter, seq<string>), st: Splitter, a: seq<string>, line: string, b: seq<string>)
    requires forall s :: step(s, line) == (s, [])
    ensures Scan(step, st, a + [line] + b) == Scan(step, st, a + b)
  {
    ScanAppend(step, st, a + [line], b);
    ScanAppend(step, st, a, [line]);
    ScanAppend(step, st, a, b);
    assert [line][..0] == [];
    var mid := Scan(step, st, a);
    assert Scan(step, mid.0, [line]) == (mid.0, []);
    assert mid.1 + [] == mid.1;
  }

  /** A state property every step keeps is kept by the whole scan. */
  lemma {:induction false} ScanKeeps(step: (Splitter, string) -> (Splitter, seq<string>), inv: Splitter -> bool, st: Splitter, lines: seq<string>)
    requires forall s, x :: inv(s) ==> inv(step(s, x).0)
    requires inv(st)
    ensures inv(Scan(step, st, lines).0)
  {
    if lines != [] {
      ScanKeeps(step, inv, st, lines[..|lines| - 1]);
      var before := Scan(step, st, lines[..|lines| - 1]);
      assert inv(before.0);
      assert Scan(step, st, lines).0 == step(before.0, lines[|lines| - 1]).0;
    }
  }

  /** What every step emits satisfies `ok`, so everything the scan emits does. */
  lemma {:induction false} ScanEmits(step: (Splitter, string) -> (Splitter, seq<string>), ok: string -> bool, st: Splitter, lines: seq<string>)
    requires forall s, x, k :: 0 <= k < |step(s, x).1| ==> ok(step(s, x).1[k])
    ensures forall k :: 0 <= k < |Scan(step, st, lines).1| ==> ok(Scan(step, st, lines).1[k])
  {
    if lines != [] {
      ScanEmits(step, ok, st, lines[..|lines| - 1]);
      var before := Scan(step, st, lines[..|lines| - 1]);
      var more := step(before.0, lines[|lines| - 1]).1;
      assert Scan(step, st, lines).1 == before.1 + more;
      forall k | 0 <= k < |before.1 + more| ensures ok((before.1 + more)[k]) {
        if k < |before.1| {
          assert ok(before.1[k]);
        } else {
          assert ok(more[k - |before.1|]);
        }
      }
    }
  }

  /** The invariants of the whole splitter: statements are never blank, and `Clean` holds throughout. */
  lemma RunFacts(st: Splitter, lines: seq<string>)
    ensures forall k :: 0 <= k < |Scan(Step, st, lines).1| ==> !AllSpace(Scan(Step, st, lines).1[k])
    ensures Clean(st) ==> Clean(Scan(Step, st, lines).0)
  {
    var notBlank := (stmt: string) => !AllSpace(stmt);
    forall s, x, k | 0 <= k < |Step(s, x).1| ensures notBlank(Step(s, x).1[k]) {
      assert k == 0;
    }
    ScanEmits(Step, notBlank, st, lines);
    if Clean(st) {
      ScanKeepsClean(st, lines);
    }
  }

  /** `Clean` holds after any number of lines. */
  lemma ScanKeepsClean(st: Splitter, lines: seq<string>)
    requires Clean(st)
    ensures Clean(Scan(Step, st, lines).0)
  {
    forall s, x | Clean(s) ensures Clean(Step(s, x).0) {
      StepKeepsClean(s, x);
    }
    ScanKeeps(Step, Clean, st, lines);
  }

  /** The lines `lines` processed in order from `st`: the final state and the statements emitted, in file order. */
  function Run(st: Splitter, lines: seq<string>): (r: (Splitter, seq<string>))
    ensures forall k :: 0 <= k < |r.1| ==> !AllSpace(r.1[k])
    ensures Clean(st) ==> Clean(r.0)
  {
    RunFacts(st, lines);
    Scan(Step, st, lines)
  }

  /** The statements the script executes: those the splitter emits; an unterminated last statement is dropped. */
  function SplitStatements(content: string): (statements: seq<string>)
    ensures forall k :: 0 <= k < |statements| ==> !AllSpace(statements[k])
  {
    Run(Initial, SplitOn(content, '\n')).1
  }

  /** Processing `a + b` is processing `a`, then `b` from the state `a` left: statements keep file order. */
  lemma RunAppend(st: Splitter, a: seq<string>, b: seq<string>)
    ensures Run(st, a + b) == (Run(Run(st, a).0, b).0, Run(st, a).1 + Run(Run(st, a).0, b).1)
  {
    ScanAppend(Step, st, a, b);
  }

  /** A skipped line leaves the state as it is and emits nothing. */
  lemma SkipStep(st: Splitter, line: string)
    requires Classify(line).Skip?
    ensures Step(st, line) == (st, [])
  {
  }

  /** A blank or comment line anywhere in the script changes nothing. */
  lemma IgnoredLineInvisible(st: Splitter, a: seq<string>, line: string, b: seq<string>)
    requires Classify(line).Skip?
    ensures Run(st, a + [line] + b) == Run(st, a + b)
  {
    forall s: Splitter ensures Step(s, line) == (s, []) {
      SkipStep(s, line);
    }
    ScanSkip(Step, st, a, line, b);
  }

  /** A content line that does not end with the current terminator is buffered: nothing is emitted and the terminator stays. */
  lemma UnterminatedStep(st: Splitter, line: string)
    requires Classify(line).Content? && !EndsWith(Classify(line).text, st.delimiter)
    ensures Step(st, line).1 == [] && Step(st, line).0.delimiter == st.delimiter
  {
  }

  /** Lines on which `step` emits nothing and keeps the terminator `d` emit nothing and keep `d` when scanned after `lines`. */
  lemma {:induction false} ScanQuiet(step: (Splitter, string) -> (Splitter, seq<string>), st: Splitter, lines: seq<string>, tail: seq<string>, d: string)
    requires Scan(step, st, lines).0.delimiter == d
    requires forall s: Splitter, k :: 0 <= k < |tail| && s.delimiter == d ==>
      step(s, tail[k]).1 == [] && step(s, tail[k]).0.delimiter == d
    ensures Scan(step, st, lines + tail).1 == Scan(step, st, lines).1
    ensures Scan(step, st, lines + tail).0.delimiter == d
    decreases |tail|
  {
    if tail == [] {
      assert lines + tail == lines;
    } else {
      var t' := tail[..|tail| - 1];
      assert (lines + tail)[..|lines + tail| - 1] == lines + t';
      assert (lines + tail)[|lines + tail| - 1] == tail[|tail| - 1];
      ScanQuiet(step, st, lines, t', d);
      var before := Scan(step, st, lines + t');
      assert step(before.0, tail[|tail| - 1]).1 == [];
      assert before.1 + [] == before.1;
    }
  }

  /**
   * Lines after the last terminated statement are never emitted: appending
   * lines that are neither skipped, nor terminator switches, nor end with
   * the current terminator, emits nothing and keeps the terminator.
   */
  lemma UnterminatedTailDropped(st: Splitter, lines: seq<string>, tail: seq<string>)
    requires forall k :: 0 <= k < |tail| ==>
      Classify(tail[k]).Content? && !EndsWith(Classify(tail[k]).text, Run(st, lines).0.delimiter)
    ensures Run(st, lines + tail).1 == Run(st, lines).1
    ensures Run(st, lines + tail).0.delimiter == Run(st, lines).0.delimiter
  {
    var d := Run(st, lines).0.delimiter;
    forall s: Splitter, k | 0 <= k < |tail| && s.delimiter == d
      ensures Step(s, tail[k]).1 == [] && Step(s, tail[k]).0.delimiter == d
    {
      UnterminatedStep(s, tail[k]);
    }
    ScanQuiet(Step, st, lines, tail, d);
  }

  /** One more line: the scan of `lines[..i + 1]` is the scan of `lines[..i]` followed by one step. */
  lemma ScanSnoc(step: (Splitter, string) -> (Splitter, seq<string>), st: Splitter, lines: seq<string>, i: nat)
    requires i < |lines|
    ensures Scan(step, st, lines[..i + 1]).0 == step(Scan(step, st, lines[..i]).0, lines[i]).0
    ensures Scan(step, st, lines[..i + 1]).1 == Scan(step, st, lines[..i]).1 + step(Scan(step, st, lines[..i]).0, lines[i]).1
  {
    assert lines[..i + 1][..i] == lines[..i];
  }

  /** A terminator switch keeps the buffer and emits nothing. */
  lemma SwitchStep(st: Splitter, line: string)
    requires !Ignored(Strip(line)) && IsDelimiterCommand(Strip(line))
    ensures Classify(line).Switch? && Step(st, line) == (st.(delimiter := Classify(line).delimiter), [])
  {
  }

  /** A content line is buffered; when it ends with the terminator the buffer becomes a statement, emitted unless blank. */
  lemma ContentStep(st: Splitter, line: string)
    requires Classify(line).Content?
    ensures var text := Classify(line).text;
      Step(st, line) ==
        if EndsWith(text, st.delimiter) then
          var stmt := Statement(st.buffer + [text], st.delimiter);
          (Initial, if !AllSpace(stmt) then [stmt] else [])
        else
          (st.(buffer := st.buffer + [text]), [])
  {
  }

  /** A bufferable line is read as statement text, unchanged by stripping. */
  lemma BufferableIsContent(line: string)
    requires Bufferable(line)
    ensures Classify(line) == Content(line)
  {
    StripUnchanged(line);
  }

  /** `DELIMITER d`, for a one-word `d`, switches the terminator to `d`. */
  lemma DelimiterLine(d: string)
    requires d != [] && NoSpace(d)
    ensures Classify("DELIMITER " + d) == Switch(d)
  {
    var line := "DELIMITER " + d;
    DelimiterLineRead(d);
    DelimiterWords(d);
    assert LastWord(line) == d;
  }

  /** `DELIMITER d` is trimmed, not skipped, and a terminator switch. */
  lemma DelimiterLineRead(d: string)
    requires d != [] && NoSpace(d)
    ensures Strip("DELIMITER " + d) == "DELIMITER " + d
    ensures !Ignored("DELIMITER " + d) && IsDelimiterCommand("DELIMITER " + d)
  {
    var line := "DELIMITER " + d;
    assert line[0] == 'D';
    assert line[|line| - 1] == d[|d| - 1];
    StripUnchanged(line);
    HasPrefixIsStartsWith(line, "DELIMITER");
    assert line[..9] == "DELIMITER";
  }

  /** The words of `DELIMITER d` are the keyword and `d`. */
  lemma DelimiterWords(d: string)
    requires d != [] && NoSpace(d)
    ensures Words("DELIMITER " + d) == ["DELIMITER", d]
  {
    KeywordHasNoSpace();
    assert "DELIMITER " + d == "DELIMITER" + [' '] + d;
    TwoWords("DELIMITER", d);
  }

  /** Two words separated by one space. */
  lemma TwoWords(a: string, b: string)
    requires a != [] && NoSpace(a) && b != [] && NoSpace(b)
    ensures Words(a + [' '] + b) == [a, b]
  {
    WordsSplit(a, ' ', b);
  }

  lemma KeywordHasNoSpace()
    ensures NoSpace("DELIMITER")
  {
    forall k | 0 <= k < 9 ensures !IsSpace("DELIMITER"[k]) {
      assert "DELIMITER"[k] in "DELIMITER";
    }
  }

  /**
   * Lines that are statement text and do not end with the terminator are
   * all buffered, in order: nothing is emitted and the terminator stays.
   */
  lemma {:induction false} BufferLines(st: Splitter, body: seq<string>)
    requires forall k :: 0 <= k < |body| ==> Bufferable(body[k]) && !EndsWith(body[k], st.delimiter)
    ensures Run(st, body) == (st.(buffer := st.buffer + body), [])
    decreases |body|
  {
    if body == [] {
      assert st.buffer + body == st.buffer;
    } else {
      var n := |body| - 1;
      var prev := body[..n];
      BufferLines(st, prev);
      var before := st.(buffer := st.buffer + prev);
      BufferOne(before, body[n]);
      ScanSnoc(Step, st, body, n);
      LastSplit(st.buffer, body);
    }
  }

  /** `body` is its front and its last line; appending either way gives the same buffer. */
  lemma LastSplit(buffer: seq<string>, body: seq<string>)
    requires body != []
    ensures body[..|body|] == body
    ensures (buffer + body[..|body| - 1]) + [body[|body| - 1]] == buffer + body
  {
    assert body[..|body| - 1] + [body[|body| - 1]] == body;
  }

  /** One line of statement text not ending with the terminator joins the buffer. */
  lemma BufferOne(st: Splitter, line: string)
    requires Bufferable(line) && !EndsWith(line, st.delimiter)
    ensures Step(st, line) == (st.(buffer := st.buffer + [line]), [])
  {
    BufferableIsContent(line);
    ContentStep(st, line);
  }

  /**
   * A block in a custom terminator: `DELIMITER d`, lines that do not end
   * with `d`, then a line that does. The switch keeps the (empty) buffer,
   * the lines are joined by single spaces into one statement cut at `d`,
   * and afterwards the buffer is empty and the terminator is `;` again.
   */
  lemma DelimiterBlock(st: Splitter, d: string, body: seq<string>, last: string)
    requires st.buffer == []
    requires d != [] && NoSpace(d)
    requires forall k :: 0 <= k < |body| ==> Bufferable(body[k]) && !EndsWith(body[k], d)
    requires Bufferable(last) && EndsWith(last, d)
    ensures var stmt := Statement(body + [last], d);
      Run(st, ["DELIMITER " + d] + body + [last]) == (Initial, if !AllSpace(stmt) then [stmt] else [])
  {
    var switch := "DELIMITER " + d;
    var mid := st.(delimiter := d);
    DelimiterLineRead(d);
    SwitchStep(st, switch);
    DelimiterLine(d);
    RunOne(st, switch);
    BufferLines(mid, body);
    var full := mid.(buffer := body);
    assert mid.buffer + body == body;
    assert Run(mid, body) == (full, []);
    RunQuietThen(st, [switch], body, mid);
    assert Run(st, [switch] + body) == (full, []);
    RunQuietThen(st, [switch] + body, [last], full);
    BufferableIsContent(last);
    ContentStep(full, last);
    RunOne(full, last);
  }

  /** Lines that emit nothing can be followed by more: the rest runs from the state they leave. */
  lemma RunQuietThen(st: Splitter, a: seq<string>, b: seq<string>, mid: Splitter)
    requires Run(st, a) == (mid, [])
    ensures Run(st, a + b) == Run(mid, b)
  {
    RunAppend(st, a, b);
    assert [] + Run(mid, b).1 == Run(mid, b).1;
  }

  /** A one-line script is one step. */
  lemma RunOne(st: Splitter, line: string)
    ensures Run(st, [line]) == Step(st, line)
  {
    assert [line][..0] == [];
    assert Scan(Step, st, []) == (st, []);
    assert [] + Step(st, line).1 == Step(st, line).1;
    assert Scan(Step, st, [line]) == Step(st, line);
  }

  /**
   * The terminator goes back to `;` after a custom-terminated statement:
   * `DELIMITER $$`, `x`, `y$$`, `z;` gives `x y` and then `z`.
   */
  lemma DelimiterExample()
    ensures SplitStatements(Join(["DELIMITER $$", "x", "y$$", "z;"], "\n")) == ["x y", "z"]
  {
    var block := ["DELIMITER $$", "x", "y$$"];
    var lines := block + ["z;"];
    assert lines == ["DELIMITER $$", "x", "y$$", "z;"];
    ExampleSingleLines(lines);
    SplitOnJoin(lines, '\n');
    ExampleBlock(block);
    ExampleRun(block, lines);
  }

  lemma ExampleSingleLines(lines: seq<string>)
    requires lines == ["DELIMITER $$", "x", "y$$", "z;"]
    ensures forall i :: 0 <= i < |lines| ==> '\n' !in lines[i]
  {
    forall i | 0 <= i < |lines| ensures '\n' !in lines[i] {
      assert i == 0 || i == 1 || i == 2 || i == 3;
    }
  }

  /** The example script's lines give `x y`, then `z`, and end in the initial state. */
  lemma ExampleRun(block: seq<string>, lines: seq<string>)
    requires Run(Initial, block) == (Initial, ["x y"]) && lines == block + ["z;"]
    ensures Run(Initial, lines) == (Initial, ["x y", "z"])
  {
    ExampleTail();
    RunThen(Initial, block, ["z;"], Initial, ["x y"], Initial, ["z"]);
    Pair("x y", "z");
  }

  lemma Pair(a: string, b: string)
    ensures [a] + [b] == [a, b]
  {
  }

  /** After the block, `z;` is read with the default terminator again. */
  lemma ExampleTail()
    ensures Run(Initial, ["z;"]) == (Initial, ["z"])
  {
    PlainLineStep("z");
    assert "z" + ";" == "z;";
    RunOne(Initial, "z;");
  }

  /** The `$$` block of the example yields `x y` and resets the terminator. */
  lemma ExampleBlock(block: seq<string>)
    requires block == ["DELIMITER $$", "x", "y$$"]
    ensures Run(Initial, block) == (Initial, ["x y"])
  {
    assert block == ["DELIMITER " + "$$"] + ["x"] + ["y$$"] by {
      assert "DELIMITER " + "$$" == "DELIMITER $$";
    }
    assert Run(Initial, ["DELIMITER " + "$$"] + ["x"] + ["y$$"]) == (Initial, ["x y"]) by {
      ExampleBlockLines();
      ExampleJoined();
      DelimiterPair(Initial, "$$", "x", "y$$", "x y");
    }
  }

  /** A `DELIMITER d` block of two lines, as `DelimiterBlock` states it for a non-blank statement. */
  lemma DelimiterPair(st: Splitter, d: string, x: string, y: string, stmt: string)
    requires st.buffer == [] && d != [] && NoSpace(d)
    requires Bufferable(x) && !EndsWith(x, d) && Bufferable(y) && EndsWith(y, d)
    requires stmt == Statement([x] + [y], d) && !AllSpace(stmt)
    ensures Run(st, ["DELIMITER " + d] + [x] + [y]) == (Initial, [stmt])
  {
    DelimiterBlock(st, d, [x], y);
  }

  /** The lines inside the example block are statement text; only the last ends with `$$`. */
  lemma ExampleBlockLines()
    ensures NoSpace("$$")
    ensures Bufferable("x") && !EndsWith("x", "$$")
    ensures Bufferable("y$$") && EndsWith("y$$", "$$")
  {
    assert !HasPrefix("x", "--") && !HasPrefix("x", "DELIMITER");
    assert !HasPrefix("y$$", "--") && !HasPrefix("y$$", "DELIMITER");
    assert "y$$"[1..] == "$$";
  }

  /** Two runs one after the other: the states chain and the statements concatenate. */
  lemma RunThen(st: Splitter, a: seq<string>, b: seq<string>, mid: Splitter, first: seq<string>, end: Splitter, second: seq<string>)
    requires Run(st, a) == (mid, first) && Run(mid, b) == (end, second)
    ensures Run(st, a + b) == (end, first + second)
  {
    RunAppend(st, a, b);
  }

  /** The two lines of the example block make the statement `x y`. */
  lemma ExampleJoined()
    ensures Statement(["x"] + ["y$$"], "$$") == "x y" && !AllSpace("x y")
  {
    assert ["x"] + ["y$$"] == ["x", "y$$"];
    assert "x y"[0] == 'x';
    var joined := Join(["x", "y$$"], " ");
    assert joined == "x y$$";
    assert RStripChars(joined, "$$") == RStripChars(joined[..4], "$$");
    assert joined[..4][..3] == "x y";
    assert RStripChars(joined[..4], "$$") == RStripChars("x y", "$$");
  }

  /**
   * `rstrip` removes every trailing character of the terminator's set, so a
   * statement ending in two semicolons loses both.
   */
  lemma RStripTakesAllCopies()
    ensures Step(Initial, "SELECT 1;;") == (Initial, ["SELECT 1"])
  {
    var line := "SELECT 1;;";
    ExampleIsContent(line);
    ContentStep(Initial, line);
    assert EndsWith(line, ";") by { assert line[9] == ';'; }
    ExampleStatement(line);
    assert !AllSpace("SELECT 1") by { assert "SELECT 1"[0] == 'S'; }
  }

  /** The example line is ordinary statement text. */
  lemma ExampleIsContent(line: string)
    requires line == "SELECT 1;;"
    ensures Classify(line) == Content(line)
  {
    StripUnchanged(line);
    assert line[..2][0] != "--"[0];
    assert line[..9][0] != "DELIMITER"[0];
  }

  /** Both semicolons of the example line are stripped. */
  lemma ExampleStatement(line: string)
    requires line == "SELECT 1;;"
    ensures Statement([line], ";") == "SELECT 1"
  {
    assert Join([line], " ") == line;
    var once := line[..9];
    assert once[|once| - 1] == ';';
    assert RStripChars(line, ";") == RStripChars(once, ";");
    assert once[..8] == "SELECT 1";
    assert RStripChars(once, ";") == RStripChars("SELECT 1", ";");
  }

  /**
   * A statement that can be written on a line of its own followed by `;`:
   * non-empty, trimmed, on one line, not ending in `;` itself, and read
   * neither as a comment nor as a terminator switch.
   */
  predicate PlainStatement(s: string) {
    && s != [] && Trimmed(s) && '\n' !in s && s[|s| - 1] != ';'
    && !HasPrefix(s, "--") && !HasPrefix(s, "DELIMITER")
  }

  /** The script lines that write each statement followed by the default terminator. */
  function TerminatedLines(stmts: seq<string>): (lines: seq<string>)
    ensures |lines| == |stmts|
    ensures forall i :: 0 <= i < |stmts| ==> lines[i] == stmts[i] + ";"
  {
    seq(|stmts|, i requires 0 <= i < |stmts| => stmts[i] + ";")
  }

  /** A plain statement's line is statement text. */
  lemma PlainLineIsContent(s: string)
    requires PlainStatement(s)
    ensures Classify(s + ";") == Content(s + ";")
  {
    var line := s + ";";
    assert line[0] == s[0] && line[|line| - 1] == ';';
    StripUnchanged(line);
    HasPrefixDropLast(s, ';', "--");
    HasPrefixDropLast(s, ';', "DELIMITER");
  }

  /** Stripping the terminator from a plain statement's line gives the statement back. */
  lemma PlainLineStatement(s: string)
    requires PlainStatement(s)
    ensures Statement([s + ";"], ";") == s
  {
    var line := s + ";";
    assert Join([line], " ") == line;
    assert line[..|line| - 1] == s;
    assert RStripChars(line, ";") == RStripChars(s, ";");
  }

  /** Read from the initial state, a plain statement's line emits that statement and resets the state. */
  lemma PlainLineStep(s: string)
    requires PlainStatement(s)
    ensures Step(Initial, s + ";") == (Initial, [s])
  {
    var line := s + ";";
    PlainLineIsContent(s);
    ContentStep(Initial, line);
    assert EndsWith(line, ";") by { assert line[|line| - 1] == ';'; }
    assert [] + [line] == [line];
    PlainLineStatement(s);
    assert !AllSpace(s) by { assert !IsSpace(s[0]); }
  }

  /** Terminated plain statements are emitted one per line, in order, and leave the initial state. */
  lemma {:induction false} PlainStatementsRun(stmts: seq<string>)
    requires forall i :: 0 <= i < |stmts| ==> PlainStatement(stmts[i])
    ensures Run(Initial, TerminatedLines(stmts)) == (Initial, stmts)
    decreases |stmts|
  {
    var lines := TerminatedLines(stmts);
    if stmts != [] {
      var n := |stmts| - 1;
      assert stmts[..n] + [stmts[n]] == stmts;
      assert lines[..n + 1] == lines;
      assert lines[..n] == TerminatedLines(stmts[..n]);
      PlainStatementsRun(stmts[..n]);
      ScanSnoc(Step, Initial, lines, n);
      PlainLineStep(stmts[n]);
    }
  }

  /**
   * Statements written one per line, each followed by `;`, are read back
   * exactly: the splitter inverts this way of writing a script.
   */
  lemma ScriptRoundTrip(stmts: seq<string>)
    requires forall i :: 0 <= i < |stmts| ==> PlainStatement(stmts[i])
    ensures SplitStatements(Join(TerminatedLines(stmts), "\n")) == stmts
  {
    var lines := TerminatedLines(stmts);
    if stmts == [] {
      assert Join(lines, "\n") == "";
      assert SplitOn("", '\n') == [""];
      SkipStep(Initial, "");
      assert [""][..0] == [];
    } else {
      forall i | 0 <= i < |lines| ensures '\n' !in lines[i] {
        assert lines[i] == stmts[i] + ";";
      }
      SplitOnJoin(lines, '\n');
      PlainStatementsRun(stmts);
    }
  }

  /**
   * One pass of the script's loop over `raw`, on its mutable buffer,
   * terminator and statement list: it does what `Step` says.
   */
  method FeedLine(currentStatement: seq<string>, delimiter: string, statements: seq<string>, raw: string)
    returns (currentStatement': seq<string>, delimiter': string, statements': seq<string>)
    ensures var r := Step(Splitter(currentStatement, delimiter), raw);
      Splitter(currentStatement', delimiter') == r.0 && statements' == statements + r.1
  {
    var st := Splitter(currentStatement, delimiter);
    var line := Strip(raw);
    if Ignored(line) {
      SkipStep(st, raw);
      currentStatement', delimiter', statements' := currentStatement, delimiter, statements;
      assert statements + [] == statements;
      return;
    }
    if IsDelimiterCommand(line) {
      SwitchStep(st, raw);
      currentStatement', delimiter', statements' := currentStatement, LastWord(line), statements;
      assert statements + [] == statements;
      return;
    }
    ContentStep(st, raw);
    currentStatement' := currentStatement + [line];
    delimiter' := delimiter;
    statements' := statements;
    if EndsWith(line, delimiter) {
      var stmt := Join(currentStatement', " ");
      stmt := RStripChars(stmt, delimiter);
      assert stmt == Statement(currentStatement', delimiter);
      if !AllSpace(stmt) {
        statements' := statements + [stmt];
      } else {
        assert statements + [] == statements;
      }
      currentStatement' := [];
      delimiter' := ";";
    } else {
      assert statements + [] == statements;
    }
  }

  /**
   * `SplitSqlScript`: the loop of the initialisation script, collecting the
   * statements it would execute.
   */
  method SplitSqlScript(content: string) returns (statements: seq<string>)
    ensures statements == SplitStatements(content)
    ensures forall k :: 0 <= k < |statements| ==> !AllSpace(statements[k])
  {
    var lines := SplitOn(content, '\n');
    statements := [];
    var currentStatement: seq<string> := [];
    var delimiter := ";";
    var i := 0;
    while i < |lines|
      invariant 0 <= i <= |lines|
      invariant Run(Initial, lines[..i]) == (Splitter(currentStatement, delimiter), statements)
    {
      ScanSnoc(Step, Initial, lines, i);
      currentStatement, delimiter, statements := FeedLine(currentStatement, delimiter, statements, lines[i]);
      i := i + 1;
    }
    assert lines[..i] == lines;
  }
}
