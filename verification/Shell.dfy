/**
 The prompt of src/shell.rs: the line editor together with its echo on the terminal.

 The line buffer and the screen are updated by separate calls; the theorems say how far
 they agree.  Message texts are parameters: every statement holds whatever they are.
 */
module Shell {
  import opened Common
  import opened TextLayout
  import opened Terminal
  import opened Commands
  import opened LineEditor

  // "proto-os> "
  const PROMPT: Text := [0x70, 0x72, 0x6F, 0x74, 0x6F, 0x2D, 0x6F, 0x73, 0x3E, 0x20]

  /** The texts a command prints, one element for each `println!`. */
  datatype Messages = Messages(
    help: seq<Text>, sobre: seq<Text>, mem: seq<Text>, breakpoint: Text,
    faultTypes: Text, unknownBefore: Text, unknownAfter: Text)

  /** What a command prints, line by line. */
  function Output(cmd: Command, msgs: Messages): seq<Text> {
    match cmd
    case Help => msgs.help
    case Echo(rest) => [rest]
    case Sobre => msgs.sobre
    case Mem => msgs.mem
    case Falha(Breakpoint) => [msgs.breakpoint]
    case Falha(UnknownFault) => [msgs.faultTypes]
    case Unknown(name) => [msgs.unknownBefore + name + msgs.unknownAfter]
    case _ => []
  }

  ghost function PrintLines(s: Screen, lines: seq<Text>, color: Byte): (r: Screen)
    requires WellFormed(s)
    ensures WellFormed(r)
    ensures BlankTail(s, color) ==> BlankTail(r, color)
    decreases lines
  {
    if lines == [] then s
    else PrintLines(PutString(s, lines[0] + [NEWLINE], color), lines[1..], color)
  }

  /** What a returning command does to the screen. */
  ghost function ExecuteScreen(s: Screen, line: Text, msgs: Messages, color: Byte): (r: Screen)
    requires WellFormed(s)
    ensures WellFormed(r)
    ensures BlankTail(s, color) ==> BlankTail(r, color)
  {
    if Parse(line) == Commands.Clear then ClearedScreen(color)
    else PrintLines(s, Output(Parse(line), msgs), color)
  }

  ghost function FeedScreen(s: Screen, line: Text, b: Byte, msgs: Messages, color: Byte): (r: Screen)
    requires WellFormed(s)
    ensures WellFormed(r)
    ensures BlankTail(s, color) ==> BlankTail(r, color)
  {
    if b == NEWLINE then
      var broken := PutString(s, [NEWLINE], color);
      if Returns(Parse(line)) then
        PutString(ExecuteScreen(broken, line, msgs, color), PROMPT, color)
      else broken
    else if b == BACKSPACE then (if line == [] then s else Backspace(s, color))
    else if Printable(b) && |line| < LINE_CAPACITY then PutString(s, [b], color)
    else s
  }

  /** The editor and the screen it echoes on. */
  datatype Session = Session(editor: Editor, screen: Screen)

  ghost function FeedSession(s: Session, b: Byte, msgs: Messages, color: Byte): (r: Session)
    requires WellFormed(s.screen)
    ensures WellFormed(r.screen)
    ensures r.editor == Feed(s.editor, b)
  {
    if s.editor.halted then s
    else Session(Feed(s.editor, b), FeedScreen(s.screen, s.editor.line, b, msgs, color))
  }

  /** One call of `feed`, with the message texts of that moment. */
  datatype Input = Input(byte: Byte, msgs: Messages)

  ghost function RunSession(s: Session, inputs: seq<Input>, color: Byte): (r: Session)
    requires WellFormed(s.screen)
    ensures WellFormed(r.screen)
    decreases inputs
  {
    if inputs == [] then s
    else RunSession(FeedSession(s, inputs[0].byte, inputs[0].msgs, color), inputs[1..], color)
  }

  /** The prompt as `kernel_main` sets it up: cleared screen, welcome lines, prompt. */
  ghost function BootSession(welcome: seq<Text>, color: Byte): (s: Session)
    ensures WellFormed(s.screen)
  {
    Session(Fresh, PutString(PrintLines(ClearedScreen(color), welcome, color), PROMPT, color))
  }

  // ------------------------------------------------------- columns of commands

  lemma EndsAtColumnZero(s: Screen, text: Text, color: Byte)
    requires WellFormed(s)
    ensures PutString(s, text + [NEWLINE], color).column == 0
  {
    PutStringConcat(s, text, [NEWLINE], color);
    var t := PutString(s, text, color);
    assert PutString(PutByte(t, NEWLINE, color), [NEWLINE][1..], color) == PutByte(t, NEWLINE, color);
  }

  lemma {:induction false} PrintLinesColumn(s: Screen, lines: seq<Text>, color: Byte)
    requires WellFormed(s)
    ensures lines != [] || s.column == 0 ==> PrintLines(s, lines, color).column == 0
    decreases lines
  {
    if lines != [] {
      EndsAtColumnZero(s, lines[0], color);
      PrintLinesColumn(PutString(s, lines[0] + [NEWLINE], color), lines[1..], color);
    }
  }

  /** Every returning command, started at column 0, leaves the cursor at column 0. */
  lemma CommandsEndAtColumnZero(s: Screen, line: Text, msgs: Messages, color: Byte)
    requires WellFormed(s) && s.column == 0
    ensures ExecuteScreen(s, line, msgs, color).column == 0
  {
    PrintLinesColumn(s, Output(Parse(line), msgs), color);
  }

  /** A printed line that fits a row is found on the screen right after the command. */
  lemma PrintedLineIsFound(p: Paper, text: Text, color: Byte)
    requires IsPaper(p) && Last(p) == []
    requires text != [] && AllPrintable(text) && |text| <= WIDTH
    ensures Contains(PrintLines(Window(p, color), [text], color), text)
  {
    assert Sanitise(text + [NEWLINE]) == text + [NEWLINE];
    TypingInRow(p, text);
    PaperTypeConcat(p, text, [NEWLINE]);
    assert [NEWLINE][1..] == [];
    var q := PaperTypeAll(p, text);
    assert PaperTypeAll(q, [NEWLINE]) == q + [[]];
    WrittenTextIsFound(p, text, [NEWLINE], color);
    var shown := PutString(Window(p, color), text + [NEWLINE], color);
    assert PrintLines(Window(p, color), [text], color) == PrintLines(shown, [text][1..], color) == shown;
  }

  /** `echo` shows what was typed after it; an unknown name is shown inside the error line. */
  lemma CommandsShowTheirText(p: Paper, text: Text, name: Text, msgs: Messages, color: Byte)
    requires IsPaper(p) && Last(p) == []
    ensures text != [] && AllPrintable(text) && |text| <= WIDTH && !IsSpace(Last(text)) ==>
              Contains(ExecuteScreen(Window(p, color), ECHO + [SPACE] + text, msgs, color), text)
    ensures var error := msgs.unknownBefore + name + msgs.unknownAfter;
            forall line :: Parse(line) == Unknown(name) && error != [] && AllPrintable(error) && |error| <= WIDTH ==>
              Contains(ExecuteScreen(Window(p, color), line, msgs, color), error)
  {
    if text != [] && AllPrintable(text) && |text| <= WIDTH && !IsSpace(Last(text)) {
      EchoRepeats(text);
      PrintedLineIsFound(p, text, color);
    }
    var error := msgs.unknownBefore + name + msgs.unknownAfter;
    if error != [] && AllPrintable(error) && |error| <= WIDTH {
      PrintedLineIsFound(p, error, color);
    }
  }

  // ---------------------------------------------------- screen and line agree

  /** Left of the cursor stands the end of PROMPT + line; right of it the row is blank. */
  ghost predicate ShowsSuffix(s: Screen, line: Text, color: Byte)
    requires WellFormed(s)
  {
    var text := PROMPT + line;
    && BlankTail(s, color)
    && s.column <= |text|
    && forall c :: 0 <= c < s.column ==> Bottom(s)[c] == ScreenChar(text[|text| - s.column + c], color)
  }

  /** The bottom row is PROMPT + line and nothing else. */
  ghost predicate ShowsWhole(s: Screen, line: Text, color: Byte)
    requires WellFormed(s)
  {
    |PROMPT + line| <= WIDTH && Bottom(s) == Paint(PROMPT + line, color)
  }

  lemma PutPrintable(s: Screen, b: Byte, color: Byte)
    requires WellFormed(s) && Printable(b)
    ensures PutString(s, [b], color) == PutByte(s, b, color)
  {
    assert [b][1..] == [];
  }

  /** Printable text that fits the row goes cell by cell to the right of the cursor. */
  lemma {:induction false} PutInRowOnly(s: Screen, text: Text, color: Byte)
    requires WellFormed(s) && AllPrintable(text) && s.column + |text| <= WIDTH
    ensures var r := PutString(s, text, color);
            && r.column == s.column + |text|
            && (forall c :: 0 <= c < s.column ==> Bottom(r)[c] == Bottom(s)[c])
            && (forall c :: 0 <= c < |text| ==> Bottom(r)[s.column + c] == ScreenChar(text[c], color))
    decreases text
  {
    if text != [] {
      var t := PutByte(s, text[0], color);
      PutInRowOnly(t, text[1..], color);
      var r := PutString(s, text, color);
      forall c | 0 <= c < |text|
        ensures Bottom(r)[s.column + c] == ScreenChar(text[c], color)
      {
        if c > 0 {
          assert Bottom(r)[t.column + (c - 1)] == ScreenChar(text[1..][c - 1], color);
        }
      }
    }
  }

  lemma TextAtColumnZero(s: Screen, text: Text, color: Byte)
    requires WellFormed(s) && BlankTail(s, color) && s.column == 0
    requires AllPrintable(text) && |text| <= WIDTH
    ensures var r := PutString(s, text, color);
            && r.column == |text|
            && BlankTail(r, color)
            && forall c :: 0 <= c < r.column ==> Bottom(r)[c] == ScreenChar(text[c], color)
  {
    PutInRowOnly(s, text, color);
    var r := PutString(s, text, color);
    forall c | 0 <= c < r.column
      ensures Bottom(r)[c] == ScreenChar(text[c], color)
    {
      assert Bottom(r)[s.column + c] == ScreenChar(text[c], color);
    }
  }

  lemma PromptAtColumnZero(s: Screen, color: Byte)
    requires WellFormed(s) && BlankTail(s, color) && s.column == 0
    ensures var r := PutString(s, PROMPT, color);
            r.column == |PROMPT| && ShowsSuffix(r, [], color)
  {
    TextAtColumnZero(s, PROMPT, color);
    assert PROMPT + [] == PROMPT;
  }

  /** `peak` is the greatest length the line has had since the prompt. */
  ghost predicate Coupled(s: Session, peak: nat, color: Byte)
    requires WellFormed(s.screen)
  {
    var line, column := s.editor.line, s.screen.column;
    && ShowsSuffix(s.screen, line, color)
    && |line| <= peak
    && (peak <= WIDTH - |PROMPT| ==> column == |PROMPT| + |line|)
    && (peak > WIDTH - |PROMPT| ==> column <= |line|)
  }

  ghost function NextPeak(peak: nat, line: Text, b: Byte): nat {
    if b == NEWLINE then 0
    else if |Edit(line, b)| > peak then |Edit(line, b)|
    else peak
  }

  lemma PushKeepsCoupling(s: Session, b: Byte, msgs: Messages, peak: nat, color: Byte)
    requires WellFormed(s.screen) && Coupled(s, peak, color)
    requires !s.editor.halted && Printable(b) && |s.editor.line| < LINE_CAPACITY
    ensures Coupled(FeedSession(s, b, msgs, color), NextPeak(peak, s.editor.line, b), color)
  {
    PutPrintable(s.screen, b, color);
    var line := s.editor.line;
    assert PROMPT + (line + [b]) == (PROMPT + line) + [b];
  }

  lemma PopKeepsCoupling(s: Session, msgs: Messages, peak: nat, color: Byte)
    requires WellFormed(s.screen) && Coupled(s, peak, color)
    requires !s.editor.halted
    ensures Coupled(FeedSession(s, BACKSPACE, msgs, color), NextPeak(peak, s.editor.line, BACKSPACE), color)
  {
    var line := s.editor.line;
    if line != [] {
      assert PROMPT + Front(line) == Front(PROMPT + line);
    }
  }

  lemma EnterKeepsCoupling(s: Session, msgs: Messages, peak: nat, color: Byte)
    requires WellFormed(s.screen) && Coupled(s, peak, color)
    requires !s.editor.halted && Returns(Parse(s.editor.line))
    ensures Coupled(FeedSession(s, NEWLINE, msgs, color), 0, color)
  {
    EndsAtColumnZero(s.screen, [], color);
    assert [] + [NEWLINE] == [NEWLINE];
    var broken := PutString(s.screen, [NEWLINE], color);
    CommandsEndAtColumnZero(broken, s.editor.line, msgs, color);
    PromptAtColumnZero(ExecuteScreen(broken, s.editor.line, msgs, color), color);
  }

  lemma FeedKeepsCoupling(s: Session, b: Byte, msgs: Messages, peak: nat, color: Byte)
    requires WellFormed(s.screen) && Coupled(s, peak, color) && !s.editor.halted
    ensures var r := FeedSession(s, b, msgs, color);
            r.editor.halted || Coupled(r, NextPeak(peak, s.editor.line, b), color)
  {
    if b == NEWLINE {
      if Returns(Parse(s.editor.line)) {
        EnterKeepsCoupling(s, msgs, peak, color);
      }
    } else if b == BACKSPACE {
      PopKeepsCoupling(s, msgs, peak, color);
    } else if Printable(b) && |s.editor.line| < LINE_CAPACITY {
      PushKeepsCoupling(s, b, msgs, peak, color);
    }
  }

  /** The greatest length of the line since the last prompt, over a run of inputs. */
  ghost function PeakAfter(line: Text, peak: nat, inputs: seq<Input>): nat
    decreases inputs
  {
    if inputs == [] then peak
    else
      var b := inputs[0].byte;
      PeakAfter(if b == NEWLINE then [] else Edit(line, b), NextPeak(peak, line, b), inputs[1..])
  }

  lemma {:induction false} RunKeepsCoupling(s: Session, inputs: seq<Input>, peak: nat, color: Byte)
    requires WellFormed(s.screen) && Coupled(s, peak, color) && !s.editor.halted
    ensures var r := RunSession(s, inputs, color);
            r.editor.halted || Coupled(r, PeakAfter(s.editor.line, peak, inputs), color)
    decreases inputs
  {
    if inputs != [] {
      var t := FeedSession(s, inputs[0].byte, inputs[0].msgs, color);
      FeedKeepsCoupling(s, inputs[0].byte, inputs[0].msgs, peak, color);
      if t.editor.halted {
        HaltedStays(t, inputs[1..], color);
      } else {
        RunKeepsCoupling(t, inputs[1..], NextPeak(peak, s.editor.line, inputs[0].byte), color);
      }
    }
  }

  /** After a command that does not return nothing moves any more. */
  lemma {:induction false} HaltedStays(s: Session, inputs: seq<Input>, color: Byte)
    requires WellFormed(s.screen) && s.editor.halted
    ensures RunSession(s, inputs, color) == s
    decreases inputs
  {
    if inputs != [] {
      HaltedStays(s, inputs[1..], color);
    }
  }

  /** Runs compose: what one drain pass leaves is where the next one starts. */
  lemma {:induction false} RunsCompose(s: Session, a: seq<Input>, b: seq<Input>, color: Byte)
    requires WellFormed(s.screen)
    ensures RunSession(s, a + b, color) == RunSession(RunSession(s, a, color), b, color)
    decreases a
  {
    if a == [] {
      assert a + b == b;
    } else {
      assert (a + b)[1..] == a[1..] + b;
      RunsCompose(FeedSession(s, a[0].byte, a[0].msgs, color), a[1..], b, color);
    }
  }

  /** A text whose tail beyond `d` repeats it and whose last `d` bytes are spaces is all spaces. */
  lemma {:induction false} PeriodicSpaces(text: Text, d: nat, k: nat)
    requires 0 < d && k < |text|
    requires forall c :: 0 <= c < |text| - d ==> text[c] == text[c + d]
    requires forall c :: 0 <= c < |text| && |text| - d <= c ==> text[c] == SPACE
    ensures text[k] == SPACE
    decreases |text| - k
  {
    if k < |text| - d {
      PeriodicSpaces(text, d, k + d);
    }
  }

  /** The row shows the whole of PROMPT + line if and only if the cursor stands right after it. */
  lemma WholeIffColumn(s: Screen, line: Text, color: Byte)
    requires WellFormed(s) && ShowsSuffix(s, line, color)
    ensures ShowsWhole(s, line, color) <==> s.column == |PROMPT| + |line|
  {
    var text := PROMPT + line;
    var d := |text| - s.column;
    assert text[0] == PROMPT[0];
    if d == 0 {
      assert Bottom(s) == Paint(text, color);
    } else if ShowsWhole(s, line, color) {
      forall c | 0 <= c < |text| - d
        ensures text[c] == text[c + d]
      {
        assert Bottom(s)[c] == Paint(text, color)[c];
      }
      forall c | 0 <= c < |text| && |text| - d <= c
        ensures text[c] == SPACE
      {
        assert Bottom(s)[c] == Paint(text, color)[c];
      }
      PeriodicSpaces(text, d, 0);
      assert false;
    }
  }

  lemma BootIsCoupled(welcome: seq<Text>, color: Byte)
    ensures Coupled(BootSession(welcome, color), 0, color)
  {
    PrintLinesColumn(ClearedScreen(color), welcome, color);
    PromptAtColumnZero(PrintLines(ClearedScreen(color), welcome, color), color);
  }

  /**
   In every run of the prompt from boot, after each `feed` that returns: the bottom row
   left of the cursor is a suffix of PROMPT + line, the rest of it is blank, and the row
   shows the whole of PROMPT + line if and only if the line has never been longer than
   70 bytes since the prompt was printed.
   */
  lemma PromptAgreesWithLine(welcome: seq<Text>, inputs: seq<Input>, color: Byte)
    ensures var s := RunSession(BootSession(welcome, color), inputs, color);
            !s.editor.halted ==>
              && ShowsSuffix(s.screen, s.editor.line, color)
              && (ShowsWhole(s.screen, s.editor.line, color) <==> PeakAfter([], 0, inputs) <= WIDTH - |PROMPT|)
  {
    var boot := BootSession(welcome, color);
    BootIsCoupled(welcome, color);
    RunKeepsCoupling(boot, inputs, 0, color);
    var s := RunSession(boot, inputs, color);
    if !s.editor.halted {
      WholeIffColumn(s.screen, s.editor.line, color);
    }
  }

  // ------------------------------------------- where line and screen part ways

  /**
   Backspace removes a byte from the line and nothing from the screen exactly when the
   line is not empty and the cursor stands at column 0.
   */
  lemma PopWithoutEcho(s: Session, msgs: Messages, color: Byte)
    requires WellFormed(s.screen) && !s.editor.halted
    ensures var r := FeedSession(s, BACKSPACE, msgs, color);
            && (r.editor != s.editor <==> s.editor.line != [])
            && (r.screen != s.screen <==> s.editor.line != [] && s.screen.column != 0)
  {
  }

  /** `n` times the same byte. */
  function Repeated(b: Byte, msgs: Messages, n: nat): seq<Input> {
    seq(n, _ => Input(b, msgs))
  }

  lemma {:induction false} PushesFillTheRow(s: Session, b: Byte, msgs: Messages, n: nat, color: Byte)
    requires WellFormed(s.screen) && !s.editor.halted && Printable(b)
    requires |s.editor.line| + n <= LINE_CAPACITY && s.screen.column + n <= WIDTH
    ensures var r := RunSession(s, Repeated(b, msgs, n), color);
            && !r.editor.halted
            && |r.editor.line| == |s.editor.line| + n
            && r.screen.column == s.screen.column + n
    decreases n
  {
    if n > 0 {
      PutPrintable(s.screen, b, color);
      assert Repeated(b, msgs, n)[1..] == Repeated(b, msgs, n - 1);
      PushesFillTheRow(FeedSession(s, b, msgs, color), b, msgs, n - 1, color);
    }
  }

  /** Such a state is reached: 71 printable bytes and one backspace leave 70 bytes and column 0. */
  lemma LineAndScreenPart(welcome: seq<Text>, b: Byte, msgs: Messages, color: Byte) returns (inputs: seq<Input>)
    requires Printable(b)
    ensures var s := RunSession(BootSession(welcome, color), inputs, color);
            !s.editor.halted && |s.editor.line| == 70 && s.screen.column == 0
  {
    var boot := BootSession(welcome, color);
    BootIsCoupled(welcome, color);
    PushesFillTheRow(boot, b, msgs, 70, color);
    var full := RunSession(boot, Repeated(b, msgs, 70), color);
    var last := [Input(b, msgs), Input(BACKSPACE, msgs)];
    inputs := Repeated(b, msgs, 70) + last;
    RunsCompose(boot, Repeated(b, msgs, 70), last, color);
    PutPrintable(full.screen, b, color);
    var wrapped := FeedSession(full, b, msgs, color);
    assert last[1..] == [Input(BACKSPACE, msgs)] && last[1..][1..] == [];
    assert RunSession(wrapped, last[1..], color) == FeedSession(wrapped, BACKSPACE, msgs, color);
  }

  function BytesOf(inputs: seq<Input>): seq<Byte> {
    seq(|inputs|, i requires 0 <= i < |inputs| => inputs[i].byte)
  }

  /** The lines executed do not depend on the screen or on any message text. */
  lemma {:induction false} EchoDoesNotDecide(s: Session, inputs: seq<Input>, color: Byte)
    requires WellFormed(s.screen)
    ensures RunSession(s, inputs, color).editor == FeedAll(s.editor, BytesOf(inputs))
    decreases inputs
  {
    if inputs != [] {
      EchoDoesNotDecide(FeedSession(s, inputs[0].byte, inputs[0].msgs, color), inputs[1..], color);
      assert BytesOf(inputs)[1..] == BytesOf(inputs[1..]);
    }
  }

  // --------------------------------------------------------------- in place

  /** The statics `LINE` and `WRITER`, and the log of lines handed to `execute`. */
  class Prompt {
    const line: LineBuffer
    const writer: Writer
    ghost var executed: seq<Text>
    ghost var halted: bool

    ghost predicate Valid()
      reads this, line, line.bytes, writer, writer.cells
    {
      && line.Valid() && writer.Valid()
      && AllPrintable(line.Contents())
    }

    ghost function State(): Session
      requires Valid()
      reads this, line, line.bytes, writer, writer.cells
    {
      Session(Editor(line.Contents(), executed, halted), writer.screen)
    }

    constructor (writer: Writer)
      requires writer.Valid()
      ensures Valid() && this.writer == writer && fresh(line) && fresh(line.bytes)
      ensures State() == Session(Fresh, old(writer.screen))
    {
      line := new LineBuffer();
      this.writer := writer;
      executed, halted := [], false;
    }

    method PrintAll(lines: seq<Text>)
      requires Valid()
      modifies writer, writer.cells
      ensures Valid() && writer.screen == PrintLines(old(writer.screen), lines, writer.color)
    {
      for i := 0 to |lines|
        invariant Valid()
        invariant PrintLines(writer.screen, lines[i..], writer.color)
               == PrintLines(old(writer.screen), lines, writer.color)
      {
        assert lines[i..][1..] == lines[i + 1..];
        writer.WriteString(lines[i] + [NEWLINE]);
      }
    }

    /** `kernel_main` up to the idle loop: clear, welcome, prompt. */
    method Boot(welcome: seq<Text>)
      requires Valid() && line.Contents() == [] && executed == [] && !halted
      modifies writer, writer.cells
      ensures Valid() && State() == BootSession(welcome, writer.color)
    {
      writer.ClearScreen();
      PrintAll(welcome);
      writer.WriteString(PROMPT);
    }

    /** Returns false where the source function does not return. */
    method Execute(typed: Text, msgs: Messages) returns (returned: bool)
      requires Valid()
      modifies writer, writer.cells
      ensures Valid() && returned == Returns(Parse(typed))
      ensures writer.screen == if returned then ExecuteScreen(old(writer.screen), typed, msgs, writer.color)
                               else old(writer.screen)
    {
      var cmd := Parse(typed);
      if !Returns(cmd) {
        return false;
      }
      if cmd == Commands.Clear {
        writer.ClearScreen();
      } else {
        PrintAll(Output(cmd, msgs));
      }
      return true;
    }

    method Feed(byte: Byte, msgs: Messages) returns (returned: bool)
      requires Valid() && !halted
      modifies this, line, line.bytes, writer, writer.cells
      ensures Valid() && returned == !halted
      ensures State() == FeedSession(old(State()), byte, msgs, writer.color)
    {
      returned := true;
      if byte == NEWLINE {
        writer.WriteString([NEWLINE]);
        var typed := line.AsStr();
        executed := executed + [typed];
        returned := Execute(typed, msgs);
        if returned {
          line.Clear();
          writer.WriteString(PROMPT);
        } else {
          halted := true;
        }
      } else if byte == BACKSPACE {
        var removed := line.Pop();
        if removed {
          writer.EraseLast();
        }
      } else if Printable(byte) {
        var accepted := line.Push(byte);
        if accepted {
          writer.WriteString([byte]);
        }
      }
    }
  }
}
