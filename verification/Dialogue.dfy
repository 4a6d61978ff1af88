/**
 What a typed line leaves behind, told from its text: the reply to every command name
 of src/shell.rs, and the rows that Enter adds to the paper roll.
 */
module Dialogue {
  import opened Common
  import opened TextLayout
  import opened Terminal
  import opened Commands
  import opened LineEditor
  import opened Shell

  // ------------------------------------------------------- words of a typed line

  /** What trimming takes off a line is white space, and what it keeps starts and ends without any. */
  lemma TrimIsMiddle(line: Text) returns (w1: Text, w2: Text)
    ensures line == w1 + Trim(line) + w2 && AllSpaces(w1) && AllSpaces(w2)
    ensures Trim(line) != [] ==> !IsSpace(Trim(line)[0]) && !IsSpace(Last(Trim(line)))
  {
    var t := TrimStart(line);
    w1 := StartIsSuffix(line);
    w2 := EndIsPrefix(t);
    assert line == w1 + (Trim(line) + w2);
    if Trim(line) != [] {
      assert t[0] == Trim(line)[0];
    }
  }

  lemma {:induction false} StartIsSuffix(s: Text) returns (w: Text)
    ensures s == w + TrimStart(s) && AllSpaces(w)
    ensures TrimStart(s) != [] ==> !IsSpace(TrimStart(s)[0])
  {
    w := [];
    if s != [] && IsSpace(s[0]) {
      var v := StartIsSuffix(s[1..]);
      w := [s[0]] + v;
      assert s == [s[0]] + s[1..];
    }
  }

  lemma {:induction false} EndIsPrefix(s: Text) returns (w: Text)
    ensures s == TrimEnd(s) + w && AllSpaces(w)
    ensures TrimEnd(s) != [] ==> !IsSpace(Last(TrimEnd(s)))
  {
    w := [];
    if s != [] && IsSpace(Last(s)) {
      var v := EndIsPrefix(Front(s));
      w := v + [Last(s)];
      assert s == Front(s) + [Last(s)];
    }
  }

  /** The first word of a line is `word`, and `rest` follows its space. */
  ghost predicate Reads(line: Text, word: Text, rest: Text) {
    Trim(line) != [] && NameOf(Trim(line)) == word && RestOf(Trim(line)) == rest
  }

  /** One word without white space. */
  ghost predicate IsWord(word: Text) {
    word != [] && forall i :: 0 <= i < |word| ==> !IsSpace(word[i])
  }

  lemma WordIsTrimmed(word: Text, s: Text)
    requires IsWord(word)
    ensures Trim(word + s) == word + TrimEnd(s) && TrimEnd([]) == [] && SPACE !in word
  {
    assert (word + s)[0] == word[0];
    TrimEndKeepsPrefix(word, s);
  }

  /** Between spaces, a word alone reads as that word; a space and a text after it read as its rest, less the end spaces. */
  lemma WordsAreRead(w1: Text, word: Text, text: Text, w2: Text)
    requires AllSpaces(w1) && AllSpaces(w2) && IsWord(word)
    ensures Reads(w1 + word + w2, word, [])
    ensures Reads(w1 + (word + [SPACE] + text) + w2, word, TrimEnd(text))
  {
    WordIsTrimmed(word, [SPACE] + text);
    WordIsTrimmed(word, []);
    hide Trim, TrimStart, TrimEnd, NameOf, RestOf, FirstSpace, IsSpace, AllSpaces;
    TrimDropsOuterSpaces(w1, word, w2);
    assert word + [] == word;
    FirstSpaceAfter(word, []);
    var line := word + [SPACE] + text;
    TrimDropsOuterSpaces(w1, line, w2);
    assert line == word + ([SPACE] + text);
    TrimEndOfSpaced(text);
    FirstSpaceAfter(word, TrimEnd([SPACE] + text));
  }

  // --------------------------------------------------------- replies, by name

  /** A command prints lines, or wipes the screen, or does not come back. */
  datatype Reply = Says(lines: seq<Text>) | Wipes | Dies

  function ReplyTo(line: Text, msgs: Messages): Reply {
    var cmd := Parse(line);
    if !Returns(cmd) then Dies
    else if cmd == Commands.Clear then Wipes
    else Says(Output(cmd, msgs))
  }

  /** A blank line says nothing, and `clear` alone wipes the screen. */
  lemma BlankAndClear(line: Text, rest: Text, msgs: Messages)
    ensures AllSpaces(line) ==> ReplyTo(line, msgs) == Says([])
    ensures Reads(line, Ascii("clear"), rest) ==> ReplyTo(line, msgs) == Wipes
    ensures ReplyTo(line, msgs) == Wipes ==> Trim(line) != [] && NameOf(Trim(line)) == Ascii("clear")
  {
    CommandsSpelt();
    EmptyWhenTrimmed(line);
  }

  /** `help`, `sobre` and `mem` print their own texts whatever follows the name; `panic` never returns. */
  lemma FixedReplies(line: Text, rest: Text, msgs: Messages)
    ensures Reads(line, Ascii("help"), rest) ==> ReplyTo(line, msgs) == Says(msgs.help)
    ensures Reads(line, Ascii("sobre"), rest) ==> ReplyTo(line, msgs) == Says(msgs.sobre)
    ensures Reads(line, Ascii("mem"), rest) ==> ReplyTo(line, msgs) == Says(msgs.mem)
    ensures Reads(line, Ascii("panic"), rest) ==> ReplyTo(line, msgs) == Dies
  {
    CommandsSpelt();
  }

  /** A name outside the seven that `help` lists. */
  predicate NotACommand(name: Text) {
    && name != Ascii("help") && name != Ascii("clear") && name != Ascii("echo") && name != Ascii("sobre")
    && name != Ascii("panic") && name != Ascii("mem") && name != Ascii("falha")
  }

  /** `echo` prints what follows its space; a name outside the seven is printed inside the error line. */
  lemma RepeatingReplies(line: Text, name: Text, rest: Text, msgs: Messages)
    ensures Reads(line, Ascii("echo"), rest) ==> ReplyTo(line, msgs) == Says([rest])
    ensures Reads(line, name, rest) && NotACommand(name) ==>
              ReplyTo(line, msgs) == Says([msgs.unknownBefore + name + msgs.unknownAfter])
  {
    CommandsSpelt();
  }

  /** `falha` does not return for four kinds of fault; a breakpoint returns, and any other kind lists the types. */
  lemma FaultReplies(line: Text, rest: Text, msgs: Messages)
    requires Reads(line, Ascii("falha"), rest)
    ensures var kind := Trim(rest);
            ReplyTo(line, msgs)
            == if kind == Ascii("pagina") || kind == Ascii("pilha")
                  || kind == Ascii("opcode") || kind == Ascii("protecao") then Dies
               else if kind == Ascii("breakpoint") then Says([msgs.breakpoint])
               else Says([msgs.faultTypes])
  {
    CommandsSpelt();
    FaultsSpelt();
    var kind := Trim(rest);
    assert Parse(line) == Falha(ParseFault(rest));
  }

  // ------------------------------------------------------- Enter on the roll

  /** Lines as one text, each ended by a newline. */
  function LinesText(lines: seq<Text>): Text {
    if lines == [] then [] else lines[0] + [NEWLINE] + LinesText(lines[1..])
  }

  lemma {:induction false} PrintLinesIsText(s: Screen, lines: seq<Text>, color: Byte)
    requires WellFormed(s)
    ensures PrintLines(s, lines, color) == PutString(s, LinesText(lines), color)
    decreases lines
  {
    if lines != [] {
      var first := lines[0] + [NEWLINE];
      PrintLinesIsText(PutString(s, first, color), lines[1..], color);
      PutStringConcat(s, first, LinesText(lines[1..]), color);
    }
  }

  /** The roll after a line break, the reply and the prompt. */
  function RollAfter(p: Paper, lines: seq<Text>): (r: Paper)
    requires p != []
    ensures r != []
  {
    PaperTypeAll(p, Sanitise([NEWLINE] + LinesText(lines) + PROMPT))
  }

  lemma RollAfterShown(p: Paper, lines: seq<Text>, color: Byte)
    requires IsPaper(p)
    ensures IsPaper(RollAfter(p, lines))
    ensures Window(RollAfter(p, lines), color)
         == PutString(PrintLines(PutString(Window(p, color), [NEWLINE], color), lines, color), PROMPT, color)
  {
    var w := Window(p, color);
    var text := LinesText(lines);
    PutStringRefines(p, [NEWLINE] + text + PROMPT, color);
    PutStringConcat(w, [NEWLINE] + text, PROMPT, color);
    PutStringConcat(w, [NEWLINE], text, color);
    PrintLinesIsText(PutString(w, [NEWLINE], color), lines, color);
  }

  lemma NewLineShown(p: Paper, color: Byte)
    requires IsPaper(p)
    ensures IsPaper(p + [[]]) && PutString(Window(p, color), [NEWLINE], color) == Window(p + [[]], color)
  {
    WindowNewLine(p, color);
    assert [NEWLINE][1..] == [];
  }

  /** The prompt spelt out. */
  lemma PromptSpelt()
    ensures PROMPT == Ascii("proto-os> ")
    ensures Sanitise(PROMPT) == PROMPT
  {
  }

  lemma SanitiseConcat(s: seq<Byte>, t: seq<Byte>)
    ensures Sanitise(s + t) == Sanitise(s) + Sanitise(t)
  {
  }

  lemma NewLineOnRoll(p: Paper)
    requires p != []
    ensures PaperTypeAll(p, [NEWLINE]) == p + [[]]
  {
    assert [NEWLINE][1..] == [];
  }

  /** Text that fits becomes the empty row it is typed on. */
  lemma TextOnEmptyRow(p: Paper, s: seq<Byte>)
    requires p != [] && Last(p) == [] && NEWLINE !in s && |s| <= WIDTH
    ensures PaperTypeAll(p, s) == Front(p) + [s]
  {
    TypingInRow(p, s);
    assert [] + s == s;
  }

  lemma PromptOnEmptyRow(p: Paper)
    requires p != [] && Last(p) == []
    ensures PaperTypeAll(p, Sanitise(PROMPT)) == Front(p) + [PROMPT]
  {
    hide PaperTypeAll, Sanitise;
    PromptSpelt();
    TextOnEmptyRow(p, PROMPT);
  }

  lemma PromptOnFreshRoll(color: Byte)
    ensures IsPaper([PROMPT]) && PutString(ClearedScreen(color), PROMPT, color) == Window([PROMPT], color)
  {
    hide PaperTypeAll, Sanitise, PutString;
    FreshWindow(color);
    PutStringRefines(FreshPaper, PROMPT, color);
    PromptOnEmptyRow(FreshPaper);
    assert Front(FreshPaper) + [PROMPT] == [PROMPT];
  }

  /**
   Enter, on a screen that shows the roll `p`.  First the line is broken.  Then a command
   that comes back adds its lines, each ended by a newline, and the prompt follows on a
   row of its own; `clear` leaves the prompt alone on a blank screen; a command that does
   not come back adds nothing and keeps the line.
   */
  lemma EnterOnRoll(p: Paper, e: Editor, msgs: Messages, color: Byte)
    requires IsPaper(p) && !e.halted
    ensures forall lines :: IsPaper(RollAfter(p, lines))
    ensures IsPaper(p + [[]]) && IsPaper([PROMPT])
    ensures var executed := e.executed + [e.line];
            FeedSession(Session(e, Window(p, color)), NEWLINE, msgs, color)
            == match ReplyTo(e.line, msgs)
               case Says(lines) => Session(Editor([], executed, false), Window(RollAfter(p, lines), color))
               case Wipes => Session(Editor([], executed, false), Window([PROMPT], color))
               case Dies => Session(Editor(e.line, executed, true), Window(p + [[]], color))
  {
    forall lines: seq<Text>
      ensures IsPaper(RollAfter(p, lines))
    {
      RollAfterShown(p, lines, color);
    }
    NewLineShown(p, color);
    PromptOnFreshRoll(color);
    match ReplyTo(e.line, msgs) {
      case Says(lines) => RollAfterShown(p, lines, color);
      case Wipes =>
      case Dies =>
    }
  }

  /** Every line is printable and fits one row. */
  ghost predicate LinesFit(lines: seq<Text>) {
    forall i :: 0 <= i < |lines| ==> AllPrintable(lines[i]) && |lines[i]| <= WIDTH
  }

  lemma LineIsRow(p: Paper, line: Text)
    requires p != [] && Last(p) == [] && AllPrintable(line) && |line| <= WIDTH
    ensures PaperTypeAll(p, line + [NEWLINE]) == Front(p) + [line] + [[]]
    ensures Sanitise(line + [NEWLINE]) == line + [NEWLINE]
  {
    PaperTypeConcat(p, line, [NEWLINE]);
    TextOnEmptyRow(p, line);
    NewLineOnRoll(Front(p) + [line]);
  }

  lemma NoText(p: Paper)
    requires p != []
    ensures PaperTypeAll(p, []) == p && Sanitise([]) == []
  {
  }

  lemma {:induction false} LinesAreRows(p: Paper, lines: seq<Text>)
    requires p != [] && Last(p) == [] && LinesFit(lines)
    ensures PaperTypeAll(p, LinesText(lines)) == Front(p) + lines + [[]]
    ensures Sanitise(LinesText(lines)) == LinesText(lines)
    decreases lines
  {
    hide PaperTypeAll, Sanitise;
    if lines == [] {
      NoText(p);
      assert p == Front(p) + lines + [[]];
    } else {
      var first, rest := lines[0] + [NEWLINE], lines[1..];
      var q := Front(p) + [lines[0]] + [[]];
      LineIsRow(p, lines[0]);
      PaperTypeConcat(p, first, LinesText(rest));
      SanitiseConcat(first, LinesText(rest));
      LinesAreRows(q, rest);
      assert Front(q) + rest == Front(p) + lines;
    }
  }

  lemma NewLineIsPlain()
    ensures Sanitise([NEWLINE]) == [NEWLINE]
  {
  }

  /** A reply whose lines fit appears as those very rows under the typed line, with the prompt below them. */
  lemma ReplyIsRows(p: Paper, lines: seq<Text>)
    requires p != [] && LinesFit(lines)
    ensures RollAfter(p, lines) == p + lines + [PROMPT]
  {
    hide PaperTypeAll, Sanitise;
    var q, text := p + [[]], LinesText(lines);
    LinesAreRows(q, lines);
    NewLineOnRoll(p);
    SanitiseConcat([NEWLINE], text);
    SanitiseConcat([NEWLINE] + text, PROMPT);
    NewLineIsPlain();
    PaperTypeConcat(p, [NEWLINE] + text, Sanitise(PROMPT));
    PaperTypeConcat(p, [NEWLINE], text);
    assert Front(q) == p;
    var r := p + lines + [[]];
    PromptOnEmptyRow(r);
    assert Front(r) == p + lines;
  }

  /** Instances, with every line short enough for its row: echo, an unknown name, and an output of several lines. */
  lemma EnterShowsRows(p: Paper, e: Editor, rest: Text, name: Text, msgs: Messages, color: Byte)
    requires IsPaper(p) && !e.halted
    ensures var shown := FeedSession(Session(e, Window(p, color)), NEWLINE, msgs, color).screen;
            && (Reads(e.line, Ascii("echo"), rest) && LinesFit([rest]) ==>
                  IsPaper(p + [rest] + [PROMPT]) && shown == Window(p + [rest] + [PROMPT], color))
            && (Reads(e.line, Ascii("help"), rest) && LinesFit(msgs.help) ==>
                  IsPaper(p + msgs.help + [PROMPT]) && shown == Window(p + msgs.help + [PROMPT], color))
    ensures var shown := FeedSession(Session(e, Window(p, color)), NEWLINE, msgs, color).screen;
            var error := msgs.unknownBefore + name + msgs.unknownAfter;
            && (Reads(e.line, name, rest) && NotACommand(name) && LinesFit([error]) ==>
                  IsPaper(p + [error] + [PROMPT]) && shown == Window(p + [error] + [PROMPT], color))
            && (AllSpaces(e.line) ==> IsPaper(p + [PROMPT]) && shown == Window(p + [PROMPT], color))
  {
    EnterOnRoll(p, e, msgs, color);
    hide FeedSession, RollAfter, Window, IsPaper;
    var error := msgs.unknownBefore + name + msgs.unknownAfter;
    RepeatingReplies(e.line, name, rest, msgs);
    FixedReplies(e.line, rest, msgs);
    BlankAndClear(e.line, rest, msgs);
    if LinesFit([rest]) {
      ReplyIsRows(p, [rest]);
    }
    if LinesFit(msgs.help) {
      ReplyIsRows(p, msgs.help);
    }
    if LinesFit([error]) {
      ReplyIsRows(p, [error]);
    }
    ReplyIsRows(p, []);
    assert p + [] == p;
  }

  /** After `clear` has executed, every cell is a space: only runs of 1 to 80 spaces are found. */
  lemma ClearWipes(s: Screen, line: Text, rest: Text, msgs: Messages, color: Byte, needle: seq<Byte>)
    requires WellFormed(s) && Reads(line, Ascii("clear"), rest)
    ensures ExecuteScreen(s, line, msgs, color) == Window(FreshPaper, color)
    ensures Contains(ExecuteScreen(s, line, msgs, color), needle)
        <==> 1 <= |needle| <= 80 && forall i :: 0 <= i < |needle| ==> needle[i] == 0x20
  {
    BlankAndClear(line, rest, msgs);
    FreshWindow(color);
    ClearedIsSpaces(needle, color);
  }

  // ------------------------------------------------------------- whole runs

  /** The roll after one byte, said in rows: no screen in it. */
  function FeedRoll(p: Paper, e: Editor, b: Byte, msgs: Messages): (r: Paper)
    requires p != []
    ensures r != []
  {
    if e.halted then p
    else if b == NEWLINE then
      match ReplyTo(e.line, msgs)
      case Says(lines) => RollAfter(p, lines)
      case Wipes => [PROMPT]
      case Dies => p + [[]]
    else if b == BACKSPACE then (if e.line == [] then p else PaperRub(p))
    else if Printable(b) && |e.line| < LINE_CAPACITY then PaperPut(p, b)
    else p
  }

  function RunRoll(p: Paper, e: Editor, inputs: seq<Input>): (r: Paper)
    requires p != []
    ensures r != []
    decreases inputs
  {
    if inputs == [] then p
    else RunRoll(FeedRoll(p, e, inputs[0].byte, inputs[0].msgs), Feed(e, inputs[0].byte), inputs[1..])
  }

  lemma FeedOnRoll(p: Paper, e: Editor, b: Byte, msgs: Messages, color: Byte)
    requires IsPaper(p)
    ensures var r := FeedRoll(p, e, b, msgs);
            IsPaper(r) && FeedSession(Session(e, Window(p, color)), b, msgs, color).screen == Window(r, color)
  {
    if e.halted {
    } else if b == NEWLINE {
      EnterOnRoll(p, e, msgs, color);
    } else if b == BACKSPACE {
      BackspaceRefines(p, color);
    } else if Printable(b) {
      PutByteRefines(p, b, color);
      PutPrintable(Window(p, color), b, color);
    }
  }

  /** The roll at boot: the welcome lines, then the prompt. */
  lemma BootOnRoll(welcome: seq<Text>, color: Byte)
    requires LinesFit(welcome)
    ensures IsPaper(welcome + [PROMPT])
    ensures BootSession(welcome, color) == Session(Fresh, Window(welcome + [PROMPT], color))
  {
    hide PaperTypeAll, Sanitise, PutString, PrintLines;
    var text := LinesText(welcome);
    PrintLinesIsText(ClearedScreen(color), welcome, color);
    PutStringConcat(ClearedScreen(color), text, PROMPT, color);
    FreshWindow(color);
    PutStringRefines(FreshPaper, text + PROMPT, color);
    LinesAreRows(FreshPaper, welcome);
    SanitiseConcat(text, PROMPT);
    PaperTypeConcat(FreshPaper, text, Sanitise(PROMPT));
    var r := welcome + [[]];
    assert Front(FreshPaper) + welcome + [[]] == r;
    PromptOnEmptyRow(r);
    assert Front(r) == welcome;
  }

  /**
   In every run of the prompt the 25x80 screen shows the last rows of a roll on which
   typed bytes, replies and prompts follow one another.
   */
  lemma {:induction false} SessionOnRoll(p: Paper, e: Editor, inputs: seq<Input>, color: Byte)
    requires IsPaper(p)
    ensures var r := RunRoll(p, e, inputs);
            IsPaper(r)
            && RunSession(Session(e, Window(p, color)), inputs, color)
               == Session(FeedAll(e, BytesOf(inputs)), Window(r, color))
    decreases inputs
  {
    if inputs != [] {
      FeedOnRoll(p, e, inputs[0].byte, inputs[0].msgs, color);
      SessionOnRoll(FeedRoll(p, e, inputs[0].byte, inputs[0].msgs), Feed(e, inputs[0].byte), inputs[1..], color);
      assert BytesOf(inputs)[1..] == BytesOf(inputs[1..]);
    }
  }

  // ------------------------------------------------------------- transcripts

  /** A line typed at the prompt, with the message texts of that moment. */
  datatype Turn = Turn(line: Text, msgs: Messages)

  /** The line fits behind the prompt, and its command comes back with lines that fit their rows. */
  ghost predicate Legible(turn: Turn) {
    && AllPrintable(turn.line) && |turn.line| <= WIDTH - |PROMPT|
    && match ReplyTo(turn.line, turn.msgs)
       case Says(lines) => LinesFit(lines)
       case Wipes => true
       case Dies => false
  }

  ghost predicate AllLegible(turns: seq<Turn>) {
    forall i :: 0 <= i < |turns| ==> Legible(turns[i])
  }

  /** The rows above the last prompt: each prompt with its line and the reply below it, from the last `clear` on. */
  function Transcript(rows: seq<Text>, turns: seq<Turn>): seq<Text>
    decreases turns
  {
    if turns == [] then rows
    else
      Transcript(
        match ReplyTo(turns[0].line, turns[0].msgs)
        case Says(lines) => rows + [PROMPT + turns[0].line] + lines
        case Wipes => []
        case Dies => rows,
        turns[1..])
  }

  function Keyed(line: Text, msgs: Messages): seq<Input> {
    seq(|line|, i requires 0 <= i < |line| => Input(line[i], msgs))
  }

  function Typed(turns: seq<Turn>): seq<Input>
    decreases turns
  {
    if turns == [] then []
    else Keyed(turns[0].line, turns[0].msgs) + [Input(NEWLINE, turns[0].msgs)] + Typed(turns[1..])
  }

  function Lines(turns: seq<Turn>): seq<Text> {
    seq(|turns|, i requires 0 <= i < |turns| => turns[i].line)
  }

  lemma KeyExtendsRow(p: Paper, row: Text, e: Editor, inputs: seq<Input>)
    requires inputs != [] && Printable(inputs[0].byte) && |row| < WIDTH && |e.line| < LINE_CAPACITY && !e.halted
    ensures var b := inputs[0].byte;
            var e' := e.(line := e.line + [b]);
            && RunRoll(p + [row], e, inputs) == RunRoll(p + [row + [b]], e', inputs[1..])
            && FeedAll(e, BytesOf(inputs)) == FeedAll(e', BytesOf(inputs[1..]))
  {
    hide ReplyTo, RollAfter, Parse, Output;
    var b := inputs[0].byte;
    assert BytesOf(inputs)[1..] == BytesOf(inputs[1..]);
    assert FeedRoll(p + [row], e, b, inputs[0].msgs) == p + [row + [b]] by {
      assert p + [row + [b]] == Front(p + [row]) + [row + [b]];
    }
    hide FeedRoll;
  }

  /** Printable bytes that fit line and row extend both. */
  lemma {:induction false} KeysExtendRow(p: Paper, row: Text, e: Editor, s: Text, msgs: Messages, more: seq<Input>)
    requires AllPrintable(s) && |row| + |s| <= WIDTH && |e.line| + |s| <= LINE_CAPACITY && !e.halted
    ensures RunRoll(p + [row], e, Keyed(s, msgs) + more) == RunRoll(p + [row + s], e.(line := e.line + s), more)
    ensures FeedAll(e, BytesOf(Keyed(s, msgs) + more)) == FeedAll(e.(line := e.line + s), BytesOf(more))
    decreases s
  {
    hide RunRoll, FeedAll;
    var inputs := Keyed(s, msgs) + more;
    if s == [] {
      assert inputs == more && row + s == row && e.line + s == e.line;
    } else {
      var b := s[0];
      assert inputs[1..] == Keyed(s[1..], msgs) + more;
      KeyExtendsRow(p, row, e, inputs);
      KeysExtendRow(p, row + [b], e.(line := e.line + [b]), s[1..], msgs, more);
      assert row + [b] + s[1..] == row + s;
      assert e.line + [b] + s[1..] == e.line + s;
    }
  }

  /**
   A script typed at the prompt leaves its transcript: every prompt with the line behind it,
   the reply below, everything from the last `clear` on, and a prompt at the end.
   */
  lemma {:induction false} ScriptLeavesTranscript(rows: seq<Text>, executed: seq<Text>, turns: seq<Turn>)
    requires AllLegible(turns)
    ensures RunRoll(rows + [PROMPT], Editor([], executed, false), Typed(turns)) == Transcript(rows, turns) + [PROMPT]
    ensures FeedAll(Editor([], executed, false), BytesOf(Typed(turns))) == Editor([], executed + Lines(turns), false)
    decreases turns
  {
    hide RunRoll, FeedAll, Keyed, BytesOf;
    if turns == [] {
      NothingTyped(rows, executed);
      assert executed + Lines(turns) == executed;
    } else {
      var rest := turns[1..];
      TurnLeavesRows(rows, executed, turns[0], Typed(rest));
      var next := Transcript(rows, turns[..1]);
      assert turns[..1][1..] == [];
      ScriptLeavesTranscript(next, executed + [turns[0].line], rest);
      assert executed + Lines(turns) == executed + [turns[0].line] + Lines(rest);
    }
  }

  lemma NothingTyped(rows: seq<Text>, executed: seq<Text>)
    ensures RunRoll(rows + [PROMPT], Editor([], executed, false), []) == rows + [PROMPT]
    ensures FeedAll(Editor([], executed, false), BytesOf([])) == Editor([], executed, false)
  {
  }

  lemma TurnLeavesRows(rows: seq<Text>, executed: seq<Text>, turn: Turn, more: seq<Input>)
    requires Legible(turn)
    ensures var e, r := Editor([], executed, false), Editor([], executed + [turn.line], false);
            var inputs := Keyed(turn.line, turn.msgs) + [Input(NEWLINE, turn.msgs)] + more;
            && RunRoll(rows + [PROMPT], e, inputs) == RunRoll(Transcript(rows, [turn]) + [PROMPT], r, more)
            && FeedAll(e, BytesOf(inputs)) == FeedAll(r, BytesOf(more))
  {
    hide FeedRoll, RunRoll, Keyed;
    var line := turn.line;
    var e := Editor([], executed, false);
    var enter := [Input(NEWLINE, turn.msgs)] + more;
    assert Keyed(line, turn.msgs) + [Input(NEWLINE, turn.msgs)] + more == Keyed(line, turn.msgs) + enter;
    KeysExtendRow(rows, PROMPT, e, line, turn.msgs, enter);
    assert [] + line == line;
    EnterLeavesRows(rows, e.(line := line), turn, more);
  }

  lemma EnterLeavesRows(rows: seq<Text>, e: Editor, turn: Turn, more: seq<Input>)
    requires Legible(turn) && e.line == turn.line && !e.halted
    ensures var r := Editor([], e.executed + [turn.line], false);
            var enter := [Input(NEWLINE, turn.msgs)] + more;
            && RunRoll(rows + [PROMPT + turn.line], e, enter) == RunRoll(Transcript(rows, [turn]) + [PROMPT], r, more)
            && FeedAll(e, BytesOf(enter)) == FeedAll(r, BytesOf(more))
  {
    hide RollAfter, Output, Parse;
    var p := rows + [PROMPT + turn.line];
    var enter := [Input(NEWLINE, turn.msgs)] + more;
    assert enter[1..] == more;
    assert BytesOf(enter)[1..] == BytesOf(more);
    assert [turn][1..] == [];
    match ReplyTo(turn.line, turn.msgs) {
      case Says(lines) => ReplyIsRows(p, lines);
      case Wipes => assert [] + [PROMPT] == [PROMPT];
    }
  }

  /** From boot: every typed script of legible turns executes its lines and shows its transcript under the welcome lines. */
  lemma TypedScriptIsShown(welcome: seq<Text>, turns: seq<Turn>, color: Byte)
    requires LinesFit(welcome) && AllLegible(turns)
    ensures IsPaper(Transcript(welcome, turns) + [PROMPT])
    ensures RunSession(BootSession(welcome, color), Typed(turns), color)
         == Session(Editor([], Lines(turns), false), Window(Transcript(welcome, turns) + [PROMPT], color))
  {
    hide RunRoll, Transcript, Typed, Lines, BootSession;
    BootOnRoll(welcome, color);
    SessionOnRoll(welcome + [PROMPT], Fresh, Typed(turns), color);
    ScriptLeavesTranscript(welcome, [], turns);
    assert [] + Lines(turns) == Lines(turns);
  }
}
