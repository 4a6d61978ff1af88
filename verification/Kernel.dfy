/**
 The consumer side put together: scancode queue, decoder and prompt, drained as in the
 idle loop of src/main.rs, from scancodes to executed lines and to the screen.
 */
module Kernel {
  import opened Common
  import opened Terminal
  import opened Commands
  import opened LineEditor
  import opened Shell
  import opened Keyboard
  import opened ScancodeQueue
  import IdleLoop

  const ENTER: Byte := 0x1C

  /** Keystrokes of a line, each with a shift key of its own choice, then Enter. */
  function LineStrokes(line: Text, sides: seq<Side>): seq<Byte>
    requires AllPrintable(line) && |sides| == |line|
  {
    Keystrokes(line, sides) + [ENTER]
  }

  /** The left shift for every stroke. */
  function LeftOnly(line: Text): (sides: seq<Side>)
    ensures |sides| == |line|
  {
    seq(|line|, _ => Left)
  }

  /** A printable line that fits the buffer and whose command comes back to the prompt. */
  ghost predicate Runnable(line: Text) {
    AllPrintable(line) && |line| <= LINE_CAPACITY && Returns(Parse(line))
  }

  ghost predicate AllRunnable(lines: seq<Text>) {
    forall i :: 0 <= i < |lines| ==> Runnable(lines[i])
  }

  ghost function ScriptStrokes(lines: seq<Text>): seq<Byte>
    requires AllRunnable(lines)
  {
    if lines == [] then [] else LineStrokes(lines[0], LeftOnly(lines[0])) + ScriptStrokes(lines[1..])
  }

  /** A printable line of at most 128 bytes, typed from released shifts with either shift key, is executed as it stands. */
  lemma TypedLineIsExecuted(c: IdleLoop.Core, line: Text, sides: seq<Side>)
    requires AllPrintable(line) && |line| <= LINE_CAPACITY && |sides| == |line|
    requires c.shift == Released && c.editor.line == [] && !c.editor.halted
    ensures var r := IdleLoop.ConsumeAll(c, LineStrokes(line, sides));
            && r.shift == Released
            && r.editor.executed == c.editor.executed + [line]
            && r.editor.halted == !Returns(Parse(line))
            && (!r.editor.halted ==> r.editor.line == [])
  {
    TypingRoundTrip(line, sides);
    DecodeConcat(Released, Keystrokes(line, sides), [ENTER]);
    assert [ENTER][1..] == [];
    assert TranslateFrom(Released, ENTER) == (Released, Some(NEWLINE));
    assert Decode(Released, [ENTER]) == [NEWLINE];
    IdleLoop.ConsumeIsDecodeThenFeed(c, LineStrokes(line, sides));
    FeedConcat(c.editor, line, [NEWLINE]);
    FeedPrintable(c.editor, line);
    var e := FeedAll(c.editor, line);
    PrintableIsKept([], line);
    assert [] + line[..|line|] == line;
    assert [NEWLINE][1..] == [];
    assert FeedAll(e, [NEWLINE]) == Feed(e, NEWLINE);
  }

  lemma {:induction false} FeedPrintable(e: Editor, s: seq<Byte>)
    requires AllPrintable(s) && !e.halted
    ensures FeedAll(e, s) == e.(line := EditAll(e.line, s))
    decreases s
  {
    if s != [] {
      FeedPrintable(Feed(e, s[0]), s[1..]);
    }
  }

  lemma RunnableLineIsExecuted(c: IdleLoop.Core, line: Text)
    requires Runnable(line)
    requires c.shift == Released && c.editor.line == [] && !c.editor.halted
    ensures AllPrintable(line)
    ensures IdleLoop.ConsumeAll(c, LineStrokes(line, LeftOnly(line)))
         == IdleLoop.Core(Released, Editor([], c.editor.executed + [line], false))
  {
    TypedLineIsExecuted(c, line, LeftOnly(line));
  }

  /**
   Every script of printable lines whose commands return can be typed: its scancodes,
   consumed from an empty prompt, execute exactly those lines in that order.
   */
  lemma {:induction false} TypedScriptIsExecuted(executed: seq<Text>, lines: seq<Text>)
    requires AllRunnable(lines)
    ensures IdleLoop.ConsumeAll(IdleLoop.Core(Released, Editor([], executed, false)), ScriptStrokes(lines))
         == IdleLoop.Core(Released, Editor([], executed + lines, false))
    decreases lines
  {
    hide Runnable, LineStrokes, IdleLoop.Consume;
    if lines == [] {
      assert executed + lines == executed;
    } else {
      var rest := lines[1..];
      FirstLineIsExecuted(executed, lines);
      TypedScriptIsExecuted(executed + [lines[0]], rest);
      assert executed + lines == executed + [lines[0]] + rest;
    }
  }

  /** For every such script some run of the interrupted idle loop executes exactly its lines. */
  lemma SomeRunExecutesScript(lines: seq<Text>) returns (s: IdleLoop.State)
    requires AllRunnable(lines)
    ensures IdleLoop.Reachable(s) && s.main == IdleLoop.Asleep
    ensures s.core.editor == Editor([], lines, false)
  {
    hide Runnable, ScriptStrokes, IdleLoop.Consume, IdleLoop.Run;
    var rest := IdleLoop.FirstRest();
    TypedScriptIsExecuted([], lines);
    assert [] + lines == lines;
    s := IdleLoop.TypeWhileAsleep(rest, ScriptStrokes(lines));
  }

  lemma FirstLineIsExecuted(executed: seq<Text>, lines: seq<Text>)
    requires AllRunnable(lines) && lines != []
    ensures IdleLoop.ConsumeAll(IdleLoop.Core(Released, Editor([], executed, false)), ScriptStrokes(lines))
         == IdleLoop.ConsumeAll(IdleLoop.Core(Released, Editor([], executed + [lines[0]], false)),
                                ScriptStrokes(lines[1..]))
  {
    var c := IdleLoop.Core(Released, Editor([], executed, false));
    RunnableLineIsExecuted(c, lines[0]);
    ConsumeConcat(c, LineStrokes(lines[0], LeftOnly(lines[0])), ScriptStrokes(lines[1..]));
  }

  lemma {:induction false} ConsumeConcat(c: IdleLoop.Core, a: seq<Byte>, b: seq<Byte>)
    ensures IdleLoop.ConsumeAll(c, a + b) == IdleLoop.ConsumeAll(IdleLoop.ConsumeAll(c, a), b)
    decreases a
  {
    if a == [] {
      assert a + b == b;
    } else {
      assert (a + b)[1..] == a[1..] + b;
      ConsumeConcat(IdleLoop.Consume(c, a[0]), a[1..], b);
    }
  }

  /** The message texts of each call of `feed`, by its number. */
  type Texts = nat -> Messages

  /** Bytes fed one after the other, the first of them in call number `call`. */
  function InputsFor(bytes: seq<Byte>, texts: Texts, call: nat): seq<Input> {
    seq(|bytes|, i requires 0 <= i < |bytes| => Input(bytes[i], texts(call + i)))
  }

  /** The prompt after all of the scancodes have been decoded and fed. */
  ghost function SessionAfter(
      shift: Shift, s: Session, codes: seq<Byte>, texts: Texts, call: nat, color: Byte): Session
    requires Terminal.WellFormed(s.screen)
  {
    RunSession(s, InputsFor(Decode(shift, codes), texts, call), color)
  }

  ghost function Fed(s: Session, byte: Option<Byte>, msgs: Messages, color: Byte): (r: Session)
    requires Terminal.WellFormed(s.screen)
    ensures Terminal.WellFormed(r.screen)
  {
    if byte.Some? then FeedSession(s, byte.value, msgs, color) else s
  }

  lemma SessionAfterCons(shift: Shift, s: Session, codes: seq<Byte>, texts: Texts, call: nat, color: Byte)
    requires Terminal.WellFormed(s.screen) && codes != []
    ensures var r := TranslateFrom(shift, codes[0]);
            SessionAfter(shift, s, codes, texts, call, color)
            == SessionAfter(r.0, Fed(s, r.1, texts(call), color), codes[1..],
                            texts, call + |Emitted(r.1)|, color)
  {
    hide TranslateFrom, FeedSession;
    var (next, byte) := TranslateFrom(shift, codes[0]);
    var rest := Decode(next, codes[1..]);
    assert Decode(shift, codes) == Emitted(byte) + rest;
    if byte.Some? {
      assert InputsFor([byte.value] + rest, texts, call)[1..] == InputsFor(rest, texts, call + 1);
    } else {
      assert [] + rest == rest;
    }
  }

  // --------------------------------------------------------------- in place

  /** The statics `SCANCODE_QUEUE`, `SHIFT`, `LINE` and `WRITER` as the main flow uses them. */
  class Consumer {
    const ring: Ring
    const decoder: Decoder
    const prompt: Prompt

    ghost predicate Valid()
      reads this, ring, ring.buffer, decoder, prompt, prompt.line, prompt.line.bytes,
            prompt.writer, prompt.writer.cells
    {
      ring.Valid() && prompt.Valid() && ring.buffer != prompt.line.bytes
    }

    /** Decoder and editor together. */
    ghost function Core(): IdleLoop.Core
      requires Valid()
      reads this, ring, ring.buffer, decoder, prompt, prompt.line, prompt.line.bytes,
            prompt.writer, prompt.writer.cells
    {
      IdleLoop.Core(decoder.State(), prompt.State().editor)
    }

    constructor (writer: Writer)
      requires writer.Valid()
      ensures Valid() && prompt.writer == writer && Core() == IdleLoop.Start && ring.Contents() == []
    {
      ring := new Ring();
      decoder := new Decoder();
      prompt := new Prompt(writer);
    }

    /** One round of the drain: translate, and feed the byte if there is one. */
    method Handle(scancode: Byte, msgs: Messages) returns (returned: bool, fed: bool)
      requires Valid() && !prompt.halted
      modifies decoder, prompt, prompt.line, prompt.line.bytes, prompt.writer, prompt.writer.cells
      ensures Valid() && returned == !prompt.halted
      ensures Core() == IdleLoop.Consume(old(Core()), scancode)
      ensures decoder.State() == TranslateFrom(old(decoder.State()), scancode).0
      ensures fed == TranslateFrom(old(decoder.State()), scancode).1.Some?
      ensures prompt.State()
           == Fed(old(prompt.State()), TranslateFrom(old(decoder.State()), scancode).1, msgs, prompt.writer.color)
    {
      hide TranslateFrom, FeedScreen, Feed;
      returned := true;
      var byte := decoder.Translate(scancode);
      fed := byte.Some?;
      if fed {
        returned := prompt.Feed(byte.value, msgs);
      }
    }

    /**
     The drain of main.rs:27-31.  Every pending scancode is consumed in order and the
     queue ends empty, unless one of them completes a command that does not return; the
     prompt and its screen are what feeding the decoded bytes one by one makes of them,
     each with the message texts of its moment.
     */
    method Drain(texts: Texts) returns (returned: bool)
      requires Valid() && !prompt.halted
      modifies ring, decoder, prompt, prompt.line, prompt.line.bytes, prompt.writer, prompt.writer.cells
      ensures Valid() && returned == !prompt.halted
      ensures returned == !IdleLoop.ConsumeAll(old(Core()), old(ring.Contents())).editor.halted
      ensures returned ==> ring.Contents() == [] && Core() == IdleLoop.ConsumeAll(old(Core()), old(ring.Contents()))
      ensures prompt.State() == SessionAfter(old(decoder.State()), old(prompt.State()), old(ring.Contents()),
                                             texts, 0, prompt.writer.color)
    {
      hide TranslateFrom, FeedScreen, Feed, IdleLoop.Consume, Fed, SessionAfter;
      var call: nat := 0;
      while true
        invariant Valid() && !prompt.halted
        invariant IdleLoop.ConsumeAll(Core(), ring.Contents())
               == IdleLoop.ConsumeAll(old(Core()), old(ring.Contents()))
        invariant SessionAfter(decoder.State(), prompt.State(), ring.Contents(), texts, call, prompt.writer.color)
               == SessionAfter(old(decoder.State()), old(prompt.State()), old(ring.Contents()),
                               texts, 0, prompt.writer.color)
        decreases ring.len
      {
        ghost var queue := ring.Contents();
        if queue != [] {
          SessionAfterCons(decoder.State(), prompt.State(), queue, texts, call, prompt.writer.color);
        }
        var scancode := ring.Pop();
        if scancode == None {
          NothingLeft(decoder.State(), prompt.State(), texts, call, prompt.writer.color);
          return true;
        }
        var fed;
        returned, fed := Handle(scancode.value, texts(call));
        call := if fed then call + 1 else call;
        if !returned {
          IdleLoop.HaltIsFinal(Core(), ring.Contents());
          HaltedSession(decoder.State(), prompt.State(), ring.Contents(), texts, call, prompt.writer.color);
          return false;
        }
      }
    }
  }

  lemma NothingLeft(shift: Shift, s: Session, texts: Texts, call: nat, color: Byte)
    requires Terminal.WellFormed(s.screen)
    ensures SessionAfter(shift, s, [], texts, call, color) == s
  {
  }

  lemma HaltedSession(shift: Shift, s: Session, codes: seq<Byte>, texts: Texts, call: nat, color: Byte)
    requires Terminal.WellFormed(s.screen) && s.editor.halted
    ensures SessionAfter(shift, s, codes, texts, call, color) == s
  {
    HaltedStays(s, InputsFor(Decode(shift, codes), texts, call), color);
  }
}
