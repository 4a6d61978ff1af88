/**
 The line being typed and the lines handed to `execute` (src/shell.rs), without the
 screen: how a byte history turns into executed lines.
 */
module LineEditor {
  import opened Common
  import opened TextLayout
  import opened Commands

  const LINE_CAPACITY: nat := 128

  /** One byte other than Enter: a bounded stack that Backspace pops and printable bytes push on. */
  function Edit(line: Text, b: Byte): (r: Text)
    ensures AllPrintable(line) ==> AllPrintable(r)
    ensures |line| <= LINE_CAPACITY ==> |r| <= LINE_CAPACITY
  {
    if b == BACKSPACE then (if line == [] then line else Front(line))
    else if Printable(b) && |line| < LINE_CAPACITY then line + [b]
    else line
  }

  function EditAll(line: Text, s: seq<Byte>): (r: Text)
    ensures AllPrintable(line) ==> AllPrintable(r)
    ensures |line| <= LINE_CAPACITY ==> |r| <= LINE_CAPACITY
    decreases s
  {
    if s == [] then line else EditAll(Edit(line, s[0]), s[1..])
  }

  lemma {:induction false} EditSnoc(line: Text, s: seq<Byte>, b: Byte)
    ensures EditAll(line, s + [b]) == Edit(EditAll(line, s), b)
    decreases s
  {
    if s == [] {
      assert s + [b] == [b];
      assert EditAll(Edit(line, b), [b][1..]) == Edit(line, b);
    } else {
      assert (s + [b])[1..] == s[1..] + [b];
      EditSnoc(Edit(line, s[0]), s[1..], b);
    }
  }

  /** Printable bytes are kept as typed until the line is full; the rest is refused. */
  lemma {:induction false} PrintableIsKept(line: Text, s: seq<Byte>)
    requires AllPrintable(s) && |line| <= LINE_CAPACITY
    ensures EditAll(line, s) == line + s[..if |line| + |s| <= LINE_CAPACITY then |s| else LINE_CAPACITY - |line|]
    decreases s
  {
    if s == [] {
      assert line + s[..0] == line;
    } else if |line| < LINE_CAPACITY {
      PrintableIsKept(line + [s[0]], s[1..]);
    } else {
      PrintableIsKept(line, s[1..]);
      assert line + s[1..][..0] == line;
      assert line + s[..0] == line;
    }
  }

  lemma EditNothing(line: Text)
    ensures EditAll(line, []) == line
  {
  }

  /** A byte that is neither printable nor backspace leaves the line alone; backspace leaves an empty one alone. */
  lemma OtherBytesIgnored(line: Text, b: Byte)
    ensures !(0x20 <= b <= 0x7E) && b != 0x08 ==> Edit(line, b) == line
    ensures Edit([], 0x08) == []
  {
  }

  /**
   Backspace takes back the printable byte before it if and only if that byte was accepted;
   on a full line it takes the 128th byte instead.
   */
  lemma BackspaceCancels(line: Text, b: Byte)
    requires |line| <= 128 && 0x20 <= b <= 0x7E
    ensures EditAll(line, [b, 0x08]) == line <==> |line| < 128
    ensures |line| == 128 ==> EditAll(line, [b, 0x08]) == line[..127]
  {
    hide EditAll;
    EditSnoc(line, [b], 0x08);
    EditSnoc(line, [], b);
    assert [] + [b] == [b] && [b] + [0x08] == [b, 0x08];
    EditNothing(line);
    assert Front(line + [b]) == line;
  }

  // ------------------------------------------------------------ feeding bytes

  /** `halted` says that a command that never returns has been reached: no byte is processed any more. */
  datatype Editor = Editor(line: Text, executed: seq<Text>, halted: bool)

  const Fresh := Editor([], [], false)

  function Feed(e: Editor, b: Byte): Editor {
    if e.halted then e
    else if b != NEWLINE then e.(line := Edit(e.line, b))
    else if Returns(Parse(e.line)) then Editor([], e.executed + [e.line], false)
    else Editor(e.line, e.executed + [e.line], true)
  }

  function FeedAll(e: Editor, s: seq<Byte>): Editor
    decreases s
  {
    if s == [] then e else FeedAll(Feed(e, s[0]), s[1..])
  }

  lemma {:induction false} FeedConcat(e: Editor, s: seq<Byte>, t: seq<Byte>)
    ensures FeedAll(e, s + t) == FeedAll(FeedAll(e, s), t)
    decreases s
  {
    if s == [] {
      assert s + t == t;
    } else {
      assert (s + t)[1..] == s[1..] + t;
      FeedConcat(Feed(e, s[0]), s[1..], t);
    }
  }

  // -------------------------------------------------------------- closed form

  /** The lines ended by Enter in a byte history, each edited on its own. */
  function Submitted(h: seq<Byte>): seq<Text> {
    seq(|Split(h)| - 1, i requires 0 <= i < |Split(h)| - 1 => EditAll([], Split(h)[i]))
  }

  /** Some line names a command that never returns. */
  ghost predicate HasHalt(lines: seq<Text>) {
    exists i :: 0 <= i < |lines| && !Returns(Parse(lines[i]))
  }

  /** The lines up to and including the first whose command never returns. */
  function UpToHalt(lines: seq<Text>): seq<Text> {
    if lines == [] then []
    else if Returns(Parse(lines[0])) then [lines[0]] + UpToHalt(lines[1..])
    else [lines[0]]
  }

  lemma {:induction false} UpToHaltSnoc(lines: seq<Text>, line: Text)
    ensures !HasHalt(lines) ==> UpToHalt(lines) == lines && UpToHalt(lines + [line]) == lines + [line]
    ensures HasHalt(lines) ==> UpToHalt(lines + [line]) == UpToHalt(lines)
  {
    if lines == [] {
      assert lines + [line] == [line];
      assert UpToHalt([line]) == [line];
    } else {
      assert (lines + [line])[1..] == lines[1..] + [line];
      if Returns(Parse(lines[0])) {
        UpToHaltSnoc(lines[1..], line);
        assert lines == [lines[0]] + lines[1..];
        if HasHalt(lines) {
          var i :| 0 <= i < |lines| && !Returns(Parse(lines[i]));
          assert lines[1..][i - 1] == lines[i];
        }
      }
    }
  }

  /** What the editor holds after the byte history `h`, said without running it. */
  ghost predicate Explains(e: Editor, h: seq<Byte>) {
    && e.executed == UpToHalt(Submitted(h))
    && (e.halted <==> HasHalt(Submitted(h)))
    && (!e.halted ==> e.line == EditAll([], Last(Split(h))))
  }

  lemma SubmittedEnter(h: seq<Byte>)
    ensures Submitted(h + [NEWLINE]) == Submitted(h) + [EditAll([], Last(Split(h)))]
    ensures Last(Split(h + [NEWLINE])) == []
  {
    SplitSnoc(h, NEWLINE);
  }

  lemma HasHaltSnoc(lines: seq<Text>, line: Text)
    ensures HasHalt(lines + [line]) <==> HasHalt(lines) || !Returns(Parse(line))
  {
    hide Parse, Returns;
    var all := lines + [line];
    assert all[|lines|] == line;
    assert forall i :: 0 <= i < |lines| ==> all[i] == lines[i];
  }

  lemma ExplainsEnter(e: Editor, h: seq<Byte>)
    requires Explains(e, h)
    ensures Explains(Feed(e, NEWLINE), h + [NEWLINE])
  {
    hide Parse, Returns, Submitted, UpToHalt, HasHalt;
    SubmittedEnter(h);
    var lines, last := Submitted(h), EditAll([], Last(Split(h)));
    UpToHaltSnoc(lines, last);
    HasHaltSnoc(lines, last);
  }

  lemma ExplainsOther(e: Editor, h: seq<Byte>, b: Byte)
    requires Explains(e, h) && b != NEWLINE
    ensures Explains(Feed(e, b), h + [b])
  {
    SplitSnoc(h, b);
    assert Submitted(h + [b]) == Submitted(h);
    EditSnoc([], Last(Split(h)), b);
  }

  /**
   The executed lines in closed form: cut the byte history at every Enter, edit each
   piece on its own, and stop after the first line whose command never returns.  While
   no such line has been submitted, the line buffer is the edited last piece.
   */
  lemma {:induction false} EditorClosedForm(h: seq<Byte>)
    ensures Explains(FeedAll(Fresh, h), h)
  {
    if h == [] {
      assert Split(h) == [[]];
    } else {
      var g, b := Front(h), Last(h);
      assert h == g + [b];
      EditorClosedForm(g);
      FeedConcat(Fresh, g, [b]);
      var e := FeedAll(Fresh, g);
      assert [b][1..] == [];
      assert FeedAll(e, [b]) == Feed(e, b);
      if b == NEWLINE {
        ExplainsEnter(e, g);
      } else {
        ExplainsOther(e, g, b);
      }
    }
  }

  /** Every reachable line is printable and fits the buffer. */
  lemma {:induction false} LineStaysPrintable(e: Editor, h: seq<Byte>)
    requires AllPrintable(e.line) && |e.line| <= LINE_CAPACITY
    ensures AllPrintable(FeedAll(e, h).line) && |FeedAll(e, h).line| <= LINE_CAPACITY
    decreases h
  {
    if h != [] {
      LineStaysPrintable(Feed(e, h[0]), h[1..]);
    }
  }

  // ------------------------------------------------------------ LineBuffer

  predicate Continuation(s: Text, from: nat, n: nat) {
    from + n <= |s| && forall i :: from <= i < from + n ==> 0x80 <= s[i] < 0xC0
  }

  /** Well-formed UTF-8 (table 3-7 of the Unicode Standard), what `core::str::from_utf8` accepts. */
  predicate Utf8(s: Text) {
    if s == [] then true
    else if s[0] < 0x80 then Utf8(s[1..])
    else if 0xC2 <= s[0] < 0xE0 then Continuation(s, 1, 1) && Utf8(s[2..])
    else if 0xE0 <= s[0] < 0xF0 then
      Continuation(s, 1, 2) && (s[0] == 0xE0 ==> s[1] >= 0xA0) && (s[0] == 0xED ==> s[1] < 0xA0) && Utf8(s[3..])
    else if 0xF0 <= s[0] < 0xF5 then
      Continuation(s, 1, 3) && (s[0] == 0xF0 ==> s[1] >= 0x90) && (s[0] == 0xF4 ==> s[1] < 0x90) && Utf8(s[4..])
    else false
  }

  lemma {:induction false} PrintableIsUtf8(s: Text)
    requires AllPrintable(s)
    ensures Utf8(s)
  {
    if s != [] {
      PrintableIsUtf8(s[1..]);
    }
  }

  /** A single byte is UTF-8 exactly when it is ASCII. */
  lemma SingleByteUtf8(b: Byte)
    ensures Utf8([b]) <==> b < 0x80
  {
    assert [b][1..] == [];
  }

  class LineBuffer {
    const bytes: array<Byte>
    var len: nat

    ghost predicate Valid()
      reads this
    {
      bytes.Length == LINE_CAPACITY && len <= LINE_CAPACITY
    }

    ghost function Contents(): Text
      requires Valid()
      reads this, bytes
    {
      bytes[..len]
    }

    constructor ()
      ensures Valid() && fresh(bytes) && Contents() == []
    {
      bytes := new Byte[LINE_CAPACITY](_ => 0);
      len := 0;
    }

    method Push(byte: Byte) returns (accepted: bool)
      requires Valid()
      modifies this, bytes
      ensures Valid() && accepted == (|old(Contents())| < LINE_CAPACITY)
      ensures Contents() == old(Contents()) + if accepted then [byte] else []
    {
      if len == LINE_CAPACITY {
        return false;
      }
      bytes[len] := byte;
      len := len + 1;
      return true;
    }

    method Pop() returns (removed: bool)
      requires Valid()
      modifies this
      ensures Valid() && removed == (old(Contents()) != [])
      ensures Contents() == if removed then Front(old(Contents())) else old(Contents())
    {
      if len == 0 {
        return false;
      }
      len := len - 1;
      return true;
    }

    method Clear()
      requires Valid()
      modifies this
      ensures Valid() && Contents() == []
    {
      len := 0;
    }

    /** The fallback to the empty string is taken exactly when the contents are not UTF-8. */
    method AsStr() returns (s: Text)
      requires Valid()
      ensures s == if Utf8(Contents()) then Contents() else []
      ensures AllPrintable(Contents()) ==> s == Contents()
    {
      if AllPrintable(Contents()) {
        PrintableIsUtf8(Contents());
      }
      s := bytes[..len];
      if !Utf8(s) {
        s := [];
      }
    }
  }
}
