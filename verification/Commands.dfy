/** The command language of src/shell.rs: trimming, splitting off the name, and dispatch. */
module Commands {
  import opened Common

  type Text = seq<Byte>

  const HELP: Text := [0x68, 0x65, 0x6C, 0x70]  // help
  const CLEAR: Text := [0x63, 0x6C, 0x65, 0x61, 0x72]  // clear
  const ECHO: Text := [0x65, 0x63, 0x68, 0x6F]  // echo
  const SOBRE: Text := [0x73, 0x6F, 0x62, 0x72, 0x65]  // sobre
  const PANIC: Text := [0x70, 0x61, 0x6E, 0x69, 0x63]  // panic
  const MEM: Text := [0x6D, 0x65, 0x6D]  // mem
  const FALHA: Text := [0x66, 0x61, 0x6C, 0x68, 0x61]  // falha
  const PAGINA: Text := [0x70, 0x61, 0x67, 0x69, 0x6E, 0x61]  // pagina
  const PILHA: Text := [0x70, 0x69, 0x6C, 0x68, 0x61]  // pilha
  const OPCODE: Text := [0x6F, 0x70, 0x63, 0x6F, 0x64, 0x65]  // opcode
  const PROTECAO: Text := [0x70, 0x72, 0x6F, 0x74, 0x65, 0x63, 0x61, 0x6F]  // protecao
  const BREAKPOINT: Text := [0x62, 0x72, 0x65, 0x61, 0x6B, 0x70, 0x6F, 0x69, 0x6E, 0x74]  // breakpoint

  /** The bytes of an ASCII literal. */
  function Ascii(s: string): Text
    requires forall i :: 0 <= i < |s| ==> s[i] < 128 as char
  {
    seq(|s|, i requires 0 <= i < |s| => s[i] as int)
  }

  /** The byte constants spell the words the source compares with. */
  lemma CommandsSpelt()
    ensures HELP == Ascii("help") && CLEAR == Ascii("clear") && ECHO == Ascii("echo")
    ensures SOBRE == Ascii("sobre") && PANIC == Ascii("panic") && MEM == Ascii("mem") && FALHA == Ascii("falha")
  {
  }

  lemma FaultsSpelt()
    ensures PAGINA == Ascii("pagina") && PILHA == Ascii("pilha") && OPCODE == Ascii("opcode")
    ensures PROTECAO == Ascii("protecao") && BREAKPOINT == Ascii("breakpoint")
  {
  }

  /** The table `help` prints, by name. */
  const COMMANDS: seq<Text> := [HELP, CLEAR, ECHO, SOBRE, PANIC, MEM, FALHA]

  datatype Fault = Pagina | Pilha | Opcode | Protecao | Breakpoint | UnknownFault

  datatype Command =
    | Nothing
    | Help
    | Clear
    | Echo(rest: Text)
    | Sobre
    | Panic
    | Mem
    | Falha(fault: Fault)
    | Unknown(name: Text)

  /** The ASCII part of the white space that `str::trim` removes. */
  predicate IsSpace(b: Byte) {
    0x09 <= b <= 0x0D || b == SPACE
  }

  function TrimStart(s: Text): Text {
    if s != [] && IsSpace(s[0]) then TrimStart(s[1..]) else s
  }

  function TrimEnd(s: Text): Text {
    if s != [] && IsSpace(Last(s)) then TrimEnd(Front(s)) else s
  }

  function Trim(s: Text): Text {
    TrimEnd(TrimStart(s))
  }

  /** The position of the first space, or the length when there is none. */
  function FirstSpace(s: Text): (i: nat)
    ensures i <= |s| && SPACE !in s[..i]
    ensures i < |s| ==> s[i] == SPACE
  {
    if s == [] || s[0] == SPACE then 0
    else
      var i := 1 + FirstSpace(s[1..]);
      assert s[..i] == [s[0]] + s[1..][..i - 1];
      i
  }

  function NameOf(line: Text): Text {
    line[..FirstSpace(line)]
  }

  function RestOf(line: Text): Text {
    var i := FirstSpace(line);
    if i < |line| then line[i + 1..] else []
  }

  function ParseFault(kind: Text): Fault {
    var t := Trim(kind);
    if t == PAGINA then Pagina
    else if t == PILHA then Pilha
    else if t == OPCODE then Opcode
    else if t == PROTECAO then Protecao
    else if t == BREAKPOINT then Breakpoint
    else UnknownFault
  }

  function Parse(typed: Text): Command {
    var line := Trim(typed);
    if line == [] then Nothing
    else
      var name, rest := NameOf(line), RestOf(line);
      if name == HELP then Help
      else if name == CLEAR then Clear
      else if name == ECHO then Echo(rest)
      else if name == SOBRE then Sobre
      else if name == PANIC then Panic
      else if name == MEM then Mem
      else if name == FALHA then Falha(ParseFault(rest))
      else Unknown(name)
  }

  /** Commands after which control comes back to the prompt. */
  predicate Returns(cmd: Command) {
    match cmd
    case Panic => false
    case Falha(fault) => fault == Breakpoint || fault == UnknownFault
    case _ => true
  }

  ghost predicate AllSpaces(s: Text) {
    forall i :: 0 <= i < |s| ==> IsSpace(s[i])
  }

  lemma {:induction false} TrimStartSkips(w: Text, s: Text)
    requires AllSpaces(w)
    ensures TrimStart(w + s) == TrimStart(s)
  {
    if w == [] {
      assert w + s == s;
    } else {
      assert (w + s)[1..] == w[1..] + s;
      TrimStartSkips(w[1..], s);
    }
  }

  lemma {:induction false} TrimEndSkips(s: Text, w: Text)
    requires AllSpaces(w)
    ensures TrimEnd(s + w) == TrimEnd(s)
    decreases w
  {
    if w == [] {
      assert s + w == s;
    } else {
      assert Front(s + w) == s + Front(w);
      TrimEndSkips(s, Front(w));
    }
  }

  lemma {:induction false} TrimStartAppend(s: Text, w: Text)
    requires AllSpaces(w)
    ensures if AllSpaces(s) then AllSpaces(TrimStart(s + w)) && TrimStart(s) == []
            else TrimStart(s + w) == TrimStart(s) + w
  {
    if s == [] {
      assert s + w == w;
      TrimStartSkips(w, []);
      assert w + [] == w;
    } else if IsSpace(s[0]) {
      assert (s + w)[1..] == s[1..] + w;
      assert AllSpaces(s) <==> AllSpaces(s[1..]) by {
        assert s == [s[0]] + s[1..];
      }
      TrimStartAppend(s[1..], w);
    }
  }

  lemma TrimDropsOuterSpaces(w1: Text, line: Text, w2: Text)
    requires AllSpaces(w1) && AllSpaces(w2)
    ensures Trim(w1 + line + w2) == Trim(line)
  {
    assert w1 + line + w2 == w1 + (line + w2);
    TrimStartSkips(w1, line + w2);
    TrimStartAppend(line, w2);
    var t := TrimStart(line + w2);
    if AllSpaces(line) {
      TrimEndSkips([], t);
      assert [] + t == t;
    } else {
      TrimEndSkips(TrimStart(line), w2);
    }
  }

  /** Spaces around a line change nothing about the command it names. */
  lemma OuterSpacesIgnored(w1: Text, line: Text, w2: Text)
    requires AllSpaces(w1) && AllSpaces(w2)
    ensures Parse(w1 + line + w2) == Parse(line)
  {
    TrimDropsOuterSpaces(w1, line, w2);
  }

  /** A line is rebuilt from the name and the rest it is split into, and the name is one word. */
  lemma SplitRebuilds(line: Text)
    ensures SPACE !in NameOf(line)
    ensures line == if SPACE in line then NameOf(line) + [SPACE] + RestOf(line) else NameOf(line)
  {
    var i := FirstSpace(line);
    if i < |line| {
      assert line == line[..i] + [line[i]] + line[i + 1..];
    } else {
      assert line[..i] == line;
    }
  }

  /** The table of `help` and the dispatch agree: a name is unknown exactly when the table lacks it. */
  lemma DispatchMatchesTable(line: Text)
    ensures Parse(line).Unknown? <==> Trim(line) != [] && NameOf(Trim(line)) !in COMMANDS
    ensures Parse(line).Unknown? ==> Parse(line).name == NameOf(Trim(line))
    ensures Parse(line) == Nothing <==> AllSpaces(line)
  {
    var name := NameOf(Trim(line));
    assert name in COMMANDS <==> name == HELP || name == CLEAR || name == ECHO || name == SOBRE
                                 || name == PANIC || name == MEM || name == FALHA;
    EmptyWhenTrimmed(line);
  }

  lemma {:induction false} TrimEndEmpty(s: Text)
    ensures TrimEnd(s) == [] <==> AllSpaces(s)
  {
    if s != [] && IsSpace(Last(s)) {
      TrimEndEmpty(Front(s));
      assert s == Front(s) + [Last(s)];
    }
  }

  lemma {:induction false} TrimStartSpaces(s: Text)
    ensures AllSpaces(TrimStart(s)) <==> AllSpaces(s)
  {
    if s != [] && IsSpace(s[0]) {
      TrimStartSpaces(s[1..]);
      assert s == [s[0]] + s[1..];
    }
  }

  lemma EmptyWhenTrimmed(line: Text)
    ensures Trim(line) == [] <==> AllSpaces(line)
  {
    TrimEndEmpty(TrimStart(line));
    TrimStartSpaces(line);
  }

  lemma {:induction false} TrimEndKeepsPrefix(p: Text, s: Text)
    requires p != [] && !IsSpace(Last(p))
    ensures TrimEnd(p + s) == p + TrimEnd(s)
    decreases s
  {
    if s == [] {
      assert p + s == p;
    } else if IsSpace(Last(s)) {
      assert Front(p + s) == p + Front(s);
      TrimEndKeepsPrefix(p, Front(s));
    }
  }

  /** `echo` repeats what follows its space, inner and leading spaces kept, trailing ones gone. */
  lemma EchoRepeats(text: Text)
    ensures Parse(ECHO + [SPACE] + text) == Echo(TrimEnd(text))
  {
    var line := ECHO + [SPACE] + text;
    assert TrimStart(line) == line;
    assert line == ECHO + ([SPACE] + text);
    TrimEndKeepsPrefix(ECHO, [SPACE] + text);
    var rest := TrimEnd([SPACE] + text);
    TrimEndOfSpaced(text);
    var t := ECHO + rest;
    assert Trim(line) == t;
    assert SPACE !in ECHO;
    FirstSpaceAfter(ECHO, rest);
  }

  lemma {:induction false} TrimEndOfSpaced(text: Text)
    ensures TrimEnd([SPACE] + text) == if TrimEnd(text) == [] then [] else [SPACE] + TrimEnd(text)
    decreases text
  {
    if text == [] {
      assert [SPACE] + text == [SPACE];
      assert Front([SPACE]) == [];
    } else if IsSpace(Last(text)) {
      assert Front([SPACE] + text) == [SPACE] + Front(text);
      TrimEndOfSpaced(Front(text));
    }
  }

  lemma {:induction false} FirstSpaceAfter(word: Text, s: Text)
    requires SPACE !in word && (s == [] || s[0] == SPACE)
    ensures FirstSpace(word + s) == |word|
    ensures NameOf(word + s) == word
    ensures RestOf(word + s) == if s == [] then [] else s[1..]
  {
    if word == [] {
      assert word + s == s;
    } else {
      assert (word + s)[1..] == word[1..] + s;
      FirstSpaceAfter(word[1..], s);
    }
  }
}
