/**
 The reference meaning of text sent to the terminal, with no screen in it.

 `Layout` is a closed form: cut the text at its newlines, then cut every line into
 rows of at most 80 bytes.  `Paper` is an endless roll of rows on which bytes are
 typed and rubbed out one at a time.
 */
module TextLayout {
  import opened Common

  const WIDTH: nat := 80
  const HEIGHT: nat := 25

  /** The lines of `s`: what stands before, between and after its newlines. */
  function Split(s: seq<Byte>): (lines: seq<seq<Byte>>)
    ensures lines != []
  {
    if s == [] then [[]]
    else
      var rest := Split(s[1..]);
      if s[0] == NEWLINE then [[]] + rest
      else [[s[0]] + rest[0]] + rest[1..]
  }

  /** Lines put back together with a newline between neighbours. */
  function Join(lines: seq<seq<Byte>>): seq<Byte>
    requires lines != []
  {
    if |lines| == 1 then lines[0]
    else lines[0] + [NEWLINE] + Join(lines[1..])
  }

  /** The rows of one line.  A line of exactly 80 bytes takes one row: wrapping is lazy. */
  function Chunk(line: seq<Byte>): (rows: seq<seq<Byte>>)
    ensures rows != []
  {
    if |line| <= WIDTH then [line] else [line[..WIDTH]] + Chunk(line[WIDTH..])
  }

  function ChunkAll(lines: seq<seq<Byte>>): (rows: seq<seq<Byte>>)
    ensures lines != [] ==> rows != []
  {
    if lines == [] then [] else Chunk(lines[0]) + ChunkAll(lines[1..])
  }

  function Layout(s: seq<Byte>): (rows: seq<seq<Byte>>)
    ensures rows != []
  {
    ChunkAll(Split(s))
  }

  // ---------------------------------------------------------------- splitting

  /** Gluing a byte to the first line glues it to the joined text. */
  lemma JoinCons(b: Byte, lines: seq<seq<Byte>>)
    requires lines != []
    ensures Join([[b] + lines[0]] + lines[1..]) == [b] + Join(lines)
  {
    var glued := [[b] + lines[0]] + lines[1..];
    assert glued[1..] == lines[1..];
  }

  lemma {:induction false} SplitJoins(s: seq<Byte>)
    ensures Join(Split(s)) == s
  {
    if s != [] {
      var rest := Split(s[1..]);
      SplitJoins(s[1..]);
      if s[0] == NEWLINE {
        assert ([[]] + rest)[1..] == rest;
        assert Join([[]] + rest) == [] + [NEWLINE] + Join(rest);
      } else {
        JoinCons(s[0], rest);
      }
    }
  }

  lemma {:induction false} SplitHoldsNoNewline(s: seq<Byte>)
    ensures forall i :: 0 <= i < |Split(s)| ==> NEWLINE !in Split(s)[i]
  {
    if s != [] {
      SplitHoldsNoNewline(s[1..]);
    }
  }

  /** `Split` cuts exactly at the newlines: nothing is lost and no line holds one. */
  lemma SplitJoin(s: seq<Byte>)
    ensures Join(Split(s)) == s
    ensures forall i :: 0 <= i < |Split(s)| ==> NEWLINE !in Split(s)[i]
  {
    SplitJoins(s);
    SplitHoldsNoNewline(s);
  }

  lemma {:induction false} SplitSnocNewline(s: seq<Byte>)
    ensures Split(s + [NEWLINE]) == Split(s) + [[]]
  {
    if s == [] {
      assert s + [NEWLINE] == [NEWLINE];
      assert Split([NEWLINE][1..]) == [[]];
    } else {
      assert (s + [NEWLINE])[1..] == s[1..] + [NEWLINE];
      SplitSnocNewline(s[1..]);
    }
  }

  /** Adding a byte to the last line, when the first line gets one in front. */
  lemma GrowBothEnds(lines: seq<seq<Byte>>, a: Byte, b: Byte)
    requires lines != []
    ensures var grown := Front(lines) + [Last(lines) + [b]];
            var glued := [[a] + lines[0]] + lines[1..];
            [[a] + grown[0]] + grown[1..] == Front(glued) + [Last(glued) + [b]]
  {
    if |lines| == 1 {
      assert [a] + (lines[0] + [b]) == ([a] + lines[0]) + [b];
    }
  }

  lemma {:induction false} SplitSnocOther(s: seq<Byte>, b: Byte)
    requires b != NEWLINE
    ensures Split(s + [b]) == Front(Split(s)) + [Last(Split(s)) + [b]]
  {
    if s == [] {
      assert s + [b] == [b];
      assert Split([b][1..]) == [[]];
      assert [b] + [] == [b] && [] + [b] == [b];
    } else {
      assert (s + [b])[1..] == s[1..] + [b];
      SplitSnocOther(s[1..], b);
      GrowBothEnds(Split(s[1..]), s[0], b);
    }
  }

  lemma SplitSnoc(s: seq<Byte>, b: Byte)
    ensures b == NEWLINE ==> Split(s + [b]) == Split(s) + [[]]
    ensures b != NEWLINE ==> Split(s + [b]) == Front(Split(s)) + [Last(Split(s)) + [b]]
  {
    if b == NEWLINE {
      SplitSnocNewline(s);
    } else {
      SplitSnocOther(s, b);
    }
  }

  // ----------------------------------------------------------------- chunking

  ghost predicate RowsFit(rows: seq<seq<Byte>>) {
    forall i :: 0 <= i < |rows| ==> |rows[i]| <= WIDTH
  }

  lemma {:induction false} ChunkSnoc(line: seq<Byte>, b: Byte)
    ensures RowsFit(Chunk(line))
    ensures Chunk(line + [b]) == PaperPut(Chunk(line), b)
    decreases |line|
  {
    if |line| < WIDTH {
    } else if |line| == WIDTH {
      assert (line + [b])[..WIDTH] == line;
      assert (line + [b])[WIDTH..] == [b];
    } else {
      assert (line + [b])[..WIDTH] == line[..WIDTH];
      assert (line + [b])[WIDTH..] == line[WIDTH..] + [b];
      ChunkSnoc(line[WIDTH..], b);
    }
  }

  lemma {:induction false} ChunkAllConcat(a: seq<seq<Byte>>, b: seq<seq<Byte>>)
    ensures ChunkAll(a + b) == ChunkAll(a) + ChunkAll(b)
  {
    if a == [] {
      assert a + b == b;
    } else {
      assert (a + b)[1..] == a[1..] + b;
      ChunkAllConcat(a[1..], b);
    }
  }

  // -------------------------------------------------------------- paper roll

  type Paper = seq<seq<Byte>>

  /** The rows fit the width, and there is a row to write on. */
  ghost predicate IsPaper(p: Paper) {
    p != [] && RowsFit(p)
  }

  /** Adds a byte other than newline at the end of the roll. */
  function PaperPut(p: Paper, b: Byte): (r: Paper)
    requires p != []
    ensures r != []
  {
    if |Last(p)| >= WIDTH then p + [[b]] else Front(p) + [Last(p) + [b]]
  }

  function PaperType(p: Paper, b: Byte): (r: Paper)
    requires p != []
    ensures r != []
  {
    if b == NEWLINE then p + [[]] else PaperPut(p, b)
  }

  function PaperTypeAll(p: Paper, s: seq<Byte>): (r: Paper)
    requires p != []
    ensures r != []
    decreases s
  {
    if s == [] then p else PaperTypeAll(PaperType(p, s[0]), s[1..])
  }

  /** Rubs out the last byte of the last row; an empty row stays as it is. */
  function PaperRub(p: Paper): (r: Paper)
    requires p != []
    ensures r != []
  {
    if Last(p) == [] then p else Front(p) + [Front(Last(p))]
  }

  const FreshPaper: Paper := [[]]

  lemma {:induction false} PaperTypeSnoc(p: Paper, s: seq<Byte>, b: Byte)
    requires p != []
    ensures PaperTypeAll(p, s + [b]) == PaperType(PaperTypeAll(p, s), b)
    decreases s
  {
    if s == [] {
      assert s + [b] == [b];
      assert PaperTypeAll(PaperType(p, b), [b][1..]) == PaperType(p, b);
    } else {
      assert (s + [b])[1..] == s[1..] + [b];
      PaperTypeSnoc(PaperType(p, s[0]), s[1..], b);
    }
  }

  lemma PutInLastPart(a: Paper, b: Paper, c: Byte)
    requires b != []
    ensures PaperPut(a + b, c) == a + PaperPut(b, c)
  {
    assert Last(a + b) == Last(b);
    assert Front(a + b) == a + Front(b);
  }

  lemma ChunkAllSnoc(lines: seq<seq<Byte>>, last: seq<Byte>)
    ensures ChunkAll(lines + [last]) == ChunkAll(lines) + Chunk(last)
  {
    ChunkAllConcat(lines, [last]);
    assert [last][1..] == [];
    assert ChunkAll([last]) == Chunk(last) + [];
  }

  lemma LayoutSnoc(s: seq<Byte>, b: Byte)
    ensures Layout(s + [b]) == PaperType(Layout(s), b)
  {
    var lines := Split(s);
    SplitSnoc(s, b);
    if b == NEWLINE {
      ChunkAllSnoc(lines, []);
    } else {
      var front, last := Front(lines), Last(lines);
      assert lines == front + [last];
      ChunkAllSnoc(front, last);
      ChunkAllSnoc(front, last + [b]);
      ChunkSnoc(last, b);
      PutInLastPart(ChunkAll(front), Chunk(last), b);
    }
  }

  /** Typing byte by byte on fresh paper gives the closed form. */
  lemma {:induction false} TypingIsLayout(s: seq<Byte>)
    ensures PaperTypeAll(FreshPaper, s) == Layout(s)
    ensures IsPaper(Layout(s))
  {
    if s == [] {
      assert Layout(s) == [[]];
    } else {
      TypingIsLayout(Front(s));
      assert s == Front(s) + [Last(s)];
      PaperTypeSnoc(FreshPaper, Front(s), Last(s));
      LayoutSnoc(Front(s), Last(s));
    }
  }

  /** Typing never changes a row already left behind; the last row only grows. */
  lemma {:induction false} TypingKeepsRows(p: Paper, s: seq<Byte>)
    requires IsPaper(p)
    ensures IsPaper(PaperTypeAll(p, s))
    ensures |PaperTypeAll(p, s)| >= |p|
    ensures forall k :: 0 <= k < |p| ==> p[k] <= PaperTypeAll(p, s)[k]
    decreases s
  {
    if s != [] {
      TypingKeepsRows(PaperType(p, s[0]), s[1..]);
    }
  }

  /** Text without newlines that fits the rest of the row lands there unbroken. */
  lemma {:induction false} TypingInRow(p: Paper, s: seq<Byte>)
    requires p != [] && NEWLINE !in s && |Last(p)| + |s| <= WIDTH
    ensures PaperTypeAll(p, s) == Front(p) + [Last(p) + s]
    decreases s
  {
    if s == [] {
      assert Last(p) + s == Last(p);
    } else {
      var q := PaperType(p, s[0]);
      assert Last(q) + s[1..] == Last(p) + s;
      TypingInRow(q, s[1..]);
    }
  }

  lemma {:induction false} PaperTypeConcat(p: Paper, s: seq<Byte>, t: seq<Byte>)
    requires p != []
    ensures PaperTypeAll(p, s + t) == PaperTypeAll(PaperTypeAll(p, s), t)
    decreases s
  {
    if s == [] {
      assert s + t == t;
    } else {
      assert (s + t)[1..] == s[1..] + t;
      PaperTypeConcat(PaperType(p, s[0]), s[1..], t);
    }
  }
}
