/** When chunking loses text, read off the document itself. */
module Losslessness {
  import opened Text
  import opened TableSplit
  import opened Outlines
  import opened Chunker
  import opened ChunkTheorems

  /** The length of the white space `s` starts with. */
  function Lead(s: string): (n: nat)
    ensures n <= |s| && (n < |s| ==> !IsSpace(s[n])) && forall i :: 0 <= i < n ==> IsSpace(s[i])
  {
    if s == "" || !IsSpace(s[0]) then 0 else 1 + Lead(s[1..])
  }

  /** The first ink of `s` stands on its first line or behind at most 350 bytes of white space. */
  predicate EarlyInk(s: string) {
    Lead(s) < |s| && ('\n' !in s[..Lead(s)] || ByteLength(s[..Lead(s)]) <= TARGET_RUNES / 2)
  }

  lemma {:induction false} BytesOfPrefix(s: string, a: nat, b: nat)
    requires a <= b <= |s|
    ensures ByteLength(s[..a]) <= ByteLength(s[..b]) && a <= ByteLength(s[..a])
  {
    if a > 0 {
      assert s[..a][1..] == s[1..][..a - 1] && s[..b][1..] == s[1..][..b - 1];
      BytesOfPrefix(s[1..], a - 1, b - 1);
    }
  }

  lemma InkAt(s: string, i: nat)
    requires i < |s| && !IsSpace(s[i])
    ensures !Blank(s)
  {
    assert s == s[..i] + s[i..];
    InkConcat(s[..i], s[i..]);
  }

  /** A full buffer that starts a text with early ink drops ink. */
  lemma FirstDropHasInk(full: string, text: string)
    requires full <= text && |full| >= TARGET_RUNES && full[|full| - 1] == '\n' && EarlyInk(text)
    ensures !Blank(full[..|full| - RemainderLength(full)])
  {
    var n := Lead(text);
    var k := LastBlankLine(full);
    var gone := full[..|full| - RemainderLength(full)];
    assert n < |gone| by {
      if '\n' in text[..n] {
        BytesOfPrefix(text, n, n);
        if 0 <= k <= n {
          BytesOfPrefix(text, k, n);
          assert full[..k] == text[..k];
        }
      } else {
        assert forall i :: 0 <= i < n ==> text[i] == text[..n][i];
        assert text[|full| - 1] == '\n';
      }
    }
    assert gone[n] == text[n];
    InkAt(gone, n);
  }

  lemma {:induction false} LongFillLoses(buf: string, lines: seq<string>, section: string, text: string)
    requires text == buf + Terminated(lines) && lines != [] && |text| >= TARGET_RUNES && EarlyInk(text)
    ensures !OnlyBlanksDropped(Fill(buf, lines, section))
    decreases |lines|
  {
    hide RemainderLength, EarlyInk, Blank;
    var full := buf + lines[0] + "\n";
    assert full + Terminated(lines[1..]) == text;
    if |full| >= TARGET_RUNES {
      FirstDropHasInk(full, text);
      assert Fill(buf, lines, section)[0] == Dropped(full[..|full| - RemainderLength(full)]);
    } else {
      assert Terminated(lines[1..]) != "";
      LongFillLoses(full, lines[1..], section, text);
    }
  }

  lemma {:induction false} BlankPieces(ps: seq<Piece>)
    requires Blank(RawAll(ps))
    ensures OnlyBlanksDropped(ps)
  {
    hide Raw;
    if ps != [] {
      InkConcat(Raw(ps[0]), RawAll(ps[1..]));
      BlankPieces(ps[1..]);
      assert ps[0].Dropped? ==> Raw(ps[0]) == ps[0].text by { RawOfDropped(ps[0]); }
      OnlyBlanksCons(ps);
    }
  }

  lemma RawOfDropped(p: Piece)
    ensures p.Dropped? ==> Raw(p) == p.text
  {
  }

  lemma NoDropIsBlank(ps: seq<Piece>)
    requires !HasDrop(ps)
    ensures OnlyBlanksDropped(ps)
  {
  }

  /** Nothing but blanks is dropped from a block exactly when it is short or blank. */
  lemma BlockLoses(b: Block, section: string)
    requires b.TextBlock? && !ShortBlock(b) && !Blank(BlockText(b)) ==> EarlyInk(BlockText(b))
    ensures OnlyBlanksDropped(BlockPieces(b, section)) <==> ShortBlock(b) || (b.TextBlock? && Blank(BlockText(b)))
  {
    hide Fill, EarlyInk, Blank, OnlyBlanksDropped;
    if b.TableBlock? {
      NoDropIsBlank(BlockPieces(b, section));
    } else {
      var buf := Terminated(b.heading);
      FillDrops(buf, b.body, section);
      FillCovers(buf, b.body, section);
      if ShortBlock(b) {
        NoDropIsBlank(Fill(buf, b.body, section));
      } else if Blank(BlockText(b)) {
        BlankPieces(Fill(buf, b.body, section));
      } else {
        LongFillLoses(buf, b.body, section, BlockText(b));
      }
    }
  }

  lemma OnlyBlanksConcat(a: seq<Piece>, b: seq<Piece>)
    ensures OnlyBlanksDropped(a + b) <==> OnlyBlanksDropped(a) && OnlyBlanksDropped(b)
  {
    var c := a + b;
    assert forall k :: 0 <= k < |a| ==> c[k] == a[k];
    assert forall k :: 0 <= k < |b| ==> c[|a| + k] == b[k];
  }

  /** The first ink of every long text block without a heading comes early. */
  ghost predicate OrdinaryStarts(bs: seq<Block>) {
    forall b :: 0 <= b < |bs| && bs[b].TextBlock? && bs[b].heading == [] && !ShortBlock(bs[b]) && !Blank(BlockText(bs[b]))
      ==> EarlyInk(BlockText(bs[b]))
  }

  ghost predicate NoLongText(bs: seq<Block>, i: nat) {
    forall b :: i <= b < |bs| ==> ShortBlock(bs[b]) || Blank(BlockText(bs[b]))
  }

  lemma {:induction false} LeadOfSpaces(s: string, i: nat)
    requires i < |s| && !IsSpace(s[i]) && forall j :: 0 <= j < i ==> s[j] == ' '
    ensures Lead(s) == i
  {
    if i > 0 {
      LeadOfSpaces(s[1..], i - 1);
    }
  }

  lemma {:induction false} HashAfterSpaces(s: string) returns (i: nat)
    requires Hashes(TrimLeftOf(s, ' ')) > 0
    ensures i < |s| && s[i] == '#' && forall j :: 0 <= j < i ==> s[j] == ' '
  {
    if s[0] == ' ' {
      i := HashAfterSpaces(s[1..]);
      i := i + 1;
    } else {
      i := 0;
    }
  }

  /** Under a heading the first line always has ink. */
  lemma HeadingHasEarlyInk(b: Block)
    requires b.TextBlock? && b.heading != [] && DepthOf(b.heading[0]) >= 1
    ensures EarlyInk(BlockText(b))
  {
    var line := b.heading[0];
    var i := HashAfterSpaces(line);
    var text := BlockText(b);
    assert Terminated(b.heading) == line + "\n" + Terminated(b.heading[1..]);
    assert line <= text;
    LeadOfSpaces(text, i);
  }

  lemma BlockOfDocLoses(bs: seq<Block>, i: nat)
    requires BlocksOk(bs) && OrdinaryStarts(bs) && i < |bs|
    ensures OnlyBlanksDropped(BlockPieces(bs[i], SectionOf(bs, i))) <==> ShortBlock(bs[i]) || Blank(BlockText(bs[i]))
  {
    var b := bs[i];
    if b.TextBlock? && b.heading != [] {
      HeadingHasEarlyInk(b);
    }
    hide BlockPieces, ShortBlock, OnlyBlanksDropped, EarlyInk, Blank, BlockText, SectionOf, DepthOf;
    BlockLoses(b, SectionOf(bs, i));
    TablesAreShort(b);
  }

  lemma {:induction false} DocLoses(bs: seq<Block>, i: nat)
    requires BlocksOk(bs) && OrdinaryStarts(bs) && i <= |bs|
    ensures OnlyBlanksDropped(PiecesFrom(bs, i)) <==> NoLongText(bs, i)
    decreases |bs| - i
  {
    hide BlockPieces, ShortBlock, OnlyBlanksDropped, OrdinaryStarts, Blank, BlockText, SectionOf, BlocksOk;
    if i == |bs| {
      BlankPiecesNone();
    } else {
      DocLoses(bs, i + 1);
      OnlyBlanksConcat(BlockPieces(bs[i], SectionOf(bs, i)), PiecesFrom(bs, i + 1));
      BlockOfDocLoses(bs, i);
    }
  }

  lemma BlankPiecesNone()
    ensures OnlyBlanksDropped([])
  {
  }

  lemma TablesAreShort(b: Block)
    ensures b.TableBlock? ==> ShortBlock(b)
  {
  }

  /** Losslessness read off the document: with no oversized table, and with the first ink of long
      headless blocks coming early, the chunks carry all non-white characters of the document, in
      order, if and only if no text block with ink reaches the target size. */
  lemma LosslessExactly(md: string)
    requires SmallTables(Doc(md)) && OrdinaryStarts(Blocks(Lines(md)))
    ensures InkOf(EmitAll(Doc(md))) == Ink(md) <==> NoLongText(Blocks(Lines(md)), 0)
  {
    hide *;
    BlocksAreOk(Lines(md));
    Lossless(md);
    DocLoses(Blocks(Lines(md)), 0);
    assert Doc(md) == PiecesFrom(Blocks(Lines(md)), 0) by { DocIsPieces(md); }
  }

  lemma DocIsPieces(md: string)
    ensures BlocksOk(Blocks(Lines(md))) && Doc(md) == PiecesFrom(Blocks(Lines(md)), 0)
  {
    BlocksAreOk(Lines(md));
  }

  // ------------------------------------------------------------------ late ink

  lemma {:induction false} TwoLines(a: string, b: string)
    requires '\n' !in a && '\n' !in b
    ensures Lines(a + "\n" + b) == [a, b]
  {
    var md := a + "\n" + b;
    if a == "" {
      assert md[1..] == b;
      OneLine(b);
    } else {
      assert md[1..] == a[1..] + "\n" + b;
      TwoLines(a[1..], b);
      assert [a[0]] + a[1..] == a;
    }
  }

  lemma TwoLineFill(pad: string, line: string, section: string)
    requires '\n' !in pad && |pad| >= TARGET_RUNES - 1 && |line| < TARGET_RUNES - 1
    ensures Fill("", [pad, line], section) == [Dropped(pad + "\n"), Kept(line + "\n", section)]
  {
    hide LastBlankLine, ByteLength;
    var full := "" + pad + "\n";
    assert full == pad + "\n";
    NoBlankLine(full);
    assert Remainder(full) == "" && [pad, line][1..] == [line] && [line][1..] == [];
    assert full[..|full|] == full;
    assert "" + line + "\n" == line + "\n";
    assert Fill(line + "\n", [], section) == [Kept(line + "\n", section)];
    assert Fill("", [line], section) == [Kept(line + "\n", section)];
  }

  lemma PadIsBlank(pad: string)
    requires Blank(pad)
    ensures Blank(pad + "\n")
  {
    InkNewline(pad);
  }

  lemma TwoLineDoc(pad: string, line: string)
    requires '\n' !in pad && '\n' !in line && IsText(pad) && IsText(line)
    requires |pad| >= TARGET_RUNES - 1 && |line| < TARGET_RUNES - 1
    ensures var md := pad + "\n" + line;
      && Blocks(Lines(md)) == [TextBlock([], [pad, line])]
      && exists section :: Doc(md) == [Dropped(pad + "\n"), Kept(line + "\n", section)]
  {
    hide Fill, IsText, Stack, TrailText;
    var md := pad + "\n" + line;
    TwoLines(pad, line);
    var lines := [pad, line];
    assert lines[1..] == [line] && [line][1..] == [];
    assert TextSpan([line]) == 1 && TextSpan(lines) == 2 && lines[..2] == lines && lines[2..] == [];
    var b := TextBlock([], lines);
    assert Blocks(lines) == [b];
    DocIsPieces(md);
    var section := SectionOf([b], 0);
    TwoLineFill(pad, line, section);
    assert PiecesFrom([b], 0) == Fill("", lines, section) + [];
  }

  lemma DropThenKept(gone: string, text: string, section: string)
    requires Blank(gone)
    ensures var ps := [Dropped(gone), Kept(text, section)]; SmallTables(ps) && OnlyBlanksDropped(ps)
  {
  }

  lemma LongBlockAt(bs: seq<Block>)
    requires bs != [] && !ShortBlock(bs[0]) && !Blank(BlockText(bs[0]))
    ensures !NoLongText(bs, 0)
  {
  }

  lemma TwoLineBlock(pad: string, line: string)
    requires |pad| >= TARGET_RUNES - 1 && !Blank(line)
    ensures var b := TextBlock([], [pad, line]); !ShortBlock(b) && !Blank(BlockText(b))
  {
    hide Blank;
    var b := TextBlock([], [pad, line]);
    assert Terminated([pad, line]) == pad + "\n" + Terminated([pad, line][1..]);
    assert Terminated([line]) == line + "\n" + Terminated([line][1..]);
    assert BlockText(b) == (pad + "\n") + (line + "\n");
    BehindBlank(pad + "\n", line + "\n");
    BehindBlank(line, "\n");
  }

  lemma BehindBlank(front: string, text: string)
    ensures Blank(front + text) <==> Blank(front) && Blank(text)
  {
    InkConcat(front, text);
  }

  /** The condition on the first ink is needed: a long line of white space is dropped without loss,
      and the line behind it is kept, although the block they form is long. */
  lemma LateInkSurvives(pad: string, line: string)
    requires '\n' !in pad && '\n' !in line && IsText(pad) && IsText(line)
    requires |pad| >= TARGET_RUNES - 1 && |line| < TARGET_RUNES - 1 && Blank(pad) && !Blank(line)
    ensures var md := pad + "\n" + line;
      InkOf(EmitAll(Doc(md))) == Ink(md) && !NoLongText(Blocks(Lines(md)), 0)
  {
    var md := pad + "\n" + line;
    TwoLineDoc(pad, line);
    PadIsBlank(pad);
    TwoLineBlock(pad, line);
    var section :| Doc(md) == [Dropped(pad + "\n"), Kept(line + "\n", section)];
    DropThenKept(pad + "\n", line + "\n", section);
    hide *;
    Lossless(md);
    LongBlockAt(Blocks(Lines(md)));
  }
}
