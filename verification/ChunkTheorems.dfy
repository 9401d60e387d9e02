/** What the chunker guarantees about a whole document. */
module ChunkTheorems {
  import opened Text
  import opened TableSplit
  import opened Outlines
  import opened Chunker

  // ------------------------------------------------------------------ streaming equals two-stage

  lemma HeadingsSnoc(bs: seq<Block>, i: nat)
    requires i < |bs|
    ensures Headings(bs[..i + 1]) == Headings(bs[..i]) + BlockHeadings(bs[i])
  {
    assert bs[..i + 1][..i] == bs[..i];
  }

  /** A scan that stands before block `i` produces the pieces of the blocks from there on. */
  lemma {:induction false} PendingIsPieces(bs: seq<Block>, i: nat, buf: string, lines: seq<string>)
    requires BlocksOk(bs) && i < |bs| && bs[i].TextBlock? && buf == Terminated(bs[i].heading)
    requires var n := TextSpan(lines); bs[i].body == lines[..n] && Sections(lines[n..]) == bs[i + 1..]
    ensures DepthsOk(Headings(bs[..i + 1]))
    ensures Pending(buf, lines, Headings(bs[..i + 1])) == PiecesFrom(bs, i)
    decreases |lines|, 1
  {
    HeadingsOk(bs[..i + 1]);
    RestIsPieces(bs, i + 1, lines[TextSpan(lines)..]);
  }

  lemma {:induction false} RestIsPieces(bs: seq<Block>, i: nat, lines: seq<string>)
    requires BlocksOk(bs) && i <= |bs| && (lines == [] || !IsText(lines[0])) && Sections(lines) == bs[i..]
    ensures DepthsOk(Headings(bs[..i])) && Rest(lines, Headings(bs[..i])) == PiecesFrom(bs, i)
    decreases |lines|, 0
  {
    hide Fill, TrailText, Titles, Stack, IsText, OpensTable, TextSpan;
    HeadingsOk(bs[..i]);
    if lines == [] {
      assert i == |bs|;
    } else {
      assert bs[i..] != [] && bs[i..][0] == bs[i] && bs[i..][1..] == bs[i + 1..];
      HeadingsSnoc(bs, i);
      if OpensTable(lines[0]) {
        AfterTable(bs, i, lines);
      } else {
        var n := TextSpan(lines[1..]);
        assert lines[1..][..n] == lines[1..n + 1] && lines[1..][n..] == lines[n + 1..];
        assert Terminated(lines[..1]) == lines[0] + "\n" + Terminated(lines[..1][1..]);
        PendingIsPieces(bs, i, lines[0] + "\n", lines[1..]);
      }
    }
  }

  lemma {:induction false} AfterTable(bs: seq<Block>, i: nat, lines: seq<string>)
    requires BlocksOk(bs) && i < |bs| && lines != [] && OpensTable(lines[0]) && DepthsOk(Headings(bs[..i]))
    requires bs[i] == TableBlock(lines[..TableSpan(lines)]) && Blocks(lines[TableSpan(lines)..]) == bs[i + 1..]
    requires Headings(bs[..i + 1]) == Headings(bs[..i])
    ensures Rest(lines, Headings(bs[..i])) == PiecesFrom(bs, i)
    decreases |lines|, 0, 0
  {
    hide Fill, TrailText, Titles, Stack, Headings;
    var later := lines[TableSpan(lines)..];
    assert bs[i + 1..] != [] && bs[i + 1..][0] == bs[i + 1] && bs[i + 1..][1..] == bs[i + 2..];
    HeadingsSnoc(bs, i + 1);
    assert BlockHeadings(bs[i + 1]) == [];
    assert Headings(bs[..i + 2]) == Headings(bs[..i]);
    PendingIsPieces(bs, i + 1, "", later);
    assert SectionOf(bs, i) == Trail(Headings(bs[..i]));
  }

  /** The streaming chunker emits the pieces of the document. */
  method ChunkMarkdown(md: string) returns (out: seq<Chunk>)
    ensures out == EmitAll(Doc(md))
  {
    out := ChunkLines(Lines(md));
    assert Pending("", Lines(md), []) == Doc(md) by {
      var bs := Blocks(Lines(md));
      BlocksAreOk(Lines(md));
      HeadingsSnoc(bs, 0);
      PendingIsPieces(bs, 0, "", Lines(md));
    }
  }

  // ------------------------------------------------------------------ provenance

  /** The piece that emits chunk `m`. */
  ghost function PieceOf(ps: seq<Piece>, m: nat): (k: nat)
    requires m < |EmitAll(ps)|
    ensures k < |ps|
  {
    if m < |Emit(ps[0])| then 0 else 1 + PieceOf(ps[1..], m - |Emit(ps[0])|)
  }

  /** It emits that chunk at its own place: behind the chunks of all the pieces before it. */
  lemma {:induction false} PieceEmits(ps: seq<Piece>, m: nat)
    requires m < |EmitAll(ps)|
    ensures var k := PieceOf(ps, m); var before := |EmitAll(ps[..k])|;
      before <= m < before + |Emit(ps[k])| && EmitAll(ps)[m] == Emit(ps[k])[m - before]
  {
    hide Emit;
    var own := |Emit(ps[0])|;
    if m < own {
      assert ps[..0] == [];
    } else {
      PieceEmits(ps[1..], m - own);
      var k := PieceOf(ps[1..], m - own);
      assert ps[..k + 1][0] == ps[0] && ps[..k + 1][1..] == ps[1..][..k];
    }
  }

  lemma {:induction false} PiecesInOrder(ps: seq<Piece>, m: nat, n: nat)
    requires m <= n < |EmitAll(ps)|
    ensures PieceOf(ps, m) <= PieceOf(ps, n)
  {
    hide Emit;
    if m >= |Emit(ps[0])| {
      PiecesInOrder(ps[1..], m - |Emit(ps[0])|, n - |Emit(ps[0])|);
    }
  }

  lemma {:induction false} FillSections(buf: string, lines: seq<string>, section: string)
    ensures forall p :: p in Fill(buf, lines, section) ==> p.Dropped? || (p.Kept? && p.section == section)
    decreases |lines|
  {
    if lines != [] {
      var full := buf + lines[0] + "\n";
      FillSections(if |full| >= TARGET_RUNES then Remainder(full) else full, lines[1..], section);
    }
  }

  lemma {:induction false} RawSlice(ps: seq<Piece>, k: nat)
    requires k < |ps|
    ensures |RawAll(ps[..k])| + |Raw(ps[k])| <= |RawAll(ps)|
    ensures Raw(ps[k]) == RawAll(ps)[|RawAll(ps[..k])|..|RawAll(ps[..k])| + |Raw(ps[k])|]
  {
    hide Raw;
    assert ps == ps[..k] + ps[k..];
    RawConcat(ps[..k], ps[k..]);
    assert ps[k..][0] == ps[k];
  }

  /** Chunk `c` comes from the piece `p` that fills `slice`. */
  ghost predicate ComesFrom(c: Chunk, p: Piece, slice: string) {
    match p
    case Kept(text, section) => text == slice && c == Chunk(section, Trim(slice))
    case Dropped(_) => false
    case Table(rows, section) => Terminated(rows) == slice && c in SplitOf(rows, section)
  }

  /** Where piece `k` starts in the source. */
  function StartOf(ps: seq<Piece>, k: nat): nat
    requires k <= |ps|
  {
    |RawAll(ps[..k])|
  }

  lemma {:induction false} StartsGrow(ps: seq<Piece>, k: nat, l: nat)
    requires k < l <= |ps|
    ensures StartOf(ps, k) + |Raw(ps[k])| <= StartOf(ps, l)
  {
    RawSlice(ps[..l], k);
    assert ps[..l][..k] == ps[..k];
  }

  lemma PieceProvenance(ps: seq<Piece>, src: string, m: nat)
    requires RawAll(ps) == src && m < |EmitAll(ps)|
    ensures var k := PieceOf(ps, m); var from := StartOf(ps, k); var to := from + |Raw(ps[k])|;
      to <= |src| && ComesFrom(EmitAll(ps)[m], ps[k], src[from..to])
  {
    hide Emit, EmitAll, ComesFrom, Raw, RawAll;
    PieceEmits(ps, m);
    RawSlice(ps, PieceOf(ps, m));
    EmittedComesFrom(ps[PieceOf(ps, m)], EmitAll(ps)[m]);
  }

  lemma EmittedComesFrom(p: Piece, c: Chunk)
    requires c in Emit(p)
    ensures ComesFrom(c, p, Raw(p))
  {
  }

  /** Provenance of chunk `m`: it comes from one piece, whose raw text is a contiguous slice of the
      newline-terminated source, starting where the pieces before it end. A text chunk is that
      slice trimmed; a table chunk is part of the split of the table that fills the slice. */
  lemma ChunkProvenance(md: string, m: nat)
    requires m < |EmitAll(Doc(md))|
    ensures var ps := Doc(md); var k := PieceOf(ps, m); var from := StartOf(ps, k); var to := from + |Raw(ps[k])|;
      to <= |md| + 1 && ComesFrom(EmitAll(ps)[m], ps[k], (md + "\n")[from..to])
  {
    PiecesPartitionSource(md);
    PieceProvenance(Doc(md), md + "\n", m);
  }

  /** Chunks come in source order: a later one has the same slice, as the parts of a table do, or
      one that starts where the earlier ends or after that. */
  lemma ChunksInSourceOrder(md: string, m: nat, n: nat)
    requires m <= n < |EmitAll(Doc(md))|
    ensures var ps := Doc(md); var k, l := PieceOf(ps, m), PieceOf(ps, n);
      && StartOf(ps, k) <= StartOf(ps, l)
      && (k == l || StartOf(ps, k) + |Raw(ps[k])| <= StartOf(ps, l))
  {
    var ps := Doc(md);
    PiecesInOrder(ps, m, n);
    if PieceOf(ps, m) < PieceOf(ps, n) {
      StartsGrow(ps, PieceOf(ps, m), PieceOf(ps, n));
    }
  }

  lemma SectionOfSplit(rows: seq<string>, section: string, c: Chunk)
    requires c in SplitOf(rows, section)
    ensures c.section == section
  {
  }

  lemma SectionOfBlock(b: Block, section: string, p: Piece, c: Chunk)
    requires p in BlockPieces(b, section) && c in Emit(p)
    ensures c.section == section
  {
    if b.TextBlock? {
      FillSections(Terminated(b.heading), b.body, section);
    } else {
      SectionOfSplit(b.rows, section, c);
    }
  }

  /** The block that piece `k` of the blocks from `i` on belongs to. */
  ghost function BlockOf(bs: seq<Block>, i: nat, k: nat): (b: nat)
    requires BlocksOk(bs) && i <= |bs| && k < |PiecesFrom(bs, i)|
    ensures i <= b < |bs|
    decreases |bs| - i
  {
    var own := |BlockPieces(bs[i], SectionOf(bs, i))|;
    if k < own then i else BlockOf(bs, i + 1, k - own)
  }

  lemma {:induction false} PieceOfBlock(bs: seq<Block>, i: nat, k: nat)
    requires BlocksOk(bs) && i <= |bs| && k < |PiecesFrom(bs, i)|
    ensures var b := BlockOf(bs, i, k); PiecesFrom(bs, i)[k] in BlockPieces(bs[b], SectionOf(bs, b))
    decreases |bs| - i
  {
    hide BlockPieces, SectionOf;
    var own := BlockPieces(bs[i], SectionOf(bs, i));
    if k >= |own| {
      PieceOfBlock(bs, i + 1, k - |own|);
    }
  }

  lemma BlockRaw(b: Block, section: string)
    ensures RawAll(BlockPieces(b, section)) == BlockText(b)
  {
    if b.TextBlock? {
      FillCovers(Terminated(b.heading), b.body, section);
    } else {
      assert [Table(b.rows, section)][1..] == [];
    }
  }

  /** A piece lies within its block: the blocks before end at or before its start, and its own block
      ends at or after its end. */
  lemma {:induction false} PlaceInBlock(bs: seq<Block>, i: nat, k: nat)
    requires BlocksOk(bs) && i <= |bs| && k < |PiecesFrom(bs, i)|
    ensures var ps, b := PiecesFrom(bs, i), BlockOf(bs, i, k);
      |BlockTexts(bs[i..b])| <= StartOf(ps, k) && StartOf(ps, k) + |Raw(ps[k])| <= |BlockTexts(bs[i..b + 1])|
    decreases |bs| - i
  {
    hide BlockPieces, SectionOf, Raw, BlockText, RawAll, BlockTexts, BlocksOk;
    var own, rest := BlockPieces(bs[i], SectionOf(bs, i)), PiecesFrom(bs, i + 1);
    BlockRaw(bs[i], SectionOf(bs, i));
    if k < |own| {
      RawSlice(own, k);
      assert (own + rest)[..k] == own[..k];
      OneBlock(bs, i);
    } else {
      var b := BlockOf(bs, i + 1, k - |own|);
      PlaceInBlock(bs, i + 1, k - |own|);
      assert (own + rest)[..k] == own + rest[..k - |own|];
      RawConcat(own, rest[..k - |own|]);
      assert bs[i..b] == [bs[i]] + bs[i + 1..b] && bs[i..b + 1] == [bs[i]] + bs[i + 1..b + 1];
      BlockTextsCons(bs[i], bs[i + 1..b]);
      BlockTextsCons(bs[i], bs[i + 1..b + 1]);
    }
  }

  lemma OneBlock(bs: seq<Block>, i: nat)
    requires i < |bs|
    ensures BlockTexts(bs[i..i]) == "" && BlockTexts(bs[i..i + 1]) == BlockText(bs[i])
  {
    assert bs[i..i] == [] && bs[i..i + 1] == [bs[i]] && [bs[i]][1..] == [];
  }

  /** The block whose piece emits chunk `m`. */
  ghost function HomeOf(bs: seq<Block>, m: nat): (b: nat)
    requires BlocksOk(bs) && m < |EmitAll(PiecesFrom(bs, 0))|
    ensures b < |bs|
  {
    BlockOf(bs, 0, PieceOf(PiecesFrom(bs, 0), m))
  }

  lemma SectionOfChunk(bs: seq<Block>, m: nat)
    requires BlocksOk(bs) && m < |EmitAll(PiecesFrom(bs, 0))|
    ensures EmitAll(PiecesFrom(bs, 0))[m].section == SectionOf(bs, HomeOf(bs, m))
  {
    hide PiecesFrom, SectionOf, BlockPieces, Emit, EmitAll;
    var ps := PiecesFrom(bs, 0);
    var k, b := PieceOf(ps, m), HomeOf(bs, m);
    PieceEmits(ps, m);
    PieceOfBlock(bs, 0, k);
    SectionOfBlock(bs[b], SectionOf(bs, b), ps[k], EmitAll(ps)[m]);
  }

  lemma PlaceOfChunk(bs: seq<Block>, m: nat)
    requires BlocksOk(bs) && m < |EmitAll(PiecesFrom(bs, 0))|
    ensures var ps, b := PiecesFrom(bs, 0), HomeOf(bs, m); var k := PieceOf(ps, m);
      |BlockTexts(bs[..b])| <= StartOf(ps, k) && StartOf(ps, k) + |Raw(ps[k])| <= |BlockTexts(bs[..b + 1])|
  {
    hide PiecesFrom, EmitAll, BlockTexts, BlocksOk, PieceOf, BlockOf, StartOf, Raw;
    var b := HomeOf(bs, m);
    PlaceInBlock(bs, 0, PieceOf(PiecesFrom(bs, 0), m));
    assert bs[0..b] == bs[..b] && bs[0..b + 1] == bs[..b + 1];
  }

  /** Chunk `m` carries the heading trail in force in the block that the slice of the source it
      comes from lies in. */
  lemma ChunkSections(md: string, m: nat)
    requires m < |EmitAll(Doc(md))|
    ensures BlocksOk(Blocks(Lines(md))) && Doc(md) == PiecesFrom(Blocks(Lines(md)), 0)
    ensures var ps, bs := Doc(md), Blocks(Lines(md)); var k, b := PieceOf(ps, m), HomeOf(bs, m);
      && EmitAll(ps)[m].section == SectionOf(bs, b)
      && |BlockTexts(bs[..b])| <= StartOf(ps, k)
      && StartOf(ps, k) + |Raw(ps[k])| <= |BlockTexts(bs[..b + 1])|
  {
    BlocksAreOk(Lines(md));
    var bs := Blocks(Lines(md));
    assert Doc(md) == PiecesFrom(bs, 0);
    hide *;
    SectionOfChunk(bs, m);
    PlaceOfChunk(bs, m);
  }

  // ------------------------------------------------------------------ losslessness

  function InkOf(cs: seq<Chunk>): string {
    if cs == [] then "" else Ink(cs[0].text) + InkOf(cs[1..])
  }

  lemma {:induction false} InkOfConcat(a: seq<Chunk>, b: seq<Chunk>)
    ensures InkOf(a + b) == InkOf(a) + InkOf(b)
  {
    if a == [] {
      assert a + b == b;
    } else {
      InkOfConcat(a[1..], b);
      Cons(a, b);
      Assoc(Ink(a[0].text), InkOf(a[1..]), InkOf(b));
    }
  }

  lemma InkOfOne(c: Chunk)
    ensures InkOf([c]) == Ink(c.text)
  {
    assert [c][1..] == [];
  }

  ghost predicate SmallTables(ps: seq<Piece>) {
    forall k :: 0 <= k < |ps| && ps[k].Table? ==> !Oversized(ps[k].rows)
  }

  ghost predicate OnlyBlanksDropped(ps: seq<Piece>) {
    forall k :: 0 <= k < |ps| && ps[k].Dropped? ==> Blank(ps[k].text)
  }

  lemma EmitInk(p: Piece)
    requires p.Table? ==> !Oversized(p.rows)
    ensures InkOf(Emit(p)) == if p.Dropped? then "" else Ink(Raw(p))
  {
    match p
    case Kept(text, section) =>
      TrimKeepsInk(text);
      if Trim(text) != "" {
        InkOfOne(Chunk(section, Trim(text)));
      }
    case Dropped(_) =>
    case Table(rows, section) =>
      TrimKeepsInk(Join(rows, "\n"));
      InkTerminated(rows);
      InkOfOne(Chunk(section, Trim(Join(rows, "\n"))));
  }

  lemma SamePrefix(a: string, x: string, y: string)
    ensures a + x == a + y <==> x == y
  {
    if a + x == a + y {
      assert x == (a + x)[|a|..] && y == (a + y)[|a|..];
    }
  }

  lemma OnlyBlanksCons(ps: seq<Piece>)
    requires ps != []
    ensures OnlyBlanksDropped(ps) <==> (ps[0].Dropped? ==> Blank(ps[0].text)) && OnlyBlanksDropped(ps[1..])
  {
    assert forall k :: 0 <= k < |ps| - 1 ==> ps[1..][k] == ps[k + 1];
    if OnlyBlanksDropped(ps[1..]) && (ps[0].Dropped? ==> Blank(ps[0].text)) {
      assert forall k :: 0 < k < |ps| ==> ps[k] == ps[1..][k - 1];
    }
  }

  /** Ink is never invented, and it is all there exactly when only blank text was dropped. */
  lemma {:induction false} EmitAllInk(ps: seq<Piece>)
    requires SmallTables(ps)
    ensures |InkOf(EmitAll(ps))| <= |Ink(RawAll(ps))|
    ensures InkOf(EmitAll(ps)) == Ink(RawAll(ps)) <==> OnlyBlanksDropped(ps)
  {
    if ps != [] {
      var first, later := ps[0], ps[1..];
      EmitAllInk(later);
      EmitInk(first);
      OnlyBlanksCons(ps);
      InkOfConcat(Emit(first), EmitAll(later));
      InkConcat(Raw(first), RawAll(later));
      SamePrefix(Ink(Raw(first)), InkOf(EmitAll(later)), Ink(RawAll(later)));
    }
  }

  /** Losslessness: when no table is oversized, the chunks carry all non-white characters of the
      document, in order, if and only if every piece dropped at the target size was blank. */
  lemma Lossless(md: string)
    requires SmallTables(Doc(md))
    ensures InkOf(EmitAll(Doc(md))) == Ink(md) <==> OnlyBlanksDropped(Doc(md))
  {
    hide *;
    EmitAllInk(Doc(md));
    PiecesPartitionSource(md);
    InkNewline(md);
  }

  /** A text block that never fills the buffer: nothing follows its heading, or all of it stays
      below the target size. */
  predicate ShortBlock(b: Block) {
    b.TextBlock? ==> b.body == [] || |BlockText(b)| < TARGET_RUNES
  }

  ghost predicate HasDrop(ps: seq<Piece>) {
    exists k :: 0 <= k < |ps| && ps[k].Dropped?
  }

  ghost predicate HasLongBlock(bs: seq<Block>, i: nat) {
    exists b :: i <= b < |bs| && !ShortBlock(bs[b])
  }

  lemma HasDropConcat(a: seq<Piece>, b: seq<Piece>)
    ensures HasDrop(a + b) <==> HasDrop(a) || HasDrop(b)
  {
    if k :| 0 <= k < |a| && a[k].Dropped? {
      assert (a + b)[k].Dropped?;
    }
    if k :| 0 <= k < |b| && b[k].Dropped? {
      assert (a + b)[|a| + k].Dropped?;
    }
  }

  lemma {:induction false} FillDrops(buf: string, lines: seq<string>, section: string)
    ensures HasDrop(Fill(buf, lines, section)) <==> lines != [] && |buf + Terminated(lines)| >= TARGET_RUNES
    decreases |lines|
  {
    if lines != [] {
      var full := buf + lines[0] + "\n";
      assert full + Terminated(lines[1..]) == buf + Terminated(lines);
      if |full| >= TARGET_RUNES {
        assert Fill(buf, lines, section)[0].Dropped?;
      } else {
        FillDrops(full, lines[1..], section);
        assert lines[1..] == [] ==> Terminated(lines[1..]) == "";
      }
    }
  }

  lemma BlockDrops(b: Block, section: string)
    ensures HasDrop(BlockPieces(b, section)) <==> !ShortBlock(b)
  {
    hide Fill, Terminated;
    if b.TextBlock? {
      FillDrops(Terminated(b.heading), b.body, section);
    }
  }

  lemma {:induction false} DropsFrom(bs: seq<Block>, i: nat)
    requires BlocksOk(bs) && i <= |bs|
    ensures HasDrop(PiecesFrom(bs, i)) <==> HasLongBlock(bs, i)
    decreases |bs| - i
  {
    hide BlockPieces, SectionOf, ShortBlock, BlocksOk, HasDrop;
    if i == |bs| {
      NoDrops();
    } else {
      DropsFrom(bs, i + 1);
      HasDropConcat(BlockPieces(bs[i], SectionOf(bs, i)), PiecesFrom(bs, i + 1));
      BlockDrops(bs[i], SectionOf(bs, i));
    }
  }

  lemma NoDrops()
    ensures !HasDrop([])
  {
  }

  /** Text is dropped somewhere exactly when some text block reaches the target size. */
  lemma DropsExactlyInLongBlocks(md: string)
    ensures HasDrop(Doc(md)) <==> HasLongBlock(Blocks(Lines(md)), 0)
  {
    BlocksAreOk(Lines(md));
    DropsFrom(Blocks(Lines(md)), 0);
  }

  /** So a document of short text blocks and small tables is chunked without loss. */
  lemma ShortDocumentsAreLossless(md: string)
    requires SmallTables(Doc(md)) && !HasLongBlock(Blocks(Lines(md)), 0)
    ensures InkOf(EmitAll(Doc(md))) == Ink(md)
  {
    DropsExactlyInLongBlocks(md);
    Lossless(md);
  }

  lemma {:induction false} OneLine(s: string)
    requires '\n' !in s
    ensures Lines(s) == [s]
  {
    if s != "" {
      OneLine(s[1..]);
      assert [s[0]] + s[1..] == s;
    }
  }

  /** The documented paragraph boundary is no safeguard: any one-line document of 699 runes or more
      that is neither a heading nor a table yields no chunk at all. */
  lemma LongLineVanishes(md: string)
    requires '\n' !in md && |md| >= TARGET_RUNES - 1 && IsText(md)
    ensures EmitAll(Doc(md)) == []
  {
    OneLine(md);
    OneTextBlock(md);
    BlocksAreOk([md]);
    PiecesOfOneBlock(TextBlock([], [md]));
  }

  lemma OneTextBlock(line: string)
    requires IsText(line)
    ensures Blocks([line]) == [TextBlock([], [line])]
  {
    var lines := [line];
    assert lines[1..] == [] && TextSpan(lines) == 1 && lines[..1] == lines;
  }

  lemma PiecesOfOneBlock(b: Block)
    requires BlocksOk([b]) && b.TextBlock? && b.heading == [] && |b.body| == 1
    requires '\n' !in b.body[0] && |b.body[0]| >= TARGET_RUNES - 1
    ensures EmitAll(PiecesFrom([b], 0)) == []
  {
    var section := SectionOf([b], 0);
    LongLineFill(b.body[0], section);
    assert b.body == [b.body[0]];
    EmitConcat(BlockPieces(b, section), PiecesFrom([b], 1));
  }

  lemma LongLineFill(md: string, section: string)
    requires '\n' !in md && |md| >= TARGET_RUNES - 1
    ensures EmitAll(Fill("", [md], section)) == []
  {
    hide LastBlankLine, ByteLength;
    var full := "" + md + "\n";
    NoBlankLine(full);
    assert Remainder(full) == "" && [md][1..] == [];
    var gone, rest := Dropped(full[..|full|]), Kept("", section);
    assert Fill("", [], section) == [rest];
    assert Fill("", [md], section) == [gone] + [rest];
    EmitSnoc([gone], rest);
    EmitSnoc([], gone);
    assert [] + [gone] == [gone];
  }

  lemma {:induction false} NoBlankLine(s: string)
    requires forall i :: 0 <= i < |s| - 1 ==> s[i] != '\n'
    ensures LastBlankLine(s) == -1
  {
    if |s| >= 2 {
      NoBlankLine(s[..|s| - 1]);
    }
  }
}
