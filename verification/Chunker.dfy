/**
 The markdown chunker. `Doc` says what it does in two stages, first cutting the lines into
 blocks and then each block into pieces; the streaming method `ChunkMarkdown`, one pass with a
 buffer, is proved to emit exactly those pieces.
 */
module Chunker {
  import opened Text
  import opened Outlines
  import opened TableSplit

  // ------------------------------------------------------------------ reading a line

  predicate OpensTable(line: string) { "<table" <= Trim(Lower(line)) }

  predicate ClosesTable(line: string) { Contains(Lower(line), "</table>") }

  function TrimLeftOf(s: string, c: char): string {
    if s != "" && s[0] == c then TrimLeftOf(s[1..], c) else s
  }

  /** The number of leading `#`. */
  function Hashes(s: string): nat {
    if s != "" && s[0] == '#' then 1 + Hashes(s[1..]) else 0
  }

  lemma {:induction false} HashesAre(s: string)
    ensures Hashes(s) <= |s| && (forall i :: 0 <= i < Hashes(s) ==> s[i] == '#') && (Hashes(s) < |s| ==> s[Hashes(s)] != '#')
  {
    if s != "" && s[0] == '#' {
      HashesAre(s[1..]);
    }
  }

  /** 1 to 6 for a heading line: after leading spaces, that many `#` and then a space. */
  function DepthOf(line: string): (d: nat)
    ensures d <= 6
  {
    var t := TrimLeftOf(line, ' ');
    var d := Hashes(t);
    if 1 <= d <= 6 && d < |t| && t[d] == ' ' then d else 0
  }

  method HeadingDepth(line: string) returns (d: nat)
    ensures d == DepthOf(line)
  {
    var t := TrimLeftOf(line, ' ');
    HashesAre(t);
    if !("#" <= t) {
      assert Hashes(t) == 0;
      return 0;
    }
    d := 0;
    while d < |t| && t[d] == '#'
      invariant d <= Hashes(t)
    {
      d := d + 1;
    }
    if d <= 6 && |t| > d && t[d] == ' ' {
      return d;
    }
    d := 0;
  }

  /** The title of a heading line. Leading spaces keep the `#` signs in it. */
  function TitleOf(line: string): string {
    Trim(TrimLeftOf(line, '#'))
  }

  function HeadingOf(line: string): Heading {
    Heading(DepthOf(line), TitleOf(line))
  }

  predicate IsText(line: string) { !OpensTable(line) && DepthOf(line) == 0 }

  // ------------------------------------------------------------------ blocks and pieces

  /** A run of text lines with the heading that starts it, if any; or the lines of a table. */
  datatype Block = TextBlock(heading: seq<string>, body: seq<string>) | TableBlock(rows: seq<string>)

  function TextSpan(lines: seq<string>): (n: nat)
    ensures n <= |lines| && (n < |lines| ==> !IsText(lines[n]))
  {
    if lines != [] && IsText(lines[0]) then 1 + TextSpan(lines[1..]) else 0
  }

  /** A table runs to the first line with a closing tag, or to the end of the document. */
  function TableSpan(lines: seq<string>): (n: nat)
    ensures n <= |lines| && (lines != [] ==> n > 0)
  {
    if lines == [] then 0 else if ClosesTable(lines[0]) then 1 else 1 + TableSpan(lines[1..])
  }

  /** A document is a text block, possibly empty, and then a block for each heading, with the text
      up to the next boundary, and for each table, with a possibly empty text block after it. */
  function Blocks(lines: seq<string>): seq<Block>
    decreases |lines|, 1
  {
    var n := TextSpan(lines);
    [TextBlock([], lines[..n])] + Sections(lines[n..])
  }

  function Sections(lines: seq<string>): seq<Block>
    requires lines == [] || !IsText(lines[0])
    decreases |lines|, 0
  {
    if lines == [] then []
    else if OpensTable(lines[0]) then
      var n := TableSpan(lines);
      [TableBlock(lines[..n])] + Blocks(lines[n..])
    else
      var n := TextSpan(lines[1..]) + 1;
      [TextBlock(lines[..1], lines[1..n])] + Sections(lines[n..])
  }

  function BlockText(b: Block): string {
    if b.TableBlock? then Terminated(b.rows) else Terminated(b.heading) + Terminated(b.body)
  }

  /** `Kept` text becomes a chunk unless it is blank; `Dropped` text is discarded when the buffer
      is reset at its target size; a `Table` becomes one or more chunks. */
  datatype Piece =
    | Kept(text: string, section: string)
    | Dropped(text: string)
    | Table(rows: seq<string>, section: string)

  function Raw(p: Piece): string {
    if p.Table? then Terminated(p.rows) else p.text
  }

  function RawAll(ps: seq<Piece>): string {
    if ps == [] then "" else Raw(ps[0]) + RawAll(ps[1..])
  }

  /** The rune index of the last empty line's first newline, or -1. */
  function LastBlankLine(s: string): (k: int)
    ensures k == -1 || (0 <= k <= |s| - 2 && s[k] == s[k + 1] == '\n')
  {
    if |s| < 2 then -1
    else if s[|s| - 2] == '\n' && s[|s| - 1] == '\n' then |s| - 2
    else LastBlankLine(s[..|s| - 1])
  }

  /** What stays in the buffer when it has reached its target size: the text from the last empty
      line on, if that line starts, in bytes, past half the number of runes; nothing otherwise. */
  function Remainder(s: string): string {
    s[|s| - RemainderLength(s)..]
  }

  function RemainderLength(s: string): (n: nat)
    ensures n <= |s| && (s != "" ==> n < |s|)
  {
    var k := LastBlankLine(s);
    if k >= 0 && ByteLength(s[..k]) > |s| / 2 then |s| - (k + 1) else 0
  }

  /** The pieces of a text block whose lines arrive with `buf` already buffered. */
  function Fill(buf: string, lines: seq<string>, section: string): seq<Piece>
    decreases |lines|
  {
    if lines == [] then [Kept(buf, section)]
    else
      var full := buf + lines[0] + "\n";
      if |full| >= TARGET_RUNES then
        var rest := Remainder(full);
        [Dropped(full[..|full| - |rest|])] + Fill(rest, lines[1..], section)
      else Fill(full, lines[1..], section)
  }

  function BlockPieces(b: Block, section: string): seq<Piece> {
    if b.TableBlock? then [Table(b.rows, section)] else Fill(Terminated(b.heading), b.body, section)
  }

  function BlockHeadings(b: Block): seq<Heading> {
    if b.TextBlock? && b.heading != [] then [HeadingOf(b.heading[0])] else []
  }

  function Headings(bs: seq<Block>): seq<Heading> {
    if bs == [] then [] else Headings(bs[..|bs| - 1]) + BlockHeadings(bs[|bs| - 1])
  }

  ghost predicate BlocksOk(bs: seq<Block>) {
    forall i :: 0 <= i < |bs| && bs[i].TextBlock? && bs[i].heading != [] ==> DepthOf(bs[i].heading[0]) >= 1
  }

  lemma {:induction false} HeadingsOk(bs: seq<Block>)
    requires BlocksOk(bs)
    ensures DepthsOk(Headings(bs))
  {
    if bs != [] {
      HeadingsOk(bs[..|bs| - 1]);
    }
  }

  lemma {:induction false} BlocksAreOk(lines: seq<string>)
    ensures BlocksOk(Blocks(lines))
    decreases |lines|, 1
  {
    SectionsAreOk(lines[TextSpan(lines)..]);
  }

  lemma {:induction false} SectionsAreOk(lines: seq<string>)
    requires lines == [] || !IsText(lines[0])
    ensures BlocksOk(Sections(lines))
    decreases |lines|, 0
  {
    if lines != [] {
      if OpensTable(lines[0]) {
        BlocksAreOk(lines[TableSpan(lines)..]);
      } else {
        SectionsAreOk(lines[TextSpan(lines[1..]) + 1..]);
      }
    }
  }

  /** The heading trail in force in block `i`: that of every heading up to and including its own. */
  ghost function SectionOf(bs: seq<Block>, i: nat): string
    requires BlocksOk(bs) && i < |bs|
  {
    HeadingsOk(bs[..i + 1]);
    TrailText(Titles(Stack(Headings(bs[..i + 1]))))
  }

  ghost function PiecesFrom(bs: seq<Block>, i: nat): seq<Piece>
    requires BlocksOk(bs) && i <= |bs|
    decreases |bs| - i
  {
    if i == |bs| then [] else BlockPieces(bs[i], SectionOf(bs, i)) + PiecesFrom(bs, i + 1)
  }

  /** The pieces of a document, in order. */
  ghost function Doc(md: string): seq<Piece> {
    BlocksAreOk(Lines(md));
    PiecesFrom(Blocks(Lines(md)), 0)
  }

  // ------------------------------------------------------------------ partition

  lemma {:induction false} RawConcat(a: seq<Piece>, b: seq<Piece>)
    ensures RawAll(a + b) == RawAll(a) + RawAll(b)
  {
    hide Raw;
    if a == [] {
      assert a + b == b;
    } else {
      RawConcat(a[1..], b);
      Cons(a, b);
      Assoc(Raw(a[0]), RawAll(a[1..]), RawAll(b));
    }
  }

  lemma RawCons(p: Piece, rest: seq<Piece>)
    ensures RawAll([p] + rest) == Raw(p) + RawAll(rest) && RawAll([]) == ""
  {
    assert ([p] + rest)[1..] == rest;
  }

  lemma TerminatedCons(buf: string, lines: seq<string>)
    requires lines != []
    ensures buf + lines[0] + "\n" + Terminated(lines[1..]) == buf + Terminated(lines)
  {
    Assoc(buf + lines[0], "\n", Terminated(lines[1..]));
    Assoc(buf, lines[0], "\n" + Terminated(lines[1..]));
    Assoc(lines[0], "\n", Terminated(lines[1..]));
  }

  lemma {:induction false} FillCovers(buf: string, lines: seq<string>, section: string)
    ensures RawAll(Fill(buf, lines, section)) == buf + Terminated(lines)
    decreases |lines|
  {
    hide RawAll, RemainderLength;
    if lines == [] {
      RawCons(Kept(buf, section), []);
      assert [Kept(buf, section)] + [] == [Kept(buf, section)];
    } else {
      hide Terminated;
      var full := buf + lines[0] + "\n";
      TerminatedCons(buf, lines);
      if |full| >= TARGET_RUNES {
        var rest := Remainder(full);
        var gone := full[..|full| - |rest|];
        FillCovers(rest, lines[1..], section);
        RawCons(Dropped(gone), Fill(rest, lines[1..], section));
        assert full == gone + rest;
        Assoc(gone, rest, Terminated(lines[1..]));
      } else {
        FillCovers(full, lines[1..], section);
      }
    }
  }

  function BlockTexts(bs: seq<Block>): string {
    if bs == [] then "" else BlockText(bs[0]) + BlockTexts(bs[1..])
  }

  lemma BlockTextsCons(b: Block, later: seq<Block>)
    ensures BlockTexts([b] + later) == BlockText(b) + BlockTexts(later)
  {
    assert ([b] + later)[1..] == later;
  }

  lemma CutLines(lines: seq<string>, n: nat)
    requires n <= |lines|
    ensures Terminated(lines) == Terminated(lines[..n]) + Terminated(lines[n..])
  {
    assert lines == lines[..n] + lines[n..];
    TerminatedConcat(lines[..n], lines[n..]);
  }

  lemma {:induction false} BlocksCover(lines: seq<string>)
    ensures BlockTexts(Blocks(lines)) == Terminated(lines)
    decreases |lines|, 1
  {
    var n := TextSpan(lines);
    SectionsCover(lines[n..]);
    BlockTextsCons(TextBlock([], lines[..n]), Sections(lines[n..]));
    CutLines(lines, n);
    assert BlockText(TextBlock([], lines[..n])) == Terminated(lines[..n]);
  }

  lemma {:induction false} SectionsCover(lines: seq<string>)
    requires lines == [] || !IsText(lines[0])
    ensures BlockTexts(Sections(lines)) == Terminated(lines)
    decreases |lines|, 0
  {
    if lines != [] {
      if OpensTable(lines[0]) {
        var n := TableSpan(lines);
        BlocksCover(lines[n..]);
        BlockTextsCons(TableBlock(lines[..n]), Blocks(lines[n..]));
        CutLines(lines, n);
      } else {
        var n := TextSpan(lines[1..]) + 1;
        SectionsCover(lines[n..]);
        BlockTextsCons(TextBlock(lines[..1], lines[1..n]), Sections(lines[n..]));
        CutLines(lines, n);
        CutLines(lines[..n], 1);
        assert lines[..n][..1] == lines[..1] && lines[..n][1..] == lines[1..n];
      }
    }
  }

  lemma {:induction false} PiecesCover(bs: seq<Block>, i: nat)
    requires BlocksOk(bs) && i <= |bs|
    ensures RawAll(PiecesFrom(bs, i)) == BlockTexts(bs[i..])
    decreases |bs| - i
  {
    if i < |bs| {
      PiecesCover(bs, i + 1);
      assert bs[i..][1..] == bs[i + 1..];
      var own := BlockPieces(bs[i], SectionOf(bs, i));
      RawConcat(own, PiecesFrom(bs, i + 1));
      if bs[i].TextBlock? {
        FillCovers(Terminated(bs[i].heading), bs[i].body, SectionOf(bs, i));
      } else {
        assert RawAll(own) == Terminated(bs[i].rows) + RawAll([]);
      }
    }
  }

  /** The raw texts of the pieces, in order, are the newline-terminated source: the pieces cut it
      into contiguous slices that are disjoint, in source order, and leave nothing out. */
  lemma PiecesPartitionSource(md: string)
    ensures RawAll(Doc(md)) == md + "\n"
  {
    var lines := Lines(md);
    BlocksAreOk(lines);
    PiecesCover(Blocks(lines), 0);
    assert Blocks(lines)[0..] == Blocks(lines);
    BlocksCover(lines);
    LinesRoundTrip(md);
  }

  // ------------------------------------------------------------------ chunks

  function Emit(p: Piece): seq<Chunk> {
    match p
    case Kept(text, section) => if Trim(text) == "" then [] else [Chunk(section, Trim(text))]
    case Dropped(_) => []
    case Table(rows, section) => SplitOf(rows, section)
  }

  function EmitAll(ps: seq<Piece>): seq<Chunk> {
    if ps == [] then [] else Emit(ps[0]) + EmitAll(ps[1..])
  }

  lemma {:induction false} EmitConcat(a: seq<Piece>, b: seq<Piece>)
    ensures EmitAll(a + b) == EmitAll(a) + EmitAll(b)
  {
    hide Emit;
    if a == [] {
      assert a + b == b;
    } else {
      EmitConcat(a[1..], b);
      Cons(a, b);
      Assoc(Emit(a[0]), EmitAll(a[1..]), EmitAll(b));
    }
  }

  lemma EmitSnoc(ps: seq<Piece>, p: Piece)
    ensures EmitAll(ps + [p]) == EmitAll(ps) + Emit(p)
  {
    hide Emit;
    EmitConcat(ps, [p]);
    assert [p][1..] == [];
  }

  ghost function Trail(done: seq<Heading>): string
    requires DepthsOk(done)
  {
    TrailText(Titles(Stack(done)))
  }

  /** The pieces to come with `buf` already buffered, and those to come at a boundary, with the
      headings `done` behind the scan. */
  ghost function Pending(buf: string, lines: seq<string>, done: seq<Heading>): seq<Piece>
    requires DepthsOk(done)
    decreases |lines|, 1
  {
    var n := TextSpan(lines);
    Fill(buf, lines[..n], Trail(done)) + Rest(lines[n..], done)
  }

  ghost function Rest(lines: seq<string>, done: seq<Heading>): seq<Piece>
    requires DepthsOk(done) && (lines == [] || !IsText(lines[0]))
    decreases |lines|, 0
  {
    if lines == [] then []
    else if OpensTable(lines[0]) then
      var n := TableSpan(lines);
      [Table(lines[..n], Trail(done))] + Pending("", lines[n..], done)
    else Pending(lines[0] + "\n", lines[1..], done + [HeadingOf(lines[0])])
  }

  /** Everything produced so far and everything pending is the whole. */
  ghost predicate OnTrack(whole: seq<Piece>, ps: seq<Piece>, buf: string, lines: seq<string>, done: seq<Heading>) {
    DepthsOk(done) && ps + Pending(buf, lines, done) == whole
  }

  /** At a boundary the buffer is flushed. */
  lemma FlushAtBoundary(whole: seq<Piece>, ps: seq<Piece>, buf: string, lines: seq<string>, done: seq<Heading>)
    requires OnTrack(whole, ps, buf, lines, done) && (lines == [] || !IsText(lines[0]))
    ensures ps + [Kept(buf, Trail(done))] + Rest(lines, done) == whole
  {
    hide Trail, Rest;
    assert TextSpan(lines) == 0 && lines[..0] == [] && lines[0..] == lines;
    Assoc(ps, [Kept(buf, Trail(done))], Rest(lines, done));
  }

  lemma TrackTable(whole: seq<Piece>, ps: seq<Piece>, buf: string, lines: seq<string>, done: seq<Heading>)
    requires OnTrack(whole, ps, buf, lines, done) && lines != [] && OpensTable(lines[0])
    ensures var n := TableSpan(lines);
      OnTrack(whole, ps + [Kept(buf, Trail(done))] + [Table(lines[..n], Trail(done))], "", lines[n..], done)
  {
    hide Fill, Pending, Trail;
    var n := TableSpan(lines);
    FlushAtBoundary(whole, ps, buf, lines, done);
    Assoc(ps + [Kept(buf, Trail(done))], [Table(lines[..n], Trail(done))], Pending("", lines[n..], done));
  }

  lemma TrackHeading(whole: seq<Piece>, ps: seq<Piece>, buf: string, lines: seq<string>, done: seq<Heading>)
    requires OnTrack(whole, ps, buf, lines, done) && lines != [] && !OpensTable(lines[0]) && DepthOf(lines[0]) > 0
    ensures OnTrack(whole, ps + [Kept(buf, Trail(done))], lines[0] + "\n", lines[1..], done + [HeadingOf(lines[0])])
  {
    hide Fill, Pending, Trail;
    FlushAtBoundary(whole, ps, buf, lines, done);
  }

  /** A text line is buffered; at the target size the part before the remainder is dropped. */
  lemma TrackText(whole: seq<Piece>, ps: seq<Piece>, buf: string, lines: seq<string>, done: seq<Heading>)
    requires OnTrack(whole, ps, buf, lines, done) && lines != [] && IsText(lines[0])
    ensures var full := buf + lines[0] + "\n";
      if |full| >= TARGET_RUNES
      then OnTrack(whole, ps + [Dropped(full[..|full| - RemainderLength(full)])], Remainder(full), lines[1..], done)
      else OnTrack(whole, ps, full, lines[1..], done)
  {
    hide Trail, Rest, RemainderLength;
    var n := TextSpan(lines[1..]);
    assert lines[..n + 1][0] == lines[0] && lines[..n + 1][1..] == lines[1..][..n] && lines[n + 1..] == lines[1..][n..];
    var full := buf + lines[0] + "\n";
    if |full| >= TARGET_RUNES {
      var gone := [Dropped(full[..|full| - RemainderLength(full)])];
      var later := Fill(Remainder(full), lines[1..][..n], Trail(done));
      var rest := Rest(lines[n + 1..], done);
      assert Pending(buf, lines, done) == (gone + later) + rest;
      Assoc(gone, later, rest);
      Assoc(ps, gone, later + rest);
    }
  }

  /** Emits the buffer as a chunk unless it is blank. */
  method Flush(buf: string, section: string) returns (out: seq<Chunk>)
    ensures out == Emit(Kept(buf, section))
  {
    var s := Trim(buf);
    out := if s != "" then [Chunk(section, s)] else [];
  }

  /** Collects a table from its opening line to its closing one, or to the end. */
  method TakeTable(lines: seq<string>, start: nat) returns (rows: seq<string>, next: nat)
    requires start < |lines|
    ensures start < next <= |lines| && next == start + TableSpan(lines[start..]) && rows == lines[start..next]
  {
    rows, next := [], start;
    var closed := false;
    while next < |lines| && !closed
      invariant start <= next <= |lines| && rows == lines[start..next]
      invariant next - start + (if closed then 0 else TableSpan(lines[next..])) == TableSpan(lines[start..])
      decreases |lines| - next
    {
      assert lines[next..][0] == lines[next] && lines[next..][1..] == lines[next + 1..];
      rows := rows + [lines[next]];
      closed := ClosesTable(lines[next]);
      next := next + 1;
    }
    assert lines[|lines|..] == [];
  }

  /** The streaming scan keeps the titles of the trail and its text. */
  ghost predicate TrailKept(headings: seq<string>, section: string, done: seq<Heading>) {
    DepthsOk(done) && headings == Titles(Stack(done)) && section == Trail(done)
  }

  lemma TrailStart()
    ensures TrailKept([], "", [])
  {
  }

  lemma PushTitle(done: seq<Heading>, line: string)
    requires DepthsOk(done) && DepthOf(line) > 0
    ensures DepthsOk(done + [HeadingOf(line)])
    ensures var ts := Titles(Stack(done));
      Titles(Stack(done + [HeadingOf(line)])) == ts[..Min(DepthOf(line) - 1, |ts|)] + [TitleOf(line)]
  {
    assert (done + [HeadingOf(line)])[..|done|] == done;
  }

  /** The scan is on track and `out` is what its pieces so far emit. */
  ghost predicate Scan(whole: seq<Piece>, out: seq<Chunk>, ps: seq<Piece>, buf: string, lines: seq<string>, done: seq<Heading>) {
    OnTrack(whole, ps, buf, lines, done) && out == EmitAll(ps)
  }

  lemma ScanTable(whole: seq<Piece>, out: seq<Chunk>, ps: seq<Piece>, buf: string, lines: seq<string>, done: seq<Heading>)
    returns (ps': seq<Piece>)
    requires Scan(whole, out, ps, buf, lines, done) && lines != [] && OpensTable(lines[0])
    ensures var n := TableSpan(lines);
      Scan(whole, out + Emit(Kept(buf, Trail(done))) + SplitOf(lines[..n], Trail(done)), ps', "", lines[n..], done)
  {
    var kept, table := Kept(buf, Trail(done)), Table(lines[..TableSpan(lines)], Trail(done));
    hide Fill, Rest, Pending, Trail, EmitAll, SplitOf;
    TrackTable(whole, ps, buf, lines, done);
    EmitSnoc(ps, kept);
    EmitSnoc(ps + [kept], table);
    ps' := ps + [kept] + [table];
  }

  lemma ScanHeading(whole: seq<Piece>, out: seq<Chunk>, ps: seq<Piece>, buf: string, lines: seq<string>, done: seq<Heading>)
    returns (ps': seq<Piece>)
    requires Scan(whole, out, ps, buf, lines, done) && lines != [] && !OpensTable(lines[0]) && DepthOf(lines[0]) > 0
    ensures Scan(whole, out + Emit(Kept(buf, Trail(done))), ps', lines[0] + "\n", lines[1..], done + [HeadingOf(lines[0])])
  {
    hide Fill, Rest, Pending, Trail, EmitAll;
    TrackHeading(whole, ps, buf, lines, done);
    EmitSnoc(ps, Kept(buf, Trail(done)));
    ps' := ps + [Kept(buf, Trail(done))];
  }

  lemma ScanText(whole: seq<Piece>, out: seq<Chunk>, ps: seq<Piece>, buf: string, lines: seq<string>, done: seq<Heading>)
    returns (ps': seq<Piece>)
    requires Scan(whole, out, ps, buf, lines, done) && lines != [] && IsText(lines[0])
    ensures var full := buf + lines[0] + "\n";
      Scan(whole, out, ps', if |full| >= TARGET_RUNES then Remainder(full) else full, lines[1..], done)
  {
    hide Emit, Fill, Rest, Pending, Trail, EmitAll;
    var full := buf + lines[0] + "\n";
    TrackText(whole, ps, buf, lines, done);
    ps' := ps;
    if |full| >= TARGET_RUNES {
      var gone := full[..|full| - RemainderLength(full)];
      EmitDropped(ps, gone);
      ps' := ps + [Dropped(gone)];
    }
  }

  lemma ScanEnd(whole: seq<Piece>, out: seq<Chunk>, ps: seq<Piece>, buf: string, done: seq<Heading>)
    requires Scan(whole, out, ps, buf, [], done)
    ensures EmitAll(whole) == out + Emit(Kept(buf, Trail(done)))
  {
    hide Emit, Fill, Rest, Pending, Trail;
    FlushAtBoundary(whole, ps, buf, [], done);
    RestOfNothing(done);
    assert whole == ps + [Kept(buf, Trail(done))];
    EmitSnoc(ps, Kept(buf, Trail(done)));
  }

  lemma RestOfNothing(done: seq<Heading>)
    requires DepthsOk(done)
    ensures Rest([], done) == []
  {
  }

  lemma EmitDropped(ps: seq<Piece>, text: string)
    ensures EmitAll(ps + [Dropped(text)]) == EmitAll(ps)
  {
    EmitSnoc(ps, Dropped(text));
  }

  lemma ScanStart(lines: seq<string>)
    ensures Scan(Pending("", lines, []), [], [], "", lines, [])
  {
    hide Fill, Rest, Pending, Emit;
    assert [] + Pending("", lines, []) == Pending("", lines, []);
  }

  /** The chunker: one pass over the lines with a buffer, the heading trail and the section under
      which the buffer will be emitted. */
  method ChunkLines(lines: seq<string>) returns (out: seq<Chunk>)
    ensures out == EmitAll(Pending("", lines, []))
  {
    hide EmitAll, Emit, SplitOf, Fill, Rest, Pending, TrailText, Scan;
    out := [];
    var headings: seq<string> := [];
    var buf, bufSection := "", "";
    ghost var whole := Pending("", lines, []);
    ghost var ps: seq<Piece> := [];
    ghost var done: seq<Heading> := [];
    var i := 0;
    ScanStart(lines);
    assert TrailKept(headings, bufSection, done) by {
      TrailStart();
    }
    assert lines[0..] == lines;
    while i < |lines|
      invariant i <= |lines| && TrailKept(headings, bufSection, done)
      invariant Scan(whole, out, ps, buf, lines[i..], done)
    {
      ghost var ahead := lines[i..];
      assert ahead[0] == lines[i] && ahead[1..] == lines[i + 1..];
      if OpensTable(lines[i]) {
        ps := ScanTable(whole, out, ps, buf, ahead, done);
        var flushed := Flush(buf, bufSection);
        var rows, next := TakeTable(lines, i);
        assert rows == ahead[..TableSpan(ahead)] && lines[next..] == ahead[TableSpan(ahead)..];
        var parts := SplitTable(rows, TrailText(headings));
        out := out + flushed + parts;
        buf, i := "", next;
      } else {
        var depth := HeadingDepth(lines[i]);
        if depth > 0 {
          ps := ScanHeading(whole, out, ps, buf, ahead, done);
          PushTitle(done, lines[i]);
          done := done + [HeadingOf(lines[i])];
          var flushed := Flush(buf, bufSection);
          out := out + flushed;
          headings := headings[..Min(depth - 1, |headings|)] + [TitleOf(lines[i])];
          bufSection := TrailText(headings);
          buf := lines[i] + "\n";
        } else {
          ps := ScanText(whole, out, ps, buf, ahead, done);
          buf := buf + lines[i] + "\n";
          if |buf| >= TARGET_RUNES {
            buf := Remainder(buf);
          }
        }
        i := i + 1;
      }
    }
    assert lines[|lines|..] == [];
    ScanEnd(whole, out, ps, buf, done);
    var last := Flush(buf, bufSection);
    out := out + last;
  }
}
