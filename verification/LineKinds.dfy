/** How the chunker reads a line and cuts a document into blocks, said character by character. */
module LineKinds {
  import opened Text
  import opened TableSplit
  import opened Outlines
  import opened Chunker

  // ------------------------------------------------------------------ lines

  /** `n` spaces, `d` hashes and a space, and then anything. */
  ghost predicate HeadingAt(line: string, n: nat, d: nat) {
    && n + d < |line| && line[n + d] == ' '
    && (forall i :: 0 <= i < n ==> line[i] == ' ') && (forall i :: n <= i < n + d ==> line[i] == '#')
  }

  lemma {:induction false} TrimLeftOfExactly(s: string, c: char) returns (n: nat)
    ensures n <= |s| && TrimLeftOf(s, c) == s[n..] && (forall i :: 0 <= i < n ==> s[i] == c) && (n < |s| ==> s[n] != c)
  {
    n := 0;
    if s != "" && s[0] == c {
      n := TrimLeftOfExactly(s[1..], c);
      assert s[1..][n..] == s[n + 1..];
      assert n < |s| - 1 ==> s[1..][n] == s[n + 1];
      n := n + 1;
    }
  }

  /** A heading of depth one to six is exactly that many hashes and a space, behind spaces. */
  lemma DepthExactly(line: string, d: nat)
    ensures d >= 1 ==> (DepthOf(line) == d <==> d <= 6 && exists n: nat :: HeadingAt(line, n, d))
    ensures DepthOf(line) == 0 <==> forall n: nat, k: nat :: 1 <= k <= 6 ==> !HeadingAt(line, n, k)
  {
    var m := TrimLeftOfExactly(line, ' ');
    var t := TrimLeftOf(line, ' ');
    var h := Hashes(t);
    HashesAre(t);
    hide Hashes;
    assert forall i :: 0 <= i < |t| ==> t[i] == line[m + i];
    forall n: nat, k: nat | k >= 1 && HeadingAt(line, n, k) ensures n == m && k == h {
      assert line[n] == '#';
      assert n == m;
      assert t[k] == ' ';
    }
    if h >= 1 && h < |t| && t[h] == ' ' {
      assert HeadingAt(line, m, h);
    }
  }

  /** The title is the line without the hashes it starts with, trimmed; leading spaces keep them. */
  lemma TitleExactly(line: string) returns (n: nat)
    ensures n <= |line| && TitleOf(line) == Trim(line[n..])
    ensures (forall i :: 0 <= i < n ==> line[i] == '#') && (n < |line| ==> line[n] != '#')
  {
    n := TrimLeftOfExactly(line, '#');
  }

  /** Tables start and end with their tags, in any case. */
  lemma TagsExactly(line: string)
    ensures OpensTable(line) <==> StandsAt(Trim(Lower(line)), "<table", 0)
    ensures ClosesTable(line) <==> Occurs(Lower(line), "</table>")
  {
    ContainsExactly(Lower(line), "</table>");
    StandsFirst(Trim(Lower(line)), "<table");
  }

  /** The trail is written with " > " between its titles. */
  lemma {:induction false} TrailGrows(ts: seq<string>, t: string)
    ensures TrailText(ts + [t]) == if ts == [] then t else TrailText(ts) + " > " + t
  {
    if ts == [] {
      assert ts + [t] == [t];
    } else {
      assert (ts + [t])[1..] == ts[1..] + [t];
      TrailGrows(ts[1..], t);
      if |ts| > 1 {
        var rest := TrailText(ts[1..]);
        assert ts[0] + " > " + (rest + " > " + t) == ts[0] + " > " + rest + " > " + t;
      } else {
        assert ts[1..] == [];
      }
    }
  }

  // ------------------------------------------------------------------ blocks

  ghost predicate PlainText(line: string) {
    !OpensTable(line) && forall n: nat, k: nat :: 1 <= k <= 6 ==> !HeadingAt(line, n, k)
  }

  /** A text block is a heading or none and then lines that are neither heading nor table; a table
      block starts with a line that opens a table and is closed by its last line, if by any. */
  ghost predicate WellCut(b: Block) {
    match b
    case TextBlock(heading, body) =>
      && |heading| <= 1
      && (heading != [] ==> !OpensTable(heading[0]) && exists n: nat, k: nat :: 1 <= k <= 6 && HeadingAt(heading[0], n, k))
      && forall i :: 0 <= i < |body| ==> PlainText(body[i])
    case TableBlock(rows) =>
      && rows != [] && OpensTable(rows[0])
      && forall i :: 0 <= i < |rows| - 1 ==> !ClosesTable(rows[i])
  }

  lemma TextIsPlain(line: string)
    ensures IsText(line) <==> PlainText(line)
    ensures DepthOf(line) > 0 <==> exists n: nat, k: nat :: 1 <= k <= 6 && HeadingAt(line, n, k)
  {
    DepthExactly(line, 1);
  }

  lemma {:induction false} SpanIsText(lines: seq<string>)
    ensures forall i :: 0 <= i < TextSpan(lines) ==> IsText(lines[i])
  {
    hide IsText;
    if lines != [] && IsText(lines[0]) {
      SpanIsText(lines[1..]);
      assert forall i :: 1 <= i < TextSpan(lines) ==> lines[i] == lines[1..][i - 1];
    }
  }

  lemma {:induction false} SpanIsTable(lines: seq<string>)
    ensures forall i :: 0 <= i < TableSpan(lines) - 1 ==> !ClosesTable(lines[i])
    ensures TableSpan(lines) < |lines| ==> TableSpan(lines) > 0 && ClosesTable(lines[TableSpan(lines) - 1])
  {
    hide ClosesTable;
    if lines != [] && !ClosesTable(lines[0]) {
      SpanIsTable(lines[1..]);
      var n := TableSpan(lines[1..]);
      assert forall i :: 1 <= i < n + 1 ==> lines[i] == lines[1..][i - 1];
    }
  }

  lemma TextBlockIsWell(heading: seq<string>, body: seq<string>)
    requires |heading| <= 1 && (heading != [] ==> !OpensTable(heading[0]) && DepthOf(heading[0]) > 0)
    requires forall i :: 0 <= i < |body| ==> IsText(body[i])
    ensures WellCut(TextBlock(heading, body))
  {
    hide IsText, OpensTable, HeadingAt, DepthOf, PlainText;
    forall i | 0 <= i < |body| ensures PlainText(body[i]) {
      TextIsPlain(body[i]);
    }
    if heading != [] {
      TextIsPlain(heading[0]);
    }
  }

  ghost predicate AllWell(bs: seq<Block>) {
    forall i :: 0 <= i < |bs| ==> WellCut(bs[i])
  }

  lemma AllWellCons(b: Block, bs: seq<Block>)
    requires WellCut(b) && AllWell(bs)
    ensures AllWell([b] + bs)
  {
    hide WellCut;
  }

  /** Every document is cut into such blocks. */
  lemma {:induction false} BlocksAreWell(lines: seq<string>)
    ensures AllWell(Blocks(lines))
    decreases |lines|, 1
  {
    hide WellCut, IsText, AllWell;
    var n := TextSpan(lines);
    SpanIsText(lines);
    TextBlockIsWell([], lines[..n]);
    SectionsAreWell(lines[n..]);
    AllWellCons(TextBlock([], lines[..n]), Sections(lines[n..]));
  }

  lemma {:induction false} SectionsAreWell(lines: seq<string>)
    requires lines == [] || !IsText(lines[0])
    ensures AllWell(Sections(lines))
    decreases |lines|, 0
  {
    hide WellCut;
    if lines != [] {
      hide AllWell;
      if OpensTable(lines[0]) {
        var n := TableSpan(lines);
        BlocksAreWell(lines[n..]);
        TableIsWell(lines);
        AllWellCons(TableBlock(lines[..n]), Blocks(lines[n..]));
      } else {
        var n := TextSpan(lines[1..]) + 1;
        SpanIsText(lines[1..]);
        assert forall i :: 0 <= i < n - 1 ==> lines[1..n][i] == lines[1..][i];
        TextBlockIsWell(lines[..1], lines[1..n]);
        SectionsAreWell(lines[n..]);
        AllWellCons(TextBlock(lines[..1], lines[1..n]), Sections(lines[n..]));
      }
    }
  }

  lemma TableIsWell(lines: seq<string>)
    requires lines != [] && OpensTable(lines[0])
    ensures WellCut(TableBlock(lines[..TableSpan(lines)]))
  {
    hide ClosesTable, OpensTable;
    SpanIsTable(lines);
  }
}
