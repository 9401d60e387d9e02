/** Splitting an HTML table into chunks: whole when small, else by rows with the header repeated. */
module TableSplit {
  import opened Text

  const TARGET_RUNES := 700
  const MAX_RUNES := 1500

  datatype Chunk = Chunk(section: string, text: string)

  predicate ClosesRow(line: string) { Contains(Lower(line), "</tr>") }

  /** The lines up to and including the first that closes a row; none when no line does. */
  function HeaderLength(lines: seq<string>): (n: nat)
    ensures n <= |lines| && (n > 0 ==> ClosesRow(lines[n - 1]) && forall i :: 0 <= i < n - 1 ==> !ClosesRow(lines[i]))
    ensures n == 0 ==> forall i :: 0 <= i < |lines| ==> !ClosesRow(lines[i])
  {
    if lines == [] then 0
    else if ClosesRow(lines[0]) then 1
    else
      var n := HeaderLength(lines[1..]);
      if n == 0 then 0 else n + 1
  }

  function Header(lines: seq<string>): string {
    Join(lines[..HeaderLength(lines)], "\n")
  }

  function Body(lines: seq<string>): seq<string> {
    lines[HeaderLength(lines)..]
  }

  function PartText(header: string, part: seq<string>): string {
    header + "\n" + Terminated(part)
  }

  /** The body cut into parts: a part ends at the first line that closes a row once header and
      part together have reached the target; a blank remainder is no part. */
  function Parts(body: seq<string>, header: string, cur: seq<string>): seq<seq<string>>
    decreases |body|
  {
    if body == [] then
      if Blank(Terminated(cur)) then [] else [cur]
    else
      var grown := cur + [body[0]];
      if ClosesRow(body[0]) && |PartText(header, grown)| >= TARGET_RUNES
      then [grown] + Parts(body[1..], header, [])
      else Parts(body[1..], header, grown)
  }

  function PartChunks(parts: seq<seq<string>>, header: string, section: string): seq<Chunk> {
    seq(|parts|, i requires 0 <= i < |parts| => Chunk(section, Trim(PartText(header, parts[i]))))
  }

  /** A line closes a row if the closing tag stands in it in any case. */
  lemma ClosesRowExactly(line: string)
    ensures ClosesRow(line) <==> Occurs(Lower(line), "</tr>")
  {
    ContainsExactly(Lower(line), "</tr>");
  }

  predicate Oversized(lines: seq<string>) {
    |Concat(lines)| > MAX_RUNES
  }

  function SplitOf(lines: seq<string>, section: string): seq<Chunk> {
    if !Oversized(lines) then [Chunk(section, Trim(Join(lines, "\n")))]
    else PartChunks(Parts(Body(lines), Header(lines), []), Header(lines), section)
  }

  /** The loop: one pass over the lines with the part under construction in a buffer. */
  method SplitTable(lines: seq<string>, section: string) returns (out: seq<Chunk>)
    ensures out == SplitOf(lines, section)
  {
    hide ClosesRow, Trim, Blank, Concat, Join;
    if |Concat(lines)| <= MAX_RUNES {
      return [Chunk(section, Trim(Join(lines, "\n")))];
    }
    assert Join([], "\n") == "" by {
      JoinNothing();
    }
    var header, body := "", lines;
    var n := HeaderLength(lines);
    if n > 0 {
      header, body := Join(lines[..n], "\n"), lines[n..];
    }
    assert header == Header(lines) && body == Body(lines);
    out := [];
    var part := header + "\n";
    ghost var cur: seq<string> := [];
    ghost var done: seq<seq<string>> := [];
    assert part == PartText(header, cur);
    assert body[0..] == body && done + Parts(body, header, cur) == Parts(body, header, []);
    assert PartChunks(done, header, section) == [];
    hide HeaderLength, Header, Body, Parts, PartChunks, PartText, SplitOf, Oversized;
    for i := 0 to |body|
      invariant part == PartText(header, cur)
      invariant out == PartChunks(done, header, section)
      invariant done + Parts(body[i..], header, cur) == Parts(body, header, [])
    {
      PartGrows(header, cur, body[i]);
      PartsStep(body, i, header, cur, done);
      cur := cur + [body[i]];
      part := part + body[i] + "\n";
      if ClosesRow(body[i]) && |part| >= TARGET_RUNES {
        ChunksSnoc(done, cur, header, section);
        out := out + [Chunk(section, Trim(part))];
        done := done + [cur];
        part := header + "\n";
        EmptyPart(header);
        cur := [];
      }
    }
    assert body[|body|..] == [];
    LeftOver(header, cur);
    PartsEnd(header, cur);
    if Trim(part[|header|..]) != "" {
      ChunksSnoc(done, cur, header, section);
      out := out + [Chunk(section, Trim(part))];
    } else {
      assert done + [] == done;
    }
    OversizedSplit(lines, section);
  }

  lemma OversizedSplit(lines: seq<string>, section: string)
    ensures Oversized(lines) ==>
      SplitOf(lines, section) == PartChunks(Parts(Body(lines), Header(lines), []), Header(lines), section)
    ensures Oversized(lines) <==> |Concat(lines)| > MAX_RUNES
  {
  }

  lemma EmptyPart(header: string)
    ensures header + "\n" == PartText(header, [])
  {
  }

  lemma ChunksSnoc(done: seq<seq<string>>, p: seq<string>, header: string, section: string)
    ensures PartChunks(done + [p], header, section)
      == PartChunks(done, header, section) + [Chunk(section, Trim(PartText(header, p)))]
  {
    hide Trim, PartText;
  }

  lemma PartsStep(body: seq<string>, i: nat, header: string, cur: seq<string>, done: seq<seq<string>>)
    requires i < |body|
    ensures var grown := cur + [body[i]];
      done + Parts(body[i..], header, cur) ==
        if ClosesRow(body[i]) && |PartText(header, grown)| >= TARGET_RUNES
        then (done + [grown]) + Parts(body[i + 1..], header, [])
        else done + Parts(body[i + 1..], header, grown)
  {
    hide ClosesRow, PartText;
    assert body[i..][0] == body[i] && body[i..][1..] == body[i + 1..];
    Assoc(done, [cur + [body[i]]], Parts(body[i + 1..], header, []));
  }

  lemma PartsEnd(header: string, cur: seq<string>)
    ensures Parts([], header, cur) == if Blank(Terminated(cur)) then [] else [cur]
  {
  }

  lemma JoinNothing()
    ensures Join([], "\n") == ""
  {
  }

  lemma PartGrows(header: string, cur: seq<string>, line: string)
    ensures PartText(header, cur) + line + "\n" == PartText(header, cur + [line])
  {
    TerminatedConcat(cur, [line]);
    assert Terminated([line]) == line + "\n" + Terminated([]);
  }

  /** What the part holds beyond the header is blank exactly when its lines are. */
  lemma LeftOver(header: string, cur: seq<string>)
    ensures header <= PartText(header, cur)
    ensures Trim(PartText(header, cur)[|header|..]) == "" <==> Blank(Terminated(cur))
  {
    assert PartText(header, cur) == header + ("\n" + Terminated(cur));
    InkConcat("\n", Terminated(cur));
    assert "\n"[1..] == "" && Ink("\n") == Ink("");
    TrimKeepsInk("\n" + Terminated(cur));
  }

  // ------------------------------------------------------------------ rows are conserved

  function Flatten(parts: seq<seq<string>>): seq<string> {
    if parts == [] then [] else parts[0] + Flatten(parts[1..])
  }

  lemma FlattenCons(p: seq<string>, rest: seq<seq<string>>)
    ensures Flatten([p] + rest) == p + Flatten(rest)
  {
    assert ([p] + rest)[1..] == rest;
  }

  /** The parts, joined, are all the lines up to a blank remainder; none is blank, and each but
      the last ends with a line that closes a row and has reached the target size. */
  ghost predicate Conserves(ps: seq<seq<string>>, header: string, all: seq<string>) {
    && Flatten(ps) <= all
    && Blank(Terminated(all[|Flatten(ps)|..]))
    && (forall i :: 0 <= i < |ps| ==> ps[i] != [] && !Blank(Terminated(ps[i])))
    && (forall i :: 0 <= i < |ps| - 1 ==> FullPart(header, ps[i]))
  }

  predicate FullPart(header: string, part: seq<string>) {
    part != [] && ClosesRow(part[|part| - 1]) && |PartText(header, part)| >= TARGET_RUNES
  }

  lemma ConservesCons(p: seq<string>, rest: seq<seq<string>>, header: string, later: seq<string>)
    requires Conserves(rest, header, later) && FullPart(header, p) && !Blank(Terminated(p))
    ensures Conserves([p] + rest, header, p + later)
  {
    hide Flatten, Terminated, Blank;
    FlattenCons(p, rest);
    var n := |Flatten(rest)|;
    assert (p + later)[|p| + n..] == later[n..];
  }

  lemma {:induction false} PartsConserve(body: seq<string>, header: string, cur: seq<string>)
    ensures Conserves(Parts(body, header, cur), header, cur + body)
    decreases |body|
  {
    if body == [] {
      assert cur + body == cur;
      if Parts(body, header, cur) != [] {
        FlattenCons(cur, []);
        assert Terminated(cur[|cur|..]) == "";
        assert cur != [];
      }
    } else {
      var grown, later := cur + [body[0]], body[1..];
      assert cur + body == grown + later;
      if ClosesRow(body[0]) && |PartText(header, grown)| >= TARGET_RUNES {
        PartsConserve(later, header, []);
        assert [] + later == later;
        RowHasInk(cur, body[0]);
        ConservesCons(grown, Parts(later, header, []), header, later);
      } else {
        PartsConserve(later, header, grown);
      }
    }
  }

  lemma RowHasInk(before: seq<string>, row: string)
    requires ClosesRow(row)
    ensures !Blank(row) && !Blank(Terminated(before + [row]))
  {
    assert !Blank("</tr>");
    ContainsInk(Lower(row), "</tr>");
    LowerInk(row);
    TerminatedConcat(before, [row]);
    InkConcat(Terminated(before), Terminated([row]));
    assert Terminated([row]) == row + "\n" + Terminated([]);
    assert row + "\n" + Terminated([]) == row + ("\n" + Terminated([]));
    InkConcat(row, "\n" + Terminated([]));
  }

  lemma {:induction false} HeaderHasInk(lines: seq<string>)
    requires HeaderLength(lines) > 0
    ensures !Blank(Header(lines))
  {
    var n := HeaderLength(lines);
    RowHasInk(lines[..n - 1], lines[n - 1]);
    assert lines[..n] == lines[..n - 1] + [lines[n - 1]];
    InkTerminated(lines[..n]);
  }

  /** An oversized table with a first row conserves its rows. Each chunk is the header followed by
      one part, whitespace at the two ends aside; the parts make up the lines after the header,
      up to blank ones at the end; and only the last part may end inside a row. */
  lemma RowsConserved(lines: seq<string>, section: string)
    requires Oversized(lines) && HeaderLength(lines) > 0
    ensures var out, header := SplitOf(lines, section), Header(lines);
      var ps := Parts(Body(lines), header, []);
      && |out| == |ps|
      && Conserves(ps, header, Body(lines)) && CutEarly(ps, header)
      && (forall i :: 0 <= i < |ps| ==>
           out[i].text == TrimLeft(header) + "\n" + TrimRight(Terminated(ps[i])) && out[i].section == section)
  {
    hide ClosesRow, Blank, Trim, TrimLeft, TrimRight, Header;
    var header, body := Header(lines), Body(lines);
    var ps := Parts(body, header, []);
    PartsConserve(body, header, []);
    PartsCutEarly(body, header, []);
    assert [] + body == body;
    HeaderHasInk(lines);
    forall i | 0 <= i < |ps|
      ensures Trim(PartText(header, ps[i])) == TrimLeft(header) + "\n" + TrimRight(Terminated(ps[i]))
    {
      TrimPart(header, Terminated(ps[i]));
    }
  }

  lemma TrimPart(header: string, rows: string)
    requires !Blank(header) && !Blank(rows)
    ensures Trim(header + "\n" + rows) == TrimLeft(header) + "\n" + TrimRight(rows)
  {
    assert header + "\n" + rows == header + ("\n" + rows);
    TrimLeftPrefix(header, "\n" + rows);
    assert TrimLeft(header) + ("\n" + rows) == (TrimLeft(header) + "\n") + rows;
    TrimRightPrefix(TrimLeft(header) + "\n", rows);
  }

  lemma {:induction false} NoRowClosesNoPart(body: seq<string>, header: string, cur: seq<string>)
    requires forall i :: 0 <= i < |body| ==> !ClosesRow(body[i])
    ensures Parts(body, header, cur) == if Blank(Terminated(cur + body)) then [] else [cur + body]
    decreases |body|
  {
    hide Blank;
    if body == [] {
      assert cur + body == cur;
    } else {
      NoRowClosesNoPart(body[1..], header, cur + [body[0]]);
      assert cur + [body[0]] + body[1..] == cur + body;
    }
  }

  /** An oversized table in which no line closes a row is not split at all: it stays one chunk,
      whatever its size. */
  lemma UnclosedTableStaysWhole(lines: seq<string>, section: string)
    requires Oversized(lines) && HeaderLength(lines) == 0 && !Blank(Terminated(lines))
    ensures SplitOf(lines, section) == [Chunk(section, Trim("\n" + Terminated(lines)))]
  {
    hide Blank;
    JoinNothing();
    assert Header(lines) == "" && Body(lines) == lines && [] + lines == lines;
    NoRowClosesNoPart(lines, "", []);
    assert PartText("", lines) == "\n" + Terminated(lines);
  }

  /** The first `n` lines fill a part and close a row, and something with ink follows. */
  ghost predicate CutsAt(body: seq<string>, header: string, cur: seq<string>, n: nat) {
    && 0 < n <= |body| && ClosesRow(body[n - 1])
    && |PartText(header, cur + body[..n])| >= 700
    && !Blank(Terminated(body[n..]))
  }

  lemma CutAtOnce(body: seq<string>, header: string, cur: seq<string>)
    requires body != [] && ClosesRow(body[0]) && |PartText(header, cur + [body[0]])| >= TARGET_RUNES
    ensures (exists n: nat :: CutsAt(body, header, cur, n)) <==> !Blank(Terminated(body[1..]))
  {
    hide ClosesRow, Blank;
    assert body[..1] == [body[0]];
    if n: nat :| CutsAt(body, header, cur, n) {
      assert body[1..] == body[1..n] + body[n..];
      TerminatedConcat(body[1..n], body[n..]);
      InkOfBack(Terminated(body[1..n]), Terminated(body[n..]));
    }
    if !Blank(Terminated(body[1..])) {
      assert CutsAt(body, header, cur, 1);
    }
  }

  lemma InkOfBack(front: string, back: string)
    requires !Blank(back)
    ensures !Blank(front + back)
  {
    InkConcat(front, back);
  }

  lemma CutLater(body: seq<string>, header: string, cur: seq<string>)
    requires body != [] && !(ClosesRow(body[0]) && |PartText(header, cur + [body[0]])| >= TARGET_RUNES)
    ensures (exists n: nat :: CutsAt(body, header, cur, n)) <==>
      exists n: nat :: CutsAt(body[1..], header, cur + [body[0]], n)
  {
    hide ClosesRow, Blank, PartText;
    var later, grown := body[1..], cur + [body[0]];
    forall n: nat | 1 <= n <= |later|
      ensures CutsAt(later, header, grown, n) <==> CutsAt(body, header, cur, n + 1)
    {
      assert grown + later[..n] == cur + body[..n + 1] && later[n..] == body[n + 1..];
    }
    if n: nat :| CutsAt(body, header, cur, n) {
      assert body[..1] == [body[0]];
      assert CutsAt(later, header, grown, n - 1);
    }
  }

  lemma {:induction false} SplitsExactly(body: seq<string>, header: string, cur: seq<string>)
    ensures |Parts(body, header, cur)| >= 2 <==> exists n: nat :: CutsAt(body, header, cur, n)
    decreases |body|
  {
    hide ClosesRow, Blank, PartText, CutsAt;
    if body == [] {
      NothingToCut(header, cur);
    } else {
      var grown := cur + [body[0]];
      if ClosesRow(body[0]) && |PartText(header, grown)| >= TARGET_RUNES {
        CutAtOnce(body, header, cur);
        PartsConserve(body[1..], header, []);
        ConservedInk(Parts(body[1..], header, []), header, [] + body[1..]);
        assert [] + body[1..] == body[1..];
      } else {
        CutLater(body, header, cur);
        SplitsExactly(body[1..], header, grown);
      }
    }
  }

  lemma NothingToCut(header: string, cur: seq<string>)
    ensures !exists n: nat :: CutsAt([], header, cur, n)
  {
  }

  /** A table of at most 1500 runes is one chunk, its lines unchanged but for white space at the ends;
      a larger one is split into parts. */
  lemma SmallTablesAreWhole(lines: seq<string>, section: string)
    ensures |Concat(lines)| <= 1500 ==> SplitOf(lines, section) == [Chunk(section, Trim(Join(lines, "\n")))]
    ensures |Concat(lines)| > 1500 <==> Oversized(lines)
  {
  }

  /** No part but the last could have ended earlier: none of its shorter beginnings closes a row at
      the target size. */
  ghost predicate CutEarly(ps: seq<seq<string>>, header: string) {
    forall i, n :: 0 <= i < |ps| && 0 < n < |ps[i]| ==> !FullPart(header, ps[i][..n])
  }

  lemma {:induction false} PartsCutEarly(body: seq<string>, header: string, cur: seq<string>)
    requires forall n :: 0 < n <= |cur| ==> !FullPart(header, cur[..n])
    ensures CutEarly(Parts(body, header, cur), header)
    decreases |body|
  {
    hide FullPart;
    if body != [] {
      var grown, later := cur + [body[0]], body[1..];
      assert forall n :: 0 < n <= |cur| ==> grown[..n] == cur[..n];
      assert grown[..|grown|] == grown;
      GrownIsFull(header, cur, body[0]);
      if FullPart(header, grown) {
        PartsCutEarly(later, header, []);
        var rest := Parts(later, header, []);
        assert forall i :: 0 < i <= |rest| ==> ([grown] + rest)[i] == rest[i - 1];
      } else {
        PartsCutEarly(later, header, grown);
      }
    }
  }

  lemma GrownIsFull(header: string, cur: seq<string>, line: string)
    ensures FullPart(header, cur + [line]) <==> ClosesRow(line) && |PartText(header, cur + [line])| >= TARGET_RUNES
  {
  }

  /** An oversized table is split exactly when some line behind its first row closes a row, with the
      header makes up the target size, and is followed by more than blanks. Otherwise it is one
      chunk of any size, or none. */
  lemma TableIsSplitExactly(lines: seq<string>, section: string)
    requires Oversized(lines)
    ensures |SplitOf(lines, section)| >= 2 <==> exists n: nat :: CutsAt(Body(lines), Header(lines), [], n)
  {
    SplitsExactly(Body(lines), Header(lines), []);
  }

  /** An oversized table yields nothing at all exactly when nothing but blank lines follows its
      first row: the header alone is never emitted. */
  lemma OversizedTableVanishes(lines: seq<string>, section: string)
    requires Oversized(lines)
    ensures SplitOf(lines, section) == [] <==> Blank(Terminated(Body(lines)))
  {
    PartsConserve(Body(lines), Header(lines), []);
    assert [] + Body(lines) == Body(lines);
    ConservedInk(Parts(Body(lines), Header(lines), []), Header(lines), Body(lines));
  }

  lemma ConservedInk(ps: seq<seq<string>>, header: string, all: seq<string>)
    requires Conserves(ps, header, all)
    ensures ps == [] <==> Blank(Terminated(all))
  {
    if ps == [] {
      assert all[0..] == all;
    } else {
      FlattenCons(ps[0], ps[1..]);
      assert ps == [ps[0]] + ps[1..];
      assert all == ps[0] + all[|ps[0]|..];
      InkOfFront(ps[0], all[|ps[0]|..]);
    }
  }

  lemma InkOfFront(front: seq<string>, later: seq<string>)
    requires !Blank(Terminated(front))
    ensures !Blank(Terminated(front + later))
  {
    TerminatedConcat(front, later);
    InkConcat(Terminated(front), Terminated(later));
  }
}
