/**
 What survives when a text block reaches the target size: said about the text itself, by its empty
 lines and its length in bytes.
 */
module Boundary {
  import opened Text
  import opened TableSplit
  import opened Outlines
  import opened Chunker
  import opened ChunkTheorems
  import opened Losslessness

  /** An empty line starts at rune `k` of `s`, and none starts later. */
  ghost predicate LastEmptyLine(s: string, k: int) {
    && 0 <= k < |s| - 1 && s[k] == s[k + 1] == '\n'
    && forall j :: k < j < |s| - 1 ==> s[j] != '\n' || s[j + 1] != '\n'
  }

  /** `t` is what is kept of a full buffer `s`: the text behind its last empty line, if that lies, in
      bytes, beyond half the number of runes; nothing otherwise. */
  ghost predicate Keeps(s: string, t: string) {
    || (exists k :: LastEmptyLine(s, k) && ByteLength(s[..k]) > |s| / 2 && t == s[k + 1..])
    || (t == "" && forall k :: LastEmptyLine(s, k) ==> ByteLength(s[..k]) <= |s| / 2)
  }

  lemma {:induction false} LastBlankLineIsLast(s: string)
    ensures forall k :: LastEmptyLine(s, k) <==> k >= 0 && k == LastBlankLine(s)
  {
    if |s| >= 2 && !(s[|s| - 2] == '\n' && s[|s| - 1] == '\n') {
      var front := s[..|s| - 1];
      LastBlankLineIsLast(front);
      forall k ensures LastEmptyLine(s, k) <==> LastEmptyLine(front, k) {
        if LastEmptyLine(s, k) {
          assert k < |s| - 2;
          assert forall j :: 0 <= j < |front| ==> front[j] == s[j];
        }
        if LastEmptyLine(front, k) {
          forall j | k < j < |s| - 1 ensures s[j] != '\n' || s[j + 1] != '\n' {
            assert j < |front| - 1 ==> front[j] == s[j] && front[j + 1] == s[j + 1];
          }
        }
      }
    } else if |s| >= 2 {
      assert forall k :: LastEmptyLine(s, k) ==> !(k < |s| - 2);
    }
  }

  lemma RemainderIsKept(s: string)
    ensures forall t :: Keeps(s, t) <==> t == Remainder(s)
  {
    hide LastEmptyLine, LastBlankLine, ByteLength;
    LastBlankLineIsLast(s);
    var k := LastBlankLine(s);
    if k >= 0 {
      assert LastEmptyLine(s, k);
    }
  }

  function DroppedOf(full: string, t: string): string {
    if |t| <= |full| then full[..|full| - |t|] else ""
  }

  /** A text line either leaves the buffer below the target size, or what is kept of the buffer is
      determined by its last empty line and the rest of it is dropped. */
  lemma TextLineArrives(buf: string, lines: seq<string>, section: string)
    requires lines != []
    ensures var full := buf + lines[0] + "\n";
      if |full| < 700 then Fill(buf, lines, section) == Fill(full, lines[1..], section)
      else exists t ::
        Keeps(full, t) && full == DroppedOf(full, t) + t
        && Fill(buf, lines, section) == [Dropped(DroppedOf(full, t))] + Fill(t, lines[1..], section)
  {
    hide Keeps, RemainderLength;
    var full := buf + lines[0] + "\n";
    RemainderIsKept(full);
    assert Keeps(full, Remainder(full));
  }

  lemma {:induction false} FillAtLast(buf: string, lines: seq<string>, section: string)
    requires lines != []
    requires |buf + Terminated(lines[..|lines| - 1])| < 700 <= |buf + Terminated(lines)|
    ensures var text := buf + Terminated(lines); exists t ::
      Keeps(text, t) && Fill(buf, lines, section) == [Dropped(DroppedOf(text, t)), Kept(t, section)]
    decreases |lines|
  {
    hide Keeps, Terminated;
    var full, rest := buf + lines[0] + "\n", lines[1..];
    TerminatedCons(buf, lines);
    TextLineArrives(buf, lines, section);
    if rest == [] {
      TerminatedNothing();
      assert full + "" == full;
    } else {
      assert lines[..|lines| - 1][0] == lines[0] && lines[..|lines| - 1][1..] == rest[..|rest| - 1];
      TerminatedCons(buf, lines[..|lines| - 1]);
      FillAtLast(full, rest, section);
    }
  }

  lemma TerminatedNothing()
    ensures Terminated([]) == ""
  {
  }

  /** A text block that reaches the target size with its last line only: what is kept of it becomes
      its chunk, and the rest is lost. */
  lemma BlockAtTarget(b: Block, section: string)
    requires b.TextBlock? && b.body != [] && |BlockText(b)| >= 700
    requires |Terminated(b.heading) + Terminated(b.body[..|b.body| - 1])| < 700
    ensures exists t ::
      Keeps(BlockText(b), t) && EmitAll(BlockPieces(b, section)) == if Blank(t) then [] else [Chunk(section, Trim(t))]
  {
    hide Keeps, Fill, Terminated, Blank, Trim;
    FillAtLast(Terminated(b.heading), b.body, section);
    var t :| Keeps(BlockText(b), t) && Fill(Terminated(b.heading), b.body, section)
      == [Dropped(DroppedOf(BlockText(b), t)), Kept(t, section)];
    EmitTwo(DroppedOf(BlockText(b), t), t, section);
  }

  lemma EmitTwo(gone: string, t: string, section: string)
    ensures EmitAll([Dropped(gone), Kept(t, section)]) == if Blank(t) then [] else [Chunk(section, Trim(t))]
  {
    hide Blank, Trim;
    TrimKeepsInk(t);
    var dropped, kept := Dropped(gone), Kept(t, section);
    EmitSnoc([dropped], kept);
    EmitSnoc([], dropped);
    assert [dropped] + [kept] == [dropped, kept] && [] + [dropped] == [dropped];
  }

  /** A document of text lines only that reaches the target size with its last line: what is kept of
      it is its only chunk, and nothing comes out if that is blank. */
  lemma LastParagraphSurvives(md: string)
    requires var lines := Lines(md);
      && (forall i :: 0 <= i < |lines| ==> IsText(lines[i]))
      && |Terminated(lines[..|lines| - 1])| < 700 <= |md| + 1
    ensures exists t :: Keeps(md + "\n", t) && EmitAll(Doc(md)) == if Blank(t) then [] else [Chunk("", Trim(t))]
  {
    var lines := Lines(md);
    LinesNonEmpty(md);
    LinesRoundTrip(md);
    var b := TextBlock([], lines);
    AllTextIsOneBlock(lines);
    DocIsPieces(md);
    NoTrail(b);
    hide *;
    OnlyPieces(b);
    HeadlessText(lines);
    BlockAtTarget(b, "");
  }

  lemma HeadlessText(lines: seq<string>)
    requires lines != []
    ensures var b := TextBlock([], lines);
      BlockText(b) == Terminated(lines) && Terminated(b.heading) + Terminated(b.body[..|b.body| - 1]) == Terminated(lines[..|lines| - 1])
  {
    TerminatedNothing();
    hide Terminated;
    assert "" + Terminated(lines) == Terminated(lines);
    assert "" + Terminated(lines[..|lines| - 1]) == Terminated(lines[..|lines| - 1]);
  }

  lemma {:induction false} AllText(lines: seq<string>)
    requires forall i :: 0 <= i < |lines| ==> IsText(lines[i])
    ensures TextSpan(lines) == |lines|
  {
    hide IsText;
    if lines != [] {
      AllText(lines[1..]);
    }
  }

  lemma AllTextIsOneBlock(lines: seq<string>)
    requires forall i :: 0 <= i < |lines| ==> IsText(lines[i])
    ensures Blocks(lines) == [TextBlock([], lines)]
  {
    AllText(lines);
    hide IsText;
    assert lines[..|lines|] == lines && lines[|lines|..] == [];
  }

  lemma OnlyPieces(b: Block)
    requires BlocksOk([b]) && b.TextBlock? && b.heading == []
    ensures PiecesFrom([b], 0) == BlockPieces(b, "")
  {
    NoTrail(b);
    hide BlockPieces;
    assert PiecesFrom([b], 1) == [] && BlockPieces(b, "") + [] == BlockPieces(b, "");
  }

  // ------------------------------------------------------------------ two paragraphs

  lemma ThreeLines(p: string, q: string)
    requires '\n' !in p && '\n' !in q
    ensures Lines(p + "\n\n" + q) == [p, "", q]
    decreases |p|
  {
    var md := p + "\n\n" + q;
    if p == "" {
      assert md[1..] == "\n" + q && ("\n" + q)[1..] == q;
      OneLine(q);
    } else {
      assert md[1..] == p[1..] + "\n\n" + q;
      ThreeLines(p[1..], q);
      assert [p[0]] + p[1..] == p;
    }
  }

  lemma ThreeTextLines(p: string, q: string)
    requires IsText(p) && IsText(q)
    ensures Blocks([p, "", q]) == [TextBlock([], [p, "", q])]
  {
    assert IsText("") by { EmptyIsText(); }
    hide IsText;
    var lines := [p, "", q];
    assert lines[1..] == ["", q] && ["", q][1..] == [q] && [q][1..] == [];
    assert TextSpan([q]) == 1 && TextSpan(["", q]) == 2 && TextSpan(lines) == 3;
    assert lines[..3] == lines && lines[3..] == [];
  }

  lemma EmptyIsText()
    ensures IsText("")
  {
    assert Lower("") == "" && Trim("") == "";
  }

  lemma ThreeTerminated(p: string, q: string)
    ensures Terminated([p, "", q]) == p + "\n\n" + q + "\n" && Terminated([p, ""]) == p + "\n\n"
  {
    assert [p, "", q][1..] == ["", q] && ["", q][1..] == [q] && [q][1..] == [];
    assert [p, ""][1..] == [""] && [""][1..] == [];
    assert Terminated([q]) == q + "\n" && Terminated([""]) == "\n";
    assert Terminated(["", q]) == "\n" + q + "\n";
  }

  /** What is kept of two paragraphs. */
  lemma KeptOfTwo(p: string, q: string, t: string)
    requires '\n' !in p && '\n' !in q && q != "" && Keeps(p + "\n\n" + q + "\n", t)
    ensures t == if ByteLength(p) > (|p| + |q| + 3) / 2 then "\n" + q + "\n" else ""
  {
    LastLineOfTwo(p, q);
    PartsOfTwo(p, q);
    hide ByteLength, LastEmptyLine;
    assert LastEmptyLine(p + "\n\n" + q + "\n", |p|);
  }

  lemma PartsOfTwo(p: string, q: string)
    ensures var s := p + "\n\n" + q + "\n"; s[..|p|] == p && s[|p| + 1..] == "\n" + q + "\n" && |s| == |p| + |q| + 3
  {
  }

  lemma LastLineOfTwo(p: string, q: string)
    requires '\n' !in p && '\n' !in q && q != ""
    ensures forall k :: LastEmptyLine(p + "\n\n" + q + "\n", k) <==> k == |p|
  {
    var s, n := p + "\n\n" + q + "\n", |p|;
    assert s[n] == '\n' && s[n + 1] == '\n';
    forall j | n < j < |s| - 1 ensures s[j] != '\n' || s[j + 1] != '\n' {
      assert s[n + 2] == q[0] && q[0] in q;
      assert j >= n + 2 ==> s[j] == q[j - n - 2] && q[j - n - 2] in q;
    }
    assert LastEmptyLine(s, n);
    assert forall k :: 0 <= k < n ==> s[k] == p[k];
  }

  lemma KeptOfBlanks(p: string, t: string)
    requires Keeps(p + "\n\n" + "" + "\n", t)
    ensures Blank(t)
  {
    var s := p + "\n\n" + "" + "\n";
    assert |s| == |p| + 3 && s[|p| + 1] == s[|p| + 2] == '\n';
    assert s[|p| + 2..] == "\n";
    hide ByteLength;
    assert forall k :: LastEmptyLine(s, k) ==> k == |p| + 1;
    assert t == "" || t == "\n";
    InkNewline("");
    assert "" + "\n" == "\n";
  }

  lemma TrimLine(q: string)
    requires !Blank(q)
    ensures Trim("\n" + q + "\n") == Trim(q) && !Blank("\n" + q + "\n")
  {
    assert ("\n" + q + "\n")[1..] == q + "\n";
    TrimLeftPrefix(q, "\n");
    var l := TrimLeft(q);
    assert (l + "\n")[..|l|] == l;
    InkNewline(q);
  }

  lemma NothingIsBlank()
    ensures Blank("")
  {
  }

  lemma BlankLine(q: string)
    requires Blank(q)
    ensures Blank("\n" + q + "\n") && Blank("")
  {
    assert ("\n" + q + "\n")[1..] == q + "\n";
    InkNewline(q);
  }

  /** Two one-line paragraphs that only together reach the target size: the second survives, as the
      only chunk, exactly when the first is longer in bytes than half the whole is in runes. */
  lemma SecondParagraphSurvives(p: string, q: string)
    requires '\n' !in p && '\n' !in q && IsText(p) && IsText(q)
    requires |p| + 2 < 700 <= |p| + |q| + 3
    ensures EmitAll(Doc(p + "\n\n" + q)) ==
      if ByteLength(p) > (|p| + |q| + 3) / 2 && !Blank(q) then [Chunk("", Trim(q))] else []
  {
    var md, b := p + "\n\n" + q, TextBlock([], [p, "", q]);
    ThreeLines(p, q);
    ThreeTextLines(p, q);
    ThreeTerminated(p, q);
    DocIsPieces(md);
    TwoParagraphBlock(p, q);
    OnlyPieces(b);
  }

  lemma NoTrail(b: Block)
    requires BlocksOk([b]) && b.TextBlock? && b.heading == []
    ensures SectionOf([b], 0) == ""
  {
    assert [b][..1] == [b] && [b][..0] == [];
    assert Headings([b]) == [];
  }

  lemma TwoParagraphBlock(p: string, q: string)
    requires '\n' !in p && '\n' !in q && |p| + 2 < 700 <= |p| + |q| + 3
    ensures EmitAll(BlockPieces(TextBlock([], [p, "", q]), "")) ==
      if ByteLength(p) > (|p| + |q| + 3) / 2 && !Blank(q) then [Chunk("", Trim(q))] else []
  {
    hide Fill, Blank, Trim, ByteLength, EmitAll, BlockPieces, Keeps, Terminated;
    var b, text := TextBlock([], [p, "", q]), p + "\n\n" + q + "\n";
    ThreeTerminated(p, q);
    TerminatedNothing();
    assert [p, "", q][..2] == [p, ""];
    assert "" + text == text && "" + (p + "\n\n") == p + "\n\n";
    assert BlockText(b) == text;
    BlockAtTarget(b, "");
    var t :| Keeps(BlockText(b), t) && EmitAll(BlockPieces(b, "")) == if Blank(t) then [] else [Chunk("", Trim(t))];
    ChunkOfKept(p, q, t);
  }

  lemma ChunkOfKept(p: string, q: string, t: string)
    requires '\n' !in p && '\n' !in q && Keeps(p + "\n\n" + q + "\n", t)
    ensures Blank(t) <==> !(ByteLength(p) > (|p| + |q| + 3) / 2 && !Blank(q))
    ensures !Blank(t) ==> Trim(t) == Trim(q)
  {
    hide Blank, Trim, ByteLength, Keeps;
    NothingIsBlank();
    if q == "" {
      KeptOfBlanks(p, t);
    } else {
      KeptOfTwo(p, q, t);
    }
    if Blank(q) { BlankLine(q); } else { TrimLine(q); }
  }
}
