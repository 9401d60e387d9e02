/** The heading trail of the markdown chunker against the outline of open headings. */
module Outlines {
  import opened Text

  datatype Heading = Heading(depth: nat, title: string)

  function Min(a: int, b: int): int { if a < b then a else b }

  /** One heading arrives: the trail is cut to `depth - 1` entries, then extended. */
  function Push(trail: seq<Heading>, h: Heading): seq<Heading>
    requires h.depth >= 1
  {
    trail[..Min(h.depth - 1, |trail|)] + [h]
  }

  ghost predicate DepthsOk(hs: seq<Heading>) {
    forall i :: 0 <= i < |hs| ==> 1 <= hs[i].depth <= 6
  }

  function Stack(hs: seq<Heading>): seq<Heading>
    requires DepthsOk(hs)
  {
    if hs == [] then [] else Push(Stack(hs[..|hs| - 1]), hs[|hs| - 1])
  }

  function Titles(trail: seq<Heading>): seq<string> {
    seq(|trail|, i requires 0 <= i < |trail| => trail[i].title)
  }

  function TrailText(titles: seq<string>): string {
    Join(titles, " > ")
  }

  /** The headings still open after `hs`, outermost first: those with only deeper ones after them. */
  ghost predicate Open(hs: seq<Heading>, i: int) {
    0 <= i < |hs| && forall j :: i < j < |hs| ==> hs[j].depth > hs[i].depth
  }

  function Shallower(trail: seq<Heading>, depth: nat): seq<Heading> {
    if trail == [] then []
    else
      var rest := Shallower(trail[..|trail| - 1], depth);
      if trail[|trail| - 1].depth < depth then rest + [trail[|trail| - 1]] else rest
  }

  function Outline(hs: seq<Heading>): seq<Heading> {
    if hs == [] then [] else Shallower(Outline(hs[..|hs| - 1]), hs[|hs| - 1].depth) + [hs[|hs| - 1]]
  }

  lemma {:induction false} ShallowerMembers(trail: seq<Heading>, depth: nat, h: Heading)
    ensures h in Shallower(trail, depth) <==> h in trail && h.depth < depth
    decreases |trail|
  {
    if trail != [] {
      ShallowerMembers(trail[..|trail| - 1], depth, h);
      assert trail == trail[..|trail| - 1] + [trail[|trail| - 1]];
    }
  }

  lemma OpenBeforeLast(hs: seq<Heading>, i: int)
    requires 0 <= i < |hs| - 1
    ensures Open(hs, i) <==> Open(hs[..|hs| - 1], i) && hs[|hs| - 1].depth > hs[i].depth
  {
    var front := hs[..|hs| - 1];
    if Open(hs, i) {
      assert forall j :: i < j < |front| ==> front[j] == hs[j];
    }
    if Open(front, i) {
      assert forall j :: i < j < |front| ==> hs[j] == front[j];
    }
  }

  /** `Outline` collects exactly the open headings. */
  lemma {:induction false} OutlineIsOpen(hs: seq<Heading>, h: Heading)
    ensures h in Outline(hs) <==> exists i :: Open(hs, i) && hs[i] == h
    decreases |hs|
  {
    hide Shallower;
    if hs != [] {
      var front, last := hs[..|hs| - 1], hs[|hs| - 1];
      OutlineIsOpen(front, h);
      ShallowerMembers(Outline(front), last.depth, h);
      assert Open(hs, |hs| - 1);
      if i :| Open(front, i) && front[i] == h {
        OpenBeforeLast(hs, i);
      }
      if i :| Open(hs, i) && hs[i] == h && i < |hs| - 1 {
        OpenBeforeLast(hs, i);
      }
    }
  }

  ghost predicate Nested(trail: seq<Heading>) {
    && (forall i, j :: 0 <= i < j < |trail| ==> trail[i].depth < trail[j].depth)
    && (forall i :: 0 <= i < |trail| ==> trail[i].depth >= i + 1)
  }

  lemma {:induction false} ShallowerAll(trail: seq<Heading>, depth: nat)
    requires forall i :: 0 <= i < |trail| ==> trail[i].depth < depth
    ensures Shallower(trail, depth) == trail
    decreases |trail|
  {
    if trail != [] {
      ShallowerAll(trail[..|trail| - 1], depth);
    }
  }

  /** On a nested trail, keeping the shallower headings is keeping a prefix. */
  lemma {:induction false} ShallowerOfNested(trail: seq<Heading>, depth: nat, n: nat)
    requires n <= |trail| && forall i :: 0 <= i < n ==> trail[i].depth < depth
    requires forall i :: n <= i < |trail| ==> trail[i].depth >= depth
    ensures Shallower(trail, depth) == trail[..n]
    decreases |trail|
  {
    if n == |trail| {
      ShallowerAll(trail, depth);
      assert trail[..n] == trail;
    } else {
      var front := trail[..|trail| - 1];
      ShallowerOfNested(front, depth, n);
      assert front[..n] == trail[..n];
    }
  }

  lemma {:induction false} OutlineNested(hs: seq<Heading>)
    requires DepthsOk(hs)
    ensures Nested(Outline(hs))
    decreases |hs|
  {
    hide Shallower;
    if hs != [] {
      var front, last := hs[..|hs| - 1], hs[|hs| - 1];
      OutlineNested(front);
      var trail := Outline(front);
      var n := ShallowerCount(trail, last.depth);
      ShallowerOfNested(trail, last.depth, n);
      assert Outline(hs) == trail[..n] + [last];
      assert n > 0 ==> trail[n - 1].depth >= n;
    }
  }

  lemma {:induction false} ShallowerCount(trail: seq<Heading>, depth: nat) returns (n: nat)
    requires forall i, j :: 0 <= i < j < |trail| ==> trail[i].depth < trail[j].depth
    ensures n <= |trail| && forall i :: 0 <= i < n ==> trail[i].depth < depth
    ensures forall i :: n <= i < |trail| ==> trail[i].depth >= depth
  {
    n := 0;
    while n < |trail| && trail[n].depth < depth
      invariant n <= |trail| && forall i :: 0 <= i < n ==> trail[i].depth < depth
    {
      n := n + 1;
    }
  }

  /** The trail never has more than six entries. */
  lemma {:induction false} StackAtMostSix(hs: seq<Heading>)
    requires DepthsOk(hs)
    ensures |Stack(hs)| <= 6
    ensures hs != [] ==> Stack(hs) != [] && Stack(hs)[|Stack(hs)| - 1] == hs[|hs| - 1] && |Stack(hs)| <= hs[|hs| - 1].depth
    decreases |hs|
  {
    if hs != [] {
      StackAtMostSix(hs[..|hs| - 1]);
    }
  }

  /** The entries that heading `k` leaves on the trail are shallower than it. */
  ghost predicate Fits(hs: seq<Heading>, k: int)
    requires DepthsOk(hs) && 0 <= k < |hs|
  {
    var trail := Stack(hs[..k]);
    forall p :: 0 <= p < Min(hs[k].depth - 1, |trail|) ==> trail[p].depth < hs[k].depth
  }

  /** Cutting a nested trail by position or by depth leaves the same prefix exactly when
      everything the position leaves is shallow enough. */
  lemma TwoCuts(trail: seq<Heading>, h: Heading, n: nat, m: nat)
    requires Nested(trail) && h.depth >= 1 && n == Min(h.depth - 1, |trail|) && m <= |trail|
    requires forall i :: 0 <= i < m ==> trail[i].depth < h.depth
    requires forall i :: m <= i < |trail| ==> trail[i].depth >= h.depth
    ensures trail[..n] + [h] == trail[..m] + [h] <==> forall p :: 0 <= p < n ==> trail[p].depth < h.depth
  {
    assert forall i :: n <= i < |trail| ==> trail[i].depth >= i + 1 >= h.depth;
    if n < |trail| {
      assert trail[n].depth >= h.depth;
    }
    assert |trail[..n] + [h]| == n + 1 && |trail[..m] + [h]| == m + 1;
    if m < n {
      assert trail[m].depth >= h.depth;
    }
  }

  lemma OutlineCut(hs: seq<Heading>) returns (m: nat)
    requires DepthsOk(hs) && hs != []
    ensures var trail, last := Outline(hs[..|hs| - 1]), hs[|hs| - 1];
      && m <= |trail| && Outline(hs) == trail[..m] + [last] && Nested(trail)
      && (forall i :: 0 <= i < m ==> trail[i].depth < last.depth) && (forall i :: m <= i < |trail| ==> trail[i].depth >= last.depth)
  {
    var trail, last := Outline(hs[..|hs| - 1]), hs[|hs| - 1];
    OutlineNested(hs[..|hs| - 1]);
    m := ShallowerCount(trail, last.depth);
    ShallowerOfNested(trail, last.depth, m);
  }

  lemma PushFollowsOutline(hs: seq<Heading>)
    requires DepthsOk(hs) && hs != [] && Stack(hs[..|hs| - 1]) == Outline(hs[..|hs| - 1])
    ensures Stack(hs) == Outline(hs) <==> Fits(hs, |hs| - 1)
  {
    hide Outline;
    var trail, last := Stack(hs[..|hs| - 1]), hs[|hs| - 1];
    var m := OutlineCut(hs);
    TwoCuts(trail, last, Min(last.depth - 1, |trail|), m);
  }

  /** Trail and outline agree after the first `k` headings. */
  ghost predicate Agrees(hs: seq<Heading>, k: int)
    requires DepthsOk(hs) && 0 <= k <= |hs|
  {
    Stack(hs[..k]) == Outline(hs[..k])
  }

  lemma FrontAgrees(hs: seq<Heading>, k: int)
    requires DepthsOk(hs) && hs != [] && 0 <= k < |hs|
    ensures Agrees(hs[..|hs| - 1], k) <==> Agrees(hs, k)
    ensures k < |hs| - 1 ==> (Fits(hs[..|hs| - 1], k) <==> Fits(hs, k))
  {
    hide Stack, Outline;
    assert hs[..|hs| - 1][..k] == hs[..k];
  }

  /** The trail is the outline of open headings after every heading, if and only if no heading
      leaves one of its own depth or deeper on the trail. */
  lemma {:induction false} TrailIsOutline(hs: seq<Heading>)
    requires DepthsOk(hs)
    ensures (forall k :: 0 <= k <= |hs| ==> Agrees(hs, k)) <==> (forall k :: 0 <= k < |hs| ==> Fits(hs, k))
    decreases |hs|
  {
    hide Stack, Outline, Fits;
    if hs == [] {
      assert Agrees(hs, 0) by { EmptyAgrees(); assert hs[..0] == []; }
    } else {
      var front, n := hs[..|hs| - 1], |hs| - 1;
      TrailIsOutline(front);
      forall k | 0 <= k <= n ensures (Agrees(front, k) <==> Agrees(hs, k)) && (k < n ==> (Fits(front, k) <==> Fits(hs, k))) {
        FrontAgrees(hs, k);
      }
      assert hs[..|hs|] == hs && front[..n] == front;
      if Agrees(hs, n) {
        PushFollowsOutline(hs);
      }
      if forall k :: 0 <= k < |hs| ==> Fits(hs, k) {
        assert forall k :: 0 <= k < n ==> Fits(front, k);
        assert Agrees(front, n);
      }
      if forall k :: 0 <= k <= |hs| ==> Agrees(hs, k) {
        assert forall k :: 0 <= k <= n ==> Agrees(front, k);
        assert Agrees(hs, n) && Agrees(hs, |hs|);
      }
    }
  }

  lemma EmptyAgrees()
    ensures Stack([]) == Outline([])
  {
  }

  /** No heading is more than one level below the one before it. */
  ghost predicate NoSkips(hs: seq<Heading>) {
    && (hs != [] ==> hs[0].depth == 1)
    && forall i :: 0 < i < |hs| ==> hs[i].depth <= hs[i - 1].depth + 1
  }

  /** Without skipped levels the trail has one entry per depth, and each entry is the last heading
      of its depth: everything after it is deeper. */
  lemma {:induction false} UnskippedTrail(hs: seq<Heading>, d: int)
    requires DepthsOk(hs) && NoSkips(hs) && hs != [] && 1 <= d <= hs[|hs| - 1].depth
    ensures |Stack(hs)| == hs[|hs| - 1].depth
    ensures exists i :: Open(hs, i) && hs[i].depth == d && Stack(hs)[d - 1] == hs[i]
    decreases |hs|
  {
    hide Outline;
    var front, last := hs[..|hs| - 1], hs[|hs| - 1];
    var e := if front != [] && d < last.depth then d else 1;
    if front != [] {
      UnskippedTrail(front, e);
    }
    assert Stack(hs) == Push(Stack(front), last);
    if d == last.depth {
      assert Open(hs, |hs| - 1);
    } else {
      var i :| Open(front, i) && front[i].depth == d && Stack(front)[d - 1] == front[i];
      OpenBeforeLast(hs, i);
    }
  }

  /** Skipped levels break the outline: a second level-3 heading becomes a child of the first. */
  lemma SkippedLevelsNest(a: string, b: string, c: string)
    ensures var hs := [Heading(1, a), Heading(3, b), Heading(3, c)];
      Stack(hs) == hs && Outline(hs) == [Heading(1, a), Heading(3, c)]
  {
    var h1, h2, h3 := Heading(1, a), Heading(3, b), Heading(3, c);
    assert [h1, h2, h3][..2] == [h1, h2] && [h1, h2][..1] == [h1] && [h1][..0] == [];
    assert Stack([h1]) == [h1] && Stack([h1, h2]) == [h1, h2];
    assert Outline([h1]) == [h1];
    assert Shallower([h1], 3) == [h1];
    assert Outline([h1, h2]) == [h1, h2];
    assert Shallower([h1, h2], 3) == [h1];
  }
}
