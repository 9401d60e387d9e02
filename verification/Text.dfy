/** The string operations the knowledge base uses, on Unicode scalar values. */
module Text {
  /** Unicode white space. */
  predicate IsSpace(c: char) {
    var n := c as int;
    || 9 <= n <= 13 || n == 32 || n == 0x85 || n == 0xA0 || n == 0x1680 || 0x2000 <= n <= 0x200A
    || n == 0x2028 || n == 0x2029 || n == 0x202F || n == 0x205F || n == 0x3000
  }

  function TrimLeft(s: string): string {
    if s != "" && IsSpace(s[0]) then TrimLeft(s[1..]) else s
  }

  function TrimRight(s: string): string {
    if s != "" && IsSpace(s[|s| - 1]) then TrimRight(s[..|s| - 1]) else s
  }

  function Trim(s: string): string {
    TrimRight(TrimLeft(s))
  }

  /** The characters that are not white space, in order. */
  function Ink(s: string): string {
    if s == "" then ""
    else if IsSpace(s[0]) then Ink(s[1..])
    else [s[0]] + Ink(s[1..])
  }

  predicate Blank(s: string) {
    Ink(s) == ""
  }

  /** Lower-casing of ASCII letters. No other letter lower-cases to one of the letters of the
      tags searched for here. */
  function LowerChar(c: char): char {
    if 'A' <= c <= 'Z' then ((c as int) + 32) as char else c
  }

  function Lower(s: string): string {
    seq(|s|, i requires 0 <= i < |s| => LowerChar(s[i]))
  }

  predicate Contains(s: string, t: string) {
    t <= s || (s != "" && Contains(s[1..], t))
  }

  function Concat(parts: seq<string>): string {
    if parts == [] then "" else parts[0] + Concat(parts[1..])
  }

  function Join(parts: seq<string>, sep: string): string {
    if parts == [] then ""
    else if |parts| == 1 then parts[0]
    else parts[0] + sep + Join(parts[1..], sep)
  }

  /** The lines of `s`, split at every newline. */
  function Lines(s: string): seq<string> {
    if s == "" then [""]
    else
      var rest := Lines(s[1..]);
      if s[0] == '\n' then [""] + rest else [[s[0]] + rest[0]] + rest[1..]
  }

  /** Lines written back with a newline after each. */
  function Terminated(lines: seq<string>): string {
    if lines == [] then "" else lines[0] + "\n" + Terminated(lines[1..])
  }

  /** Bytes of `s` in UTF-8. */
  function ByteLength(s: string): nat {
    if s == "" then 0
    else
      var n := s[0] as int;
      (if n < 0x80 then 1 else if n < 0x800 then 2 else if n < 0x1_0000 then 3 else 4) + ByteLength(s[1..])
  }

  lemma Assoc<T>(a: seq<T>, b: seq<T>, c: seq<T>)
    ensures a + (b + c) == (a + b) + c
  {
  }

  lemma Cons<T>(a: seq<T>, b: seq<T>)
    requires a != []
    ensures (a + b)[0] == a[0] && (a + b)[1..] == a[1..] + b && a + b != []
  {
  }

  lemma {:induction false} LinesNonEmpty(s: string)
    ensures Lines(s) != []
  {
    if s != "" {
      LinesNonEmpty(s[1..]);
    }
  }

  /** Splitting and writing back only adds the final newline. */
  lemma {:induction false} LinesRoundTrip(s: string)
    ensures Terminated(Lines(s)) == s + "\n"
  {
    if s == "" {
      assert Terminated([""]) == "" + "\n" + Terminated([""][1..]);
    } else {
      LinesRoundTrip(s[1..]);
      var rest := Lines(s[1..]);
      LinesNonEmpty(s[1..]);
      assert s == [s[0]] + s[1..];
      if s[0] == '\n' {
        assert ([""] + rest)[1..] == rest;
      } else {
        assert Terminated(rest) == rest[0] + "\n" + Terminated(rest[1..]);
        assert ([[s[0]] + rest[0]] + rest[1..])[1..] == rest[1..];
        assert [s[0]] + rest[0] + "\n" + Terminated(rest[1..]) == [s[0]] + (rest[0] + "\n" + Terminated(rest[1..]));
      }
    }
  }

  lemma {:induction false} TerminatedConcat(a: seq<string>, b: seq<string>)
    ensures Terminated(a + b) == Terminated(a) + Terminated(b)
  {
    if a == [] {
      assert a + b == b;
    } else {
      TerminatedConcat(a[1..], b);
      Cons(a, b);
      Assoc(a[0] + "\n", Terminated(a[1..]), Terminated(b));
    }
  }

  lemma {:induction false} InkConcat(a: string, b: string)
    ensures Ink(a + b) == Ink(a) + Ink(b)
  {
    hide IsSpace;
    if a == "" {
      assert a + b == b;
    } else {
      InkConcat(a[1..], b);
      Cons(a, b);
      Assoc([a[0]], Ink(a[1..]), Ink(b));
    }
  }

  lemma InkNewline(s: string)
    ensures Ink(s + "\n") == Ink(s)
  {
    InkConcat(s, "\n");
    assert "\n"[1..] == "" && Ink("\n") == Ink("");
  }

  lemma {:induction false} InkTrimLeft(s: string)
    ensures Ink(TrimLeft(s)) == Ink(s)
    ensures TrimLeft(s) == "" || !IsSpace(TrimLeft(s)[0])
  {
    if s != "" && IsSpace(s[0]) {
      InkTrimLeft(s[1..]);
    }
  }

  lemma {:induction false} InkTrimRight(s: string)
    ensures Ink(TrimRight(s)) == Ink(s)
    ensures TrimRight(s) == "" || !IsSpace(TrimRight(s)[|TrimRight(s)| - 1])
    decreases |s|
  {
    if s != "" && IsSpace(s[|s| - 1]) {
      var front, last := s[..|s| - 1], [s[|s| - 1]];
      InkTrimRight(front);
      assert s == front + last;
      InkConcat(front, last);
      assert last[1..] == "" && Ink(last) == Ink("");
    }
  }

  lemma {:induction false} InkOfSolid(s: string)
    requires s != "" && !IsSpace(s[|s| - 1])
    ensures Ink(s) != ""
  {
    var front, last := s[..|s| - 1], [s[|s| - 1]];
    assert s == front + last;
    InkConcat(front, last);
    assert Ink(last) == last + Ink(last[1..]);
  }

  /** Trimming keeps the ink, and leaves nothing exactly when there is none. */
  lemma TrimKeepsInk(s: string)
    ensures Ink(Trim(s)) == Ink(s)
    ensures Trim(s) == "" <==> Blank(s)
  {
    InkTrimLeft(s);
    InkTrimRight(TrimLeft(s));
    if Trim(s) != "" {
      InkOfSolid(Trim(s));
    }
  }

  lemma {:induction false} TrimRightPrefix(a: string, b: string)
    requires !Blank(b)
    ensures TrimRight(a + b) == a + TrimRight(b)
    decreases |b|
  {
    assert b != "";
    assert (a + b)[|a + b| - 1] == b[|b| - 1];
    if IsSpace(b[|b| - 1]) {
      var front, last := b[..|b| - 1], [b[|b| - 1]];
      assert b == front + last;
      InkConcat(front, last);
      assert last[1..] == "" && Ink(last) == Ink("");
      assert (a + b)[..|a + b| - 1] == a + front;
      TrimRightPrefix(a, front);
    }
  }

  lemma {:induction false} TrimLeftPrefix(a: string, b: string)
    requires !Blank(a)
    ensures TrimLeft(a + b) == TrimLeft(a) + b
  {
    if IsSpace(a[0]) {
      assert (a + b)[1..] == a[1..] + b;
      TrimLeftPrefix(a[1..], b);
    }
  }

  lemma {:induction false} InkTerminated(lines: seq<string>)
    ensures Ink(Terminated(lines)) == Ink(Concat(lines)) == Ink(Join(lines, "\n"))
  {
    if lines != [] {
      InkTerminated(lines[1..]);
      var rest := lines[1..];
      assert "\n"[1..] == "" && Ink("\n") == Ink("");
      InkConcat(lines[0] + "\n", Terminated(rest));
      InkConcat(lines[0], "\n");
      InkConcat(lines[0], Concat(rest));
      if rest != [] {
        InkConcat(lines[0] + "\n", Join(rest, "\n"));
      } else {
        assert Ink(Concat(rest)) == "";
      }
    }
  }

  lemma {:induction false} ContainsInk(s: string, t: string)
    requires Contains(s, t) && !Blank(t)
    ensures !Blank(s)
  {
    if t <= s {
      assert s == t + s[|t|..];
      InkConcat(t, s[|t|..]);
    } else {
      ContainsInk(s[1..], t);
    }
  }

  lemma {:induction false} LowerInk(s: string)
    requires !Blank(Lower(s))
    ensures !Blank(s)
  {
    if s != "" {
      assert Lower(s)[1..] == Lower(s[1..]);
      if IsSpace(s[0]) {
        LowerInk(s[1..]);
      }
    }
  }

  /** Comparison of strings character by character. */
  predicate TextLess(a: string, b: string) {
    b != "" && (a == "" || a[0] < b[0] || (a[0] == b[0] && TextLess(a[1..], b[1..])))
  }

  lemma {:induction false} TextOrder(a: string, b: string, c: string)
    ensures !TextLess(a, a) && (TextLess(a, b) || a == b || TextLess(b, a))
    ensures TextLess(a, b) && TextLess(b, c) ==> TextLess(a, c)
    ensures !(TextLess(a, b) && TextLess(b, a))
    decreases |a| + |b| + |c|
  {
    if a != "" {
      var b', c' := if b == "" then b else b[1..], if c == "" then c else c[1..];
      TextOrder(a[1..], b', c');
      assert a == [a[0]] + a[1..] && (b != "" ==> b == [b[0]] + b');
    }
  }

  lemma EqualHeads(a: string, b: string)
    requires a != "" && b != ""
    ensures forall n: nat :: 0 < n <= |a| && n <= |b| && a[..n] == b[..n] ==> a[0] == b[0]
  {
    forall n: nat | 0 < n <= |a| && n <= |b| && a[..n] == b[..n] ensures a[0] == b[0] {
      assert a[..n][0] == b[..n][0];
    }
  }

  /** The order of strings is lexicographic: they agree up to a place where the first ends or has the
      smaller character. */
  lemma {:induction false} TextLessExactly(a: string, b: string)
    ensures TextLess(a, b) <==> exists n: nat :: n <= |a| && n < |b| && a[..n] == b[..n] && (n == |a| || a[n] < b[n])
  {
    if a != "" && b != "" {
      TextLessExactly(a[1..], b[1..]);
      if a[0] == b[0] {
        if n: nat :| n <= |a| - 1 && n < |b| - 1 && a[1..][..n] == b[1..][..n] && (n == |a| - 1 || a[1..][n] < b[1..][n]) {
          assert a[..n + 1] == [a[0]] + a[1..][..n] && b[..n + 1] == [b[0]] + b[1..][..n];
        }
        if n: nat :| n <= |a| && n < |b| && a[..n] == b[..n] && (n == |a| || a[n] < b[n]) {
          assert n > 0;
          assert a[1..][..n - 1] == a[..n][1..] && b[1..][..n - 1] == b[..n][1..];
        }
      } else if a[0] < b[0] {
        assert a[..0] == b[..0];
      } else {
        EqualHeads(a, b);
      }
    } else if a == "" && b != "" {
      assert a[..0] == b[..0];
    }
  }

  // ------------------------------------------------------------------ what the words mean

  /** `t` stands in `s` at place `i`. */
  ghost predicate StandsAt(s: string, t: string, i: int) {
    0 <= i <= |s| - |t| && s[i..i + |t|] == t
  }

  ghost predicate Occurs(s: string, t: string) {
    exists i :: StandsAt(s, t, i)
  }

  lemma StandsLater(s: string, t: string, i: int)
    requires s != "" && i > 0
    ensures StandsAt(s, t, i) <==> StandsAt(s[1..], t, i - 1)
  {
    if 0 <= i <= |s| - |t| {
      assert s[1..][i - 1..i - 1 + |t|] == s[i..i + |t|];
    }
  }

  lemma StandsFirst(s: string, t: string)
    ensures StandsAt(s, t, 0) <==> t <= s
  {
  }

  lemma {:induction false} ContainsExactly(s: string, t: string)
    ensures Contains(s, t) <==> Occurs(s, t)
  {
    hide StandsAt;
    StandsFirst(s, t);
    if t <= s {
      assert StandsAt(s, t, 0);
    } else if s != "" {
      ContainsExactly(s[1..], t);
      if i :| StandsAt(s, t, i) {
        StandsIn(s, t, i);
        StandsLater(s, t, i);
      }
      if i :| StandsAt(s[1..], t, i) {
        StandsIn(s[1..], t, i);
        StandsLater(s, t, i + 1);
      }
    } else if i :| StandsAt(s, t, i) {
      StandsIn(s, t, i);
    }
  }

  lemma StandsIn(s: string, t: string, i: int)
    requires StandsAt(s, t, i)
    ensures 0 <= i <= |s| - |t| && (i == 0 ==> t <= s)
  {
  }

  /** Lengths in bytes add up, and a character takes one to four of them. */
  lemma {:induction false} BytesAddUp(a: string, b: string)
    ensures ByteLength(a + b) == ByteLength(a) + ByteLength(b)
  {
    if a == "" {
      assert a + b == b;
    } else {
      assert (a + b)[1..] == a[1..] + b;
      BytesAddUp(a[1..], b);
    }
  }

  lemma {:induction false} BytesOfKind(s: string)
    ensures (forall c :: c in s ==> c as int <= 0x7F) ==> ByteLength(s) == |s|
    ensures (forall c :: c in s ==> 0x80 <= c as int <= 0x7FF) ==> ByteLength(s) == 2 * |s|
    ensures (forall c :: c in s ==> 0x800 <= c as int <= 0xFFFF) ==> ByteLength(s) == 3 * |s|
    ensures (forall c :: c in s ==> 0x1_0000 <= c as int) ==> ByteLength(s) == 4 * |s|
  {
    if s != "" {
      BytesOfKind(s[1..]);
      assert forall c :: c in s[1..] ==> c in s;
      assert s[0] in s;
    }
  }

  /** Trimming takes off white space at both ends and nothing else. */
  lemma TrimExactly(s: string) returns (a: string, b: string)
    ensures s == a + Trim(s) + b && Blank(a) && Blank(b)
    ensures Trim(s) != "" ==> !IsSpace(Trim(s)[0]) && !IsSpace(Trim(s)[|Trim(s)| - 1])
  {
    hide TrimLeft, TrimRight, IsSpace, Blank;
    var l := TrimLeft(s);
    a := TrimLeftExactly(s);
    b := TrimRightExactly(l);
    InkTrimLeft(s);
    InkTrimRight(l);
    assert Trim(s) != "" ==> Trim(s)[0] == l[0];
    assert a + Trim(s) + b == a + l by {
      Assoc(a, Trim(s), b);
    }
  }

  lemma {:induction false} TrimLeftExactly(s: string) returns (a: string)
    ensures s == a + TrimLeft(s) && Blank(a)
  {
    a := "";
    if s != "" && IsSpace(s[0]) {
      a := TrimLeftExactly(s[1..]);
      assert ([s[0]] + a)[1..] == a;
      a := [s[0]] + a;
    }
  }

  lemma {:induction false} TrimRightExactly(s: string) returns (b: string)
    ensures s == TrimRight(s) + b && Blank(b)
  {
    b := "";
    if s != "" && IsSpace(s[|s| - 1]) {
      b := TrimRightExactly(s[..|s| - 1]);
      InkConcat(b, [s[|s| - 1]]);
      assert [s[|s| - 1]][1..] == "";
      b := b + [s[|s| - 1]];
    }
  }

  /** White space is what Unicode says, the ideographic space included; a lower-cased letter is
      thirty-two further on, and everything else stays. */
  lemma CharactersAtTheBounds()
    ensures forall c: char :: c as int in {9, 10, 13, 32, 0x85, 0xA0, 0x1680, 0x2000, 0x200A, 0x2028, 0x2029, 0x202F, 0x205F, 0x3000} ==> IsSpace(c)
    ensures forall c: char :: c as int in {8, 14, 31, 33, 0x1FFF, 0x200B, 0x2FFF, 0x3001, 0xFEFF} ==> !IsSpace(c)
    ensures LowerChar('A') == 'a' && LowerChar('Z') == 'z' && LowerChar('M') == 'm'
    ensures forall c: char :: c in "@[`az09-_<>/" ==> LowerChar(c) == c
  {
  }
}
