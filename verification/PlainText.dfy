/** Splitting, joining and stripping text as the source language's strings do. */
module PlainText {

  /** The parts of `s` between the occurrences of `c`; always at least one. */
  function Split(s: string, c: char): (parts: seq<string>)
    ensures parts != []
  {
    if s == [] then [""]
    else if s[0] == c then [""] + Split(s[1..], c)
    else
      var rest := Split(s[1..], c);
      [[s[0]] + rest[0]] + rest[1..]
  }

  function Join(parts: seq<string>, c: char): string {
    if parts == [] then ""
    else if |parts| == 1 then parts[0]
    else parts[0] + [c] + Join(parts[1..], c)
  }

  lemma {:induction false} SplitWithout(s: string, c: char)
    requires c !in s
    ensures Split(s, c) == [s]
  {
    if s != [] {
      SplitWithout(s[1..], c);
      assert s == [s[0]] + s[1..];
    }
  }

  lemma {:induction false} SplitAtFirst(s: string, rest: string, c: char)
    requires c !in s
    ensures Split(s + [c] + rest, c) == [s] + Split(rest, c)
  {
    var whole := s + [c] + rest;
    if s == [] {
      assert whole[1..] == rest;
    } else {
      assert whole[0] == s[0] && whole[1..] == s[1..] + [c] + rest;
      SplitAtFirst(s[1..], rest, c);
      assert s == [s[0]] + s[1..];
    }
  }

  /** Splitting undoes joining when no part holds the separator. */
  lemma {:induction false} SplitOfJoin(parts: seq<string>, c: char)
    requires parts != [] && forall part | part in parts :: c !in part
    ensures Split(Join(parts, c), c) == parts
  {
    if |parts| == 1 {
      SplitWithout(parts[0], c);
    } else {
      SplitAtFirst(parts[0], Join(parts[1..], c), c);
      SplitOfJoin(parts[1..], c);
      assert parts == [parts[0]] + parts[1..];
    }
  }

  /** The characters that `str.isspace` accepts one by one. */
  /** `part` stands in `s` between occurrences of `c`, or its edges. */
  ghost predicate Stands(s: string, c: char, a: string, part: string, b: string) {
    s == a + part + b && c !in part && (a == "" || a[|a| - 1] == c) && (b == "" || b[0] == c)
  }

  lemma FirstOf(s: string, c: char) returns (u: string, v: string)
    requires c in s
    ensures s == u + [c] + v && c !in u
  {
    if s[0] == c {
      u, v := "", s[1..];
    } else {
      u, v := FirstOf(s[1..], c);
      u := [s[0]] + u;
      assert s == [s[0]] + s[1..];
    }
  }

  lemma {:induction false} PartStands(s: string, c: char, part: string) returns (a: string, b: string)
    requires part in Split(s, c)
    ensures Stands(s, c, a, part, b)
    decreases |s|
  {
    hide Split;
    a, b := "", "";
    if c !in s {
      SplitWithout(s, c);
    } else {
      var u, v := FirstOf(s, c);
      SplitAtFirst(u, v, c);
      if part == u {
        b := [c] + v;
      } else {
        a, b := PartStands(v, c, part);
        a := u + [c] + a;
      }
    }
  }

  lemma {:induction false} WhatStandsIsPart(s: string, c: char, a: string, part: string, b: string)
    requires Stands(s, c, a, part, b)
    ensures part in Split(s, c)
    decreases |s|
  {
    if c !in s {
      assert forall x | x in a || x in b :: x in s;
      SplitWithout(s, c);
      assert part == s;
    } else {
      var u, v := FirstOf(s, c);
      SplitAtFirst(u, v, c);
      assert Split(s, c)[0] == u;
      if a == "" {
        FirstIsUnique(u, v, part, b, c);
      } else {
        LaterIsBehind(u, v, a, part, b, c);
        WhatStandsIsPart(v, c, a[|u| + 1..], part, b);
        assert Split(s, c) == [u] + Split(v, c);
      }
    }
  }

  lemma FirstIsUnique(u: string, v: string, part: string, b: string, c: char)
    requires u + [c] + v == part + b && c !in u && c !in part && (b == "" || b[0] == c)
    ensures u == part
  {
    var s := part + b;
    assert s[|u|] == c && s[..|u|] == u && s[..|part|] == part;
    assert forall i | 0 <= i < |u| :: s[i] == u[i] && u[i] in u;
    assert forall i | 0 <= i < |part| :: s[i] == part[i] && part[i] in part;
    if b != "" {
      assert s[|part|] == c;
    }
  }

  lemma LaterIsBehind(u: string, v: string, a: string, part: string, b: string, c: char)
    requires u + [c] + v == a + part + b && c !in u && a != "" && a[|a| - 1] == c
    ensures |a| > |u| && v == a[|u| + 1..] + part + b && (a[|u| + 1..] == "" || a[|u| + 1..][|a| - |u| - 2] == c)
  {
    var s := a + part + b;
    assert s[|a| - 1] == c;
    assert forall i | 0 <= i < |u| :: s[i] == u[i] && u[i] in u;
    assert v == s[|u| + 1..];
  }

  predicate IsSpace(c: char) {
    || '\t' <= c <= '\r'
    || '\U{1c}' <= c <= ' '
    || c == '\U{85}' || c == '\U{a0}' || c == '\U{1680}'
    || '\U{2000}' <= c <= '\U{200a}'
    || c == '\U{2028}' || c == '\U{2029}' || c == '\U{202f}' || c == '\U{205f}' || c == '\U{3000}'
  }

  function LeftStrip(s: string): string {
    if s != [] && IsSpace(s[0]) then LeftStrip(s[1..]) else s
  }

  function RightStrip(s: string): string {
    if s != [] && IsSpace(s[|s| - 1]) then RightStrip(s[..|s| - 1]) else s
  }

  function Strip(s: string): string {
    RightStrip(LeftStrip(s))
  }

  lemma {:induction false} LeftStripEdge(s: string)
    ensures LeftStrip(s) == [] || !IsSpace(LeftStrip(s)[0])
    ensures forall c | c in LeftStrip(s) :: c in s
    ensures LeftStrip(s) == [] <==> forall c | c in s :: IsSpace(c)
  {
    if s != [] && IsSpace(s[0]) {
      LeftStripEdge(s[1..]);
      assert s == [s[0]] + s[1..];
    } else if s != [] {
      assert s[0] in s;
    }
  }

  lemma {:induction false} RightStripEdge(s: string)
    ensures RightStrip(s) <= s
    ensures RightStrip(s) == [] || !IsSpace(RightStrip(s)[|RightStrip(s)| - 1])
    ensures RightStrip(s) == [] <==> forall c | c in s :: IsSpace(c)
  {
    if s != [] && IsSpace(s[|s| - 1]) {
      RightStripEdge(s[..|s| - 1]);
      assert s == s[..|s| - 1] + [s[|s| - 1]];
    } else if s != [] {
      assert s[|s| - 1] in s;
    }
  }

  /** Stripped text starts and ends with text and is empty exactly for blank input. */
  lemma StripEdges(s: string)
    ensures var r := Strip(s);
            && (r == [] || (!IsSpace(r[0]) && !IsSpace(r[|r| - 1])))
            && (forall c | c in r :: c in s)
            && (r == [] <==> forall c | c in s :: IsSpace(c))
  {
    var left := LeftStrip(s);
    LeftStripEdge(s);
    RightStripEdge(left);
    var r := Strip(s);
    if r != [] {
      assert r[0] == left[0];
    }
  }
}
