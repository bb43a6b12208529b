/** The order strings are compared in: by code unit, first difference first. */
module Lexical {

  predicate Less(a: string, b: string) {
    b != "" && (a == "" || a[0] < b[0] || (a[0] == b[0] && Less(a[1..], b[1..])))
  }

  lemma {:induction false} LessIrreflexive(a: string)
    ensures !Less(a, a)
  {
    if a != "" { LessIrreflexive(a[1..]); }
  }

  lemma {:induction false} LessTransitive(a: string, b: string, c: string)
    requires Less(a, b) && Less(b, c)
    ensures Less(a, c)
  {
    if a != "" && a[0] == b[0] && b[0] == c[0] { LessTransitive(a[1..], b[1..], c[1..]); }
  }

  lemma {:induction false} LessTotal(a: string, b: string)
    ensures Less(a, b) || a == b || Less(b, a)
  {
    if a != "" && b != "" && a[0] == b[0] {
      LessTotal(a[1..], b[1..]);
      assert a == [a[0]] + a[1..] && b == [b[0]] + b[1..];
    }
  }

  lemma {:induction false} LessAsymmetric(a: string, b: string)
    ensures !(Less(a, b) && Less(b, a))
  {
    if a != "" && b != "" { LessAsymmetric(a[1..], b[1..]); }
  }

  /** Equally long prefixes decide first. */
  lemma {:induction false} LessConcat(a: string, x: string, b: string, y: string)
    requires |a| == |b|
    ensures Less(a + x, b + y) <==> Less(a, b) || (a == b && Less(x, y))
    ensures a + x == b + y <==> a == b && x == y
  {
    if a == "" {
      assert a + x == x && b + y == y;
    } else {
      assert (a + x)[1..] == a[1..] + x && (b + y)[1..] == b[1..] + y;
      LessConcat(a[1..], x, b[1..], y);
      assert a == [a[0]] + a[1..] && b == [b[0]] + b[1..];
      LessIrreflexive(a);
      assert a + x == [a[0]] + (a + x)[1..] && b + y == [b[0]] + (b + y)[1..];
    }
  }

  // ---- separators ----

  function IndexOf(s: string, c: char): nat {
    if s == "" || s[0] == c then 0 else 1 + IndexOf(s[1..], c)
  }

  lemma {:induction false} IndexIs(a: string, x: string, c: char)
    requires c !in a
    ensures IndexOf(a + [c] + x, c) == |a|
  {
    if a != "" {
      assert (a + [c] + x)[1..] == a[1..] + [c] + x;
      assert (a + [c] + x)[0] == a[0] && a[0] in a;
      IndexIs(a[1..], x, c);
    }
  }

  /** Up to the first separator, two equal texts are equal, and so is the rest. */
  lemma {:induction false} FirstCut(a: string, x: string, b: string, y: string, c: char)
    requires c !in a && c !in b && a + [c] + x == b + [c] + y
    ensures a == b && x == y
  {
    var s, t := a + [c] + x, b + [c] + y;
    IndexIs(a, x, c);
    IndexIs(b, y, c);
    assert s[..|a|] == a && t[..|b|] == b && s[|a| + 1..] == x && t[|b| + 1..] == y;
  }

  // ---- trimming, as JavaScript does it ----

  predicate IsSpace(c: char) {
    || c in "\t\n\r \U{0B}\U{0C}\U{A0}\U{FEFF}\U{1680}\U{2028}\U{2029}\U{202F}\U{205F}\U{3000}"
    || '\U{2000}' <= c <= '\U{200A}'
  }

  function TrimStart(s: string): string { if s != "" && IsSpace(s[0]) then TrimStart(s[1..]) else s }

  function TrimEnd(s: string): string { if s != "" && IsSpace(s[|s| - 1]) then TrimEnd(s[..|s| - 1]) else s }

  function Trim(s: string): string { TrimEnd(TrimStart(s)) }

  lemma {:induction false} TrimIsTight(s: string)
    ensures Trim(s) != "" ==> !IsSpace(Trim(s)[0]) && !IsSpace(Trim(s)[|Trim(s)| - 1])
  {
    StartIsTight(s);
    EndIsTight(TrimStart(s));
  }

  lemma {:induction false} StartIsTight(s: string)
    ensures TrimStart(s) != "" ==> !IsSpace(TrimStart(s)[0])
  {
    if s != "" && IsSpace(s[0]) { StartIsTight(s[1..]); }
  }

  lemma {:induction false} EndIsTight(s: string)
    ensures TrimEnd(s) <= s && (TrimEnd(s) != "" ==> !IsSpace(TrimEnd(s)[|TrimEnd(s)| - 1]))
  {
    hide IsSpace;
    if s != "" && IsSpace(s[|s| - 1]) { EndIsTight(s[..|s| - 1]); }
  }

  predicate AllSpaces(s: string) { forall i :: 0 <= i < |s| ==> IsSpace(s[i]) }

  /** The white space of ECMA-262, and its line terminators. */
  lemma {:induction false} SpacesAre(c: char)
    ensures IsSpace(c) <==>
      c as int in {9, 10, 11, 12, 13, 32, 0xA0, 0x1680, 0x2028, 0x2029, 0x202F, 0x205F, 0x3000, 0xFEFF}
      || 0x2000 <= c as int <= 0x200A
  {
  }

  lemma {:induction false} StartIs(s: string) returns (front: string)
    ensures s == front + TrimStart(s) && AllSpaces(front)
  {
    hide IsSpace;
    if s != "" && IsSpace(s[0]) {
      front := StartIs(s[1..]);
      front := [s[0]] + front;
    } else {
      front := "";
    }
  }

  lemma {:induction false} EndIs(s: string) returns (back: string)
    ensures s == TrimEnd(s) + back && AllSpaces(back)
  {
    hide IsSpace;
    if s != "" && IsSpace(s[|s| - 1]) {
      back := EndIs(s[..|s| - 1]);
      assert s == TrimEnd(s) + back + [s[|s| - 1]];
      back := back + [s[|s| - 1]];
    } else {
      back := "";
    }
  }

  /** Trimming takes white space off both ends and nothing else. */
  lemma {:induction false} TrimTakesSpaces(s: string) returns (front: string, back: string)
    ensures s == front + Trim(s) + back && AllSpaces(front) && AllSpaces(back)
  {
    hide IsSpace;
    front := StartIs(s);
    back := EndIs(TrimStart(s));
  }

  /** And all of it: what stands between white space and neither starts nor ends with any is what
      is left. */
  lemma {:induction false} TrimLeaves(front: string, t: string, back: string)
    requires AllSpaces(front) && AllSpaces(back)
    requires t != "" ==> !IsSpace(t[0]) && !IsSpace(t[|t| - 1])
    ensures Trim(front + t + back) == t
  {
    hide IsSpace;
    StartLeaves(front, t + back, t);
    assert front + t + back == front + (t + back);
    if t == "" {
      AllGoes(front + t + back);
    } else {
      EndLeaves(t, back);
    }
  }

  lemma {:induction false} StartLeaves(front: string, rest: string, t: string)
    requires AllSpaces(front) && (t != "" ==> t <= rest && !IsSpace(t[0]))
    ensures t != "" ==> TrimStart(front + rest) == rest
  {
    hide IsSpace;
    if front == "" {
      assert front + rest == rest;
    } else {
      assert (front + rest)[1..] == front[1..] + rest;
      StartLeaves(front[1..], rest, t);
    }
  }

  lemma {:induction false} EndLeaves(t: string, back: string)
    requires AllSpaces(back) && t != "" && !IsSpace(t[|t| - 1])
    ensures TrimEnd(t + back) == t
  {
    hide IsSpace;
    if back == "" {
      assert t + back == t;
    } else {
      assert (t + back)[..|t + back| - 1] == t + back[..|back| - 1];
      EndLeaves(t, back[..|back| - 1]);
    }
  }

  lemma {:induction false} AllGoes(s: string)
    requires AllSpaces(s)
    ensures Trim(s) == ""
  {
    hide IsSpace;
    if s != "" { AllGoes(s[1..]); }
  }

  lemma {:induction false} NothingToTrim(s: string)
    requires s != "" && !IsSpace(s[0]) && !IsSpace(s[|s| - 1])
    ensures Trim(s) == s
  {
  }
}
