/** What is hashed into a cache key (cache.rs): the request's fields joined by the separators 0 and
    1. Text is a sequence of code points: UTF-8 keeps their order, and only the code points 0 and
    1 encode to the bytes 0 and 1. */
module CacheKey {
  import opened Wrappers
  import opened Lexical
  import Decimal

  type Text = string

  const NUL: char := '\0'
  const SOH: char := '\U{01}'

  // ---- the order headers are sorted in ----

  type Header = (Text, Text)

  ghost predicate Ascending(hs: seq<Header>) {
    forall i, j :: 0 <= i < j < |hs| ==> Less(hs[i].0, hs[j].0)
  }

  function Insert(hs: seq<Header>, h: Header): seq<Header> {
    if hs == [] then [h]
    else if Less(hs[|hs| - 1].0, h.0) then hs + [h]
    else Insert(hs[..|hs| - 1], h) + [hs[|hs| - 1]]
  }

  function Sort(hs: seq<Header>): seq<Header> {
    if hs == [] then [] else Insert(Sort(hs[..|hs| - 1]), hs[|hs| - 1])
  }

  lemma {:induction false} InsertHas(hs: seq<Header>, h: Header, x: Header)
    ensures x in Insert(hs, h) <==> x in hs || x == h
  {
    if hs != [] {
      assert hs == hs[..|hs| - 1] + [hs[|hs| - 1]];
      if !Less(hs[|hs| - 1].0, h.0) { InsertHas(hs[..|hs| - 1], h, x); }
    }
  }

  lemma {:induction false} SortHas(hs: seq<Header>, x: Header)
    ensures x in Sort(hs) <==> x in hs
  {
    if hs != [] {
      assert hs == hs[..|hs| - 1] + [hs[|hs| - 1]];
      SortHas(hs[..|hs| - 1], x);
      InsertHas(Sort(hs[..|hs| - 1]), hs[|hs| - 1], x);
    }
  }

  ghost predicate AllBelow(hs: seq<Header>, h: Header) {
    forall x :: x in hs ==> Less(x.0, h.0)
  }

  lemma {:induction false} AscendingGrows(hs: seq<Header>, h: Header)
    requires Ascending(hs) && AllBelow(hs, h)
    ensures Ascending(hs + [h])
  {
  }

  lemma {:induction false} AscendingShrinks(hs: seq<Header>)
    requires Ascending(hs) && hs != []
    ensures Ascending(hs[..|hs| - 1]) && AllBelow(hs[..|hs| - 1], hs[|hs| - 1])
  {
  }

  lemma {:induction false} InsertAscends(hs: seq<Header>, h: Header)
    requires Ascending(hs) && forall x :: x in hs ==> x.0 != h.0
    ensures Ascending(Insert(hs, h))
  {
    hide Ascending, Less;
    if hs == [] {
      OneAscends(h);
    } else {
      var front, last := hs[..|hs| - 1], hs[|hs| - 1];
      assert hs == front + [last];
      AscendingShrinks(hs);
      assert last in hs && forall x :: x in front ==> x in hs;
      LessTotal(last.0, h.0);
      if Less(last.0, h.0) {
        forall x | x in hs ensures Less(x.0, h.0) {
          if x != last { LessTransitive(x.0, last.0, h.0); }
        }
        AscendingGrows(hs, h);
      } else {
        InsertAscends(front, h);
        forall x | x in Insert(front, h) ensures Less(x.0, last.0) {
          InsertHas(front, h, x);
        }
        AscendingGrows(Insert(front, h), last);
      }
    }
  }

  lemma {:induction false} OneAscends(h: Header)
    ensures Ascending([h])
  {
  }

  /** The entries of a header map in some iteration order. */
  ghost predicate Enumerates(order: seq<Header>, headers: map<Text, Text>) {
    && (forall i, j :: 0 <= i < j < |order| ==> order[i].0 != order[j].0)
    && (forall k, v :: (k, v) in order <==> k in headers && headers[k] == v)
  }

  lemma {:induction false} SortAscends(hs: seq<Header>)
    requires forall i, j :: 0 <= i < j < |hs| ==> hs[i].0 != hs[j].0
    ensures Ascending(Sort(hs))
  {
    if hs != [] {
      var front, last := hs[..|hs| - 1], hs[|hs| - 1];
      SortAscends(front);
      forall x | x in Sort(front) ensures x.0 != last.0 {
        SortHas(front, x);
        var i :| 0 <= i < |front| && front[i] == x;
        assert hs[i].0 != hs[|hs| - 1].0;
      }
      InsertAscends(Sort(front), last);
    }
  }

  ghost predicate SameMembers(a: seq<Header>, b: seq<Header>) {
    forall x :: x in a <==> x in b
  }

  lemma {:induction false} HasMember(s: seq<Header>)
    ensures s == [] || s[0] in s
  {
  }

  lemma {:induction false} SameLast(a: seq<Header>, b: seq<Header>)
    requires Ascending(a) && Ascending(b) && a != [] && b != [] && SameMembers(a, b)
    ensures a[|a| - 1] == b[|b| - 1]
    ensures SameMembers(a[..|a| - 1], b[..|b| - 1])
  {
    var la, lb, fa, fb := a[|a| - 1], b[|b| - 1], a[..|a| - 1], b[..|b| - 1];
    AscendingShrinks(a);
    AscendingShrinks(b);
    assert a == fa + [la] && b == fb + [lb];
    assert la in a && lb in b;
    assert la == lb || (Less(la.0, lb.0) && Less(lb.0, la.0));
    LessAsymmetric(la.0, lb.0);
    LessIrreflexive(la.0);
    forall x ensures x in fa <==> x in fb {
      assert x in fa ==> x in a && x != la;
      assert x in fb ==> x in b && x != lb;
    }
  }

  /** An ascending list is determined by its members. */
  lemma {:induction false} AscendingUnique(a: seq<Header>, b: seq<Header>)
    requires Ascending(a) && Ascending(b) && SameMembers(a, b)
    ensures a == b
  {
    HasMember(a);
    HasMember(b);
    if a != [] && b != [] {
      SameLast(a, b);
      AscendingUnique(a[..|a| - 1], b[..|b| - 1]);
      assert a == a[..|a| - 1] + [a[|a| - 1]] && b == b[..|b| - 1] + [b[|b| - 1]];
    }
  }

  // ---- the bytes of an HTTP request's key ----

  datatype Method = Get | Post

  datatype Request = Request(verb: Method, url: Text, headers: map<Text, Text>, body: Option<Text>, proxy: Option<Text>)

  function Name(m: Method): Text { if m.Get? then "Get" else "Post" }

  function OrEmpty(t: Option<Text>): Text { if t.None? then "" else t.value }

  function Lines(hs: seq<Header>): Text {
    if hs == [] then "" else hs[0].0 + [SOH] + (hs[0].1 + [NUL] + Lines(hs[1..]))
  }

  function Encode(r: Request, order: seq<Header>): Text {
    Name(r.verb) + [NUL] + (r.url + [NUL] + (OrEmpty(r.body) + [NUL] + (Lines(Sort(order)) + [NUL] + OrEmpty(r.proxy))))
  }

  /** The hasher's input, fed step by step. */
  method HashInput(r: Request, order: seq<Header>) returns (fed: Text)
    ensures fed == Encode(r, order)
  {
    hide Sort, Lines, Name;
    fed := Name(r.verb) + [NUL] + r.url + [NUL];
    if r.body.Some? { fed := fed + r.body.value; }
    fed := fed + [NUL];
    ghost var start := fed;
    var headers := Sort(order);
    NoLines(headers, start);
    for i := 0 to |headers|
      invariant fed + Lines(headers[i..]) == start + Lines(headers)
    {
      LineFed(headers, i, fed);
      fed := fed + headers[i].0 + [SOH] + headers[i].1 + [NUL];
    }
    NoLines(headers, fed);
    fed := fed + [NUL];
    if r.proxy.Some? { fed := fed + r.proxy.value; }
    assert start == Name(r.verb) + [NUL] + r.url + [NUL] + OrEmpty(r.body) + [NUL];
    assert fed == start + Lines(headers) + [NUL] + OrEmpty(r.proxy);
  }

  lemma {:induction false} NoLines(hs: seq<Header>, fed: Text)
    ensures hs[0..] == hs && fed + Lines(hs[|hs|..]) == fed
  {
  }

  lemma {:induction false} LineFed(hs: seq<Header>, i: nat, fed: Text)
    requires i < |hs|
    ensures fed + Lines(hs[i..]) == (fed + hs[i].0 + [SOH] + hs[i].1 + [NUL]) + Lines(hs[i + 1..])
  {
  }

  /** One input, spelled out. */
  lemma {:induction false} EncodesAs()
    ensures Encode(Request(Post, "u", map["h" := "w", "a" := "v"], Some("x"), Some("p")), [("h", "w"), ("a", "v")])
         == "Post\0u\0x\0a\U{01}v\0h\U{01}w\0\0p"
  {
    hide Sort, Lines;
    SortsTwo();
    var lines := "a\U{01}v\0h\U{01}w\0";
    assert "Post" + [NUL] + ("u" + [NUL] + ("x" + [NUL] + (lines + [NUL] + "p"))) == "Post\0u\0x\0" + lines + "\0p";
    assert "Post\0u\0x\0" + lines + "\0p" == "Post\0u\0x\0a\U{01}v\0h\U{01}w\0\0p";
  }

  lemma {:induction false} SortsTwo()
    ensures Lines(Sort([("h", "w"), ("a", "v")])) == "a\U{01}v\0h\U{01}w\0"
  {
    var a, h: Header := ("a", "v"), ("h", "w");
    assert [h, a][..1] == [h] && [h][..0] == [];
    assert Sort([]) == [] && Sort([h]) == [h];
    assert Less("a", "h") && !Less("h", "a");
    assert Insert([h], a) == [a, h];
    assert Sort([h, a]) == [a, h];
    LinesOfTwo(a, h);
  }

  lemma {:induction false} LinesOfTwo(a: Header, b: Header)
    ensures Lines([a, b]) == a.0 + [SOH] + a.1 + [NUL] + b.0 + [SOH] + b.1 + [NUL]
  {
    assert [a, b][1..] == [b] && [b][1..] == [];
    assert Lines([b]) == b.0 + [SOH] + b.1 + [NUL];
  }

  /** And the barest one. */
  lemma {:induction false} EncodesBare()
    ensures Encode(Request(Get, "u", map[], None, None), []) == "Get\0u\0\0\0"
  {
    assert Sort([]) == [];
  }

  /** Iteration order does not reach the key. */
  lemma {:induction false} OrderDoesNotMatter(r: Request, a: seq<Header>, b: seq<Header>)
    requires Enumerates(a, r.headers) && Enumerates(b, r.headers)
    ensures Encode(r, a) == Encode(r, b)
  {
    SortAscends(a);
    SortAscends(b);
    forall x: Header ensures x in Sort(a) <==> x in Sort(b) {
      SortHas(a, x);
      SortHas(b, x);
      assert x == (x.0, x.1);
    }
    AscendingUnique(Sort(a), Sort(b));
  }

  /** What the separators require of a request. The proxy comes last and may hold anything. */
  predicate Separable(r: Request) {
    && NUL !in r.url && NUL !in OrEmpty(r.body)
    && forall k :: k in r.headers ==> NUL !in k && SOH !in k && NUL !in r.headers[k]
  }

  predicate CleanLines(hs: seq<Header>) {
    forall h :: h in hs ==> NUL !in h.0 && SOH !in h.0 && NUL !in h.1
  }

  /** Header lines and what follows them come apart again. */
  lemma {:induction false} LinesCut(a: seq<Header>, x: Text, b: seq<Header>, y: Text)
    requires CleanLines(a) && CleanLines(b)
    requires Lines(a) + [NUL] + x == Lines(b) + [NUL] + y
    ensures a == b && x == y
    decreases |a|
  {
    if a == [] || b == [] {
      if a != [] || b != [] { LineIsNotEnd(if a != [] then a else b); }
      LinesEnd(a, x);
      LinesEnd(b, y);
    } else {
      assert a[0] in a && b[0] in b;
      var p, q := a[0].1 + [NUL] + (Lines(a[1..]) + [NUL] + x), b[0].1 + [NUL] + (Lines(b[1..]) + [NUL] + y);
      assert Lines(a) + [NUL] + x == a[0].0 + [SOH] + p;
      assert Lines(b) + [NUL] + y == b[0].0 + [SOH] + q;
      FirstCut(a[0].0, p, b[0].0, q, SOH);
      FirstCut(a[0].1, Lines(a[1..]) + [NUL] + x, b[0].1, Lines(b[1..]) + [NUL] + y, NUL);
      assert forall h :: h in a[1..] ==> h in a;
      assert forall h :: h in b[1..] ==> h in b;
      LinesCut(a[1..], x, b[1..], y);
      assert a == [a[0]] + a[1..] && b == [b[0]] + b[1..];
    }
  }

  lemma {:induction false} LineIsNotEnd(hs: seq<Header>)
    requires hs != [] && CleanLines(hs)
    ensures Lines(hs) != "" && Lines(hs)[0] != NUL
  {
  }

  lemma {:induction false} LinesEnd(hs: seq<Header>, x: Text)
    ensures hs == [] ==> (Lines(hs) + [NUL] + x)[0] == NUL && (Lines(hs) + [NUL] + x)[1..] == x
    ensures Lines(hs) != "" ==> (Lines(hs) + [NUL] + x)[0] == Lines(hs)[0]
  {
  }

  /** Two requests differ at most in an absent against an empty body or proxy. */
  ghost predicate SameRequest(a: Request, b: Request) {
    && a.verb == b.verb && a.url == b.url && a.headers == b.headers
    && OrEmpty(a.body) == OrEmpty(b.body) && OrEmpty(a.proxy) == OrEmpty(b.proxy)
  }

  /** The key's input determines the request, and nothing else does: among separable requests, in
      whatever order their headers iterate, two inputs are equal exactly when the requests are
      the same up to an absent body or proxy counting as an empty one. */
  lemma {:induction false} KeyDetermines(a: Request, orderA: seq<Header>, b: Request, orderB: seq<Header>)
    requires Separable(a) && Separable(b) && Enumerates(orderA, a.headers) && Enumerates(orderB, b.headers)
    ensures Encode(a, orderA) == Encode(b, orderB) <==> SameRequest(a, b)
  {
    if SameRequest(a, b) {
      OrderDoesNotMatter(b, orderA, orderB);
    }
    if Encode(a, orderA) == Encode(b, orderB) {
      EncodingDetermines(a, orderA, b, orderB);
    }
  }

  lemma {:induction false} EncodingDetermines(a: Request, orderA: seq<Header>, b: Request, orderB: seq<Header>)
    requires Separable(a) && Separable(b) && Enumerates(orderA, a.headers) && Enumerates(orderB, b.headers)
    requires Encode(a, orderA) == Encode(b, orderB)
    ensures SameRequest(a, b)
  {
    var la, lb := Sort(orderA), Sort(orderB);
    SortedAreClean(a, orderA);
    SortedAreClean(b, orderB);
    var pa, pb := Lines(la) + [NUL] + OrEmpty(a.proxy), Lines(lb) + [NUL] + OrEmpty(b.proxy);
    var ba, bb := OrEmpty(a.body) + [NUL] + pa, OrEmpty(b.body) + [NUL] + pb;
    var ua, ub := a.url + [NUL] + ba, b.url + [NUL] + bb;
    FirstCut(Name(a.verb), ua, Name(b.verb), ub, NUL);
    assert a.verb == b.verb by { assert |Name(a.verb)| == |Name(b.verb)|; }
    FirstCut(a.url, ba, b.url, bb, NUL);
    FirstCut(OrEmpty(a.body), pa, OrEmpty(b.body), pb, NUL);
    LinesCut(la, OrEmpty(a.proxy), lb, OrEmpty(b.proxy));
    SameListSameMap(orderA, a.headers, orderB, b.headers);
  }

  lemma {:induction false} SortedAreClean(r: Request, order: seq<Header>)
    requires Separable(r) && Enumerates(order, r.headers)
    ensures CleanLines(Sort(order))
  {
    forall h | h in Sort(order) ensures NUL !in h.0 && SOH !in h.0 && NUL !in h.1 {
      SortHas(order, h);
      assert h == (h.0, h.1);
    }
  }

  lemma {:induction false} SameListSameMap(orderA: seq<Header>, a: map<Text, Text>, orderB: seq<Header>,
      b: map<Text, Text>)
    requires Enumerates(orderA, a) && Enumerates(orderB, b) && Sort(orderA) == Sort(orderB)
    ensures a == b
  {
    forall k | k in a ensures k in b && b[k] == a[k] {
      SortHas(orderA, (k, a[k]));
      SortHas(orderB, (k, a[k]));
    }
    forall k | k in b ensures k in a {
      SortHas(orderA, (k, b[k]));
      SortHas(orderB, (k, b[k]));
    }
  }

  /** Some other request feeds the hasher the same input. */
  ghost predicate Shares(a: Request, order: seq<Header>) {
    exists b: Request, other: seq<Header> ::
      Enumerates(other, b.headers) && Encode(b, other) == Encode(a, order) && !SameRequest(a, b)
  }

  predicate Doubled(s: Text) { exists i :: 0 <= i < |s| - 1 && s[i] == NUL && s[i + 1] == NUL }

  /** Which requests share their input, exactly: those with a NUL in the url or the body, those with
      any header at all - its line can hide behind a NUL in a body - and those whose proxy starts
      with a NUL or holds two in a row. */
  lemma {:induction false} SharesExactly(a: Request, order: seq<Header>)
    requires Enumerates(order, a.headers)
    ensures Shares(a, order) <==>
            a.headers != map[] || NUL in a.url || NUL in OrEmpty(a.body) || Doubled([NUL] + OrEmpty(a.proxy))
  {
    hide Encode, Enumerates, SameRequest, Sort;
    if NUL in a.url {
      UrlSplits(a, order);
    } else if NUL in OrEmpty(a.body) {
      BodySplits(a, order);
    } else if a.headers != map[] {
      HeaderHides(a, order);
    } else if Doubled([NUL] + OrEmpty(a.proxy)) {
      ProxySplits(a, order);
    } else {
      forall b: Request, other: seq<Header> | Enumerates(other, b.headers) && Encode(b, other) == Encode(a, order)
        ensures SameRequest(a, b)
      {
        BareDetermines(a, order, b, other);
      }
    }
  }

  lemma {:induction false} SplitAt(s: Text) returns (x: Text, y: Text)
    requires NUL in s
    ensures s == x + [NUL] + y
  {
    var i :| 0 <= i < |s| && s[i] == NUL;
    x, y := s[..i], s[i + 1..];
  }

  lemma {:induction false} UrlSplits(a: Request, order: seq<Header>)
    requires Enumerates(order, a.headers) && NUL in a.url
    ensures Shares(a, order)
  {
    hide Sort, Lines, Name, Enumerates;
    var x, y := SplitAt(a.url);
    var b := a.(url := x, body := Some(y + [NUL] + OrEmpty(a.body)));
    Regroup(x, y, OrEmpty(a.body), Lines(Sort(order)) + [NUL] + OrEmpty(a.proxy));
    assert Encode(b, order) == Encode(a, order) && |b.url| < |a.url|;
  }

  lemma {:induction false} BodySplits(a: Request, order: seq<Header>)
    requires Enumerates(order, a.headers) && NUL in OrEmpty(a.body)
    ensures Shares(a, order)
  {
    hide Sort, Lines, Name, Enumerates;
    var x, y := SplitAt(OrEmpty(a.body));
    var b := a.(url := a.url + [NUL] + x, body := Some(y));
    Regroup(a.url, x, y, Lines(Sort(order)) + [NUL] + OrEmpty(a.proxy));
    assert Encode(b, order) == Encode(a, order) && |b.url| > |a.url|;
  }

  lemma {:induction false} Regroup(x: Text, y: Text, z: Text, rest: Text)
    ensures x + [NUL] + (y + [NUL] + z + [NUL] + rest) == x + [NUL] + y + [NUL] + (z + [NUL] + rest)
    ensures x + [NUL] + (y + [NUL] + z) == x + [NUL] + y + [NUL] + z
  {
  }

  /** An ascending list is its own sort. */
  lemma {:induction false} SortedStays(hs: seq<Header>)
    requires Ascending(hs)
    ensures Sort(hs) == hs
  {
    hide Ascending, Sort;
    AscendingDistinct(hs);
    SortAscends(hs);
    forall x ensures x in Sort(hs) <==> x in hs {
      SortHas(hs, x);
    }
    AscendingUnique(Sort(hs), hs);
  }

  lemma {:induction false} AscendingDistinct(hs: seq<Header>)
    requires Ascending(hs)
    ensures forall i, j :: 0 <= i < j < |hs| ==> hs[i].0 != hs[j].0
    ensures hs != [] ==> Ascending(hs[1..])
  {
    forall i, j | 0 <= i < j < |hs| ensures hs[i].0 != hs[j].0 {
      LessIrreflexive(hs[i].0);
    }
  }

  /** The first header line moves into the body. */
  lemma {:induction false} HeaderHides(a: Request, order: seq<Header>)
    requires Enumerates(order, a.headers) && a.headers != map[]
    ensures Shares(a, order)
  {
    hide Sort, Lines, Name, Ascending, Enumerates;
    var hs := Sort(order);
    var other, headers := FirstRemoved(a.headers, order);
    var h := hs[0];
    var b := a.(body := Some(OrEmpty(a.body) + [NUL] + (h.0 + [SOH] + h.1)), headers := headers);
    FirstLine(hs);
    Regroup(OrEmpty(a.body), h.0 + [SOH] + h.1, Lines(other), [NUL] + OrEmpty(a.proxy));
    LineMoves(OrEmpty(a.body), h, Lines(other), OrEmpty(a.proxy));
    assert Encode(b, other) == Encode(a, order);
    assert |OrEmpty(b.body)| > |OrEmpty(a.body)|;
  }

  lemma {:induction false} FirstLine(hs: seq<Header>)
    requires hs != []
    ensures Lines(hs) == hs[0].0 + [SOH] + (hs[0].1 + [NUL] + Lines(hs[1..]))
  {
  }

  lemma {:induction false} LineMoves(body: Text, h: Header, lines: Text, proxy: Text)
    ensures body + [NUL] + (h.0 + [SOH] + (h.1 + [NUL] + lines) + [NUL] + proxy)
         == body + [NUL] + (h.0 + [SOH] + h.1) + [NUL] + (lines + [NUL] + proxy)
  {
  }

  lemma {:induction false} FirstRemoved(headers: map<Text, Text>, order: seq<Header>)
    returns (other: seq<Header>, fewer: map<Text, Text>)
    requires Enumerates(order, headers) && headers != map[]
    ensures Sort(order) != [] && other == Sort(order)[1..] && Sort(other) == other
    ensures Enumerates(other, fewer)
  {
    hide Ascending, Sort;
    var k :| k in headers;
    assert (k, headers[k]) in order;
    SortHas(order, (k, headers[k]));
    var hs := Sort(order);
    SortAscends(order);
    AscendingDistinct(hs);
    other, fewer := hs[1..], headers - {hs[0].0};
    SortedStays(other);
    assert hs == [hs[0]] + other;
    forall q, v ensures (q, v) in other <==> q in fewer && fewer[q] == v {
      SortHas(order, (q, v));
      if (q, v) in other {
        var i :| 0 <= i < |other| && other[i] == (q, v);
        assert hs[i + 1] == (q, v) && hs[0].0 != hs[i + 1].0;
      }
    }
  }

  /** A request without headers whose proxy holds two NULs in a row, the one before it counted. */
  lemma {:induction false} ProxySplits(a: Request, order: seq<Header>)
    requires Enumerates(order, a.headers) && a.headers == map[] && Doubled([NUL] + OrEmpty(a.proxy))
    ensures Shares(a, order)
  {
    hide Name;
    NoHeaders(a.headers, order);
    var s, body := [NUL] + OrEmpty(a.proxy), OrEmpty(a.body);
    var i :| 0 <= i < |s| - 1 && s[i] == NUL && s[i + 1] == NUL;
    var x, y := s[..i], s[i + 2..];
    assert s == x + [NUL, NUL] + y;
    var b := a.(body := Some(body + [NUL] + x), proxy := Some(y));
    assert body + [NUL] + s == body + [NUL] + x + [NUL] + ([NUL] + y);
    BareEncodes(a);
    BareEncodes(b);
    assert Encode(b, []) == Encode(a, order) && |OrEmpty(b.body)| > |body|;
    assert Enumerates([], b.headers);
  }

  lemma {:induction false} NoHeaders(headers: map<Text, Text>, order: seq<Header>)
    requires Enumerates(order, headers)
    ensures headers == map[] <==> order == []
  {
    if order != [] { assert (order[0].0, order[0].1) in order; }
    if headers != map[] {
      var k :| k in headers;
      assert (k, headers[k]) in order;
    }
  }

  lemma {:induction false} BareEncodes(r: Request)
    ensures Encode(r, [])
         == Name(r.verb) + [NUL] + (r.url + [NUL] + (OrEmpty(r.body) + [NUL] + ([NUL] + OrEmpty(r.proxy))))
  {
    assert Sort([]) == [] && Lines([]) == "" && "" + [NUL] == [NUL];
  }

  /** Every input has two NULs in a row in front of its proxy, after two of its own; behind a clean
      url and body and no header there is only one place for them. */
  lemma {:induction false} BareDetermines(a: Request, order: seq<Header>, b: Request, other: seq<Header>)
    requires Enumerates(order, a.headers) && Enumerates(other, b.headers) && Encode(b, other) == Encode(a, order)
    requires a.headers == map[] && NUL !in a.url && NUL !in OrEmpty(a.body) && !Doubled([NUL] + OrEmpty(a.proxy))
    ensures SameRequest(a, b)
  {
    hide Sort, Lines, Enumerates, Doubled;
    NoHeaders(a.headers, order);
    BareEncodes(a);
    var ls := Lines(Sort(other));
    var ta := a.url + [NUL] + (OrEmpty(a.body) + [NUL] + ([NUL] + OrEmpty(a.proxy)));
    var tb := b.url + [NUL] + (OrEmpty(b.body) + [NUL] + (ls + [NUL] + OrEmpty(b.proxy)));
    FirstCut(Name(a.verb), ta, Name(b.verb), tb, NUL);
    assert a.verb == b.verb by { assert |Name(a.verb)| == |Name(b.verb)|; }
    LinesEndInNul(Sort(other));
    OnePlace(a.url, OrEmpty(a.body), OrEmpty(a.proxy), b.url, OrEmpty(b.body), ls, OrEmpty(b.proxy));
    SortKeepsLength(other);
    NoHeaders(b.headers, other);
  }

  lemma {:induction false} SortKeepsLength(hs: seq<Header>)
    ensures Sort(hs) == [] <==> hs == []
  {
    if hs != [] { SortHas(hs, hs[0]); }
  }

  lemma {:induction false} LinesEndInNul(hs: seq<Header>)
    ensures Lines(hs) == "" <==> hs == []
    ensures Lines(hs) != "" ==> Lines(hs)[|Lines(hs)| - 1] == NUL
  {
    if hs != [] { LinesEndInNul(hs[1..]); }
  }

  lemma {:induction false} OnePlace(url: Text, body: Text, proxy: Text, url': Text, body': Text, lines: Text,
      proxy': Text)
    requires NUL !in url && NUL !in body && !Doubled([NUL] + proxy)
    requires lines != "" ==> lines[|lines| - 1] == NUL
    requires url + [NUL] + (body + [NUL] + ([NUL] + proxy)) == url' + [NUL] + (body' + [NUL] + (lines + [NUL] + proxy'))
    ensures url == url' && body == body' && lines == "" && proxy == proxy'
  {
    var t := url + [NUL] + (body + [NUL] + ([NUL] + proxy));
    var u, c, c' := |url|, |url| + 1 + |body|, |url'| + 1 + |body'|;
    var q := c' + 1 + |lines|;
    assert t[|url'|] == NUL && t[c'] == NUL && t[q] == NUL && t[q - 1] == NUL;
    NulsOf(url, body, proxy, t, |url'|);
    NulsOf(url, body, proxy, t, c');
    NulsOf(url, body, proxy, t, q - 1);
    NulsOf(url, body, proxy, t, q);
    assert |url'| == u && c' == c && q == c + 1;
    assert t[..u] == url && t[..u] == url';
    assert t[u + 1..c] == body && t[u + 1..c] == body';
    assert t[c + 2..] == proxy && t[c + 2..] == proxy';
  }

  /** Where the NULs of a bare request are, and what follows one. */
  lemma {:induction false} NulsOf(url: Text, body: Text, proxy: Text, t: Text, i: nat)
    requires NUL !in url && NUL !in body && !Doubled([NUL] + proxy)
    requires t == url + [NUL] + (body + [NUL] + ([NUL] + proxy)) && i < |t| && t[i] == NUL
    ensures var c := |url| + 1 + |body|;
      && (i == |url| || i >= c)
      && (i > c && i + 1 < |t| ==> t[i + 1] != NUL)
  {
    var u, c, s := |url|, |url| + 1 + |body|, [NUL] + proxy;
    assert t[..u] == url && t[u + 1..c] == body;
    assert forall k :: 0 <= k < u ==> t[k] == t[..u][k];
    assert forall k :: u < k < c ==> t[k] == t[u + 1..c][k - u - 1];
    if i > c && i + 1 < |t| {
      assert t[i] == s[i - c - 1] && t[i + 1] == s[i - c];
    }
  }

  /** Two requests that share one: a separator inside a body, and one inside a header name. */
  lemma {:induction false} SeparatorsCollide(url: Text)
    ensures var a, b := Request(Get, url, map[], Some([NUL]), None), Request(Get, url, map[], None, Some([NUL]));
      Encode(a, []) == Encode(b, []) && !SameRequest(a, b)
    ensures var c, d := Request(Get, url, map[[SOH] := ""], None, None),
        Request(Get, url, map["" := [SOH]], None, None);
      Encode(c, [([SOH], "")]) == Encode(d, [("", [SOH])]) && c.headers != d.headers
  {
    var h, g: Header := ([SOH], ""), ("", [SOH]);
    assert [h][..0] == [] && [g][..0] == [] && Sort([h]) == [h] && Sort([g]) == [g];
    assert [h][1..] == [] && [g][1..] == [];
    assert Lines([h]) == [SOH, SOH, NUL] && Lines([g]) == [SOH, SOH, NUL];
    assert "" in map["" := [SOH]] && "" !in map[[SOH] := ""] by { assert |""| != |[SOH]|; }
  }

  // ---- the research key ----

  /** A turn limit is a 32-bit number. */
  type Limit = n: nat | n < 0x1_0000_0000

  /** The fields that shape a research answer; a schema is its JSON text. */
  datatype Research = Research(prompt: Text, system: Option<Text>, role: Option<Text>, model: Option<Text>,
                               effort: Option<Text>, maxTurns: Option<Limit>, schema: Option<Text>)

  function Turns(t: Option<Limit>): Text { if t.None? then "" else Decimal.Digits(t.value) }

  function Joined(fields: seq<Text>): Text {
    if fields == [] then "" else fields[0] + [NUL] + Joined(fields[1..])
  }

  function Fields(r: Research): seq<Text> {
    [r.prompt, OrEmpty(r.system), OrEmpty(r.role), OrEmpty(r.model), OrEmpty(r.effort), Turns(r.maxTurns)]
  }

  function EncodeResearch(r: Research): Text {
    Joined(Fields(r)) + OrEmpty(r.schema)
  }

  predicate SeparableResearch(r: Research) {
    && NUL !in r.prompt && NUL !in OrEmpty(r.system) && NUL !in OrEmpty(r.role)
    && NUL !in OrEmpty(r.model) && NUL !in OrEmpty(r.effort)
  }

  predicate Clean(fields: seq<Text>) { forall f :: f in fields ==> NUL !in f }

  lemma {:induction false} FieldsCut(a: seq<Text>, x: Text, b: seq<Text>, y: Text)
    requires |a| == |b| && Clean(a) && Clean(b) && Joined(a) + x == Joined(b) + y
    ensures a == b && x == y
  {
    if a != [] {
      assert a[0] in a && b[0] in b;
      assert Joined(a) + x == a[0] + [NUL] + (Joined(a[1..]) + x);
      assert Joined(b) + y == b[0] + [NUL] + (Joined(b[1..]) + y);
      FirstCut(a[0], Joined(a[1..]) + x, b[0], Joined(b[1..]) + y, NUL);
      assert forall f :: f in a[1..] ==> f in a;
      assert forall f :: f in b[1..] ==> f in b;
      FieldsCut(a[1..], x, b[1..], y);
      assert a == [a[0]] + a[1..] && b == [b[0]] + b[1..];
    } else {
      assert Joined(a) + x == x && Joined(b) + y == y;
    }
  }

  lemma {:induction false} FieldsAreClean(r: Research)
    requires SeparableResearch(r)
    ensures Clean(Fields(r))
  {
  }

  ghost predicate SameResearch(a: Research, b: Research) {
    && a.prompt == b.prompt && OrEmpty(a.system) == OrEmpty(b.system) && OrEmpty(a.role) == OrEmpty(b.role)
    && OrEmpty(a.model) == OrEmpty(b.model) && OrEmpty(a.effort) == OrEmpty(b.effort)
    && a.maxTurns == b.maxTurns && OrEmpty(a.schema) == OrEmpty(b.schema)
  }

  lemma {:induction false} EncodesResearchAs()
    ensures EncodeResearch(Research("p", Some("s"), Some("r"), Some("m"), Some("e"), Some(12), Some("{}")))
         == "p\0s\0r\0m\0e\012\0{}"
    ensures EncodeResearch(Research("p", None, None, None, None, None, None)) == "p\0\0\0\0\0\0"
  {
    hide Joined;
    var a := Research("p", Some("s"), Some("r"), Some("m"), Some("e"), Some(12), Some("{}"));
    var b := Research("p", None, None, None, None, None, None);
    assert Decimal.Digits(12) == "12";
    Unjoined(a);
    Unjoined(b);
  }

  /** The research key's input determines every answer-shaping field, absent counting as empty;
      the turn limit is told apart from its absence. */
  lemma {:induction false} ResearchKeyDetermines(a: Research, b: Research)
    requires SeparableResearch(a) && SeparableResearch(b)
    ensures EncodeResearch(a) == EncodeResearch(b) <==> SameResearch(a, b)
  {
    if EncodeResearch(a) == EncodeResearch(b) {
      FieldsAreClean(a);
      FieldsAreClean(b);
      FieldsCut(Fields(a), OrEmpty(a.schema), Fields(b), OrEmpty(b.schema));
      assert Fields(a)[0] == Fields(b)[0] && Fields(a)[1] == Fields(b)[1] && Fields(a)[2] == Fields(b)[2];
      assert Fields(a)[3] == Fields(b)[3] && Fields(a)[4] == Fields(b)[4] && Fields(a)[5] == Fields(b)[5];
      if a.maxTurns.Some? && b.maxTurns.Some? { Decimal.DigitsInjective(a.maxTurns.value, b.maxTurns.value); }
    }
  }

  /** The text of a turn limit, or of none. */
  predicate TurnsText(s: Text) {
    s == "" || (Decimal.AllDigits(s) && s == Decimal.Digits(Decimal.Value(s)) && Decimal.Value(s) < 0x1_0000_0000)
  }

  /** Somewhere in the schema's text, in front of a NUL and after another or at the start, stands
      what reads as a turn limit. */
  predicate HoldsTurns(schema: Text) {
    exists i, j :: 0 <= i <= j < |schema| && TurnsAt(schema, i, j)
  }

  predicate TurnsAt(schema: Text, i: nat, j: nat)
    requires i <= j < |schema|
  {
    schema[j] == NUL && (i == 0 || schema[i - 1] == NUL) && TurnsText(schema[i..j])
  }

  ghost predicate SharesResearch(a: Research) {
    exists b :: EncodeResearch(b) == EncodeResearch(a) && !SameResearch(a, b)
  }

  /** Which research requests share their input, exactly: those with a NUL in one of the five texts
      in front, and those whose schema could be read as a turn limit and a schema. */
  lemma {:induction false} ResearchSharesExactly(a: Research)
    ensures SharesResearch(a) <==> !SeparableResearch(a) || HoldsTurns(OrEmpty(a.schema))
  {
    hide EncodeResearch, SameResearch, HoldsTurns;
    if !SeparableResearch(a) {
      FieldSplits(a);
    } else if HoldsTurns(OrEmpty(a.schema)) {
      SchemaSplits(a);
    } else {
      forall b: Research | EncodeResearch(b) == EncodeResearch(a) ensures SameResearch(a, b) {
        PlainDetermines(a, b);
      }
    }
  }

  function Pair(a: Text, b: Text): Text { a + [NUL] + b }

  lemma {:induction false} PairAssociates(a: Text, b: Text, c: Text)
    ensures Pair(a, Pair(b, c)) == Pair(Pair(a, b), c)
  {
  }

  /** A NUL can change sides. */
  lemma {:induction false} Moves(a: Text, b: Text, c: Text, rest: Text)
    ensures Pair(a, Pair(Pair(b, c), rest)) == Pair(Pair(a, b), Pair(c, rest))
  {
    hide Pair;
    PairAssociates(b, c, rest);
    PairAssociates(a, b, Pair(c, rest));
  }

  lemma {:induction false} Unjoined(r: Research)
    ensures var rest := Pair(Turns(r.maxTurns), OrEmpty(r.schema));
      && EncodeResearch(r) == Pair(r.prompt, Pair(OrEmpty(r.system), Pair(OrEmpty(r.role), Pair(OrEmpty(r.model),
                                Pair(OrEmpty(r.effort), rest)))))
      && EncodeResearch(r) == Joined(Fields(r)[..5]) + rest
  {
    hide Joined, Pair;
    var fs, schema := Fields(r), OrEmpty(r.schema);
    var rest := Pair(Turns(r.maxTurns), schema);
    assert fs[5..][1..] == [] && fs[4..][1..] == fs[5..] && fs[3..][1..] == fs[4..];
    assert fs[2..][1..] == fs[3..] && fs[1..][1..] == fs[2..];
    JoinedEmpty();
    JoinedPair(fs[5..], schema);
    JoinedPair(fs[4..], schema);
    JoinedPair(fs[3..], schema);
    JoinedPair(fs[2..], schema);
    JoinedPair(fs[1..], schema);
    JoinedPair(fs, schema);
    var front := fs[..5];
    assert front[4..][1..] == [] && front[3..][1..] == front[4..] && front[2..][1..] == front[3..];
    assert front[1..][1..] == front[2..];
    JoinedPair(front[4..], rest);
    JoinedPair(front[3..], rest);
    JoinedPair(front[2..], rest);
    JoinedPair(front[1..], rest);
    JoinedPair(front, rest);
    assert "" + schema == schema && "" + rest == rest;
  }

  lemma {:induction false} JoinedEmpty()
    ensures Joined([]) == ""
  {
  }

  lemma {:induction false} JoinedPair(fields: seq<Text>, rest: Text)
    requires fields != []
    ensures Joined(fields) + rest == Pair(fields[0], Joined(fields[1..]) + rest)
  {
  }

  lemma {:induction false} JoinedStep(fields: seq<Text>)
    requires fields != []
    ensures Joined(fields) == fields[0] + [NUL] + Joined(fields[1..])
    ensures |fields| == 1 ==> Joined(fields[1..]) == ""
  {
  }

  /** A NUL in a field can stand between it and a neighbour. */
  lemma {:induction false} FieldSplits(a: Research)
    requires !SeparableResearch(a)
    ensures SharesResearch(a)
  {
    hide EncodeResearch, Pair;
    var p, s, r, m, e := a.prompt, OrEmpty(a.system), OrEmpty(a.role), OrEmpty(a.model), OrEmpty(a.effort);
    var rest := Pair(Turns(a.maxTurns), OrEmpty(a.schema));
    var b;
    if NUL in p {
      var x, y := SplitPair(p);
      b := a.(prompt := x, system := Some(Pair(y, s)));
      Moves(x, y, s, Pair(r, Pair(m, Pair(e, rest))));
    } else if NUL in s {
      var x, y := SplitPair(s);
      b := a.(prompt := Pair(p, x), system := Some(y));
      Moves(p, x, y, Pair(r, Pair(m, Pair(e, rest))));
    } else if NUL in r {
      var x, y := SplitPair(r);
      b := a.(system := Some(Pair(s, x)), role := Some(y));
      Moves(s, x, y, Pair(m, Pair(e, rest)));
    } else if NUL in m {
      var x, y := SplitPair(m);
      b := a.(role := Some(Pair(r, x)), model := Some(y));
      Moves(r, x, y, Pair(e, rest));
    } else {
      var x, y := SplitPair(e);
      b := a.(model := Some(Pair(m, x)), effort := Some(y));
      Moves(m, x, y, rest);
    }
    Unjoined(a);
    Unjoined(b);
    assert EncodeResearch(b) == EncodeResearch(a) && !SameResearch(a, b);
  }

  lemma {:induction false} SplitPair(s: Text) returns (x: Text, y: Text)
    requires NUL in s
    ensures s == Pair(x, y) && x != s && forall t :: y != Pair(t, s) && s != Pair(t, s) && Pair(t, x) != t
  {
    x, y := SplitAt(s);
  }

  lemma {:induction false} SchemaSplits(a: Research)
    requires HoldsTurns(OrEmpty(a.schema))
    ensures SharesResearch(a)
  {
    hide EncodeResearch, Pair, TurnsText;
    var schema, turns, effort := OrEmpty(a.schema), Turns(a.maxTurns), OrEmpty(a.effort);
    var i, j :| 0 <= i <= j < |schema| && TurnsAt(schema, i, j);
    var t, rest := schema[i..j], schema[j + 1..];
    SchemaPairs(schema, i, j);
    var behind := if i == 0 then turns else Pair(turns, schema[..i - 1]);
    if i > 0 { PairAssociates(turns, schema[..i - 1], Pair(t, rest)); }
    assert Pair(turns, schema) == Pair(behind, Pair(t, rest));
    Longer(effort, behind);
    PairAssociates(effort, behind, Pair(t, rest));
    var limit := TurnsOf(t);
    var b := a.(effort := Some(Pair(effort, behind)), maxTurns := limit, schema := Some(rest));
    Unjoined(a);
    Unjoined(b);
    assert EncodeResearch(b) == EncodeResearch(a) && OrEmpty(b.effort) != effort;
  }

  lemma {:induction false} Longer(a: Text, b: Text)
    ensures Pair(a, b) != a
  {
    assert |Pair(a, b)| > |a|;
  }

  lemma {:induction false} TurnsOf(t: Text) returns (limit: Option<Limit>)
    requires TurnsText(t)
    ensures Turns(limit) == t
  {
    limit := if t == "" then None else Some(Decimal.Value(t));
  }

  lemma {:induction false} SchemaPairs(schema: Text, i: nat, j: nat)
    requires i <= j < |schema| && schema[j] == NUL && (i == 0 || schema[i - 1] == NUL)
    ensures var tail := Pair(schema[i..j], schema[j + 1..]);
      schema == if i == 0 then tail else Pair(schema[..i - 1], tail)
  {
  }

  /** Clean fields are the shortest that can stand in front: as many others reach at least as far,
      and no further only if they are the same. */
  lemma {:induction false} CleanReachesLeast(a: seq<Text>, x: Text, b: seq<Text>, y: Text)
    requires |a| <= |b| && Clean(a) && Joined(a) + x == Joined(b) + y
    ensures |Joined(a)| <= |Joined(b)|
    ensures |Joined(a)| == |Joined(b)| ==> a == b
  {
    if a == [] {
      if b != [] { JoinedStep(b); }
    } else {
      var ra, rb := Joined(a[1..]) + x, Joined(b[1..]) + y;
      JoinedStep(a);
      JoinedStep(b);
      assert forall f :: f in a[1..] ==> f in a;
      assert Joined(a) + x == a[0] + [NUL] + ra && Joined(b) + y == b[0] + [NUL] + rb;
      assert a[0] in a;
      assert a == [a[0]] + a[1..] && b == [b[0]] + b[1..];
      var further := FirstIsShortest(a[0], ra, b[0], rb);
      if further == None {
        CleanReachesLeast(a[1..], x, b[1..], y);
      } else {
        var more := [further.value] + b[1..];
        JoinedStep(more);
        assert more[1..] == b[1..];
        CleanReachesLeast(a[1..], x, more, y);
      }
    }
  }

  lemma {:induction false} FirstIsShortest(a: Text, x: Text, b: Text, y: Text) returns (further: Option<Text>)
    requires NUL !in a && a + [NUL] + x == b + [NUL] + y
    ensures further == None ==> a == b && x == y
    ensures further.Some? ==> b == a + [NUL] + further.value && x == further.value + [NUL] + y
  {
    var s := a + [NUL] + x;
    assert s[|b|] == NUL;
    assert s[..|a|] == a;
    assert |b| >= |a|;
    assert b[..|a|] == a;
    if |b| == |a| {
      further := None;
      assert s[|a| + 1..] == x && s[|b| + 1..] == y;
    } else {
      assert s[|a|] == NUL == b[|a|];
      var rest := b[|a| + 1..];
      further := Some(rest);
      assert b == a + [NUL] + rest;
      assert s[|a| + 1..] == x && s[|a| + 1..] == rest + [NUL] + y;
    }
  }

  lemma {:induction false} JoinedEnds(fields: seq<Text>)
    requires fields != []
    ensures Joined(fields) != "" && Joined(fields)[|Joined(fields)| - 1] == NUL
  {
    if |fields| > 1 { JoinedEnds(fields[1..]); }
  }

  lemma {:induction false} TurnsAreClean(t: Option<Limit>)
    ensures NUL !in Turns(t) && TurnsText(Turns(t))
  {
    if t.Some? { Decimal.ValueOfDigits(t.value); }
  }

  lemma {:induction false} PlainDetermines(a: Research, b: Research)
    requires SeparableResearch(a) && !HoldsTurns(OrEmpty(a.schema)) && EncodeResearch(b) == EncodeResearch(a)
    ensures SameResearch(a, b)
  {
    hide EncodeResearch, HoldsTurns, TurnsText, Turns, Joined, Pair, SameResearch;
    var fa, fb := Fields(a)[..5], Fields(b)[..5];
    var x, y := Pair(Turns(a.maxTurns), OrEmpty(a.schema)), Pair(Turns(b.maxTurns), OrEmpty(b.schema));
    Unjoined(a);
    Unjoined(b);
    FieldsAreClean(a);
    assert forall f :: f in fa ==> f in Fields(a);
    CleanReachesLeast(fa, x, fb, y);
    TurnsAreClean(a.maxTurns);
    TurnsAreClean(b.maxTurns);
    var z := Remainder(Joined(fa), x, Joined(fb), y);
    if z == "" {
      assert Joined(fa) + z == Joined(fa) && z + y == y;
      SameFields(a, b);
    } else {
      JoinedEnds(fb);
      FurtherHolds(Turns(a.maxTurns), OrEmpty(a.schema), z, Turns(b.maxTurns), OrEmpty(b.schema));
    }
  }

  lemma {:induction false} Remainder(p: Text, x: Text, q: Text, y: Text) returns (z: Text)
    requires p + x == q + y && |p| <= |q|
    ensures q == p + z && x == z + y
    ensures z != "" ==> z[|z| - 1] == q[|q| - 1]
  {
    var s := p + x;
    z := s[|p|..|q|];
    assert s[..|p|] == p && s[..|q|] == q && s[|p|..] == x && s[|q|..] == y;
  }

  lemma {:induction false} SameFields(a: Research, b: Research)
    requires SeparableResearch(a) && Fields(a)[..5] == Fields(b)[..5]
    requires Pair(Turns(a.maxTurns), OrEmpty(a.schema)) == Pair(Turns(b.maxTurns), OrEmpty(b.schema))
    ensures SameResearch(a, b)
  {
    TurnsAreClean(a.maxTurns);
    TurnsAreClean(b.maxTurns);
    FirstCut(Turns(a.maxTurns), OrEmpty(a.schema), Turns(b.maxTurns), OrEmpty(b.schema), NUL);
    var fa, fb := Fields(a)[..5], Fields(b)[..5];
    assert fa[0] == fb[0] && fa[1] == fb[1] && fa[2] == fb[2] && fa[3] == fb[3] && fa[4] == fb[4];
    if a.maxTurns.Some? && b.maxTurns.Some? { Decimal.DigitsInjective(a.maxTurns.value, b.maxTurns.value); }
  }

  /** A turn limit read further on stands in the schema. */
  lemma {:induction false} FurtherHolds(turns: Text, schema: Text, z: Text, turns': Text, schema': Text)
    requires NUL !in turns && z != "" && z[|z| - 1] == NUL && TurnsText(turns')
    requires Pair(turns, schema) == z + Pair(turns', schema')
    ensures HoldsTurns(schema)
  {
    hide TurnsText;
    var s, k := turns + [NUL] + schema, |turns| + 1;
    assert s[|z| - 1] == NUL;
    assert s[..|turns|] == turns;
    assert |z| >= k;
    var i := |z| - k;
    var j := i + |turns'|;
    assert s[k..] == schema;
    assert schema[i..j] == s[|z|..|z| + |turns'|] == turns';
    assert schema[j] == s[|z| + |turns'|] == NUL;
    assert i > 0 ==> schema[i - 1] == s[|z| - 1];
    assert TurnsAt(schema, i, j);
  }

  /** The key extended by the researcher's fingerprint; `hash` stands for the digest's hex text. */
  function KeyWith(hash: Text -> Text, r: Research, fingerprint: Text): Text {
    if fingerprint == "" then hash(EncodeResearch(r)) else hash(hash(EncodeResearch(r)) + [NUL] + fingerprint)
  }

  /** The plain key is the digest of the request; a fingerprint is appended to its text behind a NUL
      and digested again. */
  lemma {:induction false} KeyWithIs(hash: Text -> Text, r: Research, fingerprint: Text)
    ensures KeyWith(hash, r, "") == hash(EncodeResearch(r))
    ensures fingerprint != "" ==> KeyWith(hash, r, fingerprint) == hash(hash(EncodeResearch(r)) + "\0" + fingerprint)
  {
  }

  /** Under a digest without collisions, two extended keys are equal exactly for the same request
      and the same fingerprint: a plain key never meets an extended one. */
  lemma {:induction false} KeyWithDetermines(hash: Text -> Text, a: Research, fa: Text, b: Research, fb: Text)
    requires forall s, t :: hash(s) == hash(t) ==> s == t
    requires forall s :: NUL !in hash(s)
    requires SeparableResearch(a) && SeparableResearch(b) && NUL !in fa && NUL !in fb
    ensures KeyWith(hash, a, fa) == KeyWith(hash, b, fb) <==> SameResearch(a, b) && fa == fb
  {
    ResearchKeyDetermines(a, b);
    var ha, hb := hash(EncodeResearch(a)), hash(EncodeResearch(b));
    if fa != "" && fb != "" {
      if ha + [NUL] + fa == hb + [NUL] + fb { FirstCut(ha, fa, hb, fb, NUL); }
    } else if fa != "" {
      PlainIsNotExtended(b, ha, fa);
    } else if fb != "" {
      PlainIsNotExtended(a, hb, fb);
    }
  }

  lemma {:induction false} PlainIsNotExtended(r: Research, base: Text, fingerprint: Text)
    requires SeparableResearch(r) && NUL !in base && NUL !in fingerprint
    ensures EncodeResearch(r) != base + [NUL] + fingerprint
  {
    var fs := Fields(r)[1..];
    var rest := Joined(fs) + OrEmpty(r.schema);
    assert EncodeResearch(r) == r.prompt + [NUL] + rest;
    assert Joined(fs) == fs[0] + [NUL] + Joined(fs[1..]);
    assert rest[|fs[0]|] == NUL && NUL in rest;
    if EncodeResearch(r) == base + [NUL] + fingerprint {
      FirstCut(r.prompt, rest, base, fingerprint, NUL);
    }
  }
}
