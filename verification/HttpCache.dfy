/** The HTTP response cache (cache.rs) as a state machine over its table. Times are microseconds;
    a key is a SHA-256 digest, whose fixed-width hex form orders as the number does. */
module HttpCache {
  import opened Wrappers

  type Digest = nat

  datatype Response = Response(status: int, headers: map<string, string>, body: string, finalUrl: string)

  datatype Row = Row(url: string, response: Response, createdAt: int, expiresAt: int)

  type Table = map<Digest, Row>

  const SECOND: int := 1_000_000
  const HOUR: int := 3600 * SECOND
  const EVICT_MAX_PER_PASS: nat := 5000
  const MAX_SPAN: nat := 0x7FFF_FFFF_FFFF_FFFF * 1000  // i64::MAX milliseconds

  predicate Success(r: Response) { 200 <= r.status <= 299 }

  /** A TTL too long for the clock's arithmetic counts as an hour. */
  function Span(ttl: nat): nat { if ttl <= MAX_SPAN then ttl else HOUR }

  // ---- what each call does to the table ----

  datatype Event =
    | Put(key: Digest, url: string, response: Response, ttl: nat, at: int)
    | Refresh(key: Digest, ttl: nat, at: int)
    | Purge(at: int)
    | Evict(at: int)

  /** An existing row keeps its url. */
  function AfterPut(t: Table, key: Digest, url: string, r: Response, ttl: nat, at: int): Table {
    if !Success(r) then t
    else t[key := Row(if key in t then t[key].url else url, r, at, at + Span(ttl))]
  }

  function AfterRefresh(t: Table, key: Digest, ttl: nat, at: int): Table {
    if key in t then t[key := t[key].(createdAt := at, expiresAt := at + Span(ttl))] else t
  }

  function AfterPurge(t: Table, at: int): Table {
    map k | k in t && t[k].expiresAt > at :: t[k]
  }

  ghost function After(t: Table, e: Event, maxRows: nat): Table {
    match e
    case Put(key, url, r, ttl, at) => AfterPut(t, key, url, r, ttl, at)
    case Refresh(key, ttl, at) => AfterRefresh(t, key, ttl, at)
    case Purge(at) => AfterPurge(t, at)
    case Evict(_) => AfterEvict(t, maxRows)
  }

  ghost function Run(t: Table, trace: seq<Event>, maxRows: nat): Table {
    if trace == [] then t else After(Run(t, trace[..|trace| - 1], maxRows), trace[|trace| - 1], maxRows)
  }

  function Hit(t: Table, key: Digest, maxAge: Option<nat>, now: int): Option<Response> {
    if key in t && t[key].expiresAt > now
       && (maxAge.None? || maxAge.value > MAX_SPAN || t[key].createdAt > now - maxAge.value)
    then Some(t[key].response) else None
  }

  // ---- eviction ----

  /** Oldest-confirmed first, keys breaking ties. */
  predicate Older(t: Table, a: Digest, b: Digest)
    requires a in t && b in t
  {
    t[a].createdAt < t[b].createdAt || (t[a].createdAt == t[b].createdAt && a < b)
  }

  ghost predicate IsOldest(t: Table, k: Digest) {
    k in t && forall j :: j in t && j != k ==> Older(t, k, j)
  }

  lemma {:induction false} HasOldest(t: Table)
    requires t != map[]
    ensures exists k :: IsOldest(t, k)
    decreases |t|
  {
    var k :| k in t;
    var rest := t - {k};
    if rest == map[] {
      assert forall j :: j in t && j != k ==> j in rest;
      assert IsOldest(t, k);
    } else {
      assert rest.Keys == t.Keys - {k} && |rest| == |rest.Keys| && |t| == |t.Keys|;
      HasOldest(rest);
      var m :| IsOldest(rest, m);
      assert IsOldest(t, if Older(t, k, m) then k else m) by {
        forall j | j in t && j != k && j != m ensures Older(t, m, j) {
          assert j in rest;
        }
      }
    }
  }

  lemma {:induction false} OneOldest(t: Table, a: Digest, b: Digest)
    requires IsOldest(t, a) && IsOldest(t, b)
    ensures a == b
  {
  }

  ghost function Oldest(t: Table): (k: Digest)
    requires t != map[]
    ensures IsOldest(t, k)
  {
    HasOldest(t);
    var k :| IsOldest(t, k);
    k
  }

  /** The table without its `n` oldest rows. */
  ghost function Evicted(t: Table, n: nat): Table {
    if n == 0 || t == map[] then t else Evicted(t - {Oldest(t)}, n - 1)
  }

  function Excess(rows: nat, maxRows: nat): nat {
    if maxRows == 0 || rows <= maxRows then 0 else rows - maxRows
  }

  function PassSize(rows: nat, maxRows: nat): nat {
    var over := Excess(rows, maxRows);
    if over <= EVICT_MAX_PER_PASS then over else EVICT_MAX_PER_PASS
  }

  ghost function AfterEvict(t: Table, maxRows: nat): Table {
    Evicted(t, PassSize(|t|, maxRows))
  }

  /** Evicting `n` rows removes exactly `n`, keeps the rest as they are, and every survivor is
      greater in (created_at, key) than every row removed. */
  lemma {:induction false} EvictedAre(t: Table, n: nat)
    requires n <= |t|
    ensures |Evicted(t, n)| == |t| - n
    ensures forall k :: k in Evicted(t, n) ==> k in t && Evicted(t, n)[k] == t[k]
    ensures forall gone, kept :: gone in t && gone !in Evicted(t, n) && kept in Evicted(t, n) ==> Older(t, gone, kept)
    decreases n
  {
    if n > 0 {
      var o := Oldest(t);
      var rest := t - {o};
      assert rest.Keys == t.Keys - {o} && |rest| == |rest.Keys| && |t| == |t.Keys|;
      EvictedAre(rest, n - 1);
      forall gone, kept | gone in t && gone !in Evicted(t, n) && kept in Evicted(t, n) ensures Older(t, gone, kept) {
        assert kept in rest;
        if gone != o { assert gone in rest && Older(rest, gone, kept); }
      }
    }
  }

  lemma {:induction false} EvictedTwice(t: Table, a: nat, b: nat)
    requires a + b <= |t|
    ensures Evicted(Evicted(t, a), b) == Evicted(t, a + b)
    decreases a
  {
    if a > 0 {
      var rest := t - {Oldest(t)};
      assert rest.Keys == t.Keys - {Oldest(t)} && |rest| == |rest.Keys| && |t| == |t.Keys|;
      EvictedTwice(rest, a - 1, b);
    }
  }

  lemma {:induction false} EvictNone(t: Table)
    ensures Evicted(t, 0) == t
  {
  }

  lemma {:induction false} EvictOne(t: Table, n: nat, victim: Digest)
    requires n < |t| && IsOldest(Evicted(t, n), victim)
    ensures Evicted(t, n) - {victim} == Evicted(t, n + 1)
    ensures |Evicted(t, n + 1)| == |t| - n - 1
  {
    var rest := Evicted(t, n);
    OneOldest(rest, victim, Oldest(rest));
    EvictedTwice(t, n, 1);
    EvictedAre(t, n + 1);
    assert Evicted(rest, 1) == Evicted(rest - {victim}, 0);
  }

  /** What is left was confirmed later than what went, or at the same time under a greater key. */
  lemma {:induction false} SurvivorsAreNewer(t: Table, n: nat, gone: Digest, kept: Digest)
    requires n <= |t| && gone in t && gone !in Evicted(t, n) && kept in Evicted(t, n)
    ensures kept in t
    ensures t[gone].createdAt < t[kept].createdAt || (t[gone].createdAt == t[kept].createdAt && gone < kept)
  {
    hide Evicted;
    EvictedAre(t, n);
  }

  /** The rows a pass takes before this one. */
  ghost function OlderRows(t: Table, key: Digest): set<Digest>
    requires key in t
  {
    set j | j in t && Older(t, j, key)
  }

  ghost function Rank(t: Table, key: Digest): nat
    requires key in t
  {
    |OlderRows(t, key)|
  }

  /** What evicting `n` rows spares, exactly: the rows with at least `n` older ones. */
  lemma {:induction false} EvictedExactly(t: Table, n: nat, key: Digest)
    requires key in t
    ensures key in Evicted(t, n) <==> Rank(t, key) >= n
    decreases n
  {
    if n > 0 {
      var o := Oldest(t);
      var rest := t - {o};
      if key == o {
        assert OlderRows(t, key) == {};
        GoneStaysGone(rest, n - 1, key);
      } else {
        assert OlderRows(t, key) == OlderRows(rest, key) + {o};
        EvictedExactly(rest, n - 1, key);
      }
    }
  }

  lemma {:induction false} GoneStaysGone(t: Table, n: nat, key: Digest)
    requires key !in t
    ensures key !in Evicted(t, n)
    decreases n
  {
    if n > 0 && t != map[] { GoneStaysGone(t - {Oldest(t)}, n - 1, key); }
  }

  /** One pass: nothing without a cap or within it, else down to the cap or by 5000 rows. */
  lemma {:induction false} PassExactlyTo(t: Table, maxRows: nat)
    ensures maxRows == 0 || |t| <= maxRows ==> AfterEvict(t, maxRows) == t
    ensures 0 < maxRows < |t| ==>
      |AfterEvict(t, maxRows)| == if |t| - maxRows <= 5000 then maxRows else |t| - 5000
  {
    hide Evicted;
    if maxRows == 0 || |t| <= maxRows { EvictNone(t); } else { EvictedAre(t, PassSize(|t|, maxRows)); }
  }

  ghost function Passes(t: Table, maxRows: nat, n: nat): Table {
    if n == 0 then t else AfterEvict(Passes(t, maxRows, n - 1), maxRows)
  }

  /** After `n` passes with no writes in between, the 5000·n oldest rows over the cap are gone and
      nothing else: the store holds its newest rows, as many as `max_rows`, after exactly
      ceil(over / 5000) passes and not before. An unbounded store keeps everything. */
  lemma {:induction false} EvictionConverges(t: Table, maxRows: nat, n: nat)
    ensures var over := Excess(|t|, maxRows);
      && Passes(t, maxRows, n) == Evicted(t, Min(over, n * EVICT_MAX_PER_PASS))
      && |Passes(t, maxRows, n)| == |t| - Min(over, n * EVICT_MAX_PER_PASS)
      && (over > 0 ==> (|Passes(t, maxRows, n)| == maxRows <==>
          n >= (over + EVICT_MAX_PER_PASS - 1) / EVICT_MAX_PER_PASS))
  {
    var over := Excess(|t|, maxRows);
    EvictedAre(t, Min(over, n * EVICT_MAX_PER_PASS));
    if n > 0 {
      var done := Min(over, (n - 1) * EVICT_MAX_PER_PASS);
      EvictionConverges(t, maxRows, n - 1);
      EvictedTwice(t, done, PassSize(|t| - done, maxRows));
    }
  }

  // ---- what a hit means ----

  /** `i` is the last stored response for the key. */
  ghost predicate LastStored(trace: seq<Event>, i: nat, key: Digest) {
    && i < |trace| && trace[i].Put? && trace[i].key == key && Success(trace[i].response)
    && forall j :: i < j < |trace| ==> !(trace[j].Put? && trace[j].key == key && Success(trace[j].response))
  }

  /** `j` is the last time the origin confirmed the key: a stored response or a refresh. */
  ghost predicate LastConfirmed(trace: seq<Event>, j: nat, key: Digest) {
    && j < |trace| && Confirms(trace[j], key)
    && forall l :: j < l < |trace| ==> !Confirms(trace[l], key)
  }

  predicate Confirms(e: Event, key: Digest) {
    (e.Put? && e.key == key && Success(e.response)) || (e.Refresh? && e.key == key)
  }

  /** Every row of a cache that started empty is its key's last stored response, dated by the
      last confirmation. */
  lemma {:induction false} RowIs(trace: seq<Event>, maxRows: nat, key: Digest) returns (i: nat, j: nat)
    requires key in Run(map[], trace, maxRows)
    ensures LastStored(trace, i, key) && LastConfirmed(trace, j, key) && i <= j
    ensures var row := Run(map[], trace, maxRows)[key];
      row.response == trace[i].response && row.createdAt == trace[j].at
          && row.expiresAt == trace[j].at + Span(trace[j].ttl)
    decreases |trace|
  {
    var n := |trace| - 1;
    var front, e := trace[..n], trace[n];
    var before := Run(map[], front, maxRows);
    if e.Put? && e.key == key && Success(e.response) {
      return n, n;
    }
    if e.Evict? { EvictedAre(before, PassSize(|before|, maxRows)); }
    assert key in before;
    i, j := RowIs(front, maxRows, key);
    assert forall l :: 0 <= l < n ==> trace[l] == front[l];
    if e.Refresh? && e.key == key { j := n; }
  }

  /** A confirmation has not run out: the TTL given with it has not passed, or, if that is over
      2^63 - 1 milliseconds, an hour. */
  ghost predicate Lasts(e: Event, now: int) {
    && (e.Put? || e.Refresh?)
    && (e.ttl <= 9_223_372_036_854_775_807_000 ==> now < e.at + e.ttl)
    && (e.ttl > 9_223_372_036_854_775_807_000 ==> now < e.at + 3_600_000_000)
  }

  /** Confirmed within `max_age`; one over 2^63 - 1 milliseconds is no bound. */
  ghost predicate Recent(e: Event, maxAge: Option<nat>, now: int) {
    maxAge.Some? && maxAge.value <= 9_223_372_036_854_775_807_000 ==> now - maxAge.value < e.at
  }

  /** A hit is exactly the response of the last stored put for the key, unexpired, and confirmed
      within `max_age`. */
  lemma {:induction false} HitIsLastStored(trace: seq<Event>, maxRows: nat, key: Digest, maxAge: Option<nat>, now: int)
      returns (i: nat, j: nat)
    requires Hit(Run(map[], trace, maxRows), key, maxAge, now).Some?
    ensures LastStored(trace, i, key) && LastConfirmed(trace, j, key) && i <= j
    ensures Hit(Run(map[], trace, maxRows), key, maxAge, now) == Some(trace[i].response)
    ensures Lasts(trace[j], now) && Recent(trace[j], maxAge, now)
  {
    i, j := RowIs(trace, maxRows, key);
  }

  /** What a caller may rely on when it is served `r`. */
  ghost predicate Honest(trace: seq<Event>, key: Digest, maxAge: Option<nat>, now: int, r: Response) {
    exists i: nat, j: nat ::
      && LastStored(trace, i, key) && LastConfirmed(trace, j, key) && r == trace[i].response
      && Lasts(trace[j], now) && Recent(trace[j], maxAge, now)
  }

  /** A stored response is served for as long as no confirmation of it has run out and the last one
      is recent enough, purges or not, if no eviction pass ran. */
  lemma {:induction false} LiveIsServed(trace: seq<Event>, maxRows: nat, key: Digest, maxAge: Option<nat>, now: int,
      i: nat, j: nat)
    requires LastStored(trace, i, key) && LastConfirmed(trace, j, key) && Recent(trace[j], maxAge, now)
    requires forall l :: 0 <= l < |trace| ==> !trace[l].Evict? && trace[l].at <= now
    requires forall l :: i <= l < |trace| && Confirms(trace[l], key) ==> Lasts(trace[l], now)
    ensures Hit(Run(map[], trace, maxRows), key, maxAge, now) == Some(trace[i].response)
  {
    StaysStored(trace, maxRows, key, now, i);
    var last, confirmed := RowIs(trace, maxRows, key);
    assert last == i && confirmed == j;
  }

  /** What counts as stored, and a minute that passes. */
  lemma {:induction false} SuccessIs(r: Response)
    ensures Success(r) <==> r.status / 100 == 2
  {
  }

  lemma {:induction false} ExpiresInTime(key: Digest, url: string, r: Response, maxRows: nat)
    requires r.status == 200
    ensures var t := Run(map[], [Put(key, url, r, 60_000_000, 0)], maxRows);
      && Hit(t, key, None, 59_999_999) == Some(r) && Hit(t, key, None, 60_000_000) == None
      && Hit(t, key, Some(30_000_000), 29_999_999) == Some(r) && Hit(t, key, Some(30_000_000), 30_000_000) == None
  {
    var trace := [Put(key, url, r, 60_000_000, 0)];
    assert trace[..0] == [] && Run(map[], trace, maxRows) == After(map[], trace[0], maxRows);
  }

  /** A row keeps the url it was first stored under, as long as it is not removed. */
  lemma {:induction false} UrlIsFirst(trace: seq<Event>, maxRows: nat, key: Digest) returns (f: nat)
    requires key in Run(map[], trace, maxRows)
    ensures f < |trace| && trace[f].Put? && trace[f].key == key && Success(trace[f].response)
    ensures key !in Run(map[], trace[..f], maxRows)
    ensures forall n :: f < n <= |trace| ==> key in Run(map[], trace[..n], maxRows)
    ensures Run(map[], trace, maxRows)[key].url == trace[f].url
    decreases |trace|
  {
    var n := |trace| - 1;
    var front, e := trace[..n], trace[n];
    var before := Run(map[], front, maxRows);
    assert trace[..|trace|] == trace;
    if key !in before {
      if e.Evict? { EvictedAre(before, PassSize(|before|, maxRows)); }
      return n;
    }
    if e.Evict? { EvictedAre(before, PassSize(|before|, maxRows)); }
    f := UrlIsFirst(front, maxRows, key);
    assert forall l: nat :: l <= n ==> front[..l] == trace[..l];
  }

  /** Eviction takes what the origin confirmed least recently. */
  lemma {:induction false} EvictionSparesConfirmed(trace: seq<Event>, maxRows: nat, gone: Digest, kept: Digest,
      i: nat, j: nat)
    requires gone in Run(map[], trace, maxRows) && LastConfirmed(trace, i, gone) && LastConfirmed(trace, j, kept)
    requires gone !in AfterEvict(Run(map[], trace, maxRows), maxRows)
    requires kept in AfterEvict(Run(map[], trace, maxRows), maxRows)
    ensures trace[i].at <= trace[j].at
  {
    var t := Run(map[], trace, maxRows);
    EvictedAre(t, PassSize(|t|, maxRows));
    var _, i' := RowIs(trace, maxRows, gone);
    var _, j' := RowIs(trace, maxRows, kept);
    assert i' == i && j' == j;
  }

  lemma {:induction false} StaysStored(trace: seq<Event>, maxRows: nat, key: Digest, now: int, i: nat)
    requires i < |trace| && trace[i].Put? && trace[i].key == key && Success(trace[i].response)
    requires forall l :: 0 <= l < |trace| ==> !trace[l].Evict? && trace[l].at <= now
    requires forall l :: i <= l < |trace| && Confirms(trace[l], key) ==> Lasts(trace[l], now)
    ensures key in Run(map[], trace, maxRows) && Run(map[], trace, maxRows)[key].expiresAt > now
  {
    var n := |trace| - 1;
    var front, e := trace[..n], trace[n];
    if i < n {
      assert forall l :: 0 <= l < n ==> front[l] == trace[l];
      StaysStored(front, maxRows, key, now, i);
    }
    assert Confirms(e, key) ==> Lasts(e, now);
  }

  // ---- what a purge changes ----

  /** Two tables answer alike about a key from `now` on: both hold the same row, or one holds none
      and the other at most an expired one. */
  ghost predicate Alike(a: Table, b: Table, key: Digest, now: int) {
    if key in a && key in b then SameRow(a[key], b[key])
    else (key in a ==> a[key].expiresAt <= now) && (key in b ==> b[key].expiresAt <= now)
  }

  /** A row's url plays no part in an answer. */
  predicate SameRow(r: Row, q: Row) {
    r.response == q.response && r.createdAt == q.createdAt && r.expiresAt == q.expiresAt
  }

  ghost predicate SameAnswers(a: Table, b: Table, key: Digest, since: int) {
    forall maxAge: Option<nat>, now: int :: since <= now ==> Hit(a, key, maxAge, now) == Hit(b, key, maxAge, now)
  }

  lemma {:induction false} AlikeAnswers(a: Table, b: Table, key: Digest, since: int)
    requires Alike(a, b, key, since)
    ensures SameAnswers(a, b, key, since)
  {
  }

  /** What an event needs so that two tables go on answering alike about the key: a refresh of it
      must find it in both tables or in neither, and a pass that finds it live in both must spare
      it in both or take it from both. */
  ghost predicate Agrees(a: Table, b: Table, e: Event, key: Digest, maxRows: nat) {
    match e
    case Refresh(k, ttl, _) => k == key && Span(ttl) > 0 ==> (key in a <==> key in b)
    case Evict(at) =>
      key in a && key in b && a[key].expiresAt > at && b[key].expiresAt > at ==>
        (Rank(a, key) >= PassSize(|a|, maxRows) <==> Rank(b, key) >= PassSize(|b|, maxRows))
    case _ => true
  }

  /** One event, exactly: answers that were alike stay alike if and only if the event agrees. */
  lemma {:induction false} EventExactly(a: Table, b: Table, e: Event, key: Digest, maxRows: nat)
    requires Alike(a, b, key, e.at)
    ensures Agrees(a, b, e, key, maxRows) ==> Alike(After(a, e, maxRows), After(b, e, maxRows), key, e.at)
    ensures SameAnswers(After(a, e, maxRows), After(b, e, maxRows), key, e.at) <==> Agrees(a, b, e, key, maxRows)
  {
    hide Evicted, Rank;
    var a', b' := After(a, e, maxRows), After(b, e, maxRows);
    if e.Evict? {
      PassExactly(a, maxRows, key);
      PassExactly(b, maxRows, key);
    }
    if Agrees(a, b, e, key, maxRows) {
      AlikeAnswers(a', b', key, e.at);
    } else {
      assert Hit(a', key, None, e.at) != Hit(b', key, None, e.at);
    }
  }

  /** What a pass does to one row. */
  lemma {:induction false} PassExactly(t: Table, maxRows: nat, key: Digest)
    ensures key in AfterEvict(t, maxRows) <==> key in t && Rank(t, key) >= PassSize(|t|, maxRows)
    ensures key in AfterEvict(t, maxRows) ==> AfterEvict(t, maxRows)[key] == t[key]
  {
    hide Rank;
    EvictedAre(t, PassSize(|t|, maxRows));
    if key in t { EvictedExactly(t, PassSize(|t|, maxRows), key); }
  }

  ghost predicate Clocked(at: int, more: seq<Event>) {
    (forall i :: 0 <= i < |more| ==> at <= more[i].at)
        && (forall i, j :: 0 <= i < j < |more| ==> more[i].at <= more[j].at)
  }

  function LastAt(at: int, more: seq<Event>): int { if more == [] then at else more[|more| - 1].at }

  /** No caller can tell, at any time during the traffic. */
  ghost predicate NoneTells(t: Table, at: int, more: seq<Event>, maxRows: nat, key: Digest) {
    forall n: nat :: n <= |more| ==>
      SameAnswers(Run(AfterPurge(t, at), more[..n], maxRows), Run(t, more[..n], maxRows), key, LastAt(at, more[..n]))
  }

  ghost predicate AllAgree(t: Table, at: int, more: seq<Event>, maxRows: nat, key: Digest, n: nat)
    requires n <= |more|
  {
    forall i: nat :: i < n ==>
      Agrees(Run(AfterPurge(t, at), more[..i], maxRows), Run(t, more[..i], maxRows), more[i], key, maxRows)
  }

  lemma {:induction false} AgreeingRuns(t: Table, at: int, more: seq<Event>, maxRows: nat, key: Digest, n: nat)
    requires Clocked(at, more) && n <= |more| && AllAgree(t, at, more, maxRows, key, n)
    ensures Alike(Run(AfterPurge(t, at), more[..n], maxRows), Run(t, more[..n], maxRows), key, LastAt(at, more[..n]))
  {
    if n > 0 {
      AgreeingRuns(t, at, more, maxRows, key, n - 1);
      RunStep(AfterPurge(t, at), more, maxRows, n - 1);
      RunStep(t, more, maxRows, n - 1);
      var a, b := Run(AfterPurge(t, at), more[..n - 1], maxRows), Run(t, more[..n - 1], maxRows);
      assert LastAt(at, more[..n - 1]) <= more[n - 1].at;
      hide Run, After, Agrees, AfterPurge;
      EventExactly(a, b, more[n - 1], key, maxRows);
    }
  }

  lemma {:induction false} RunStep(t: Table, more: seq<Event>, maxRows: nat, i: nat)
    requires i < |more|
    ensures Run(t, more[..i + 1], maxRows) == After(Run(t, more[..i], maxRows), more[i], maxRows)
  {
    assert more[..i + 1][..i] == more[..i];
  }

  /** When a purge shows, exactly: over any traffic that follows, no answer for a key ever differs
      from what it would have been without the purge, if and only if every refresh of that key
      finds it in both tables or in neither and every eviction pass that finds it live treats it
      alike in both. */
  lemma {:induction false} PurgeShowsExactly(t: Table, at: int, more: seq<Event>, maxRows: nat, key: Digest)
    requires Clocked(at, more)
    ensures NoneTells(t, at, more, maxRows, key) <==> AllAgree(t, at, more, maxRows, key, |more|)
  {
    hide Run, AfterPurge, Alike, SameAnswers, Agrees;
    if AllAgree(t, at, more, maxRows, key, |more|) {
      forall n: nat | n <= |more|
        ensures SameAnswers(Run(AfterPurge(t, at), more[..n], maxRows), Run(t, more[..n], maxRows), key,
            LastAt(at, more[..n]))
      {
        AgreeingRuns(t, at, more, maxRows, key, n);
        AlikeAnswers(Run(AfterPurge(t, at), more[..n], maxRows), Run(t, more[..n], maxRows), key,
            LastAt(at, more[..n]));
      }
    }
    if NoneTells(t, at, more, maxRows, key) {
      NoneToldYet(t, at, more, maxRows, key, |more|);
    }
  }

  lemma {:induction false} NoneToldYet(t: Table, at: int, more: seq<Event>, maxRows: nat, key: Digest, n: nat)
    requires Clocked(at, more) && NoneTells(t, at, more, maxRows, key) && n <= |more|
    ensures AllAgree(t, at, more, maxRows, key, n)
  {
    hide Run, After, AfterPurge, Alike, SameAnswers, Agrees;
    if n > 0 {
      NoneToldYet(t, at, more, maxRows, key, n - 1);
      AgreeingRuns(t, at, more, maxRows, key, n - 1);
      RunStep(AfterPurge(t, at), more, maxRows, n - 1);
      RunStep(t, more, maxRows, n - 1);
      var a, b := Run(AfterPurge(t, at), more[..n - 1], maxRows), Run(t, more[..n - 1], maxRows);
      AlikeLater(a, b, key, LastAt(at, more[..n - 1]), more[n - 1].at);
      EventExactly(a, b, more[n - 1], key, maxRows);
      assert SameAnswers(Run(AfterPurge(t, at), more[..n], maxRows), Run(t, more[..n], maxRows), key,
          LastAt(at, more[..n]));
    }
  }

  lemma {:induction false} AlikeLater(a: Table, b: Table, key: Digest, now: int, later: int)
    requires Alike(a, b, key, now) && now <= later
    ensures Alike(a, b, key, later)
  {
  }

  // ---- two ways of seeing that it does not, and two of seeing that it does ----

  /** Everything the smaller table holds the larger one holds too, with the same dates. */
  ghost predicate Inside(a: Table, b: Table) {
    forall k :: k in a ==> k in b && a[k].createdAt == b[k].createdAt && a[k].expiresAt == b[k].expiresAt
  }

  /** A pass that finds the table within the cap evicts nothing. */
  ghost predicate WithinCap(t: Table, more: seq<Event>, maxRows: nat) {
    forall i: nat :: i < |more| && more[i].Evict? ==> Excess(|Run(t, more[..i], maxRows)|, maxRows) == 0
  }

  lemma {:induction false} StaysInside(t: Table, at: int, more: seq<Event>, maxRows: nat, n: nat)
    requires WithinCap(t, more, maxRows) && n <= |more|
    ensures Inside(Run(AfterPurge(t, at), more[..n], maxRows), Run(t, more[..n], maxRows))
  {
    if n > 0 {
      StaysInside(t, at, more, maxRows, n - 1);
      RunStep(AfterPurge(t, at), more, maxRows, n - 1);
      RunStep(t, more, maxRows, n - 1);
      InsideStep(Run(AfterPurge(t, at), more[..n - 1], maxRows), Run(t, more[..n - 1], maxRows), more[n - 1], maxRows);
    } else {
      assert more[..0] == [];
    }
  }

  lemma {:induction false} InsideStep(a: Table, b: Table, e: Event, maxRows: nat)
    requires Inside(a, b) && (e.Evict? ==> Excess(|b|, maxRows) == 0)
    ensures Inside(After(a, e, maxRows), After(b, e, maxRows))
  {
    hide Evicted;
    if e.Evict? {
      InsideIsSmaller(a, b);
      EvictNone(a);
      EvictNone(b);
    }
  }

  lemma {:induction false} InsideIsSmaller(a: Table, b: Table)
    requires Inside(a, b)
    ensures |a| <= |b|
  {
    assert a.Keys <= b.Keys;
    FewerKeys(a, b);
  }

  /** A purge changes no answer for a key, then or after any further traffic, up to a refresh of
      that key or an eviction pass that finds the unpurged table over its cap. */
  lemma {:induction false} PurgeIsInvisible(t: Table, at: int, more: seq<Event>, maxRows: nat, key: Digest, now: int)
    requires at <= now && WithinCap(t, more, maxRows)
    requires forall i :: 0 <= i < |more| ==> at <= more[i].at <= now && !(more[i].Refresh? && more[i].key == key)
    ensures Alike(Run(AfterPurge(t, at), more, maxRows), Run(t, more, maxRows), key, now)
    ensures SameAnswers(Run(AfterPurge(t, at), more, maxRows), Run(t, more, maxRows), key, now)
  {
    hide Run, After, AfterPurge, Alike, SameAnswers, Inside;
    assert more[..|more|] == more;
    AlikeUpTo(t, at, more, maxRows, key, now, |more|);
    AlikeAnswers(Run(AfterPurge(t, at), more, maxRows), Run(t, more, maxRows), key, now);
  }

  lemma {:induction false} AlikeUpTo(t: Table, at: int, more: seq<Event>, maxRows: nat, key: Digest, now: int, n: nat)
    requires at <= now && WithinCap(t, more, maxRows) && n <= |more|
    requires forall i :: 0 <= i < |more| ==> at <= more[i].at <= now && !(more[i].Refresh? && more[i].key == key)
    ensures Alike(Run(AfterPurge(t, at), more[..n], maxRows), Run(t, more[..n], maxRows), key, now)
  {
    if n > 0 {
      AlikeUpTo(t, at, more, maxRows, key, now, n - 1);
      StaysInside(t, at, more, maxRows, n - 1);
      RunStep(AfterPurge(t, at), more, maxRows, n - 1);
      RunStep(t, more, maxRows, n - 1);
      AlikeStep(Run(AfterPurge(t, at), more[..n - 1], maxRows), Run(t, more[..n - 1], maxRows), more[n - 1], maxRows,
          key, now);
    } else {
      assert more[..0] == [];
    }
  }

  lemma {:induction false} AlikeStep(a: Table, b: Table, e: Event, maxRows: nat, key: Digest, now: int)
    requires Alike(a, b, key, now) && Inside(a, b) && e.at <= now && !(e.Refresh? && e.key == key)
    requires e.Evict? ==> Excess(|b|, maxRows) == 0
    ensures Alike(After(a, e, maxRows), After(b, e, maxRows), key, now)
  {
    hide Evicted;
    if e.Evict? {
      InsideIsSmaller(a, b);
      EvictNone(a);
      EvictNone(b);
    }
  }

  /** A refresh shows an earlier purge if and only if the row had expired by then. */
  lemma {:induction false} RefreshShowsPurgeExactly(t: Table, at: int, key: Digest, ttl: nat, later: int)
    requires at <= later && Span(ttl) > 0
    ensures Hit(AfterRefresh(t, key, ttl, later), key, None, later)
            != Hit(AfterRefresh(AfterPurge(t, at), key, ttl, later), key, None, later)
       <==> key in t && t[key].expiresAt <= at
  {
  }

  /** The refreshed answer lasts, unless a purge came first. */
  lemma {:induction false} RefreshRevives(key: Digest, row: Row, ttl: nat, at: int, now: int)
    requires row.expiresAt <= at <= now < at + Span(ttl)
    ensures var t: Table := map[key := row];
      && Hit(AfterRefresh(t, key, ttl, at), key, None, now) == Some(row.response)
      && Hit(AfterRefresh(AfterPurge(t, at), key, ttl, at), key, None, now) == None
  {
  }

  /** A pass shows an earlier purge to a live key if and only if the two decide differently about
      it: fewer rows to remove, and fewer older rows to remove before it. */
  lemma {:induction false} PassShowsPurgeExactly(t: Table, at: int, maxRows: nat, key: Digest)
    requires key in t && t[key].expiresAt > at
    ensures SameAnswers(AfterEvict(AfterPurge(t, at), maxRows), AfterEvict(t, maxRows), key, at)
       <==> (Rank(AfterPurge(t, at), key) >= PassSize(|AfterPurge(t, at)|, maxRows) <==>
           Rank(t, key) >= PassSize(|t|, maxRows))
  {
    EventExactly(AfterPurge(t, at), t, Evict(at), key, maxRows);
  }

  /** Purging can save a live row: with one row allowed, the expired row is the newer one. */
  lemma {:induction false} EvictionSeesPurge(live: Row, dead: Row, now: int)
    requires live.createdAt < dead.createdAt && dead.expiresAt <= now < live.expiresAt
    ensures var t: Table := map[0 := live, 1 := dead];
      && Hit(AfterEvict(t, 1), 0, None, now) == None
      && Hit(AfterEvict(AfterPurge(t, now), 1), 0, None, now) == Some(live.response)
  {
    var t: Table := map[0 := live, 1 := dead];
    assert t.Keys == {0, 1} && |t| == |t.Keys| == 2;
    OneOldest(t, 0, Oldest(t));
    assert Evicted(t, 1) == Evicted(t - {0}, 0);
    assert AfterPurge(t, now) == map[0 := live];
  }

  /** And it can cost one: a pass spends all it may remove on 5000 expired rows and spares the live
      ones, but finds only those after a purge. */
  lemma {:induction false} PurgeCostsRow(dead: Row, live: Row, newest: Row, now: int)
    requires dead.createdAt < live.createdAt < newest.createdAt
    requires dead.expiresAt <= now < live.expiresAt && now < newest.expiresAt
    ensures var t: Table := map k: Digest | k < 5002 && Below(k, 5002) ::
        if k < 5000 then dead else if k == 5000 then live else newest;
      && Hit(AfterEvict(t, 1), 5000, None, now) == Some(live.response)
      && Hit(AfterEvict(AfterPurge(t, now), 1), 5000, None, now) == None
  {
    var t: Table := map k: Digest | k < 5002 && Below(k, 5002) ::
        if k < 5000 then dead else if k == 5000 then live else newest;
    var purged := AfterPurge(t, now);
    UptoSize(5002);
    UptoSize(5000);
    assert t.Keys == Upto(5002) && |t| == |t.Keys|;
    assert OlderRows(t, 5000) == Upto(5000);
    assert purged == map[5000 := live, 5001 := newest];
    assert purged.Keys == {5000, 5001} && |purged| == |purged.Keys| == 2;
    assert OlderRows(purged, 5000) == {};
    PassExactly(t, 1, 5000);
    PassExactly(purged, 1, 5000);
  }

  predicate Below(k: int, n: nat) { 0 <= k < n }

  ghost function Upto(n: nat): set<Digest> { set k: Digest | k < n && Below(k, n) }

  lemma {:induction false} UptoSize(n: nat)
    ensures |Upto(n)| == n
  {
    if n > 0 {
      UptoSize(n - 1);
      assert forall k: nat :: Below(k, n) <==> Below(k, n - 1) || k == n - 1;
      assert Upto(n) == Upto(n - 1) + {n - 1};
    }
  }

  // ---- the cache itself ----

  datatype Revalidation = Revalidation(key: Digest, checkedAt: int, changed: bool)

  const DAY: int := 24 * HOUR

  class HttpCache {
    const enabled: bool
    const maxRows: nat
    var table: Table
    var revalidations: seq<Revalidation>
    ghost var trace: seq<Event>  // what reached the table so far

    ghost predicate Valid()
      reads this
    {
      table == Run(map[], trace, maxRows)
    }

    constructor (enabled: bool, maxRows: nat)
      ensures Valid() && this.enabled == enabled && this.maxRows == maxRows && trace == [] && revalidations == []
    {
      this.enabled, this.maxRows := enabled, maxRows;
      table, revalidations, trace := map[], [], [];
    }

    /** A live response: what was stored last, unexpired, confirmed within `maxAge`. */
    method Get(key: Digest, maxAge: Option<nat>, now: int) returns (response: Option<Response>)
      requires Valid()
      ensures response == if enabled then Hit(table, key, maxAge, now) else None
      ensures response.Some? ==> Honest(trace, key, maxAge, now, response.value)
    {
      if !enabled { return None; }
      var live := key in table && table[key].expiresAt > now
                   && (maxAge.None? || maxAge.value > MAX_SPAN || table[key].createdAt > now - maxAge.value);
      response := if live then Some(table[key].response) else None;
      if live {
        ghost var i, j := HitIsLastStored(trace, maxRows, key, maxAge, now);
      }
    }

    /** The stored response whatever its age. */
    method GetStale(key: Digest) returns (response: Option<Response>)
      requires Valid()
      ensures response.Some? <==> enabled && key in table
      ensures response.Some? ==> exists i: nat :: LastStored(trace, i, key) && response == Some(trace[i].response)
    {
      if !enabled || key !in table { return None; }
      response := Some(table[key].response);
      ghost var i, j := RowIs(trace, maxRows, key);
    }

    method Put(key: Digest, url: string, r: Response, ttl: nat, now: int)
      requires Valid()
      modifies this
      ensures Valid() && revalidations == old(revalidations)
      ensures trace == if enabled then old(trace) + [Event.Put(key, url, r, ttl, now)] else old(trace)
    {
      if !enabled { return; }
      if Success(r) {
        table := table[key := Row(if key in table then table[key].url else url, r, now, now + Span(ttl))];
      }
      Happened(Event.Put(key, url, r, ttl, now));
    }

    ghost method Happened(e: Event)
      requires table == After(Run(map[], trace, maxRows), e, maxRows)
      modifies this`trace
      ensures Valid() && trace == old(trace) + [e]
    {
      assert (trace + [e])[..|trace|] == trace;
      trace := trace + [e];
    }

    /** The origin said "unchanged": the row lives on, and the observation is logged. */
    method Refresh(key: Digest, ttl: nat, now: int)
      requires Valid()
      modifies this
      ensures Valid()
      ensures trace == if enabled then old(trace) + [Event.Refresh(key, ttl, now)] else old(trace)
      ensures revalidations == if enabled then old(revalidations) + [Revalidation(key, now, false)]
          else old(revalidations)
    {
      if !enabled { return; }
      if key in table {
        table := table[key := table[key].(createdAt := now, expiresAt := now + Span(ttl))];
      }
      Happened(Event.Refresh(key, ttl, now));
      RecordRevalidation(key, false, now);
    }

    method RecordRevalidation(key: Digest, changed: bool, now: int)
      modifies this`revalidations
      ensures revalidations == if enabled then old(revalidations) + [Revalidation(key, now, changed)]
          else old(revalidations)
    {
      if !enabled { return; }
      revalidations := revalidations + [Revalidation(key, now, changed)];
    }

    /** Observations older than the retention, never less than a day, are dropped. */
    method PruneRevalidations(retentionDays: nat, now: int) returns (removed: nat)
      modifies this`revalidations
      ensures revalidations == Kept(old(revalidations), now - (if retentionDays < 1 then 1 else retentionDays) * DAY)
      ensures forall r :: r in revalidations <==>
                r in old(revalidations)
                && r.checkedAt >= now - (if retentionDays < 1 then 1 else retentionDays) * 86_400_000_000
      ensures removed == |old(revalidations)| - |revalidations|
    {
      var cutoff := now - (if retentionDays < 1 then 1 else retentionDays) * DAY;
      ghost var was := revalidations;
      var kept := [];
      for i := 0 to |revalidations|
        invariant revalidations == was && kept == Kept(was[..i], cutoff) && |kept| <= i
      {
        assert was[..i + 1][..i] == was[..i];
        if revalidations[i].checkedAt >= cutoff { kept := kept + [revalidations[i]]; }
      }
      assert was[..|was|] == was;
      KeptAre(was, cutoff);
      removed := |revalidations| - |kept|;
      revalidations := kept;
    }

    method PurgeExpired(now: int) returns (removed: nat)
      requires Valid()
      modifies this`table, this`trace
      ensures Valid() && trace == old(trace) + [Purge(now)]
      ensures removed == |old(table)| - |table|
    {
      var kept := map k | k in table && table[k].expiresAt > now :: table[k];
      assert kept.Keys <= table.Keys;
      FewerKeys(kept, table);
      removed := |table| - |kept|;
      table := kept;
      Happened(Purge(now));
    }

    /** One janitor pass over the cap. */
    method EvictOverCap(ghost now: int) returns (removed: nat)
      requires Valid()
      modifies this`table, this`trace
      ensures Valid() && trace == old(trace) + [Evict(now)]
      ensures removed == PassSize(|old(table)|, maxRows) == |old(table)| - |table|
    {
      hide Evicted, Run, Older;
      removed := PassSize(|table|, maxRows);
      ghost var was := table;
      EvictNone(was);
      var i := 0;
      while i < removed
        invariant i <= removed <= |was|
        invariant table == Evicted(was, i) && |table| == |was| - i
        invariant trace == old(trace)
      {
        var victim := FindOldest(table);
        EvictOne(was, i, victim);
        table := table - {victim};
        i := i + 1;
      }
      Happened(Evict(now));
    }

    static method FindOldest(t: Table) returns (victim: Digest)
      requires t != map[]
      ensures IsOldest(t, victim)
    {
      var keys := t.Keys;
      victim :| victim in keys;
      keys := keys - {victim};
      while keys != {}
        invariant victim in t && keys <= t.Keys
        invariant forall j :: j in t && j !in keys && j != victim ==> Older(t, victim, j)
        decreases keys
      {
        var k :| k in keys;
        if Older(t, k, victim) { victim := k; }
        keys := keys - {k};
      }
    }
  }

  function Kept(log: seq<Revalidation>, cutoff: int): seq<Revalidation> {
    if log == [] then []
    else Kept(log[..|log| - 1], cutoff) + if log[|log| - 1].checkedAt >= cutoff then [log[|log| - 1]] else []
  }

  lemma {:induction false} KeptAre(log: seq<Revalidation>, cutoff: int)
    ensures forall r :: r in Kept(log, cutoff) <==> r in log && r.checkedAt >= cutoff
  {
    if log != [] {
      var front, last := log[..|log| - 1], log[|log| - 1];
      KeptAre(front, cutoff);
      assert log == front + [last];
    }
  }

  /** In order and as often as they were logged. */
  lemma {:induction false} KeptConcat(a: seq<Revalidation>, b: seq<Revalidation>, cutoff: int)
    ensures Kept(a + b, cutoff) == Kept(a, cutoff) + Kept(b, cutoff)
  {
    if b == [] {
      assert a + b == a;
    } else {
      assert (a + b)[..|a + b| - 1] == a + b[..|b| - 1];
      KeptConcat(a, b[..|b| - 1], cutoff);
    }
  }

  lemma {:induction false} KeptOne(r: Revalidation, cutoff: int)
    ensures Kept([r], cutoff) == if r.checkedAt >= cutoff then [r] else []
  {
    assert [r][..0] == [];
  }

  lemma {:induction false} FewerKeys(a: Table, b: Table)
    requires a.Keys <= b.Keys
    ensures |a| <= |b|
  {
    Subset(a.Keys, b.Keys);
    assert |a| == |a.Keys| && |b| == |b.Keys|;
  }

  lemma {:induction false} Subset<T>(a: set<T>, b: set<T>)
    requires a <= b
    ensures |a| <= |b|
  {
    assert b == a + (b - a);
  }
}
