/** The revalidation freshness model (cache.rs): one pass over the log's rows, ordered by key, folds
    each key's observations into a prediction; the most urgent predictions are kept. Times are
    microseconds, estimates are reals. */
module Freshness {
  import opened Wrappers
  import opened HttpCache

  /** One row of the query: a revalidation joined to the url of its cached entry. A stamp that
      does not parse is None. */
  datatype LogRow = LogRow(key: Digest, url: string, checkedAt: Option<int>, changed: bool)

  datatype Seen = Seen(at: int, changed: bool)

  datatype Learned = Learned(
    checks: nat, changes: nat, lastCheckedAt: Option<int>, lastChangeAt: Option<int>, ewmaSecs: Option<real>)

  datatype KeyFreshness = KeyFreshness(
    key: Digest, url: string, checks: nat, changes: nat, lastCheckedAt: int, lastChangeAt: Option<int>,
    intervalSecs: Option<real>, predictedNextChange: int, dueInMillis: int)

  const EWMA_ALPHA: real := 0.3

  /** Division as the clock library does it: toward zero. */
  function Trunc(a: int, d: int): int
    requires d > 0
  {
    if a >= 0 then a / d else -(-a / d)
  }

  function EwmaUpdate(prev: Option<real>, gap: real): real {
    match prev
    case None => gap
    case Some(p) => EWMA_ALPHA * gap + (1.0 - EWMA_ALPHA) * p
  }

  /** Whole seconds between two changes, never less than one. */
  function Gap(from: int, to: int): (g: int)
    ensures g >= 1
  {
    var secs := Trunc(to - from, SECOND);
    if secs < 1 then 1 else secs
  }

  function Nothing(): Learned { Learned(0, 0, None, None, None) }

  function Observed(l: Learned, at: int, changed: bool): Learned {
    if !changed then l.(checks := l.checks + 1, lastCheckedAt := Some(at))
    else
      Learned(l.checks + 1, l.changes + 1, Some(at), Some(at),
              if l.lastChangeAt.None? then l.ewmaSecs
              else Some(EwmaUpdate(l.ewmaSecs, Gap(l.lastChangeAt.value, at) as real)))
  }

  function Learn(obs: seq<Seen>): Learned {
    if obs == [] then Nothing()
    else Observed(Learn(obs[..|obs| - 1]), obs[|obs| - 1].at, obs[|obs| - 1].changed)
  }

  // ---- what one key's fold amounts to ----

  function ChangeTimes(obs: seq<Seen>): seq<int> {
    if obs == [] then []
    else ChangeTimes(obs[..|obs| - 1]) + if obs[|obs| - 1].changed then [obs[|obs| - 1].at] else []
  }

  function Gaps(times: seq<int>): (gs: seq<int>)
    ensures |gs| == if |times| == 0 then 0 else |times| - 1
    ensures forall i :: 0 <= i < |gs| ==> gs[i] == Gap(times[i], times[i + 1])
  {
    if |times| <= 1 then []
    else seq(|times| - 1, i requires 0 <= i < |times| - 1 => Gap(times[i], times[i + 1]))
  }

  function Ewma(gaps: seq<int>): Option<real> {
    if gaps == [] then None else Some(EwmaUpdate(Ewma(gaps[..|gaps| - 1]), gaps[|gaps| - 1] as real))
  }

  /** A gap is its whole seconds, rounded down, but at least one. */
  lemma {:induction false} GapIs(from: int, to: int)
    ensures to - from < 2_000_000 ==> Gap(from, to) == 1
    ensures to - from >= 2_000_000 ==> Gap(from, to) * 1_000_000 <= to - from < (Gap(from, to) + 1) * 1_000_000
  {
  }

  /** Each gap weighs three tenths against everything before it; the first stands alone. */
  lemma {:induction false} EwmaWeighs(gaps: seq<int>, gap: int)
    ensures gaps == [] ==> Ewma(gaps + [gap]) == Some(gap as real)
    ensures gaps != [] ==> Ewma(gaps).Some? && Ewma(gaps + [gap]).Some?
    ensures gaps != [] ==>
      10.0 * Ewma(gaps + [gap]).value == 3.0 * gap as real + 7.0 * Ewma(gaps).value
  {
    assert (gaps + [gap])[..|gaps|] == gaps;
  }

  /** The change times are the stamps of the changed observations, in order. */
  lemma {:induction false} ChangeTimesAre(a: seq<Seen>, at: int, changed: bool)
    ensures ChangeTimes([]) == []
    ensures ChangeTimes(a + [Seen(at, changed)]) == if changed then ChangeTimes(a) + [at] else ChangeTimes(a)
  {
    assert (a + [Seen(at, changed)])[..|a|] == a;
    assert ChangeTimes(a) + [] == ChangeTimes(a);
  }

  /** The fold counts every observation and every change, remembers the last of each, and its
      estimate is the average over the gaps between consecutive changes. */
  lemma {:induction false} LearnsGaps(obs: seq<Seen>)
    ensures var l, times := Learn(obs), ChangeTimes(obs);
      && l.checks == |obs| && l.changes == |times|
      && l.lastCheckedAt == (if obs == [] then None else Some(obs[|obs| - 1].at))
      && l.lastChangeAt == (if times == [] then None else Some(times[|times| - 1]))
      && l.ewmaSecs == Ewma(Gaps(times))
  {
    if obs != [] {
      var front, last := obs[..|obs| - 1], obs[|obs| - 1];
      LearnsGaps(front);
      var times := ChangeTimes(front);
      assert times + [] == times;
      var more := times + [last.at];
      if last.changed && times != [] {
        var gs := Gaps(more);
        assert gs[..|gs| - 1] == Gaps(times);
        assert gs[|gs| - 1] == Gap(times[|times| - 1], last.at);
      } else if last.changed {
        assert Gaps(more) == [] == Gaps(times);
      }
    }
  }

  /** The estimate lies between the shortest and the longest gap, and there is one exactly from
      the second change on. */
  lemma {:induction false} EwmaBetween(gaps: seq<int>, lo: int, hi: int)
    requires forall i :: 0 <= i < |gaps| ==> lo <= gaps[i] <= hi
    ensures Ewma(gaps).Some? <==> gaps != []
    ensures gaps != [] ==> lo as real <= Ewma(gaps).value <= hi as real
  {
    if |gaps| > 1 {
      EwmaBetween(gaps[..|gaps| - 1], lo, hi);
    }
  }

  /** Between them: a learned interval is at least a second and at most the longest gap. */
  lemma {:induction false} IntervalBounds(obs: seq<Seen>, hi: int)
    requires forall i :: 0 <= i < |Gaps(ChangeTimes(obs))| ==> Gaps(ChangeTimes(obs))[i] <= hi
    ensures Learn(obs).ewmaSecs.Some? <==> Learn(obs).changes >= 2
    ensures Learn(obs).ewmaSecs.Some? ==> 1.0 <= Learn(obs).ewmaSecs.value <= hi as real
  {
    LearnsGaps(obs);
    EwmaBetween(Gaps(ChangeTimes(obs)), 1, hi);
  }

  // ---- the prediction ----

  function AtLeast(x: real, least: real): real { if x < least then least else x }

  function Finish(key: Digest, url: string, l: Learned, now: int, prior: real): KeyFreshness {
    var lastChecked := if l.lastCheckedAt.None? then now else l.lastCheckedAt.value;
    var interval := AtLeast(if l.ewmaSecs.None? then prior else l.ewmaSecs.value, 1.0);
    var anchor := if l.lastChangeAt.None? then lastChecked else l.lastChangeAt.value;
    var predicted := anchor + interval.Floor * SECOND;
    KeyFreshness(key, url, l.checks, l.changes, lastChecked, l.lastChangeAt, l.ewmaSecs,
                 predicted, Trunc(predicted - now, 1000))
  }

  /** The prediction starts from the last change, or from the last check of a key never seen to
      change; a learned interval puts it between one second and the longest gap ahead, anything
      less learned puts it the prior ahead; and the sign of the due time says on which side of now
      it lies. */
  lemma {:induction false} PredictionWindow(key: Digest, url: string, obs: seq<Seen>, now: int, prior: real,
      longest: int)
    requires obs != [] && prior >= 1.0
    requires forall i :: 0 <= i < |Gaps(ChangeTimes(obs))| ==> Gaps(ChangeTimes(obs))[i] <= longest
    ensures var f, times := Finish(key, url, Learn(obs), now, prior), ChangeTimes(obs);
      var anchor := if times == [] then obs[|obs| - 1].at else times[|times| - 1];
      && (|times| >= 2 ==> anchor + SECOND <= f.predictedNextChange <= anchor + longest * SECOND)
      && (|times| < 2 ==> f.predictedNextChange == anchor + prior.Floor * SECOND)
      && (f.dueInMillis > 0 ==> now < f.predictedNextChange)
      && (f.dueInMillis < 0 ==> f.predictedNextChange < now)
    ensures SECOND == 1_000_000
  {
    hide Learn, ChangeTimes, Ewma, Gaps;
    LearnsGaps(obs);
    IntervalBounds(obs, longest);
  }

  /** What a key's entry says of its history, and when it falls due: to the whole second of the
      learned interval, in milliseconds cut off toward now. */
  lemma {:induction false} FinishTells(key: Digest, url: string, obs: seq<Seen>, now: int, prior: real)
    requires obs != []
    ensures var f, times := Finish(key, url, Learn(obs), now, prior), ChangeTimes(obs);
      && f.key == key && f.url == url && f.checks == |obs| && f.changes == |times|
      && f.lastCheckedAt == obs[|obs| - 1].at
      && f.lastChangeAt == (if times == [] then None else Some(times[|times| - 1]))
      && f.intervalSecs == Ewma(Gaps(times))
      && (|times| >= 2 ==>
            f.intervalSecs.Some?
            && f.predictedNextChange == times[|times| - 1] + f.intervalSecs.value.Floor * 1_000_000)
      && (f.predictedNextChange >= now ==>
            f.dueInMillis * 1000 <= f.predictedNextChange - now < f.dueInMillis * 1000 + 1000)
      && (f.predictedNextChange < now ==>
            f.dueInMillis * 1000 - 1000 < f.predictedNextChange - now <= f.dueInMillis * 1000)
  {
    hide Learn, ChangeTimes, Ewma, Gaps;
    LearnsGaps(obs);
    EwmaAtLeastOne(ChangeTimes(obs));
  }

  lemma {:induction false} EwmaAtLeastOne(times: seq<int>)
    ensures |times| >= 2 <==> Ewma(Gaps(times)).Some?
    ensures |times| >= 2 ==> Ewma(Gaps(times)).value >= 1.0
  {
    if |times| >= 2 {
      var hi := BoundOf(Gaps(times));
      EwmaBetween(Gaps(times), 1, hi);
    }
  }

  lemma {:induction false} BoundOf(gaps: seq<int>) returns (hi: int)
    ensures forall i :: 0 <= i < |gaps| ==> gaps[i] <= hi
  {
    hi := 0;
    for i := 0 to |gaps|
      invariant forall j :: 0 <= j < i ==> gaps[j] <= hi
    {
      if gaps[i] > hi { hi := gaps[i]; }
    }
  }

  /** The prior is the configured lifetime, but at least a minute; and an interval at least a second. */
  lemma {:induction false} AtLeastIs(x: real, least: real)
    ensures AtLeast(x, least) >= x && AtLeast(x, least) >= least
    ensures AtLeast(x, least) == x || AtLeast(x, least) == least
  {
  }

  // ---- the one-pass fold against grouping by key ----

  function SeenOf(rows: seq<LogRow>, key: Digest): seq<Seen> {
    if rows == [] then []
    else
      var r := rows[|rows| - 1];
      SeenOf(rows[..|rows| - 1], key)
      + if r.key == key && r.checkedAt.Some? then [Seen(r.checkedAt.value, r.changed)] else []
  }

  /** The url of the key's first parseable row. */
  function UrlOf(rows: seq<LogRow>, key: Digest): string {
    if rows == [] then ""
    else
      var front, r := rows[..|rows| - 1], rows[|rows| - 1];
      if SeenOf(front, key) == [] && r.key == key && r.checkedAt.Some? then r.url else UrlOf(front, key)
  }

  /** The keys with a parseable row, in order. */
  function Groups(rows: seq<LogRow>): seq<Digest> {
    if rows == [] then []
    else
      var front, r := rows[..|rows| - 1], rows[|rows| - 1];
      if r.checkedAt.Some? && SeenOf(front, r.key) == [] then Groups(front) + [r.key] else Groups(front)
  }

  /** A key's observations are those of its parseable rows, in order, and its url is that of the first. */
  lemma {:induction false} GroupGrows(rows: seq<LogRow>, r: LogRow, key: Digest)
    ensures SeenOf([], key) == [] && UrlOf([], key) == ""
    ensures SeenOf(rows + [r], key) == if r.key == key && r.checkedAt.Some?
                                       then SeenOf(rows, key) + [Seen(r.checkedAt.value, r.changed)]
                                       else SeenOf(rows, key)
    ensures UrlOf(rows + [r], key) == if SeenOf(rows, key) == [] && r.key == key && r.checkedAt.Some? then r.url
                                      else UrlOf(rows, key)
  {
    assert (rows + [r])[..|rows|] == rows;
    assert SeenOf(rows, key) + [] == SeenOf(rows, key);
  }

  ghost predicate ByKey(rows: seq<LogRow>) {
    forall i, j :: 0 <= i < j < |rows| ==> rows[i].key <= rows[j].key
  }

  /** On rows ordered by key the groups come out in strictly increasing order, one for each key
      that has a parseable row, and the last one is the only one a later row can join. */
  lemma {:induction false} GroupsAre(rows: seq<LogRow>)
    requires ByKey(rows)
    ensures forall k :: k in Groups(rows) <==> SeenOf(rows, k) != []
    ensures forall i, j :: 0 <= i < j < |Groups(rows)| ==> Groups(rows)[i] < Groups(rows)[j]
    ensures rows != [] ==> forall k :: k in Groups(rows) ==> k <= rows[|rows| - 1].key
  {
    if rows != [] {
      var front, r := rows[..|rows| - 1], rows[|rows| - 1];
      GroupsAre(front);
      if front != [] { assert rows[|front| - 1].key <= r.key; }
      assert forall k :: k in Groups(rows) ==> k in Groups(front) || k == r.key;
      forall i, j | 0 <= i < j < |Groups(rows)| ensures Groups(rows)[i] < Groups(rows)[j] {
        if j == |Groups(front)| {
          assert Groups(front)[i] in Groups(front) && r.key !in Groups(front);
        }
      }
    }
  }

  function Entry(rows: seq<LogRow>, key: Digest, now: int, prior: real): KeyFreshness {
    Finish(key, UrlOf(rows, key), Learn(SeenOf(rows, key)), now, prior)
  }

  function Entries(rows: seq<LogRow>, keys: seq<Digest>, now: int, prior: real): (out: seq<KeyFreshness>)
    ensures |out| == |keys|
    ensures forall i :: 0 <= i < |out| ==> out[i] == Entry(rows, keys[i], now, prior)
  {
    seq(|keys|, i requires 0 <= i < |keys| => Entry(rows, keys[i], now, prior))
  }

  class FreshnessFold {
    const key: Digest
    const url: string
    var learned: Learned

    constructor (key: Digest, url: string)
      ensures this.key == key && this.url == url && learned == Nothing()
    {
      this.key, this.url, learned := key, url, Nothing();
    }

    method Observe(at: int, changed: bool)
      modifies this
      ensures learned == Observed(old(learned), at, changed)
    {
      learned := learned.(checks := learned.checks + 1, lastCheckedAt := Some(at));
      if changed {
        learned := learned.(changes := learned.changes + 1);
        if learned.lastChangeAt.Some? {
          var gap := Gap(learned.lastChangeAt.value, at) as real;
          learned := learned.(ewmaSecs := Some(EwmaUpdate(learned.ewmaSecs, gap)));
        }
        learned := learned.(lastChangeAt := Some(at));
      }
    }
  }

  /** The pass: a row of a new key closes the fold before it. */
  method FoldRows(rows: seq<LogRow>, now: int, prior: real) returns (out: seq<KeyFreshness>)
    requires ByKey(rows)
    ensures out == Entries(rows, Groups(rows), now, prior)
  {
    hide Groups, SeenOf, UrlOf, Learn, Finish, Observed, ByKey;
    out := [];
    var cur: FreshnessFold? := null;
    NoRows(now, prior);
    for i := 0 to |rows|
      invariant cur == null ==> Groups(rows[..i]) == [] && out == []
      invariant cur != null ==> fresh(cur) && Open(rows[..i], cur.key, cur.url, cur.learned)
      invariant cur != null ==> out == Closed(rows[..i], now, prior)
    {
      var r := rows[i];
      ghost var before := rows[..i];
      Upto(rows, i);
      if r.checkedAt.None? {
        UnparsedJoins(before, r, now, prior);
        continue;
      }
      if cur == null || cur.key != r.key {
        NewKeyJoins(before, r, now, prior);
        if cur != null {
          LastCloses(before, now, prior);
          out := out + [Finish(cur.key, cur.url, cur.learned, now, prior)];
        }
        cur := new FreshnessFold(r.key, r.url);
      } else {
        SameKeyJoins(before, r, now, prior);
      }
      cur.Observe(r.checkedAt.value, r.changed);
    }
    assert rows[..|rows|] == rows;
    if cur != null {
      LastCloses(rows, now, prior);
      out := out + [Finish(cur.key, cur.url, cur.learned, now, prior)];
    }
  }

  lemma {:induction false} NoRows(now: int, prior: real)
    ensures Groups([]) == [] && Entries([], [], now, prior) == []
  {
  }

  lemma {:induction false} Upto(rows: seq<LogRow>, i: nat)
    requires ByKey(rows) && i < |rows|
    ensures rows[..i + 1] == rows[..i] + [rows[i]] && ByKey(rows[..i]) && ByKey(rows[..i] + [rows[i]])
  {
  }

  /** The fold in progress is the last group's. */
  ghost predicate Open(rows: seq<LogRow>, key: Digest, url: string, learned: Learned) {
    && Groups(rows) != [] && key == Groups(rows)[|Groups(rows)| - 1]
    && url == UrlOf(rows, key) && learned == Learn(SeenOf(rows, key))
  }

  /** The folds already finished are the groups before it. */
  ghost function Closed(rows: seq<LogRow>, now: int, prior: real): seq<KeyFreshness>
    requires Groups(rows) != []
  {
    Entries(rows, Groups(rows)[..|Groups(rows)| - 1], now, prior)
  }

  lemma {:induction false} RowSeen(rows: seq<LogRow>, r: LogRow, k: Digest)
    ensures SeenOf(rows + [r], k)
         == SeenOf(rows, k) + if r.key == k && r.checkedAt.Some? then [Seen(r.checkedAt.value, r.changed)] else []
    ensures UrlOf(rows + [r], k)
         == if SeenOf(rows, k) == [] && r.key == k && r.checkedAt.Some? then r.url else UrlOf(rows, k)
    ensures Groups(rows + [r])
         == if r.checkedAt.Some? && SeenOf(rows, r.key) == [] then Groups(rows) + [r.key] else Groups(rows)
  {
  }

  /** Entries of other keys do not change when a row joins. */
  lemma {:induction false} OthersStay(rows: seq<LogRow>, r: LogRow, keys: seq<Digest>, now: int, prior: real)
    requires r.checkedAt.None? || r.key !in keys
    ensures Entries(rows + [r], keys, now, prior) == Entries(rows, keys, now, prior)
  {
    hide Finish, Learn, SeenOf, UrlOf;
    forall i | 0 <= i < |keys| ensures Entry(rows + [r], keys[i], now, prior) == Entry(rows, keys[i], now, prior) {
      RowSeen(rows, r, keys[i]);
      assert SeenOf(rows, keys[i]) + [] == SeenOf(rows, keys[i]);
    }
  }

  lemma {:induction false} UnparsedJoins(rows: seq<LogRow>, r: LogRow, now: int, prior: real)
    requires r.checkedAt.None?
    ensures Groups(rows + [r]) == Groups(rows)
    ensures Groups(rows) != [] ==> Closed(rows + [r], now, prior) == Closed(rows, now, prior)
    ensures forall k :: SeenOf(rows + [r], k) == SeenOf(rows, k) && UrlOf(rows + [r], k) == UrlOf(rows, k)
  {
    hide Finish, Learn, SeenOf, UrlOf, Groups;
    forall k ensures SeenOf(rows + [r], k) == SeenOf(rows, k) && UrlOf(rows + [r], k) == UrlOf(rows, k) {
      RowSeen(rows, r, k);
      assert SeenOf(rows, k) + [] == SeenOf(rows, k);
    }
    RowSeen(rows, r, r.key);
    if Groups(rows) != [] { OthersStay(rows, r, Groups(rows)[..|Groups(rows)| - 1], now, prior); }
  }

  lemma {:induction false} SameKeyJoins(rows: seq<LogRow>, r: LogRow, now: int, prior: real)
    requires ByKey(rows) && r.checkedAt.Some? && Groups(rows) != [] && Groups(rows)[|Groups(rows)| - 1] == r.key
    ensures Groups(rows + [r]) == Groups(rows) && Closed(rows + [r], now, prior) == Closed(rows, now, prior)
    ensures UrlOf(rows + [r], r.key) == UrlOf(rows, r.key)
    ensures Learn(SeenOf(rows + [r], r.key)) == Observed(Learn(SeenOf(rows, r.key)), r.checkedAt.value, r.changed)
  {
    hide SeenOf, UrlOf, Groups, ByKey;
    GroupsAre(rows);
    var gs, seen := Groups(rows), SeenOf(rows, r.key);
    RowSeen(rows, r, r.key);
    assert r.key in gs;
    assert (seen + [Seen(r.checkedAt.value, r.changed)])[..|seen|] == seen;
    OthersStay(rows, r, gs[..|gs| - 1], now, prior);
  }

  lemma {:induction false} NewKeyJoins(rows: seq<LogRow>, r: LogRow, now: int, prior: real)
    requires ByKey(rows + [r]) && r.checkedAt.Some? && (Groups(rows) == [] || Groups(rows)[|Groups(rows)| - 1] != r.key)
    ensures Groups(rows + [r]) == Groups(rows) + [r.key]
    ensures Closed(rows + [r], now, prior) == Entries(rows, Groups(rows), now, prior)
    ensures UrlOf(rows + [r], r.key) == r.url
    ensures Learn(SeenOf(rows + [r], r.key)) == Observed(Nothing(), r.checkedAt.value, r.changed)
  {
    hide SeenOf, UrlOf, Groups, Learn, Finish, Observed, ByKey;
    var gs := Groups(rows);
    KeyIsNew(rows, r);
    GroupsAre(rows);
    RowSeen(rows, r, r.key);
    LearnsFirst(r.checkedAt.value, r.changed);
    assert SeenOf(rows + [r], r.key) == [Seen(r.checkedAt.value, r.changed)];
    assert (gs + [r.key])[..|gs|] == gs;
    OthersStay(rows, r, gs, now, prior);
  }

  lemma {:induction false} LearnsFirst(at: int, changed: bool)
    ensures Learn([Seen(at, changed)]) == Observed(Nothing(), at, changed)
  {
  }

  lemma {:induction false} KeyIsNew(rows: seq<LogRow>, r: LogRow)
    requires ByKey(rows + [r]) && (Groups(rows) == [] || Groups(rows)[|Groups(rows)| - 1] != r.key)
    ensures ByKey(rows) && r.key !in Groups(rows)
  {
    var more, gs := rows + [r], Groups(rows);
    assert ByKey(rows) by { assert forall i :: 0 <= i < |rows| ==> rows[i] == more[i]; }
    GroupsAre(rows);
    if rows != [] {
      assert more[|rows| - 1].key <= more[|rows|].key;
      forall i | 0 <= i < |gs| ensures gs[i] != r.key {
        assert gs[i] <= gs[|gs| - 1] && gs[|gs| - 1] in gs;
      }
    }
  }

  lemma {:induction false} LastCloses(rows: seq<LogRow>, now: int, prior: real)
    requires Groups(rows) != []
    ensures var gs := Groups(rows);
      Entries(rows, gs, now, prior) == Closed(rows, now, prior) + [Entry(rows, gs[|gs| - 1], now, prior)]
  {
  }

  // ---- the most urgent ones ----

  /** Less urgent predictions come later; equal ones keep the order of the pass, which is by key. */
  predicate Sooner(a: KeyFreshness, b: KeyFreshness) {
    a.dueInMillis < b.dueInMillis || (a.dueInMillis == b.dueInMillis && a.key < b.key)
  }

  /** One step of a stable sort by due time: after everything due no later. */
  function Insert(sorted: seq<KeyFreshness>, x: KeyFreshness): (r: seq<KeyFreshness>)
    ensures multiset(r) == multiset(sorted) + multiset{x}
  {
    if sorted == [] then [x]
    else
      var front, last := sorted[..|sorted| - 1], sorted[|sorted| - 1];
      assert sorted == front + [last];
      if last.dueInMillis <= x.dueInMillis then sorted + [x] else Insert(front, x) + [last]
  }

  function SortByDue(out: seq<KeyFreshness>): (r: seq<KeyFreshness>)
    ensures multiset(r) == multiset(out)
  {
    if out == [] then []
    else
      assert out == out[..|out| - 1] + [out[|out| - 1]];
      Insert(SortByDue(out[..|out| - 1]), out[|out| - 1])
  }

  ghost predicate InOrder(s: seq<KeyFreshness>) {
    forall i, j :: 0 <= i < j < |s| ==> Sooner(s[i], s[j])
  }

  ghost predicate AllSooner(s: seq<KeyFreshness>, x: KeyFreshness) {
    forall y :: y in s ==> Sooner(y, x)
  }

  lemma {:induction false} OrderGrows(s: seq<KeyFreshness>, x: KeyFreshness)
    requires InOrder(s) && AllSooner(s, x)
    ensures InOrder(s + [x])
  {
  }

  lemma {:induction false} OrderShrinks(s: seq<KeyFreshness>)
    requires InOrder(s) && s != []
    ensures InOrder(s[..|s| - 1]) && AllSooner(s[..|s| - 1], s[|s| - 1])
  {
  }

  lemma {:induction false} InsertHas(sorted: seq<KeyFreshness>, x: KeyFreshness, y: KeyFreshness)
    ensures y in Insert(sorted, x) <==> y in sorted || y == x
  {
    assert y in multiset(Insert(sorted, x)) <==> y in multiset(sorted) || y == x;
  }

  lemma {:induction false} InsertSorts(sorted: seq<KeyFreshness>, x: KeyFreshness)
    requires InOrder(sorted) && forall y :: y in sorted ==> y.key < x.key
    ensures InOrder(Insert(sorted, x))
  {
    hide InOrder;
    if sorted == [] {
      OneInOrder(x);
    } else {
      var front, last := sorted[..|sorted| - 1], sorted[|sorted| - 1];
      OrderShrinks(sorted);
      assert last in sorted;
      forall y | y in sorted ensures y == last || y in front {
        assert sorted == front + [last];
      }
      if last.dueInMillis <= x.dueInMillis {
        OrderGrows(sorted, x);
      } else {
        forall y | y in front ensures y in sorted {
          assert sorted == front + [last];
        }
        InsertSorts(front, x);
        forall y | y in Insert(front, x) ensures Sooner(y, last) {
          InsertHas(front, x, y);
        }
        OrderGrows(Insert(front, x), last);
      }
    }
  }

  lemma {:induction false} OneInOrder(x: KeyFreshness)
    ensures InOrder([x])
  {
  }

  /** Sorting the pass's output, whose keys increase, orders it by (due, key). */
  lemma {:induction false} SortOrders(out: seq<KeyFreshness>)
    requires forall i, j :: 0 <= i < j < |out| ==> out[i].key < out[j].key
    ensures InOrder(SortByDue(out))
    ensures forall y :: y in SortByDue(out) <==> y in out
  {
    if out != [] {
      var front, x := out[..|out| - 1], out[|out| - 1];
      assert out == front + [x];
      SortOrders(front);
      forall y | y in SortByDue(front) ensures y.key < x.key {
        var i :| 0 <= i < |front| && front[i] == y;
        assert out[i] == y;
      }
      InsertSorts(SortByDue(front), x);
      forall y ensures y in SortByDue(out) <==> y in out {
        InsertHas(SortByDue(front), x, y);
      }
    }
  }

  function FirstOf(s: seq<KeyFreshness>, limit: nat): seq<KeyFreshness> {
    if limit < |s| then s[..limit] else s
  }

  /** The query's rows folded, sorted and cut. */
  method Freshness(rows: seq<LogRow>, now: int, limit: nat, defaultTtlSecs: real) returns (out: seq<KeyFreshness>)
    requires ByKey(rows)
    ensures out == FirstOf(SortByDue(Entries(rows, Groups(rows), now, AtLeast(defaultTtlSecs, 60.0))), limit)
  {
    out := FoldRows(rows, now, AtLeast(defaultTtlSecs, 60.0));
    out := SortByDue(out);
    if limit < |out| { out := out[..limit]; }
  }

  ghost predicate HasEntry(s: seq<KeyFreshness>, key: Digest) {
    exists i :: 0 <= i < |s| && s[i].key == key
  }

  /** What the one pass returns, said without it: entries in order of urgency, each its key's own
      group folded; there are as many as the limit and the keys with a parseable row allow, and
      any such key left out is due no sooner than everything kept. */
  lemma {:induction false} MostUrgent(rows: seq<LogRow>, now: int, limit: nat, prior: real)
    requires ByKey(rows)
    ensures var out := FirstOf(SortByDue(Entries(rows, Groups(rows), now, prior)), limit);
      && InOrder(out)
      && |out| == (if limit < |Groups(rows)| then limit else |Groups(rows)|)
      && (forall i :: 0 <= i < |out| ==>
          SeenOf(rows, out[i].key) != [] && out[i] == Entry(rows, out[i].key, now, prior))
      && (forall k, i :: SeenOf(rows, k) != [] && !HasEntry(out, k) && 0 <= i < |out| ==>
            Sooner(out[i], Entry(rows, k, now, prior)))
      && (forall i, j :: 0 <= i < j < |out| ==>
            out[i].dueInMillis < out[j].dueInMillis
            || (out[i].dueInMillis == out[j].dueInMillis && out[i].key < out[j].key))
      && (forall k, i :: SeenOf(rows, k) != [] && !HasEntry(out, k) && 0 <= i < |out| ==>
            out[i].dueInMillis <= Entry(rows, k, now, prior).dueInMillis)
  {
    hide Learn, SeenOf, UrlOf, Groups, ByKey, SortByDue;
    var gs := Groups(rows);
    var all := Entries(rows, gs, now, prior);
    var sorted := SortByDue(all);
    var out := FirstOf(sorted, limit);
    GroupsAre(rows);
    SortOrders(all);
    assert |sorted| == |multiset(sorted)| == |multiset(all)| == |all|;
    forall i | 0 <= i < |sorted|
      ensures SeenOf(rows, sorted[i].key) != [] && sorted[i] == Entry(rows, sorted[i].key, now, prior)
    {
      assert sorted[i] in all;
      var g :| 0 <= g < |all| && all[g] == sorted[i];
      assert gs[g] in gs;
    }
    forall k, i | SeenOf(rows, k) != [] && !HasEntry(out, k) && 0 <= i < |out|
      ensures Sooner(out[i], Entry(rows, k, now, prior))
    {
      var j := PlaceOf(sorted, Entries(rows, gs, now, prior), gs, k);
      HasIt(sorted, limit, j);
    }
  }

  lemma {:induction false} HasIt(sorted: seq<KeyFreshness>, limit: nat, j: nat)
    requires j < |sorted|
    ensures HasEntry(FirstOf(sorted, limit), sorted[j].key) || j >= |FirstOf(sorted, limit)|
  {
  }

  lemma {:induction false} PlaceOf(sorted: seq<KeyFreshness>, all: seq<KeyFreshness>, keys: seq<Digest>,
      k: Digest) returns (j: nat)
    requires |all| == |keys| && k in keys && forall y :: y in all ==> y in sorted
    ensures j < |sorted| && exists g :: 0 <= g < |keys| && keys[g] == k && sorted[j] == all[g]
  {
    var g :| 0 <= g < |keys| && keys[g] == k;
    assert all[g] in all;
    j :| 0 <= j < |sorted| && sorted[j] == all[g];
  }
}
