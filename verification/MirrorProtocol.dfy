/** The mirror as a protocol: the server appends, a run reads a page (or a snapshot), the sink
    lands any part of it, the position is checkpointed, and a crash may fall between any two of
    those steps. Every run of the code is a sequence of these steps; the invariant below holds
    after every one of them. */
module MirrorProtocol {
  import opened Wrappers
  import opened Feed
  import opened PagePlan

  /** What a run holds in memory: nothing, or a planned stretch of the feed with the keys the
      sink has still to settle. */
  datatype Phase = Idle | Applying(lo: nat, hi: nat, left: set<Key>)

  datatype State<+Out> = State(
    feed: seq<Entry<Out>>,
    sink: map<Key, Out>,
    stored: Option<Pos>,
    base: nat,  // how much of the feed the snapshot's position claimed
    phase: Phase)
  {
    /** How much of the feed the stored position claims. */
    function Done(): nat { if stored.None? then 0 else Rank(feed, stored.value) }
  }

  datatype Step<+Out> =
    | Append(entry: Entry<Out>)
    | BeginPage(hi: nat)
    | BeginSnapshot(n: nat)
    | Land(keys: set<Key>, sink: map<Key, Out>)
    | Checkpoint(position: Pos)
    | Crash

  function Writers<Out>(es: seq<Entry<Out>>): set<Key> {
    set k | k in Latest(es) && Latest(es)[k].Writes()
  }

  ghost predicate Extends<Out>(feed: seq<Entry<Out>>, e: Entry<Out>) {
    && e.at.rowid >= 1
    && (feed != [] ==> Before(feed[|feed| - 1].at, e.at))
    && NoDropAfterWrite(feed + [e])
  }

  /** A stretch that has a record image: no key's last revision lacks its post-image. */
  ghost predicate Imageable<Out>(es: seq<Entry<Out>>) {
    forall k :: LastVerdict(es, k) != Some(Anomaly)
  }

  /** Any subset of the planned writes may have reached the sink. */
  ghost predicate Lands<Out>(sink: map<Key, Out>, sink': map<Key, Out>, page: seq<Entry<Out>>, keys: set<Key>) {
    forall k :: Get(sink', k) == if k in keys then Planned(None, page, k) else Get(sink, k)
  }

  ghost predicate Enabled<Out>(s: State<Out>, step: Step<Out>) {
    match step
    case Append(e) => Extends(s.feed, e)
    case BeginPage(hi) =>
      && s.phase.Idle? && s.stored.Some? && s.Done() < hi <= |s.feed|
      && AnomalyFree(s.feed[s.Done()..hi])
    case BeginSnapshot(n) =>
      s.phase.Idle? && s.stored.None? && n <= |s.feed| && Imageable(s.feed[..n])
    case Land(keys, sink) =>
      && s.phase.Applying? && s.phase.lo <= s.phase.hi <= |s.feed| && keys <= s.phase.left
      && Lands(s.sink, sink, s.feed[s.phase.lo..s.phase.hi], keys)
    case Checkpoint(p) =>
      && s.phase.Applying? && s.phase.left == {} && 0 < s.phase.hi <= |s.feed|
      && if s.stored.Some? then p == s.feed[s.phase.hi - 1].at
         else p.rowid == 0 && p.stamp <= s.feed[s.phase.hi - 1].at.stamp
    case Crash => true
  }

  function After<Out>(s: State<Out>, step: Step<Out>): State<Out> {
    match step
    case Append(e) => s.(feed := s.feed + [e])
    case BeginPage(hi) =>
      if s.Done() <= hi <= |s.feed|
      then s.(phase := Applying(s.Done(), hi, Writers(s.feed[s.Done()..hi]))) else s
    case BeginSnapshot(n) =>
      if n <= |s.feed| then s.(phase := Applying(0, n, Writers(s.feed[..n]))) else s
    case Land(keys, sink) =>
      if s.phase.Applying? then s.(sink := sink, phase := s.phase.(left := s.phase.left - keys)) else s
    case Checkpoint(p) =>
      s.(stored := Some(p), base := if s.stored.None? then Rank(s.feed, p) else s.base, phase := Idle)
    case Crash => s.(phase := Idle)
  }

  // ---- the invariant ----

  ghost predicate MentionedFrom<Out>(feed: seq<Entry<Out>>, n: nat, key: Key) {
    exists i :: n <= i < |feed| && feed[i].key == key
  }

  /** Each key with no revision past `done` has in the sink exactly its folded value. */
  ghost predicate Mirrored<Out>(feed: seq<Entry<Out>>, sink: map<Key, Out>, done: nat)
    requires done <= |feed|
  {
    forall k :: !MentionedFrom(feed, done, k) ==> Get(sink, k) == Settle(None, feed[..done], k)
  }

  ghost predicate Sourced<Out>(feed: seq<Entry<Out>>, sink: map<Key, Out>) {
    forall k :: k in sink ==> WritesTo(feed, k)
  }

  ghost predicate Landed<Out>(sink: map<Key, Out>, page: seq<Entry<Out>>, left: set<Key>) {
    forall k :: k in Writers(page) && k !in left ==> Get(sink, k) == Planned(None, page, k)
  }

  ghost predicate PhaseOk<Out>(s: State<Out>) {
    s.phase.Applying? ==>
      && s.phase.lo == s.Done() && s.phase.lo <= s.phase.hi <= |s.feed|
      && (s.stored.Some? ==> s.phase.lo < s.phase.hi && AnomalyFree(s.feed[s.phase.lo..s.phase.hi]))
      && Imageable(s.feed[s.phase.lo..s.phase.hi])
      && s.phase.left <= Writers(s.feed[s.phase.lo..s.phase.hi])
      && Landed(s.sink, s.feed[s.phase.lo..s.phase.hi], s.phase.left)
  }

  ghost predicate FeedOk<Out>(feed: seq<Entry<Out>>) {
    Ordered(feed) && NoDropAfterWrite(feed)
  }

  ghost predicate StoredOk<Out>(s: State<Out>) {
    s.stored.Some? ==> s.feed != [] && !Before(s.feed[|s.feed| - 1].at, s.stored.value)
  }

  ghost predicate Inv<Out>(s: State<Out>) {
    && FeedOk(s.feed)
    && StoredOk(s)
    && (s.stored.Some? ==> s.base <= s.Done() && AnomalyFree(s.feed[s.base..s.Done()]))
    && Sourced(s.feed, s.sink)
    && Mirrored(s.feed, s.sink, s.Done())
    && PhaseOk(s)
  }

  /** A mirror that has never run: no position, an empty sink, whatever the feed already holds. */
  ghost predicate Init<Out>(s: State<Out>) {
    FeedOk(s.feed) && s.sink == map[] && s.stored.None? && s.phase.Idle?
  }

  // ---- slices ----

  lemma {:induction false} SettleQuiet<Out>(feed: seq<Entry<Out>>, a: nat, b: nat, key: Key)
    requires a <= b <= |feed|
    requires forall i :: a <= i < b ==> feed[i].key != key
    ensures Settle(None, feed[..b], key) == Settle(None, feed[..a], key)
  {
    assert feed[..b] == feed[..a] + feed[a..b];
    SettleConcat(None, feed[..a], feed[a..b], key);
    SettleUntouched(Settle(None, feed[..a], key), feed[a..b], key);
  }

  lemma {:induction false} WritersAre<Out>(es: seq<Entry<Out>>, key: Key)
    ensures key in Writers(es) <==> LastVerdict(es, key).Some? && LastVerdict(es, key).value.Writes()
    ensures LastVerdict(es, key).Some? <==> Mentions(es, key)
  {
    LatestIsLast(es, key);
    LastVerdictIsLast(es, key);
  }

  /** A key whose last revision in a stretch does not write, and which no later revision
      mentions, is written nowhere in the feed. */
  lemma {:induction false} SilentEnd<Out>(feed: seq<Entry<Out>>, lo: nat, hi: nat, key: Key)
    requires NoDropAfterWrite(feed) && lo <= hi <= |feed| && Imageable(feed[lo..hi])
    requires Mentions(feed[lo..hi], key) && key !in Writers(feed[lo..hi])
    requires !MentionedFrom(feed, hi, key)
    ensures !WritesTo(feed, key)
  {
    var page := feed[lo..hi];
    WritersAre(page, key);
    LastVerdictIsLast(page, key);
    var l :| && 0 <= l < |page| && page[l].key == key && page[l].verdict == LastVerdict(page, key).value
             && forall j :: l < j < |page| ==> page[j].key != key;
    assert feed[lo + l] == page[l];
    assert forall i :: lo <= i < hi ==> feed[i] == page[i - lo];
    assert forall i :: lo + l < i < |feed| ==> feed[i].key != key;
  }

  // ---- each step keeps it ----

  lemma {:induction false} OrderedAppend<Out>(feed: seq<Entry<Out>>, e: Entry<Out>)
    requires Ordered(feed) && Extends(feed, e)
    ensures Ordered(feed + [e])
  {
  }

  lemma {:induction false} AppendKeepsDone<Out>(s: State<Out>, e: Entry<Out>)
    requires Inv(s) && Extends(s.feed, e)
    ensures After(s, Append(e)).Done() == s.Done()
  {
  }

  lemma {:induction false} AppendKeepsInv<Out>(s: State<Out>, e: Entry<Out>)
    requires Inv(s) && Extends(s.feed, e)
    ensures Inv(After(s, Append(e)))
  {
    var t := After(s, Append(e));
    OrderedAppend(s.feed, e);
    AppendKeepsDone(s, e);
    assert t.feed[..s.Done()] == s.feed[..s.Done()];
    if s.stored.Some? { assert t.feed[s.base..s.Done()] == s.feed[s.base..s.Done()]; }
    forall k | k in t.sink ensures WritesTo(t.feed, k) {
      var i :| 0 <= i < |s.feed| && s.feed[i].key == k && s.feed[i].verdict.Writes();
      assert t.feed[i] == s.feed[i];
    }
    forall k | !MentionedFrom(t.feed, t.Done(), k) ensures Get(t.sink, k) == Settle(None, t.feed[..t.Done()], k) {
      assert forall i :: 0 <= i < |s.feed| ==> t.feed[i] == s.feed[i];
    }
    if s.phase.Applying? {
      assert t.feed[s.phase.lo..s.phase.hi] == s.feed[s.phase.lo..s.phase.hi];
    }
  }

  lemma {:induction false} BeginKeepsInv<Out>(s: State<Out>, step: Step<Out>)
    requires Inv(s) && Enabled(s, step) && (step.BeginPage? || step.BeginSnapshot?)
    ensures Inv(After(s, step))
  {
    if step.BeginSnapshot? {
      assert s.feed[0..step.n] == s.feed[..step.n];
    } else {
      AnomalyFreeIsImageable(s.feed[s.Done()..step.hi]);
    }
  }

  lemma {:induction false} AnomalyFreeIsImageable<Out>(es: seq<Entry<Out>>)
    requires AnomalyFree(es)
    ensures Imageable(es)
  {
    forall k ensures LastVerdict(es, k) != Some(Anomaly) {
      LastVerdictIsLast(es, k);
    }
  }

  lemma {:induction false} WriterIsAhead<Out>(feed: seq<Entry<Out>>, lo: nat, hi: nat, key: Key)
    requires lo <= hi <= |feed| && key in Writers(feed[lo..hi])
    ensures WritesTo(feed, key) && MentionedFrom(feed, lo, key)
  {
    var page := feed[lo..hi];
    WritersAre(page, key);
    LastVerdictIsLast(page, key);
    var i :| 0 <= i < |page| && page[i].key == key && page[i].verdict.Writes();
    assert feed[lo + i] == page[i];
  }

  lemma {:induction false} LandKeepsInv<Out>(s: State<Out>, keys: set<Key>, sink: map<Key, Out>)
    requires Inv(s) && Enabled(s, Land(keys, sink))
    ensures Inv(After(s, Land(keys, sink)))
  {
    var lo, hi := s.phase.lo, s.phase.hi;
    forall k | k in keys ensures WritesTo(s.feed, k) && MentionedFrom(s.feed, lo, k) {
      WriterIsAhead(s.feed, lo, hi, k);
    }
    LandKeepsRows(s.feed, s.sink, sink, lo, hi, keys);
    LandKeepsLanded(s.sink, sink, s.feed[lo..hi], s.phase.left, keys);
  }

  lemma {:induction false} LandKeepsRows<Out>(feed: seq<Entry<Out>>, sink: map<Key, Out>, sink': map<Key, Out>,
      lo: nat, hi: nat, keys: set<Key>)
    requires lo <= hi <= |feed| && Lands(sink, sink', feed[lo..hi], keys)
    requires forall k :: k in keys ==> WritesTo(feed, k) && MentionedFrom(feed, lo, k)
    requires Sourced(feed, sink) && Mirrored(feed, sink, lo)
    ensures Sourced(feed, sink') && Mirrored(feed, sink', lo)
  {
  }

  lemma {:induction false} LandKeepsLanded<Out>(sink: map<Key, Out>, sink': map<Key, Out>, page: seq<Entry<Out>>,
      left: set<Key>, keys: set<Key>)
    requires Lands(sink, sink', page, keys) && Landed(sink, page, left)
    ensures Landed(sink', page, left - keys)
  {
  }

  /** With every planned key landed, a position anywhere in the applied stretch mirrors. */
  lemma {:induction false} CheckpointMirrors<Out>(feed: seq<Entry<Out>>, sink: map<Key, Out>, lo: nat, hi: nat,
      done: nat, key: Key)
    requires FeedOk(feed) && Sourced(feed, sink)
    requires lo <= done <= hi <= |feed| && Mirrored(feed, sink, lo)
    requires Imageable(feed[lo..hi]) && Landed(sink, feed[lo..hi], {})
    requires !MentionedFrom(feed, done, key)
    ensures Get(sink, key) == Settle(None, feed[..done], key)
  {
    var page := feed[lo..hi];
    assert forall i :: done <= i < |feed| ==> feed[i].key != key;
    SettleQuiet(feed, done, hi, key);
    WritersAre(page, key);
    if !Mentions(page, key) {
      assert forall i :: lo <= i < hi ==> feed[i] == page[i - lo];
      assert !MentionedFrom(feed, lo, key);
      SettleQuiet(feed, lo, hi, key);
    } else if key in Writers(page) {
      assert feed[..hi] == feed[..lo] + page;
      SettleConcat(None, feed[..lo], page, key);
      LastWriteWins(Settle(None, feed[..lo], key), None, page, key);
    } else {
      assert !MentionedFrom(feed, hi, key);
      SilentEnd(feed, lo, hi, key);
      assert forall i :: 0 <= i < done ==> feed[i] == feed[..done][i];
      SettleUntouched(None, feed[..done], key);
    }
  }

  /** The new position claims no more than was applied, and no less than the old one. */
  lemma {:induction false} CheckpointRank<Out>(s: State<Out>, p: Pos)
    requires Inv(s) && Enabled(s, Checkpoint(p))
    ensures s.phase.lo <= Rank(s.feed, p) <= s.phase.hi
    ensures s.stored.Some? ==> Rank(s.feed, p) == s.phase.hi && Before(s.stored.value, p)
    ensures !Before(s.feed[|s.feed| - 1].at, p)
  {
    var hi := s.phase.hi;
    RankSplits(s.feed, p);
    if s.stored.Some? {
      RankOfEntry(s.feed, hi - 1);
      RankSplits(s.feed, s.stored.value);
    } else {
      forall i | hi <= i < |s.feed| ensures Before(p, s.feed[i].at) {
        assert Before(s.feed[hi - 1].at, s.feed[i].at);
      }
    }
    if hi < |s.feed| { assert Before(s.feed[hi - 1].at, s.feed[|s.feed| - 1].at); }
  }

  lemma {:induction false} CheckpointKeepsInv<Out>(s: State<Out>, p: Pos)
    requires Inv(s) && Enabled(s, Checkpoint(p))
    ensures Inv(After(s, Checkpoint(p)))
  {
    var t := After(s, Checkpoint(p));
    CheckpointRank(s, p);
    forall k | !MentionedFrom(t.feed, t.Done(), k) ensures Get(t.sink, k) == Settle(None, t.feed[..t.Done()], k) {
      CheckpointMirrors(s.feed, s.sink, s.phase.lo, s.phase.hi, t.Done(), k);
    }
    if s.stored.Some? {
      assert t.feed[t.base..t.Done()] == s.feed[s.base..s.Done()] + s.feed[s.phase.lo..s.phase.hi];
    }
  }

  lemma {:induction false} StepKeepsInv<Out>(s: State<Out>, step: Step<Out>)
    requires Inv(s) && Enabled(s, step)
    ensures Inv(After(s, step))
  {
    match step
    case Append(e) => AppendKeepsInv(s, e);
    case BeginPage(_) => BeginKeepsInv(s, step);
    case BeginSnapshot(_) => BeginKeepsInv(s, step);
    case Land(keys, sink) => LandKeepsInv(s, keys, sink);
    case Checkpoint(p) => CheckpointKeepsInv(s, p);
    case Crash =>
  }

  lemma {:induction false} InitHoldsInv<Out>(s: State<Out>)
    requires Init(s)
    ensures Inv(s)
  {
  }

  /** The stored position never moves back, and a step that stores one stores a later one. */
  lemma {:induction false} StepKeepsPosition<Out>(s: State<Out>, step: Step<Out>)
    requires Inv(s) && Enabled(s, step) && s.stored.Some?
    ensures After(s, step).stored.Some? && !Before(After(s, step).stored.value, s.stored.value)
    ensures s.Done() <= After(s, step).Done()
  {
    if step.Checkpoint? {
      CheckpointRank(s, step.position);
    } else if step.Append? {
      AppendKeepsDone(s, step.entry);
    }
  }

  // ---- whole runs ----

  function AfterAll<Out>(s: State<Out>, steps: seq<Step<Out>>): State<Out> {
    if steps == [] then s else After(AfterAll(s, steps[..|steps| - 1]), steps[|steps| - 1])
  }

  /** Every step is enabled where it is taken. */
  ghost predicate Legal<Out>(s: State<Out>, steps: seq<Step<Out>>) {
    steps != [] ==>
      && Legal(s, steps[..|steps| - 1])
      && Enabled(AfterAll(s, steps[..|steps| - 1]), steps[|steps| - 1])
  }

  ghost predicate Reaches<Out(!new)>(s: State<Out>, t: State<Out>) {
    exists steps :: Legal(s, steps) && AfterAll(s, steps) == t
  }

  lemma {:induction false} ReachesStep<Out(!new)>(s: State<Out>, t: State<Out>, step: Step<Out>)
    requires Reaches(s, t) && Enabled(t, step)
    ensures Reaches(s, After(t, step))
  {
    var steps :| Legal(s, steps) && AfterAll(s, steps) == t;
    assert (steps + [step])[..|steps|] == steps;
    assert Legal(s, steps + [step]) && AfterAll(s, steps + [step]) == After(t, step);
  }

  lemma {:induction false} ReachesTransitive<Out(!new)>(s: State<Out>, t: State<Out>, u: State<Out>)
    requires Reaches(s, t) && Reaches(t, u)
    ensures Reaches(s, u)
  {
    var more :| Legal(t, more) && AfterAll(t, more) == u;
    ReachesMore(s, t, more);
  }

  lemma {:induction false} ReachesMore<Out(!new)>(s: State<Out>, t: State<Out>, more: seq<Step<Out>>)
    requires Reaches(s, t) && Legal(t, more)
    ensures Reaches(s, AfterAll(t, more))
  {
    if more != [] {
      ReachesMore(s, t, more[..|more| - 1]);
      ReachesStep(s, AfterAll(t, more[..|more| - 1]), more[|more| - 1]);
    }
  }

  lemma {:induction false} ReachesSelf<Out(!new)>(s: State<Out>)
    ensures Reaches(s, s)
  {
    assert Legal(s, []) && AfterAll(s, []) == s;
  }

  lemma {:induction false} LegalKeepsInv<Out>(s: State<Out>, steps: seq<Step<Out>>)
    requires Inv(s) && Legal(s, steps)
    ensures Inv(AfterAll(s, steps))
    ensures s.stored.Some? ==>
              && AfterAll(s, steps).stored.Some?
              && !Before(AfterAll(s, steps).stored.value, s.stored.value)
              && s.Done() <= AfterAll(s, steps).Done()
  {
    if steps != [] {
      var before := AfterAll(s, steps[..|steps| - 1]);
      LegalKeepsInv(s, steps[..|steps| - 1]);
      StepKeepsInv(before, steps[|steps| - 1]);
      if s.stored.Some? { StepKeepsPosition(before, steps[|steps| - 1]); }
    }
  }

  /** Any number of runs, crashes and appends later the invariant holds, and the stored
      position has not moved back. */
  lemma {:induction false} ReachesKeepsInv<Out(!new)>(s: State<Out>, t: State<Out>)
    requires Inv(s) && Reaches(s, t)
    ensures Inv(t)
    ensures s.stored.Some? ==> t.stored.Some? && !Before(t.stored.value, s.stored.value) && s.Done() <= t.Done()
  {
    var steps :| Legal(s, steps) && AfterAll(s, steps) == t;
    LegalKeepsInv(s, steps);
  }

  /** Crash safety over every run: whatever landed and wherever runs died, a key with no
      revision past the stored position holds exactly the fold of the feed up to it. */
  lemma {:induction false} CrashSafe<Out(!new)>(start: State<Out>, s: State<Out>, p: Pos, key: Key)
    requires Init(start) && Reaches(start, s) && s.stored == Some(p)
    requires forall e :: e in s.feed && e.key == key ==> !Before(p, e.at)
    ensures Get(s.sink, key) == Get(Fold(map[], s.feed[..Rank(s.feed, p)]), key)
  {
    InitHoldsInv(start);
    ReachesKeepsInv(start, s);
    RankSplits(s.feed, p);
    forall i | s.Done() <= i < |s.feed| ensures s.feed[i].key != key {
      assert s.feed[i] in s.feed;
    }
    assert !MentionedFrom(s.feed, s.Done(), key);
    FoldSettles(map[], s.feed[..s.Done()], key);
  }

  /** Once the position covers the feed the sink is the fold of the whole feed, even straight
      after a crash. */
  lemma {:induction false} CaughtUpIsExact<Out>(s: State<Out>)
    requires Inv(s) && s.Done() == |s.feed|
    ensures s.sink == Fold(map[], s.feed)
  {
    assert s.feed[..|s.feed|] == s.feed;
    forall k ensures Get(s.sink, k) == Get(Fold(map[], s.feed), k) {
      assert !MentionedFrom(s.feed, s.Done(), k);
      FoldSettles(map[], s.feed, k);
    }
    SameRows(s.sink, Fold(map[], s.feed));
  }

  /** Stall safety over every run: past the snapshot's position, a revision that is not
      `removed` and has no post-image stays ahead of the stored position, and no page in flight
      contains it. */
  lemma {:induction false} NeverPastAnomaly<Out(!new)>(start: State<Out>, s: State<Out>, i: nat)
    requires Init(start) && Reaches(start, s) && s.stored.Some?
    requires s.base <= i < |s.feed| && s.feed[i].verdict.Anomaly?
    ensures Before(s.stored.value, s.feed[i].at)
    ensures s.phase.Applying? ==> s.phase.hi <= i
  {
    InitHoldsInv(start);
    ReachesKeepsInv(start, s);
    AnomalyIsAhead(s, i);
  }

  lemma {:induction false} AnomalyIsAhead<Out>(s: State<Out>, i: nat)
    requires Inv(s) && s.stored.Some? && s.base <= i < |s.feed| && s.feed[i].verdict.Anomaly?
    ensures Before(s.stored.value, s.feed[i].at)
    ensures s.phase.Applying? ==> s.phase.hi <= i
  {
    var done := s.Done();
    assert forall j :: s.base <= j < done ==> s.feed[s.base..done][j - s.base] == s.feed[j];
    RankSplits(s.feed, s.stored.value);
    if s.phase.Applying? {
      assert forall j :: done <= j < s.phase.hi ==> s.feed[done..s.phase.hi][j - done] == s.feed[j];
    }
  }
}
