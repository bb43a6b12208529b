/** The older mirror as a protocol: it stores one bare instant. The server appends, a run breaks
    with any part of its writes landed, or a run finishes and stores the newest stamp it saw. A
    run counts at the moment its first page is answered: what the server commits while the walk
    goes on is not read, so it arrives after the run. */
module InstantProtocol {
  import opened Wrappers
  import opened Feed
  import opened PagePlan
  import opened Backward
  import P = MirrorProtocol
  import M = MirrorMoves

  /** How many revisions an instant claims: all stamped no later. */
  function Behind<Out>(feed: seq<Entry<Out>>, since: int): (n: nat)
    ensures n <= |feed|
  {
    if feed == [] then 0
    else if feed[|feed| - 1].at.stamp > since then Behind(feed[..|feed| - 1], since)
    else |feed|
  }

  datatype State<+Out> = State(feed: seq<Entry<Out>>, sink: map<Key, Out>, since: int) {
    function Done(): (n: nat) ensures n <= |feed| { Behind(feed, since) }
  }

  datatype Turn<+Out> = Arrive(more: seq<Entry<Out>>) | Break(sink: map<Key, Out>) | Finish

  ghost predicate Enabled<Out>(s: State<Out>, turn: Turn<Out>) {
    match turn
    case Arrive(more) => P.FeedOk(s.feed + more) && AnomalyFree(more)
    case Break(sink) => M.PartlyApplied(s.sink, sink, s.feed[s.Done()..])
    case Finish => true
  }

  function After<Out>(s: State<Out>, turn: Turn<Out>): State<Out> {
    match turn
    case Arrive(more) => s.(feed := s.feed + more)
    case Break(sink) => s.(sink := sink)
    case Finish =>
      State(s.feed, PassedOver(s.sink, Reversed(s.feed[s.Done()..])),
            if s.Done() == |s.feed| then s.since else s.feed[|s.feed| - 1].at.stamp)
  }

  /** Each key no revision past the instant mentions has its folded value, and no other value in
      the sink was made up. */
  ghost predicate Held<Out>(s: State<Out>) {
    P.FeedOk(s.feed) && AnomalyFree(s.feed) && P.Sourced(s.feed, s.sink) && P.Mirrored(s.feed, s.sink, s.Done())
  }

  /** Nothing arrives with the stored instant's own stamp. */
  predicate OnTime<Out>(s: State<Out>, turn: Turn<Out>) {
    turn.Arrive? ==> forall i :: 0 <= i < |turn.more| ==> turn.more[i].at.stamp > s.since
  }

  lemma {:induction false} BehindSplits<Out>(feed: seq<Entry<Out>>, since: int)
    requires Ordered(feed)
    ensures forall i :: 0 <= i < |feed| ==> (i >= Behind(feed, since) <==> feed[i].at.stamp > since)
  {
    if feed != [] {
      var front, last := feed[..|feed| - 1], feed[|feed| - 1];
      if last.at.stamp > since {
        BehindSplits(front, since);
        assert forall i :: 0 <= i < |front| ==> front[i] == feed[i];
      } else {
        forall i | 0 <= i < |front| ensures feed[i].at.stamp <= since {
          assert Before(feed[i].at, last.at);
        }
      }
    }
  }

  lemma {:induction false} BehindIs<Out>(feed: seq<Entry<Out>>, since: int, n: nat)
    requires Ordered(feed) && n <= |feed|
    requires forall i :: 0 <= i < |feed| ==> (i >= n <==> feed[i].at.stamp > since)
    ensures Behind(feed, since) == n
  {
    BehindSplits(feed, since);
    var b := Behind(feed, since);
    assert b < |feed| ==> feed[b].at.stamp > since;
    assert n < |feed| ==> feed[n].at.stamp > since;
  }

  // ---- each turn keeps it ----

  lemma {:induction false} AppendKeepsRows<Out>(feed: seq<Entry<Out>>, more: seq<Entry<Out>>, sink: map<Key, Out>,
      n: nat)
    requires n <= |feed| && P.Sourced(feed, sink) && P.Mirrored(feed, sink, n)
    ensures P.Sourced(feed + more, sink) && P.Mirrored(feed + more, sink, n)
  {
    var all := feed + more;
    assert forall i :: 0 <= i < |feed| ==> all[i] == feed[i];
    assert all[..n] == feed[..n];
    forall k | k in sink ensures WritesTo(all, k) {
      var i :| 0 <= i < |feed| && feed[i].key == k && feed[i].verdict.Writes();
      assert all[i] == feed[i];
    }
    forall k | !P.MentionedFrom(all, n, k) ensures Get(sink, k) == Settle(None, all[..n], k) {
      assert !P.MentionedFrom(feed, n, k);
    }
  }

  lemma {:induction false} OnTimeArriveKeeps<Out>(s: State<Out>, more: seq<Entry<Out>>)
    requires Held(s) && Enabled(s, Arrive(more)) && OnTime(s, Arrive(more))
    ensures Held(After(s, Arrive(more))) && After(s, Arrive(more)).Done() == s.Done()
  {
    hide P.Sourced, P.Mirrored, NoDropAfterWrite;
    BehindSplits(s.feed, s.since);
    BehindIs(s.feed + more, s.since, s.Done());
    AppendKeepsRows(s.feed, more, s.sink, s.Done());
  }

  /** Every planned key of a stretch past the instant is written and mentioned there. */
  lemma {:induction false} LandingKeeps<Out>(s: State<Out>, sink: map<Key, Out>, keys: set<Key>)
    requires Held(s) && keys <= P.Writers(s.feed[s.Done()..]) && P.Lands(s.sink, sink, s.feed[s.Done()..], keys)
    ensures Held(s.(sink := sink))
  {
    var lo, hi := s.Done(), |s.feed|;
    assert s.feed[lo..hi] == s.feed[lo..];
    forall k | k in keys ensures WritesTo(s.feed, k) && P.MentionedFrom(s.feed, lo, k) {
      P.WriterIsAhead(s.feed, lo, hi, k);
    }
    P.LandKeepsRows(s.feed, s.sink, sink, lo, hi, keys);
  }

  lemma {:induction false} BreakKeeps<Out>(s: State<Out>, sink: map<Key, Out>)
    requires Held(s) && Enabled(s, Break(sink))
    ensures Held(After(s, Break(sink)))
  {
    var keys := M.PartlyIsLanding(s.sink, sink, s.feed[s.Done()..]);
    LandingKeeps(s, sink, keys);
  }

  lemma {:induction false} PassLands<Out>(rows: map<Key, Out>, page: seq<Entry<Out>>)
    requires AnomalyFree(page)
    ensures P.Lands(rows, PassedOver(rows, Reversed(page)), page, P.Writers(page))
    ensures P.Landed(PassedOver(rows, Reversed(page)), page, {})
  {
    forall k
      ensures Get(PassedOver(rows, Reversed(page)), k) == if k in P.Writers(page) then Planned(None, page, k)
          else Get(rows, k)
    {
      PassIsPlanned(rows, page, k);
      P.WritersAre(page, k);
    }
  }

  /** A pass whose instant was refused is one that broke after its last write. */
  lemma {:induction false} PassIsPartly<Out>(rows: map<Key, Out>, page: seq<Entry<Out>>)
    requires AnomalyFree(page)
    ensures M.PartlyApplied(rows, PassedOver(rows, Reversed(page)), page)
  {
    hide PassedOver, Reversed;
    PassLands(rows, page);
  }

  /** A finished run leaves the fold of everything it read. */
  lemma {:induction false} FinishIsExact<Out>(s: State<Out>)
    requires Held(s)
    ensures Held(After(s, Finish)) && After(s, Finish).Done() == |s.feed|
    ensures After(s, Finish).sink == Fold(map[], s.feed)
  {
    hide PassedOver, Fold, P.Lands, P.Landed, P.Sourced, P.Mirrored, P.MentionedFrom, NoDropAfterWrite;
    var t, lo, hi := After(s, Finish), s.Done(), |s.feed|;
    var page := s.feed[lo..];
    assert s.feed[lo..hi] == page;
    PassLands(s.sink, page);
    LandingKeeps(s, t.sink, P.Writers(page));
    BehindIs(s.feed, t.since, hi) by {
      BehindSplits(s.feed, s.since);
      forall i | 0 <= i < hi ensures s.feed[i].at.stamp <= t.since {
        if lo < hi && i < hi - 1 { assert Before(s.feed[i].at, s.feed[hi - 1].at); }
      }
    }
    P.AnomalyFreeIsImageable(page);
    assert s.feed[..hi] == s.feed;
    AllSettled(s.feed, t.sink, lo);
  }

  lemma {:induction false} AllSettled<Out>(feed: seq<Entry<Out>>, sink: map<Key, Out>, lo: nat)
    requires P.FeedOk(feed) && lo <= |feed| && P.Sourced(feed, sink) && P.Mirrored(feed, sink, lo)
    requires P.Imageable(feed[lo..]) && P.Landed(sink, feed[lo..], {})
    ensures P.Mirrored(feed, sink, |feed|) && sink == Fold(map[], feed)
  {
    hide P.Sourced, P.FeedOk, P.Imageable, P.Landed, Fold;
    var hi := |feed|;
    assert feed[lo..hi] == feed[lo..] && feed[..hi] == feed;
    forall k ensures Get(sink, k) == Settle(None, feed, k) && Get(sink, k) == Get(Fold(map[], feed), k) {
      assert !P.MentionedFrom(feed, hi, k);
      P.CheckpointMirrors(feed, sink, lo, hi, hi, k);
      FoldSettles(map[], feed, k);
    }
    SameRows(sink, Fold(map[], feed));
  }

  lemma {:induction false} TurnKeepsHeld<Out>(s: State<Out>, turn: Turn<Out>)
    requires Held(s) && Enabled(s, turn) && OnTime(s, turn)
    ensures Held(After(s, turn))
  {
    match turn
    case Arrive(more) => OnTimeArriveKeeps(s, more);
    case Break(sink) => BreakKeeps(s, sink);
    case Finish => FinishIsExact(s);
  }

  // ---- a late sibling ----

  lemma {:induction false} HeldInFull<Out>(s: State<Out>)
    requires P.FeedOk(s.feed) && AnomalyFree(s.feed) && P.Sourced(s.feed, s.sink) && s.Done() == |s.feed|
    ensures Held(s) <==> s.sink == Fold(map[], s.feed)
  {
    assert s.feed[..|s.feed|] == s.feed;
    forall k ensures Get(Fold(map[], s.feed), k) == Settle(None, s.feed, k) && !P.MentionedFrom(s.feed, |s.feed|, k) {
      FoldSettles(map[], s.feed, k);
    }
    if Held(s) { SameRows(s.sink, Fold(map[], s.feed)); }
  }

  /** What one arrival does to the invariant, exactly: it is kept if and only if the revision is
      stamped past the instant, or applying it would leave its key as the sink has it. */
  lemma {:induction false} ArrivalKeepsExactly<Out>(s: State<Out>, e: Entry<Out>)
    requires Held(s) && Enabled(s, Arrive([e]))
    ensures Held(After(s, Arrive([e]))) <==>
        e.at.stamp > s.since || e.verdict.Over(Get(s.sink, e.key)) == Get(s.sink, e.key)
  {
    hide P.Mirrored, NoDropAfterWrite;
    var t := After(s, Arrive([e]));
    if e.at.stamp > s.since {
      OnTimeArriveKeeps(s, [e]);
    } else {
      assert t.feed[..|s.feed|] == s.feed && t.feed[|s.feed|] == e;
      forall i | 0 <= i < |t.feed| ensures t.feed[i].at.stamp <= s.since {
        if i < |s.feed| { assert Before(t.feed[i].at, t.feed[|s.feed|].at); }
      }
      BehindIs(t.feed, s.since, |t.feed|);
      assert forall i :: 0 <= i < |s.feed| ==> s.feed[i] == t.feed[i];
      BehindIs(s.feed, s.since, |s.feed|);
      HeldInFull(s);
      AppendKeepsRows(s.feed, [e], s.sink, |s.feed|);
      HeldInFull(t);
      PutSame(s.sink, e.key, e.verdict.Over(Get(s.sink, e.key)));
    }
  }

  lemma {:induction false} PutSame<Out>(rows: map<Key, Out>, key: Key, value: Option<Out>)
    ensures Put(rows, key, value) == rows <==> value == Get(rows, key)
  {
    assert Get(Put(rows, key, value), key) == value;
  }

  // ---- whole runs ----

  function AfterAll<Out>(s: State<Out>, turns: seq<Turn<Out>>): State<Out> {
    if turns == [] then s else After(AfterAll(s, turns[..|turns| - 1]), turns[|turns| - 1])
  }

  ghost predicate Legal<Out>(s: State<Out>, turns: seq<Turn<Out>>) {
    turns != [] ==>
      && Legal(s, turns[..|turns| - 1])
      && Enabled(AfterAll(s, turns[..|turns| - 1]), turns[|turns| - 1])
  }

  ghost predicate Punctual<Out>(s: State<Out>, turns: seq<Turn<Out>>) {
    turns != [] ==>
      && Punctual(s, turns[..|turns| - 1])
      && OnTime(AfterAll(s, turns[..|turns| - 1]), turns[|turns| - 1])
  }

  /** Histories compose: what one cycle leaves, the next starts from. */
  lemma {:induction false} TurnsConcat<Out>(s: State<Out>, a: seq<Turn<Out>>, b: seq<Turn<Out>>)
    ensures AfterAll(s, a + b) == AfterAll(AfterAll(s, a), b)
    ensures Legal(s, a + b) <==> Legal(s, a) && Legal(AfterAll(s, a), b)
    ensures Punctual(s, a + b) <==> Punctual(s, a) && Punctual(AfterAll(s, a), b)
  {
    hide After, Enabled, OnTime;
    if b == [] {
      assert a + b == a;
    } else {
      assert (a + b)[..|a + b| - 1] == a + b[..|b| - 1];
      TurnsConcat(s, a, b[..|b| - 1]);
    }
  }

  lemma {:induction false} TurnsOfThree<Out>(s: State<Out>, turns: seq<Turn<Out>>)
    requires |turns| == 3
    ensures var a := After(s, turns[0]);
      && AfterAll(s, turns) == After(After(a, turns[1]), turns[2])
      && (Legal(s, turns) <==> Enabled(s, turns[0]) && Enabled(a, turns[1]) && Enabled(After(a, turns[1]), turns[2]))
      && (Punctual(s, turns) <==> OnTime(s, turns[0]) && OnTime(a, turns[1]) && OnTime(After(a, turns[1]), turns[2]))
  {
    hide After, Enabled, OnTime;
    var one, two := turns[..1], turns[..2];
    assert one[..0] == [] && two[..1] == one && turns[..2] == two;
    assert AfterAll(s, one) == After(s, turns[0]) && AfterAll(s, two) == After(After(s, turns[0]), turns[1]);
    assert Legal(s, one) <==> Enabled(s, turns[0]);
    assert Punctual(s, one) <==> OnTime(s, turns[0]);
  }

  /** A run over the first `all` revisions of the feed: those past the first `before` arrived
      ahead of its first page, the rest after it. */
  function Cycle<Out>(es: seq<Entry<Out>>, before: nat, all: nat, finished: bool, rows: map<Key, Out>): seq<Turn<Out>>
    requires before <= all <= |es|
  {
    [Arrive(es[before..all]), if finished then Finish else Break(rows), Arrive(es[all..])]
  }

  ghost predicate Wrote<Out>(rows: map<Key, Out>, rows': map<Key, Out>, page: seq<Entry<Out>>, finished: bool) {
    if finished then rows' == PassedOver(rows, Reversed(page)) else M.PartlyApplied(rows, rows', page)
  }

  lemma {:induction false} CycleIsLegal<Out>(es: seq<Entry<Out>>, before: nat, all: nat, finished: bool,
      rows: map<Key, Out>, rows': map<Key, Out>, since: int)
    requires before <= all <= |es| && P.FeedOk(es) && AnomalyFree(es)
    requires Wrote(rows, rows', es[..all][Behind(es[..all], since)..], finished)
    ensures var turns, start := Cycle(es, before, all, finished, rows'), State(es[..before], rows, since);
      && Legal(start, turns)
      && AfterAll(start, turns) ==
          State(es, rows', if finished && Behind(es[..all], since) < all then es[all - 1].at.stamp else since)
  {
    hide PassedOver, Reversed, P.FeedOk, M.PartlyApplied, Behind;
    var turns, start := Cycle(es, before, all, finished, rows'), State(es[..before], rows, since);
    assert es == es[..all] + es[all..] && es[..before] + es[before..all] == es[..all];
    M.FeedOkPrefix(es[..all], es[all..]);
    var read := State(es[..all], rows, since);
    assert After(start, turns[0]) == read && Enabled(start, turns[0]) && Enabled(read, turns[1]);
    var ran := After(read, turns[1]);
    assert ran.feed == es[..all] && ran.sink == rows' && Enabled(ran, turns[2]);
    TurnsOfThree(start, turns);
  }

  /** Over every run of finished and broken turns, with every arrival on time: a key no revision
      past the instant mentions holds exactly the fold of what the instant claims, and once the
      instant covers the feed the sink is the fold of all of it. */
  lemma {:induction false} InstantSafe<Out>(start: State<Out>, turns: seq<Turn<Out>>, key: Key)
    requires Held(start) && Legal(start, turns) && Punctual(start, turns)
    ensures var s := AfterAll(start, turns);
      && Held(s)
      && (!P.MentionedFrom(s.feed, s.Done(), key) ==> Get(s.sink, key) == Get(Fold(map[], s.feed[..s.Done()]), key))
      && (s.Done() == |s.feed| ==> s.sink == Fold(map[], s.feed))
  {
    hide Held, Fold, P.MentionedFrom;
    TurnsKeepHeld(start, turns);
    HeldMeans(AfterAll(start, turns), key);
  }

  lemma {:induction false} TurnsKeepHeld<Out>(start: State<Out>, turns: seq<Turn<Out>>)
    requires Held(start) && Legal(start, turns) && Punctual(start, turns)
    ensures Held(AfterAll(start, turns))
  {
    hide Held, Enabled, OnTime, After;
    if turns != [] {
      TurnsKeepHeld(start, turns[..|turns| - 1]);
      TurnKeepsHeld(AfterAll(start, turns[..|turns| - 1]), turns[|turns| - 1]);
    }
  }

  lemma {:induction false} HeldMeans<Out>(s: State<Out>, key: Key)
    requires Held(s)
    ensures !P.MentionedFrom(s.feed, s.Done(), key) ==> Get(s.sink, key) == Get(Fold(map[], s.feed[..s.Done()]), key)
    ensures s.Done() == |s.feed| ==> s.sink == Fold(map[], s.feed)
  {
    FoldSettles(map[], s.feed[..s.Done()], key);
    if s.Done() == |s.feed| { HeldInFull(s); }
  }

  /** A sink that is the fold of what its instant claims holds: so a run may start there. */
  lemma {:induction false} FoldHolds<Out>(feed: seq<Entry<Out>>, since: int)
    requires P.FeedOk(feed) && AnomalyFree(feed)
    ensures Held(State(feed, Fold(map[], feed[..Behind(feed, since)]), since))
  {
    var n := Behind(feed, since);
    var rows := Fold(map[], feed[..n]);
    forall k ensures Get(rows, k) == Settle(None, feed[..n], k) {
      FoldSettles(map[], feed[..n], k);
    }
    forall k | k in rows ensures WritesTo(feed, k) {
      assert Get(rows, k).Some?;
      if !WritesTo(feed, k) {
        assert forall i :: 0 <= i < n ==> feed[..n][i] == feed[i];
        SettleUntouched(None, feed[..n], k);
      }
    }
  }
}
