/** How the moves a run makes - reading while the server appends, applying a page, checkpointing -
    are sequences of protocol steps. */
module MirrorMoves {
  import opened Wrappers
  import opened Feed
  import opened PagePlan
  import opened MirrorProtocol

  /** After a possibly broken sink call each key holds its old or its planned value. */
  ghost predicate PartlyApplied<Out>(sink: map<Key, Out>, sink': map<Key, Out>, page: seq<Entry<Out>>) {
    forall k :: Get(sink', k) == Get(sink, k) || (k in Writers(page) && Get(sink', k) == Planned(None, page, k))
  }

  lemma {:induction false} FeedOkPrefix<Out>(feed: seq<Entry<Out>>, more: seq<Entry<Out>>)
    requires FeedOk(feed + more)
    ensures FeedOk(feed)
  {
    assert forall i :: 0 <= i < |feed| ==> (feed + more)[i] == feed[i];
  }

  lemma {:induction false} GrowReaches<Out(!new)>(s0: State<Out>, s: State<Out>, more: seq<Entry<Out>>)
    requires Reaches(s0, s) && FeedOk(s.feed + more)
    ensures Reaches(s0, s.(feed := s.feed + more))
    decreases |more|
  {
    if more == [] {
      assert s.feed + more == s.feed;
    } else {
      var e := more[0];
      assert s.feed + more == (s.feed + [e]) + more[1..];
      FeedOkPrefix(s.feed + [e], more[1..]);
      assert (s.feed + [e])[|s.feed|] == e;
      if s.feed != [] { assert (s.feed + [e])[|s.feed| - 1] == s.feed[|s.feed| - 1]; }
      ReachesStep(s0, s, Append(e));
      GrowReaches(s0, s.(feed := s.feed + [e]), more[1..]);
    }
  }

  /** A partly applied stretch is the landing of the keys that changed. */
  lemma {:induction false} PartlyIsLanding<Out>(sink: map<Key, Out>, sink': map<Key, Out>,
      page: seq<Entry<Out>>) returns (keys: set<Key>)
    requires PartlyApplied(sink, sink', page)
    ensures keys <= Writers(page) && Lands(sink, sink', page, keys)
    ensures keys == set k | k in Writers(page) && Get(sink', k) == Planned(None, page, k)
  {
    keys := set k | k in Writers(page) && Get(sink', k) == Planned(None, page, k);
  }

  lemma {:induction false} AppliedIsPartly<Out>(sink: map<Key, Out>, page: seq<Entry<Out>>)
    requires AnomalyFree(page)
    ensures PartlyApplied(sink, Applied(sink, PlanOf(page)), page)
    ensures forall k :: k in Writers(page) ==> Get(Applied(sink, PlanOf(page)), k) == Planned(None, page, k)
  {
    forall k
      ensures Get(Applied(sink, PlanOf(page)), k) == if k in Writers(page) then Planned(None, page, k) else Get(sink, k)
    {
      AppliedIsPlanned(sink, page, k);
      WritersAre(page, k);
    }
  }

  /** A page read, partly landed, and abandoned. */
  lemma {:induction false} BrokenPageReaches<Out(!new)>(s: State<Out>, hi: nat, sink': map<Key, Out>)
    requires Enabled(s, BeginPage(hi)) && PartlyApplied(s.sink, sink', s.feed[s.Done()..hi])
    ensures Reaches(s, s.(sink := sink'))
  {
    hide Reaches, Latest, LastVerdict, Planned, Rank;
    var page := s.feed[s.Done()..hi];
    var keys := PartlyIsLanding(s.sink, sink', page);
    ReachesSelf(s);
    ReachesStep(s, s, BeginPage(hi));
    var begun := After(s, BeginPage(hi));
    ReachesStep(s, begun, Land(keys, sink'));
    ReachesStep(s, After(begun, Land(keys, sink')), Crash);
    assert After(After(begun, Land(keys, sink')), Crash) == s.(sink := sink');
  }

  /** A page read, fully landed, and checkpointed at its last revision. */
  lemma {:induction false} PageReaches<Out(!new)>(s: State<Out>, hi: nat)
    requires Enabled(s, BeginPage(hi))
    ensures Reaches(s, s.(sink := Applied(s.sink, PlanOf(s.feed[s.Done()..hi])), stored := Some(s.feed[hi - 1].at)))
  {
    hide Reaches, Latest, LastVerdict, Planned, Rank;
    var page := s.feed[s.Done()..hi];
    var sink' := Applied(s.sink, PlanOf(page));
    AppliedIsPartly(s.sink, page);
    var keys := PartlyIsLanding(s.sink, sink', page);
    ReachesSelf(s);
    ReachesStep(s, s, BeginPage(hi));
    var begun := After(s, BeginPage(hi));
    ReachesStep(s, begun, Land(keys, sink'));
    var landed := After(begun, Land(keys, sink'));
    assert landed.phase.left == {};
    ReachesStep(s, landed, Checkpoint(s.feed[hi - 1].at));
  }

  // ---- the snapshot ----

  lemma {:induction false} PartlyTransitive<Out>(a: map<Key, Out>, b: map<Key, Out>, c: map<Key, Out>,
      page: seq<Entry<Out>>)
    requires PartlyApplied(a, b, page) && PartlyApplied(b, c, page)
    ensures PartlyApplied(a, c, page)
  {
  }

  /** A snapshot started, partly flushed, and abandoned. */
  lemma {:induction false} BrokenSnapshotReaches<Out(!new)>(s: State<Out>, n: nat, sink': map<Key, Out>)
    requires s.phase.Idle? && s.stored.None? && n <= |s.feed|
    requires Imageable(s.feed[..n]) && PartlyApplied(s.sink, sink', s.feed[..n])
    ensures Reaches(s, s.(sink := sink'))
  {
    hide Reaches, Latest, LastVerdict, Planned, Rank;
    assert s.feed[0..n] == s.feed[..n];
    var keys := PartlyIsLanding(s.sink, sink', s.feed[..n]);
    ReachesSelf(s);
    ReachesStep(s, s, BeginSnapshot(n));
    var begun := After(s, BeginSnapshot(n));
    ReachesStep(s, begun, Land(keys, sink'));
    ReachesStep(s, After(begun, Land(keys, sink')), Crash);
    assert After(After(begun, Land(keys, sink')), Crash) == s.(sink := sink');
  }

  /** A snapshot flushed in full and checkpointed at a position no newer than the image. */
  lemma {:induction false} SnapshotReaches<Out(!new)>(s: State<Out>, n: nat, sink': map<Key, Out>, p: Pos)
    requires s.phase.Idle? && s.stored.None? && n <= |s.feed|
    requires Imageable(s.feed[..n]) && PartlyApplied(s.sink, sink', s.feed[..n])
    requires forall k :: k in Writers(s.feed[..n]) ==> Get(sink', k) == Planned(None, s.feed[..n], k)
    requires n > 0 && p.rowid == 0 && p.stamp <= s.feed[n - 1].at.stamp
    ensures Reaches(s, s.(sink := sink', stored := Some(p), base := Rank(s.feed, p)))
  {
    hide Reaches, Latest, LastVerdict, Planned, Rank;
    assert s.feed[0..n] == s.feed[..n];
    var keys := PartlyIsLanding(s.sink, sink', s.feed[..n]);
    ReachesSelf(s);
    ReachesStep(s, s, BeginSnapshot(n));
    var begun := After(s, BeginSnapshot(n));
    ReachesStep(s, begun, Land(keys, sink'));
    var landed := After(begun, Land(keys, sink'));
    assert landed.phase.left == {};
    ReachesStep(s, landed, Checkpoint(p));
  }
}
