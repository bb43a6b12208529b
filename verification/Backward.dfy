/** The older mirror's reading order: newest first, the first revision seen of a key wins, and one
    pair of sink calls at the end. Here is what such a pass writes, and when that is what the
    forward drain writes. */
module Backward {
  import opened Wrappers
  import opened Feed
  import opened PagePlan
  import Drain

  /** This twin hands the map the key alone, and consumes a missing post-image in silence. */
  function JudgeQuietly<Raw, Out>(rev: Revision<Raw>, mapRecord: (Raw, Key) -> Option<Out>): (v: Verdict<Out>)
    ensures !v.Anomaly?
  {
    if rev.change.Removed? then Tombstone
    else if rev.data.None? then Drop
    else
      match mapRecord(rev.data.value, rev.key)
      case None => Drop
      case Some(out) => Upsert(out)
  }

  function JudgedQuietly<Raw, Out>(revs: seq<Revision<Raw>>,
      mapRecord: (Raw, Key) -> Option<Out>): (es: seq<Entry<Out>>)
    ensures |es| == |revs|
    ensures forall i :: 0 <= i < |es| ==> es[i] == Entry(revs[i].key, JudgeQuietly(revs[i], mapRecord), revs[i].at)
  {
    seq(|revs|, i requires 0 <= i < |revs| => Entry(revs[i].key, JudgeQuietly(revs[i], mapRecord), revs[i].at))
  }

  function Reversed<T>(s: seq<T>): (r: seq<T>)
    ensures |r| == |s|
    ensures forall i :: 0 <= i < |s| ==> r[i] == s[|s| - 1 - i]
  {
    seq(|s|, i requires 0 <= i < |s| => s[|s| - 1 - i])
  }

  // ---- the first verdict per key, and the lists it fills ----

  function FirstVerdict<Out>(bs: seq<Entry<Out>>, key: Key): Option<Verdict<Out>> {
    if bs == [] then None
    else
      var seen := FirstVerdict(bs[..|bs| - 1], key);
      if seen.Some? then seen else if bs[|bs| - 1].key == key then Some(bs[|bs| - 1].verdict) else None
  }

  function Firsts<Out>(bs: seq<Entry<Out>>): seq<Entry<Out>> {
    if bs == [] then []
    else
      var front, e := bs[..|bs| - 1], bs[|bs| - 1];
      if FirstVerdict(front, e.key).Some? then Firsts(front) else Firsts(front) + [e]
  }

  function UpsertsIn<Out>(es: seq<Entry<Out>>): seq<(Key, Out)> {
    if es == [] then []
    else
      var e := es[|es| - 1];
      UpsertsIn(es[..|es| - 1]) + if e.verdict.Upsert? then [(e.key, e.verdict.out)] else []
  }

  function TombstonesIn<Out>(es: seq<Entry<Out>>): seq<Key> {
    if es == [] then []
    else TombstonesIn(es[..|es| - 1]) + if es[|es| - 1].verdict.Tombstone? then [es[|es| - 1].key] else []
  }

  /** One revision joins the pass. */
  lemma {:induction false} PassStep<Out>(bs: seq<Entry<Out>>, e: Entry<Out>)
    ensures var seen, us, ts := FirstVerdict(bs, e.key), UpsertsIn(Firsts(bs)), TombstonesIn(Firsts(bs));
      && UpsertsIn(Firsts(bs + [e])) == us + (if seen.None? && e.verdict.Upsert? then [(e.key, e.verdict.out)] else [])
      && TombstonesIn(Firsts(bs + [e])) == ts + (if seen.None? && e.verdict.Tombstone? then [e.key] else [])
    ensures forall k :: FirstVerdict(bs + [e], k) ==
                        if FirstVerdict(bs, k).Some? then FirstVerdict(bs, k) else if e.key == k then Some(e.verdict)
                            else None
  {
  }

  lemma {:induction false} FirstAhead<Out>(e: Entry<Out>, bs: seq<Entry<Out>>, key: Key)
    ensures FirstVerdict([e] + bs, key) == if e.key == key then Some(e.verdict) else FirstVerdict(bs, key)
  {
    if bs == [] {
      assert [e] + bs == [e] && [e][..0] == [];
    } else {
      assert ([e] + bs)[..|bs|] == [e] + bs[..|bs| - 1];
      FirstAhead(e, bs[..|bs| - 1], key);
    }
  }

  /** The first revision of a key in newest-first order is its last in feed order. */
  lemma {:induction false} FirstIsLast<Out>(es: seq<Entry<Out>>, key: Key)
    ensures FirstVerdict(Reversed(es), key) == LastVerdict(es, key)
  {
    if es != [] {
      var front, e := es[..|es| - 1], es[|es| - 1];
      assert Reversed(es) == [e] + Reversed(front);
      FirstAhead(e, Reversed(front), key);
      FirstIsLast(front, key);
    }
  }

  ghost function FirstUpserts<Out>(bs: seq<Entry<Out>>): set<Key> {
    set k | k in MentionedKeys(bs) && FirstVerdict(bs, k).Some? && FirstVerdict(bs, k).value.Upsert?
  }

  ghost function FirstRemovals<Out>(bs: seq<Entry<Out>>): set<Key> {
    set k | k in MentionedKeys(bs) && FirstVerdict(bs, k) == Some(Tombstone)
  }

  lemma {:induction false} FirstIsMentioned<Out>(bs: seq<Entry<Out>>, key: Key)
    ensures FirstVerdict(bs, key).Some? <==> key in MentionedKeys(bs)
  {
    if bs != [] {
      var front, e := bs[..|bs| - 1], bs[|bs| - 1];
      assert bs == front + [e];
      FirstIsMentioned(front, key);
    }
  }

  lemma {:induction false} FirstUpsertsGrow<Out>(bs: seq<Entry<Out>>, e: Entry<Out>)
    ensures |FirstUpserts(bs + [e])| == |FirstUpserts(bs)|
                                      + if FirstVerdict(bs, e.key).None? && e.verdict.Upsert? then 1 else 0
  {
    hide FirstVerdict, MentionedKeys;
    FirstsJoin(bs, e);
    if FirstVerdict(bs, e.key).None? && e.verdict.Upsert? {
      assert FirstUpserts(bs + [e]) == FirstUpserts(bs) + {e.key};
    } else {
      assert FirstUpserts(bs + [e]) == FirstUpserts(bs);
    }
  }

  lemma {:induction false} FirstRemovalsGrow<Out>(bs: seq<Entry<Out>>, e: Entry<Out>)
    ensures |FirstRemovals(bs + [e])| == |FirstRemovals(bs)|
                                       + if FirstVerdict(bs, e.key).None? && e.verdict.Tombstone? then 1 else 0
  {
    hide FirstVerdict, MentionedKeys;
    FirstsJoin(bs, e);
    if FirstVerdict(bs, e.key).None? && e.verdict.Tombstone? {
      assert FirstRemovals(bs + [e]) == FirstRemovals(bs) + {e.key};
    } else {
      assert FirstRemovals(bs + [e]) == FirstRemovals(bs);
    }
  }

  lemma {:induction false} FirstsJoin<Out>(bs: seq<Entry<Out>>, e: Entry<Out>)
    ensures forall k :: FirstVerdict(bs + [e], k) ==
                        if FirstVerdict(bs, k).Some? then FirstVerdict(bs, k)
                        else if e.key == k then Some(e.verdict) else None
    ensures forall k :: k in MentionedKeys(bs) <==> FirstVerdict(bs, k).Some?
    ensures forall k :: k in MentionedKeys(bs + [e]) <==> FirstVerdict(bs + [e], k).Some?
  {
    PassStep(bs, e);
    forall k ensures k in MentionedKeys(bs) <==> FirstVerdict(bs, k).Some? {
      FirstIsMentioned(bs, k);
    }
    forall k ensures k in MentionedKeys(bs + [e]) <==> FirstVerdict(bs + [e], k).Some? {
      FirstIsMentioned(bs + [e], k);
    }
  }

  lemma {:induction false} FirstsAreCounted<Out>(bs: seq<Entry<Out>>)
    ensures |UpsertsIn(Firsts(bs))| == |FirstUpserts(bs)| && |TombstonesIn(Firsts(bs))| == |FirstRemovals(bs)|
  {
    if bs != [] {
      hide UpsertsIn, TombstonesIn, Firsts, FirstVerdict, FirstUpserts, FirstRemovals;
      var front, e := bs[..|bs| - 1], bs[|bs| - 1];
      assert bs == front + [e];
      FirstsAreCounted(front);
      PassStep(front, e);
      FirstUpsertsGrow(front, e);
      FirstRemovalsGrow(front, e);
    }
  }

  /** The pass writes as many keys as end its stretch on an upsert, and removes as many as end it on
      a removal. */
  lemma {:induction false} PassCounts<Out>(es: seq<Entry<Out>>)
    ensures |UpsertsIn(Firsts(Reversed(es)))| == |UpsertedKeys(es)|
    ensures |TombstonesIn(Firsts(Reversed(es)))| == |RemovedKeys(es)|
  {
    hide UpsertsIn, TombstonesIn, Firsts, FirstVerdict, LastVerdict;
    var bs := Reversed(es);
    FirstsAreCounted(bs);
    assert forall i :: 0 <= i < |es| ==> es[i] == bs[|es| - 1 - i];
    assert forall e :: e in es <==> e in bs;
    assert MentionedKeys(es) == MentionedKeys(bs);
    forall k ensures FirstVerdict(bs, k) == LastVerdict(es, k) {
      FirstIsLast(es, k);
    }
    assert FirstUpserts(bs) == UpsertedKeys(es) && FirstRemovals(bs) == RemovedKeys(es);
  }

  /** The sink after the pass's two calls. */
  function PassedOver<Out>(rows: map<Key, Out>, bs: seq<Entry<Out>>): map<Key, Out> {
    DeleteAll(PutAll(rows, UpsertsIn(Firsts(bs))), TombstonesIn(Firsts(bs)))
  }

  lemma {:induction false} NothingPassed<Out>(rows: map<Key, Out>, key: Key)
    ensures FirstVerdict<Out>([], key) == None
    ensures PutAll(rows, UpsertsIn(Firsts([]))) == rows && DeleteAll(rows, TombstonesIn(Firsts<Out>([]))) == rows
  {
  }

  lemma {:induction false} PassPuts<Out>(rows: map<Key, Out>, bs: seq<Entry<Out>>, key: Key)
    ensures Get(PutAll(rows, UpsertsIn(Firsts(bs))), key)
         == var first := FirstVerdict(bs, key);
            if first.Some? && first.value.Upsert? then Some(first.value.out) else Get(rows, key)
  {
    hide UpsertsIn, Firsts, FirstVerdict, PutAll;
    if bs == [] {
      NothingPassed(rows, key);
    } else {
      var front, e := bs[..|bs| - 1], bs[|bs| - 1];
      assert bs == front + [e];
      PassPuts(rows, front, key);
      PassStep(front, e);
      var us := UpsertsIn(Firsts(front));
      assert us + [] == us;
      if e.verdict.Upsert? { PutAllMore(rows, us, (e.key, e.verdict.out)); }
    }
  }

  lemma {:induction false} PassDeletes<Out>(rows: map<Key, Out>, bs: seq<Entry<Out>>, key: Key)
    ensures Get(DeleteAll(rows, TombstonesIn(Firsts(bs))), key)
         == if FirstVerdict(bs, key) == Some(Tombstone) then None else Get(rows, key)
  {
    hide TombstonesIn, Firsts, FirstVerdict, DeleteAll;
    if bs == [] {
      NothingPassed(rows, key);
    } else {
      var front, e := bs[..|bs| - 1], bs[|bs| - 1];
      assert bs == front + [e];
      PassDeletes(rows, front, key);
      PassStep(front, e);
      var ts := TombstonesIn(Firsts(front));
      assert ts + [] == ts;
      if e.verdict.Tombstone? { DeleteAllMore(rows, ts, e.key); }
    }
  }

  /** A backward pass over a stretch leaves each key where one forward page over it would. */
  lemma {:induction false} PassIsPlanned<Out>(rows: map<Key, Out>, es: seq<Entry<Out>>, key: Key)
    requires AnomalyFree(es)
    ensures Get(PassedOver(rows, Reversed(es)), key) == Planned(Get(rows, key), es, key)
  {
    var bs := Reversed(es);
    FirstIsLast(es, key);
    LastVerdictIsLast(es, key);
    PassPuts(rows, bs, key);
    PassDeletes(PutAll(rows, UpsertsIn(Firsts(bs))), bs, key);
  }

  /** The backward pass is the fold of the stretch, whatever the sink held, exactly when no key
      of it ends on a drop after a write. */
  lemma {:induction false} PassIsFoldExactly<Out(!new)>(es: seq<Entry<Out>>, someOut: Out)
    requires AnomalyFree(es)
    ensures (forall rows: map<Key, Out> :: PassedOver(rows, Reversed(es)) == Fold(rows, es)) <==> NoTrailingDrop(es)
  {
    if NoTrailingDrop(es) {
      forall rows: map<Key, Out> ensures PassedOver(rows, Reversed(es)) == Fold(rows, es) {
        PassIsFold(rows, es);
      }
    } else {
      var key :| LastVerdict(es, key).Some? && !LastVerdict(es, key).value.Writes() && WritesTo(es, key);
      var rows: map<Key, Out> := if Settle(None, es, key) == None then map[key := someOut] else map[];
      PassIsPlanned(rows, es, key);
      FoldSettles(rows, es, key);
      LastVerdictIsLast(es, key);
      Drain.SettleForgets(None, Get(rows, key), es, key);
      assert PassedOver(rows, Reversed(es)) != Fold(rows, es);
    }
  }

  lemma {:induction false} PassIsFold<Out>(rows: map<Key, Out>, es: seq<Entry<Out>>)
    requires AnomalyFree(es) && NoTrailingDrop(es)
    ensures PassedOver(rows, Reversed(es)) == Fold(rows, es)
  {
    forall key ensures Get(PassedOver(rows, Reversed(es)), key) == Get(Fold(rows, es), key) {
      PassIsPlanned(rows, es, key);
      LastVerdictIsLast(es, key);
      PlannedSettles(Get(rows, key), es, key);
      FoldSettles(rows, es, key);
    }
    SameRows(PassedOver(rows, Reversed(es)), Fold(rows, es));
  }

  // ---- backward equals forward ----

  /** Applying a stretch again changes nothing. */
  lemma {:induction false} SettleAgain<Out>(prev: Option<Out>, es: seq<Entry<Out>>, key: Key)
    ensures Settle(Settle(prev, es, key), es, key) == Settle(prev, es, key)
  {
    if WritesTo(es, key) {
      Drain.SettleForgets(Settle(prev, es, key), prev, es, key);
    } else {
      SettleUntouched(prev, es, key);
      SettleUntouched(Settle(prev, es, key), es, key);
    }
  }

  /** Re-reading revisions already applied, and then the rest, is folding everything. */
  lemma {:induction false} RereadIsFold<Out>(feed: seq<Entry<Out>>, lo: nat, hi: nat)
    requires lo <= hi <= |feed|
    ensures Fold(Fold(map[], feed[..hi]), feed[lo..]) == Fold(map[], feed)
    ensures Fold(Fold(map[], feed[..hi]), feed[hi..]) == Fold(map[], feed)
  {
    var base, again, rest := feed[..lo], feed[lo..hi], feed[hi..];
    assert feed[..hi] == base + again && feed[lo..] == again + rest && feed == feed[..hi] + rest;
    forall key
      ensures Get(Fold(Fold(map[], feed[..hi]), feed[lo..]), key) == Get(Fold(map[], feed), key)
      ensures Get(Fold(Fold(map[], feed[..hi]), rest), key) == Get(Fold(map[], feed), key)
    {
      FoldSettles(map[], feed[..hi], key);
      FoldSettles(Fold(map[], feed[..hi]), feed[lo..], key);
      FoldSettles(Fold(map[], feed[..hi]), rest, key);
      FoldSettles(map[], feed, key);
      SettleConcat(None, base, again, key);
      SettleConcat(None, feed[..hi], rest, key);
      SettleConcat(Settle(None, feed[..hi], key), again, rest, key);
      SettleAgain(Settle(None, base, key), again, key);
    }
    SameRows(Fold(Fold(map[], feed[..hi]), feed[lo..]), Fold(map[], feed));
    SameRows(Fold(Fold(map[], feed[..hi]), rest), Fold(map[], feed));
  }

  lemma {:induction false} DrainIsFold<Out>(feed: seq<Entry<Out>>, o: Drain.Outcome<Out>, batch: nat)
    requires o.at <= |feed| && !o.report.stalled && batch <= Drain.SERVER_PAGE_CAP
    requires AnomalyFree(feed[o.at..]) && NoTrailingDrop(feed[o.at..])
    ensures Drain.Run(feed, o, batch).sink == Fold(o.sink, feed[o.at..])
  {
    Drain.OneRunDrainsAll(feed, o, batch);
    assert feed[o.at..|feed|] == feed[o.at..];
    Drain.RunIsFold(feed, o, batch);
  }

  /** Backward equals forward: with everything up to and including the instant `since` applied,
      the pass over what is newer and a forward drain from (since, rowid 0) - which re-reads the
      revisions of that instant - both leave the fold of the whole feed. */
  lemma {:induction false} BackwardIsForward<Out>(feed: seq<Entry<Out>>, since: int, newer: nat, batch: nat)
    requires Ordered(feed) && AnomalyFree(feed) && NoDropAfterWrite(feed) && batch <= Drain.SERVER_PAGE_CAP
    requires newer <= |feed| && forall i :: 0 <= i < |feed| ==> (i >= newer <==> feed[i].at.stamp > since)
    ensures var rows, p := Fold(map[], feed[..newer]), Pos(since, 0);
      && PassedOver(rows, Reversed(feed[newer..])) == Fold(map[], feed)
      && Drain.Run(feed, Drain.Begin(Rank(feed, p), rows, p), batch).sink == Fold(map[], feed)
  {
    hide Drain.Run, PassedOver, Fold, Reversed, NoTrailingDrop, NoDropAfterWrite;
    var rows, p := Fold(map[], feed[..newer]), Pos(since, 0);
    var at := Rank(feed, p);
    RankSplits(feed, p);
    assert at <= newer by { if newer < |feed| { assert Before(p, feed[newer].at); } }
    RereadIsFold(feed, at, newer);
    NoDropHere(feed, newer);
    NoDropHere(feed, at);
    PassIsFold(rows, feed[newer..]);
    DrainIsFold(feed, Drain.Begin(at, rows, p), batch);
  }

  lemma {:induction false} NoDropHere<Out>(feed: seq<Entry<Out>>, lo: nat)
    requires lo <= |feed| && AnomalyFree(feed) && NoDropAfterWrite(feed)
    ensures AnomalyFree(feed[lo..]) && NoTrailingDrop(feed[lo..])
  {
    var es := feed[lo..];
    forall key | LastVerdict(es, key).Some? && !LastVerdict(es, key).value.Writes() ensures !WritesTo(es, key) {
      LastVerdictIsLast(es, key);
      var l :| && 0 <= l < |es| && es[l].key == key && es[l].verdict == LastVerdict(es, key).value
               && forall j :: l < j < |es| ==> es[j].key != key;
      assert forall i :: 0 <= i < |es| ==> es[i] == feed[lo + i];
    }
  }

  // ---- where the twins part ----

  /** The map as the other twin calls it. */
  function Lifted<Raw, Out>(mapRecord: (Raw, Key) -> Option<Out>): (Raw, MapContext) -> Option<Out> {
    (raw: Raw, ctx: MapContext) => mapRecord(raw, ctx.key)
  }

  /** On a feed without missing post-images the two ways of judging agree. */
  lemma {:induction false} JudgesAgree<Raw, Out>(revs: seq<Revision<Raw>>, mapRecord: (Raw, Key) -> Option<Out>)
    ensures var es := Judged(revs, Lifted(mapRecord));
      AnomalyFree(es) <==> JudgedQuietly(revs, mapRecord) == es
  {
  }

  /** Revision by revision, a missing post-image and a drop leave a sink alike: as it was. */
  lemma {:induction false} QuietFold<Raw, Out>(rows: map<Key, Out>, revs: seq<Revision<Raw>>,
      mapRecord: (Raw, Key) -> Option<Out>)
    ensures Fold(rows, JudgedQuietly(revs, mapRecord)) == Fold(rows, Judged(revs, Lifted(mapRecord)))
  {
    if revs != [] {
      var n := |revs| - 1;
      var quiet, loud := JudgedQuietly(revs, mapRecord), Judged(revs, Lifted(mapRecord));
      QuietFold(rows, revs[..n], mapRecord);
      assert quiet[..n] == JudgedQuietly(revs[..n], mapRecord);
      assert loud[..n] == Judged(revs[..n], Lifted(mapRecord));
      var before := Fold(rows, quiet[..n]);
      assert quiet[n].key == loud[n].key;
      assert quiet[n].verdict.Over(Get(before, revs[n].key)) == loud[n].verdict.Over(Get(before, revs[n].key));
    }
  }

  /** What missing post-images cost the backward pass, exactly: whatever the sink held, it ends at
      the fold of the stretch if and only if no key ends on a drop or a missing post-image after a
      revision of it that writes. */
  lemma {:induction false} SilenceExactly<Raw, Out(!new)>(revs: seq<Revision<Raw>>,
      mapRecord: (Raw, Key) -> Option<Out>, someOut: Out)
    ensures (forall rows: map<Key, Out> ::
               PassedOver(rows, Reversed(JudgedQuietly(revs, mapRecord)))
               == Fold(rows, Judged(revs, Lifted(mapRecord))))
       <==> NoTrailingDrop(JudgedQuietly(revs, mapRecord))
  {
    hide PassedOver, Reversed, NoTrailingDrop, Fold, Judged;
    forall rows: map<Key, Out>
      ensures Fold(rows, JudgedQuietly(revs, mapRecord)) == Fold(rows, Judged(revs, Lifted(mapRecord)))
    {
      QuietFold(rows, revs, mapRecord);
    }
    PassIsFoldExactly(JudgedQuietly(revs, mapRecord), someOut);
  }

  /** A missing post-image that ends a key hides the key's older write from the backward pass,
      where the forward drain stops in front of it. */
  lemma {:induction false} SilenceLosesWrite<Raw, Out>(key: Key, raw: Raw, out: Out,
      mapRecord: (Raw, Key) -> Option<Out>)
    requires mapRecord(raw, key) == Some(out)
    ensures var revs := [Revision(key, New, Some(raw), Pos(1, 1)), Revision(key, Changed, None, Pos(2, 2))];
      && PassedOver(map[], Reversed(JudgedQuietly(revs, mapRecord))) == map[]
      && PlanOf(Judged(revs, Lifted(mapRecord))).stalled
  {
    var revs := [Revision(key, New, Some(raw), Pos(1, 1)), Revision(key, Changed, None, Pos(2, 2))];
    var es := JudgedQuietly(revs, mapRecord);
    var e, f := es[0], es[1];
    assert es == [e, f];
    forall k ensures Get(PassedOver(map[], Reversed(es)), k) == Get(map[], k) {
      PassIsPlanned(map[], es, k);
      LastOfTwo(e, f, k);
    }
    SameRows(PassedOver(map[], Reversed(es)), map[]);
    assert Judged(revs, Lifted(mapRecord))[1].verdict.Anomaly?;
  }

  lemma {:induction false} LastOfTwo<Out>(e: Entry<Out>, f: Entry<Out>, key: Key)
    requires e.key == f.key
    ensures LastVerdict([e, f], key) == if key == f.key then Some(f.verdict) else None
  {
    assert [e, f][..1] == [e] && [e][..0] == [];
    assert LastVerdict([e], key) == if key == e.key then Some(e.verdict) else None;
  }
}
