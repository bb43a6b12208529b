/** The two mirrors side by side: the one that walks the feed backward from a bare instant and the
    one that drains it forward, over one feed. */
module TwinMirrors {
  import opened Wrappers
  import opened Feed
  import opened PagePlan
  import opened MirrorClient
  import opened Backward
  import P = MirrorProtocol
  import I = InstantProtocol
  import Drain
  import PythonSync
  import MirrorSync

  /** The sink holds what the instant claims of a feed no revision of which lacks its post-image. */
  ghost predicate Claims<Out>(es: seq<Entry<Out>>, rows: map<Key, Out>, since: int) {
    P.FeedOk(es) && AnomalyFree(es) && rows == Fold(map[], es[..I.Behind(es, since)])
  }

  /** One cycle of each mirror over the same feed, undisturbed, both sinks holding what the stored
      instant claims: both end at the fold of the whole feed. */
  method CycleBoth<Raw(!new), Out(!new)>(backward: PythonSync.PumperSync<Raw, Out>,
      forward: MirrorSync.PumperSync<Raw, Out>, since: int)
    returns (walked: Result<PythonSync.SyncResult>, drained: Result<Drain.Report>)
    requires backward.client.feed == forward.client.feed && forward.toOut == Lifted(backward.mapRecord)
    requires Claims(forward.Entries(), forward.sink.rows, since) && backward.sink.rows == forward.sink.rows
    requires backward.dataset in backward.watermark.values && backward.watermark.values[backward.dataset] == since
    requires forward.store.value == Some(Legacy(since)) && P.Inv(forward.Abs())
    requires backward.sink != forward.sink && backward.sink.keeps && forward.sink.keeps
    requires backward.client.script == [] && backward.sink.script == [] && backward.watermark.refusals == []
    requires forward.Quiet()
    requires forward.batchSize <= Drain.SERVER_PAGE_CAP
    modifies backward.client, backward.sink, backward.watermark
    modifies forward`base, forward.client`feed, forward.client`script, forward.sink, forward.store
    ensures walked.Ok? && drained.Ok? && !drained.value.stalled
    ensures backward.client.feed == old(backward.client.feed) && forward.client.feed == old(forward.client.feed)
    ensures backward.sink.rows == forward.sink.rows == Fold(map[], forward.Entries())
  {
    hide Claims, Fold, P.Inv, P.FeedOk, Judged, Lifted;
    ghost var es := forward.Entries();
    JudgesAgree(forward.client.feed, backward.mapRecord);
    ClaimsClean(es, forward.sink.rows, since);
    walked := Walk(backward, since);
    drained := DrainOn(forward, since);
  }

  lemma {:induction false} ClaimsClean<Out>(es: seq<Entry<Out>>, rows: map<Key, Out>, since: int)
    requires Claims(es, rows, since)
    ensures AnomalyFree(es)
  {
  }

  method Walk<Raw(!new), Out(!new)>(mirror: PythonSync.PumperSync<Raw, Out>, since: int)
    returns (result: Result<PythonSync.SyncResult>)
    requires mirror.dataset in mirror.watermark.values && mirror.watermark.values[mirror.dataset] == since
    requires mirror.client.script == [] && mirror.sink.script == [] && mirror.watermark.refusals == []
    requires mirror.sink.keeps
    requires Claims(JudgedQuietly(mirror.client.feed, mirror.mapRecord), mirror.sink.rows, since)
    modifies mirror.client, mirror.sink, mirror.watermark
    ensures result.Ok? && mirror.client.feed == old(mirror.client.feed)
    ensures mirror.sink.rows == Fold(map[], JudgedQuietly(mirror.client.feed, mirror.mapRecord))
  {
    hide Claims, Fold, PassedOver, Reversed, JudgedQuietly, Firsts, UpsertsIn, TombstonesIn, P.FeedOk, I.Cycle,
         I.Legal, I.AfterAll, PythonSync.SplitsAt, PythonSync.Rising;
    ghost var feed, rows := mirror.client.feed, mirror.sink.rows;
    assert feed + [] == feed;
    Rises(feed, rows, since, mirror.mapRecord);
    var found := mirror.watermark.Get(mirror.dataset);
    ghost var newer, all;
    result, newer, all := mirror.Incremental(found.value);
    assert feed[..all] == feed;
    Within(feed, newer, since);
    assert feed[newer..all] == feed[newer..];
    WalkEnds(feed, rows, since, newer, mirror.mapRecord);
  }

  lemma {:induction false} Rises<Raw, Out>(feed: seq<Revision<Raw>>, rows: map<Key, Out>, since: int,
      mapRecord: (Raw, Key) -> Option<Out>)
    requires Claims(JudgedQuietly(feed, mapRecord), rows, since)
    ensures PythonSync.Rising(feed)
  {
  }

  lemma {:induction false} Within<Raw>(feed: seq<Revision<Raw>>, newer: nat, since: int)
    requires PythonSync.SplitsAt(feed, newer, since)
    ensures newer <= |feed|
  {
  }

  lemma {:induction false} WalkEnds<Raw, Out>(feed: seq<Revision<Raw>>, rows: map<Key, Out>, since: int, newer: nat,
      mapRecord: (Raw, Key) -> Option<Out>)
    requires Claims(JudgedQuietly(feed, mapRecord), rows, since) && PythonSync.SplitsAt(feed, newer, since)
    ensures PassedOver(rows, Reversed(JudgedQuietly(feed[newer..], mapRecord))) ==
        Fold(map[], JudgedQuietly(feed, mapRecord))
  {
    hide PassedOver, Reversed, Fold, NoDropAfterWrite;
    var es := JudgedQuietly(feed, mapRecord);
    I.BehindIs(es, since, newer);
    BackwardIsForward(es, since, newer, Drain.SERVER_PAGE_CAP);
    assert JudgedQuietly(feed[newer..], mapRecord) == es[newer..];
  }

  method DrainOn<Raw(!new), Out(!new)>(mirror: MirrorSync.PumperSync<Raw, Out>, since: int)
    returns (result: Result<Drain.Report>)
    requires mirror.store.value == Some(Legacy(since)) && P.Inv(mirror.Abs()) && mirror.Quiet() && mirror.sink.keeps
    requires Claims(mirror.Entries(), mirror.sink.rows, since) && mirror.batchSize <= Drain.SERVER_PAGE_CAP
    modifies mirror`base, mirror.client`feed, mirror.client`script, mirror.sink, mirror.store
    ensures result.Ok? && !result.value.stalled && mirror.client.feed == old(mirror.client.feed)
    ensures mirror.sink.rows == Fold(map[], mirror.Entries())
  {
    hide Claims, Fold, Judged, P.Inv, P.FeedOk, P.Reaches, Drain.Run, Rank;
    ghost var feed, rows := mirror.client.feed, mirror.sink.rows;
    assert feed + [] == feed;
    DrainEnds(mirror.Entries(), rows, since, mirror.batchSize);
    result := mirror.Incremental(Legacy(since), false);
  }

  lemma {:induction false} DrainEnds<Out>(es: seq<Entry<Out>>, rows: map<Key, Out>, since: int, batch: nat)
    requires Claims(es, rows, since) && batch <= Drain.SERVER_PAGE_CAP
    ensures P.FeedOk(es)
    ensures var p := Pos(since, 0);
      var end := Drain.Run(es, Drain.Begin(Rank(es, p), rows, p), batch);
      end.sink == Fold(map[], es) && !end.report.stalled
  {
    hide Drain.Run, PassedOver, Reversed, Fold, NoDropAfterWrite;
    var p := Pos(since, 0);
    I.BehindSplits(es, since);
    BackwardIsForward(es, since, I.Behind(es, since), batch);
    var o := Drain.Begin(Rank(es, p), rows, p);
    assert AnomalyFree(es[o.at..]);
    assert es[o.at..|es|] == es[o.at..];
    Drain.OneRunDrainsAll(es, o, batch);
  }
}
