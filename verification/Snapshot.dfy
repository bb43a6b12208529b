/** The cold-start export: what a point-in-time record image says about the feed prefix it was
    taken from, and the position a snapshot may hand to the drain. */
module Snapshot {
  import opened Wrappers
  import opened Feed
  import opened PagePlan
  import P = MirrorProtocol
  import M = MirrorMoves
  import D = Drain

  datatype Record<+Raw> = Record(key: Key, data: Raw, updatedAt: int, removed: bool)

  /** A snapshot always tells the map that the record `changed`. */
  function JudgeRecord<Raw, Out>(rec: Record<Raw>, toOut: (Raw, MapContext) -> Option<Out>): (v: Verdict<Out>)
    ensures !v.Anomaly?
  {
    if rec.removed then Tombstone
    else
      match toOut(rec.data, MapContext(rec.key, rec.updatedAt, Changed))
      case None => Drop
      case Some(out) => Upsert(out)
  }

  ghost predicate IsLast<Raw>(revs: seq<Revision<Raw>>, i: nat, key: Key) {
    i < |revs| && revs[i].key == key && forall j :: i < j < |revs| ==> revs[j].key != key
  }

  /** A live record carries its last revision's payload and stamp; a removal keeps the older
      `updated_at`, because the server does not move it. */
  predicate Reflects<Raw(==)>(rec: Record<Raw>, rev: Revision<Raw>) {
    && rec.removed == rev.change.Removed?
    && (if rec.removed then rec.updatedAt <= rev.at.stamp
        else rev.data == Some(rec.data) && rec.updatedAt == rev.at.stamp)
  }

  ghost predicate ReflectsLast<Raw>(rec: Record<Raw>, revs: seq<Revision<Raw>>) {
    exists i: nat :: IsLast(revs, i, rec.key) && Reflects(rec, revs[i])
  }

  ghost predicate HasRecord<Raw>(records: seq<Record<Raw>>, key: Key) {
    exists r :: 0 <= r < |records| && records[r].key == key
  }

  /** The export stream is a point-in-time image of a feed prefix: one record per key. */
  ghost predicate IsImage<Raw>(records: seq<Record<Raw>>, revs: seq<Revision<Raw>>) {
    && (forall i, j :: 0 <= i < j < |records| ==> records[i].key != records[j].key)
    && (forall i :: 0 <= i < |revs| ==> HasRecord(records, revs[i].key))
    && (forall r :: 0 <= r < |records| ==> ReflectsLast(records[r], revs))
  }

  /** The map does not tell a `new` revision from a `changed` one. */
  ghost predicate ChangeBlind<Raw(!new), Out>(toOut: (Raw, MapContext) -> Option<Out>) {
    forall raw, key, stamp :: toOut(raw, MapContext(key, stamp, New)) == toOut(raw, MapContext(key, stamp, Changed))
  }

  ghost predicate EndsNew<Raw>(revs: seq<Revision<Raw>>, key: Key) {
    exists i: nat :: IsLast(revs, i, key) && revs[i].change.New?
  }

  /** All an export needs of the map: blindness on its live records that were never changed. */
  ghost predicate ImageBlind<Raw, Out>(records: seq<Record<Raw>>, revs: seq<Revision<Raw>>,
      toOut: (Raw, MapContext) -> Option<Out>) {
    forall r :: 0 <= r < |records| && !records[r].removed && EndsNew(revs, records[r].key) ==>
      BlindTo(records[r], toOut)
  }

  ghost predicate BlindTo<Raw, Out>(rec: Record<Raw>, toOut: (Raw, MapContext) -> Option<Out>) {
    toOut(rec.data, MapContext(rec.key, rec.updatedAt, New)) ==
        toOut(rec.data, MapContext(rec.key, rec.updatedAt, Changed))
  }

  /** A record's verdict is the last verdict of its key in the prefix, exactly when the map is
      blind to a live record that was never changed; either way that verdict is no anomaly. */
  lemma {:induction false} RecordIsLastVerdict<Raw, Out>(rec: Record<Raw>, revs: seq<Revision<Raw>>,
      toOut: (Raw, MapContext) -> Option<Out>)
    requires ReflectsLast(rec, revs)
    ensures LastVerdict(Judged(revs, toOut), rec.key) == Some(JudgeRecord(rec, toOut))
       <==> rec.removed || !EndsNew(revs, rec.key) || BlindTo(rec, toOut)
    ensures LastVerdict(Judged(revs, toOut), rec.key).Some?
    ensures var v := LastVerdict(Judged(revs, toOut), rec.key).value;
      !v.Anomaly? && (v.Tombstone? <==> rec.removed)
  {
    hide LastVerdict, Judged;
    var i: nat :| IsLast(revs, i, rec.key) && Reflects(rec, revs[i]);
    LastOfKey(revs, i, rec.key, toOut);
    assert EndsNew(revs, rec.key) <==> revs[i].change.New?;
  }

  lemma {:induction false} LastOfKey<Raw, Out>(revs: seq<Revision<Raw>>, i: nat, key: Key,
      toOut: (Raw, MapContext) -> Option<Out>)
    requires IsLast(revs, i, key)
    ensures LastVerdict(Judged(revs, toOut), key) == Some(Judge(revs[i], toOut))
  {
    hide LastVerdict, Judge;
    var es := Judged(revs, toOut);
    assert es[i].key == key && Mentions(es, key);
    LastVerdictIsLast(es, key);
  }

  lemma {:induction false} ImageIsImageable<Raw, Out>(
    records: seq<Record<Raw>>, revs: seq<Revision<Raw>>, toOut: (Raw, MapContext) -> Option<Out>)
    requires IsImage(records, revs)
    ensures P.Imageable(Judged(revs, toOut))
    ensures forall k :: Mentions(Judged(revs, toOut), k) ==> HasRecord(records, k)
  {
    var es := Judged(revs, toOut);
    forall k | Mentions(es, k) ensures HasRecord(records, k) {
      var i :| 0 <= i < |es| && es[i].key == k;
      assert revs[i].key == k;
    }
    forall k ensures LastVerdict(es, k) != Some(Anomaly) {
      LastVerdictIsLast(es, k);
      if Mentions(es, k) {
        var r :| 0 <= r < |records| && records[r].key == k;
        RecordIsLastVerdict(records[r], revs, toOut);
      }
    }
  }

  function NewestStamp<Raw>(records: seq<Record<Raw>>): (newest: Option<int>)
    ensures newest.None? <==> records == []
  {
    if records == [] then None
    else
      var last := records[|records| - 1].updatedAt;
      match NewestStamp(records[..|records| - 1])
      case None => Some(last)
      case Some(a) => Some(if last > a then last else a)
  }

  lemma {:induction false} NewestStampStep<Raw>(records: seq<Record<Raw>>, i: nat)
    requires i < |records|
    ensures NewestStamp(records[..0]) == None
    ensures var seen, stamp := NewestStamp(records[..i]), records[i].updatedAt;
      NewestStamp(records[..i + 1]) == Some(if seen.None? || stamp > seen.value then stamp else seen.value)
  {
    assert records[..i + 1][..i] == records[..i];
  }

  lemma {:induction false} NewestStampIsMax<Raw>(records: seq<Record<Raw>>)
    requires records != []
    ensures exists r :: 0 <= r < |records| && records[r].updatedAt == NewestStamp(records).value
    ensures forall r :: 0 <= r < |records| ==> records[r].updatedAt <= NewestStamp(records).value
  {
    var front := records[..|records| - 1];
    if front == [] {
      assert records[0].updatedAt == NewestStamp(records).value;
    } else {
      NewestStampIsMax(front);
      var r :| 0 <= r < |front| && front[r].updatedAt == NewestStamp(front).value;
      assert records[r] == front[r] && records[|records| - 1].updatedAt <= NewestStamp(records).value;
      assert forall q :: 0 <= q < |front| ==> records[q] == front[q];
    }
  }

  /** The newest stamp of an image never lies past the prefix it was taken from. */
  lemma {:induction false} NewestStampIsBehind<Raw>(records: seq<Record<Raw>>, revs: seq<Revision<Raw>>)
    requires IsImage(records, revs) && records != []
    requires forall i, j :: 0 <= i < j < |revs| ==> Before(revs[i].at, revs[j].at)
    ensures revs != [] && NewestStamp(records).value <= revs[|revs| - 1].at.stamp
  {
    hide NewestStamp;
    NewestStampIsMax(records);
    var newest := NewestStamp(records).value;
    var r: nat :| r < |records| && records[r].updatedAt == newest;
    assert ReflectsLast(records[r], revs);
    var i: nat :| IsLast(revs, i, records[r].key) && Reflects(records[r], revs[i]);
    if i < |revs| - 1 { assert Before(revs[i].at, revs[|revs| - 1].at); }
  }

  // ---- the stream, as the mirror consumes it ----

  /** The records seen through the map, in stream order. */
  function Streamed<Raw, Out>(records: seq<Record<Raw>>, toOut: (Raw, MapContext) -> Option<Out>): (es: seq<Entry<Out>>)
    ensures |es| == |records|
    ensures forall i :: 0 <= i < |es| ==>
              es[i] == Entry(records[i].key, JudgeRecord(records[i], toOut), Pos(records[i].updatedAt, 0))
  {
    seq(|records|, i requires 0 <= i < |records| =>
      Entry(records[i].key, JudgeRecord(records[i], toOut), Pos(records[i].updatedAt, 0)))
  }

  ghost predicate OneEach<Out>(es: seq<Entry<Out>>) {
    && (forall i, j :: 0 <= i < j < |es| ==> es[i].key != es[j].key)
    && AnomalyFree(es)
  }

  /** What the stream says about each key is what `page` says last about it. */
  ghost predicate SaysLast<Out>(es: seq<Entry<Out>>, page: seq<Entry<Out>>) {
    && (forall i :: 0 <= i < |es| ==> LastVerdict(page, es[i].key) == Some(es[i].verdict))
    && (forall k :: Mentions(page, k) ==> Mentions(es, k))
  }

  lemma {:induction false} StreamedImage<Raw, Out>(records: seq<Record<Raw>>, revs: seq<Revision<Raw>>,
      toOut: (Raw, MapContext) -> Option<Out>)
    requires IsImage(records, revs) && ImageBlind(records, revs, toOut)
    ensures OneEach(Streamed(records, toOut)) && SaysLast(Streamed(records, toOut), Judged(revs, toOut))
  {
    var es, page := Streamed(records, toOut), Judged(revs, toOut);
    forall i | 0 <= i < |es| ensures LastVerdict(page, es[i].key) == Some(es[i].verdict) && !es[i].verdict.Anomaly? {
      RecordIsLastVerdict(records[i], revs, toOut);
    }
    ImageIsImageable(records, revs, toOut);
    forall k | Mentions(page, k) ensures Mentions(es, k) {
      var r :| 0 <= r < |records| && records[r].key == k;
      assert es[r].key == k;
    }
  }

  /** A chunk of the stream in which every key is new: its plan lists it in order. */
  lemma {:induction false} BufferStep<Out>(chunk: seq<Entry<Out>>, e: Entry<Out>)
    requires forall i :: 0 <= i < |chunk| ==> chunk[i].key != e.key
    requires AnomalyFree(chunk) && !e.verdict.Anomaly?
    ensures AnomalyFree(chunk + [e])
    ensures PlanOf(chunk + [e]).upserts == PlanOf(chunk).upserts + if e.verdict.Upsert? then [(e.key, e.verdict.out)]
        else []
    ensures PlanOf(chunk + [e]).tombstones == PlanOf(chunk).tombstones + if e.verdict.Tombstone? then [e.key] else []
  {
    var more, ks, latest := chunk + [e], Keys(chunk), Latest(chunk);
    assert more[..|chunk|] == chunk;
    KeysAreMentions(chunk);
    assert e.key !in ks;
    var latest' := latest[e.key := e.verdict];
    assert Latest(more) == latest' && Keys(more) == ks + [e.key];
    assert (ks + [e.key])[..|ks|] == ks;
    ListsIgnoreOthers(ks, latest, latest');
  }

  lemma {:induction false} ListsIgnoreOthers<Out>(ks: seq<Key>, latest: map<Key, Verdict<Out>>,
      latest': map<Key, Verdict<Out>>)
    requires forall k :: k in ks ==> Get(latest, k) == Get(latest', k)
    ensures Upserts(ks, latest) == Upserts(ks, latest') && Tombstones(ks, latest) == Tombstones(ks, latest')
  {
    if ks != [] {
      var rest, k := ks[..|ks| - 1], ks[|ks| - 1];
      assert forall q :: q in rest ==> q in ks;
      ListsIgnoreOthers(rest, latest, latest');
      assert Get(latest, k) == Get(latest', k);
    }
  }

  lemma {:induction false} OneEachLast<Out>(es: seq<Entry<Out>>, i: nat)
    requires OneEach(es) && i < |es|
    ensures LastVerdict(es, es[i].key) == Some(es[i].verdict)
  {
    LastVerdictIsLast(es, es[i].key);
    assert Mentions(es, es[i].key);
  }

  /** Flushing a chunk is folding it. */
  lemma {:induction false} FlushFolds<Out>(rows: map<Key, Out>, chunk: seq<Entry<Out>>)
    requires OneEach(chunk)
    ensures Applied(rows, PlanOf(chunk)) == Fold(rows, chunk)
  {
    forall k ensures Get(Applied(rows, PlanOf(chunk)), k) == Get(Fold(rows, chunk), k) {
      AppliedIsPlanned(rows, chunk, k);
      FoldSettles(rows, chunk, k);
      if WritesTo(chunk, k) {
        var i :| 0 <= i < |chunk| && chunk[i].key == k && chunk[i].verdict.Writes();
        OneEachLast(chunk, i);
      }
      PlannedSettles(Get(rows, k), chunk, k);
    }
    SameRows(Applied(rows, PlanOf(chunk)), Fold(rows, chunk));
  }

  lemma {:induction false} FoldConcat<Out>(rows: map<Key, Out>, a: seq<Entry<Out>>, b: seq<Entry<Out>>)
    ensures Fold(rows, a + b) == Fold(Fold(rows, a), b)
  {
    if b == [] {
      assert a + b == a;
    } else {
      assert (a + b)[..|a + b| - 1] == a + b[..|b| - 1];
      FoldConcat(rows, a, b[..|b| - 1]);
    }
  }

  /** A chunk that landed in part is the whole image landed in part. */
  lemma {:induction false} ChunkIsPartly<Out>(sink: map<Key, Out>, sink': map<Key, Out>, es: seq<Entry<Out>>,
      lo: nat, hi: nat, page: seq<Entry<Out>>)
    requires lo <= hi <= |es| && OneEach(es) && SaysLast(es, page)
    requires M.PartlyApplied(sink, sink', es[lo..hi])
    ensures M.PartlyApplied(sink, sink', page)
  {
    var chunk := es[lo..hi];
    forall k | k in P.Writers(chunk) ensures k in P.Writers(page) && Planned(None, chunk, k) == Planned(None, page, k) {
      P.WritersAre(chunk, k);
      var i :| 0 <= i < |chunk| && chunk[i].key == k;
      OneEachLast(chunk, i);
      assert chunk[i] == es[lo + i];
      P.WritersAre(page, k);
    }
  }

  /** The whole stream flushed leaves every key of the image at its last verdict. */
  lemma {:induction false} StreamLands<Out>(rows: map<Key, Out>, es: seq<Entry<Out>>, page: seq<Entry<Out>>, k: Key)
    requires OneEach(es) && SaysLast(es, page) && k in P.Writers(page)
    ensures Get(Fold(rows, es), k) == Planned(None, page, k)
  {
    P.WritersAre(page, k);
    var i: nat :| i < |es| && es[i].key == k;
    OneEachLast(es, i);
    FoldSettles(rows, es, k);
    LastWriteWins(Get(rows, k), None, es, k);
  }

  lemma {:induction false} StreamedSettles<Raw, Out>(records: seq<Record<Raw>>, revs: seq<Revision<Raw>>,
      toOut: (Raw, MapContext) -> Option<Out>, r: nat)
    requires IsImage(records, revs) && NoTrailingDrop(Judged(revs, toOut)) && r < |records|
    ensures Settle(None, Streamed(records, toOut), records[r].key) == JudgeRecord(records[r], toOut).Over(None)
    ensures var v := LastVerdict(Judged(revs, toOut), records[r].key);
      v.Some? && Settle(None, Judged(revs, toOut), records[r].key) == v.value.Over(None)
  {
    hide IsLast, Reflects, Streamed, Judged, JudgeRecord;
    var es, page, key := Streamed(records, toOut), Judged(revs, toOut), records[r].key;
    assert es[r].key == key;
    OneEachLast(es, r);
    RecordIsLastVerdict(records[r], revs, toOut);
    PlannedSettles(None, page, key);
    assert WritesTo(es, key) ==> es[r].verdict.Writes();
    PlannedSettles(None, es, key);
  }

  /** An image exported into an empty sink is worth the feed prefix it was taken from, revision
      by revision, exactly when the map is blind to those of its live records never changed. */
  lemma {:induction false} ExportIsFoldExactly<Raw, Out>(records: seq<Record<Raw>>, revs: seq<Revision<Raw>>,
      toOut: (Raw, MapContext) -> Option<Out>)
    requires IsImage(records, revs) && NoTrailingDrop(Judged(revs, toOut))
    ensures Fold(map[], Streamed(records, toOut)) == Fold(map[], Judged(revs, toOut)) <==>
        ImageBlind(records, revs, toOut)
  {
    hide Fold, NoTrailingDrop, IsLast, Reflects, Judged, Streamed;
    var es, page := Streamed(records, toOut), Judged(revs, toOut);
    var a, b: map<Key, Out> := Fold(map[], es), Fold(map[], page);
    forall r: nat | r < |records|
      ensures Get(a, records[r].key) == Get(b, records[r].key)
         <==> records[r].removed || !EndsNew(revs, records[r].key) || BlindTo(records[r], toOut)
    {
      FoldSettles(map[], es, records[r].key);
      FoldSettles(map[], page, records[r].key);
      StreamedSettles(records, revs, toOut, r);
      RecordIsLastVerdict(records[r], revs, toOut);
    }
    if ImageBlind(records, revs, toOut) {
      forall k ensures Get(a, k) == Get(b, k) {
        if r: nat :| r < |records| && records[r].key == k {
        } else {
          ImageIsImageable(records, revs, toOut);
          FoldSettles(map[], es, k);
          FoldSettles(map[], page, k);
          SettleUntouched(None, es, k);
          SettleUntouched(None, page, k);
        }
      }
      SameRows(a, b);
    }
  }

  /** Every export of every feed into an empty sink is worth that feed exactly when the map tells
      `new` from `changed` nowhere. */
  lemma {:induction false} ChangeBlindExactly<Raw(!new), Out>(toOut: (Raw, MapContext) -> Option<Out>)
    ensures ChangeBlind(toOut) <==>
            forall records: seq<Record<Raw>>, revs: seq<Revision<Raw>> ::
              IsImage(records, revs) && NoTrailingDrop(Judged(revs, toOut)) ==>
              Fold(map[], Streamed(records, toOut)) == Fold(map[], Judged(revs, toOut))
  {
    hide Fold, Streamed, Judged, NoTrailingDrop, IsImage;
    if ChangeBlind(toOut) {
      forall records: seq<Record<Raw>>, revs: seq<Revision<Raw>>
        | IsImage(records, revs) && NoTrailingDrop(Judged(revs, toOut))
        ensures Fold(map[], Streamed(records, toOut)) == Fold(map[], Judged(revs, toOut))
      {
        ExportIsFoldExactly(records, revs, toOut);
      }
    } else {
      var raw, key, at :| toOut(raw, MapContext(key, at, New)) != toOut(raw, MapContext(key, at, Changed));
      OneRecord(key, raw, at, toOut);
      var records, revs := [Record(key, raw, at, false)], [Revision(key, New, Some(raw), Pos(at, 1))];
      ExportIsFoldExactly(records, revs, toOut);
      assert !BlindTo(records[0], toOut);
    }
  }

  lemma {:induction false} OneRecord<Raw, Out>(key: Key, raw: Raw, at: int, toOut: (Raw, MapContext) -> Option<Out>)
    ensures var records, revs := [Record(key, raw, at, false)], [Revision(key, New, Some(raw), Pos(at, 1))];
      IsImage(records, revs) && NoTrailingDrop(Judged(revs, toOut)) && EndsNew(revs, key)
  {
    var records, revs := [Record(key, raw, at, false)], [Revision(key, New, Some(raw), Pos(at, 1))];
    assert records[0].key == key && IsLast(revs, 0, key) && Reflects(records[0], revs[0]);
    var es := Judged(revs, toOut);
    assert es[..0] == [] && es[0].key == key;
  }

  // ---- the snapshot's report ----

  /** Flushes so far and the two buffers' lengths. */
  datatype Buffers = Buffers(pages: nat, upserts: nat, tombstones: nat)

  function Buffered<Out>(es: seq<Entry<Out>>, batch: nat): Buffers {
    if es == [] then Buffers(0, 0, 0)
    else
      var b, v := Buffered(es[..|es| - 1], batch), es[|es| - 1].verdict;
      var u, t := b.upserts + (if v.Upsert? then 1 else 0), b.tombstones + (if v.Tombstone? then 1 else 0);
      if u >= batch || t >= batch then Buffers(b.pages + 1, 0, 0) else Buffers(b.pages, u, t)
  }

  function Ups<Out>(es: seq<Entry<Out>>): nat {
    if es == [] then 0 else Ups(es[..|es| - 1]) + if es[|es| - 1].verdict.Upsert? then 1 else 0
  }

  function Downs<Out>(es: seq<Entry<Out>>): nat {
    if es == [] then 0 else Downs(es[..|es| - 1]) + if es[|es| - 1].verdict.Tombstone? then 1 else 0
  }

  function Position<Raw>(records: seq<Record<Raw>>): Option<Pos> {
    match NewestStamp(records) case None => None case Some(stamp) => Some(Pos(stamp, 0))
  }

  function Report<Raw, Out>(records: seq<Record<Raw>>, toOut: (Raw, MapContext) -> Option<Out>, batch: nat): D.Report {
    var es := Streamed(records, toOut);
    D.Report(D.Snapshot, Ups(es), Downs(es), Position(records), 0, false, Buffered(es, batch).pages + 1, |es|, true,
             Skipped(Drops(es), 0, 0))
  }

  /** A snapshot's report accounts for every record, and its buffers stay within the batch: each
      flush but the last was forced by a full batch of one kind, and came as soon as there was one. */
  lemma {:induction false} SnapshotAccounting<Out>(es: seq<Entry<Out>>, batch: nat)
    requires AnomalyFree(es) && batch >= 1
    ensures Ups(es) + Downs(es) + Drops(es) == |es|
    ensures var b := Buffered(es, batch);
      b.upserts < batch && b.tombstones < batch && b.pages * batch + b.upserts + b.tombstones <= Ups(es) + Downs(es)
    ensures var b := Buffered(es, batch);
      Ups(es) + Downs(es) <= b.pages * (2 * batch - 1) + b.upserts + b.tombstones
  {
    if es != [] {
      var front := es[..|es| - 1];
      SnapshotAccounting(front, batch);
      var b := Buffered(front, batch);
      assert (b.pages + 1) * batch == b.pages * batch + batch;
      assert (b.pages + 1) * (2 * batch - 1) == b.pages * (2 * batch - 1) + (2 * batch - 1);
    }
  }

  /** What the map says of a live record; a snapshot tells it that every record changed. */
  function MapSays<Raw, Out>(rec: Record<Raw>, toOut: (Raw, MapContext) -> Option<Out>): Option<Out> {
    toOut(rec.data, MapContext(rec.key, rec.updatedAt, Changed))
  }

  ghost function RemovedRecords<Raw>(records: seq<Record<Raw>>): set<int> {
    set i | 0 <= i < |records| && records[i].removed
  }

  ghost function KeptRecords<Raw, Out>(records: seq<Record<Raw>>, toOut: (Raw, MapContext) -> Option<Out>): set<int> {
    set i | 0 <= i < |records| && !records[i].removed && MapSays(records[i], toOut).Some?
  }

  ghost function DroppedRecords<Raw, Out>(records: seq<Record<Raw>>, toOut: (Raw, MapContext) -> Option<Out>): set<int>
  {
    set i | 0 <= i < |records| && !records[i].removed && MapSays(records[i], toOut).None?
  }

  /** What each counter of a snapshot's report counts, on the records themselves. */
  lemma {:induction false} ReportCounts<Raw, Out>(records: seq<Record<Raw>>, toOut: (Raw, MapContext) -> Option<Out>,
      batch: nat)
    ensures var r := Report(records, toOut, batch);
      && r.upserted == |KeptRecords(records, toOut)| && r.tombstoned == |RemovedRecords(records)|
      && r.skipped == Skipped(|DroppedRecords(records, toOut)|, 0, 0)
      && r.revisionsSeen == |records| && r.anomalies == 0 && !r.stalled && r.mode == D.Snapshot && r.applied
  {
    StreamCounts(records, toOut);
  }

  /** The flushes of a snapshot, the last one included: as few as full batches of one kind allow. */
  lemma {:induction false} ReportPages<Raw, Out>(records: seq<Record<Raw>>, toOut: (Raw, MapContext) -> Option<Out>,
      batch: nat)
    requires batch >= 1
    ensures var pages := Report(records, toOut, batch).pagesRead;
      var written := |KeptRecords(records, toOut)| + |RemovedRecords(records)|;
      (pages - 1) * batch <= written < pages * (2 * batch - 1)
  {
    hide KeptRecords, RemovedRecords, DroppedRecords, Buffered, Ups, Downs, Drops, Streamed;
    var es := Streamed(records, toOut);
    StreamCounts(records, toOut);
    StreamIsClean(records, toOut);
    SnapshotAccounting(es, batch);
    OneFlushMore(Buffered(es, batch).pages, 2 * batch - 1);
  }

  lemma {:induction false} StreamIsClean<Raw, Out>(records: seq<Record<Raw>>, toOut: (Raw, MapContext) -> Option<Out>)
    ensures AnomalyFree(Streamed(records, toOut))
  {
  }

  lemma {:induction false} OneFlushMore(n: nat, most: nat)
    ensures (n + 1) * most == n * most + most
  {
  }

  lemma {:induction false} StreamCounts<Raw, Out>(records: seq<Record<Raw>>, toOut: (Raw, MapContext) -> Option<Out>)
    ensures var es := Streamed(records, toOut);
      && Ups(es) == |KeptRecords(records, toOut)| && Downs(es) == |RemovedRecords(records)|
      && Drops(es) == |DroppedRecords(records, toOut)|
  {
    if records != [] {
      var n := |records| - 1;
      var front, es := records[..n], Streamed(records, toOut);
      StreamCounts(front, toOut);
      assert es[..n] == Streamed(front, toOut);
      hide KeptRecords, DroppedRecords, RemovedRecords, Streamed;
      RemovedGrow(records);
      KeptGrow(records, toOut);
      DroppedGrow(records, toOut);
    }
  }

  lemma {:induction false} RemovedGrow<Raw>(records: seq<Record<Raw>>)
    requires records != []
    ensures var n := |records| - 1;
      |RemovedRecords(records)| == |RemovedRecords(records[..n])| + if records[n].removed then 1 else 0
  {
    hide MapSays;
    var n := |records| - 1;
    if records[n].removed {
      assert RemovedRecords(records) == RemovedRecords(records[..n]) + {n};
    } else {
      assert RemovedRecords(records) == RemovedRecords(records[..n]);
    }
  }

  lemma {:induction false} KeptGrow<Raw, Out>(records: seq<Record<Raw>>, toOut: (Raw, MapContext) -> Option<Out>)
    requires records != []
    ensures var n := |records| - 1;
      |KeptRecords(records, toOut)| == |KeptRecords(records[..n], toOut)|
          + if !records[n].removed && MapSays(records[n], toOut).Some? then 1 else 0
  {
    hide MapSays;
    var n := |records| - 1;
    if !records[n].removed && MapSays(records[n], toOut).Some? {
      assert KeptRecords(records, toOut) == KeptRecords(records[..n], toOut) + {n};
    } else {
      assert KeptRecords(records, toOut) == KeptRecords(records[..n], toOut);
    }
  }

  lemma {:induction false} DroppedGrow<Raw, Out>(records: seq<Record<Raw>>, toOut: (Raw, MapContext) -> Option<Out>)
    requires records != []
    ensures var n := |records| - 1;
      |DroppedRecords(records, toOut)| == |DroppedRecords(records[..n], toOut)|
          + if !records[n].removed && MapSays(records[n], toOut).None? then 1 else 0
  {
    hide MapSays;
    var n := |records| - 1;
    if !records[n].removed && MapSays(records[n], toOut).None? {
      assert DroppedRecords(records, toOut) == DroppedRecords(records[..n], toOut) + {n};
    } else {
      assert DroppedRecords(records, toOut) == DroppedRecords(records[..n], toOut);
    }
  }

  // ---- why the position is (stamp, rowid 0) and not a bare instant ----

  /** Resuming from (S, 0) re-reads every revision stamped S or later, whoever committed it. */
  lemma {:induction false} TokenRereadsItsStamp<Out>(feed: seq<Entry<Out>>, stamp: int, i: nat)
    requires Ordered(feed) && i < |feed|
    ensures Rank(feed, Pos(stamp, 0)) <= i <==> feed[i].at.stamp >= stamp
  {
    RankSplits(feed, Pos(stamp, 0));
  }

  /** A resume at `created_at > S` starts at `m`; after a snapshot of `n` revisions it skips
      `feed[n..m]`: nothing exactly when no later revision shares the newest stamp. */
  lemma {:induction false} InstantSkipsSiblings<Out>(feed: seq<Entry<Out>>, stamp: int, n: nat, m: nat)
    requires Ordered(feed) && 0 < n <= |feed| && m <= |feed| && stamp == feed[n - 1].at.stamp
    requires forall i :: 0 <= i < |feed| ==> (i >= m <==> feed[i].at.stamp > stamp)
    ensures n <= m
    ensures feed[n..m] == [] <==> n == |feed| || feed[n].at.stamp > stamp
    ensures forall i :: n <= i < m ==> feed[i].at.stamp == stamp
  {
  }

  /** And what it skips is lost for good: a sibling that introduces a key never reaches the sink. */
  lemma {:induction false} InstantLosesSibling<Out>(feed: seq<Entry<Out>>, n: nat, m: nat, i: nat)
    requires n <= i < m <= |feed| && feed[i].verdict.Upsert?
    requires forall j :: 0 <= j < |feed| && j != i ==> feed[j].key != feed[i].key
    ensures feed[i].key !in Fold(Fold(map[], feed[..n]), feed[m..])
    ensures feed[i].key in Fold(map[], feed)
  {
    var key := feed[i].key;
    FoldSettles(map[], feed[..n], key);
    FoldSettles(Fold(map[], feed[..n]), feed[m..], key);
    FoldSettles(map[], feed, key);
    assert forall j :: 0 <= j < |feed[m..]| ==> feed[m..][j] == feed[m + j];
    SettleUntouched(None, feed[..n], key);
    SettleUntouched(None, feed[m..], key);
    assert feed == feed[..i] + ([feed[i]] + feed[i + 1..]);
    SettleConcat(None, feed[..i], [feed[i]] + feed[i + 1..], key);
    SettleConcat(Settle(None, feed[..i], key), [feed[i]], feed[i + 1..], key);
    assert [feed[i]][..0] == [];
    SettleUntouched(Some(feed[i].verdict.out), feed[i + 1..], key);
  }

  /** What skipping `feed[n..m]` costs, exactly: nothing if and only if every key is written again
      further on, or ends in the skipped stretch as it was before it. */
  lemma {:induction false} SkippingCostsExactly<Out>(feed: seq<Entry<Out>>, n: nat, m: nat)
    requires n <= m <= |feed|
    ensures Fold(Fold(map[], feed[..n]), feed[m..]) == Fold(map[], feed) <==>
            forall key :: WritesTo(feed[m..], key)
              || Settle(Settle(None, feed[..n], key), feed[n..m], key) == Settle(None, feed[..n], key)
  {
    hide Fold, WritesTo;
    var a, b: map<Key, Out> := Fold(Fold(map[], feed[..n]), feed[m..]), Fold(map[], feed);
    forall key ensures Get(a, key) == Get(b, key) <==> (WritesTo(feed[m..], key)
      || Settle(Settle(None, feed[..n], key), feed[n..m], key) == Settle(None, feed[..n], key))
    {
      SkippedKey(feed, n, m, key);
    }
    if forall key :: Get(a, key) == Get(b, key) { SameRows(a, b); }
  }

  lemma {:induction false} SkippedKey<Out>(feed: seq<Entry<Out>>, n: nat, m: nat, key: Key)
    requires n <= m <= |feed|
    ensures Get(Fold(Fold(map[], feed[..n]), feed[m..]), key) == Get(Fold(map[], feed), key) <==>
            WritesTo(feed[m..], key)
            || Settle(Settle(None, feed[..n], key), feed[n..m], key) == Settle(None, feed[..n], key)
  {
    var front, gap, rest := feed[..n], feed[n..m], feed[m..];
    var before := Settle(None, front, key);
    assert feed == front + (gap + rest);
    FoldSettles(map[], front, key);
    FoldSettles(Fold(map[], front), rest, key);
    FoldSettles(map[], feed, key);
    SettleConcat(None, front, gap + rest, key);
    SettleConcat(before, gap, rest, key);
    if WritesTo(rest, key) {
      D.SettleForgets(before, Settle(before, gap, key), rest, key);
    } else {
      SettleUntouched(before, rest, key);
      SettleUntouched(Settle(before, gap, key), rest, key);
    }
  }
}
