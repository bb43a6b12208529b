/** The Python mirror's loops over a newest-first feed: every page is read and kept in memory,
    the sink is called once per kind, and one bare instant is stored at the end. */
module PythonSync {
  import opened Wrappers
  import opened Feed
  import opened PagePlan
  import opened MirrorClient
  import opened Backward
  import P = MirrorProtocol
  import M = MirrorMoves
  import I = InstantProtocol

  datatype SyncResult = SyncResult(upserted: nat, tombstoned: nat, watermark: int)

  /** The product's store of instants; like the other mirror's it may refuse. */
  class InstantStore {
    var values: map<DatasetRef, int>
    var refusals: seq<bool>

    method Get(dataset: DatasetRef) returns (stamp: Option<int>)
      ensures stamp.Some? <==> dataset in values
      ensures stamp.Some? ==> stamp.value == values[dataset]
    {
      stamp := if dataset in values then Some(values[dataset]) else None;
    }

    method Set(dataset: DatasetRef, stamp: int) returns (done: Result<()>)
      modifies this
      ensures values == if done.Ok? then old(values)[dataset := stamp] else old(values)
      ensures old(refusals) == [] ==> done.Ok? && refusals == []
    {
      if refusals != [] {
        var refuses := refusals[0];
        refusals := refusals[1..];
        if refuses { return Failed; }
      }
      values := values[dataset := stamp];
      done := Ok(());
    }
  }

  /** The later of two stamps, and of all the stamps in a stretch. */
  function Later(a: int, b: int): int { if b > a then b else a }

  function NewestSeen<Raw>(since: int, revs: seq<Revision<Raw>>): int {
    if revs == [] then since else Later(NewestSeen(since, revs[..|revs| - 1]), revs[|revs| - 1].at.stamp)
  }

  /** The revisions the server commits after the instant. */
  ghost predicate SplitsAt<Raw>(feed: seq<Revision<Raw>>, newer: nat, since: int) {
    newer <= |feed| && forall i :: 0 <= i < |feed| ==> (i >= newer <==> feed[i].at.stamp > since)
  }

  lemma {:induction false} NewestSeenIsLast<Raw>(since: int, feed: seq<Revision<Raw>>, newer: nat)
    requires Rising(feed) && SplitsAt(feed, newer, since)
    ensures NewestSeen(since, Reversed(feed[newer..])) == if newer == |feed| then since else feed[|feed| - 1].at.stamp
  {
    var bs := Reversed(feed[newer..]);
    forall n: nat | n <= |bs| ensures NewestSeen(since, bs[..n]) == if n == 0 then since
        else feed[|feed| - 1].at.stamp {
      NewestSeenSoFar(since, feed, newer, n);
    }
    assert bs[..|bs|] == bs;
  }

  lemma {:induction false} NewestSeenSoFar<Raw>(since: int, feed: seq<Revision<Raw>>, newer: nat, n: nat)
    requires Rising(feed) && SplitsAt(feed, newer, since) && n <= |feed| - newer
    ensures NewestSeen(since, Reversed(feed[newer..])[..n]) == if n == 0 then since else feed[|feed| - 1].at.stamp
  {
    var bs := Reversed(feed[newer..]);
    if n > 0 {
      assert bs[..n][..n - 1] == bs[..n - 1];
      NewestSeenSoFar(since, feed, newer, n - 1);
      assert bs[n - 1] == feed[|feed| - n];
      if n > 1 { assert Before(feed[|feed| - n].at, feed[|feed| - 1].at); }
    }
  }

  ghost predicate Rising<Raw>(feed: seq<Revision<Raw>>) {
    forall i, j :: 0 <= i < j < |feed| ==> Before(feed[i].at, feed[j].at)
  }

  lemma {:induction false} RisesSoFar<Raw>(feed: seq<Revision<Raw>>, more: seq<Revision<Raw>>)
    requires Rising(feed + more)
    ensures Rising(feed)
  {
    assert forall i :: 0 <= i < |feed| ==> feed[i] == (feed + more)[i];
  }

  // ---- the server's newest-first pages ----

  const PAGE_LIMIT: nat := 1000

  datatype OldPage<+Raw> = OldPage(items: seq<Revision<Raw>>, nextCursor: Option<Pos>)

  /** A newest-first page: the newest revisions past the instant and before the cursor, at most
      the limit; a cursor only when the page is full. */
  ghost predicate ServesNewest<Raw>(feed: seq<Revision<Raw>>, page: OldPage<Raw>, newer: nat, end: nat) {
    && newer <= |feed| && end <= |feed|
    && (var lo := if end < newer then end else if end - newer <= PAGE_LIMIT then newer else end - PAGE_LIMIT;
        page.items == Reversed(feed[lo..end]))
    && page.nextCursor == if |page.items| == PAGE_LIMIT then Some(page.items[|page.items| - 1].at) else None
  }

  class FeedClient<Raw> {
    var feed: seq<Revision<Raw>>
    var script: seq<Reply<Raw>>

    ghost function Future(): seq<Revision<Raw>>
      reads this
    {
      feed + Arriving(script)
    }

    method ChangesPage(since: int, cursor: Option<Pos>) returns (page: Result<OldPage<Raw>>, ghost newer: nat,
        ghost end: nat)
      requires Rising(Future())
      modifies this
      ensures Future() == old(Future()) && old(feed) <= feed
      ensures old(script) == [] ==> script == [] && feed == old(feed) && page.Ok?
      ensures page.Ok? && cursor.None? ==> end == |feed|
      ensures page.Ok? ==> |page.value.items| <= 1000
      ensures page.Ok? ==>
        && SplitsAt(feed, newer, since) && end <= |feed|
        && (forall i :: 0 <= i < |feed| ==> (i < end <==> cursor.None? || Before(feed[i].at, cursor.value)))
        && ServesNewest(feed, page.value, newer, end)
    {
      newer, end := 0, 0;
      if script != [] {
        var reply := script[0];
        ArrivingStep(script);
        script := script[1..];
        if reply.Unreachable? { return Failed, 0, 0; }
        feed := feed + reply.revs;
      }
      assert feed + Arriving(script) == old(feed) + Arriving(old(script));
      RisesSoFar(feed, Arriving(script));
      var answer;
      answer, newer, end := Seek(feed, since, cursor);
      page := Ok(answer);
    }

    static lemma {:induction false} ArrivingStep(script: seq<Reply<Raw>>)
      requires script != []
      ensures Arriving(script) == (match script[0] case Arrives(revs) => revs case Unreachable => []) +
          Arriving(script[1..])
    {
    }

    static method Seek(feed: seq<Revision<Raw>>, since: int, cursor: Option<Pos>) returns (page: OldPage<Raw>,
        newer: nat, end: nat)
      requires Rising(feed)
      ensures SplitsAt(feed, newer, since) && end <= |feed|
      ensures forall i :: 0 <= i < |feed| ==> (i < end <==> cursor.None? || Before(feed[i].at, cursor.value))
      ensures ServesNewest(feed, page, newer, end)
      ensures cursor.None? ==> end == |feed|
    {
      end := |feed|;
      while end > 0 && cursor.Some? && !Before(feed[end - 1].at, cursor.value)
        invariant end <= |feed|
        invariant cursor.None? ==> end == |feed|
        invariant forall i :: end <= i < |feed| ==> cursor.Some? && !Before(feed[i].at, cursor.value)
      {
        end := end - 1;
      }
      newer := |feed|;
      while newer > 0 && feed[newer - 1].at.stamp > since
        invariant newer <= |feed|
        invariant forall i :: newer <= i < |feed| ==> feed[i].at.stamp > since
      {
        newer := newer - 1;
      }
      forall i | 0 <= i < newer ensures feed[i].at.stamp <= since {
        if i < newer - 1 { assert Before(feed[i].at, feed[newer - 1].at); }
      }
      forall i | 0 <= i < end && cursor.Some? ensures Before(feed[i].at, cursor.value) {
        if i < end - 1 { assert Before(feed[i].at, feed[end - 1].at); }
      }
      var lo := if end < newer then end else if end - newer <= PAGE_LIMIT then newer else end - PAGE_LIMIT;
      var items := Reversed(feed[lo..end]);
      page := OldPage(items, if |items| == PAGE_LIMIT then Some(items[|items| - 1].at) else None);
    }
  }

  // ---- the mirror ----

  class PumperSync<Raw(!new), Out(!new)> {
    const dataset: DatasetRef
    const client: FeedClient<Raw>
    const sink: SyncSink<Out>
    const watermark: InstantStore
    const mapRecord: (Raw, Key) -> Option<Out>

    constructor (dataset: DatasetRef, client: FeedClient<Raw>, sink: SyncSink<Out>, watermark: InstantStore,
                 mapRecord: (Raw, Key) -> Option<Out>)
      ensures this.dataset == dataset && this.client == client && this.sink == sink
      ensures this.watermark == watermark && this.mapRecord == mapRecord
    {
      this.dataset, this.client, this.sink := dataset, client, sink;
      this.watermark, this.mapRecord := watermark, mapRecord;
    }

    /** What the pass has gathered from the revisions read so far, newest first. */
    ghost predicate Gathered(read: seq<Revision<Raw>>, seen: set<Key>, upserts: seq<(Key, Out)>,
        tombstones: seq<Key>, since: int, newest: int) {
      var bs := JudgedQuietly(read, mapRecord);
      && (forall k :: k in seen <==> FirstVerdict(bs, k).Some?)
      && upserts == UpsertsIn(Firsts(bs)) && tombstones == TombstonesIn(Firsts(bs))
      && newest == NewestSeen(since, read)
    }

    /** One more revision: a key already seen changes nothing but the newest stamp. */
    lemma {:induction false} GatherOne(read: seq<Revision<Raw>>, rev: Revision<Raw>, seen: set<Key>,
        upserts: seq<(Key, Out)>, tombstones: seq<Key>,
                                       since: int, newest: int)
      requires Gathered(read, seen, upserts, tombstones, since, newest)
      ensures var v, later := JudgeQuietly(rev, mapRecord), Later(newest, rev.at.stamp);
        if rev.key in seen then Gathered(read + [rev], seen, upserts, tombstones, since, later)
        else Gathered(read + [rev], seen + {rev.key}, upserts + (if v.Upsert? then [(rev.key, v.out)] else []),
                      tombstones + (if v.Tombstone? then [rev.key] else []), since, later)
    {
      hide FirstVerdict, Firsts, UpsertsIn, TombstonesIn, JudgeQuietly;
      var bs, e := JudgedQuietly(read, mapRecord), Entry(rev.key, JudgeQuietly(rev, mapRecord), rev.at);
      assert (read + [rev])[..|read|] == read;
      assert JudgedQuietly(read + [rev], mapRecord) == bs + [e];
      PassStep(bs, e);
      assert upserts + [] == upserts && tombstones + [] == tombstones;
    }

    method Gather(items: seq<Revision<Raw>>, seen: set<Key>, upserts: seq<(Key, Out)>, tombstones: seq<Key>,
        newest: int,
                  ghost read: seq<Revision<Raw>>, ghost since: int)
      returns (seen': set<Key>, upserts': seq<(Key, Out)>, tombstones': seq<Key>, newest': int)
      requires Gathered(read, seen, upserts, tombstones, since, newest)
      ensures Gathered(read + items, seen', upserts', tombstones', since, newest')
    {
      hide Gathered, JudgeQuietly;
      seen', upserts', tombstones', newest' := seen, upserts, tombstones, newest;
      assert read + items[..0] == read;
      for i := 0 to |items|
        invariant Gathered(read + items[..i], seen', upserts', tombstones', since, newest')
      {
        var rev := items[i];
        assert read + items[..i + 1] == read + items[..i] + [rev];
        GatherOne(read + items[..i], rev, seen', upserts', tombstones', since, newest');
        newest' := Later(newest', rev.at.stamp);
        if rev.key in seen' { continue; }
        seen' := seen' + {rev.key};
        var verdict := JudgeQuietly(rev, mapRecord);
        tombstones' := tombstones' + if verdict.Tombstone? then [rev.key] else [];
        upserts' := upserts' + if verdict.Upsert? then [(rev.key, verdict.out)] else [];
      }
      assert read + items[..|items|] == read + items;
    }

    /** The walk has read everything from `at` up to `all`; the instant splits the feed at `newer`. */
    static ghost predicate Walked(feed: seq<Revision<Raw>>, since: int, read: seq<Revision<Raw>>, newer: nat,
        at: nat, all: nat) {
      && newer <= at <= all <= |feed|
      && SplitsAt(feed[..all], newer, since)
      && read == Reversed(feed[at..all])
    }

    static lemma {:induction false} WalkOn(feed: seq<Revision<Raw>>, since: int, read: seq<Revision<Raw>>,
        newer: nat, at: nat, all: nat,
                                           page: OldPage<Raw>, split: nat) returns (lo: nat)
      requires Walked(feed, since, read, newer, at, all) && (newer < all || all == |feed|)
      requires SplitsAt(feed, split, since) && ServesNewest(feed, page, split, at)
      ensures Walked(feed, since, read + page.items, newer, lo, all)
      ensures if page.nextCursor.Some? then lo < at && page.nextCursor == Some(feed[lo].at) else lo == newer
    {
      assert split == newer by {
        if newer < all { assert feed[..all][newer] == feed[newer]; }
        if 0 < newer { assert feed[..all][newer - 1] == feed[newer - 1]; }
      }
      lo := if at - newer <= PAGE_LIMIT then newer else at - PAGE_LIMIT;
      assert Reversed(feed[at..all]) + Reversed(feed[lo..at]) == Reversed(feed[lo..all]);
    }

    /** A cursor finds the place it was minted at, however the feed grew since. */
    static lemma {:induction false} CursorIs(feed: seq<Revision<Raw>>, at: nat, end: nat)
      requires Rising(feed) && at < |feed| && end <= |feed|
      requires forall i :: 0 <= i < |feed| ==> (i < end <==> Before(feed[i].at, feed[at].at))
      ensures end == at
    {
      var mark := feed[at].at;
      assert at < end <==> Before(feed[at].at, mark);
      var first := if end < |feed| then feed[end].at else mark;
      assert end == |feed| || !Before(first, mark);
    }

    static lemma {:induction false} WalkedGrows(before: seq<Revision<Raw>>, feed: seq<Revision<Raw>>, since: int,
        read: seq<Revision<Raw>>, newer: nat, at: nat, all: nat)
      requires Walked(before, since, read, newer, at, all) && before <= feed
      ensures Walked(feed, since, read, newer, at, all)
      ensures at < all ==> before[at] == feed[at]
    {
    }

    /** Walk the pages from the newest revision down to the instant. Revisions committed after
        the first page was answered are not seen: the walk covers the feed as it stood then. */
    method Collect(since: int)
      returns (gathered: Result<(seq<(Key, Out)>, seq<Key>, int)>,
               ghost read: seq<Revision<Raw>>, ghost newer: nat, ghost all: nat)
      requires Rising(client.Future())
      modifies client
      ensures client.Future() == old(client.Future()) && old(client.feed) <= client.feed
      ensures old(client.script) == [] ==> gathered.Ok? && client.script == [] && client.feed == old(client.feed)
      ensures gathered.Ok? ==> |old(client.feed)| <= all && Walked(client.feed, since, read, newer, newer, all)
      ensures gathered.Ok? && old(client.script) == [] ==> all == |client.feed|
      ensures gathered.Ok? ==>
        exists seen :: Gathered(read, seen, gathered.value.0, gathered.value.1, since, gathered.value.2)
    {
      hide Gathered, Reversed, SplitsAt, ServesNewest, Walked, Rising;
      var seen: set<Key>, upserts: seq<(Key, Out)>, tombstones: seq<Key>, newest := {}, [], [], since;
      var cursor: Option<Pos>, more := None, true;
      ghost var at: nat, left: nat, feed0, quiet := 0, |client.Future()| + 1, client.feed, client.script == [];
      read, newer, all := [], 0, 0;
      NothingGathered(since);
      while more
        invariant client.Future() == old(client.Future()) && feed0 <= client.feed
        invariant quiet ==> client.script == [] && client.feed == feed0
        invariant Gathered(read, seen, upserts, tombstones, since, newest)
        invariant cursor.None? && more ==> read == []
        invariant cursor.Some? ==>
            Walked(client.feed, since, read, newer, at, all) && at < all <= |client.feed| && newer < all
        invariant cursor.Some? && more ==> cursor == Some(client.feed[at].at)
        invariant cursor.Some? || !more ==> |feed0| <= all && (quiet ==> all == |feed0|)
        invariant !more ==> Walked(client.feed, since, read, newer, newer, all)
        invariant if cursor.Some? then left == at else more ==> left == |client.Future()| + 1
        decreases left, more
      {
        ghost var before := client.feed;
        var page; ghost var split, end;
        page, split, end := client.ChangesPage(since, cursor);
        if page.Failed? { return Failed, read, newer, all; }
        RisesSoFar(client.feed, Arriving(client.script));
        if cursor.None? {
          newer, at, all := split, |client.feed|, |client.feed|;
          NothingWalked(client.feed, since, newer);
        } else {
          WalkedGrows(before, client.feed, since, read, newer, at, all);
          CursorIs(client.feed, at, end);
        }
        ghost var lo := WalkOn(client.feed, since, read, newer, at, all, page.value, split);
        seen, upserts, tombstones, newest := Gather(page.value.items, seen, upserts, tombstones, newest, read, since);
        read, at, left := read + page.value.items, lo, lo;
        if page.value.nextCursor.None? {
          more, cursor := false, None;
        } else {
          cursor := page.value.nextCursor;
        }
      }
      gathered := Ok((upserts, tombstones, newest));
    }

    lemma {:induction false} NothingGathered(since: int)
      ensures Gathered([], {}, [], [], since, since)
    {
    }

    static lemma {:induction false} NothingWalked(feed: seq<Revision<Raw>>, since: int, newer: nat)
      requires SplitsAt(feed, newer, since)
      ensures Walked(feed, since, [], newer, |feed|, |feed|)
    {
    }

    /** The mirror as its protocol sees it, at a stored instant. */
    ghost function Abs(since: int): I.State<Out>
      reads client, sink
    {
      I.State(JudgedQuietly(client.feed, mapRecord), sink.rows, since)
    }

    /** One cycle past the stored instant: collect everything newer, write it with one call of
        each kind, then store the newest stamp seen. A request that fails leaves the sink as it
        was, a sink or a store that fails leaves each key at its old or its planned value, and
        each leaves the instant where it was. Failed or not, the cycle is a run of the protocol. */
    method Incremental(since: int) returns (result: Result<SyncResult>, ghost newer: nat, ghost all: nat)
      requires Rising(client.Future()) && sink.keeps
      modifies client, sink, watermark
      ensures client.Future() == old(client.Future())
      ensures |old(client.feed)| <= all <= |client.feed|
      ensures result.Failed? ==>
        && watermark.values == old(watermark.values)
        && (sink.rows == old(sink.rows) || (SplitsAt(client.feed[..all], newer, since)
            && M.PartlyApplied(old(sink.rows), sink.rows, JudgedQuietly(client.feed[newer..all], mapRecord))))
      ensures P.FeedOk(JudgedQuietly(client.Future(), mapRecord)) ==>
        var turns := I.Cycle(JudgedQuietly(client.feed, mapRecord), |old(client.feed)|, all, result.Ok?, sink.rows);
        && I.Legal(old(Abs(since)), turns)
        && I.AfterAll(old(Abs(since)), turns) == Abs(if result.Ok? then result.value.watermark else since)
      ensures result.Ok? ==>
        && |old(client.feed)| <= all <= |client.feed| && SplitsAt(client.feed[..all], newer, since)
        && sink.rows == PassedOver(old(sink.rows), Reversed(JudgedQuietly(client.feed[newer..all], mapRecord)))
        && result.value.watermark == (if newer == all then since else client.feed[all - 1].at.stamp)
        && watermark.values == old(watermark.values)[dataset := result.value.watermark]
      ensures result.Ok? && old(sink.script) == [] ==>
        var es := JudgedQuietly(client.feed[newer..all], mapRecord);
        result.value.upserted == |UpsertedKeys(es)| && result.value.tombstoned == |RemovedKeys(es)|
      ensures old(client.script) == [] && old(sink.script) == [] && old(watermark.refusals) == [] ==>
        result.Ok? && all == |client.feed| && client.feed == old(client.feed)
    {
      hide Gathered, Reversed, SplitsAt, Walked, Rising, FirstVerdict, NewestSeen, M.PartlyApplied, UpsertedKeys,
           RemovedKeys, P.FeedOk, I.Legal, I.AfterAll;
      var gathered; ghost var read, feed0, rows := [], client.feed, sink.rows;
      gathered, read, newer, all := Collect(since);
      if gathered.Failed? {
        IsRun(feed0, client.feed, client.script, rows, rows, since, 0, |feed0|, false);
        return Failed, 0, |feed0|;
      }
      var (upserts, tombstones, newest) := gathered.value;
      PassIs(client.feed, client.script, since, read, newer, all, upserts, tombstones, newest);
      var written := Write(upserts, tombstones, JudgedQuietly(client.feed[newer..all], mapRecord));
      PassCounts(JudgedQuietly(client.feed[newer..all], mapRecord));
      if written.Failed? {
        IsRun(feed0, client.feed, client.script, rows, sink.rows, since, newer, all, false);
        return Failed, newer, all;
      }
      var saved := watermark.Set(dataset, newest);
      if saved.Failed? { I.PassIsPartly(rows, JudgedQuietly(client.feed[newer..all], mapRecord)); }
      IsRun(feed0, client.feed, client.script, rows, sink.rows, since, newer, all, saved.Ok?);
      if saved.Failed? { return Failed, newer, all; }
      result := Ok(SyncResult(written.value.0, written.value.1, newest));
    }

    /** The pass's two sink calls, each only when it has something to say. */
    method Write(upserts: seq<(Key, Out)>, tombstones: seq<Key>, ghost es: seq<Entry<Out>>)
      returns (written: Result<(nat, nat)>)
      requires sink.keeps && AnomalyFree(es)
      requires var firsts := Firsts(Reversed(es)); upserts == UpsertsIn(firsts) && tombstones == TombstonesIn(firsts)
      modifies sink
      ensures I.Wrote(old(sink.rows), sink.rows, es, written.Ok?)
      ensures old(sink.script) == [] ==> written == Ok((|upserts|, |tombstones|))
    {
      hide Firsts, UpsertsIn, TombstonesIn, Reversed, M.PartlyApplied;
      var upserted, tombstoned := 0, 0;
      ghost var rows := sink.rows;
      if |upserts| > 0 {
        var n := sink.Upsert(upserts);
        if n.Failed? {
          BrokenPass(rows, sink.rows, sink.rows, es);
          return Failed;
        }
        upserted := n.value;
      }
      if |tombstones| > 0 {
        ghost var put := sink.rows;
        var n := sink.Tombstone(tombstones);
        if n.Failed? {
          BrokenPass(rows, put, sink.rows, es);
          return Failed;
        }
        tombstoned := n.value;
      }
      written := Ok((upserted, tombstoned));
    }

    /** A sink call that broke: each key as it was or as the call would leave it. */
    static ghost predicate Between(rows: map<Key, Out>, rows': map<Key, Out>, full: map<Key, Out>) {
      forall k :: Get(rows', k) == Get(rows, k) || Get(rows', k) == Get(full, k)
    }

    /** A pass that breaks in its first call (`put` to `rows`: nothing) or in its second. */
    lemma {:induction false} BrokenPass(rows: map<Key, Out>, put: map<Key, Out>, rows': map<Key, Out>,
        es: seq<Entry<Out>>)
      requires AnomalyFree(es)
      requires var firsts := Firsts(Reversed(es));
        || (put == rows' && Between(rows, put, PutAll(rows, UpsertsIn(firsts))))
        || (put == PutAll(rows, UpsertsIn(firsts)) && Between(put, rows', DeleteAll(put, TombstonesIn(firsts))))
      ensures M.PartlyApplied(rows, rows', es)
    {
      hide Firsts, UpsertsIn, TombstonesIn, FirstVerdict, PutAll, DeleteAll, Reversed, LastVerdict;
      var bs := Reversed(es);
      forall k ensures Get(rows', k) == Get(rows, k) || (k in P.Writers(es) && Get(rows', k) == Planned(None, es, k)) {
        FirstIsLast(es, k);
        PassPuts(rows, bs, k);
        PassDeletes(put, bs, k);
        P.WritersAre(es, k);
      }
    }

    /** The cycle is a legal run of the protocol. */
    lemma {:induction false} IsRun(feed0: seq<Revision<Raw>>, feed: seq<Revision<Raw>>, script: seq<Reply<Raw>>,
        rows: map<Key, Out>, rows': map<Key, Out>, since: int, newer: nat, all: nat, finished: bool)
      requires feed0 <= feed && |feed0| <= all <= |feed|
      requires (!finished && rows' == rows) || (newer <= all && SplitsAt(feed[..all], newer, since)
               && I.Wrote(rows, rows', JudgedQuietly(feed[newer..all], mapRecord), finished))
      ensures P.FeedOk(JudgedQuietly(feed + Arriving(script), mapRecord)) ==>
        var turns := I.Cycle(JudgedQuietly(feed, mapRecord), |feed0|, all, finished, rows');
        var start := I.State(JudgedQuietly(feed0, mapRecord), rows, since);
        && I.Legal(start, turns)
        && I.AfterAll(start, turns) == I.State(JudgedQuietly(feed, mapRecord), rows',
                                               if finished && newer < all then feed[all - 1].at.stamp else since)
    {
      hide PassedOver, Reversed, P.FeedOk, Ordered, M.PartlyApplied, I.Behind, I.Legal, I.AfterAll, I.Cycle, SplitsAt;
      var es := JudgedQuietly(feed, mapRecord);
      if P.FeedOk(JudgedQuietly(feed + Arriving(script), mapRecord)) {
        FeedsOk(feed, Arriving(script), all);
        assert es[..|feed0|] == JudgedQuietly(feed0, mapRecord);
        ReadsFrom(feed, all, newer, since, rows);
        I.CycleIsLegal(es, |feed0|, all, finished, rows, rows', since);
      }
    }

    lemma {:induction false} FeedsOk(feed: seq<Revision<Raw>>, more: seq<Revision<Raw>>, all: nat)
      requires P.FeedOk(JudgedQuietly(feed + more, mapRecord)) && all <= |feed|
      ensures P.FeedOk(JudgedQuietly(feed, mapRecord)) && P.FeedOk(JudgedQuietly(feed, mapRecord)[..all])
    {
      var es, late := JudgedQuietly(feed, mapRecord), JudgedQuietly(more, mapRecord);
      assert JudgedQuietly(feed + more, mapRecord) == es + late;
      M.FeedOkPrefix(es, late);
      assert es == es[..all] + es[all..];
      M.FeedOkPrefix(es[..all], es[all..]);
    }

    lemma {:induction false} ReadsFrom(feed: seq<Revision<Raw>>, all: nat, newer: nat, since: int, rows: map<Key, Out>)
      requires all <= |feed| && P.FeedOk(JudgedQuietly(feed, mapRecord)[..all])
      ensures M.PartlyApplied(rows, rows,
          JudgedQuietly(feed, mapRecord)[..all][I.Behind(JudgedQuietly(feed, mapRecord)[..all], since)..])
      ensures newer <= all && SplitsAt(feed[..all], newer, since) ==>
        && I.Behind(JudgedQuietly(feed, mapRecord)[..all], since) == newer
        && JudgedQuietly(feed, mapRecord)[..all][newer..] == JudgedQuietly(feed[newer..all], mapRecord)
    {
      hide NoDropAfterWrite, I.Behind;
      var es := JudgedQuietly(feed, mapRecord);
      var front := es[..all];
      if newer <= all && SplitsAt(feed[..all], newer, since) {
        assert forall i :: 0 <= i < all ==> front[i].at == feed[..all][i].at;
        I.BehindIs(front, since, newer);
        var page, slice := front[newer..], JudgedQuietly(feed[newer..all], mapRecord);
        assert forall i :: 0 <= i < |page| ==> page[i] == slice[i];
      }
    }

    lemma {:induction false} PassIs(feed: seq<Revision<Raw>>, script: seq<Reply<Raw>>, since: int,
        read: seq<Revision<Raw>>, newer: nat, all: nat,
                                    upserts: seq<(Key, Out)>, tombstones: seq<Key>, newest: int)
      requires Rising(feed + Arriving(script)) && Walked(feed, since, read, newer, newer, all)
      requires exists seen :: Gathered(read, seen, upserts, tombstones, since, newest)
      ensures newer <= all <= |feed| && SplitsAt(feed[..all], newer, since)
      ensures var bs := Reversed(JudgedQuietly(feed[newer..all], mapRecord));
        upserts == UpsertsIn(Firsts(bs)) && tombstones == TombstonesIn(Firsts(bs))
      ensures newest == if newer == all then since else feed[all - 1].at.stamp
    {
      hide FirstVerdict, UpsertsIn, Firsts, TombstonesIn;
      RisesSoFar(feed, Arriving(script));
      var before := feed[..all];
      assert feed[newer..all] == before[newer..];
      assert Reversed(JudgedQuietly(before[newer..], mapRecord)) == JudgedQuietly(Reversed(before[newer..]), mapRecord);
      NewestSeenIsLast(since, before, newer);
    }
  }
}
