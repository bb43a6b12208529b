/** What one uninterrupted incremental run does to a feed nobody is appending to: the report it
    returns, where it stops and what it leaves in the sink. */
module Drain {
  import opened Wrappers
  import opened Feed
  import opened PagePlan

  datatype Mode = Snapshot | Incremental

  datatype Report = Report(
    mode: Mode,
    upserted: nat,
    tombstoned: nat,
    watermark: Option<Pos>,
    anomalies: nat,
    stalled: bool,
    pagesRead: nat,
    revisionsSeen: nat,
    applied: bool,
    skipped: Skipped)

  /** Where a run stands: how much of the feed is behind it, the sink, the report so far. */
  datatype Outcome<+Out> = Outcome(at: nat, sink: map<Key, Out>, report: Report)

  const SERVER_PAGE_CAP: nat := 1000

  /** The server clamps the requested page size. */
  function Limit(batch: nat): nat {
    if batch < 1 then 1 else Min(batch, SERVER_PAGE_CAP)
  }

  function PageEnd(length: nat, at: nat, batch: nat): (hi: nat)
    requires at < length
    ensures at < hi <= length
  {
    Min(at + Limit(batch), length)
  }

  function AddSkips(a: Skipped, b: Skipped): Skipped {
    Skipped(a.droppedByMap + b.droppedByMap,
            a.nullPostImage + b.nullPostImage,
            a.supersededDuplicate + b.supersededDuplicate)
  }

  /** One page read, planned and - unless it stalls - applied. */
  function AfterPage<Out>(feed: seq<Entry<Out>>, o: Outcome<Out>, hi: nat): Outcome<Out>
    requires o.at < hi <= |feed|
  {
    var page := feed[o.at..hi];
    var plan := PlanOf(page);
    var read := o.report.(
      revisionsSeen := o.report.revisionsSeen + |page|,
      anomalies := o.report.anomalies + plan.anomalies,
      skipped := AddSkips(o.report.skipped, plan.skipped));
    if plan.stalled then o.(report := read.(stalled := true))
    else
      Outcome(hi, Applied(o.sink, plan), read.(
        upserted := o.report.upserted + |plan.upserts|,
        tombstoned := o.report.tombstoned + |plan.tombstones|,
        pagesRead := o.report.pagesRead + 1,
        watermark := Some(feed[hi - 1].at)))
  }

  function Run<Out>(feed: seq<Entry<Out>>, o: Outcome<Out>, batch: nat): (end: Outcome<Out>)
    requires o.at <= |feed|
    ensures o.at <= end.at <= |feed|
    decreases |feed| - o.at
  {
    if o.at == |feed| then o
    else
      var hi := PageEnd(|feed|, o.at, batch);
      var next := AfterPage(feed, o, hi);
      if next.report.stalled || hi - o.at < batch then next else Run(feed, next, batch)
  }

  function Begin<Out>(at: nat, sink: map<Key, Out>, position: Pos): Outcome<Out> {
    Outcome(at, sink, Report(Incremental, 0, 0, Some(position), 0, false, 0, 0, true, NoSkips()))
  }

  // ---- the report does not depend on the sink ----

  lemma {:induction false} PageIgnoresSink<Out>(feed: seq<Entry<Out>>, o: Outcome<Out>, other: map<Key, Out>, hi: nat)
    requires o.at < hi <= |feed|
    ensures var next := AfterPage(feed, o.(sink := other), hi);
      next == AfterPage(feed, o, hi).(sink := next.sink) && (next.report.stalled || next.at == hi)
  {
  }

  lemma {:induction false} ReportIgnoresSink<Out>(feed: seq<Entry<Out>>, o: Outcome<Out>, other: map<Key, Out>,
      batch: nat)
    requires o.at <= |feed|
    ensures Run(feed, o, batch).report == Run(feed, o.(sink := other), batch).report
    ensures Run(feed, o, batch).at == Run(feed, o.(sink := other), batch).at
    decreases |feed| - o.at
  {
    hide AfterPage;
    if o.at < |feed| {
      var hi := PageEnd(|feed|, o.at, batch);
      var a, b := AfterPage(feed, o, hi), AfterPage(feed, o.(sink := other), hi);
      PageIgnoresSink(feed, o, other, hi);
      if !(a.report.stalled || hi - o.at < batch) {
        ReportIgnoresSink(feed, a, b.sink, batch);
      }
    }
  }

  // ---- where a run stops ----

  lemma {:induction false} SliceAnomaly<Out>(feed: seq<Entry<Out>>, lo: nat, hi: nat)
    requires lo <= hi <= |feed|
    ensures AnomalyFree(feed[lo..hi]) <==> forall i :: lo <= i < hi ==> !feed[i].verdict.Anomaly?
  {
  }

  /** A run ends either before the first page holding an anomaly, and says so, or at the end of
      the feed, or after one short page. With a batch above the server's page cap every page is
      short, so such a run reads a single page; otherwise it drains everything it can. */
  lemma {:induction false} WhereRunStops<Out>(feed: seq<Entry<Out>>, o: Outcome<Out>, batch: nat)
    requires o.at <= |feed| && !o.report.stalled
    ensures var e := Run(feed, o, batch);
      && o.at <= e.at <= |feed|
      && (forall i :: o.at <= i < e.at ==> !feed[i].verdict.Anomaly?)
      && (e.report.stalled ==>
            e.at < |feed| && exists i :: e.at <= i < PageEnd(|feed|, e.at, batch) && feed[i].verdict.Anomaly?)
      && (!e.report.stalled && batch <= SERVER_PAGE_CAP ==> e.at == |feed|)
      && (!e.report.stalled && batch > SERVER_PAGE_CAP ==> e.at == Min(o.at + SERVER_PAGE_CAP, |feed|))
    decreases |feed| - o.at
  {
    if o.at < |feed| {
      var hi := PageEnd(|feed|, o.at, batch);
      var next := AfterPage(feed, o, hi);
      SliceAnomaly(feed, o.at, hi);
      if !(next.report.stalled || hi - o.at < batch) {
        WhereRunStops(feed, next, batch);
      }
    }
  }

  /** On an anomaly-free backlog one run drains all of it exactly when the batch fits the
      server's page cap or the backlog does. */
  lemma {:induction false} OneRunDrainsAll<Out>(feed: seq<Entry<Out>>, o: Outcome<Out>, batch: nat)
    requires o.at <= |feed| && !o.report.stalled && AnomalyFree(feed[o.at..])
    ensures !Run(feed, o, batch).report.stalled
    ensures Run(feed, o, batch).at == |feed| <==> batch <= SERVER_PAGE_CAP || |feed| - o.at <= SERVER_PAGE_CAP
  {
    WhereRunStops(feed, o, batch);
    SliceAnomaly(feed, o.at, |feed|);
  }

  /** The reported watermark is the position the run drained up to. */
  lemma {:induction false} RunPosition<Out>(feed: seq<Entry<Out>>, o: Outcome<Out>, batch: nat)
    requires Ordered(feed) && o.at <= |feed|
    requires o.report.watermark.Some? && Rank(feed, o.report.watermark.value) == o.at
    ensures var e := Run(feed, o, batch);
      e.report.watermark.Some? && Rank(feed, e.report.watermark.value) == e.at
    decreases |feed| - o.at
  {
    if o.at < |feed| {
      var hi := PageEnd(|feed|, o.at, batch);
      var next := AfterPage(feed, o, hi);
      RankOfEntry(feed, hi - 1);
      if !(next.report.stalled || hi - o.at < batch) {
        RunPosition(feed, next, batch);
      }
    }
  }

  /** The report adds up over a run: it has seen what it passed and the page it stalled on, names
      one anomaly exactly if it stalled, and accounts for everything it passed. */
  lemma {:induction false} RunAccounts<Out>(feed: seq<Entry<Out>>, o: Outcome<Out>, batch: nat)
    requires o.at <= |feed| && !o.report.stalled
    ensures var e := Run(feed, o, batch);
      var a, b := o.report, e.report;
      && (b.stalled ==> e.at < |feed|)
      && b.revisionsSeen - a.revisionsSeen == e.at - o.at +
          (if b.stalled then PageEnd(|feed|, e.at, batch) - e.at else 0)
      && b.anomalies - a.anomalies == (if b.stalled then 1 else 0)
      && b.skipped.nullPostImage - a.skipped.nullPostImage == (if b.stalled then 1 else 0)
      && Named(b) - Named(a) >= e.at - o.at
      && (e.at > o.at ==> b.pagesRead > a.pagesRead)
    decreases |feed| - o.at
  {
    if o.at < |feed| {
      var hi := PageEnd(|feed|, o.at, batch);
      PageAccounts(feed, o, hi);
      hide AfterPage, Named;
      var next := AfterPage(feed, o, hi);
      if !(next.report.stalled || hi - o.at < batch) {
        RunAccounts(feed, next, batch);
      }
    }
  }

  /** Everything a report names: written, dropped, superseded. */
  function Named(r: Report): nat {
    r.upserted + r.tombstoned + r.skipped.droppedByMap + r.skipped.supersededDuplicate
  }

  lemma {:induction false} PageAccounts<Out>(feed: seq<Entry<Out>>, o: Outcome<Out>, hi: nat)
    requires o.at < hi <= |feed| && !o.report.stalled
    ensures var next := AfterPage(feed, o, hi);
      var a, b := o.report, next.report;
      && b.revisionsSeen == a.revisionsSeen + hi - o.at
      && next.at == (if b.stalled then o.at else hi)
      && b.anomalies == a.anomalies + (if b.stalled then 1 else 0)
      && b.skipped.nullPostImage == a.skipped.nullPostImage + (if b.stalled then 1 else 0)
      && Named(b) >= Named(a) + (if b.stalled then 0 else hi - o.at)
      && b.pagesRead == a.pagesRead + (if b.stalled then 0 else 1)
  {
    var page := feed[o.at..hi];
    if AnomalyFree(page) { PageAccounting(page); }
    hide Keys, Latest, Upserts, Tombstones, Drops, AnomalyFree;
  }

  // ---- what each counter counts ----

  /** Counted on the feed: the keys that end a page on an upsert, on a removal, the revisions the map
      dropped, those a later one of their page replaces, and the pages. */
  datatype Tally = Tally(upserted: nat, removed: nat, dropped: nat, replaced: nat, pages: nat)

  ghost function PageTally<Out>(page: seq<Entry<Out>>): Tally {
    Tally(|UpsertedKeys(page)|, |RemovedKeys(page)|, |DroppedRevisions(page)|, |ReplacedRevisions(page)|, 1)
  }

  function Sum(a: Tally, b: Tally): Tally {
    Tally(a.upserted + b.upserted, a.removed + b.removed, a.dropped + b.dropped, a.replaced + b.replaced,
          a.pages + b.pages)
  }

  /** A stretch read page by page. */
  ghost function Tallied<Out>(feed: seq<Entry<Out>>, lo: nat, hi: nat, batch: nat): Tally
    requires lo <= hi <= |feed|
    decreases hi - lo
  {
    if lo == hi then Tally(0, 0, 0, 0, 0)
    else
      var mid := Min(lo + Limit(batch), hi);
      Sum(PageTally(feed[lo..mid]), Tallied(feed, mid, hi, batch))
  }

  ghost predicate Counts(a: Report, t: Tally, b: Report) {
    && b.upserted == a.upserted + t.upserted && b.tombstoned == a.tombstoned + t.removed
    && b.skipped.droppedByMap == a.skipped.droppedByMap + t.dropped
    && b.skipped.supersededDuplicate == a.skipped.supersededDuplicate + t.replaced
    && b.pagesRead == a.pagesRead + t.pages && b.mode == a.mode && b.applied == a.applied
  }

  lemma {:induction false} PageCounts<Out>(feed: seq<Entry<Out>>, o: Outcome<Out>, hi: nat)
    requires o.at < hi <= |feed| && !o.report.stalled
    ensures var b := AfterPage(feed, o, hi).report;
      Counts(o.report, if b.stalled then Tally(0, 0, 0, 0, 0) else PageTally(feed[o.at..hi]), b)
  {
    var page := feed[o.at..hi];
    if AnomalyFree(page) {
      PlanCounts(page);
    }
    hide Keys, Latest, Upserts, Tombstones, Drops, AnomalyFree, UpsertedKeys, RemovedKeys, DroppedRevisions,
         ReplacedRevisions;
  }

  /** Over a run each counter of the report grows by what it is named for, counted on the stretch
      it passed; a page it stalled on adds to none of them. */
  lemma {:induction false} RunCounts<Out>(feed: seq<Entry<Out>>, o: Outcome<Out>, batch: nat)
    requires o.at <= |feed| && !o.report.stalled
    ensures var e := Run(feed, o, batch); Counts(o.report, Tallied(feed, o.at, e.at, batch), e.report)
    decreases |feed| - o.at
  {
    hide AfterPage, PageTally;
    if o.at < |feed| {
      var hi := PageEnd(|feed|, o.at, batch);
      var next, e := AfterPage(feed, o, hi), Run(feed, o, batch);
      PageAccounts(feed, o, hi);
      PageCounts(feed, o, hi);
      if next.report.stalled {
        assert e == next;
      } else if hi - o.at < batch {
        assert e == next && Min(o.at + Limit(batch), hi) == hi;
        assert Tallied(feed, hi, hi, batch) == Tally(0, 0, 0, 0, 0);
      } else {
        RunCounts(feed, next, batch);
        assert Min(o.at + Limit(batch), e.at) == hi;
      }
    }
  }

  /** The watermark is the position of the last revision passed, or where the run began. */
  lemma {:induction false} RunWatermark<Out>(feed: seq<Entry<Out>>, o: Outcome<Out>, batch: nat)
    requires o.at <= |feed| && !o.report.stalled
    ensures var e := Run(feed, o, batch);
      && e.report.watermark == (if e.at > o.at then Some(feed[e.at - 1].at) else o.report.watermark)
      && (e.report.pagesRead == o.report.pagesRead <==> e.at == o.at) && e.report.pagesRead >= o.report.pagesRead
    decreases |feed| - o.at
  {
    hide AfterPage;
    if o.at < |feed| {
      var hi := PageEnd(|feed|, o.at, batch);
      var next := AfterPage(feed, o, hi);
      PageWatermark(feed, o, hi);
      if !(next.report.stalled || hi - o.at < batch) {
        RunWatermark(feed, next, batch);
      }
    }
  }

  lemma {:induction false} PageWatermark<Out>(feed: seq<Entry<Out>>, o: Outcome<Out>, hi: nat)
    requires o.at < hi <= |feed| && !o.report.stalled
    ensures var next := AfterPage(feed, o, hi);
      if next.report.stalled
      then next.at == o.at && next.report.watermark == o.report.watermark && next.report.pagesRead == o.report.pagesRead
      else next.at == hi && next.report.watermark == Some(feed[hi - 1].at)
           && next.report.pagesRead == o.report.pagesRead + 1
  {
    hide PlanOf, Applied;
  }

  /** Drops need no pages to be counted. */
  lemma {:induction false} DropsAddUp<Out>(feed: seq<Entry<Out>>, lo: nat, hi: nat, batch: nat)
    requires lo <= hi <= |feed|
    ensures Tallied(feed, lo, hi, batch).dropped == |DroppedRevisions(feed[lo..hi])|
    decreases hi - lo
  {
    hide DroppedRevisions, PageTally, Limit;
    if lo == hi {
      assert feed[lo..hi] == [];
      DropsAreCounted<Out>([]);
    } else {
      StepIsPositive(batch);
      var mid := Min(lo + Limit(batch), hi);
      DropsAddUp(feed, mid, hi, batch);
      OnePage(feed[lo..mid]);
      DroppedSplit(feed, lo, mid, hi);
    }
  }

  lemma {:induction false} DroppedSplit<Out>(feed: seq<Entry<Out>>, lo: nat, mid: nat, hi: nat)
    requires lo <= mid <= hi <= |feed|
    ensures |DroppedRevisions(feed[lo..hi])| == |DroppedRevisions(feed[lo..mid])| + |DroppedRevisions(feed[mid..hi])|
  {
    hide DroppedRevisions;
    assert feed[lo..hi] == feed[lo..mid] + feed[mid..hi];
    DroppedConcat(feed[lo..mid], feed[mid..hi]);
  }

  /** A stretch takes as few pages as it can. */
  lemma {:induction false} PagesNeeded<Out>(feed: seq<Entry<Out>>, lo: nat, hi: nat, batch: nat)
    requires lo <= hi <= |feed|
    ensures var n := Tallied(feed, lo, hi, batch).pages;
      hi - lo <= n * Limit(batch) && (lo < hi ==> (n - 1) * Limit(batch) < hi - lo)
    decreases hi - lo
  {
    hide PageTally, Limit;
    if lo < hi {
      var mid, step := Min(lo + Limit(batch), hi), Limit(batch);
      StepIsPositive(batch);
      PagesNeeded(feed, mid, hi, batch);
      OnePage(feed[lo..mid]);
      var n := Tallied(feed, mid, hi, batch).pages;
      OneMore(n, step);
      if mid == hi { assert n == 0; }
    }
  }

  lemma {:induction false} StepIsPositive(batch: nat)
    ensures 1 <= Limit(batch) <= SERVER_PAGE_CAP
    ensures 1 <= batch <= SERVER_PAGE_CAP ==> Limit(batch) == batch
  {
  }

  lemma {:induction false} LimitIs()
    ensures Limit(0) == 1 && Limit(1) == 1 && Limit(500) == 500 && Limit(1000) == 1000 && Limit(1001) == 1000
  {
  }

  lemma {:induction false} OnePage<Out>(page: seq<Entry<Out>>)
    ensures PageTally(page).pages == 1 && PageTally(page).dropped == |DroppedRevisions(page)|
  {
  }

  lemma {:induction false} OneMore(n: nat, step: nat)
    ensures (n + 1) * step == n * step + step && (n - 1) * step == n * step - step && 0 * step == 0
  {
  }

  lemma {:induction false} DroppedConcat<Out>(a: seq<Entry<Out>>, b: seq<Entry<Out>>)
    ensures |DroppedRevisions(a + b)| == |DroppedRevisions(a)| + |DroppedRevisions(b)|
  {
    if b == [] {
      assert a + b == a;
      DropsAreCounted<Out>([]);
    } else {
      var front, n := b[..|b| - 1], |a + b| - 1;
      assert (a + b)[..n] == a + front;
      DroppedConcat(a, front);
      DropsAreCounted(a + b);
      DropsAreCounted(a + front);
      DropsAreCounted(b);
      DropsAreCounted(front);
    }
  }

  // ---- page boundaries ----

  /** Applying one page and folding what follows is folding both, unless the page hides a write
      behind a drop that nothing later overwrites. */
  lemma {:induction false} PageThenRest<Out>(prev: Option<Out>, page: seq<Entry<Out>>, rest: seq<Entry<Out>>, key: Key)
    requires NoTrailingDrop(page + rest)
    ensures Settle(Planned(prev, page, key), rest, key) == Settle(prev, page + rest, key)
    ensures NoTrailingDrop(rest)
  {
    SettleConcat(prev, page, rest, key);
    forall k ensures LastVerdict(rest, k).Some? ==> LastVerdict(page + rest, k) == LastVerdict(rest, k) {
      LastVerdictConcat(page, rest, k);
    }
    forall k | LastVerdict(rest, k).Some? && !LastVerdict(rest, k).value.Writes() ensures !WritesTo(rest, k) {
      assert forall i :: 0 <= i < |rest| ==> rest[i] == (page + rest)[|page| + i];
    }
    if WritesTo(page, key) && !(LastVerdict(page, key).Some? && LastVerdict(page, key).value.Writes()) {
      var i :| 0 <= i < |page| && page[i].key == key && page[i].verdict.Writes();
      assert (page + rest)[i] == page[i];
      LastVerdictIsLast(page + rest, key);
      assert Mentions(page + rest, key);
      LastVerdictConcat(page, rest, key);
      LastVerdictIsLast(page, key);
      LastWriteWins(Planned(prev, page, key), prev, rest, key);
      LastWriteWins(Settle(prev, page, key), prev, rest, key);
    } else {
      PlannedSettles(prev, page, key);
    }
  }

  lemma {:induction false} LastVerdictConcat<Out>(a: seq<Entry<Out>>, b: seq<Entry<Out>>, key: Key)
    ensures LastVerdict(a + b, key) == if LastVerdict(b, key).Some? then LastVerdict(b, key) else LastVerdict(a, key)
  {
    if b == [] {
      assert a + b == a;
    } else {
      assert (a + b)[..|a + b| - 1] == a + b[..|b| - 1];
      LastVerdictConcat(a, b[..|b| - 1], key);
    }
  }

  lemma {:induction false} RunSettles<Out>(feed: seq<Entry<Out>>, o: Outcome<Out>, batch: nat, key: Key)
    requires o.at <= |feed| && !o.report.stalled
    requires NoTrailingDrop(feed[o.at..Run(feed, o, batch).at])
    ensures var e := Run(feed, o, batch); Get(e.sink, key) == Settle(Get(o.sink, key), feed[o.at..e.at], key)
    decreases |feed| - o.at
  {
    if o.at < |feed| {
      var hi := PageEnd(|feed|, o.at, batch);
      var next, e := AfterPage(feed, o, hi), Run(feed, o, batch);
      if next.report.stalled {
        assert e == next && next.at == o.at && next.sink == o.sink;
        assert feed[o.at..e.at] == [];
      } else {
        var page, rest := feed[o.at..hi], feed[hi..e.at];
        assert feed[o.at..e.at] == page + rest;
        AppliedIsPlanned(o.sink, page, key);
        PageThenRest(Get(o.sink, key), page, rest, key);
        if hi - o.at < batch {
          assert e == next && rest == [];
        } else {
          RunSettles(feed, next, batch, key);
        }
      }
    }
  }

  /** Batch-size independence: whatever the batch, a run leaves the sink as the
      revision-by-revision fold of what it read. */
  lemma {:induction false} RunIsFold<Out>(feed: seq<Entry<Out>>, o: Outcome<Out>, batch: nat)
    requires o.at <= |feed| && !o.report.stalled
    requires NoTrailingDrop(feed[o.at..Run(feed, o, batch).at])
    ensures var e := Run(feed, o, batch); e.sink == Fold(o.sink, feed[o.at..e.at])
  {
    var e := Run(feed, o, batch);
    forall key ensures Get(e.sink, key) == Get(Fold(o.sink, feed[o.at..e.at]), key) {
      RunSettles(feed, o, batch, key);
      FoldSettles(o.sink, feed[o.at..e.at], key);
    }
    SameRows(e.sink, Fold(o.sink, feed[o.at..e.at]));
  }

  function ApplyPages<Out>(rows: map<Key, Out>, pages: seq<seq<Entry<Out>>>): map<Key, Out> {
    if pages == [] then rows else Applied(ApplyPages(rows, pages[..|pages| - 1]), PlanOf(pages[|pages| - 1]))
  }

  function Joined<Out>(pages: seq<seq<Entry<Out>>>): seq<Entry<Out>> {
    if pages == [] then [] else Joined(pages[..|pages| - 1]) + pages[|pages| - 1]
  }

  lemma {:induction false} NoTrailingDropPages<Out>(rows: map<Key, Out>, pages: seq<seq<Entry<Out>>>,
      rest: seq<Entry<Out>>, key: Key)
    requires AnomalyFree(Joined(pages)) && NoTrailingDrop(Joined(pages) + rest)
    ensures Settle(Get(ApplyPages(rows, pages), key), rest, key) == Settle(Get(rows, key), Joined(pages) + rest, key)
    decreases |pages|
  {
    if pages == [] {
      assert Joined(pages) + rest == rest;
    } else {
      var front, page := pages[..|pages| - 1], pages[|pages| - 1];
      assert Joined(pages) + rest == Joined(front) + (page + rest);
      assert forall i :: 0 <= i < |Joined(front)| ==> Joined(front)[i] == Joined(pages)[i];
      assert forall i :: 0 <= i < |page| ==> page[i] == Joined(pages)[|Joined(front)| + i];
      NoTrailingDropPages(rows, front, page + rest, key);
      PageThenRest(Get(rows, key), Joined(front), page + rest, key);
      PageThenRest(Get(ApplyPages(rows, front), key), page, rest, key);
      AppliedIsPlanned(ApplyPages(rows, front), page, key);
    }
  }

  ghost predicate PagingAgrees<Out(!new)>(es: seq<Entry<Out>>) {
    forall rows: map<Key, Out>, pages: seq<seq<Entry<Out>>> ::
      Joined(pages) == es ==> ApplyPages(rows, pages) == Fold(rows, es)
  }

  /** Exactly when page boundaries cannot matter: every way of cutting an anomaly-free backlog
      into pages leaves every sink at the fold if and only if no key ends on a map drop after
      a revision of it that writes. */
  lemma {:induction false} PagingAgreesExactly<Out(!new)>(es: seq<Entry<Out>>, someOut: Out)
    requires AnomalyFree(es)
    ensures PagingAgrees(es) <==> NoTrailingDrop(es)
  {
    if NoTrailingDrop(es) {
      forall rows: map<Key, Out>, pages: seq<seq<Entry<Out>>> | Joined(pages) == es
        ensures ApplyPages(rows, pages) == Fold(rows, es)
      {
        assert es + [] == es;
        forall key ensures Get(ApplyPages(rows, pages), key) == Get(Fold(rows, es), key) {
          NoTrailingDropPages(rows, pages, [], key);
          FoldSettles(rows, es, key);
        }
        SameRows(ApplyPages(rows, pages), Fold(rows, es));
      }
    } else {
      var key :| LastVerdict(es, key).Some? && !LastVerdict(es, key).value.Writes() && WritesTo(es, key);
      var rows: map<Key, Out> := if Settle(None, es, key) == None then map[key := someOut] else map[];
      assert Joined([es]) == es by { assert [es][..0] == [] && Joined<Out>([]) + es == es; }
      assert ApplyPages(rows, [es]) == Applied(rows, PlanOf(es)) by { assert [es][..0] == []; }
      AppliedIsPlanned(rows, es, key);
      FoldSettles(rows, es, key);
      LastVerdictIsLast(es, key);
      SettleForgets(None, Get(rows, key), es, key);
      assert ApplyPages(rows, [es]) != Fold(rows, es);
    }
  }

  lemma {:induction false} SettleForgets<Out>(a: Option<Out>, b: Option<Out>, es: seq<Entry<Out>>, key: Key)
    requires WritesTo(es, key)
    ensures Settle(a, es, key) == Settle(b, es, key)
  {
    var rest, last := es[..|es| - 1], es[|es| - 1];
    if !(last.key == key && last.verdict.Writes()) {
      var i :| 0 <= i < |es| && es[i].key == key && es[i].verdict.Writes();
      assert rest[i] == es[i];
      SettleForgets(a, b, rest, key);
    }
  }

  lemma {:induction false} SingleRevisionPage<Out>(rows: map<Key, Out>, e: Entry<Out>)
    requires !e.verdict.Anomaly?
    ensures Applied(rows, PlanOf([e])) == Put(rows, e.key, e.verdict.Over(Get(rows, e.key)))
  {
    forall key ensures Get(Applied(rows, PlanOf([e])), key) ==
        Get(Put(rows, e.key, e.verdict.Over(Get(rows, e.key))), key) {
      assert LastVerdict([e], key) == if key == e.key then Some(e.verdict) else None by { assert [e][..0] == []; }
      AppliedIsPlanned(rows, [e], key);
    }
    SameRows(Applied(rows, PlanOf([e])), Put(rows, e.key, e.verdict.Over(Get(rows, e.key))));
  }

  lemma {:induction false} DroppedPage<Out>(rows: map<Key, Out>, e: Entry<Out>, f: Entry<Out>)
    requires !e.verdict.Anomaly? && f.verdict.Drop? && f.key == e.key
    ensures Applied(rows, PlanOf([e, f])) == rows
  {
    forall key ensures Get(Applied(rows, PlanOf([e, f])), key) == Get(rows, key) {
      LastVerdictConcat([e], [f], key);
      assert [e] + [f] == [e, f] && [e][..0] == [] && [f][..0] == [];
      AppliedIsPlanned(rows, [e, f], key);
    }
    SameRows(Applied(rows, PlanOf([e, f])), rows);
  }

  /** The condition can fail: with one key written and then dropped by the map, a batch of one
      leaves the write in the sink and a batch of two leaves nothing. */
  lemma {:induction false} DropsMakeBatchSizeVisible<Out>(key: Key, out: Out)
    ensures var es := [Entry(key, Upsert(out), Pos(1, 1)), Entry(key, Drop, Pos(2, 2))];
      && Run(es, Begin(0, map[], Pos(0, 0)), 1).sink == map[key := out]
      && Run(es, Begin(0, map[], Pos(0, 0)), 2).sink == map[]
  {
    hide PlanOf, Applied;
    var es := [Entry(key, Upsert(out), Pos(1, 1)), Entry(key, Drop, Pos(2, 2))];
    var o: Outcome<Out> := Begin(0, map[], Pos(0, 0));
    assert es[0..2] == es && es[0..1] == [es[0]] && es[1..2] == [es[1]];
    DroppedPage(o.sink, es[0], es[1]);
    SingleRevisionPage(o.sink, es[0]);
    var one := AfterPage(es, o, 1);
    PlanStalls([es[0]]);
    PlanStalls([es[1]]);
    PlanStalls(es);
    SingleRevisionPage(one.sink, es[1]);
    var two := AfterPage(es, one, 2);
    assert Run(es, two, 1) == two;
    assert Run(es, one, 1) == two;
    assert Run(es, AfterPage(es, o, 2), 2) == AfterPage(es, o, 2);
  }

  lemma {:induction false} PlanStalls<Out>(es: seq<Entry<Out>>)
    ensures PlanOf(es).stalled <==> !AnomalyFree(es)
  {
  }
}
