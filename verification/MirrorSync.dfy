/** `PumperSync` itself: the loops of sync.ts over the client, the sink and the watermark store. */
module MirrorSync {
  import opened Wrappers
  import opened Feed
  import opened PagePlan
  import opened MirrorClient
  import P = MirrorProtocol
  import M = MirrorMoves
  import D = Drain
  import S = Snapshot

  /** How one page of the drain ended. */
  datatype PageEnd = Broke | CaughtUp | StalledAt(report: D.Report) | Advanced(report: D.Report, watermark: Pos,
      short: bool)

  datatype SyncStatus = SyncStatus(mode: D.Mode, watermark: Option<Stored>, newestRevisionAt: Option<int>,
                                   lagSeconds: Option<nat>, upToDate: bool, pendingAtLeast: Option<nat>)

  /** Whole seconds from one stamp to another, through the clock's milliseconds, rounded half up
      and never negative. */
  function FeedLagSeconds(from: int, to: int): nat {
    var lag := (to / 1000 - from / 1000 + 500) / 1000;
    if lag < 0 then 0 else lag
  }

  /** The lag is the nearest whole second, halves up, and none when the feed is not ahead. */
  lemma {:induction false} FeedLagIs(from: int, to: int)
    ensures var ms := to / 1000 - from / 1000;
      && (ms < 500 ==> FeedLagSeconds(from, to) == 0)
      && (ms >= 500 ==> FeedLagSeconds(from, to) * 1000 - 500 <= ms < FeedLagSeconds(from, to) * 1000 + 500)
  {
  }

  /** What reading and planning one page came to. */
  datatype Turn<+Out> = NoAnswer | NoneLeft | Read(plan: Plan<Out>, next: Pos, short: bool, report: D.Report)

  class PumperSync<Raw(!new), Out(!new)> {
    const client: PumperClient<Raw>
    const sink: SyncSink<Out>
    const store: WatermarkStore
    const toOut: (Raw, MapContext) -> Option<Out>
    const batchSize: nat
    ghost var base: nat

    constructor (client: PumperClient<Raw>, sink: SyncSink<Out>, store: WatermarkStore,
                 toOut: (Raw, MapContext) -> Option<Out>, batchSize: nat := 500)
      ensures this.client == client && this.sink == sink && this.store == store
      ensures this.toOut == toOut && this.batchSize == batchSize && base == 0
    {
      this.client, this.sink, this.store := client, sink, store;
      this.toOut, this.batchSize, base := toOut, batchSize, 0;
    }

    ghost function Entries(): seq<Entry<Out>>
      reads client
    {
      Judged(client.feed, toOut)
    }

    /** The mirror as the protocol sees it between runs. */
    ghost function Abs(): P.State<Out>
      reads this, client, sink, store
    {
      P.State(Entries(), sink.rows,
              match store.value case None => None case Some(v) => Some(ParseWatermark(v)), base, P.Idle)
    }

    /** What the mirror assumes of the server: its feed, present and future, is ordered and the
        map does not start dropping a key it has written. */
    ghost predicate Fed()
      reads client
    {
      P.FeedOk(Judged(client.Future(), toOut))
    }

    ghost predicate Quiet()
      reads client, sink, store
    {
      client.script == [] && sink.script == [] && store.refusals == []
    }

    /** Each sink call of a page, made alone or after the other, moves keys to their planned values. */
    static lemma {:induction false} CallsArePartial(rows: map<Key, Out>, page: seq<Entry<Out>>)
      requires AnomalyFree(page)
      ensures var plan, put := PlanOf(page), PutAll(rows, PlanOf(page).upserts);
        && M.PartlyApplied(rows, put, page)
        && M.PartlyApplied(put, DeleteAll(put, plan.tombstones), page)
        && M.PartlyApplied(rows, DeleteAll(rows, plan.tombstones), page)
    {
      forall k {
        CallsAt(rows, page, k);
      }
    }

    static lemma {:induction false} CallsAt(rows: map<Key, Out>, page: seq<Entry<Out>>, k: Key)
      requires AnomalyFree(page)
      ensures var plan, put := PlanOf(page), PutAll(rows, PlanOf(page).upserts);
        && (Get(put, k) == Get(rows, k) || (k in P.Writers(page) && Get(put, k) == Planned(None, page, k)))
        && (Get(DeleteAll(put, plan.tombstones), k) == Get(put, k)
            || (k in P.Writers(page) && Get(DeleteAll(put, plan.tombstones), k) == Planned(None, page, k)))
        && (Get(DeleteAll(rows, plan.tombstones), k) == Get(rows, k)
            || (k in P.Writers(page) && Get(DeleteAll(rows, plan.tombstones), k) == Planned(None, page, k)))
    {
      var ks, latest := Keys(page), Latest(page);
      LatestHasKeys(page);
      LatestIsLast(page, k);
      PutAllAt(rows, ks, latest, k);
      DeleteAllAt(PutAll(rows, Upserts(ks, latest)), ks, latest, k);
      DeleteAllAt(rows, ks, latest, k);
    }

    /** The two sink calls of one page. */
    method ApplyPage(target: SyncSink<Out>, plan: Plan<Out>,
        ghost page: seq<Entry<Out>>) returns (written: Result<(nat, nat)>)
      requires AnomalyFree(page) && plan.upserts == PlanOf(page).upserts && plan.tombstones == PlanOf(page).tombstones
      modifies target
      ensures !target.keeps ==> target.rows == old(target.rows)
      ensures written.Ok? && target.keeps ==> target.rows == Applied(old(target.rows), plan)
      ensures M.PartlyApplied(old(target.rows), target.rows, page)
      ensures old(target.script) == [] ==> written == Ok((|plan.upserts|, |plan.tombstones|)) && target.script == []
    {
      ghost var rows := target.rows;
      var upserted, tombstoned := 0, 0;
      CallsArePartial(rows, page);
      if |plan.upserts| > 0 {
        var n := target.Upsert(plan.upserts);
        if n.Failed? { return Failed; }
        upserted := n.value;
      }
      if |plan.tombstones| > 0 {
        var n := target.Tombstone(plan.tombstones);
        if n.Failed? { return Failed; }
        tombstoned := n.value;
      }
      written := Ok((upserted, tombstoned));
    }

    /** `page` holds the feed's stretch from `start` - everything at or before the cursor is
        behind it - up to `hi`. */
    ghost predicate IsPage(feed: seq<Entry<Out>>, page: Page<Raw>, watermark: Pos, start: nat, hi: nat) {
      && start == Rank(feed, watermark) && start <= hi <= |feed|
      && Judged(page.items, toOut) == feed[start..hi]
      && (if start == |feed| then hi == start else hi == D.PageEnd(|feed|, start, batchSize))
      && page.nextCursor == if start == hi then None else Some(feed[hi - 1].at)
    }

    /** Reading a page: the server may have appended first, or the request may fail. */
    method ReadPage(watermark: Pos) returns (page: Result<Page<Raw>>, ghost start: nat)
      requires Fed()
      modifies client`feed, client`script
      ensures Fed() && P.Reaches(old(Abs()), Abs())
      ensures client.script == if old(client.script) == [] then [] else old(client.script)[1..]
      ensures old(client.script) == [] ==> client.feed == old(client.feed) && page.Ok?
      ensures page.Ok? ==> Serves(client.feed, page.value, watermark, batchSize, start)
    {
      ghost var a, before := Abs(), client.feed;
      page, start := client.ChangesPage(watermark, batchSize);
      ghost var added := Arriving(old(client.script)[..|old(client.script)| - |client.script|]);
      FeedGrew(a, before, added, Arriving(client.script), toOut);
      assert Abs() == a.(feed := Judged(before + added, toOut));
      assert old(client.script) == [] ==> added == [];
    }

    static lemma {:induction false} FeedGrew(a: P.State<Out>, before: seq<Revision<Raw>>,
        added: seq<Revision<Raw>>, rest: seq<Revision<Raw>>,
                          toOut: (Raw, MapContext) -> Option<Out>)
      requires a.feed == Judged(before, toOut) && P.FeedOk(Judged((before + added) + rest, toOut))
      ensures P.Reaches(a, a.(feed := Judged(before + added, toOut)))
      ensures P.FeedOk(Judged(before + added, toOut))
    {
      JudgedConcat(before + added, rest, toOut);
      M.FeedOkPrefix(Judged(before + added, toOut), Judged(rest, toOut));
      JudgedConcat(before, added, toOut);
      P.ReachesSelf(a);
      M.GrowReaches(a, a, Judged(added, toOut));
    }

    lemma {:induction false} PageIs(feed: seq<Revision<Raw>>, page: Page<Raw>, watermark: Pos, start: nat, hi: nat)
      requires Ordered(Judged(feed, toOut)) && Serves(feed, page, watermark, batchSize, start)
      requires hi == start + |page.items|
      ensures IsPage(Judged(feed, toOut), page, watermark, start, hi)
    {
      if start < hi { assert page.items[|page.items| - 1] == feed[hi - 1]; }
      RankIs(Judged(feed, toOut), watermark, start);
      JudgedSlice(feed, start, hi, toOut);
    }

    /** Applying a planned page and checkpointing it: the position moves only after the sink
        settled, and a break anywhere in between leaves the mirror where the protocol allows. */
    method SettlePage(target: SyncSink<Out>, plan: Plan<Out>, next: Pos, dry: bool, ghost start: nat, ghost hi: nat)
      returns (written: Result<(nat, nat)>)
      requires P.Inv(Abs())
      requires start < hi <= |Entries()| && AnomalyFree(Entries()[start..hi]) && plan == PlanOf(Entries()[start..hi])
      requires next == Entries()[hi - 1].at
      requires if dry then !target.keeps && target != sink else target == sink && target.keeps
      requires !dry ==> store.value.Some? && Abs().Done() == start
      modifies target, store
      ensures P.Reaches(old(Abs()), Abs()) && unchanged(client)
      ensures dry ==> store.value == old(store.value) && target.rows == old(target.rows)
      ensures written.Ok? && !dry ==>
          store.value == Some(Position(next)) && target.rows == Applied(old(target.rows), plan)
      ensures old(target.script) == [] && old(store.refusals) == [] ==>
        written == Ok((|plan.upserts|, |plan.tombstones|)) && target.script == [] && store.refusals == []
    {
      ghost var a, page := Abs(), Entries()[start..hi];
      P.ReachesSelf(a);
      written := ApplyPage(target, plan, page);
      if dry { return; }
      M.BrokenPageReaches(a, hi, sink.rows);
      assert Abs() == a.(sink := sink.rows);
      if written.Failed? { return; }
      var saved := store.Set(next);
      if saved.Failed? { return Failed; }
      M.PageReaches(a, hi);
      assert Abs() == a.(sink := Applied(a.sink, plan), stored := Some(next));
    }

    /** What a turn read, when it read something: the stretch, its plan and the report so far. */
    ghost predicate IsTurn(feed: seq<Entry<Out>>, turn: Turn<Out>, watermark: Pos, report: D.Report, start: nat,
        hi: nat) {
      && start == Rank(feed, watermark) && start < |feed| && hi == D.PageEnd(|feed|, start, batchSize)
      && turn.Read? && turn.plan == PlanOf(feed[start..hi])
      && turn.next == feed[hi - 1].at && turn.short == (hi - start < batchSize)
      && turn.report == report.(
           revisionsSeen := report.revisionsSeen + (hi - start),
           anomalies := report.anomalies + turn.plan.anomalies,
           skipped := D.AddSkips(report.skipped, turn.plan.skipped))
    }

    /** Planning the page just read. */
    method PlanRead(page: Page<Raw>, report: D.Report, ghost feed: seq<Entry<Out>>, ghost watermark: Pos,
        ghost start: nat, ghost hi: nat)
      returns (turn: Turn<Out>)
      requires IsPage(feed, page, watermark, start, hi) && hi == start + |page.items|
      ensures !turn.NoAnswer?
      ensures turn.NoneLeft? ==> start == |feed|
      ensures turn.Read? ==> IsTurn(feed, turn, watermark, report, start, hi)
    {
      if page.items == [] { return NoneLeft; }
      var plan := PlanPage(page.items, toOut);
      MakesTurn(feed, Judged(page.items, toOut), plan, page.nextCursor, watermark, report, start, hi);
      turn := Read(plan, page.nextCursor.value, |page.items| < batchSize, report.(
        revisionsSeen := report.revisionsSeen + |page.items|,
        anomalies := report.anomalies + plan.anomalies,
        skipped := D.AddSkips(report.skipped, plan.skipped)));
    }

    /** The first half of a turn of the drain's loop: read a page and plan it. */
    method ReadAndPlan(watermark: Pos, report: D.Report) returns (turn: Turn<Out>, ghost start: nat, ghost hi: nat)
      requires Fed()
      modifies client`feed, client`script
      ensures Fed() && P.FeedOk(Entries()) && P.Reaches(old(Abs()), Abs())
      ensures client.script == if old(client.script) == [] then [] else old(client.script)[1..]
      ensures old(client.script) == [] ==> client.feed == old(client.feed) && !turn.NoAnswer?
      ensures turn.NoneLeft? ==> Rank(Entries(), watermark) == |Entries()|
      ensures turn.Read? ==> IsTurn(Entries(), turn, watermark, report, start, hi)
    {
      var page;
      page, start := ReadPage(watermark);
      hi := 0;
      FedNow();
      if page.Failed? { return NoAnswer, start, hi; }
      hi := start + |page.value.items|;
      PageIs(client.feed, page.value, watermark, start, hi);
      turn := PlanRead(page.value, report, Entries(), watermark, start, hi);
    }

    lemma {:induction false} MakesTurn(feed: seq<Entry<Out>>, page: seq<Entry<Out>>, plan: Plan<Out>,
        next: Option<Pos>, watermark: Pos, report: D.Report, start: nat, hi: nat)
      requires start == Rank(feed, watermark) && start < hi <= |feed| && page == feed[start..hi] && plan == PlanOf(page)
      requires if start == |feed| then hi == start else hi == D.PageEnd(|feed|, start, batchSize)
      requires next == Some(feed[hi - 1].at)
      ensures IsTurn(feed, Read(plan, next.value, hi - start < batchSize, report.(
                revisionsSeen := report.revisionsSeen + (hi - start),
                anomalies := report.anomalies + plan.anomalies,
                skipped := D.AddSkips(report.skipped, plan.skipped))), watermark, report, start, hi)
    {
    }

    lemma {:induction false} FedNow()
      requires Fed()
      ensures P.FeedOk(Entries())
    {
      JudgedConcat(client.feed, Arriving(client.script), toOut);
      M.FeedOkPrefix(Entries(), Judged(Arriving(client.script), toOut));
    }

    /** An undisturbed turn is one step of the drain's specification. */
    ghost predicate Steps(feed: seq<Entry<Out>>, o: D.Outcome<Out>, end: PageEnd, next: D.Outcome<Out>) {
      match end
      case Broke => false
      case CaughtUp => o.at == |feed| && next == o
      case StalledAt(report) =>
        && o.at < |feed| && next == D.AfterPage(feed, o, D.PageEnd(|feed|, o.at, batchSize))
        && next.report == report && report.stalled
      case Advanced(report, watermark, short) =>
        && o.at < |feed| && next == D.AfterPage(feed, o, D.PageEnd(|feed|, o.at, batchSize))
        && next.report == report && !report.stalled
        && next.at == Rank(feed, watermark) && report.watermark == Some(watermark)
        && short == (next.at - o.at < batchSize)
    }

    lemma {:induction false} StallSteps(feed: seq<Entry<Out>>, turn: Turn<Out>, watermark: Pos, start: nat,
        hi: nat, o: D.Outcome<Out>)
      requires IsTurn(feed, turn, watermark, o.report, start, hi) && turn.plan.stalled && o.at == start
      ensures Steps(feed, o, StalledAt(turn.report.(stalled := true)), D.AfterPage(feed, o, hi))
    {
    }

    function Settled(turn: Turn<Out>, upserted: nat, tombstoned: nat): PageEnd
      requires turn.Read?
    {
      Advanced(turn.report.(
        upserted := turn.report.upserted + upserted,
        tombstoned := turn.report.tombstoned + tombstoned,
        pagesRead := turn.report.pagesRead + 1,
        watermark := Some(turn.next)), turn.next, turn.short)
    }

    lemma {:induction false} AdvanceSteps(feed: seq<Entry<Out>>, turn: Turn<Out>, watermark: Pos, start: nat,
        hi: nat, o: D.Outcome<Out>)
      requires Ordered(feed) && IsTurn(feed, turn, watermark, o.report, start, hi) && !turn.plan.stalled
          && o.at == start
      requires !o.report.stalled
      ensures Steps(feed, o, Settled(turn, |turn.plan.upserts|, |turn.plan.tombstones|), D.AfterPage(feed, o, hi))
      ensures D.AfterPage(feed, o, hi).sink == Applied(o.sink, turn.plan)
    {
      RankOfEntry(feed, hi - 1);
    }

    lemma {:induction false} TurnMoves(feed: seq<Entry<Out>>, turn: Turn<Out>, watermark: Pos, report: D.Report,
        start: nat, hi: nat)
      requires Ordered(feed) && IsTurn(feed, turn, watermark, report, start, hi)
      ensures start < Rank(feed, turn.next)
    {
      RankOfEntry(feed, hi - 1);
    }

    /** The second half of a turn: apply, checkpoint, report. */
    method SettleTurn(target: SyncSink<Out>, turn: Turn<Out>, dry: bool,
                      ghost watermark: Pos, ghost o: D.Outcome<Out>, ghost hi: nat)
      returns (end: PageEnd)
      requires P.Inv(Abs()) && IsTurn(Entries(), turn, watermark, o.report, o.at, hi)
      requires !turn.plan.stalled && !o.report.stalled
      requires if dry then !target.keeps && target != sink else target == sink && target.keeps && o.sink == target.rows
      requires !dry ==> store.value.Some? && ParseWatermark(store.value.value) == watermark
      modifies target, store
      ensures P.Reaches(old(Abs()), Abs()) && unchanged(client)
      ensures dry ==> store.value == old(store.value) && target.rows == old(target.rows)
      ensures end.Broke? || (end.Advanced? && end.watermark == turn.next && !end.report.stalled)
      ensures end.Advanced? ==> end.report.pagesRead == o.report.pagesRead + 1
      ensures end.Advanced? ==> end.report.watermark == Some(end.watermark)
      ensures end.Advanced? && !dry ==> store.value == Some(Position(end.watermark))
      ensures o.at < Rank(Entries(), turn.next)
      ensures old(target.script) == [] && old(store.refusals) == [] ==>
        && target.script == [] && store.refusals == [] && end.Advanced?
        && Steps(Entries(), o, end, D.AfterPage(Entries(), o, hi))
        && (!dry ==> target.rows == D.AfterPage(Entries(), o, hi).sink)
    {
      TurnMoves(Entries(), turn, watermark, o.report, o.at, hi);
      AdvanceSteps(Entries(), turn, watermark, o.at, hi, o);
      var written := SettlePage(target, turn.plan, turn.next, dry, o.at, hi);
      end := if written.Failed? then Broke else Settled(turn, written.value.0, written.value.1);
    }

    /** One turn of the drain's loop: read, plan, apply, checkpoint. */
    method OneTurn(target: SyncSink<Out>, watermark: Pos, report: D.Report, dry: bool, ghost sunk: map<Key, Out>)
      returns (end: PageEnd, ghost o: D.Outcome<Out>, ghost next: D.Outcome<Out>)
      requires P.Inv(Abs()) && Fed() && !report.stalled
      requires if dry then !target.keeps && target != sink else target == sink && target.keeps && sunk == target.rows
      requires !dry ==> store.value.Some? && ParseWatermark(store.value.value) == watermark
      modifies client`feed, client`script, target, store
      ensures P.Reaches(old(Abs()), Abs()) && Fed()
      ensures client.script == if old(client.script) == [] then [] else old(client.script)[1..]
      ensures old(client.script) == [] ==> client.feed == old(client.feed)
      ensures dry || end.StalledAt? || end.CaughtUp? ==>
          store.value == old(store.value) && target.rows == old(target.rows)
      ensures o == D.Outcome(Rank(Entries(), watermark), sunk, report)
      ensures end.StalledAt? ==>
        end.report.stalled && end.report.pagesRead == report.pagesRead && end.report.watermark == report.watermark
      ensures end.Advanced? ==>
        && !end.report.stalled && end.report.watermark == Some(end.watermark)
            && end.report.pagesRead == report.pagesRead + 1
        && o.at < Rank(Entries(), end.watermark)
        && (!dry ==> store.value == Some(Position(end.watermark)))
      ensures old(client.script) == [] && old(target.script) == [] && old(store.refusals) == [] ==>
        && target.script == [] && store.refusals == []
        && Steps(Entries(), o, end, next)
        && (end.Advanced? && !dry ==> target.rows == next.sink)
    {
      hide P.Inv, P.Reaches, P.FeedOk, PlanOf, Applied, D.AfterPage, D.PageEnd, Judged, Rank, Fed;
      ghost var a := Abs();
      var turn; ghost var start, hi;
      turn, start, hi := ReadAndPlan(watermark, report);
      o := D.Outcome(Rank(Entries(), watermark), sunk, report);
      next := o;
      if turn.NoAnswer? { return Broke, o, next; }
      if turn.NoneLeft? { return CaughtUp, o, next; }
      next := D.AfterPage(Entries(), o, hi);
      if turn.plan.stalled {
        StallSteps(Entries(), turn, watermark, start, hi, o);
        return StalledAt(turn.report.(stalled := true)), o, next;
      }
      ghost var b := Abs();
      P.ReachesKeepsInv(a, b);
      end := SettleTurn(target, turn, dry, watermark, o, hi);
      P.ReachesTransitive(a, b, Abs());
    }

    // ---- the drain ----

    /** The loop against its specification, as long as nothing disturbs it. */
    ghost predicate OnTrack(feed: seq<Entry<Out>>, begin: D.Outcome<Out>, o: D.Outcome<Out>, running: bool) {
      && begin.at <= |feed| && o.at <= |feed|
      && D.Run(feed, begin, batchSize) == if running then D.Run(feed, o, batchSize) else o
    }

    lemma {:induction false} StaysOnTrack(feed: seq<Entry<Out>>, begin: D.Outcome<Out>, o: D.Outcome<Out>,
        end: PageEnd, next: D.Outcome<Out>)
      requires OnTrack(feed, begin, o, true) && Steps(feed, o, end, next) && !o.report.stalled
      ensures !end.Broke? && OnTrack(feed, begin, next, end.Advanced? && !end.short)
      ensures end.CaughtUp? ==> next == o
      ensures end.StalledAt? || end.Advanced? ==> next.report == end.report
      ensures end.Advanced? ==> next.at == Rank(feed, end.watermark)
      ensures end.StalledAt? ==> next.sink == o.sink
    {
    }

    /** A stalled first page leaves the stored value as it was found, legacy form included;
        every other run ends on a position. */
    function StoredAfter(stored: Stored, report: D.Report): Option<Stored> {
      if report.stalled && report.pagesRead == 0 then Some(stored)
      else match report.watermark case None => Some(stored) case Some(p) => Some(Position(p))
    }

    ghost function Drained(stored: Stored): (end: D.Outcome<Out>)
      reads this, client, sink
    {
      DrainOf(client.feed, sink.rows, stored)
    }

    ghost function DrainOf(feed: seq<Revision<Raw>>, rows: map<Key, Out>, stored: Stored): D.Outcome<Out> {
      var es, p := Judged(feed, toOut), ParseWatermark(stored);
      D.Run(es, D.Begin(Rank(es, p), rows, p), batchSize)
    }

    /** The report of an undisturbed drain, told by the feed: what each counter counted on the stretch
        from the stored position to where the run stopped. */
    ghost predicate Tells(feed: seq<Revision<Raw>>, rows: map<Key, Out>, stored: Stored, dry: bool, report: D.Report) {
      var es, p, at := Judged(feed, toOut), ParseWatermark(stored), DrainOf(feed, rows, stored).at;
      && Rank(es, p) <= at <= |es|
      && D.Counts(D.Report(D.Incremental, 0, 0, Some(p), 0, false, 0, 0, !dry, Skipped(0, 0, 0)),
                  D.Tallied(es, Rank(es, p), at, batchSize), report)
      && (report.stalled ==> at < |es|)
      && report.revisionsSeen == at - Rank(es, p) + (if report.stalled then D.PageEnd(|es|, at, batchSize) - at else 0)
      && report.anomalies == (if report.stalled then 1 else 0)
      && report.skipped.nullPostImage == (if report.stalled then 1 else 0)
    }

    /** What an undisturbed drain leaves stored: the position of the last revision it passed, or the one
        it began at - but a value it stalled on straight away is left as it was found. */
    ghost predicate Leaves(feed: seq<Revision<Raw>>, rows: map<Key, Out>, stored: Stored, value: Option<Stored>) {
      var es, p, end := Judged(feed, toOut), ParseWatermark(stored), DrainOf(feed, rows, stored);
      if end.at > Rank(es, p) then end.at <= |es| && value == Some(Position(es[end.at - 1].at))
      else value == Some(if end.report.stalled then stored else Position(p))
    }

    lemma {:induction false} DrainLeaves(feed: seq<Revision<Raw>>, rows: map<Key, Out>, stored: Stored, dry: bool)
      ensures Leaves(feed, rows, stored, StoredAfter(stored, DrainOf(feed, rows, stored).report.(applied := !dry)))
    {
      hide D.Run;
      var es, p := Judged(feed, toOut), ParseWatermark(stored);
      D.RunWatermark(es, D.Begin(Rank(es, p), rows, p), batchSize);
    }

    lemma {:induction false} DrainTells(feed: seq<Revision<Raw>>, rows: map<Key, Out>, stored: Stored, dry: bool)
      ensures Tells(feed, rows, stored, dry, DrainOf(feed, rows, stored).report.(applied := !dry))
    {
      hide D.Run, D.Tallied;
      var es, p := Judged(feed, toOut), ParseWatermark(stored);
      D.RunCounts(es, D.Begin(Rank(es, p), rows, p), batchSize);
      D.RunAccounts(es, D.Begin(Rank(es, p), rows, p), batchSize);
    }

    method Incremental(stored: Stored, dry: bool) returns (result: Result<D.Report>)
      requires P.Inv(Abs()) && Fed() && sink.keeps && store.value == Some(stored)
      modifies client`feed, client`script, sink, store
      ensures P.Reaches(old(Abs()), Abs()) && Fed()
      ensures dry ==> sink.rows == old(sink.rows) && store.value == old(store.value)
      ensures old(Quiet()) ==>
        && Quiet() && client.feed == old(client.feed)
        && result == Ok(old(Drained(stored)).report.(applied := !dry))
        && Tells(client.feed, old(sink.rows), stored, dry, result.value)
        && (!dry ==> sink.rows == old(Drained(stored)).sink && store.value == StoredAfter(stored, result.value))
        && (!dry ==> Leaves(client.feed, old(sink.rows), stored, store.value))
    {
      hide P.Inv, P.Reaches, P.FeedOk, Fed, D.Run, Judged, Rank, Steps, Tells, Leaves;
      DrainTells(client.feed, sink.rows, stored, dry);
      DrainLeaves(client.feed, sink.rows, stored, dry);
      var target := sink;
      if dry { target := new SyncSink.Counting(); }
      var watermark := ParseWatermark(stored);
      var report := D.Report(D.Incremental, 0, 0, Some(watermark), 0, false, 0, 0, true, NoSkips());
      var running := true;
      ghost var a := Abs();
      ghost var begin := D.Begin(Rank(Entries(), watermark), sink.rows, watermark);
      ghost var o, quiet, feed := begin, Quiet(), client.feed;
      P.ReachesSelf(a);
      while running
        invariant P.Reaches(a, Abs()) && P.Inv(Abs()) && Fed()
        invariant if dry then !target.keeps && target != sink && fresh(target) else target == sink
        invariant dry ==> sink.rows == old(sink.rows) && sink.script == old(sink.script) && store.value == Some(stored)
        invariant !dry ==> store.value == Some(if report.pagesRead == 0 then stored else Position(watermark))
        invariant ParseWatermark(if report.pagesRead == 0 then stored else Position(watermark)) == watermark
        invariant report.watermark == Some(watermark)
        invariant running ==> !report.stalled
        invariant quiet ==> client.script == [] && client.feed == feed && target.script == [] && store.refusals == []
        invariant quiet ==>
          OnTrack(Entries(), begin, o, running) && o.report == report && (!dry ==> target.rows == o.sink)
        invariant quiet && running ==> o.at == Rank(Entries(), watermark)
        decreases |client.script|, |client.feed| - Rank(Entries(), watermark), running
      {
        var end;
        ghost var from, next, b, sunk := o, o, Abs(), if dry then o.sink else sink.rows;
        end, from, next := OneTurn(target, watermark, report, dry, sunk);
        P.ReachesTransitive(a, b, Abs());
        P.ReachesKeepsInv(b, Abs());
        if quiet { StaysOnTrack(Entries(), begin, from, end, next); }
        match end {
          case Broke => return Failed;
          case CaughtUp => running := false;
          case StalledAt(r) => report, running := r, false;
          case Advanced(r, w, short) => report, watermark, running := r, w, !short;
        }
        o := next;
      }
      if !report.stalled && !dry {
        var saved := store.Set(watermark);
        if saved.Failed? { return Failed; }
      }
      result := Ok(report.(applied := !dry));
    }

    // ---- the snapshot ----

    /** What a snapshot needs of the export: an image of some front of the feed - what follows was
        committed while the stream ran - under a map that does not look at how a record changed. */
    ghost predicate Exports()
      reads client
    {
      && client.imaged <= |client.feed|
      && S.IsImage(client.image, client.feed[..client.imaged])
      && S.ImageBlind(client.image, client.feed[..client.imaged], toOut)
    }

    ghost function Imaged(): seq<Entry<Out>>
      requires client.imaged <= |client.feed|
      reads client
    {
      Entries()[..client.imaged]
    }

    /** One flush: the two buffers go to the sink, and the stream is applied up to `hi`. */
    method Flush(target: SyncSink<Out>, upserts: seq<(Key, Out)>, tombstones: seq<Key>, ghost rows: map<Key, Out>,
                 ghost es: seq<Entry<Out>>, ghost page: seq<Entry<Out>>, ghost lo: nat, ghost hi: nat)
      returns (written: Result<(nat, nat)>)
      requires lo <= hi <= |es| && S.OneEach(es) && S.SaysLast(es, page)
      requires upserts == PlanOf(es[lo..hi]).upserts && tombstones == PlanOf(es[lo..hi]).tombstones
      requires M.PartlyApplied(rows, target.rows, page)
      requires target.rows == if target.keeps then Fold(rows, es[..lo]) else rows
      modifies target
      ensures M.PartlyApplied(rows, target.rows, page)
      ensures !target.keeps ==> target.rows == rows
      ensures written.Ok? ==> target.rows == if target.keeps then Fold(rows, es[..hi]) else rows
      ensures old(target.script) == [] ==> written == Ok((|upserts|, |tombstones|)) && target.script == []
    {
      ghost var before := target.rows;
      written := ApplyPage(target, Plan(upserts, tombstones, 0, false, NoSkips()), es[lo..hi]);
      S.ChunkIsPartly(before, target.rows, es, lo, hi, page);
      M.PartlyTransitive(rows, before, target.rows, page);
      S.FlushFolds(before, es[lo..hi]);
      assert es[..hi] == es[..lo] + es[lo..hi];
      S.FoldConcat(rows, es[..lo], es[lo..hi]);
    }

    /** Where the export loop stands after `i` records, of which those from `lo` are buffered. */
    ghost predicate Taken(es: seq<Entry<Out>>, lo: nat, i: nat, upserts: seq<(Key, Out)>, tombstones: seq<Key>,
        pages: nat, dropped: nat) {
      && lo <= i <= |es|
      && upserts == PlanOf(es[lo..i]).upserts && tombstones == PlanOf(es[lo..i]).tombstones
      && S.Buffered(es[..i], batchSize) == S.Buffers(pages, |upserts|, |tombstones|)
      && dropped == Drops(es[..i])
    }

    lemma {:induction false} TakeOne(es: seq<Entry<Out>>, lo: nat, i: nat, upserts: seq<(Key, Out)>,
        tombstones: seq<Key>, pages: nat, dropped: nat,
                                     upserts': seq<(Key, Out)>, tombstones': seq<Key>)
      requires S.OneEach(es) && Taken(es, lo, i, upserts, tombstones, pages, dropped) && i < |es|
      requires upserts' == upserts + if es[i].verdict.Upsert? then [(es[i].key, es[i].verdict.out)] else []
      requires tombstones' == tombstones + if es[i].verdict.Tombstone? then [es[i].key] else []
      ensures upserts' == PlanOf(es[lo..i + 1]).upserts && tombstones' == PlanOf(es[lo..i + 1]).tombstones
      ensures var dropped' := dropped + if es[i].verdict.Drop? then 1 else 0;
        if |upserts'| >= batchSize || |tombstones'| >= batchSize
        then Taken(es, i + 1, i + 1, [], [], pages + 1, dropped')
        else Taken(es, lo, i + 1, upserts', tombstones', pages, dropped')
    {
      TakeCounts(es, i);
      assert es[lo..i + 1] == es[lo..i] + [es[i]];
      S.BufferStep(es[lo..i], es[i]);
      assert es[i + 1..i + 1] == [];
      EmptyPlan();
      hide PlanOf, S.Buffered, Drops, S.OneEach;
    }

    lemma {:induction false} TakenAll(es: seq<Entry<Out>>, lo: nat, upserts: seq<(Key, Out)>, tombstones: seq<Key>,
        pages: nat, dropped: nat)
      requires Taken(es, lo, |es|, upserts, tombstones, pages, dropped)
      ensures es[..|es|] == es && S.Buffered(es, batchSize).pages == pages && Drops(es) == dropped
    {
    }

    static lemma {:induction false} EmptyPlan()
      ensures PlanOf<Out>([]).upserts == [] && PlanOf<Out>([]).tombstones == []
    {
    }

    lemma {:induction false} TakeCounts(es: seq<Entry<Out>>, i: nat)
      requires i < |es|
      ensures var b, v := S.Buffered(es[..i], batchSize), es[i].verdict;
        var u, t := b.upserts + (if v.Upsert? then 1 else 0), b.tombstones + (if v.Tombstone? then 1 else 0);
        S.Buffered(es[..i + 1], batchSize)
          == if u >= batchSize || t >= batchSize then S.Buffers(b.pages + 1, 0, 0) else S.Buffers(b.pages, u, t)
      ensures Drops(es[..i + 1]) == Drops(es[..i]) + if es[i].verdict.Drop? then 1 else 0
    {
      assert es[..i + 1][..i] == es[..i];
    }

    lemma {:induction false} CountOne(es: seq<Entry<Out>>, i: nat)
      requires i < |es|
      ensures S.Ups(es[..i + 1]) == S.Ups(es[..i]) + if es[i].verdict.Upsert? then 1 else 0
      ensures S.Downs(es[..i + 1]) == S.Downs(es[..i]) + if es[i].verdict.Tombstone? then 1 else 0
    {
      assert es[..i + 1][..i] == es[..i];
    }

    /** One record into its buffer. */
    method Take(rec: S.Record<Raw>, upserts: seq<(Key, Out)>, tombstones: seq<Key>, dropped: nat,
                ghost es: seq<Entry<Out>>, ghost lo: nat, ghost i: nat, ghost pages: nat)
      returns (upserts': seq<(Key, Out)>, tombstones': seq<Key>, dropped': nat)
      requires S.OneEach(es) && Taken(es, lo, i, upserts, tombstones, pages, dropped) && i < |es|
      requires es[i] == Entry(rec.key, S.JudgeRecord(rec, toOut), Pos(rec.updatedAt, 0))
      ensures upserts' == PlanOf(es[lo..i + 1]).upserts && tombstones' == PlanOf(es[lo..i + 1]).tombstones
      ensures if |upserts'| >= batchSize || |tombstones'| >= batchSize
              then Taken(es, i + 1, i + 1, [], [], pages + 1, dropped')
              else Taken(es, lo, i + 1, upserts', tombstones', pages, dropped')
      ensures |upserts'| - |upserts| == S.Ups(es[..i + 1]) - S.Ups(es[..i])
      ensures |tombstones'| - |tombstones| == S.Downs(es[..i + 1]) - S.Downs(es[..i])
    {
      hide Taken, PlanOf, S.OneEach, S.JudgeRecord, S.Ups, S.Downs;
      upserts', tombstones', dropped' := upserts, tombstones, dropped;
      var verdict := S.JudgeRecord(rec, toOut);
      if verdict.Upsert? {
        upserts' := upserts + [(rec.key, verdict.out)];
      } else if verdict.Tombstone? {
        tombstones' := tombstones + [rec.key];
      } else {
        dropped' := dropped + 1;
      }
      TakeOne(es, lo, i, upserts, tombstones, pages, dropped, upserts', tombstones');
      CountOne(es, i);
    }

    /** The export loop: buffer each record, flush when either buffer fills, flush what is left. */
    method StreamAll(target: SyncSink<Out>) returns (result: Result<D.Report>)
      requires Exports()
      modifies target
      ensures M.PartlyApplied(old(target.rows), target.rows, Imaged())
      ensures !target.keeps ==> target.rows == old(target.rows)
      ensures result.Ok? && target.keeps ==> target.rows == Fold(old(target.rows), S.Streamed(client.image, toOut))
      ensures result.Ok? ==> result.value.watermark == S.Position(client.image)
      ensures old(target.script) == [] && client.cut.None? ==>
        result == Ok(S.Report(client.image, toOut, batchSize)) && target.script == []
    {
      hide PlanOf, Fold, Drops, Judged, M.PartlyApplied, Taken, S.Ups, S.Downs, S.Buffered, S.JudgeRecord,
           S.IsImage, S.ImageBlind, S.OneEach, S.SaysLast, S.Streamed;
      ghost var es, page, rows, quiet := S.Streamed(client.image, toOut), Imaged(), target.rows, target.script == [];
      FrontIs(client.feed, client.imaged);
      S.StreamedImage(client.image, client.feed[..client.imaged], toOut);
      var i: nat, pages: nat, dropped: nat, upserted: nat, tombstoned: nat := 0, 0, 0, 0, 0;
      var upserts: seq<(Key, Out)>, tombstones: seq<Key>, newest := [], [], None;
      ghost var lo: nat := 0;
      NothingTaken(es, rows, page);
      while i < |client.image|
        invariant lo <= i <= |es|
        invariant Taken(es, lo, i, upserts, tombstones, pages, dropped)
        invariant upserts == PlanOf(es[lo..i]).upserts && tombstones == PlanOf(es[lo..i]).tombstones
        invariant newest == S.NewestStamp(client.image[..i])
        invariant M.PartlyApplied(rows, target.rows, page)
        invariant target.rows == if target.keeps then Fold(rows, es[..lo]) else rows
        invariant quiet ==> target.script == []
        invariant quiet ==> upserted + |upserts| == S.Ups(es[..i]) && tombstoned + |tombstones| == S.Downs(es[..i])
      {
        if client.cut == Some(i) { return Failed; }
        var rec := client.image[i];
        newest := Some(if newest.None? || rec.updatedAt > newest.value then rec.updatedAt else newest.value);
        S.NewestStampStep(client.image, i);
        upserts, tombstones, dropped := Take(rec, upserts, tombstones, dropped, es, lo, i, pages);
        i := i + 1;
        if |upserts| >= batchSize || |tombstones| >= batchSize {
          var n := Flush(target, upserts, tombstones, rows, es, page, lo, i);
          if n.Failed? { return Failed; }
          assert es[i..i] == [];
          EmptyPlan();
          upserted, tombstoned, pages := upserted + n.value.0, tombstoned + n.value.1, pages + 1;
          upserts, tombstones, lo := [], [], i;
        }
      }
      var n := Flush(target, upserts, tombstones, rows, es, page, lo, i);
      if n.Failed? { return Failed; }
      assert client.image[..i] == client.image;
      TakenAll(es, lo, upserts, tombstones, pages, dropped);
      var position := match newest case None => None case Some(stamp) => Some(Pos(stamp, 0));
      result := Ok(D.Report(D.Snapshot, upserted + n.value.0, tombstoned + n.value.1, position, 0, false,
                            pages + 1, i, true, NoSkips().(droppedByMap := dropped)));
    }

    lemma {:induction false} NothingTaken(es: seq<Entry<Out>>, rows: map<Key, Out>, page: seq<Entry<Out>>)
      ensures Taken(es, 0, 0, [], [], 0, 0) && es[..0] == [] && es[0..0] == []
      ensures S.Ups(es[..0]) == 0 && S.Downs(es[..0]) == 0
      ensures M.PartlyApplied(rows, rows, page) && Fold(rows, es[..0]) == rows
    {
    }

    function StoredPosition(p: Option<Pos>): Option<Stored> {
      if p.None? then None else Some(Position(p.value))
    }

    /** A cold start: stream the export into the sink, then store the oldest position at or below
        the newest record. A stream or a sink that breaks leaves a restartable mirror. */
    method Snapshot(dry: bool) returns (result: Result<D.Report>)
      requires P.Inv(Abs()) && sink.keeps && store.value.None? && Exports()
      modifies this`base, sink, store
      ensures P.Reaches(old(Abs()), Abs())
      ensures dry ==> sink.rows == old(sink.rows) && store.value == old(store.value) && base == old(base)
      ensures result.Ok? && !dry ==> sink.rows == Fold(old(sink.rows), S.Streamed(client.image, toOut))
      ensures result.Ok? && !dry ==> store.value == StoredPosition(S.Position(client.image))
      ensures old(Quiet()) && client.cut.None? ==>
        Quiet() && result == Ok(S.Report(client.image, toOut, batchSize).(applied := !dry))
    {
      hide P.Inv, P.Reaches, Judged, S.Report, Fold, S.Streamed, Rank, S.NewestStamp;
      var target := sink;
      if dry { target := new SyncSink.Counting(); }
      ghost var a := Abs();
      P.ReachesSelf(a);
      var report := StreamAll(target);
      if !dry { StreamBroken(a, client.image, client.feed, client.imaged, sink.rows); }
      if report.Failed? { return Failed; }
      if report.value.watermark.Some? && !dry {
        var position := report.value.watermark.value;
        var saved := store.Set(position);
        if saved.Failed? { return Failed; }
        StreamStored(a, client.image, client.feed, client.imaged, sink.rows, position);
        base := Rank(Entries(), position);
      }
      result := Ok(report.value.(applied := !dry));
    }

    lemma {:induction false} FrontIs(feed: seq<Revision<Raw>>, n: nat)
      requires n <= |feed|
      ensures Judged(feed, toOut)[..n] == Judged(feed[..n], toOut)
    {
      JudgedSlice(feed, 0, n, toOut);
      assert feed[0..n] == feed[..n] && Judged(feed, toOut)[0..n] == Judged(feed, toOut)[..n];
    }

    lemma {:induction false} StreamBroken(a: P.State<Out>, records: seq<S.Record<Raw>>, revs: seq<Revision<Raw>>,
        n: nat, rows: map<Key, Out>)
      requires n <= |revs| && S.IsImage(records, revs[..n]) && a.feed == Judged(revs, toOut)
      requires a.phase.Idle? && a.stored.None? && M.PartlyApplied(a.sink, rows, a.feed[..n])
      ensures P.Reaches(a, a.(sink := rows))
    {
      FrontIs(revs, n);
      S.ImageIsImageable(records, revs[..n], toOut);
      M.BrokenSnapshotReaches(a, n, rows);
    }

    lemma {:induction false} StreamStored(a: P.State<Out>, records: seq<S.Record<Raw>>, revs: seq<Revision<Raw>>,
        n: nat, rows: map<Key, Out>, p: Pos)
      requires n <= |revs| && S.IsImage(records, revs[..n]) && S.ImageBlind(records, revs[..n], toOut)
      requires a.feed == Judged(revs, toOut) && P.Inv(a)
      requires a.phase.Idle? && a.stored.None? && M.PartlyApplied(a.sink, rows, a.feed[..n])
      requires rows == Fold(a.sink, S.Streamed(records, toOut)) && S.Position(records) == Some(p)
      ensures P.Reaches(a, a.(sink := rows, stored := Some(p), base := Rank(a.feed, p)))
    {
      hide P.Reaches, Fold, Judged, S.IsImage, S.ImageBlind;
      var es := S.Streamed(records, toOut);
      FrontIs(revs, n);
      S.ImageIsImageable(records, revs[..n], toOut);
      S.StreamedImage(records, revs[..n], toOut);
      forall k | k in P.Writers(a.feed[..n]) ensures Get(rows, k) == Planned(None, a.feed[..n], k) {
        S.StreamLands(a.sink, es, a.feed[..n], k);
      }
      StampsRise(revs);
      S.NewestStampIsBehind(records, revs[..n]);
      M.SnapshotReaches(a, n, rows, p);
    }

    lemma {:induction false} StampsRise(revs: seq<Revision<Raw>>)
      requires Ordered(Judged(revs, toOut))
      ensures forall i, j :: 0 <= i < j < |revs| ==> Before(revs[i].at, revs[j].at)
    {
    }

    // ---- a run ----

    /** The report a run that nothing disturbs returns. */
    ghost function Expected(): D.Report
      reads this, client, sink, store
    {
      ReportOf(client.feed, client.image, sink.rows, store.value)
    }

    ghost function ReportOf(feed: seq<Revision<Raw>>, image: seq<S.Record<Raw>>, rows: map<Key, Out>,
        stored: Option<Stored>): D.Report {
      match stored
      case None => S.Report(image, toOut, batchSize)
      case Some(s) => DrainOf(feed, rows, s).report
    }

    /** One cycle: a snapshot on a cold start, else a drain. */
    method Run(dry: bool) returns (result: Result<D.Report>)
      requires P.Inv(Abs()) && Fed() && sink.keeps && (store.value.None? ==> Exports())
      modifies this`base, client`feed, client`script, sink, store
      ensures P.Inv(Abs()) && P.Reaches(old(Abs()), Abs()) && Fed()
      ensures dry ==> sink.rows == old(sink.rows) && store.value == old(store.value) && base == old(base)
      ensures old(Quiet()) && client.cut.None? ==>
        && Quiet() && client.feed == old(client.feed)
        && result == Ok(old(Expected()).(applied := !dry))
      ensures old(Quiet()) && client.cut.None? && !dry ==>
        match old(store.value)
        case Some(stored) =>
          && sink.rows == old(Drained(stored)).sink && store.value == StoredAfter(stored, old(Expected()))
          && Tells(client.feed, old(sink.rows), stored, dry, result.value)
          && Leaves(client.feed, old(sink.rows), stored, store.value)
        case None =>
          && sink.rows == Fold(old(sink.rows), S.Streamed(client.image, toOut))
          && store.value == StoredPosition(S.Position(client.image))
    {
      hide P.Inv, P.Reaches, S.Report, Fold, S.Streamed, Rank, S.Position, DrainOf, Exports, Judged, Fed, Tells, Leaves;
      ghost var a := Abs();
      match store.value {
        case None => result := Snapshot(dry);
        case Some(stored) => result := Incremental(stored, dry);
      }
      P.ReachesKeepsInv(a, Abs());
    }

    /** A dry run previews the real one: run one after the other over the same feed, position and
        an acknowledging sink, the dry run writes nothing and the two reports differ in `applied`
        alone. */
    method PreviewThenRun() returns (preview: Result<D.Report>, actual: Result<D.Report>)
      requires P.Inv(Abs()) && Fed() && sink.keeps && (store.value.None? ==> Exports())
      requires Quiet() && client.cut.None?
      modifies this`base, client`feed, client`script, sink, store
      ensures preview.Ok? && actual.Ok? && actual.value == preview.value.(applied := true)
      ensures preview.value.applied == false
      ensures P.Reaches(old(Abs()), Abs())
    {
      hide P.Inv, P.Reaches, ReportOf, Exports, Fed, Judged;
      preview := Run(true);
      ghost var a := Abs();
      actual := Run(false);
    }

    /** The server commits more revisions. */
    method Commit(more: seq<Revision<Raw>>)
      requires P.Inv(Abs()) && Quiet() && P.FeedOk(Judged(client.feed + more, toOut))
      modifies client`feed
      ensures client.feed == old(client.feed) + more
      ensures P.Inv(Abs()) && P.Reaches(old(Abs()), Abs()) && Fed()
    {
      ghost var a := Abs();
      client.feed := client.feed + more;
      assert client.feed + [] == client.feed;
      FeedGrew(a, old(client.feed), more, [], toOut);
      P.ReachesKeepsInv(a, Abs());
    }

    /** Nothing in the feed stops a drain that starts at the export's newest stamp. */
    ghost predicate Clear(feed: seq<Revision<Raw>>, image: seq<S.Record<Raw>>) {
      S.NewestStamp(image).Some? ==>
        forall i :: 0 <= i < |feed| && feed[i].at.stamp >= S.NewestStamp(image).value ==>
            !Judge(feed[i], toOut).Anomaly?
    }

    /** The handoff loses nothing: a snapshot, whatever a crashed earlier one left in the sink,
        then a drain from its position yields the fold of the whole feed - the revisions the
        server committed in between included, also those sharing the snapshot's stamp. */
    method ColdStart(more: seq<Revision<Raw>>) returns (snapshot: Result<D.Report>, drain: Result<D.Report>)
      requires P.Inv(Abs()) && Fed() && sink.keeps && store.value.None? && Exports() && client.image != []
      requires Quiet() && client.cut.None? && batchSize <= D.SERVER_PAGE_CAP
      requires P.FeedOk(Judged(client.feed + more, toOut)) && Clear(client.feed + more, client.image)
      modifies this`base, client`feed, client`script, sink, store
      ensures client.feed == old(client.feed) + more
      ensures snapshot.Ok? && drain.Ok? && !drain.value.stalled
      ensures sink.rows == Fold(map[], Entries())
      ensures P.Inv(Abs()) && Abs().Done() == |Entries()|
    {
      hide P.Inv, P.Reaches, P.FeedOk, Exports, Fed, DrainOf, Clear, Judged, Fold, Rank, Ordered,
           S.Report, S.NewestStamp, S.Streamed;
      snapshot := Run(false);
      Commit(more);
      ghost var stored, feed, rows := store.value.value, client.feed, sink.rows;
      drain := Run(false);
      InvOrders(Abs());
      DrainFinishes(feed, rows, stored, client.image);
      assert drain.value == DrainOf(feed, rows, stored).report.(applied := true);
      assert Abs().stored == drain.value.watermark;
      NothingLeft(Abs());
    }

    static lemma {:induction false} InvOrders(s: P.State<Out>)
      requires P.Inv(s)
      ensures Ordered(s.feed)
    {
    }

    static lemma {:induction false} NothingLeft(s: P.State<Out>)
      requires P.Inv(s) && s.stored.Some? && Rank(s.feed, s.stored.value) == |s.feed|
      ensures s.Done() == |s.feed| && s.sink == Fold(map[], s.feed)
    {
      P.CaughtUpIsExact(s);
    }

    lemma {:induction false} DrainFinishes(feed: seq<Revision<Raw>>, rows: map<Key, Out>, stored: Stored,
        image: seq<S.Record<Raw>>)
      requires Ordered(Judged(feed, toOut)) && S.Position(image) == Some(ParseWatermark(stored)) && Clear(feed, image)
      requires batchSize <= D.SERVER_PAGE_CAP
      ensures var end, es := DrainOf(feed, rows, stored), Judged(feed, toOut);
        && !end.report.stalled && end.report.watermark.Some?
        && Rank(es, end.report.watermark.value) == |es|
    {
      var es, p := Judged(feed, toOut), ParseWatermark(stored);
      var o := D.Begin(Rank(es, p), rows, p);
      forall i | o.at <= i < |es| ensures !es[i].verdict.Anomaly? {
        S.TokenRereadsItsStamp(es, p.stamp, i);
      }
      D.SliceAnomaly(es, o.at, |es|);
      D.OneRunDrainsAll(es, o, batchSize);
      D.RunPosition(es, o, batchSize);
    }

    // ---- what any history of runs leaves ----

    /** Crash safety of the mirror itself: however many runs, crashes and commits lie behind it, a
        key with no revision past the stored position has its folded value in the sink. */
    lemma {:induction false} SafeNow(start: P.State<Out>, key: Key)
      requires P.Init(start) && P.Reaches(start, Abs()) && store.value.Some?
      requires forall e :: e in Entries() && e.key == key ==> !Before(ParseWatermark(store.value.value), e.at)
      ensures var applied := Rank(Entries(), ParseWatermark(store.value.value));
        Get(sink.rows, key) == Get(Fold(map[], Entries()[..applied]), key)
    {
      P.CrashSafe(start, Abs(), ParseWatermark(store.value.value), key);
    }

    /** Stall safety of the mirror itself: the stored position stays in front of every revision
        without a post-image that the snapshot's position had not passed. */
    lemma {:induction false} StalledNow(start: P.State<Out>, i: nat)
      requires P.Init(start) && P.Reaches(start, Abs()) && store.value.Some?
      requires base <= i < |client.feed| && Judge(client.feed[i], toOut).Anomaly?
      ensures Before(ParseWatermark(store.value.value), client.feed[i].at)
    {
      P.NeverPastAnomaly(start, Abs(), i);
    }

    // ---- the read-only question ----

    /** What a run would face, without facing it. With nothing in between, a mirror is up to date
        exactly when nothing lies past its position, and what is pending is what the first page
        of a run would hold. */
    method Status() returns (status: Result<SyncStatus>)
      requires P.Inv(Abs()) && Fed()
      modifies client`feed, client`script
      ensures P.Reaches(old(Abs()), Abs()) && Fed()
      ensures status.Ok? ==>
        status.value.watermark == store.value && (status.value.mode.Snapshot? <==> store.value.None?)
      ensures old(client.script) == [] ==> client.script == [] && client.feed == old(client.feed) && status.Ok?
      ensures status.Ok? && store.value.None? ==> !status.value.upToDate && status.value.pendingAtLeast.None?
      ensures old(client.script) == [] && store.value.Some? ==>
        var at, all := Rank(Entries(), ParseWatermark(store.value.value)), |Entries()|;
        && status.value.newestRevisionAt == (if all == 0 then None else Some(client.feed[all - 1].at.stamp))
        && status.value.lagSeconds == (if all == 0 then None
             else Some(FeedLagSeconds(ParseWatermark(store.value.value).stamp, client.feed[all - 1].at.stamp)))
        && (status.value.upToDate <==> at == all)
        && status.value.pendingAtLeast == Some(if at == all then 0 else D.PageEnd(all, at, batchSize) - at)
    {
      hide P.Inv, P.Reaches, P.FeedOk, Judged, Rank, FeedLagSeconds;
      ghost var a, before := Abs(), client.feed;
      var newest := client.Head();
      ghost var added := Arriving(old(client.script)[..|old(client.script)| - |client.script|]);
      FeedGrew(a, before, added, Arriving(client.script), toOut);
      assert Abs() == a.(feed := Judged(before + added, toOut));
      if newest.Failed? { return Failed; }
      if store.value.None? {
        return Ok(SyncStatus(D.Snapshot, None, newest.value, None, false, None));
      }
      var position := ParseWatermark(store.value.value);
      ghost var b := Abs();
      var probe; ghost var start;
      probe, start := ReadPage(position);
      P.ReachesTransitive(a, b, Abs());
      if probe.Failed? { return Failed; }
      var pending := |probe.value.items|;
      var lag := if newest.value.None? then None else Some(FeedLagSeconds(position.stamp, newest.value.value));
      FedNow();
      NothingPending(client.feed, probe.value, position, start, newest.value);
      var upToDate := pending == 0 && (lag.None? || lag.value == 0);
      status := Ok(SyncStatus(D.Incremental, store.value, newest.value, lag, upToDate, Some(pending)));
    }

    lemma {:induction false} NothingPending(feed: seq<Revision<Raw>>, page: Page<Raw>, position: Pos, start: nat,
        newest: Option<int>)
      requires P.FeedOk(Judged(feed, toOut)) && Serves(feed, page, position, batchSize, start)
      ensures start == Rank(Judged(feed, toOut), position) <= |feed|
      ensures |page.items| == if start == |feed| then 0 else D.PageEnd(|feed|, start, batchSize) - start
      ensures start == |feed| && feed != [] && newest == Some(feed[|feed| - 1].at.stamp) ==>
        FeedLagSeconds(position.stamp, newest.value) == 0
    {
      RankIs(Judged(feed, toOut), position, start);
      assert |Judged(feed, toOut)| == |feed|;
    }
  }
}
