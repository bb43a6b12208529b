/** The cursor walk over the durable event log: the page the server answers (events.rs,
    storage.rs) and the `subscribe` loop of both clients. */
module EventLog {
  import opened Wrappers

  datatype Event = Event(seqNo: nat, kind: string, app: string, payload: string)

  /** The caller's optional filters. */
  datatype Filter = Filter(kind: Option<string>, app: Option<string>)

  const DEFAULT_PAGE: nat := 100
  const MAX_LOG_PAGE: nat := 500

  /** A limit that is missing or zero is not sent. */
  function PageSize(limit: Option<nat>): (n: nat)
    ensures n >= 1
  {
    if limit.None? || limit.value == 0 then DEFAULT_PAGE
    else if limit.value > MAX_LOG_PAGE then MAX_LOG_PAGE else limit.value
  }

  /** A filter that is missing or empty is not sent. */
  function Sent(f: Option<string>): Option<string> { if f == Some("") then None else f }

  predicate Wanted(e: Event, f: Filter) {
    (Sent(f.kind).None? || e.kind == f.kind.value) && (Sent(f.app).None? || e.app == f.app.value)
  }

  /** A page holds a hundred events, or as many as asked for, up to five hundred. */
  lemma {:induction false} PageSizeIs(n: nat)
    ensures PageSize(None) == 100 && PageSize(Some(0)) == 100
    ensures n > 0 ==> PageSize(Some(n)) <= 500 && PageSize(Some(n)) <= n
    ensures n > 0 ==> PageSize(Some(n)) == n || PageSize(Some(n)) == 500
  {
  }

  /** A filter asks for one kind, for one app, for both or for nothing; empty ones ask for nothing. */
  lemma {:induction false} WantedIs(e: Event, kind: string, app: string)
    ensures Wanted(e, Filter(None, None)) && Wanted(e, Filter(Some(""), Some("")))
    ensures kind != "" ==> (Wanted(e, Filter(Some(kind), None)) <==> e.kind == kind)
    ensures app != "" ==> (Wanted(e, Filter(None, Some(app))) <==> e.app == app)
    ensures kind != "" && app != "" ==> (Wanted(e, Filter(Some(kind), Some(app))) <==> e.kind == kind && e.app == app)
    ensures kind != "" ==> (Wanted(e, Filter(Some(kind), Some(""))) <==> e.kind == kind)
    ensures app != "" ==> (Wanted(e, Filter(Some(""), Some(app))) <==> e.app == app)
  {
  }

  ghost predicate InSequence(log: seq<Event>) {
    forall i, j :: 0 <= i < j < |log| ==> log[i].seqNo < log[j].seqNo
  }

  /** Every wanted event past the cursor, in order. */
  function Past(log: seq<Event>, after: int, f: Filter): seq<Event> {
    if log == [] then []
    else
      var e := log[|log| - 1];
      Past(log[..|log| - 1], after, f) + if e.seqNo > after && Wanted(e, f) then [e] else []
  }

  lemma {:induction false} PastStep(front: seq<Event>, e: Event, after: int, f: Filter)
    ensures Past(front + [e], after, f) == Past(front, after, f) + if e.seqNo > after && Wanted(e, f) then [e] else []
  {
  }

  lemma {:induction false} PastHas(log: seq<Event>, after: int, f: Filter, e: Event)
    ensures e in Past(log, after, f) <==> e in log && e.seqNo > after && Wanted(e, f)
  {
    if log != [] {
      assert log == log[..|log| - 1] + [log[|log| - 1]];
      PastHas(log[..|log| - 1], after, f, e);
    }
  }

  lemma {:induction false} PastConcat(a: seq<Event>, b: seq<Event>, after: int, f: Filter)
    ensures Past(a + b, after, f) == Past(a, after, f) + Past(b, after, f)
  {
    if b == [] {
      assert a + b == a;
    } else {
      assert (a + b)[..|a + b| - 1] == a + b[..|b| - 1];
      PastConcat(a, b[..|b| - 1], after, f);
    }
  }

  lemma {:induction false} SequencePrefix(a: seq<Event>, b: seq<Event>)
    requires InSequence(a + b)
    ensures InSequence(a) && InSequence(b)
  {
    assert forall i :: 0 <= i < |a| ==> a[i] == (a + b)[i];
    assert forall i :: 0 <= i < |b| ==> b[i] == (a + b)[|a| + i];
  }

  lemma {:induction false} SequenceLast(front: seq<Event>, last: Event, e: Event)
    requires InSequence(front + [last]) && e in front
    ensures e.seqNo < last.seqNo
  {
    var j :| 0 <= j < |front| && front[j] == e;
    assert (front + [last])[j].seqNo < (front + [last])[|front|].seqNo;
  }

  /** Nothing is repeated, and order is kept. */
  lemma {:induction false} PastRises(log: seq<Event>, after: int, f: Filter)
    requires InSequence(log)
    ensures InSequence(Past(log, after, f))
  {
    if log != [] {
      hide Past;
      var front, last := log[..|log| - 1], log[|log| - 1];
      assert log == front + [last];
      SequencePrefix(front, [last]);
      PastRises(front, after, f);
      PastStep(front, last, after, f);
      var p := Past(front, after, f);
      forall i | 0 <= i < |p| ensures p[i].seqNo < last.seqNo {
        assert p[i] in p;
        PastHas(front, after, f, p[i]);
        SequenceLast(front, last, p[i]);
      }
    }
  }

  // ---- resuming ----

  lemma {:induction false} NothingBehind(log: seq<Event>, after: int, f: Filter)
    requires forall i :: 0 <= i < |log| ==> log[i].seqNo <= after
    ensures Past(log, after, f) == []
  {
    if log != [] { NothingBehind(log[..|log| - 1], after, f); }
  }

  lemma {:induction false} CursorMoves(log: seq<Event>, after: int, later: int, f: Filter)
    requires after <= later && forall i :: 0 <= i < |log| ==> log[i].seqNo > later
    ensures Past(log, later, f) == Past(log, after, f)
  {
    if log != [] { CursorMoves(log[..|log| - 1], after, later, f); }
  }

  /** Resuming is exact: after any event of a walk, a walk from its number is the rest. */
  lemma {:induction false} ResumeIsExact(log: seq<Event>, after: int, f: Filter, j: nat)
    requires InSequence(log) && j < |Past(log, after, f)|
    ensures Past(log, Past(log, after, f)[j].seqNo, f) == Past(log, after, f)[j + 1..]
    decreases |log|
  {
    hide Past, Wanted;
    NothingPast(after, f);
    var front, last := log[..|log| - 1], log[|log| - 1];
    assert log == front + [last];
    SequencePrefix(front, [last]);
    var all, p := Past(log, after, f), Past(front, after, f);
    PastStep(front, last, after, f);
    if j < |p| {
      ResumeIsExact(front, after, f, j);
      assert p[j] in p;
      PastHas(front, after, f, p[j]);
      SequenceLast(front, last, p[j]);
      PastStep(front, last, p[j].seqNo, f);
    } else {
      PastStep(front, last, last.seqNo, f);
      forall i | 0 <= i < |front| ensures front[i].seqNo <= last.seqNo {
        SequenceLast(front, last, front[i]);
      }
      NothingBehind(front, last.seqNo, f);
    }
  }

  lemma {:induction false} NothingPast(after: int, f: Filter)
    ensures Past([], after, f) == []
  {
  }

  // ---- the server ----

  class EventServer {
    var log: seq<Event>
    var arrivals: seq<seq<Event>>  // what is appended before each of the next pages is answered

    ghost function Future(): seq<Event>
      reads this
    {
      log + Flat(arrivals)
    }

    /** One page past the cursor; the next cursor is given exactly when the page is full. */
    method EventsPage(after: int, f: Filter, limit: Option<nat>) returns (events: seq<Event>, nextAfter: Option<nat>)
      modifies this
      ensures log == if old(arrivals) == [] then old(log) else old(log) + old(arrivals)[0]
      ensures arrivals == if old(arrivals) == [] then [] else old(arrivals)[1..]
      ensures Future() == old(Future())
      ensures var past, n := Past(log, after, f), PageSize(limit);
        && events == (if n <= |past| then past[..n] else past)
        && nextAfter == (if n <= |past| then Some(past[n - 1].seqNo) else None)
    {
      hide Past, Flat;
      if arrivals != [] {
        FlatStep(arrivals);
        log, arrivals := log + arrivals[0], arrivals[1..];
        assert log + Flat(arrivals) == old(log) + Flat(old(arrivals));
      }
      events := Scan(log, after, f, PageSize(limit));
      nextAfter := if |events| == PageSize(limit) then Some(events[|events| - 1].seqNo) else None;
    }

    static method Scan(log: seq<Event>, after: int, f: Filter, size: nat) returns (events: seq<Event>)
      ensures var past := Past(log, after, f); events == if size <= |past| then past[..size] else past
    {
      hide Past;
      events := [];
      NothingPast(after, f);
      var i := 0;
      while i < |log| && |events| < size
        invariant i <= |log| && |events| <= size && events == Past(log[..i], after, f)
      {
        assert log[..i + 1] == log[..i] + [log[i]];
        PastStep(log[..i], log[i], after, f);
        if log[i].seqNo > after && Wanted(log[i], f) { events := events + [log[i]]; }
        i := i + 1;
      }
      assert log == log[..i] + log[i..];
      PastConcat(log[..i], log[i..], after, f);
      assert i == |log| ==> log[i..] == [];
    }
  }

  function Flat(arrivals: seq<seq<Event>>): seq<Event> {
    if arrivals == [] then [] else arrivals[0] + Flat(arrivals[1..])
  }

  lemma {:induction false} FlatStep(arrivals: seq<seq<Event>>)
    requires arrivals != []
    ensures Flat(arrivals) == arrivals[0] + Flat(arrivals[1..])
  {
  }

  // ---- the walk ----

  /** What was yielded and what the cursor still has ahead make up everything past the start. */
  ghost predicate Walking(log: seq<Event>, start: int, after: int, f: Filter, yielded: seq<Event>) {
    && Past(log, start, f) == yielded + Past(log, after, f)
    && start <= after && (after == start || (log != [] && after <= log[|log| - 1].seqNo))
  }

  /** The server answers a page: the log may have grown under the walk. */
  lemma {:induction false} WalkGrows(log: seq<Event>, grown: seq<Event>, rest: seq<Event>, start: int, after: int,
      f: Filter, yielded: seq<Event>)
    requires Walking(log, start, after, f, yielded) && log <= grown && InSequence(grown + rest)
    ensures Walking(grown, start, after, f, yielded) && InSequence(grown)
  {
    hide Past;
    var more := grown[|log|..];
    assert grown == log + more;
    SequencePrefix(grown, rest);
    WalkMore(log, more, start, after, f, yielded);
  }

  lemma {:induction false} WalkMore(log: seq<Event>, more: seq<Event>, start: int, after: int, f: Filter,
      yielded: seq<Event>)
    requires Walking(log, start, after, f, yielded) && InSequence(log + more)
    ensures Walking(log + more, start, after, f, yielded)
  {
    PastConcat(log, more, start, f);
    PastConcat(log, more, after, f);
    assert log + more != [] && more == [] ==> (log + more)[|log + more| - 1] == log[|log| - 1];
    if after != start {
      forall i | 0 <= i < |more| ensures more[i].seqNo > after {
        assert (log + more)[|log| - 1].seqNo < (log + more)[|log| + i].seqNo;
      }
      CursorMoves(more, start, after, f);
      if more != [] { assert (log + more)[|log + more| - 1] == more[|more| - 1]; }
    }
  }

  /** The consumer took `n` events of a page. */
  lemma {:induction false} WalkSteps(log: seq<Event>, start: int, after: int, f: Filter, yielded: seq<Event>,
      page: seq<Event>, n: nat)
    requires Walking(log, start, after, f, yielded) && InSequence(log) && page <= Past(log, after, f) && n <= |page|
    ensures n > 0 ==> Walking(log, start, page[n - 1].seqNo, f, yielded + page[..n])
    ensures n > 0 ==> |Past(log, page[n - 1].seqNo, f)| < |Past(log, after, f)|
    ensures yielded + page[..n] <= Past(log, start, f)
    ensures n == |Past(log, after, f)| ==> yielded + page == Past(log, start, f)
    ensures page[..|page|] == page && (page == [] ==> yielded + page == yielded)
  {
    hide Past;
    var past := Past(log, after, f);
    assert past == page[..n] + past[n..];
    if n > 0 {
      ResumeIsExact(log, after, f, n - 1);
      assert past[n - 1] in past;
      PastHas(log, after, f, past[n - 1]);
      assert log == log[..|log| - 1] + [log[|log| - 1]];
      if past[n - 1] != log[|log| - 1] { SequenceLast(log[..|log| - 1], log[|log| - 1], past[n - 1]); }
    }
  }

  /** The walk: page after page until one does not fill. `take` is how many events the consumer
      wants before it stops; events may keep arriving. */
  method Subscribe(server: EventServer, cursor: int, f: Filter, limit: Option<nat>, take: Option<nat>)
    returns (yielded: seq<Event>, stopped: bool)
    requires InSequence(server.Future())
    modifies server
    ensures server.Future() == old(server.Future())
    ensures !stopped ==> yielded == Past(server.log, cursor, f)
    ensures stopped ==> take == Some(|yielded|) && yielded <= Past(server.log, cursor, f)
    ensures old(server.arrivals) == [] ==> server.log == old(server.log)
  {
    hide Past, InSequence, Walking, Flat;
    yielded, stopped := [], false;
    var after, more := cursor, true;
    ghost var quiet := server.arrivals == [];
    BeginsWalking(server.log, cursor, f);
    while more
      invariant server.Future() == old(server.Future())
          && (quiet ==> server.arrivals == [] && server.log == old(server.log))
      invariant Walking(server.log, cursor, after, f, yielded)
      invariant !more ==> yielded == Past(server.log, cursor, f)
      decreases more, |server.arrivals|, |Past(server.log, after, f)|
    {
      ghost var log := server.log;
      var events, nextAfter := server.EventsPage(after, f, limit);
      WalkGrows(log, server.log, Flat(server.arrivals), cursor, after, f, yielded);
      if take.Some? && |yielded| < take.value <= |yielded| + |events| {
        var n := take.value - |yielded|;
        WalkSteps(server.log, cursor, after, f, yielded, events, n);
        return yielded + events[..n], true;
      }
      WalkSteps(server.log, cursor, after, f, yielded, events, |events|);
      assert nextAfter.Some? ==> events != [] && nextAfter.value == events[|events| - 1].seqNo;
      yielded, after := Consume(events, yielded, after);
      if nextAfter.None? { more := false; } else { after := nextAfter.value; }
    }
  }

  /** The consumer takes a page's events one by one; the cursor follows. */
  method Consume(events: seq<Event>, before: seq<Event>, cursor: int) returns (yielded: seq<Event>, after: int)
    ensures yielded == before + events
    ensures after == if events == [] then cursor else events[|events| - 1].seqNo
  {
    yielded, after := before, cursor;
    for i := 0 to |events|
      invariant yielded == before + events[..i]
      invariant after == if i == 0 then cursor else events[i - 1].seqNo
    {
      after := events[i].seqNo;
      yielded := yielded + [events[i]];
    }
    assert events[..|events|] == events;
  }

  lemma {:induction false} BeginsWalking(log: seq<Event>, start: int, f: Filter)
    ensures Walking(log, start, start, f, [])
  {
  }
}
