/** The three objects a mirror works with: the client that reads the server, the product's sink
    and its watermark store. Each carries a script of what its next calls do, so that requests
    that fail, sinks that break half way and stores that refuse are all inputs. */
module MirrorClient {
  import opened Wrappers
  import opened Feed
  import opened PagePlan
  import Drain
  import Snapshot

  // ---- the server, as the client reads it ----

  /** What happens before the next page is answered. */
  datatype Reply<+Raw> = Arrives(revs: seq<Revision<Raw>>) | Unreachable

  function Arriving<Raw>(script: seq<Reply<Raw>>): seq<Revision<Raw>> {
    if script == [] then []
    else (match script[0] case Arrives(revs) => revs case Unreachable => []) + Arriving(script[1..])
  }

  datatype Page<+Raw> = Page(items: seq<Revision<Raw>>, nextCursor: Option<Pos>)

  /** `page` is the feed's stretch from `start`: everything before it lies at or before the
      cursor, everything from it on past the cursor, and the clamp decides where it ends. */
  ghost predicate Serves<Raw>(feed: seq<Revision<Raw>>, page: Page<Raw>, cursor: Pos, limit: nat, start: nat) {
    && start <= |feed|
    && (forall i :: 0 <= i < start ==> !Before(cursor, feed[i].at))
    && (start < |feed| ==> Before(cursor, feed[start].at))
    && page.items == feed[start..Min(start + Drain.Limit(limit), |feed|)]
    && page.nextCursor == if page.items == [] then None else Some(page.items[|page.items| - 1].at)
  }

  class PumperClient<Raw> {
    var feed: seq<Revision<Raw>>
    var script: seq<Reply<Raw>>
    var image: seq<Snapshot.Record<Raw>>  // what the export streams
    ghost var imaged: nat                 // how much of the feed it shows; the rest was committed meanwhile
    var cut: Option<nat>                  // the record index at which that stream would break

    ghost function Future(): seq<Revision<Raw>>
      reads this
    {
      feed + Arriving(script)
    }

    /** One ascending page: the first revisions past the cursor, as many as the server's clamp
        on `limit` allows. It carries a cursor whenever it is not empty, also when it is short. */
    method ChangesPage(cursor: Pos, limit: nat) returns (page: Result<Page<Raw>>, ghost start: nat)
      modifies this`feed, this`script
      ensures script == if old(script) == [] then [] else old(script)[1..]
      ensures feed == old(feed) + Arriving(old(script)[..|old(script)| - |script|])
      ensures Future() == old(Future())
      ensures old(script) == [] ==> page.Ok?
      ensures page.Ok? ==> Serves(feed, page.value, cursor, limit, start)
    {
      start := 0;
      if script != [] {
        var reply := script[0];
        ArrivingFirst(script);
        script := script[1..];
        if reply.Unreachable? { return Failed, 0; }
        feed := feed + reply.revs;
      }
      var answer;
      answer, start := Seek(feed, cursor, limit);
      page := Ok(answer);
    }

    /** The feed's own head: its newest revision, read newest-first with a limit of one. */
    method Head() returns (newest: Result<Option<int>>)
      modifies this`feed, this`script
      ensures script == if old(script) == [] then [] else old(script)[1..]
      ensures feed == old(feed) + Arriving(old(script)[..|old(script)| - |script|])
      ensures Future() == old(Future())
      ensures old(script) == [] ==> newest.Ok?
      ensures newest.Ok? ==> newest.value == if feed == [] then None else Some(feed[|feed| - 1].at.stamp)
    {
      if script != [] {
        var reply := script[0];
        ArrivingFirst(script);
        script := script[1..];
        if reply.Unreachable? { return Failed; }
        feed := feed + reply.revs;
      }
      newest := Ok(if feed == [] then None else Some(feed[|feed| - 1].at.stamp));
    }

    static lemma {:induction false} ArrivingFirst(script: seq<Reply<Raw>>)
      requires script != []
      ensures Arriving(script) == Arriving(script[..1]) + Arriving(script[1..])
      ensures Arriving(script[..1]) == match script[0] case Arrives(revs) => revs case Unreachable => []
    {
    }

    static method Seek(feed: seq<Revision<Raw>>, cursor: Pos, limit: nat) returns (page: Page<Raw>, start: nat)
      ensures Serves(feed, page, cursor, limit, start)
    {
      start := 0;
      while start < |feed| && !Before(cursor, feed[start].at)
        invariant start <= |feed|
        invariant forall j :: 0 <= j < start ==> !Before(cursor, feed[j].at)
      {
        start := start + 1;
      }
      var items := feed[start..Min(start + Drain.Limit(limit), |feed|)];
      page := Page(items, if items == [] then None else Some(items[|items| - 1].at));
    }
  }

  // ---- the product's sink ----

  /** What the next sink call does: acknowledge a count, or break with only some keys written. */
  datatype SinkReply = Acknowledges(count: nat) | Breaks(written: set<Key>)

  class SyncSink<Out> {
    const keeps: bool  // false for the counting sink of a dry run
    var rows: map<Key, Out>
    var script: seq<SinkReply>

    constructor Counting()
      ensures !keeps && rows == map[] && script == []
    {
      keeps, rows, script := false, map[], [];
    }

    method Upsert(records: seq<(Key, Out)>) returns (written: Result<nat>)
      modifies this
      ensures written.Ok? && keeps ==> rows == PutAll(old(rows), records)
      ensures !keeps ==> rows == old(rows)
      ensures forall k :: Get(rows, k) == Get(old(rows), k) || Get(rows, k) == Get(PutAll(old(rows), records), k)
      ensures old(script) == [] ==> written == Ok(|records|) && script == []
    {
      var full := if keeps then PutAll(rows, records) else rows;
      written := Answer(full, |records|);
    }

    method Tombstone(keys: seq<Key>) returns (written: Result<nat>)
      modifies this
      ensures written.Ok? && keeps ==> rows == DeleteAll(old(rows), keys)
      ensures !keeps ==> rows == old(rows)
      ensures forall k :: Get(rows, k) == Get(old(rows), k) || Get(rows, k) == Get(DeleteAll(old(rows), keys), k)
      ensures old(script) == [] ==> written == Ok(|keys|) && script == []
    {
      var full := if keeps then DeleteAll(rows, keys) else rows;
      written := Answer(full, |keys|);
    }

    method Answer(full: map<Key, Out>, count: nat) returns (written: Result<nat>)
      modifies this
      ensures written.Ok? ==> rows == full
      ensures forall k :: Get(rows, k) == Get(old(rows), k) || Get(rows, k) == Get(full, k)
      ensures old(script) == [] ==> written == Ok(count) && script == []
      ensures full == old(rows) ==> rows == old(rows)
    {
      if script == [] {
        rows, written := full, Ok(count);
        return;
      }
      var reply := script[0];
      script := script[1..];
      match reply
      case Acknowledges(n) =>
        rows, written := full, Ok(n);
      case Breaks(keys) =>
        rows := (map k | k in rows && k !in keys :: rows[k]) + (map k | k in full && k in keys :: full[k]);
        written := Failed;
    }
  }

  // ---- the product's watermark store ----

  /** A stored watermark: the position token, or the bare instant older versions wrote. */
  datatype Stored = Position(pos: Pos) | Legacy(stamp: int)

  function ParseWatermark(stored: Stored): Pos {
    match stored
    case Position(p) => p
    case Legacy(stamp) => Pos(stamp, 0)
  }

  class WatermarkStore {
    var value: Option<Stored>
    var refusals: seq<bool>

    method Set(position: Pos) returns (done: Result<()>)
      modifies this
      ensures done.Ok? ==> value == Some(Position(position))
      ensures done.Failed? ==> value == old(value)
      ensures old(refusals) == [] ==> done.Ok? && refusals == []
    {
      if refusals != [] {
        var refuses := refusals[0];
        refusals := refusals[1..];
        if refuses { return Failed; }
      }
      value := Some(Position(position));
      done := Ok(());
    }
  }
}
