/** The change feed, as a mirror reads it: revisions ordered by (stamp, rowid), what one
    revision means for the sink, and the reference the mirror is measured against - applying
    the feed revision by revision. */
module Feed {
  import opened Wrappers

  /** A record key. The mirror only ever compares keys for equality. */
  type Key(==, !new)

  /** A feed position: the tuple the server's keyset pages by. Stamps are microseconds. */
  datatype Pos = Pos(stamp: int, rowid: nat)

  predicate Before(a: Pos, b: Pos) {
    a.stamp < b.stamp || (a.stamp == b.stamp && a.rowid < b.rowid)
  }

  datatype Change = New | Changed | Removed

  datatype Revision<+Raw> = Revision(key: Key, change: Change, data: Option<Raw>, at: Pos)

  /** What the product's map sees beside the payload. */
  datatype MapContext = MapContext(key: Key, updatedAt: int, change: Change)

  datatype Verdict<+Out> = Upsert(out: Out) | Tombstone | Drop | Anomaly {
    predicate Writes() { Upsert? || Tombstone? }

    /** The sink's value for the key once this verdict is applied over `prev`. */
    function Over(prev: Option<Out>): Option<Out> {
      match this
      case Upsert(out) => Some(out)
      case Tombstone => None
      case _ => prev
    }
  }

  /** A revision seen through the product's map. */
  datatype Entry<+Out> = Entry(key: Key, verdict: Verdict<Out>, at: Pos)

  function Judge<Raw, Out>(rev: Revision<Raw>, toOut: (Raw, MapContext) -> Option<Out>): Verdict<Out> {
    if rev.change.Removed? then Tombstone
    else if rev.data.None? then Anomaly
    else
      match toOut(rev.data.value, MapContext(rev.key, rev.at.stamp, rev.change))
      case None => Drop
      case Some(out) => Upsert(out)
  }

  function Judged<Raw, Out>(revs: seq<Revision<Raw>>, toOut: (Raw, MapContext) -> Option<Out>): (es: seq<Entry<Out>>)
    ensures |es| == |revs|
    ensures forall i :: 0 <= i < |es| ==> es[i] == Entry(revs[i].key, Judge(revs[i], toOut), revs[i].at)
  {
    if revs == [] then []
    else
      var last := revs[|revs| - 1];
      Judged(revs[..|revs| - 1], toOut) + [Entry(last.key, Judge(last, toOut), last.at)]
  }

  lemma {:induction false} JudgedConcat<Raw, Out>(a: seq<Revision<Raw>>, b: seq<Revision<Raw>>,
      toOut: (Raw, MapContext) -> Option<Out>)
    ensures Judged(a + b, toOut) == Judged(a, toOut) + Judged(b, toOut)
  {
  }

  lemma {:induction false} JudgedSlice<Raw, Out>(a: seq<Revision<Raw>>, lo: nat, hi: nat,
      toOut: (Raw, MapContext) -> Option<Out>)
    requires lo <= hi <= |a|
    ensures Judged(a[lo..hi], toOut) == Judged(a, toOut)[lo..hi]
  {
  }

  /** The server's contract: strictly increasing positions, rowids from 1. */
  ghost predicate Ordered<Out>(es: seq<Entry<Out>>) {
    && (forall i :: 0 <= i < |es| ==> es[i].at.rowid >= 1)
    && (forall i, j :: 0 <= i < j < |es| ==> Before(es[i].at, es[j].at))
  }

  ghost predicate Mentions<Out>(es: seq<Entry<Out>>, key: Key) {
    exists i :: 0 <= i < |es| && es[i].key == key
  }

  ghost predicate WritesTo<Out>(es: seq<Entry<Out>>, key: Key) {
    exists i :: 0 <= i < |es| && es[i].key == key && es[i].verdict.Writes()
  }

  predicate AnomalyFree<Out>(es: seq<Entry<Out>>) {
    forall i :: 0 <= i < |es| ==> !es[i].verdict.Anomaly?
  }

  function Get<Out>(rows: map<Key, Out>, key: Key): Option<Out> {
    if key in rows then Some(rows[key]) else None
  }

  function Put<Out>(rows: map<Key, Out>, key: Key, value: Option<Out>): map<Key, Out> {
    match value
    case Some(out) => rows[key := out]
    case None => rows - {key}
  }

  /** The reference: every revision applied in feed order, one at a time. */
  function Fold<Out>(rows: map<Key, Out>, es: seq<Entry<Out>>): map<Key, Out> {
    if es == [] then rows
    else
      var e := es[|es| - 1];
      var before := Fold(rows, es[..|es| - 1]);
      Put(before, e.key, e.verdict.Over(Get(before, e.key)))
  }

  /** The same reference for a single key. */
  function Settle<Out>(prev: Option<Out>, es: seq<Entry<Out>>, key: Key): Option<Out> {
    if es == [] then prev
    else
      var e := es[|es| - 1];
      var before := Settle(prev, es[..|es| - 1], key);
      if e.key == key then e.verdict.Over(before) else before
  }

  lemma {:induction false} FoldSettles<Out>(rows: map<Key, Out>, es: seq<Entry<Out>>, key: Key)
    ensures Get(Fold(rows, es), key) == Settle(Get(rows, key), es, key)
  {
    if es != [] {
      FoldSettles(rows, es[..|es| - 1], key);
    }
  }

  lemma {:induction false} SameRows<Out>(a: map<Key, Out>, b: map<Key, Out>)
    requires forall k :: Get(a, k) == Get(b, k)
    ensures a == b
  {
    forall k ensures k in a <==> k in b {
      assert Get(a, k) == Get(b, k);
    }
    forall k | k in a ensures a[k] == b[k] {
      assert Get(a, k) == Get(b, k);
    }
  }

  lemma {:induction false} SettleConcat<Out>(prev: Option<Out>, a: seq<Entry<Out>>, b: seq<Entry<Out>>, key: Key)
    ensures Settle(prev, a + b, key) == Settle(Settle(prev, a, key), b, key)
  {
    if b == [] {
      assert a + b == a;
    } else {
      assert (a + b)[..|a + b| - 1] == a + b[..|b| - 1];
      SettleConcat(prev, a, b[..|b| - 1], key);
    }
  }

  lemma {:induction false} SettleUntouched<Out>(prev: Option<Out>, es: seq<Entry<Out>>, key: Key)
    requires !WritesTo(es, key)
    ensures Settle(prev, es, key) == prev
  {
    if es != [] {
      assert !es[|es| - 1].verdict.Writes() || es[|es| - 1].key != key;
      SettleUntouched(prev, es[..|es| - 1], key);
    }
  }

  /** How many revisions lie at or before a position. */
  function Rank<Out>(es: seq<Entry<Out>>, p: Pos): (r: nat)
    ensures r <= |es|
  {
    if es == [] then 0
    else if Before(p, es[|es| - 1].at) then Rank(es[..|es| - 1], p)
    else |es|
  }

  lemma {:induction false} RankSplits<Out>(es: seq<Entry<Out>>, p: Pos)
    requires Ordered(es)
    ensures forall i :: 0 <= i < Rank(es, p) ==> !Before(p, es[i].at)
    ensures forall i :: Rank(es, p) <= i < |es| ==> Before(p, es[i].at)
  {
    if es != [] {
      var last := es[|es| - 1];
      if Before(p, last.at) {
        var rest := es[..|es| - 1];
        RankSplits(rest, p);
        forall i | 0 <= i < Rank(es, p) ensures !Before(p, es[i].at) {
          assert es[i] == rest[i];
        }
        forall i | Rank(es, p) <= i < |es| ensures Before(p, es[i].at) {
          if i < |rest| { assert es[i] == rest[i]; }
        }
      } else {
        forall i | 0 <= i < |es| ensures !Before(p, es[i].at) {
          if i < |es| - 1 { assert Before(es[i].at, last.at); }
        }
      }
    }
  }

  /** Splitting the feed at an index is the only way to separate a position's past from its future. */
  lemma {:induction false} RankIs<Out>(es: seq<Entry<Out>>, p: Pos, n: nat)
    requires Ordered(es) && n <= |es|
    requires n > 0 ==> !Before(p, es[n - 1].at)
    requires n < |es| ==> Before(p, es[n].at)
    ensures Rank(es, p) == n
  {
    RankSplits(es, p);
  }

  lemma {:induction false} RankOfEntry<Out>(es: seq<Entry<Out>>, i: nat)
    requires Ordered(es) && i < |es|
    ensures Rank(es, es[i].at) == i + 1
  {
    RankIs(es, es[i].at, i + 1);
  }
}
