/** What one ascending feed page means for the sink (`planPage` in sync.ts): the last verdict
    per key, decided in memory before anything is written. */
module PagePlan {
  import opened Wrappers
  import opened Feed

  datatype Skipped = Skipped(droppedByMap: nat, nullPostImage: nat, supersededDuplicate: nat)

  datatype Plan<+Out> = Plan(
    upserts: seq<(Key, Out)>,
    tombstones: seq<Key>,
    anomalies: nat,
    stalled: bool,
    skipped: Skipped)

  function NoSkips(): Skipped { Skipped(0, 0, 0) }

  /** The plan of a page holding an anomaly: nothing to apply, one anomaly named. */
  function Stalled<Out>(): Plan<Out> {
    Plan([], [], 1, true, NoSkips().(nullPostImage := 1))
  }

  // ---- the last verdict per key ----

  function LastVerdict<Out>(es: seq<Entry<Out>>, key: Key): Option<Verdict<Out>> {
    if es == [] then None
    else if es[|es| - 1].key == key then Some(es[|es| - 1].verdict)
    else LastVerdict(es[..|es| - 1], key)
  }

  lemma {:induction false} LastVerdictIsLast<Out>(es: seq<Entry<Out>>, key: Key)
    ensures LastVerdict(es, key).Some? <==> Mentions(es, key)
    ensures LastVerdict(es, key).Some? ==>
              exists i :: && 0 <= i < |es| && es[i].key == key && es[i].verdict == LastVerdict(es, key).value
                          && forall j :: i < j < |es| ==> es[j].key != key
  {
    if es != [] && es[|es| - 1].key != key {
      var rest := es[..|es| - 1];
      LastVerdictIsLast(rest, key);
      if LastVerdict(rest, key).Some? {
        var i :| && 0 <= i < |rest| && rest[i].key == key && rest[i].verdict == LastVerdict(rest, key).value
                 && forall j :: i < j < |rest| ==> rest[j].key != key;
        assert es[i].key == key && forall j :: i < j < |es| ==> es[j].key != key;
      } else {
        assert forall i :: 0 <= i < |rest| ==> es[i] == rest[i];
      }
    }
  }

  /** The value a planned page leaves for one key. */
  function Planned<Out>(prev: Option<Out>, es: seq<Entry<Out>>, key: Key): Option<Out> {
    match LastVerdict(es, key)
    case None => prev
    case Some(v) => v.Over(prev)
  }

  /** No key ends on a map drop after an earlier revision of it would have been written. */
  ghost predicate NoTrailingDrop<Out>(es: seq<Entry<Out>>) {
    forall key :: LastVerdict(es, key).Some? && !LastVerdict(es, key).value.Writes() ==> !WritesTo(es, key)
  }

  /** No revision is dropped once an earlier revision of its key would have been written. */
  ghost predicate NoDropAfterWrite<Out>(es: seq<Entry<Out>>) {
    forall i, j :: 0 <= i < j < |es| && es[i].key == es[j].key && es[i].verdict.Writes() ==> !es[j].verdict.Drop?
  }

  /** Where a key's last verdict writes, the plan and the revision-by-revision fold agree
      whatever the sink held before. */
  lemma {:induction false} LastWriteWins<Out>(prev: Option<Out>, other: Option<Out>, es: seq<Entry<Out>>, key: Key)
    requires LastVerdict(es, key).Some? && LastVerdict(es, key).value.Writes()
    ensures Planned(other, es, key) == Settle(prev, es, key)
  {
    if es[|es| - 1].key != key {
      LastWriteWins(prev, other, es[..|es| - 1], key);
    }
  }

  lemma {:induction false} PlannedSettles<Out>(prev: Option<Out>, es: seq<Entry<Out>>, key: Key)
    requires !WritesTo(es, key) || (LastVerdict(es, key).Some? && LastVerdict(es, key).value.Writes())
    ensures Planned(prev, es, key) == Settle(prev, es, key)
  {
    if WritesTo(es, key) {
      LastWriteWins(prev, prev, es, key);
    } else {
      LastVerdictIsLast(es, key);
      SettleUntouched(prev, es, key);
    }
  }

  // ---- the plan ----

  /** The keys of a page in the order a JavaScript Map keeps them: first mention first. */
  function Keys<Out>(es: seq<Entry<Out>>): seq<Key> {
    if es == [] then []
    else
      var ks := Keys(es[..|es| - 1]);
      if es[|es| - 1].key in ks then ks else ks + [es[|es| - 1].key]
  }

  ghost predicate Distinct(ks: seq<Key>) {
    forall i, j :: 0 <= i < j < |ks| ==> ks[i] != ks[j]
  }

  lemma {:induction false} KeysAreMentions<Out>(es: seq<Entry<Out>>)
    ensures Distinct(Keys(es)) && |Keys(es)| <= |es|
    ensures forall key :: key in Keys(es) <==> Mentions(es, key)
  {
    if es != [] {
      var rest, last := es[..|es| - 1], es[|es| - 1].key;
      KeysAreMentions(rest);
      forall key ensures key in Keys(es) <==> Mentions(es, key) {
        if Mentions(es, key) {
          var i :| 0 <= i < |es| && es[i].key == key;
          if i < |rest| { assert rest[i].key == key; assert Mentions(rest, key); }
        }
        if Mentions(rest, key) {
          var i :| 0 <= i < |rest| && rest[i].key == key;
          assert es[i].key == key;
        }
        if key == last { assert es[|es| - 1].key == key; }
      }
    }
  }

  function Upserts<Out>(ks: seq<Key>, latest: map<Key, Verdict<Out>>): seq<(Key, Out)>
  {
    if ks == [] then []
    else
      var rest := Upserts(ks[..|ks| - 1], latest);
      var k := ks[|ks| - 1];
      if k in latest && latest[k].Upsert? then rest + [(k, latest[k].out)] else rest
  }

  function Tombstones<Out>(ks: seq<Key>, latest: map<Key, Verdict<Out>>): seq<Key>
  {
    if ks == [] then []
    else
      var rest := Tombstones(ks[..|ks| - 1], latest);
      var k := ks[|ks| - 1];
      if k in latest && latest[k].Tombstone? then rest + [k] else rest
  }

  /** The Map the plan is read off: each mentioned key with its last verdict. */
  function Latest<Out>(es: seq<Entry<Out>>): map<Key, Verdict<Out>> {
    if es == [] then map[] else Latest(es[..|es| - 1])[es[|es| - 1].key := es[|es| - 1].verdict]
  }

  lemma {:induction false} LatestHasKeys<Out>(es: seq<Entry<Out>>)
    ensures forall k :: k in Latest(es) <==> k in Keys(es)
  {
    if es != [] {
      LatestHasKeys(es[..|es| - 1]);
    }
  }

  lemma {:induction false} LatestIsLast<Out>(es: seq<Entry<Out>>, key: Key)
    ensures Get(Latest(es), key) == LastVerdict(es, key)
  {
    if es != [] {
      LatestIsLast(es[..|es| - 1], key);
    }
  }

  function Drops<Out>(es: seq<Entry<Out>>): nat {
    if es == [] then 0 else Drops(es[..|es| - 1]) + if es[|es| - 1].verdict.Drop? then 1 else 0
  }

  /** What the plan of a page is, said without its loop. */
  function PlanOf<Out>(es: seq<Entry<Out>>): Plan<Out> {
    if !AnomalyFree(es) then Stalled()
    else
      var ks := Keys(es);
      KeysAreMentions(es);
      Plan(Upserts(ks, Latest(es)), Tombstones(ks, Latest(es)), 0, false, Skipped(Drops(es), 0, |es| - |ks|))
  }

  lemma {:induction false} PlanStep<Out>(es: seq<Entry<Out>>, i: nat)
    requires i < |es|
    ensures Keys(es[..i + 1]) == if es[i].key in Keys(es[..i]) then Keys(es[..i]) else Keys(es[..i]) + [es[i].key]
    ensures Latest(es[..i + 1]) == Latest(es[..i])[es[i].key := es[i].verdict]
    ensures es[i].key in Latest(es[..i]) <==> es[i].key in Keys(es[..i])
    ensures AnomalyFree(es[..i + 1]) <==> AnomalyFree(es[..i]) && !es[i].verdict.Anomaly?
    ensures Drops(es[..i + 1]) == Drops(es[..i]) + if es[i].verdict.Drop? then 1 else 0
  {
    assert es[..i + 1][..i] == es[..i];
    LatestHasKeys(es[..i]);
    assert forall j :: 0 <= j < i ==> es[..i + 1][j] == es[..i][j];
  }

  method PlanPage<Raw, Out>(items: seq<Revision<Raw>>, toOut: (Raw, MapContext) -> Option<Out>)
    returns (plan: Plan<Out>)
    ensures plan == PlanOf(Judged(items, toOut))
  {
    ghost var es := Judged(items, toOut);
    var order: seq<Key>, latest: map<Key, Verdict<Out>> := [], map[];
    var dropped: nat, superseded: nat := 0, 0;
    for i := 0 to |items|
      invariant AnomalyFree(es[..i])
      invariant order == Keys(es[..i]) && latest == Latest(es[..i])
      invariant |order| <= i
      invariant dropped == Drops(es[..i])
      invariant superseded == i - |order|
    {
      var rev := items[i];
      var verdict := Judge(rev, toOut);
      assert es[i] == Entry(rev.key, verdict, rev.at);
      PlanStep(es, i);
      if rev.key in latest {
        superseded := superseded + 1;
      } else {
        order := order + [rev.key];
      }
      if verdict.Anomaly? {
        return Stalled();
      }
      if verdict.Drop? {
        dropped := dropped + 1;
      }
      latest := latest[rev.key := verdict];
    }
    assert es[..|items|] == es;
    LatestHasKeys(es);
    var upserts, tombstones := ListWrites(order, latest);
    plan := Plan(upserts, tombstones, 0, false, Skipped(dropped, 0, superseded));
  }

  method ListWrites<Out>(order: seq<Key>, latest: map<Key, Verdict<Out>>)
    returns (upserts: seq<(Key, Out)>, tombstones: seq<Key>)
    requires forall k :: k in order ==> k in latest
    ensures upserts == Upserts(order, latest) && tombstones == Tombstones(order, latest)
  {
    upserts, tombstones := [], [];
    for i := 0 to |order|
      invariant upserts == Upserts(order[..i], latest)
      invariant tombstones == Tombstones(order[..i], latest)
    {
      assert order[..i + 1][..i] == order[..i];
      var key := order[i];
      if latest[key].Upsert? {
        upserts := upserts + [(key, latest[key].out)];
      } else if latest[key].Tombstone? {
        tombstones := tombstones + [key];
      }
    }
    assert order[..|order|] == order;
  }

  // ---- what applying the plan does to a sink ----

  function PutAll<Out>(rows: map<Key, Out>, records: seq<(Key, Out)>): map<Key, Out> {
    if records == [] then rows
    else
      var last := records[|records| - 1];
      PutAll(rows, records[..|records| - 1])[last.0 := last.1]
  }

  function DeleteAll<Out>(rows: map<Key, Out>, keys: seq<Key>): map<Key, Out> {
    if keys == [] then rows else DeleteAll(rows, keys[..|keys| - 1]) - {keys[|keys| - 1]}
  }

  lemma {:induction false} PutAllMore<Out>(rows: map<Key, Out>, records: seq<(Key, Out)>, last: (Key, Out))
    ensures PutAll(rows, records + [last]) == PutAll(rows, records)[last.0 := last.1]
  {
  }

  lemma {:induction false} DeleteAllMore<Out>(rows: map<Key, Out>, keys: seq<Key>, last: Key)
    ensures DeleteAll(rows, keys + [last]) == DeleteAll(rows, keys) - {last}
  {
  }

  lemma {:induction false} PutAllAt<Out>(rows: map<Key, Out>, ks: seq<Key>, latest: map<Key, Verdict<Out>>, key: Key)
    ensures Get(PutAll(rows, Upserts(ks, latest)), key)
         == if key in ks && key in latest && latest[key].Upsert? then Some(latest[key].out) else Get(rows, key)
  {
    if ks != [] {
      var rest, k := ks[..|ks| - 1], ks[|ks| - 1];
      assert key in ks <==> key in rest || key == k by { assert ks == rest + [k]; }
      PutAllAt(rows, rest, latest, key);
      if k in latest && latest[k].Upsert? {
        PutAllMore(rows, Upserts(rest, latest), (k, latest[k].out));
      }
    }
  }

  lemma {:induction false} DeleteAllAt<Out>(rows: map<Key, Out>, ks: seq<Key>, latest: map<Key, Verdict<Out>>, key: Key)
    ensures Get(DeleteAll(rows, Tombstones(ks, latest)), key)
         == if key in ks && key in latest && latest[key].Tombstone? then None else Get(rows, key)
  {
    if ks != [] {
      var rest, k := ks[..|ks| - 1], ks[|ks| - 1];
      assert key in ks <==> key in rest || key == k by { assert ks == rest + [k]; }
      DeleteAllAt(rows, rest, latest, key);
      if k in latest && latest[k].Tombstone? {
        DeleteAllMore(rows, Tombstones(rest, latest), k);
      }
    }
  }

  function Applied<Out>(rows: map<Key, Out>, plan: Plan<Out>): map<Key, Out> {
    DeleteAll(PutAll(rows, plan.upserts), plan.tombstones)
  }

  /** Applying a plan leaves every key at its planned value, in either order of the two sink calls. */
  lemma {:induction false} AppliedIsPlanned<Out>(rows: map<Key, Out>, es: seq<Entry<Out>>, key: Key)
    requires AnomalyFree(es)
    ensures Get(Applied(rows, PlanOf(es)), key) == Planned(Get(rows, key), es, key)
    ensures Get(PutAll(DeleteAll(rows, PlanOf(es).tombstones), PlanOf(es).upserts), key) ==
        Planned(Get(rows, key), es, key)
  {
    var ks, latest := Keys(es), Latest(es);
    LatestHasKeys(es);
    LatestIsLast(es, key);
    PutAllAt(rows, ks, latest, key);
    DeleteAllAt(PutAll(rows, Upserts(ks, latest)), ks, latest, key);
    DeleteAllAt(rows, ks, latest, key);
    PutAllAt(DeleteAll(rows, Tombstones(ks, latest)), ks, latest, key);
  }

  lemma {:induction false} Listed<Out>(ks: seq<Key>, latest: map<Key, Verdict<Out>>, key: Key, out: Out)
    ensures (key, out) in Upserts(ks, latest) <==> key in ks && Get(latest, key) == Some(Upsert(out))
    ensures key in Tombstones(ks, latest) <==> key in ks && Get(latest, key) == Some(Tombstone)
  {
    if ks != [] {
      var rest, k := ks[..|ks| - 1], ks[|ks| - 1];
      assert key in ks <==> key in rest || key == k by { assert ks == rest + [k]; }
      Listed(rest, latest, key, out);
    }
  }

  /** A plan writes exactly the keys whose last verdict writes, each with that verdict, and no
      key is both upserted and tombstoned. */
  lemma {:induction false} PlanWrites<Out>(es: seq<Entry<Out>>, key: Key, out: Out)
    requires AnomalyFree(es)
    ensures (key, out) in PlanOf(es).upserts <==> LastVerdict(es, key) == Some(Upsert(out))
    ensures key in PlanOf(es).tombstones <==> LastVerdict(es, key) == Some(Tombstone)
    ensures (key, out) in PlanOf(es).upserts ==> key !in PlanOf(es).tombstones
  {
    Listed(Keys(es), Latest(es), key, out);
    LatestHasKeys(es);
    LatestIsLast(es, key);
  }

  // ---- page accounting ----

  /** Dropped revisions that a later revision of the same key in the page replaces. */
  ghost function SupersededDrops<Out>(es: seq<Entry<Out>>): set<int> {
    set i | 0 <= i < |es| && es[i].verdict.Drop? && Replaced(es, i)
  }

  ghost predicate Replaced<Out>(es: seq<Entry<Out>>, i: nat)
    requires i < |es|
  {
    exists j :: i < j < |es| && es[j].key == es[i].key
  }

  ghost function FinalDrops<Out>(es: seq<Entry<Out>>): set<Key> {
    set k | k in Latest(es) && Latest(es)[k].Drop?
  }

  ghost function DroppedKeys<Out>(ks: seq<Key>, latest: map<Key, Verdict<Out>>): set<Key> {
    set k | k in ks && k in latest && latest[k].Drop?
  }

  lemma {:induction false} ListedSizes<Out>(ks: seq<Key>, latest: map<Key, Verdict<Out>>)
    requires Distinct(ks)
    requires forall k :: k in ks ==> k in latest && !latest[k].Anomaly?
    ensures |Upserts(ks, latest)| + |Tombstones(ks, latest)| + |DroppedKeys(ks, latest)| == |ks|
  {
    if ks != [] {
      var rest, k := ks[..|ks| - 1], ks[|ks| - 1];
      assert ks == rest + [k] && k !in rest;
      ListedSizes(rest, latest);
      if latest[k].Drop? {
        assert DroppedKeys(ks, latest) == DroppedKeys(rest, latest) + {k};
      } else {
        assert DroppedKeys(ks, latest) == DroppedKeys(rest, latest);
      }
    }
  }

  lemma {:induction false} ReplacedWhenGrown<Out>(es: seq<Entry<Out>>, i: nat)
    requires i < |es| - 1
    ensures Replaced(es, i) <==> Replaced(es[..|es| - 1], i) || es[i].key == es[|es| - 1].key
  {
  }

  /** A superseded drop stays one when the page grows; the new revision adds at most the last
      drop of its own key. */
  lemma {:induction false} SupersededStep<Out>(es: seq<Entry<Out>>)
    requires es != []
    ensures |SupersededDrops(es)| == |SupersededDrops(es[..|es| - 1])|
                                   + if LastVerdict(es[..|es| - 1], es[|es| - 1].key) == Some(Drop) then 1 else 0
  {
    var n := |es| - 1;
    var rest, key := es[..n], es[n].key;
    LastVerdictIsLast(rest, key);
    forall i: nat | i < n ensures Replaced(es, i) <==> Replaced(rest, i) || es[i].key == key {
      ReplacedWhenGrown(es, i);
    }
    assert !Replaced(es, n);
    if Mentions(rest, key) {
      var l: nat :| && l < n && rest[l].key == key && rest[l].verdict == LastVerdict(rest, key).value
                    && forall j :: l < j < n ==> rest[j].key != key;
      forall i: nat | i < n && es[i].key == key && i != l ensures Replaced(rest, i) {
        assert rest[l].key == rest[i].key;
      }
      NewlySuperseded(es, l);
    } else {
      assert forall i :: 0 <= i < n ==> rest[i].key != key;
      assert SupersededDrops(es) == SupersededDrops(rest);
    }
  }

  lemma {:induction false} NewlySuperseded<Out>(es: seq<Entry<Out>>, l: nat)
    requires l < |es| - 1 && Replaced(es, l) && !Replaced(es[..|es| - 1], l) && !Replaced(es, |es| - 1)
    requires forall i: nat :: i < |es| - 1 && i != l ==> (Replaced(es, i) <==> Replaced(es[..|es| - 1], i))
    ensures |SupersededDrops(es)| == |SupersededDrops(es[..|es| - 1])| + if es[l].verdict.Drop? then 1 else 0
  {
    var rest := es[..|es| - 1];
    assert l !in SupersededDrops(rest);
    assert SupersededDrops(es) == SupersededDrops(rest) + if es[l].verdict.Drop? then {l} else {};
  }

  lemma {:induction false} FinalDropsStep<Out>(es: seq<Entry<Out>>)
    requires es != []
    ensures |FinalDrops(es)| == |FinalDrops(es[..|es| - 1])| + (if es[|es| - 1].verdict.Drop? then 1 else 0)
                              - (if LastVerdict(es[..|es| - 1], es[|es| - 1].key) == Some(Drop) then 1 else 0)
  {
    var rest, e := es[..|es| - 1], es[|es| - 1];
    LatestIsLast(rest, e.key);
    if e.verdict.Drop? {
      assert FinalDrops(es) == FinalDrops(rest) + {e.key};
    } else {
      assert FinalDrops(es) == FinalDrops(rest) - {e.key};
    }
  }

  lemma {:induction false} DropsSplit<Out>(es: seq<Entry<Out>>)
    ensures Drops(es) == |FinalDrops(es)| + |SupersededDrops(es)|
  {
    if es != [] {
      var rest, e := es[..|es| - 1], es[|es| - 1];
      DropsSplit(rest);
      SupersededStep(es);
      FinalDropsStep(es);
    }
  }

  /** Every revision of an applied page is accounted for: written, dropped at the end of its
      key, or superseded in the page. The report's own identity - read minus written equals
      what `skipped` names - is exact precisely when no dropped revision was superseded. */
  lemma {:induction false} PageAccounting<Out>(es: seq<Entry<Out>>)
    requires AnomalyFree(es)
    ensures var p := PlanOf(es);
      && |es| == |p.upserts| + |p.tombstones| + |FinalDrops(es)| + p.skipped.supersededDuplicate
      && p.skipped.droppedByMap == |FinalDrops(es)| + |SupersededDrops(es)|
      && (|es| - |p.upserts| - |p.tombstones| == p.skipped.droppedByMap + p.skipped.supersededDuplicate
          <==> SupersededDrops(es) == {})
  {
    var ks, latest := Keys(es), Latest(es);
    KeysAreMentions(es);
    LatestHasKeys(es);
    forall k | k in ks ensures k in latest && !latest[k].Anomaly? {
      LatestIsLast(es, k);
      LastVerdictIsLast(es, k);
    }
    ListedSizes(ks, latest);
    assert DroppedKeys(ks, latest) == FinalDrops(es);
    DropsSplit(es);
  }

  // ---- the order of the lists ----

  /** Some revision of `a` comes before every one of `b`. */
  ghost predicate MentionedFirst<Out>(es: seq<Entry<Out>>, a: Key, b: Key) {
    exists i :: 0 <= i < |es| && es[i].key == a && forall l :: 0 <= l <= i ==> es[l].key != b
  }

  lemma {:induction false} KeysByFirstMention<Out>(es: seq<Entry<Out>>)
    ensures forall a, b :: 0 <= a < b < |Keys(es)| ==> MentionedFirst(es, Keys(es)[a], Keys(es)[b])
  {
    if es != [] {
      var front, ks := es[..|es| - 1], Keys(es);
      KeysByFirstMention(front);
      KeysAreMentions(front);
      forall a, b | 0 <= a < b < |ks| ensures MentionedFirst(es, ks[a], ks[b]) {
        if b < |Keys(front)| {
          assert MentionedFirst(front, ks[a], ks[b]);
          var i :| 0 <= i < |front| && front[i].key == ks[a] && forall l :: 0 <= l <= i ==> front[l].key != ks[b];
          assert es[i].key == ks[a] && forall l :: 0 <= l <= i ==> es[l] == front[l];
        } else {
          assert ks[a] in Keys(front) && !Mentions(front, ks[b]);
          var i :| 0 <= i < |front| && front[i].key == ks[a];
          assert es[i].key == ks[a] && forall l :: 0 <= l <= i ==> es[l] == front[l] && front[l].key != ks[b];
        }
      }
    }
  }

  ghost predicate Ahead(ks: seq<Key>, x: Key, y: Key) {
    exists a, b :: 0 <= a < b < |ks| && ks[a] == x && ks[b] == y
  }

  ghost predicate InKeyOrder(ks: seq<Key>, listed: seq<Key>) {
    forall i, j :: 0 <= i < j < |listed| ==> Ahead(ks, listed[i], listed[j])
  }

  lemma {:induction false} AheadGrows(ks: seq<Key>, last: Key, x: Key, y: Key)
    ensures Ahead(ks, x, y) ==> Ahead(ks + [last], x, y)
    ensures x in ks ==> Ahead(ks + [last], x, last)
  {
    var more := ks + [last];
    if Ahead(ks, x, y) {
      var a, b :| 0 <= a < b < |ks| && ks[a] == x && ks[b] == y;
      assert more[a] == x && more[b] == y;
    }
    if x in ks {
      var a :| 0 <= a < |ks| && ks[a] == x;
      assert more[a] == x && more[|ks|] == last;
    }
  }

  function KeysOf<Out>(records: seq<(Key, Out)>): (ks: seq<Key>)
    ensures |ks| == |records| && forall i :: 0 <= i < |ks| ==> ks[i] == records[i].0
  {
    seq(|records|, i requires 0 <= i < |records| => records[i].0)
  }

  lemma {:induction false} OrderGrows(ks: seq<Key>, listed: seq<Key>, last: Key)
    requires InKeyOrder(ks, listed) && forall k :: k in listed ==> k in ks
    ensures InKeyOrder(ks + [last], listed) && InKeyOrder(ks + [last], listed + [last])
  {
    hide Ahead;
    forall x, y ensures (Ahead(ks, x, y) ==> Ahead(ks + [last], x, y)) && (x in ks ==> Ahead(ks + [last], x, last)) {
      AheadGrows(ks, last, x, y);
    }
  }

  lemma {:induction false} UpsertsInOrder<Out>(ks: seq<Key>, latest: map<Key, Verdict<Out>>)
    ensures InKeyOrder(ks, KeysOf(Upserts(ks, latest))) && forall k :: k in KeysOf(Upserts(ks, latest)) ==> k in ks
  {
    if ks != [] {
      hide InKeyOrder;
      var rest, k := ks[..|ks| - 1], ks[|ks| - 1];
      UpsertsInOrder(rest, latest);
      assert ks == rest + [k];
      OrderGrows(rest, KeysOf(Upserts(rest, latest)), k);
      if k in latest && latest[k].Upsert? {
        assert KeysOf(Upserts(ks, latest)) == KeysOf(Upserts(rest, latest)) + [k];
      }
    } else {
      assert KeysOf(Upserts(ks, latest)) == [];
    }
  }

  lemma {:induction false} TombstonesInOrder<Out>(ks: seq<Key>, latest: map<Key, Verdict<Out>>)
    ensures InKeyOrder(ks, Tombstones(ks, latest)) && forall k :: k in Tombstones(ks, latest) ==> k in ks
  {
    if ks != [] {
      hide InKeyOrder;
      var rest, k := ks[..|ks| - 1], ks[|ks| - 1];
      TombstonesInOrder(rest, latest);
      assert ks == rest + [k];
      OrderGrows(rest, Tombstones(rest, latest), k);
    }
  }

  /** Both lists of a plan are in the order in which the page first mentions their keys. */
  lemma {:induction false} PlanOrder<Out>(es: seq<Entry<Out>>)
    requires AnomalyFree(es)
    ensures var us, ts := PlanOf(es).upserts, PlanOf(es).tombstones;
      && (forall i, j :: 0 <= i < j < |us| ==> MentionedFirst(es, us[i].0, us[j].0))
      && (forall i, j :: 0 <= i < j < |ts| ==> MentionedFirst(es, ts[i], ts[j]))
  {
    hide Upserts, Tombstones, Keys, Latest, MentionedFirst;
    var ks, latest := Keys(es), Latest(es);
    KeysByFirstMention(es);
    UpsertsInOrder(ks, latest);
    TombstonesInOrder(ks, latest);
    var us, ts := KeysOf(Upserts(ks, latest)), Tombstones(ks, latest);
    forall i, j | 0 <= i < j < |us| ensures MentionedFirst(es, us[i], us[j]) {
      assert Ahead(ks, us[i], us[j]);
      var a, b :| 0 <= a < b < |ks| && ks[a] == us[i] && ks[b] == us[j];
    }
    forall i, j | 0 <= i < j < |ts| ensures MentionedFirst(es, ts[i], ts[j]) {
      assert Ahead(ks, ts[i], ts[j]);
      var a, b :| 0 <= a < b < |ks| && ks[a] == ts[i] && ks[b] == ts[j];
    }
  }

  // ---- each counter alone ----

  ghost function MentionedKeys<Out>(es: seq<Entry<Out>>): set<Key> { set e | e in es :: e.key }

  /** The keys whose last revision in the page is an upsert, and those whose last is a removal. */
  ghost function UpsertedKeys<Out>(es: seq<Entry<Out>>): set<Key> {
    set k | k in MentionedKeys(es) && LastVerdict(es, k).Some? && LastVerdict(es, k).value.Upsert?
  }

  ghost function RemovedKeys<Out>(es: seq<Entry<Out>>): set<Key> {
    set k | k in MentionedKeys(es) && LastVerdict(es, k) == Some(Tombstone)
  }

  /** The revisions the map dropped, and those a later one of their key in the page replaces. */
  ghost function DroppedRevisions<Out>(es: seq<Entry<Out>>): set<int> {
    set i | 0 <= i < |es| && es[i].verdict.Drop?
  }

  ghost function ReplacedRevisions<Out>(es: seq<Entry<Out>>): set<int> {
    set i | 0 <= i < |es| && Replaced(es, i)
  }

  lemma {:induction false} KeysAreMentioned<Out>(es: seq<Entry<Out>>)
    ensures forall k :: k in MentionedKeys(es) <==> k in Latest(es)
    ensures forall k :: k in Latest(es) ==> LastVerdict(es, k) == Some(Latest(es)[k])
  {
    KeysAreMentions(es);
    LatestHasKeys(es);
    forall k ensures k in MentionedKeys(es) <==> k in Latest(es) {
      if Mentions(es, k) {
        var i :| 0 <= i < |es| && es[i].key == k;
        assert es[i] in es;
      }
    }
    forall k | k in Latest(es) ensures LastVerdict(es, k) == Some(Latest(es)[k]) {
      LatestIsLast(es, k);
    }
  }

  ghost function UpsertedOf<Out>(ks: seq<Key>, latest: map<Key, Verdict<Out>>): set<Key> {
    set k | k in ks && k in latest && latest[k].Upsert?
  }

  ghost function RemovedOf<Out>(ks: seq<Key>, latest: map<Key, Verdict<Out>>): set<Key> {
    set k | k in ks && k in latest && latest[k].Tombstone?
  }

  lemma {:induction false} UpsertsAreCounted<Out>(ks: seq<Key>, latest: map<Key, Verdict<Out>>)
    requires Distinct(ks) && forall k :: k in ks ==> k in latest
    ensures |Upserts(ks, latest)| == |UpsertedOf(ks, latest)|
  {
    if ks != [] {
      var rest, k := ks[..|ks| - 1], ks[|ks| - 1];
      assert ks == rest + [k] && k !in rest;
      UpsertsAreCounted(rest, latest);
      if latest[k].Upsert? {
        assert UpsertedOf(ks, latest) == UpsertedOf(rest, latest) + {k};
      } else {
        assert UpsertedOf(ks, latest) == UpsertedOf(rest, latest);
      }
    }
  }

  lemma {:induction false} TombstonesAreCounted<Out>(ks: seq<Key>, latest: map<Key, Verdict<Out>>)
    requires Distinct(ks) && forall k :: k in ks ==> k in latest
    ensures |Tombstones(ks, latest)| == |RemovedOf(ks, latest)|
  {
    if ks != [] {
      var rest, k := ks[..|ks| - 1], ks[|ks| - 1];
      assert ks == rest + [k] && k !in rest;
      TombstonesAreCounted(rest, latest);
      if latest[k].Tombstone? {
        assert RemovedOf(ks, latest) == RemovedOf(rest, latest) + {k};
      } else {
        assert RemovedOf(ks, latest) == RemovedOf(rest, latest);
      }
    }
  }

  lemma {:induction false} DropsAreCounted<Out>(es: seq<Entry<Out>>)
    ensures Drops(es) == |DroppedRevisions(es)|
  {
    if es != [] {
      var n := |es| - 1;
      DropsAreCounted(es[..n]);
      assert DroppedRevisions(es) == DroppedRevisions(es[..n]) + if es[n].verdict.Drop? then {n} else {};
    }
  }

  lemma {:induction false} ReplacedAreCounted<Out>(es: seq<Entry<Out>>)
    ensures |ReplacedRevisions(es)| + |Keys(es)| == |es|
  {
    if es != [] {
      hide ReplacedRevisions;
      ReplacedAreCounted(es[..|es| - 1]);
      ReplacedStep(es);
    }
  }

  /** A page that grows by a revision of a key it mentions has one more replaced revision. */
  lemma {:induction false} ReplacedStep<Out>(es: seq<Entry<Out>>)
    requires es != []
    ensures |ReplacedRevisions(es)| == |ReplacedRevisions(es[..|es| - 1])|
                                     + if es[|es| - 1].key in Keys(es[..|es| - 1]) then 1 else 0
  {
    hide LastVerdict, Keys;
    var n := |es| - 1;
    var rest, key := es[..n], es[n].key;
    KeysAreMentions(rest);
    LastVerdictIsLast(rest, key);
    forall i: nat | i < n ensures Replaced(es, i) <==> Replaced(rest, i) || es[i].key == key {
      ReplacedWhenGrown(es, i);
    }
    assert !Replaced(es, n);
    if Mentions(rest, key) {
      var l: nat :| l < n && rest[l].key == key && forall j :: l < j < n ==> rest[j].key != key;
      forall i: nat | i < n && es[i].key == key && i != l ensures Replaced(rest, i) {
        assert rest[l].key == rest[i].key;
      }
      NewlyReplaced(es, l);
    } else {
      assert forall i :: 0 <= i < n ==> rest[i].key != key;
      assert ReplacedRevisions(es) == ReplacedRevisions(rest);
    }
  }

  lemma {:induction false} NewlyReplaced<Out>(es: seq<Entry<Out>>, l: nat)
    requires l < |es| - 1 && Replaced(es, l) && !Replaced(es[..|es| - 1], l) && !Replaced(es, |es| - 1)
    requires forall i: nat :: i < |es| - 1 && i != l ==> (Replaced(es, i) <==> Replaced(es[..|es| - 1], i))
    ensures |ReplacedRevisions(es)| == |ReplacedRevisions(es[..|es| - 1])| + 1
  {
    var rest := es[..|es| - 1];
    assert l !in ReplacedRevisions(rest);
    assert ReplacedRevisions(es) == ReplacedRevisions(rest) + {l};
  }

  /** What each counter of a plan counts, on the page itself. */
  lemma {:induction false} PlanCounts<Out>(es: seq<Entry<Out>>)
    requires AnomalyFree(es)
    ensures var p := PlanOf(es);
      && |p.upserts| == |UpsertedKeys(es)| && |p.tombstones| == |RemovedKeys(es)|
      && p.skipped.droppedByMap == |DroppedRevisions(es)|
      && p.skipped.supersededDuplicate == |ReplacedRevisions(es)|
      && p.skipped.nullPostImage == 0 && p.anomalies == 0 && !p.stalled
  {
    hide Upserts, Tombstones, Drops, Replaced, LastVerdict;
    var ks, latest := Keys(es), Latest(es);
    KeysAreMentions(es);
    LatestHasKeys(es);
    KeysAreMentioned(es);
    UpsertsAreCounted(ks, latest);
    TombstonesAreCounted(ks, latest);
    assert UpsertedKeys(es) == UpsertedOf(ks, latest) && RemovedKeys(es) == RemovedOf(ks, latest);
    DropsAreCounted(es);
    ReplacedAreCounted(es);
  }

  /** The identity does fail: a dropped revision replaced in its own page is counted twice. */
  lemma {:induction false} AccountingCanOvercount<Out>(k: Key, out: Out)
    ensures var es := [Entry(k, Drop, Pos(1, 1)), Entry(k, Upsert(out), Pos(2, 2))];
      AnomalyFree(es)
      && |es| - |PlanOf(es).upserts| - |PlanOf(es).tombstones|
         < PlanOf(es).skipped.droppedByMap + PlanOf(es).skipped.supersededDuplicate
  {
    var es := [Entry(k, Drop, Pos(1, 1)), Entry(k, Upsert(out), Pos(2, 2))];
    PageAccounting(es);
    assert es[1].key == es[0].key;
    assert 0 in SupersededDrops(es);
    assert |SupersededDrops(es)| > 0;
  }
}
