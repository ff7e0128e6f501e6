/**
 The exemplar store of crates/tsink-server/src/exemplar_store.rs: exemplars by series and timestamp,
 bounded per series and in total. A series is known by its place in key order; labels and value of
 an exemplar are one opaque body.
 */
module Exemplars {
  import opened Common
  import opened TopK

  type Series = map<int, int>
  type Store = map<int, Series>

  datatype Write = Write(key: int, ts: int, body: int)

  datatype Id = Id(ts: int, key: int)

  function Earlier(a: int, b: int): bool {
    a < b
  }

  /** Older first, and by series among equal timestamps. */
  function IdLess(a: Id, b: Id): bool {
    a.ts < b.ts || (a.ts == b.ts && a.key < b.key)
  }

  function Inner(store: Store, key: int): Series {
    if key in store then store[key] else map[]
  }

  function Ids(store: Store): set<Id> {
    set key, ts | key in store && ts in store[key] :: Id(ts, key)
  }

  ghost predicate Has(store: Store, id: Id) {
    id.key in store && id.ts in store[id.key]
  }

  lemma IdsAre(store: Store, id: Id)
    ensures id in Ids(store) <==> Has(store, id)
  {
  }

  // ----- One series -----

  /** The `k` latest exemplars of a series. */
  ghost function Latest(series: Series, k: nat): Series {
    map ts | ts in Top(Earlier, series.Keys, k) :: series[ts]
  }

  /** All writes to a series, the last one to a timestamp winning. */
  function Merged(was: Series, writes: seq<Write>, key: int): Series {
    if writes == [] then was
    else
      var before, w := Merged(was, writes[..|writes| - 1], key), writes[|writes| - 1];
      if w.key == key then before[w.ts := w.body] else before
  }

  /** Some write to the series has a timestamp it did not hold. */
  ghost predicate AnyFresh(was: Series, writes: seq<Write>, key: int) {
    exists i :: 0 <= i < |writes| && writes[i].key == key && writes[i].ts !in was
  }

  /**
   What a batch makes of a series: everything written to it, cut to the latest `k` as soon as it
   gains a timestamp. A series that was too long stays so while its exemplars are only replaced.
   */
  ghost function SeriesAfter(was: Series, writes: seq<Write>, key: int, k: nat): Series {
    if AnyFresh(was, writes, key) then Latest(Merged(was, writes, key), k) else Merged(was, writes, key)
  }

  lemma {:induction false} MergedKeys(was: Series, writes: seq<Write>, key: int)
    ensures was.Keys <= Merged(was, writes, key).Keys
    ensures !AnyFresh(was, writes, key) ==> Merged(was, writes, key).Keys == was.Keys
  {
    if writes != [] {
      var front := writes[..|writes| - 1];
      MergedKeys(was, front, key);
      if AnyFresh(was, front, key) {
        var i :| 0 <= i < |front| && front[i].key == key && front[i].ts !in was;
        assert writes[i] == front[i];
      }
      if writes[|writes| - 1].key == key && writes[|writes| - 1].ts !in was {
        assert AnyFresh(was, writes, key);
      }
    }
  }

  lemma FreshStep(was: Series, writes: seq<Write>, w: Write, key: int)
    ensures AnyFresh(was, writes + [w], key) <==> AnyFresh(was, writes, key) || (w.key == key && w.ts !in was)
    ensures Merged(was, writes + [w], key)
         == if w.key == key then Merged(was, writes, key)[w.ts := w.body] else Merged(was, writes, key)
  {
    var all := writes + [w];
    assert all[..|writes|] == writes;
    if AnyFresh(was, writes, key) {
      var i :| 0 <= i < |writes| && writes[i].key == key && writes[i].ts !in was;
      assert all[i] == writes[i];
    }
    if w.key == key && w.ts !in was {
      assert all[|writes|] == w;
    }
    if AnyFresh(was, all, key) {
      var i :| 0 <= i < |all| && all[i].key == key && all[i].ts !in was;
      assert i < |writes| ==> writes[i] == all[i];
    }
  }

  /** Cutting before a new exemplar comes in gives the same as cutting afterwards. */
  lemma LatestOfLatest(all: Series, ts: int, body: int, k: nat)
    ensures
      var cut := Latest(all, k);
      (if ts in cut then cut[ts := body] else Latest(cut[ts := body], k)) == Latest(all[ts := body], k)
  {
    var cut := Latest(all, k);
    TopOfTop(Earlier, all.Keys, k, ts);
    assert cut.Keys == Top(Earlier, all.Keys, k);
    assert all[ts := body].Keys == all.Keys + {ts};
    if ts in cut {
      assert all.Keys + {ts} == all.Keys;
    } else {
      assert cut[ts := body].Keys == cut.Keys + {ts};
    }
  }

  /** One more write to the series. */
  lemma SeriesStep(was: Series, writes: seq<Write>, w: Write, k: nat)
    ensures
      var before := SeriesAfter(was, writes, w.key, k);
      SeriesAfter(was, writes + [w], w.key, k)
      == if w.ts in before then before[w.ts := w.body] else Latest(before[w.ts := w.body], k)
  {
    FreshStep(was, writes, w, w.key);
    MergedKeys(was, writes, w.key);
    LatestOfLatest(Merged(was, writes, w.key), w.ts, w.body, k);
  }

  lemma OtherSeriesStep(was: Series, writes: seq<Write>, w: Write, key: int, k: nat)
    requires w.key != key
    ensures SeriesAfter(was, writes + [w], key, k) == SeriesAfter(was, writes, key, k)
  {
    FreshStep(was, writes, w, key);
  }

  method FirstTimestamp(series: Series) returns (ts: int)
    requires series != map[]
    ensures Least(Earlier, series.Keys, ts)
  {
    var all := series.Keys;
    assert all != {};
    ghost var least := LeastExists(Earlier, all);
    assert forall u :: u in all && u != least ==> Earlier(least, u);
    ts :| ts in all && forall u :: u in all && u != ts ==> Earlier(ts, u);
  }

  /** Insertion into one series, and the loop that pops its oldest exemplars. */
  method InsertInto(series: Series, w: Write, k: nat) returns (after: Series, added: bool, dropped: nat)
    ensures added == (w.ts !in series)
    ensures after == if added then Latest(series[w.ts := w.body], k) else series[w.ts := w.body]
    ensures |after| + dropped == |series| + (if added then 1 else 0)
  {
    after, added, dropped := series[w.ts := w.body], w.ts !in series, 0;
    assert after.Keys == series.Keys + {w.ts};
    assert |after.Keys| == |after| && |series.Keys| == |series|;
    if !added {
      assert after.Keys == series.Keys;
      return;
    }
    ghost var all := after;
    while |after| > k
      invariant Latest(after, k) == Latest(all, k) && |after| + dropped == |all|
      decreases |after|
    {
      var ts := FirstTimestamp(after);
      PopKeepsLatest(after, ts, k);
      assert (after - {ts}).Keys == after.Keys - {ts};
      assert |(after - {ts}).Keys| == |after - {ts}| && |after.Keys| == |after|;
      after, dropped := after - {ts}, dropped + 1;
    }
    assert |after.Keys| == |after|;
    TopAll(Earlier, after.Keys, k);
    assert Latest(after, k) == after;
  }

  lemma PopKeepsLatest(series: Series, ts: int, k: nat)
    requires Least(Earlier, series.Keys, ts) && |series| > k
    ensures Latest(series - {ts}, k) == Latest(series, k)
  {
    assert |series.Keys| == |series| && (series - {ts}).Keys == series.Keys - {ts};
    DropLeast(Earlier, series.Keys, ts, k);
  }

  // ----- A batch -----

  ghost function KeysOf(writes: seq<Write>): set<int> {
    set i | 0 <= i < |writes| :: writes[i].key
  }

  /** The store after all insertions of a batch. */
  ghost function AfterBatch(was: Store, writes: seq<Write>, k: nat): Store {
    map key | key in was.Keys + KeysOf(writes) :: SeriesAfter(Inner(was, key), writes, key, k)
  }

  /** How many writes find their timestamp not in the series at that moment. */
  ghost function Added(was: Store, writes: seq<Write>, k: nat): nat {
    if writes == [] then 0
    else
      var front, w := writes[..|writes| - 1], writes[|writes| - 1];
      Added(was, front, k) + (if w.ts in Inner(AfterBatch(was, front, k), w.key) then 0 else 1)
  }

  lemma {:induction false} NoWritesNoChange(was: Series, writes: seq<Write>, key: int, k: nat)
    requires key !in KeysOf(writes)
    ensures SeriesAfter(was, writes, key, k) == was
  {
    if writes != [] {
      var front, w := writes[..|writes| - 1], writes[|writes| - 1];
      assert w.key in KeysOf(writes) && forall i :: 0 <= i < |front| ==> front[i] == writes[i];
      assert writes == front + [w];
      NoWritesNoChange(was, front, key, k);
      OtherSeriesStep(was, front, w, key, k);
    }
  }

  lemma KeysAppend(writes: seq<Write>, w: Write)
    ensures KeysOf(writes + [w]) == KeysOf(writes) + {w.key}
  {
    var all := writes + [w];
    assert all[|writes|] == w && forall i :: 0 <= i < |writes| ==> all[i] == writes[i];
  }

  lemma BatchInner(was: Store, writes: seq<Write>, key: int, k: nat)
    ensures Inner(AfterBatch(was, writes, k), key) == SeriesAfter(Inner(was, key), writes, key, k)
  {
    if key !in AfterBatch(was, writes, k) {
      NoWritesNoChange(Inner(was, key), writes, key, k);
    }
  }

  lemma BatchStep(was: Store, writes: seq<Write>, w: Write, k: nat)
    ensures
      var before := AfterBatch(was, writes, k);
      var inner := Inner(before, w.key);
      AfterBatch(was, writes + [w], k)
      == before[w.key := if w.ts in inner then inner[w.ts := w.body] else Latest(inner[w.ts := w.body], k)]
  {
    var before, after := AfterBatch(was, writes, k), AfterBatch(was, writes + [w], k);
    KeysAppend(writes, w);
    BatchInner(was, writes, w.key, k);
    BatchInner(was, writes + [w], w.key, k);
    SeriesStep(Inner(was, w.key), writes, w, k);
    forall key | key in before && key != w.key ensures Inner(after, key) == before[key] {
      BatchInner(was, writes, key, k);
      BatchInner(was, writes + [w], key, k);
      OtherSeriesStep(Inner(was, key), writes, w, key, k);
    }
    OneSeriesChanged(before, after, w.key);
  }

  lemma OneSeriesChanged(before: Store, after: Store, key: int)
    requires after.Keys == before.Keys + {key}
    requires forall other :: other in before && other != key ==> Inner(after, other) == before[other]
    ensures after == before[key := Inner(after, key)]
  {
    var updated := before[key := Inner(after, key)];
    assert updated.Keys == after.Keys;
    forall other | other in after ensures updated[other] == after[other] {
      assert other == key || Inner(after, other) == before[other];
    }
  }

  lemma ReplaceSeriesCount(store: Store, key: int, series: Series)
    ensures |Ids(store[key := series])| == |Ids(store)| - |Inner(store, key)| + |series|
  {
    var others := set id | id in Ids(store) && id.key != key;
    SeriesIds(store, key, others);
    SeriesIds(store[key := series], key, others);
  }

  lemma SeriesIds(store: Store, key: int, others: set<Id>)
    requires others == set id | id in Ids(store) && id.key != key
    ensures |Ids(store)| == |others| + |Inner(store, key)|
  {
    var own := set ts | ts in Inner(store, key) :: Id(ts, key);
    TagSize(Inner(store, key).Keys, key, own);
    assert |Inner(store, key).Keys| == |Inner(store, key)|;
    assert Ids(store) == others + own;
  }

  lemma {:induction false} TagSize(s: set<int>, key: int, tagged: set<Id>)
    requires tagged == set ts | ts in s :: Id(ts, key)
    ensures |tagged| == |s|
    decreases |s|
  {
    if s != {} {
      var ts := Pick(s);
      TagSize(s - {ts}, key, tagged - {Id(ts, key)});
    }
  }

  /** The writes are in the store, and every exemplar is accounted for. */
  ghost predicate Inserted(was: Store, writes: seq<Write>, k: nat, store: Store, dropped: nat) {
    store == AfterBatch(was, writes, k) && |Ids(store)| + dropped == |Ids(was)| + Added(was, writes, k)
  }

  lemma InsertedStep(was: Store, writes: seq<Write>, w: Write, more: seq<Write>, k: nat, store: Store, dropped: nat,
                     after: Series, popped: nat)
    requires Inserted(was, writes, k, store, dropped) && more == writes + [w]
    requires
      var inner := Inner(store, w.key);
      && after == (if w.ts in inner then inner[w.ts := w.body] else Latest(inner[w.ts := w.body], k))
      && |after| + popped == |inner| + (if w.ts in inner then 0 else 1)
    ensures Inserted(was, more, k, store[w.key := after], dropped + popped)
  {
    BatchStep(was, writes, w, k);
    AddedStep(was, writes, w, k);
    ReplaceSeriesCount(store, w.key, after);
  }

  ghost predicate InsertedUpTo(was: Store, writes: seq<Write>, i: nat, k: nat, store: Store, dropped: nat) {
    i <= |writes| && Inserted(was, writes[..i], k, store, dropped)
  }

  method InsertOne(ghost was: Store, writes: seq<Write>, i: nat, k: nat, store: Store, dropped: nat)
    returns (after: Store, allDropped: nat)
    requires i < |writes| && InsertedUpTo(was, writes, i, k, store, dropped)
    ensures InsertedUpTo(was, writes, i + 1, k, after, allDropped)
  {
    var w := writes[i];
    var series, added, popped := InsertInto(Inner(store, w.key), w, k);
    InsertedNext(was, writes, i, k, store, dropped, series, popped);
    return store[w.key := series], dropped + popped;
  }

  lemma InsertedNext(was: Store, writes: seq<Write>, i: nat, k: nat, store: Store, dropped: nat, after: Series, popped: nat)
    requires i < |writes| && InsertedUpTo(was, writes, i, k, store, dropped)
    requires
      var w, inner := writes[i], Inner(store, writes[i].key);
      && after == (if w.ts in inner then inner[w.ts := w.body] else Latest(inner[w.ts := w.body], k))
      && |after| + popped == |inner| + (if w.ts in inner then 0 else 1)
    ensures InsertedUpTo(was, writes, i + 1, k, store[writes[i].key := after], dropped + popped)
  {
    assert writes[..i + 1] == writes[..i] + [writes[i]];
    InsertedStep(was, writes[..i], writes[i], writes[..i + 1], k, store, dropped, after, popped);
  }

  lemma AllInserted(was: Store, writes: seq<Write>, k: nat, store: Store, dropped: nat)
    requires InsertedUpTo(was, writes, |writes|, k, store, dropped)
    ensures Inserted(was, writes, k, store, dropped)
  {
    assert writes[..|writes|] == writes;
  }

  /** The loop over the writes of a batch. */
  method InsertAll(was: Store, writes: seq<Write>, k: nat) returns (store: Store, dropped: nat)
    ensures Inserted(was, writes, k, store, dropped)
  {
    store, dropped := was, 0;
    EmptyBatch(was, k);
    for i := 0 to |writes|
      invariant InsertedUpTo(was, writes, i, k, store, dropped)
    {
      store, dropped := InsertOne(was, writes, i, k, store, dropped);
    }
    AllInserted(was, writes, k, store, dropped);
  }

  lemma AddedStep(was: Store, writes: seq<Write>, w: Write, k: nat)
    ensures Added(was, writes + [w], k)
         == Added(was, writes, k) + (if w.ts in Inner(AfterBatch(was, writes, k), w.key) then 0 else 1)
  {
    assert (writes + [w])[..|writes|] == writes;
  }

  lemma EmptyBatch(was: Store, k: nat)
    ensures AfterBatch(was, [], k) == was
  {
    assert KeysOf([]) == {};
    forall key | key in was ensures SeriesAfter(Inner(was, key), [], key, k) == was[key] {
      NoWritesNoChange(was[key], [], key, k);
    }
  }

  // ----- The total bound -----

  /** `drop_oldest_exemplar`: the least of the first exemplars of all series. */
  method OldestId(store: Store) returns (oldest: Option<Id>)
    ensures oldest.None? ==> Ids(store) == {}
    ensures oldest.Some? ==> Least(IdLess, Ids(store), oldest.value)
  {
    oldest := None;
    var keys := store.Keys;
    while keys != {}
      invariant keys <= store.Keys
      invariant oldest.None? ==> forall id :: id in Ids(store) ==> id.key in keys
      invariant oldest.Some? ==> oldest.value in Ids(store)
      invariant oldest.Some? ==>
                  forall id :: id in Ids(store) && id.key !in keys && id != oldest.value ==> IdLess(oldest.value, id)
      decreases |keys|
    {
      ghost var some := Pick(keys);
      var key :| key in keys;
      if store[key] != map[] {
        var ts := FirstTimestamp(store[key]);
        var first := Id(ts, key);
        assert first in Ids(store);
        assert forall id :: id in Ids(store) && id.key == key && id != first ==> IdLess(first, id);
        if oldest.None? || IdLess(first, oldest.value) {
          oldest := Some(first);
        }
      }
      keys := keys - {key};
    }
  }

  function WithoutId(store: Store, id: Id): Store
    requires id.key in store
  {
    var series := store[id.key] - {id.ts};
    if series == map[] then store - {id.key} else store[id.key := series]
  }

  lemma WithoutIdIds(store: Store, id: Id)
    requires Has(store, id)
    ensures Ids(WithoutId(store, id)) == Ids(store) - {id}
    ensures forall other :: Has(WithoutId(store, id), other) ==>
              Has(store, other) && WithoutId(store, id)[other.key][other.ts] == store[other.key][other.ts]
  {
    var after := WithoutId(store, id);
    forall other ensures other in Ids(after) <==> other in Ids(store) && other != id {
      IdsAre(after, other);
      IdsAre(store, other);
      if Has(store, other) && other != id && other.key == id.key {
        assert other.ts in store[id.key] - {id.ts};
      }
    }
    forall other | Has(after, other)
      ensures Has(store, other) && after[other.key][other.ts] == store[other.key][other.ts]
    {
    }
  }

  /** Every exemplar of `a` is one of `b`. */
  ghost predicate Within(a: Store, b: Store) {
    forall id :: Has(a, id) ==> Has(b, id) && a[id.key][id.ts] == b[id.key][id.ts]
  }

  /** The eviction loop: what is left are the `maxTotal` greatest by timestamp and series. */
  method EvictOldest(was: Store, maxTotal: nat) returns (store: Store, dropped: nat)
    ensures Ids(store) == Top(IdLess, Ids(was), maxTotal) && Within(store, was)
    ensures |Ids(store)| + dropped == |Ids(was)|
  {
    store, dropped := was, 0;
    while |Ids(store)| > maxTotal
      invariant Top(IdLess, Ids(store), maxTotal) == Top(IdLess, Ids(was), maxTotal)
      invariant Within(store, was) && |Ids(store)| + dropped == |Ids(was)|
      decreases |Ids(store)|
    {
      var oldest := OldestId(store);
      IdsAre(store, oldest.value);
      DropLeast(IdLess, Ids(store), oldest.value, maxTotal);
      WithoutIdIds(store, oldest.value);
      store, dropped := WithoutId(store, oldest.value), dropped + 1;
    }
    TopAll(IdLess, Ids(store), maxTotal);
  }

  /** `retain`: series without exemplars go. */
  function NonEmptySeries(store: Store): Store {
    map key | key in store && store[key] != map[] :: store[key]
  }

  ghost predicate NoEmptySeries(store: Store) {
    forall key :: key in store ==> store[key] != map[]
  }

  // ----- The file -----

  /** `load_state` */
  function Load(entries: seq<Write>): Store {
    if entries == [] then map[]
    else
      var before, w := Load(entries[..|entries| - 1]), entries[|entries| - 1];
      before[w.key := Inner(before, w.key)[w.ts := w.body]]
  }

  /** The entries are the exemplars of the store. */
  ghost predicate Lists(entries: seq<Write>, store: Store) {
    && (forall i :: 0 <= i < |entries| ==> Has(store, IdOf(entries[i])) && store[entries[i].key][entries[i].ts] == entries[i].body)
    && (forall id :: Has(store, id) ==> Mentions(entries, id))
  }

  lemma {:induction false} LoadContents(entries: seq<Write>, store: Store)
    requires forall i :: 0 <= i < |entries| ==> Has(store, IdOf(entries[i])) && store[entries[i].key][entries[i].ts] == entries[i].body
    ensures NoEmptySeries(Load(entries)) && Within(Load(entries), store)
    ensures forall i :: 0 <= i < |entries| ==> Has(Load(entries), IdOf(entries[i]))
  {
    if entries != [] {
      var front, w := entries[..|entries| - 1], entries[|entries| - 1];
      assert forall i :: 0 <= i < |front| ==> front[i] == entries[i];
      LoadContents(front, store);
      forall i | 0 <= i < |entries| ensures Has(Load(entries), IdOf(entries[i])) {
        if i < |front| {
          assert Has(Load(front), IdOf(front[i]));
        }
      }
    }
  }

  /** Reading back what was written gives the same store. */
  lemma PersistRoundTrip(entries: seq<Write>, store: Store)
    requires Lists(entries, store) && NoEmptySeries(store)
    ensures Load(entries) == store
  {
    var loaded := Load(entries);
    LoadContents(entries, store);
    forall id | Has(store, id) ensures Has(loaded, id) {
      var i :| 0 <= i < |entries| && IdOf(entries[i]) == id;
    }
    SameExemplars(loaded, store);
  }

  lemma SameExemplars(a: Store, b: Store)
    requires NoEmptySeries(a) && NoEmptySeries(b) && Within(a, b) && forall id :: Has(b, id) ==> Has(a, id)
    ensures a == b
  {
    forall key ensures key in a <==> key in b {
      if key in a {
        var ts := Pick(a[key].Keys);
        assert Has(a, Id(ts, key));
      }
      if key in b {
        var ts := Pick(b[key].Keys);
        assert Has(b, Id(ts, key));
      }
    }
    forall key | key in a ensures a[key] == b[key] {
      forall ts ensures ts in a[key] <==> ts in b[key] {
        assert Has(a, Id(ts, key)) <==> ts in a[key];
        assert Has(b, Id(ts, key)) <==> ts in b[key];
      }
      forall ts | ts in a[key] ensures a[key][ts] == b[key][ts] {
        assert Has(a, Id(ts, key));
      }
    }
  }

  ghost predicate InListOrder(entries: seq<Write>) {
    forall i, j :: 0 <= i < j < |entries| ==> ListLess(IdOf(entries[i]), IdOf(entries[j]))
  }

  function IdOf(w: Write): Id {
    Id(w.ts, w.key)
  }

  ghost predicate Mentions(entries: seq<Write>, id: Id) {
    exists i :: 0 <= i < |entries| && IdOf(entries[i]) == id
  }

  /** Everything but `left` is listed, in order and before all of `left`. */
  ghost predicate Listing(entries: seq<Write>, store: Store, left: set<Id>) {
    && left <= Ids(store) && InListOrder(entries)
    && (forall i :: 0 <= i < |entries| ==> Has(store, IdOf(entries[i])) && store[entries[i].key][entries[i].ts] == entries[i].body)
    && (forall id :: id in Ids(store) && id !in left ==> Mentions(entries, id))
    && (forall i, id :: 0 <= i < |entries| && id in left ==> ListLess(IdOf(entries[i]), id))
  }

  lemma ListingStep(entries: seq<Write>, store: Store, left: set<Id>, id: Id)
    requires Listing(entries, store, left) && Least(ListLess, left, id) && Has(store, id)
    ensures Listing(entries + [Write(id.key, id.ts, store[id.key][id.ts])], store, left - {id})
  {
    var after := entries + [Write(id.key, id.ts, store[id.key][id.ts])];
    forall other | other in Ids(store) && other !in left - {id} ensures Mentions(after, other) {
      if other == id {
        assert IdOf(after[|entries|]) == id;
      } else {
        var i :| 0 <= i < |entries| && IdOf(entries[i]) == other;
        assert after[i] == entries[i];
      }
    }
    forall i, u | 0 <= i < |after| && u in left - {id} ensures ListLess(IdOf(after[i]), u) {
    }
  }

  /** `write_store_file`: series by key, exemplars by timestamp. */
  method ListStore(store: Store) returns (entries: seq<Write>)
    ensures Lists(entries, store) && InListOrder(entries)
  {
    entries := [];
    var left := Ids(store);
    while left != {}
      invariant Listing(entries, store, left)
      decreases |left|
    {
      ghost var least := LeastExists(ListLess, left);
      assert forall u :: u in left && u != least ==> ListLess(least, u);
      var id :| id in left && forall u :: u in left && u != id ==> ListLess(id, u);
      IdsAre(store, id);
      ListingStep(entries, store, left, id);
      entries := entries + [Write(id.key, id.ts, store[id.key][id.ts])];
      left := left - {id};
    }
    forall id | Has(store, id) ensures Mentions(entries, id) {
      IdsAre(store, id);
    }
  }

  function ListLess(a: Id, b: Id): bool {
    a.key < b.key || (a.key == b.key && a.ts < b.ts)
  }

  // ----- The store -----

  class ExemplarStore {
    const maxPerSeries: nat
    const maxTotal: nat
    var series: Store
    var file: seq<Write>

    ghost predicate Valid()
      reads this
    {
      NoEmptySeries(series)
    }

    /** `open` */
    constructor (maxPerSeries: nat, maxTotal: nat, file: seq<Write>)
      ensures Valid() && series == Load(file) && this.file == file
      ensures this.maxPerSeries == maxPerSeries && this.maxTotal == maxTotal
    {
      this.maxPerSeries, this.maxTotal, this.file := maxPerSeries, maxTotal, file;
      var loaded := LoadAll(file);
      series := loaded;
      new;
      LoadNonEmpty(file);
    }

    /**
     `apply_writes`: of everything in the series after the batch, exactly the `maxTotal` greatest by
     timestamp and series stay. If the file cannot be written the new state stays in memory.
     */
    method ApplyWrites(writes: seq<Write>, persists: bool) returns (ok: bool, accepted: nat, dropped: nat)
      requires Valid()
      modifies this
      ensures Valid()
      ensures writes == [] ==> series == old(series) && ok && dropped == 0
      ensures writes != [] ==>
                var batch := AfterBatch(old(series), writes, maxPerSeries);
                Ids(series) == Top(IdLess, Ids(batch), maxTotal) && Within(series, batch)
      ensures accepted == |writes|
      ensures |Ids(series)| + dropped == |Ids(old(series))| + Added(old(series), writes, maxPerSeries)
      ensures writes != [] ==> |Ids(series)| <= maxTotal && ok == persists
      ensures file == old(file) || Load(file) == series
      ensures ok && writes != [] ==> Load(file) == series
    {
      if writes == [] {
        return true, 0, 0;
      }
      var batch, popped := InsertAll(series, writes, maxPerSeries);
      var left, evicted := EvictOldest(batch, maxTotal);
      TopSize(IdLess, Ids(batch), maxTotal);
      RetainKeeps(left);
      series := NonEmptySeries(left);
      if persists {
        file := ListStore(series);
        PersistRoundTrip(file, series);
      }
      return persists, |writes|, popped + evicted;
    }
  }

  method LoadAll(entries: seq<Write>) returns (store: Store)
    ensures store == Load(entries)
  {
    store := map[];
    for i := 0 to |entries|
      invariant store == Load(entries[..i])
    {
      assert entries[..i + 1][..i] == entries[..i];
      var w := entries[i];
      store := store[w.key := Inner(store, w.key)[w.ts := w.body]];
    }
    assert entries[..|entries|] == entries;
  }

  lemma {:induction false} LoadNonEmpty(entries: seq<Write>)
    ensures NoEmptySeries(Load(entries))
  {
    if entries != [] {
      var w := entries[|entries| - 1];
      LoadNonEmpty(entries[..|entries| - 1]);
      assert w.ts in Load(entries)[w.key];
    }
  }

  lemma RetainKeeps(store: Store)
    ensures Ids(NonEmptySeries(store)) == Ids(store) && NoEmptySeries(NonEmptySeries(store))
    ensures Within(NonEmptySeries(store), store)
  {
  }

  /** From a store within the bounds, every series ends as the latest exemplars ever written to it. */
  lemma BoundedSeriesAfter(was: Series, writes: seq<Write>, key: int, k: nat)
    requires |was| <= k
    ensures SeriesAfter(was, writes, key, k) == Latest(Merged(was, writes, key), k)
  {
    MergedKeys(was, writes, key);
    if !AnyFresh(was, writes, key) {
      var all := Merged(was, writes, key);
      assert |all.Keys| == |was.Keys| == |was|;
      TopAll(Earlier, all.Keys, k);
      assert Latest(all, k) == all;
    }
  }
}
