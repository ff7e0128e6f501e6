/**
 The incremental catalog cache of src/engine/registry_catalog.rs.  It reads each segment once,
 counts how many segments hold each series, and drops its fingerprint whenever the segment set
 changes.  Every catalog it returns is the one a from-scratch build would return.
 */
module CatalogCache {
  import opened Common
  import opened CatalogSpec

  datatype CachedSegment = CachedSegment(entry: Entry, seriesIds: Option<set<SeriesId>>)
  datatype CachedSeries = CachedSeries(key: SeriesKey, segments: nat)

  /** Which reads succeed during one call; a failing read makes that call fail. */
  datatype Io = Io(manifest: Root -> bool, metadata: Root -> bool)

  /** What is at the catalog path: nothing, bytes that do not parse, or a catalog. */
  datatype DiskFile = Missing | Unreadable | Present(catalog: CatalogFile)

  ghost predicate AllReadable(io: Io, sources: seq<Source>) {
    forall i :: 0 <= i < |sources| ==> io.manifest(sources[i].root) && io.metadata(sources[i].root)
  }

  ghost function IdsOf(bindings: set<Binding>): set<SeriesId> {
    set b | b in bindings :: b.0
  }

  ghost function SegmentBindings(w: World, root: Root): set<Binding> {
    BindingSet(w.seriesOf(root))
  }

  /** The series ids of each loaded segment. */
  type Loaded = map<Root, set<SeriesId>>

  ghost function LoadedSegments(segments: map<Root, CachedSegment>): Loaded {
    map root | root in segments && segments[root].seriesIds.Some? :: segments[root].seriesIds.value
  }

  /** The loaded segments that hold `id`. */
  ghost function Holders(loaded: Loaded, id: SeriesId): set<Root> {
    set root | root in loaded && id in loaded[root]
  }

  function Keys(series: map<SeriesId, CachedSeries>): map<SeriesId, SeriesKey> {
    map id | id in series :: series[id].key
  }

  /** Between these two sets of segments, equal catalog entries mean equal series: no hash of a series file collides. */
  ghost predicate EntriesTell(w: World, some: set<Root>, others: set<Root>) {
    forall r1, r2 :: r1 in some && r2 in others && EntryOf(w, r1) == EntryOf(w, r2) ==>
      SegmentBindings(w, r1) == SegmentBindings(w, r2)
  }

  ghost predicate BuiltOver(w: World, file: CatalogFile, sources: seq<Source>) {
    ProperSources(w, sources) && BuildCatalog(w, sources) == Ok(file)
  }

  /** A catalog file was written by an earlier successful build over some sources. */
  ghost predicate WrittenByBuild(w: World, file: CatalogFile) {
    exists sources :: BuiltOver(w, file, sources)
  }

  /** And the entries of that build tell its segments from those listed now. */
  ghost predicate TellsFrom(w: World, file: CatalogFile, now: seq<Source>) {
    exists sources :: BuiltOver(w, file, sources) && EntriesTell(w, Roots(now), Roots(sources))
  }

  lemma BindingsOfUnion(w: World, roots: set<Root>, root: Root)
    ensures BindingsOf(w, roots + {root}) == BindingsOf(w, roots) + SegmentBindings(w, root)
  {
  }

  lemma {:induction false} EntriesMember(w: World, sources: seq<Source>, e: Entry)
    requires ProperSources(w, sources)
    ensures e in EntriesOf(w, sources) <==> exists root :: root in Roots(sources) && EntryOf(w, root) == e
    decreases |sources|
  {
    if sources != [] {
      EntriesMember(w, sources[1..], e);
      assert sources == [sources[0]] + sources[1..];
      assert Roots(sources) == {sources[0].root} + Roots(sources[1..]);
      assert EntriesOf(w, sources)[0] == EntryOf(w, sources[0].root);
    }
  }

  lemma MultisetMember<T>(a: seq<T>, b: seq<T>, e: T)
    requires multiset(a) == multiset(b)
    ensures e in a <==> e in b
  {
    assert e in a <==> e in multiset(a);
    assert e in b <==> e in multiset(b);
  }

  /** Two source lists with the same sorted entries describe the same series. */
  lemma SameEntriesSameBindings(w: World, s1: seq<Source>, s2: seq<Source>)
    requires ProperSources(w, s1) && ProperSources(w, s2) && EntriesTell(w, Roots(s1), Roots(s2))
    requires SortEntries(EntriesOf(w, s1)) == SortEntries(EntriesOf(w, s2))
    ensures BindingsOf(w, Roots(s1)) == BindingsOf(w, Roots(s2))
  {
    BindingsAmong(w, s1, s2);
    BindingsAmong(w, s2, s1);
  }

  lemma BindingsAmong(w: World, s1: seq<Source>, s2: seq<Source>)
    requires ProperSources(w, s1) && ProperSources(w, s2) && EntriesTell(w, Roots(s1), Roots(s2))
    requires SortEntries(EntriesOf(w, s1)) == SortEntries(EntriesOf(w, s2))
    ensures BindingsOf(w, Roots(s1)) <= BindingsOf(w, Roots(s2))
  {
    SortEntriesMultiset(EntriesOf(w, s1));
    SortEntriesMultiset(EntriesOf(w, s2));
    forall b | b in BindingsOf(w, Roots(s1)) ensures b in BindingsOf(w, Roots(s2)) {
      var r1 :| r1 in Roots(s1) && b in w.seriesOf(r1);
      EntriesMember(w, s1, EntryOf(w, r1));
      MultisetMember(EntriesOf(w, s1), EntriesOf(w, s2), EntryOf(w, r1));
      EntriesMember(w, s2, EntryOf(w, r1));
      var r2 :| r2 in Roots(s2) && EntryOf(w, r2) == EntryOf(w, r1);
      assert b in SegmentBindings(w, r1);
      assert b in SegmentBindings(w, r2);
    }
  }

  /** Each cached segment is as published. */
  ghost predicate SegmentsExact(w: World, segments: map<Root, CachedSegment>) {
    && (forall root :: root in segments ==> segments[root].entry == EntryOf(w, root))
    && LoadedExact(w, LoadedSegments(segments))
  }

  ghost predicate LoadedExact(w: World, loaded: Loaded) {
    forall root :: root in loaded ==> loaded[root] == IdsOf(SegmentBindings(w, root))
  }

  /** The series maps list exactly what the loaded segments hold, with exact reference counts. */
  ghost predicate SeriesExact(
    w: World, loaded: Loaded, series: map<SeriesId, CachedSeries>, idsByKey: map<SeriesKey, SeriesId>)
  {
    && Realizes(Keys(series), BindingsOf(w, loaded.Keys))
    && Inverse(Keys(series), idsByKey)
    && (forall id :: id in series ==> series[id].segments == |Holders(loaded, id)|)
  }

  /** A fingerprint that is present describes the given segments, loaded or not. */
  ghost predicate FingerprintFresh(w: World, roots: set<Root>, fingerprint: Option<Fingerprint>) {
    fingerprint.Some? ==>
      && Consistent(BindingsOf(w, roots))
      && (forall m :: Realizes(m, BindingsOf(w, roots)) ==> fingerprint.value == FingerprintOf(w, m))
  }

  lemma UnloadedAdded(w: World, segments: map<Root, CachedSegment>, root: Root)
    requires root !in segments && SegmentsExact(w, segments)
    ensures
      var added := segments[root := CachedSegment(EntryOf(w, root), None)];
      SegmentsExact(w, added) && LoadedSegments(added) == LoadedSegments(segments)
  {
    assert LoadedSegments(segments[root := CachedSegment(EntryOf(w, root), None)]) == LoadedSegments(segments);
  }

  lemma HolderRemoved(loaded: Loaded, root: Root, id: SeriesId)
    requires root in loaded && id in loaded[root]
    ensures |Holders(loaded, id)| == |Holders(loaded - {root}, id)| + 1
  {
    assert Holders(loaded, id) == Holders(loaded - {root}, id) + {root};
  }

  lemma UnbindKeepsInverse(byId: map<SeriesId, SeriesKey>, byKey: map<SeriesKey, SeriesId>, id: SeriesId)
    requires Inverse(byId, byKey) && id in byId
    ensures Inverse(byId - {id}, byKey - {byId[id]})
  {
  }

  ghost function HoldersLeft(was: Loaded, root: Root, remaining: set<SeriesId>, id: SeriesId): nat {
    if id in remaining then |Holders(was, id)| else |Holders(was - {root}, id)|
  }

  /** Partway through releasing `root`: the ids in `remaining` still count it. */
  ghost predicate Releasing(
    was: Loaded, root: Root, remaining: set<SeriesId>,
    seriesWas: map<SeriesId, CachedSeries>, series: map<SeriesId, CachedSeries>, idsByKey: map<SeriesKey, SeriesId>)
  {
    && (forall id :: id in series ==> id in seriesWas && series[id].key == seriesWas[id].key)
    && (forall id :: id in series ==> series[id].segments == HoldersLeft(was, root, remaining, id))
    && (forall id :: id in seriesWas ==> (id in series <==> HoldersLeft(was, root, remaining, id) > 0))
    && Inverse(Keys(series), idsByKey)
  }

  /** Counts one segment less for `id`, and forgets the series when none is left. */
  function ReleaseOne(series: map<SeriesId, CachedSeries>, idsByKey: map<SeriesKey, SeriesId>, id: SeriesId)
    : (map<SeriesId, CachedSeries>, map<SeriesKey, SeriesId>)
  {
    if id !in series then (series, idsByKey)
    else
      var count := if series[id].segments == 0 then 0 else series[id].segments - 1;
      if count == 0 then (series - {id}, idsByKey - {series[id].key})
      else (series[id := series[id].(segments := count)], idsByKey)
  }

  /** A series in the cache is held by some loaded segment, and the other way round. */
  lemma HeldExactly(w: World, loaded: Loaded, keys: map<SeriesId, SeriesKey>, id: SeriesId)
    requires LoadedExact(w, loaded) && Realizes(keys, BindingsOf(w, loaded.Keys))
    ensures id in keys <==> Holders(loaded, id) != {}
  {
    if id in keys {
      var b := (id, keys[id]);
      assert b in BindingsOf(w, loaded.Keys);
      var r :| r in loaded && b in w.seriesOf(r);
      assert b in SegmentBindings(w, r);
      assert r in Holders(loaded, id);
    }
    if r :| r in Holders(loaded, id) {
      var b :| b in SegmentBindings(w, r) && b.0 == id;
      assert b in BindingsOf(w, loaded.Keys);
    }
  }

  lemma ReleaseStart(
    w: World, was: Loaded, root: Root, series: map<SeriesId, CachedSeries>, idsByKey: map<SeriesKey, SeriesId>)
    requires root in was && LoadedExact(w, was) && SeriesExact(w, was, series, idsByKey)
    ensures Releasing(was, root, was[root], series, series, idsByKey)
  {
    forall id | id in series ensures HoldersLeft(was, root, was[root], id) == |Holders(was, id)| > 0 {
      HeldExactly(w, was, Keys(series), id);
      if id !in was[root] {
        assert Holders(was - {root}, id) == Holders(was, id);
      }
    }
  }

  lemma BoundByRemaining(w: World, was: Loaded, root: Root, b: Binding)
    requires LoadedExact(w, was) && b in BindingsOf(w, (was - {root}).Keys)
    ensures Holders(was - {root}, b.0) != {} && b in BindingsOf(w, was.Keys)
  {
    var r :| r in was - {root} && b in w.seriesOf(r);
    assert b in SegmentBindings(w, r);
    assert r in Holders(was - {root}, b.0);
  }

  lemma HeldByRemaining(w: World, was: Loaded, root: Root, keysWas: map<SeriesId, SeriesKey>, id: SeriesId)
    requires LoadedExact(w, was) && Realizes(keysWas, BindingsOf(w, was.Keys))
    requires Holders(was - {root}, id) != {}
    ensures id in keysWas && (id, keysWas[id]) in BindingsOf(w, (was - {root}).Keys)
  {
    var r :| r in Holders(was - {root}, id);
    var b :| b in SegmentBindings(w, r) && b.0 == id;
    assert b in BindingsOf(w, was.Keys);
  }

  lemma StillBound(
    w: World, was: Loaded, root: Root,
    seriesWas: map<SeriesId, CachedSeries>, series: map<SeriesId, CachedSeries>, idsByKey: map<SeriesKey, SeriesId>, b: Binding)
    requires LoadedExact(w, was) && Realizes(Keys(seriesWas), BindingsOf(w, was.Keys))
    requires Releasing(was, root, {}, seriesWas, series, idsByKey) && b in BindingsOf(w, (was - {root}).Keys)
    ensures b.0 in Keys(series) && Keys(series)[b.0] == b.1
  {
    BoundByRemaining(w, was, root, b);
    assert b.0 in Keys(seriesWas) && Keys(seriesWas)[b.0] == b.1;
    assert HoldersLeft(was, root, {}, b.0) > 0;
  }

  lemma StillHeld(
    w: World, was: Loaded, root: Root,
    seriesWas: map<SeriesId, CachedSeries>, series: map<SeriesId, CachedSeries>, idsByKey: map<SeriesKey, SeriesId>, id: SeriesId)
    requires LoadedExact(w, was) && Realizes(Keys(seriesWas), BindingsOf(w, was.Keys))
    requires Releasing(was, root, {}, seriesWas, series, idsByKey) && id in Keys(series)
    ensures (id, Keys(series)[id]) in BindingsOf(w, (was - {root}).Keys)
  {
    assert HoldersLeft(was, root, {}, id) > 0;
    HeldByRemaining(w, was, root, Keys(seriesWas), id);
  }

  lemma ReleaseDone(
    w: World, was: Loaded, root: Root,
    seriesWas: map<SeriesId, CachedSeries>, series: map<SeriesId, CachedSeries>, idsByKey: map<SeriesKey, SeriesId>)
    requires LoadedExact(w, was) && Realizes(Keys(seriesWas), BindingsOf(w, was.Keys))
    requires Releasing(was, root, {}, seriesWas, series, idsByKey)
    ensures SeriesExact(w, was - {root}, series, idsByKey)
  {
    ReleasedRealizes(w, was, root, seriesWas, series, idsByKey);
    forall id | id in series ensures series[id].segments == |Holders(was - {root}, id)| {
      assert series[id].segments == HoldersLeft(was, root, {}, id);
    }
  }

  lemma ReleasedRealizes(
    w: World, was: Loaded, root: Root,
    seriesWas: map<SeriesId, CachedSeries>, series: map<SeriesId, CachedSeries>, idsByKey: map<SeriesKey, SeriesId>)
    requires LoadedExact(w, was) && Realizes(Keys(seriesWas), BindingsOf(w, was.Keys))
    requires Releasing(was, root, {}, seriesWas, series, idsByKey)
    ensures Realizes(Keys(series), BindingsOf(w, (was - {root}).Keys))
  {
    forall b | b in BindingsOf(w, (was - {root}).Keys) ensures b.0 in Keys(series) && Keys(series)[b.0] == b.1 {
      StillBound(w, was, root, seriesWas, series, idsByKey, b);
    }
    forall id | id in Keys(series) ensures (id, Keys(series)[id]) in BindingsOf(w, (was - {root}).Keys) {
      StillHeld(w, was, root, seriesWas, series, idsByKey, id);
    }
  }

  lemma ReleaseStep(
    was: Loaded, root: Root, remaining: set<SeriesId>,
    seriesWas: map<SeriesId, CachedSeries>, series: map<SeriesId, CachedSeries>, idsByKey: map<SeriesKey, SeriesId>,
    id: SeriesId)
    requires root in was && remaining <= was[root] && id in remaining
    requires Releasing(was, root, remaining, seriesWas, series, idsByKey)
    ensures
      var (series', idsByKey') := ReleaseOne(series, idsByKey, id);
      Releasing(was, root, remaining - {id}, seriesWas, series', idsByKey')
  {
    HolderRemoved(was, root, id);
    assert HoldersLeft(was, root, remaining - {id}, id) == HoldersLeft(was, root, remaining, id) - 1;
    assert forall other :: other != id ==>
        HoldersLeft(was, root, remaining - {id}, other) == HoldersLeft(was, root, remaining, other);
    ReleaseKeepsInverse(series, idsByKey, id);
  }

  lemma ReleaseKeepsInverse(series: map<SeriesId, CachedSeries>, idsByKey: map<SeriesKey, SeriesId>, id: SeriesId)
    requires Inverse(Keys(series), idsByKey)
    ensures var (series', idsByKey') := ReleaseOne(series, idsByKey, id); Inverse(Keys(series'), idsByKey')
  {
    if id in series {
      var (series', idsByKey') := ReleaseOne(series, idsByKey, id);
      if series[id].segments <= 1 {
        UnbindKeepsInverse(Keys(series), idsByKey, id);
        assert Keys(series') == Keys(series) - {id};
      } else {
        assert Keys(series') == Keys(series);
      }
    }
  }

  /** The counting loop of `remove_segment`. */
  method ReleaseSeries(
    ghost w: World, ghost was: Loaded, ghost root: Root, ids: set<SeriesId>,
    series: map<SeriesId, CachedSeries>, idsByKey: map<SeriesKey, SeriesId>)
    returns (kept: map<SeriesId, CachedSeries>, keptIds: map<SeriesKey, SeriesId>)
    requires root in was && was[root] == ids && LoadedExact(w, was)
    requires SeriesExact(w, was, series, idsByKey)
    ensures SeriesExact(w, was - {root}, kept, keptIds)
  {
    var remaining := ids;
    kept, keptIds := series, idsByKey;
    ReleaseStart(w, was, root, series, idsByKey);
    while remaining != {}
      invariant remaining <= ids
      invariant Releasing(was, root, remaining, series, kept, keptIds)
      decreases |remaining|
    {
      var id :| id in remaining;
      ReleaseStep(was, root, remaining, series, kept, keptIds, id);
      var next := ReleaseOne(kept, keptIds, id);
      kept, keptIds, remaining := next.0, next.1, remaining - {id};
    }
    ReleaseDone(w, was, root, series, kept, keptIds);
  }

  /** A binding that clashes with one already listed makes the whole set inconsistent. */
  lemma ClashIsInconsistent(
    byId: map<SeriesId, SeriesKey>, byKey: map<SeriesKey, SeriesId>, seen: set<Binding>, b: Binding, all: set<Binding>)
    requires Inverse(byId, byKey) && Realizes(byId, seen) && seen <= all && b in all
    requires if b.0 in byId then byId[b.0] != b.1 else b.1 in byKey
    ensures !Consistent(all)
  {
    var other := if b.0 in byId then (b.0, byId[b.0]) else (byKey[b.1], b.1);
    assert other in all;
    assert (other.0 == b.0) != (other.1 == b.1);
  }

  lemma BindFresh(byId: map<SeriesId, SeriesKey>, byKey: map<SeriesKey, SeriesId>, seen: set<Binding>, b: Binding)
    requires Inverse(byId, byKey) && Realizes(byId, seen)
    requires b.0 !in byId && b.1 !in byKey
    ensures Inverse(byId[b.0 := b.1], byKey[b.1 := b.0]) && Realizes(byId[b.0 := b.1], seen + {b})
  {
  }

  lemma UnionUpdate<K, V>(a: map<K, V>, b: map<K, V>, key: K, value: V)
    ensures a + b[key := value] == (a + b)[key := value]
  {
  }

  /** After scanning `scanned`, `bound` and `boundIds` list it together with what was known before. */
  ghost predicate Scanned(
    known: set<Binding>, scanned: seq<Binding>, ids: set<SeriesId>,
    bound: map<SeriesId, SeriesKey>, boundIds: map<SeriesKey, SeriesId>)
  {
    && ids == IdsOf(BindingSet(scanned))
    && Realizes(bound, known + BindingSet(scanned))
    && Inverse(bound, boundIds)
  }

  lemma ScanStep(
    known: set<Binding>, scanned: seq<Binding>, ids: set<SeriesId>,
    bound: map<SeriesId, SeriesKey>, boundIds: map<SeriesKey, SeriesId>, b: Binding)
    requires Scanned(known, scanned, ids, bound, boundIds)
    ensures b.0 in bound && bound[b.0] == b.1 ==> Scanned(known, scanned + [b], ids + {b.0}, bound, boundIds)
    ensures b.0 !in bound && b.1 !in boundIds ==>
              Scanned(known, scanned + [b], ids + {b.0}, bound[b.0 := b.1], boundIds[b.1 := b.0])
  {
    assert BindingSet(scanned + [b]) == BindingSet(scanned) + {b};
    assert ids + {b.0} == IdsOf(BindingSet(scanned + [b]));
    assert known + BindingSet(scanned + [b]) == (known + BindingSet(scanned)) + {b};
    if b.0 !in bound && b.1 !in boundIds {
      BindFresh(bound, boundIds, known + BindingSet(scanned), b);
    }
  }

  /**
   The scanning loop of `load_series`: checks a segment's series against those already known and
   collects the new ones, refusing exactly when the segment does not fit.
   */
  method ScanSeries(
    ghost known: set<Binding>, list: seq<Binding>,
    bound: map<SeriesId, SeriesKey>, boundIds: map<SeriesKey, SeriesId>)
    returns (fits: bool, ids: set<SeriesId>, added: map<SeriesId, SeriesKey>, addedIds: map<SeriesKey, SeriesId>)
    requires Realizes(bound, known) && Inverse(bound, boundIds)
    ensures fits <==> Consistent(known + BindingSet(list))
    ensures fits ==> added.Keys !! bound.Keys && Scanned(known, list, ids, bound + added, boundIds + addedIds)
  {
    ids, added, addedIds := {}, map[], map[];
    assert bound + added == bound && boundIds + addedIds == boundIds && known + BindingSet([]) == known;
    for i := 0 to |list|
      invariant added.Keys !! bound.Keys
      invariant Scanned(known, list[..i], ids, bound + added, boundIds + addedIds)
    {
      var (id, key) := list[i];
      ghost var all, allIds := bound + added, boundIds + addedIds;
      ScanStep(known, list[..i], ids, all, allIds, list[i]);
      assert list[..i + 1] == list[..i] + [list[i]];
      if id in bound || id in added {
        if (if id in bound then bound[id] else added[id]) != key {
          ClashIsInconsistent(all, allIds, known + BindingSet(list[..i]), list[i], known + BindingSet(list));
          return false, {}, map[], map[];
        }
      } else {
        if key in boundIds || key in addedIds {
          ClashIsInconsistent(all, allIds, known + BindingSet(list[..i]), list[i], known + BindingSet(list));
          return false, {}, map[], map[];
        }
        UnionUpdate(bound, added, id, key);
        UnionUpdate(boundIds, addedIds, key, id);
        added, addedIds := added[id := key], addedIds[key := id];
      }
      ids := ids + {id};
    }
    assert list[..|list|] == list;
    fits := true;
    InverseIsConsistent(bound + added, boundIds + addedIds, known + BindingSet(list));
  }

  /** The series map after a segment with `ids` is counted in. */
  function CountedIn(series: map<SeriesId, CachedSeries>, added: map<SeriesId, SeriesKey>, ids: set<SeriesId>)
    : map<SeriesId, CachedSeries>
    requires added.Keys !! series.Keys
  {
    map id | id in series.Keys + added.Keys ::
      var cached := if id in series then series[id] else CachedSeries(added[id], 0);
      if id in ids then cached.(segments := cached.segments + 1) else cached
  }

  lemma CountedInKeys(series: map<SeriesId, CachedSeries>, added: map<SeriesId, SeriesKey>, ids: set<SeriesId>)
    requires added.Keys !! series.Keys
    ensures Keys(CountedIn(series, added, ids)) == Keys(series) + added
  {
  }

  lemma HolderAdded(loaded: Loaded, root: Root, ids: set<SeriesId>, id: SeriesId)
    requires root !in loaded
    ensures |Holders(loaded[root := ids], id)| == |Holders(loaded, id)| + if id in ids then 1 else 0
  {
    if id in ids {
      assert Holders(loaded[root := ids], id) == Holders(loaded, id) + {root};
    } else {
      assert Holders(loaded[root := ids], id) == Holders(loaded, id);
    }
  }

  /** Counting a segment in keeps the maps exact. */
  lemma CountInExact(
    w: World, loaded: Loaded, root: Root, series: map<SeriesId, CachedSeries>, idsByKey: map<SeriesKey, SeriesId>,
    ids: set<SeriesId>, added: map<SeriesId, SeriesKey>, allIds: map<SeriesKey, SeriesId>)
    requires root !in loaded && LoadedExact(w, loaded) && added.Keys !! series.Keys
    requires SeriesExact(w, loaded, series, idsByKey)
    requires Scanned(BindingsOf(w, loaded.Keys), w.seriesOf(root), ids, Keys(series) + added, allIds)
    ensures SeriesExact(w, loaded[root := ids], CountedIn(series, added, ids), allIds)
  {
    var counted := CountedIn(series, added, ids);
    BindingsOfUnion(w, loaded.Keys, root);
    assert loaded[root := ids].Keys == loaded.Keys + {root};
    CountedInKeys(series, added, ids);
    forall id | id in counted ensures counted[id].segments == |Holders(loaded[root := ids], id)| {
      HeldExactly(w, loaded, Keys(series), id);
      HolderAdded(loaded, root, ids, id);
    }
  }

  /** Marking a segment loaded adds it, and only it, to the loaded segments. */
  lemma MarkLoaded(w: World, segments: map<Root, CachedSegment>, root: Root, ids: set<SeriesId>)
    requires SegmentsExact(w, segments) && root in segments && ids == IdsOf(SegmentBindings(w, root))
    ensures
      var marked := segments[root := segments[root].(seriesIds := Some(ids))];
      && LoadedSegments(marked) == LoadedSegments(segments)[root := ids]
      && SegmentsExact(w, marked) && marked.Keys == segments.Keys
  {
  }

  /** The body of `load_series` for a segment that is cached but not yet loaded. */
  method AdmitSegment(
    w: World, segments: map<Root, CachedSegment>, series: map<SeriesId, CachedSeries>,
    idsByKey: map<SeriesKey, SeriesId>, root: Root)
    returns (fits: bool, segments': map<Root, CachedSegment>,
             series': map<SeriesId, CachedSeries>, idsByKey': map<SeriesKey, SeriesId>)
    requires SegmentsExact(w, segments) && SeriesExact(w, LoadedSegments(segments), series, idsByKey)
    requires root in segments && segments[root].seriesIds.None?
    ensures fits <==> Consistent(BindingsOf(w, LoadedSegments(segments).Keys + {root}))
    ensures fits ==> SegmentsExact(w, segments') && SeriesExact(w, LoadedSegments(segments'), series', idsByKey')
    ensures fits ==> segments'.Keys == segments.Keys
    ensures fits ==> LoadedSegments(segments').Keys == LoadedSegments(segments).Keys + {root}
  {
    ghost var loaded := LoadedSegments(segments);
    BindingsOfUnion(w, loaded.Keys, root);
    var ids, added, addedIds;
    fits, ids, added, addedIds := ScanSeries(BindingsOf(w, loaded.Keys), w.seriesOf(root), Keys(series), idsByKey);
    segments', series', idsByKey' := segments, series, idsByKey;
    if fits {
      CountInExact(w, loaded, root, series, idsByKey, ids, added, idsByKey + addedIds);
      MarkLoaded(w, segments, root, ids);
      idsByKey' := idsByKey + addedIds;
      series' := CountedIn(series, added, ids);
      segments' := segments[root := segments[root].(seriesIds := Some(ids))];
    }
  }

  lemma BindingsMonotone(w: World, some: set<Root>, all: set<Root>)
    requires some <= all
    ensures BindingsOf(w, some) <= BindingsOf(w, all)
    ensures !Consistent(BindingsOf(w, some)) ==> !Consistent(BindingsOf(w, all))
  {
    assert BindingsOf(w, some) <= BindingsOf(w, all);
    if Consistent(BindingsOf(w, all)) {
      SubsetConsistent(BindingsOf(w, some), BindingsOf(w, all));
    }
  }

  lemma FreshFingerprint(w: World, roots: set<Root>, keys: map<SeriesId, SeriesKey>)
    requires Realizes(keys, BindingsOf(w, roots)) && Consistent(BindingsOf(w, roots))
    ensures FingerprintFresh(w, roots, Some(FingerprintOf(w, keys)))
  {
    forall m | Realizes(m, BindingsOf(w, roots)) ensures m == keys {
      RealizesUnique(m, keys, BindingsOf(w, roots));
    }
  }

  /** The catalog path is only ever written by this code, so what parses there was once built. */
  ghost predicate DiskTrusted(w: World, disk: DiskFile) {
    disk.Present? ==> WrittenByBuild(w, disk.catalog)
  }

  /** The catalog believed to be on disk is there unless the file was deleted. */
  ghost predicate OnDisk(persisted: Option<CatalogFile>, disk: DiskFile) {
    persisted.Some? ==> disk.Missing? || disk == Present(persisted.value)
  }

  lemma AdoptedFingerprint(w: World, sources: seq<Source>, file: CatalogFile)
    requires ProperSources(w, sources) && TellsFrom(w, file, sources)
    requires file.segments == SortEntries(EntriesOf(w, sources))
    ensures FingerprintFresh(w, Roots(sources), file.fingerprint)
  {
    var built :| BuiltOver(w, file, built) && EntriesTell(w, Roots(sources), Roots(built));
    BuildCatalogSpec(w, built);
    var m :| Realizes(m, BindingsOf(w, Roots(built)));
    SameEntriesSameBindings(w, sources, built);
    assert BindingsOf(w, Roots(sources)) == BindingsOf(w, Roots(built));
    FreshFingerprint(w, Roots(sources), m);
  }

  class RegistryCatalogCache {
    const world: World
    var segments: map<Root, CachedSegment>
    var series: map<SeriesId, CachedSeries>
    var idsByKey: map<SeriesKey, SeriesId>
    var fingerprint: Option<Fingerprint>
    var persisted: Option<CatalogFile>

    constructor (world: World)
      ensures Valid() && this.world == world && persisted == None && segments == map[]
    {
      this.world := world;
      segments, series, idsByKey := map[], map[], map[];
      fingerprint, persisted := None, None;
    }

    ghost predicate Valid()
      reads this
    {
      && SegmentsExact(world, segments)
      && SeriesExact(world, LoadedSegments(segments), series, idsByKey)
      && FingerprintFresh(world, segments.Keys, fingerprint)
    }

    /** `entries`: the sorted entries of the listed segments that are cached. */
    method Entries(sources: seq<Source>) returns (entries: seq<Entry>)
      requires SegmentsExact(world, segments) && ProperSources(world, sources) && Roots(sources) <= segments.Keys
      ensures entries == SortEntries(EntriesOf(world, sources))
    {
      var listed: seq<Entry> := [];
      for i := 0 to |sources|
        invariant listed + EntriesOf(world, sources[i..]) == EntriesOf(world, sources)
      {
        assert sources[i].root in Roots(sources);
        assert sources[i..][1..] == sources[i + 1..];
        if sources[i].root in segments {
          listed := listed + [segments[sources[i].root].entry];
        }
      }
      assert listed + [] == listed;
      entries := SortEntries(listed);
    }

    /** `remove_segment`: forgets a root and releases the series it alone held. */
    method RemoveSegment(root: Root)
      requires Valid()
      modifies this`segments, this`series, this`idsByKey, this`fingerprint
      ensures Valid()
      ensures segments == old(segments) - {root}
      ensures fingerprint == if root in old(segments) then None else old(fingerprint)
    {
      if root !in segments {
        assert segments - {root} == segments;
        return;
      }
      var segment := segments[root];
      segments := segments - {root};
      fingerprint := None;
      assert LoadedSegments(segments) == LoadedSegments(old(segments)) - {root};
      if segment.seriesIds.Some? {
        series, idsByKey :=
          ReleaseSeries(world, LoadedSegments(old(segments)), root, segment.seriesIds.value, series, idsByKey);
      } else {
        assert LoadedSegments(segments) == LoadedSegments(old(segments));
      }
    }

    /** `load_series`: reads a cached segment's series once; a refused segment changes nothing. */
    method LoadSeries(root: Root, io: Io) returns (r: Result<(), CatalogError>)
      requires Valid()
      modifies this`segments, this`series, this`idsByKey
      ensures Valid() && segments.Keys == old(segments.Keys)
      ensures r.Ok? && root in segments ==>
                LoadedSegments(segments).Keys == old(LoadedSegments(segments)).Keys + {root}
      ensures r.Err? || root !in segments ==> segments == old(segments)
      ensures r.Err? && r.error == IoError ==> !io.metadata(root)
      ensures r.Err? && r.error == Conflict ==>
                root in segments && !Consistent(BindingsOf(world, old(LoadedSegments(segments)).Keys + {root}))
    {
      if root !in segments || segments[root].seriesIds.Some? {
        return Ok(());
      }
      if !io.metadata(root) {
        return Err(IoError);
      }
      var fits, segments', series', idsByKey' := AdmitSegment(world, segments, series, idsByKey, root);
      if !fits {
        return Err(Conflict);
      }
      segments, series, idsByKey := segments', series', idsByKey';
      return Ok(());
    }

    /** `sync_segments`: caches exactly the listed roots, reading a manifest only for new ones. */
    method SyncSegments(sources: seq<Source>, io: Io) returns (r: Result<(), CatalogError>)
      requires Valid() && ProperSources(world, sources)
      modifies this`segments, this`series, this`idsByKey, this`fingerprint
      ensures Valid()
      ensures r.Ok? ==> segments.Keys == Roots(sources)
      ensures r.Err? ==> r.error == IoError && !AllReadable(io, sources)
    {
      var listed := set source | source in sources :: source.root;
      assert listed == Roots(sources);
      RemoveAll(segments.Keys - listed);
      r := AddAll(sources, io);
    }

    method RemoveAll(roots: set<Root>)
      requires Valid()
      modifies this`segments, this`series, this`idsByKey, this`fingerprint
      ensures Valid() && segments.Keys == old(segments.Keys) - roots
    {
      var remaining := roots;
      while remaining != {}
        invariant Valid() && remaining <= roots && segments.Keys == old(segments.Keys) - (roots - remaining)
        decreases |remaining|
      {
        var root :| root in remaining;
        RemoveSegment(root);
        remaining := remaining - {root};
      }
    }

    method AddAll(sources: seq<Source>, io: Io) returns (r: Result<(), CatalogError>)
      requires Valid() && ProperSources(world, sources)
      modifies this`segments, this`fingerprint
      ensures Valid()
      ensures r.Ok? ==> segments.Keys == old(segments.Keys) + Roots(sources)
      ensures r.Err? ==> r.error == IoError && !AllReadable(io, sources)
    {
      for i := 0 to |sources|
        invariant Valid() && segments.Keys == old(segments.Keys) + Roots(sources[..i])
      {
        assert sources[..i + 1] == sources[..i] + [sources[i]];
        assert Roots(sources[..i + 1]) == Roots(sources[..i]) + {sources[i].root};
        if sources[i].root !in segments {
          if !io.manifest(sources[i].root) {
            return Err(IoError);
          }
          AddUnloaded(sources[i]);
        }
      }
      assert sources[..|sources|] == sources;
      return Ok(());
    }

    method AddUnloaded(source: Source)
      requires Valid() && source.root !in segments && source.lane == world.laneOf(source.root)
      modifies this`segments, this`fingerprint
      ensures Valid() && segments.Keys == old(segments.Keys) + {source.root} && fingerprint == None
    {
      var entry := Entry(source.lane, world.manifestOf(source.root));
      UnloadedAdded(world, segments, source.root);
      segments := segments[source.root := CachedSegment(entry, None)];
      fingerprint := None;
    }

    /** The loading loop of `catalog`. */
    method LoadAll(sources: seq<Source>, io: Io) returns (r: Result<(), CatalogError>)
      requires Valid() && segments.Keys == Roots(sources)
      modifies this`segments, this`series, this`idsByKey
      ensures Valid() && segments.Keys == old(segments.Keys)
      ensures r.Ok? ==> LoadedSegments(segments).Keys == segments.Keys
      ensures r.Err? && r.error == IoError ==> !AllReadable(io, sources)
      ensures r.Err? && r.error == Conflict ==> !Consistent(BindingsOf(world, segments.Keys))
    {
      for i := 0 to |sources|
        invariant Valid() && segments.Keys == old(segments.Keys)
        invariant Roots(sources[..i]) <= LoadedSegments(segments).Keys
      {
        assert sources[..i + 1] == sources[..i] + [sources[i]];
        assert Roots(sources[..i + 1]) == Roots(sources[..i]) + {sources[i].root};
        assert sources[i].root in Roots(sources);
        ghost var loaded := LoadedSegments(segments).Keys;
        assert loaded + {sources[i].root} <= segments.Keys;
        var one := LoadSeries(sources[i].root, io);
        if one.Err? {
          BindingsMonotone(world, loaded + {sources[i].root}, segments.Keys);
          return one;
        }
      }
      assert sources[..|sources|] == sources;
      return Ok(());
    }

    /** The part of `catalog` that computes a missing fingerprint from the loaded series. */
    method RefreshFingerprint(sources: seq<Source>, io: Io) returns (r: Result<(), CatalogError>)
      requires Valid() && segments.Keys == Roots(sources)
      modifies this`segments, this`series, this`idsByKey, this`fingerprint
      ensures Valid() && segments.Keys == old(segments.Keys)
      ensures r.Ok? ==> fingerprint.Some?
      ensures r.Err? && r.error == IoError ==> !AllReadable(io, sources)
      ensures r.Err? && r.error == Conflict ==> !Consistent(BindingsOf(world, segments.Keys))
    {
      if fingerprint.Some? {
        return Ok(());
      }
      var _ :- LoadAll(sources, io);
      InverseIsConsistent(Keys(series), idsByKey, BindingsOf(world, segments.Keys));
      FreshFingerprint(world, segments.Keys, Keys(series));
      fingerprint := Some(FingerprintOf(world, Keys(series)));
      return Ok(());
    }

    /**
     `catalog`: with every read succeeding it answers exactly as the from-scratch build does, and
     no failing read can make it answer otherwise or leave the cache inconsistent.
     */
    method Catalog(sources: seq<Source>, io: Io) returns (r: Result<CatalogFile, CatalogError>)
      requires Valid() && ProperSources(world, sources)
      modifies this`segments, this`series, this`idsByKey, this`fingerprint
      ensures Valid()
      ensures AllReadable(io, sources) ==> r == BuildCatalog(world, sources)
      ensures r == BuildCatalog(world, sources) || r == Err(IoError)
    {
      var _ :- SyncSegments(sources, io);
      BuildCatalogSpec(world, sources);
      var computed := RefreshFingerprint(sources, io);
      if computed.Err? {
        return Err(computed.error);
      }
      ghost var built :| Realizes(built, BindingsOf(world, Roots(sources)));
      var entries := Entries(sources);
      return Ok(CatalogFile(CATALOG_VERSION, entries, fingerprint));
    }

    /** `adopt`: takes over a catalog found on disk when it still describes the listed segments. */
    method Adopt(sources: seq<Source>, onDisk: CatalogFile)
      requires Valid() && ProperSources(world, sources) && Roots(sources) == segments.Keys
      requires TellsFrom(world, onDisk, sources)
      modifies this`fingerprint, this`persisted
      ensures Valid()
      ensures persisted == old(persisted) || persisted == Some(onDisk)
    {
      var entries := Entries(sources);
      if onDisk.version != CATALOG_VERSION || onDisk.fingerprint.None? || onDisk.segments != entries {
        return;
      }
      AdoptedFingerprint(world, sources, onDisk);
      fingerprint := onDisk.fingerprint;
      persisted := Some(onDisk);
    }

    /**
     `persist_registry_catalog`: on success the file at the catalog path is the from-scratch catalog
     of `sources`, whether it was rewritten, adopted from an earlier process, or left as it was.
     */
    method PersistCatalog(sources: seq<Source>, io: Io, disk: DiskFile)
      returns (r: Result<(), CatalogError>, disk': DiskFile)
      requires Valid() && ProperSources(world, sources) && DiskTrusted(world, disk) && OnDisk(persisted, disk)
      requires persisted.None? && disk.Present? ==> TellsFrom(world, disk.catalog, sources)
      modifies this
      ensures Valid() && DiskTrusted(world, disk') && OnDisk(persisted, disk')
      ensures r.Ok? ==> BuildCatalog(world, sources).Ok? && disk' == Present(BuildCatalog(world, sources).value)
      ensures r.Err? ==> disk' == disk && (r.error == IoError || BuildCatalog(world, sources).Err?)
      ensures AllReadable(io, sources) ==> (r.Ok? <==> BuildCatalog(world, sources).Ok?)
    {
      disk' := disk;
      if persisted.None? {
        r := SyncSegments(sources, io);
        if r.Err? {
          return;
        }
        if disk.Present? {
          Adopt(sources, disk.catalog);
        }
      }
      var catalog := Catalog(sources, io);
      if catalog.Err? {
        r := Err(catalog.error);
        return;
      }
      if !(persisted == Some(catalog.value) && !disk.Missing?) {
        assert BuiltOver(world, catalog.value, sources);
        disk' := Present(catalog.value);
      }
      persisted := Some(catalog.value);
      r := Ok(());
    }
  }
}
