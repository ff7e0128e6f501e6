/**
 What a registry catalog describes (src/engine/registry_catalog.rs): the from-scratch builder,
 and the relation between series ids and keys that both the builder and the cache must respect.
 */
module CatalogSpec {
  import opened Common

  type SeriesId = nat
  type Root = string
  datatype SeriesKey = SeriesKey(metric: string, labels: seq<(string, string)>)
  type Binding = (SeriesId, SeriesKey)

  /** The manifest of a published segment; `files` are the lengths and hashes of its files. */
  datatype Manifest = Manifest(level: nat, segmentId: nat, stats: seq<int>, files: seq<nat>)

  datatype Source = Source(lane: nat, root: Root)
  datatype Entry = Entry(lane: nat, manifest: Manifest)
  datatype Fingerprint = Fingerprint(count: nat, hash: nat)
  datatype CatalogFile = CatalogFile(version: nat, segments: seq<Entry>, fingerprint: Option<Fingerprint>)
  datatype CatalogError = IoError | Conflict

  const CATALOG_VERSION: nat := 2

  /**
   The published segments. Their contents never change, so they are functions of the root.
   `hash` stands for the 64-bit hash of the id-ordered listing of a set of series.
   */
  datatype World = World(
    laneOf: Root -> nat,
    manifestOf: Root -> Manifest,
    seriesOf: Root -> seq<Binding>,
    hash: map<SeriesId, SeriesKey> -> nat)

  /** Callers always list a root with the lane it was published in. */
  ghost predicate ProperSources(w: World, sources: seq<Source>) {
    forall i :: 0 <= i < |sources| ==> sources[i].lane == w.laneOf(sources[i].root)
  }

  function EntryOf(w: World, root: Root): Entry {
    Entry(w.laneOf(root), w.manifestOf(root))
  }

  function FingerprintOf(w: World, series: map<SeriesId, SeriesKey>): Fingerprint {
    Fingerprint(|series|, w.hash(series))
  }

  // ----- Entry order: a stable sort by (lane, level, segment id) -----

  predicate EntryBefore(a: Entry, b: Entry) {
    || a.lane < b.lane
    || (a.lane == b.lane && a.manifest.level < b.manifest.level)
    || (a.lane == b.lane && a.manifest.level == b.manifest.level && a.manifest.segmentId < b.manifest.segmentId)
  }

  function InsertEntry(e: Entry, sorted: seq<Entry>): seq<Entry> {
    if sorted == [] then [e]
    else if EntryBefore(sorted[0], e) then [sorted[0]] + InsertEntry(e, sorted[1..])
    else [e] + sorted
  }

  function SortEntries(entries: seq<Entry>): seq<Entry> {
    if entries == [] then [] else InsertEntry(entries[0], SortEntries(entries[1..]))
  }

  lemma {:induction false} InsertEntryMultiset(e: Entry, sorted: seq<Entry>)
    ensures multiset(InsertEntry(e, sorted)) == multiset{e} + multiset(sorted)
  {
    if sorted == [] {
    } else if EntryBefore(sorted[0], e) {
      InsertEntryMultiset(e, sorted[1..]);
      assert sorted == [sorted[0]] + sorted[1..];
    }
  }

  lemma {:induction false} SortEntriesMultiset(entries: seq<Entry>)
    ensures multiset(SortEntries(entries)) == multiset(entries)
  {
    if entries != [] {
      SortEntriesMultiset(entries[1..]);
      InsertEntryMultiset(entries[0], SortEntries(entries[1..]));
      assert entries == [entries[0]] + entries[1..];
    }
  }

  function EntriesOf(w: World, sources: seq<Source>): seq<Entry> {
    if sources == [] then []
    else [Entry(sources[0].lane, w.manifestOf(sources[0].root))] + EntriesOf(w, sources[1..])
  }

  // ----- The from-scratch builder -----

  function AllSeries(w: World, sources: seq<Source>): seq<Binding> {
    if sources == [] then [] else w.seriesOf(sources[0].root) + AllSeries(w, sources[1..])
  }

  /** The loop of `build_series_fingerprint_from_sources`, over the series still to come. */
  function BuildSeries(list: seq<Binding>, byId: map<SeriesId, SeriesKey>, byKey: map<SeriesKey, SeriesId>)
    : Result<map<SeriesId, SeriesKey>, CatalogError>
    decreases |list|
  {
    if list == [] then Ok(byId)
    else
      var (id, key) := list[0];
      if id in byId then
        if byId[id] == key then BuildSeries(list[1..], byId, byKey) else Err(Conflict)
      else if key in byKey then
        if byKey[key] != id then Err(Conflict) else BuildSeries(list[1..], byId[id := key], byKey)
      else BuildSeries(list[1..], byId[id := key], byKey[key := id])
  }

  function BuildCatalog(w: World, sources: seq<Source>): Result<CatalogFile, CatalogError> {
    var series :- BuildSeries(AllSeries(w, sources), map[], map[]);
    Ok(CatalogFile(CATALOG_VERSION, SortEntries(EntriesOf(w, sources)), Some(FingerprintOf(w, series))))
  }

  // ----- Bindings as a relation -----

  ghost function BindingSet(list: seq<Binding>): set<Binding> {
    set b | b in list
  }

  ghost function Roots(sources: seq<Source>): set<Root> {
    set i | 0 <= i < |sources| :: sources[i].root
  }

  ghost function BindingsOf(w: World, roots: set<Root>): set<Binding> {
    set root, b | root in roots && b in w.seriesOf(root) :: b
  }

  /** Ids and keys pair off one to one. */
  ghost predicate Consistent(bindings: set<Binding>) {
    forall a, b :: a in bindings && b in bindings ==> (a.0 == b.0 <==> a.1 == b.1)
  }

  /** `series` lists exactly `bindings`. */
  ghost predicate Realizes(series: map<SeriesId, SeriesKey>, bindings: set<Binding>) {
    && (forall b :: b in bindings ==> b.0 in series && series[b.0] == b.1)
    && (forall id :: id in series ==> (id, series[id]) in bindings)
  }

  ghost predicate Inverse(byId: map<SeriesId, SeriesKey>, byKey: map<SeriesKey, SeriesId>) {
    && (forall id :: id in byId ==> byId[id] in byKey && byKey[byId[id]] == id)
    && (forall key :: key in byKey ==> byKey[key] in byId && byId[byKey[key]] == key)
  }

  lemma RealizesUnique(a: map<SeriesId, SeriesKey>, b: map<SeriesId, SeriesKey>, bindings: set<Binding>)
    requires Realizes(a, bindings) && Realizes(b, bindings)
    ensures a == b
  {
    assert forall id :: id in a ==> (id, a[id]) in bindings && id in b && b[id] == a[id];
    assert forall id :: id in b ==> (id, b[id]) in bindings && id in a;
  }

  lemma InverseIsConsistent(byId: map<SeriesId, SeriesKey>, byKey: map<SeriesKey, SeriesId>, bindings: set<Binding>)
    requires Inverse(byId, byKey) && Realizes(byId, bindings)
    ensures Consistent(bindings)
  {
  }

  lemma SubsetConsistent(some: set<Binding>, all: set<Binding>)
    requires some <= all && Consistent(all)
    ensures Consistent(some)
  {
  }

  lemma {:induction false} BuildSeriesSpec(
    list: seq<Binding>, byId: map<SeriesId, SeriesKey>, byKey: map<SeriesKey, SeriesId>, seen: set<Binding>)
    requires Inverse(byId, byKey) && Realizes(byId, seen)
    ensures
      var r := BuildSeries(list, byId, byKey);
      && (r.Ok? <==> Consistent(seen + BindingSet(list)))
      && (r.Ok? ==> Realizes(r.value, seen + BindingSet(list)))
      && (r.Err? ==> r.error == Conflict)
    decreases |list|
  {
    if list == [] {
      assert seen + BindingSet(list) == seen;
      InverseIsConsistent(byId, byKey, seen);
    } else {
      var b := list[0];
      assert list == [b] + list[1..];
      var all := seen + BindingSet(list);
      assert all == (seen + {b}) + BindingSet(list[1..]);
      assert b in all;
      if b.0 in byId {
        assert (b.0, byId[b.0]) in all;
        if byId[b.0] == b.1 {
          assert seen + {b} == seen;
          BuildSeriesSpec(list[1..], byId, byKey, seen);
        }
      } else if b.1 in byKey {
        assert (byKey[b.1], b.1) in all;
      } else {
        BuildSeriesSpec(list[1..], byId[b.0 := b.1], byKey[b.1 := b.0], seen + {b});
      }
    }
  }

  lemma {:induction false} AllSeriesBindings(w: World, sources: seq<Source>)
    ensures BindingSet(AllSeries(w, sources)) == BindingsOf(w, Roots(sources))
  {
    if sources == [] {
    } else {
      AllSeriesBindings(w, sources[1..]);
      var all := AllSeries(w, sources);
      assert sources == [sources[0]] + sources[1..];
      assert Roots(sources) == {sources[0].root} + Roots(sources[1..]);
      forall b ensures b in all <==> b in BindingsOf(w, Roots(sources)) {
        assert b in all <==> b in w.seriesOf(sources[0].root) || b in AllSeries(w, sources[1..]);
        assert b in AllSeries(w, sources[1..]) <==> b in BindingSet(AllSeries(w, sources[1..]));
      }
    }
  }

  /**
   The builder accepts exactly the source lists whose series pair ids and keys off one to one,
   whatever the order of the sources, and lists exactly their series.
   */
  lemma BuildCatalogSpec(w: World, sources: seq<Source>)
    ensures BuildCatalog(w, sources).Ok? ==> exists series :: Realizes(series, BindingsOf(w, Roots(sources)))
    ensures BuildCatalog(w, sources).Ok? <==> Consistent(BindingsOf(w, Roots(sources)))
    ensures BuildCatalog(w, sources).Err? ==> BuildCatalog(w, sources).error == Conflict
    ensures forall series :: Realizes(series, BindingsOf(w, Roots(sources))) && BuildCatalog(w, sources).Ok? ==>
              BuildCatalog(w, sources) == Ok(CatalogFile(
                CATALOG_VERSION, SortEntries(EntriesOf(w, sources)), Some(FingerprintOf(w, series))))
  {
    var list := AllSeries(w, sources);
    BuildSeriesSpec(list, map[], map[], {});
    AllSeriesBindings(w, sources);
    assert {} + BindingSet(list) == BindingsOf(w, Roots(sources));
    forall series | Realizes(series, BindingsOf(w, Roots(sources))) && BuildCatalog(w, sources).Ok?
      ensures series == BuildSeries(list, map[], map[]).value
    {
      RealizesUnique(series, BuildSeries(list, map[], map[]).value, BindingsOf(w, Roots(sources)));
    }
  }
}
