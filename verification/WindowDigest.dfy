/**
 The digest of a shard window, src/storage.rs: series in the order of their identity keys, each with
 its point hashes in ascending order, folded into one fingerprint. Hashing a point and mixing data
 into the fingerprint are parameters.
 */
module WindowDigest {
  import opened Common
  import opened LabelIdentity
  import opened Sorting
  import opened TopK

  /** A series as a replica lists it, with its points in the window. */
  datatype Listed = Listed(metric: Text, labels: seq<Label>, points: seq<int>)

  /** What enters the fingerprint of a series. */
  datatype Entry = Entry(key: Text, hashes: seq<int>)

  datatype Digest = Digest(seriesCount: nat, pointCount: nat, fingerprint: nat)

  /** Mixes the key, the number of points and their hashes into a fingerprint. */
  type Mixing = (nat, Entry) -> nat

  function KeyOf(s: Listed): Text {
    Hex(Marshal(s.metric, s.labels))
  }

  function IntLess(a: int, b: int): bool {
    a < b
  }

  function KeyLess(a: Entry, b: Entry): bool {
    TextLess(a.key, b.key)
  }

  function ListedLess(a: Listed, b: Listed): bool {
    TextLess(KeyOf(a), KeyOf(b))
  }

  function EntryOf(hash: int -> int): Listed -> Entry {
    (s: Listed) => Entry(KeyOf(s), Sort(IntLess, Map(hash, s.points)))
  }

  /** Series without points in the window do not count. */
  function Absorb(d: Digest, e: Entry, mix: Mixing): Digest {
    if e.hashes == [] then d
    else Digest(d.seriesCount + 1, d.pointCount + |e.hashes|, mix(d.fingerprint, e))
  }

  function AbsorbAll(basis: nat, entries: seq<Entry>, mix: Mixing): Digest {
    if entries == [] then Digest(0, 0, basis)
    else Absorb(AbsorbAll(basis, entries[..|entries| - 1], mix), entries[|entries| - 1], mix)
  }

  /** The digest of what a replica lists. */
  function DigestOf(listing: seq<Listed>, basis: nat, hash: int -> int, mix: Mixing): Digest {
    AbsorbAll(basis, Map(EntryOf(hash), Sort(ListedLess, listing)), mix)
  }

  /** One series: skipped without points, otherwise counted and mixed in. */
  method AbsorbSeries(d: Digest, s: Listed, hash: int -> int, mix: Mixing) returns (after: Digest)
    ensures after == Absorb(d, EntryOf(hash)(s), mix)
  {
    if s.points == [] {
      return d;
    }
    var hashes := Sort(IntLess, Map(hash, s.points));
    HashesKept(s.points, hash);
    return Digest(d.seriesCount + 1, d.pointCount + |hashes|, mix(d.fingerprint, Entry(KeyOf(s), hashes)));
  }

  lemma AbsorbNext(basis: nat, entries: seq<Entry>, i: nat, mix: Mixing)
    requires i < |entries|
    ensures AbsorbAll(basis, entries[..i + 1], mix) == Absorb(AbsorbAll(basis, entries[..i], mix), entries[i], mix)
  {
    assert entries[..i + 1][..i] == entries[..i];
  }

  /** The loop over the sorted series. */
  method AbsorbListing(series: seq<Listed>, basis: nat, hash: int -> int, mix: Mixing, ghost entries: seq<Entry>)
    returns (d: Digest)
    requires entries == Map(EntryOf(hash), series)
    ensures d == AbsorbAll(basis, entries, mix)
  {
    d := Digest(0, 0, basis);
    for i := 0 to |series|
      invariant d == AbsorbAll(basis, entries[..i], mix)
    {
      MapAt(EntryOf(hash), series, i);
      AbsorbNext(basis, entries, i, mix);
      d := AbsorbSeries(d, series[i], hash, mix);
    }
    assert entries[..|series|] == entries;
  }

  /** `compute_shard_window_digest` */
  method ComputeDigest(listing: seq<Listed>, basis: nat, hash: int -> int, mix: Mixing) returns (d: Digest)
    ensures d == DigestOf(listing, basis, hash, mix)
  {
    var series := Sort(ListedLess, listing);
    d := AbsorbListing(series, basis, hash, mix, Map(EntryOf(hash), series));
  }

  lemma HashesKept(points: seq<int>, hash: int -> int)
    ensures |Sort(IntLess, Map(hash, points))| == |points|
  {
    SortPermutes(IntLess, Map(hash, points));
    SameLength(Sort(IntLess, Map(hash, points)), Map(hash, points));
  }

  // ----- The order of points does not matter -----

  lemma IntOrder()
    ensures StrictTotal(IntLess)
  {
  }

  /** Listing the points in another order gives the same entry; so does listing the labels in another order. */
  lemma SameEntry(a: Listed, b: Listed, hash: int -> int)
    requires SameSeries(a, b)
    ensures EntryOf(hash)(a) == EntryOf(hash)(b)
  {
    IntOrder();
    MapPermutes(hash, a.points, b.points);
    SortForgetsOrder(IntLess, Map(hash, a.points), Map(hash, b.points));
    SameKey(a, b);
  }

  lemma SameKey(a: Listed, b: Listed)
    requires SameSeries(a, b)
    ensures KeyOf(a) == KeyOf(b)
  {
    LabelOrder();
    SortForgetsOrder(LabelLess, a.labels, b.labels);
  }

  // ----- The order of series does not matter -----

  ghost predicate SameSeries(a: Listed, b: Listed) {
    a.metric == b.metric && multiset(a.labels) == multiset(b.labels) && multiset(a.points) == multiset(b.points)
  }

  /** No identity is listed twice. */
  ghost predicate Distinct(listing: seq<Listed>) {
    forall i, j :: 0 <= i < j < |listing| ==> KeyOf(listing[i]) != KeyOf(listing[j])
  }

  ghost predicate Covers(a: seq<Listed>, b: seq<Listed>) {
    forall s :: s in a && s.points != [] ==> exists t :: t in b && SameSeries(s, t)
  }

  /** Two replicas hold the same points of the same series, each listed in its own order. */
  ghost predicate SameWindow(a: seq<Listed>, b: seq<Listed>) {
    Covers(a, b) && Covers(b, a)
  }

  ghost predicate DistinctKeys(entries: seq<Entry>) {
    forall i, j :: 0 <= i < j < |entries| ==> entries[i].key != entries[j].key
  }

  /** An entry carries the key of its series. */
  ghost predicate Keyed(entryOf: Listed -> Entry) {
    forall s :: entryOf(s).key == KeyOf(s)
  }

  lemma DistinctEntries(listing: seq<Listed>, entryOf: Listed -> Entry)
    requires Distinct(listing) && Keyed(entryOf)
    ensures DistinctKeys(Map(entryOf, listing))
  {
    forall i, j | 0 <= i < j < |listing| ensures Map(entryOf, listing)[i].key != Map(entryOf, listing)[j].key {
      MapAt(entryOf, listing, i);
      MapAt(entryOf, listing, j);
      assert KeyOf(listing[i]) != KeyOf(listing[j]);
    }
  }

  lemma {:induction false} OnceEach(s: seq<Entry>, e: Entry)
    requires DistinctKeys(s)
    ensures multiset(s)[e] == if e in s then 1 else 0
    decreases |s|
  {
    if s != [] {
      var front, last := s[..|s| - 1], s[|s| - 1];
      OnceEach(front, e);
      assert s == front + [last];
      forall i | 0 <= i < |front| ensures front[i] != last {
        assert s[i].key != s[|s| - 1].key;
      }
    }
  }

  lemma SameEntriesPermute(x: seq<Entry>, y: seq<Entry>)
    requires DistinctKeys(x) && DistinctKeys(y) && forall e :: e in x <==> e in y
    ensures multiset(x) == multiset(y)
  {
    forall e ensures multiset(x)[e] == multiset(y)[e] {
      OnceEach(x, e);
      OnceEach(y, e);
    }
  }

  lemma CoveredEntries(a: seq<Listed>, b: seq<Listed>, hash: int -> int, e: Entry)
    requires Covers(a, b) && e in Map(EntryOf(hash), a) && e.hashes != []
    ensures e in Map(EntryOf(hash), b)
  {
    MapMembers(EntryOf(hash), a);
    MapMembers(EntryOf(hash), b);
    var s :| s in a && EntryOf(hash)(s) == e;
    HashesKept(s.points, hash);
    var t :| t in b && SameSeries(s, t);
    SameEntry(s, t, hash);
  }

  // ----- The series that count -----

  /** The entries that enter the fingerprint. */
  function Live(entries: seq<Entry>): seq<Entry> {
    if entries == [] then []
    else
      var front, last := Live(entries[..|entries| - 1]), entries[|entries| - 1];
      if last.hashes == [] then front else front + [last]
  }

  lemma {:induction false} LiveAbsorbed(basis: nat, entries: seq<Entry>, mix: Mixing)
    ensures AbsorbAll(basis, entries, mix) == AbsorbAll(basis, Live(entries), mix)
    decreases |entries|
  {
    if entries != [] {
      var front, last := entries[..|entries| - 1], entries[|entries| - 1];
      LiveAbsorbed(basis, front, mix);
      assert (Live(front) + [last])[..|Live(front)|] == Live(front);
    }
  }

  lemma {:induction false} LiveMembers(entries: seq<Entry>, e: Entry)
    ensures e in Live(entries) <==> e in entries && e.hashes != []
    decreases |entries|
  {
    if entries != [] {
      var front, last := entries[..|entries| - 1], entries[|entries| - 1];
      LiveMembers(front, e);
      assert entries == front + [last];
    }
  }

  lemma {:induction false} LiveRises(entries: seq<Entry>)
    requires KeysRise(entries)
    ensures KeysRise(Live(entries))
    decreases |entries|
  {
    if entries != [] {
      var front, last := entries[..|entries| - 1], entries[|entries| - 1];
      LiveRises(front);
      forall i | 0 <= i < |Live(front)| ensures TextLess(Live(front)[i].key, last.key) {
        LiveMembers(front, Live(front)[i]);
        var j :| 0 <= j < |front| && front[j] == Live(front)[i];
        assert TextLess(entries[j].key, entries[|entries| - 1].key);
      }
    }
  }

  lemma RisingDistinct(entries: seq<Entry>)
    requires KeysRise(entries)
    ensures DistinctKeys(entries)
  {
    forall i, j | 0 <= i < j < |entries| ensures entries[i].key != entries[j].key {
      TextIrreflexive(entries[i].key);
    }
  }

  /** Keys in rising order, each once. */
  ghost predicate KeysRise(entries: seq<Entry>) {
    forall i, j :: 0 <= i < j < |entries| ==> TextLess(entries[i].key, entries[j].key)
  }

  lemma {:induction false} InsertRises(sorted: seq<Entry>, e: Entry)
    requires KeysRise(sorted) && forall i :: 0 <= i < |sorted| ==> sorted[i].key != e.key
    ensures KeysRise(InsertSorted(KeyLess, sorted, e))
    decreases |sorted|
  {
    if sorted != [] {
      TextTotal(e.key, sorted[0].key);
      if KeyLess(e, sorted[0]) {
        forall j | 0 < j < |sorted| ensures TextLess(e.key, sorted[j].key) {
          TextTransitive(e.key, sorted[0].key, sorted[j].key);
        }
      } else {
        var rest := InsertSorted(KeyLess, sorted[1..], e);
        InsertRises(sorted[1..], e);
        InsertPermutes(KeyLess, sorted[1..], e);
        forall j | 0 <= j < |rest| ensures TextLess(sorted[0].key, rest[j].key) {
          assert rest[j] in multiset(rest);
        }
      }
    }
  }

  lemma {:induction false} SortRises(entries: seq<Entry>)
    requires DistinctKeys(entries)
    ensures KeysRise(Sort(KeyLess, entries))
    decreases |entries|
  {
    if entries != [] {
      var front, last := entries[..|entries| - 1], entries[|entries| - 1];
      var sorted := Sort(KeyLess, front);
      SortRises(front);
      SortPermutes(KeyLess, front);
      forall i | 0 <= i < |sorted| ensures sorted[i].key != last.key {
        assert sorted[i] in multiset(sorted);
        var j :| 0 <= j < |front| && front[j] == sorted[i];
        assert entries[j].key != entries[|entries| - 1].key;
      }
      InsertRises(sorted, last);
    }
  }

  lemma {:induction false} RisingUnique(a: seq<Entry>, b: seq<Entry>)
    requires KeysRise(a) && KeysRise(b) && multiset(a) == multiset(b)
    ensures a == b
    decreases |a|
  {
    SameLength(a, b);
    if a != [] {
      SameMembers(a, b);
      SameFirstEntry(a, b);
      TailMultiset(a);
      TailMultiset(b);
      RisingUnique(a[1..], b[1..]);
    }
  }

  lemma SameFirstEntry(a: seq<Entry>, b: seq<Entry>)
    requires KeysRise(a) && KeysRise(b) && a != [] && b != [] && a[0] in b && b[0] in a
    ensures a[0] == b[0]
  {
    var i :| 0 <= i < |a| && a[i] == b[0];
    var j :| 0 <= j < |b| && b[j] == a[0];
    if i > 0 && j > 0 {
      TextTransitive(a[0].key, b[0].key, a[0].key);
      TextIrreflexive(a[0].key);
    }
  }

  /** The entries of a listing in digest order, those without points left out. */
  lemma SortedEntries(a: seq<Listed>, hash: int -> int) returns (live: seq<Entry>)
    requires Distinct(a)
    ensures live == Live(Map(EntryOf(hash), Sort(ListedLess, a))) && KeysRise(live) && LiveOf(live, a, EntryOf(hash))
  {
    var x := Map(EntryOf(hash), a);
    MapSort(EntryOf(hash), ListedLess, KeyLess, a);
    DistinctEntries(a, EntryOf(hash));
    SortRises(x);
    LiveRises(Sort(KeyLess, x));
    live := Live(Sort(KeyLess, x));
    SortPermutes(KeyLess, x);
    SameMembers(Sort(KeyLess, x), x);
    forall e ensures e in live <==> e in x && e.hashes != [] {
      LiveMembers(Sort(KeyLess, x), e);
    }
  }

  lemma SameRising(x: seq<Entry>, y: seq<Entry>)
    requires KeysRise(x) && KeysRise(y) && forall e :: e in x <==> e in y
    ensures x == y
  {
    RisingDistinct(x);
    RisingDistinct(y);
    SameEntriesPermute(x, y);
    RisingUnique(x, y);
  }

  /** Replicas that hold the same window compute the same digest, whatever they hash with. */
  lemma DigestForgetsOrder(a: seq<Listed>, b: seq<Listed>, basis: nat, hash: int -> int, mix: Mixing)
    requires Distinct(a) && Distinct(b) && SameWindow(a, b)
    ensures DigestOf(a, basis, hash, mix) == DigestOf(b, basis, hash, mix)
  {
    var x := SortedEntries(a, hash);
    var y := SortedEntries(b, hash);
    forall e ensures e in x <==> e in y {
      if e in x {
        CoveredEntries(a, b, hash, e);
      }
      if e in y {
        CoveredEntries(b, a, hash, e);
      }
    }
    SameRising(x, y);
    LiveAbsorbed(basis, Map(EntryOf(hash), Sort(ListedLess, a)), mix);
    LiveAbsorbed(basis, Map(EntryOf(hash), Sort(ListedLess, b)), mix);
  }

  // ----- What equal digests say -----

  /** The fingerprint after the first `k` entries. */
  function FingerprintAt(entries: seq<Entry>, k: nat, basis: nat, mix: Mixing): nat
    requires k <= |entries|
  {
    AbsorbAll(basis, entries[..k], mix).fingerprint
  }

  /**
   The two computations meet at entry `k`: what they mix there differs, in the fingerprint so far or in
   the entry, the mixed values are equal, and the entries that follow are the same.
   */
  ghost predicate MeetsAt(x: seq<Entry>, y: seq<Entry>, basis: nat, mix: Mixing, k: nat) {
    && k < |x| == |y| && x[k + 1..] == y[k + 1..]
    && var f, g := FingerprintAt(x, k, basis, mix), FingerprintAt(y, k, basis, mix);
       (f != g || x[k] != y[k]) && mix(f, x[k]) == mix(g, y[k])
  }

  ghost predicate SomeEntriesMeet(x: seq<Entry>, y: seq<Entry>, basis: nat, mix: Mixing) {
    exists k: nat :: MeetsAt(x, y, basis, mix, k)
  }

  lemma {:induction false} LiveCount(basis: nat, entries: seq<Entry>, mix: Mixing)
    ensures AbsorbAll(basis, entries, mix).seriesCount == |Live(entries)|
    decreases |entries|
  {
    if entries != [] {
      LiveCount(basis, entries[..|entries| - 1], mix);
    }
  }

  ghost predicate AllLive(entries: seq<Entry>) {
    forall k :: 0 <= k < |entries| ==> entries[k].hashes != []
  }

  lemma FingerprintNext(x: seq<Entry>, k: nat, basis: nat, mix: Mixing)
    requires AllLive(x) && k < |x|
    ensures FingerprintAt(x, k + 1, basis, mix) == mix(FingerprintAt(x, k, basis, mix), x[k])
  {
    AbsorbNext(basis, x, k, mix);
  }

  /** Walking back from equal fingerprints of different entries ends where the computations meet. */
  lemma {:induction false} FindMeeting(x: seq<Entry>, y: seq<Entry>, basis: nat, mix: Mixing, n: nat) returns (k: nat)
    requires AllLive(x) && AllLive(y) && n <= |x| == |y| && x != y && x[n..] == y[n..]
    requires FingerprintAt(x, n, basis, mix) == FingerprintAt(y, n, basis, mix)
    ensures MeetsAt(x, y, basis, mix, k)
    decreases n
  {
    if n == 0 {
      assert false;
    }
    k := n - 1;
    FingerprintNext(x, k, basis, mix);
    FingerprintNext(y, k, basis, mix);
    if FingerprintAt(x, k, basis, mix) == FingerprintAt(y, k, basis, mix) && x[k] == y[k] {
      assert x[k..] == [x[k]] + x[n..] && y[k..] == [y[k]] + y[n..];
      k := FindMeeting(x, y, basis, mix, k);
    }
  }

  /** Equal fingerprints stay equal over equal entries. */
  lemma {:induction false} EqualFrom(x: seq<Entry>, y: seq<Entry>, basis: nat, mix: Mixing, k: nat, n: nat)
    requires AllLive(x) && AllLive(y) && k <= n <= |x| == |y| && x[k..] == y[k..]
    requires FingerprintAt(x, k, basis, mix) == FingerprintAt(y, k, basis, mix)
    ensures FingerprintAt(x, n, basis, mix) == FingerprintAt(y, n, basis, mix)
    decreases n
  {
    if k < n {
      EqualFrom(x, y, basis, mix, k, n - 1);
      FingerprintNext(x, n - 1, basis, mix);
      FingerprintNext(y, n - 1, basis, mix);
      assert x[n - 1] == x[k..][n - 1 - k] == y[n - 1];
    }
  }

  lemma MeetingSuffices(x: seq<Entry>, y: seq<Entry>, basis: nat, mix: Mixing, k: nat)
    requires AllLive(x) && AllLive(y) && MeetsAt(x, y, basis, mix, k)
    ensures FingerprintAt(x, |x|, basis, mix) == FingerprintAt(y, |y|, basis, mix)
  {
    FingerprintNext(x, k, basis, mix);
    FingerprintNext(y, k, basis, mix);
    EqualFrom(x, y, basis, mix, k + 1, |x|);
  }

  /** Fingerprints of as many entries are equal exactly when the entries are, or the computations meet. */
  lemma FingerprintsExactly(x: seq<Entry>, y: seq<Entry>, basis: nat, mix: Mixing)
    requires AllLive(x) && AllLive(y) && |x| == |y|
    ensures AbsorbAll(basis, x, mix).fingerprint == AbsorbAll(basis, y, mix).fingerprint <==>
              x == y || SomeEntriesMeet(x, y, basis, mix)
  {
    assert x[..|x|] == x && y[..|y|] == y;
    if FingerprintAt(x, |x|, basis, mix) == FingerprintAt(y, |y|, basis, mix) && x != y {
      var k := FindMeeting(x, y, basis, mix, |x|);
    }
    if k: nat :| MeetsAt(x, y, basis, mix, k) {
      MeetingSuffices(x, y, basis, mix, k);
    }
  }

  lemma CountFirst(points: seq<int>, p: int)
    requires points != []
    ensures multiset(points)[p] == multiset(points[1..])[p] + if points[0] == p then 1 else 0
  {
    assert multiset([points[0]] + points[1..]) == multiset{points[0]} + multiset(points[1..]);
    assert points == [points[0]] + points[1..];
  }

  lemma {:induction false} ImageAtLeast(hash: int -> int, points: seq<int>, p: int)
    ensures multiset(Map(hash, points))[hash(p)] >= multiset(points)[p]
    decreases |points|
  {
    if points != [] {
      ImageAtLeast(hash, points[1..], p);
      MapFirst(hash, points);
      CountFirst(points, p);
    }
  }

  lemma {:induction false} ImageExactly(hash: int -> int, points: seq<int>, p: int)
    requires forall q :: q in points && hash(q) == hash(p) ==> q == p
    ensures multiset(Map(hash, points))[hash(p)] == multiset(points)[p]
    decreases |points|
  {
    if points != [] {
      ImageExactly(hash, points[1..], p);
      MapFirst(hash, points);
      CountFirst(points, p);
      assert points[0] in points;
    }
  }

  /** More copies of `p` in one list than in the other, under equal images: another point has its hash. */
  lemma HashCollides(hash: int -> int, a: seq<int>, b: seq<int>, p: int) returns (q: int)
    requires multiset(Map(hash, a)) == multiset(Map(hash, b)) && multiset(a)[p] > multiset(b)[p]
    ensures p in a && q in b && p != q && hash(p) == hash(q)
  {
    ImageAtLeast(hash, a, p);
    assert p in multiset(a);
    if forall q :: q in b && hash(q) == hash(p) ==> q == p {
      ImageExactly(hash, b, p);
      assert false;
    }
    q :| q in b && hash(q) == hash(p) && q != p;
  }

  lemma Differ(a: multiset<int>, b: multiset<int>) returns (p: int)
    requires a != b
    ensures a[p] != b[p]
  {
    if forall v :: a[v] == b[v] {
      SameCounts(a, b);
    }
    p :| a[p] != b[p];
  }

  lemma SameCounts(a: multiset<int>, b: multiset<int>)
    requires forall v :: a[v] == b[v]
    ensures a == b
  {
    assert forall v :: a[v] == b[v];
  }

  lemma PointsCollide(hash: int -> int, a: seq<int>, b: seq<int>) returns (p: int, q: int)
    requires Sort(IntLess, Map(hash, a)) == Sort(IntLess, Map(hash, b)) && multiset(a) != multiset(b)
    ensures p in a && q in b && p != q && hash(p) == hash(q)
  {
    SortPermutes(IntLess, Map(hash, a));
    SortPermutes(IntLess, Map(hash, b));
    p := Differ(multiset(a), multiset(b));
    if multiset(a)[p] > multiset(b)[p] {
      q := HashCollides(hash, a, b, p);
    } else {
      q := p;
      p := HashCollides(hash, b, a, q);
    }
  }

  ghost predicate AllValidated(listing: seq<Listed>, utf8: Text -> bool) {
    forall s :: s in listing ==> Validated(s.metric, s.labels, utf8)
  }

  /** The two series have the same identity and entry, and a point of each has the hash of the other's. */
  ghost predicate PointsMeet(s: Listed, t: Listed, hash: int -> int) {
    && SameIdentity(s, t) && EntryOf(hash)(s) == EntryOf(hash)(t)
    && exists p, q :: p in s.points && q in t.points && p != q && hash(p) == hash(q)
  }

  ghost predicate SameIdentity(s: Listed, t: Listed) {
    s.metric == t.metric && multiset(s.labels) == multiset(t.labels)
  }

  /** Two series with the same entry have the same identity, and the same points unless points collide. */
  lemma EntryCollides(s: Listed, t: Listed, hash: int -> int, utf8: Text -> bool)
    requires Validated(s.metric, s.labels, utf8) && Validated(t.metric, t.labels, utf8)
    requires EntryOf(hash)(s) == EntryOf(hash)(t) && !SameSeries(s, t)
    ensures PointsMeet(s, t, hash)
  {
    IdentityKeyExact(s.metric, s.labels, t.metric, t.labels, utf8);
    var p, q := PointsCollide(hash, s.points, t.points);
  }

  ghost predicate LiveOf(live: seq<Entry>, listing: seq<Listed>, entryOf: Listed -> Entry) {
    forall e :: e in live <==> e in Map(entryOf, listing) && e.hashes != []
  }

  lemma Counterpart(a: seq<Listed>, b: seq<Listed>, entryOf: Listed -> Entry, live: seq<Entry>, s: Listed) returns (t: Listed)
    requires LiveOf(live, a, entryOf) && LiveOf(live, b, entryOf) && s in a && entryOf(s).hashes != []
    ensures t in b && entryOf(t) == entryOf(s)
  {
    MapMembers(entryOf, a);
    assert entryOf(s) in live;
    MapMembers(entryOf, b);
    t :| t in b && entryOf(t) == entryOf(s);
  }

  /** A series of `a` that `b` lacks, though the entries agree. */
  lemma SeriesCollides(a: seq<Listed>, b: seq<Listed>, live: seq<Entry>, hash: int -> int, utf8: Text -> bool, s: Listed)
    returns (t: Listed)
    requires LiveOf(live, a, EntryOf(hash)) && LiveOf(live, b, EntryOf(hash))
    requires AllValidated(a, utf8) && AllValidated(b, utf8)
    requires s in a && s.points != [] && forall t :: t in b ==> !SameSeries(s, t)
    ensures t in b && PointsMeet(s, t, hash)
  {
    HashesKept(s.points, hash);
    t := Counterpart(a, b, EntryOf(hash), live, s);
    EntryCollides(s, t, hash, utf8);
  }

  /** Series of the two windows with one identity, whose different points hash alike. */
  ghost predicate SomePointsMeet(a: seq<Listed>, b: seq<Listed>, hash: int -> int) {
    exists s, t :: s in a && t in b && PointsMeet(s, t, hash)
  }

  lemma EqualEntriesExactly(a: seq<Listed>, b: seq<Listed>, live: seq<Entry>, hash: int -> int, utf8: Text -> bool)
    requires LiveOf(live, a, EntryOf(hash)) && LiveOf(live, b, EntryOf(hash))
    requires AllValidated(a, utf8) && AllValidated(b, utf8) && !SameWindow(a, b)
    ensures SomePointsMeet(a, b, hash)
  {
    if s :| s in a && s.points != [] && forall t :: t in b ==> !SameSeries(s, t) {
      var t := SeriesCollides(a, b, live, hash, utf8, s);
    } else {
      var t :| t in b && t.points != [] && forall s :: s in a ==> !SameSeries(t, s);
      var s := SeriesCollides(b, a, live, hash, utf8, t);
      assert PointsMeet(s, t, hash);
    }
  }

  /** The entries that enter the digest of a listing. */
  function EntriesOf(listing: seq<Listed>, hash: int -> int): seq<Entry> {
    Live(Map(EntryOf(hash), Sort(ListedLess, listing)))
  }

  /** Digests are equal exactly when the counts are, and the entries are or the computations meet. */
  lemma DigestsEqualExactly(a: seq<Listed>, b: seq<Listed>, basis: nat, hash: int -> int, mix: Mixing)
    ensures
      var x, y, d, e := EntriesOf(a, hash), EntriesOf(b, hash), DigestOf(a, basis, hash, mix), DigestOf(b, basis, hash, mix);
      d == e <==> |x| == |y| && d.pointCount == e.pointCount && (x == y || SomeEntriesMeet(x, y, basis, mix))
  {
    var listedA, listedB := Map(EntryOf(hash), Sort(ListedLess, a)), Map(EntryOf(hash), Sort(ListedLess, b));
    LiveAbsorbed(basis, listedA, mix);
    LiveAbsorbed(basis, listedB, mix);
    LiveCount(basis, listedA, mix);
    LiveCount(basis, listedB, mix);
    LiveLives(listedA);
    LiveLives(listedB);
    if |Live(listedA)| == |Live(listedB)| {
      FingerprintsExactly(Live(listedA), Live(listedB), basis, mix);
    }
  }

  lemma LiveLives(entries: seq<Entry>)
    ensures AllLive(Live(entries))
  {
    forall k | 0 <= k < |Live(entries)| ensures Live(entries)[k].hashes != [] {
      LiveMembers(entries, Live(entries)[k]);
    }
  }

  /**
   Equal digests of different windows exhibit a collision in the two computations themselves: different
   points of one series with the same hash, or different values that they mix at the same place and that
   mix to the same fingerprint.
   */
  lemma DigestExact(a: seq<Listed>, b: seq<Listed>, basis: nat, hash: int -> int, mix: Mixing, utf8: Text -> bool)
    requires Distinct(a) && Distinct(b) && AllValidated(a, utf8) && AllValidated(b, utf8)
    ensures SameWindow(a, b) ==> DigestOf(a, basis, hash, mix) == DigestOf(b, basis, hash, mix)
    ensures DigestOf(a, basis, hash, mix) == DigestOf(b, basis, hash, mix) ==>
              || SameWindow(a, b)
              || SomePointsMeet(a, b, hash)
              || SomeEntriesMeet(EntriesOf(a, hash), EntriesOf(b, hash), basis, mix)
  {
    if SameWindow(a, b) {
      DigestForgetsOrder(a, b, basis, hash, mix);
    } else if DigestOf(a, basis, hash, mix) == DigestOf(b, basis, hash, mix) {
      DigestsEqualExactly(a, b, basis, hash, mix);
      var x := SortedEntries(a, hash);
      var y := SortedEntries(b, hash);
      if x == y {
        EqualEntriesExactly(a, b, x, hash, utf8);
      }
    }
  }
}
