// The data version filters of ClusterStateCache: largest clusters first, as many as fit, and the
// agreement of the metadata-only cache with the full one.

module ClusterCacheFilters {
  import opened Core
  import opened Tlv
  import opened PathParams
  import opened ClusterCache

  // ---------- full and metadata-only caches ----------

  function Sizes(attributes: map<nat, AttributeState>): map<nat, nat> {
    map a | a in attributes :: StateSize(attributes[a])
  }

  // All that filters and versions depend on.
  datatype View = View(sizes: map<nat, nat>, pending: Option<nat>, committed: Option<nat>)

  function ViewOf(s: ClusterState): View {
    View(Sizes(s.attributes), s.pending, s.committed)
  }

  function Views(clusters: map<ClusterPath, ClusterState>): map<ClusterPath, View> {
    map c | c in clusters :: ViewOf(clusters[c])
  }

  ghost predicate Agree(full: State, meta: State) {
    Views(full.clusters) == Views(meta.clusters) && full.last == meta.last && full.requests == meta.requests
  }

  lemma AgreeEntries(full: State, meta: State, c: ClusterPath)
    requires Agree(full, meta)
    ensures c in full.clusters <==> c in meta.clusters
    ensures ViewOf(full.Entry(c)) == ViewOf(meta.Entry(c))
  {
    assert c in Views(full.clusters) <==> c in Views(meta.clusters);
    if c in full.clusters {
      assert Views(full.clusters)[c] == Views(meta.clusters)[c];
    }
  }

  lemma AgreePut(full: State, meta: State, c: ClusterPath, s: ClusterState, t: ClusterState)
    requires Agree(full, meta) && ViewOf(s) == ViewOf(t)
    ensures Agree(full.Put(c, s), meta.Put(c, t))
  {
    assert Views(full.Put(c, s).clusters) == Views(full.clusters)[c := ViewOf(s)];
    assert Views(meta.Put(c, t).clusters) == Views(meta.clusters)[c := ViewOf(t)];
  }

  lemma AgreeCommit(full: State, meta: State)
    requires Agree(full, meta)
    ensures Agree(Commit(full), Commit(meta))
  {
    if full.last.IsValid() {
      AgreeEntries(full, meta, full.last);
      var e, f := full.Entry(full.last), meta.Entry(meta.last);
      AgreePut(full, meta, full.last,
               if e.pending.Some? then e.(committed := e.pending, pending := None) else e,
               if f.pending.Some? then f.(committed := f.pending, pending := None) else f);
    }
  }

  lemma AgreeArrive(full: State, meta: State, c: ClusterPath, version: Option<nat>)
    requires Agree(full, meta)
    ensures Agree(Arrive(full, c, version), Arrive(meta, c, version))
  {
    AgreeEntries(full, meta, c);
    var full1, meta1 := full.Put(c, full.Entry(c).(committed := None)), meta.Put(c, meta.Entry(c).(committed := None));
    AgreePut(full, meta, c, full.Entry(c).(committed := None), meta.Entry(c).(committed := None));
    AgreeCommit(full1, meta1);
    var full2, meta2 := Settled(full, c), Settled(meta, c);
    AgreeEntries(full2, meta2, c);
    assert full2.Covered(c) == meta2.Covered(c);
    AgreePut(full2, meta2, c, full2.Entry(c).(pending := version), meta2.Entry(c).(pending := version));
  }

  // One call keeps a full and a metadata-only cache in agreement.
  lemma AgreeUpdate(full: State, meta: State, item: Item)
    requires Agree(full, meta)
    ensures Agree(Update(full, item, true), Update(meta, item, false))
  {
    var c := item.path.Cluster();
    if item.DataItem? {
      AgreeArrive(full, meta, c, item.version);
    }
    var full1 := if item.DataItem? then Arrive(full, c, item.version) else full;
    var meta1 := if item.DataItem? then Arrive(meta, c, item.version) else meta;
    AgreeEntries(full1, meta1, c);
    var a := item.path.attribute;
    var e, f := full1.Entry(c).attributes, meta1.Entry(c).attributes;
    assert StateSize(Kept(item, true)) == StateSize(Kept(item, false));
    assert Sizes(e[a := Kept(item, true)]) == Sizes(e)[a := StateSize(Kept(item, true))];
    assert Sizes(f[a := Kept(item, false)]) == Sizes(f)[a := StateSize(Kept(item, false))];
    AgreePut(full1, meta1, c, full1.Entry(c).(attributes := e[a := Kept(item, true)]), meta1.Entry(c).(attributes := f[a := Kept(item, false)]));
  }

  lemma {:induction false} AgreeUpdateAll(full: State, meta: State, items: seq<Item>)
    requires Agree(full, meta)
    ensures Agree(UpdateAll(full, items, true), UpdateAll(meta, items, false))
  {
    if items != [] {
      var n := |items| - 1;
      AgreeUpdateAll(full, meta, items[..n]);
      AgreeUpdate(UpdateAll(full, items[..n], true), UpdateAll(meta, items[..n], false), items[n]);
    }
  }

  lemma {:induction false} AgreeRun(reports: seq<Report>)
    ensures Agree(Run(INITIAL, reports, true), Run(INITIAL, reports, false))
  {
    if reports != [] {
      var n := |reports| - 1;
      AgreeRun(reports[..n]);
      var full, meta, r := Run(INITIAL, reports[..n], true), Run(INITIAL, reports[..n], false), reports[n];
      AgreeUpdateAll(Begin(full.(requests := full.requests + r.newRequests)), Begin(meta.(requests := meta.requests + r.newRequests)), r.items);
      AgreeCommit(Inside(full, r, true), Inside(meta, r, false));
    }
  }

  // ---------- the filters ----------

  datatype Filter = Filter(cluster: ClusterPath, version: nat)

  ghost function Total(sizes: map<nat, nat>): nat
    decreases |sizes|
  {
    if sizes == map[] then 0
    else
      var a :| a in sizes;
      sizes[a] + Total(sizes - {a})
  }

  lemma TotalOfOne(a: nat, size: nat)
    ensures Total(map[]) == 0 && Total(map[a := size]) == size
  {
    assert map[a := size] - {a} == map[];
    TotalAnyOrder(map[a := size], a);
  }

  lemma {:induction false} TotalAnyOrder(sizes: map<nat, nat>, a: nat)
    requires a in sizes
    ensures Total(sizes) == sizes[a] + Total(sizes - {a})
    decreases |sizes|
  {
    var b :| b in sizes && Total(sizes) == sizes[b] + Total(sizes - {b});
    if a != b {
      TotalAnyOrder(sizes - {b}, a);
      TotalAnyOrder(sizes - {a}, b);
      assert sizes - {a} - {b} == sizes - {b} - {a};
    }
  }

  ghost function ClusterSize(s: ClusterState): nat {
    Total(Sizes(s.attributes))
  }

  // The clusters a filter is made for, with their sizes.
  ghost function FilterSet(clusters: map<ClusterPath, ClusterState>): set<(Filter, nat)> {
    set c | c in clusters && clusters[c].committed.Some? && ClusterSize(clusters[c]) > 0
      :: (Filter(c, clusters[c].committed.value), ClusterSize(clusters[c]))
  }

  lemma FiltersAgree(full: State, meta: State)
    requires Agree(full, meta)
    ensures FilterSet(full.clusters) == FilterSet(meta.clusters)
    ensures forall c :: full.Entry(c).committed == meta.Entry(c).committed
  {
    forall c
      ensures ViewOf(full.Entry(c)) == ViewOf(meta.Entry(c)) && (c in full.clusters <==> c in meta.clusters)
    {
      AgreeEntries(full, meta, c);
    }
    forall f | f in FilterSet(full.clusters)
      ensures f in FilterSet(meta.clusters)
    {
      assert ViewOf(full.Entry(f.0.cluster)) == ViewOf(meta.Entry(f.0.cluster));
    }
    forall f | f in FilterSet(meta.clusters)
      ensures f in FilterSet(full.clusters)
    {
      assert ViewOf(full.Entry(f.0.cluster)) == ViewOf(meta.Entry(f.0.cluster));
    }
  }

  // After any run the two kinds of cache offer the same filters and commit the same versions.
  lemma FullAndMetadataAgree(reports: seq<Report>)
    ensures FilterSet(Run(INITIAL, reports, true).clusters) == FilterSet(Run(INITIAL, reports, false).clusters)
    ensures forall c :: Run(INITIAL, reports, true).Entry(c).committed == Run(INITIAL, reports, false).Entry(c).committed
  {
    AgreeRun(reports);
    FiltersAgree(Run(INITIAL, reports, true), Run(INITIAL, reports, false));
  }

  // A filter that is offered after a run names the version of the last data received for a cluster
  // that a requested wildcard path covers.
  lemma FiltersAreCurrent(reports: seq<Report>, cacheData: bool, f: (Filter, nat))
    requires f in FilterSet(Run(INITIAL, reports, cacheData).clusters)
    ensures f.0.cluster in Stamps(reports) && Stamps(reports)[f.0.cluster] == Some(f.0.version)
    ensures Run(INITIAL, reports, cacheData).Covered(f.0.cluster)
  {
    RunSafe(reports, cacheData);
    assert Run(INITIAL, reports, cacheData).Entry(f.0.cluster).committed == Some(f.0.version);
  }

  // ---------- which filters there are ----------

  // The bytes of what the last item that named an attribute brought.
  function Bytes(item: Item): nat {
    match item
    case DataItem(_, _, e) => Size(e)
    case StatusItem(_, s) => 5 + match s.clusterStatus { case Some(_) => 3 case None => 0 }
  }

  // The attributes of a cluster that were ever named, with those bytes.
  ghost predicate SizesAre(reports: seq<Report>, c: ClusterPath, sizes: map<nat, nat>) {
    && (forall a :: a in sizes <==> exists n: nat, i: nat :: NamedAt(reports, n, i, AttributePath(c.endpoint, c.cluster, a)))
    && (forall a, n: nat, i: nat :: LastNamedAt(reports, n, i, AttributePath(c.endpoint, c.cluster, a)) ==> sizes[a] == Bytes(reports[n].items[i]))
  }

  lemma SizesOfRun(reports: seq<Report>, cacheData: bool, c: ClusterPath)
    ensures SizesAre(reports, c, Sizes(Run(INITIAL, reports, cacheData).Entry(c).attributes))
  {
    var st := Run(INITIAL, reports, cacheData);
    var sizes := Sizes(st.Entry(c).attributes);
    forall a
      ensures a in sizes <==> exists n: nat, i: nat :: NamedAt(reports, n, i, AttributePath(c.endpoint, c.cluster, a))
    {
      AttributesExactly(reports, cacheData, AttributePath(c.endpoint, c.cluster, a));
    }
    forall a, n: nat, i: nat | LastNamedAt(reports, n, i, AttributePath(c.endpoint, c.cluster, a))
      ensures sizes[a] == Bytes(reports[n].items[i])
    {
      AttributesExactly(reports, cacheData, AttributePath(c.endpoint, c.cluster, a));
    }
  }

  lemma {:induction false} SomeLastNamed(reports: seq<Report>, path: AttributePath, n: nat, i: nat) returns (m: nat, j: nat)
    requires NamedAt(reports, n, i, path)
    ensures LastNamedAt(reports, m, j, path)
  {
    var found;
    found, m, j := HeldAt(reports, true, path);
  }

  lemma SizesUnique(reports: seq<Report>, c: ClusterPath, xs: map<nat, nat>, ys: map<nat, nat>)
    requires SizesAre(reports, c, xs) && SizesAre(reports, c, ys)
    ensures xs == ys
  {
    forall a | a in xs
      ensures a in ys && xs[a] == ys[a]
    {
      var path := AttributePath(c.endpoint, c.cluster, a);
      var n: nat, i: nat :| NamedAt(reports, n, i, path);
      var m, j := SomeLastNamed(reports, path, n, i);
      assert xs[a] == Bytes(reports[m].items[j]) && ys[a] == Bytes(reports[m].items[j]);
    }
  }

  // After any run there is a filter for a cluster exactly if it has a committed version, which the
  // filter names, and what is cached of it has bytes; it is sorted by their number.
  lemma FiltersExactly(reports: seq<Report>, cacheData: bool, c: ClusterPath, v: nat, sizes: map<nat, nat>, size: nat)
    requires SizesAre(reports, c, sizes)
    ensures (Filter(c, v), size) in FilterSet(Run(INITIAL, reports, cacheData).clusters) <==>
              && (exists n: nat, i: nat :: LastDataAt(reports, n, i, c) && VersionsAt(reports, n, i, c).committed == Some(v))
              && size == Total(sizes) && size > 0
  {
    var st := Run(INITIAL, reports, cacheData);
    SizesOfRun(reports, cacheData, c);
    SizesUnique(reports, c, sizes, Sizes(st.Entry(c).attributes));
    VersionsExactly(reports, cacheData, c, v);
    assert st.Entry(c).committed == Some(v) ==> c in st.clusters;
  }

  predicate Descending(v: seq<(Filter, nat)>) {
    forall i, j :: 0 <= i < j < |v| ==> v[i].1 >= v[j].1
  }

  predicate NoRepeats(v: seq<(Filter, nat)>) {
    forall i, j :: 0 <= i < j < |v| ==> v[i] != v[j]
  }

  lemma DescendingConcat(xs: seq<(Filter, nat)>, ys: seq<(Filter, nat)>, bound: nat)
    requires Descending(xs) && Descending(ys)
    requires forall k :: 0 <= k < |xs| ==> xs[k].1 >= bound
    requires forall k :: 0 <= k < |ys| ==> ys[k].1 <= bound
    ensures Descending(xs + ys)
  {
  }

  lemma InsertedOrder(s: seq<(Filter, nat)>, f: (Filter, nat), j: nat)
    requires Descending(s) && j <= |s|
    requires j > 0 ==> s[j - 1].1 >= f.1
    requires forall k :: j <= k < |s| ==> s[k].1 < f.1
    ensures Descending(s[..j] + [f] + s[j..])
  {
    assert forall k :: 0 <= k < j ==> s[k].1 >= s[j - 1].1;
    DescendingConcat(s[..j], [f], f.1);
    DescendingConcat(s[..j] + [f], s[j..], f.1);
  }

  lemma InsertedItems(s: seq<(Filter, nat)>, f: (Filter, nat), j: nat)
    requires j <= |s|
    ensures multiset(s[..j] + [f] + s[j..]) == multiset(s) + multiset{f}
  {
    assert s == s[..j] + s[j..];
  }

  method InsertDescending(s: seq<(Filter, nat)>, f: (Filter, nat)) returns (t: seq<(Filter, nat)>)
    requires Descending(s)
    ensures Descending(t) && multiset(t) == multiset(s) + multiset{f}
  {
    var j := |s|;
    while j > 0 && s[j - 1].1 < f.1
      invariant 0 <= j <= |s|
      invariant forall k :: j <= k < |s| ==> s[k].1 < f.1
    {
      j := j - 1;
    }
    t := s[..j] + [f] + s[j..];
    InsertedItems(s, f, j);
    InsertedOrder(s, f, j);
  }

  // The library's sort, of which only this is used: the result is a descending permutation.
  method SortDescending(v: seq<(Filter, nat)>) returns (s: seq<(Filter, nat)>)
    ensures Descending(s) && multiset(s) == multiset(v)
  {
    s := [];
    var i := 0;
    while i < |v|
      invariant 0 <= i <= |v|
      invariant Descending(s) && multiset(s) == multiset(v[..i])
    {
      s := InsertDescending(s, v[i]);
      assert v[..i + 1] == v[..i] + [v[i]];
      i := i + 1;
    }
    assert v[..i] == v;
  }

  lemma NoRepeatsPermuted(v: seq<(Filter, nat)>, s: seq<(Filter, nat)>)
    requires NoRepeats(v) && multiset(s) == multiset(v)
    ensures NoRepeats(s)
    ensures forall f :: f in s <==> f in v
  {
    forall i, j | 0 <= i < j < |s|
      ensures s[i] != s[j]
    {
      if s[i] == s[j] {
        var f := s[i];
        assert s == s[..i] + [f] + s[i + 1..j] + [f] + s[j + 1..];
        assert multiset(s)[f] >= 2;
        CountOnce(v, f);
      }
    }
    assert forall f :: f in s <==> f in multiset(s);
    assert forall f :: f in v <==> f in multiset(v);
  }

  lemma {:induction false} CountOnce(v: seq<(Filter, nat)>, f: (Filter, nat))
    requires NoRepeats(v)
    ensures multiset(v)[f] <= 1
  {
    if v != [] {
      var n := |v| - 1;
      assert v == v[..n] + [v[n]];
      CountOnce(v[..n], f);
      if v[n] == f {
        assert f !in v[..n];
      }
    }
  }

  // ---------- encoding ----------

  // A data version filter is written piece by piece.
  datatype Piece = FilterStart | FilterPath(c: ClusterPath) | FilterVersion(v: nat) | FilterEnd

  // Bytes of a cluster path and of a version on the wire.
  datatype Widths = Widths(path: ClusterPath -> nat, version: nat -> nat)

  function Cost(w: Widths, f: Filter): nat {
    CONTAINER_START_BYTES + w.path(f.cluster) + w.version(f.version) + CONTAINER_END_BYTES
  }

  function Pieces(fs: seq<Filter>): seq<Piece> {
    if fs == [] then []
    else Pieces(fs[..|fs| - 1]) + [FilterStart, FilterPath(fs[|fs| - 1].cluster), FilterVersion(fs[|fs| - 1].version), FilterEnd]
  }

  function CostAll(w: Widths, fs: seq<Filter>): nat {
    if fs == [] then 0 else CostAll(w, fs[..|fs| - 1]) + Cost(w, fs[|fs| - 1])
  }

  // Each filter is written as four pieces, in order.
  lemma {:induction false} PiecesSpelled(fs: seq<Filter>, k: nat)
    requires k < |fs|
    ensures |Pieces(fs)| == 4 * |fs|
    ensures Pieces(fs)[4 * k..4 * k + 4] == [FilterStart, FilterPath(fs[k].cluster), FilterVersion(fs[k].version), FilterEnd]
  {
    var n := |fs| - 1;
    if k < n {
      PiecesSpelled(fs[..n], k);
      assert Pieces(fs)[4 * k..4 * k + 4] == Pieces(fs[..n])[4 * k..4 * k + 4];
    } else if n > 0 {
      PiecesSpelled(fs[..n], 0);
    }
  }

  predicate Touched(paths: seq<AttributePathParams>, f: Filter) {
    exists i :: 0 <= i < |paths| && paths[i].IncludesAttributesInCluster(f.cluster)
  }

  // The filters of v that some requested path touches, in order.
  function TouchedFilters(v: seq<(Filter, nat)>, paths: seq<AttributePathParams>): seq<Filter> {
    if v == [] then []
    else TouchedFilters(v[..|v| - 1], paths) + if Touched(paths, v[|v| - 1].0) then [v[|v| - 1].0] else []
  }

  lemma {:induction false} TouchedFiltersPrefix(v: seq<(Filter, nat)>, paths: seq<AttributePathParams>, i: nat)
    requires i <= |v|
    ensures |TouchedFilters(v[..i], paths)| <= |TouchedFilters(v, paths)|
    ensures TouchedFilters(v, paths)[..|TouchedFilters(v[..i], paths)|] == TouchedFilters(v[..i], paths)
    decreases |v|
  {
    if i < |v| {
      var n := |v| - 1;
      TouchedFiltersPrefix(v[..n], paths, i);
      assert v[..n][..i] == v[..i];
    } else {
      assert v[..i] == v;
    }
  }

  // The first k of fs fit into room, and k + 1 do not.
  ghost predicate LongestFit(w: Widths, fs: seq<Filter>, k: nat, room: nat) {
    k <= |fs| && CostAll(w, fs[..k]) <= room && (k < |fs| ==> CostAll(w, fs[..k + 1]) > room)
  }

  // The requested wildcard paths that no request for a specific attribute meets.
  function UnsharedWildcards(paths: seq<AttributePathParams>): set<AttributePathParams> {
    set i | 0 <= i < |paths| && paths[i].HasWildcardAttributeId() && !MeetsSpecific(paths, paths[i]) :: paths[i]
  }

  predicate MeetsSpecific(paths: seq<AttributePathParams>, p: AttributePathParams) {
    exists j :: 0 <= j < |paths| && !paths[j].HasWildcardAttributeId() && p.Intersects(paths[j])
  }

  // Computes a cluster's size by walking its attributes.
  method SizeOfCluster(s: ClusterState) returns (size: nat)
    ensures size == ClusterSize(s)
  {
    size := 0;
    var left := s.attributes;
    while left != map[]
      invariant left.Keys <= s.attributes.Keys && forall a :: a in left ==> left[a] == s.attributes[a]
      invariant size + Total(Sizes(left)) == Total(Sizes(s.attributes))
      decreases |left|
    {
      assert left.Keys != {};
      var a :| a in left;
      TotalAnyOrder(Sizes(left), a);
      assert Sizes(left) - {a} == Sizes(left - {a});
      size := size + StateSize(left[a]);
      left := left - {a};
    }
    assert Sizes(left) == map[];
  }

  method GetSortedFilters(cache: ClusterStateCache) returns (v: seq<(Filter, nat)>)
    ensures Descending(v) && NoRepeats(v)
    ensures forall f :: f in v <==> f in FilterSet(cache.clusters)
  {
    var collected: seq<(Filter, nat)> := [];
    var left := cache.clusters.Keys;
    while left != {}
      invariant left <= cache.clusters.Keys
      invariant NoRepeats(collected)
      invariant forall f :: f in collected <==> f in FilterSet(cache.clusters) && f.0.cluster !in left
      decreases left
    {
      var c :| c in left;
      left := left - {c};
      var s := cache.clusters[c];
      if s.committed.Some? {
        var size := SizeOfCluster(s);
        if size > 0 {
          var f := (Filter(c, s.committed.value), size);
          assert f !in collected;
          collected := collected + [f];
        }
      }
    }
    v := SortDescending(collected);
    NoRepeatsPermuted(collected, v);
  }

  method EncodeFilter(writer: Writer<Piece>, w: Widths, f: Filter) returns (err: ChipError)
    modifies writer
    ensures var b := old(writer.buf);
            if Cost(w, f) <= b.remaining
            then err == NoError && writer.buf == b.(tokens := b.tokens + [FilterStart, FilterPath(f.cluster), FilterVersion(f.version), FilterEnd],
                                                    remaining := b.remaining - Cost(w, f))
            else err == NoMemory
  {
    ghost var b := writer.buf;
    err := writer.Put(FilterStart, CONTAINER_START_BYTES);
    if err != NoError {
      return;
    }
    err := writer.Put(FilterPath(f.cluster), w.path(f.cluster));
    if err != NoError {
      return;
    }
    err := writer.Put(FilterVersion(f.version), w.version(f.version));
    if err != NoError {
      return;
    }
    err := writer.Put(FilterEnd, CONTAINER_END_BYTES);
    assert b.tokens + [FilterStart] + [FilterPath(f.cluster)] + [FilterVersion(f.version)] + [FilterEnd]
        == b.tokens + [FilterStart, FilterPath(f.cluster), FilterVersion(f.version), FilterEnd];
  }

  method TouchedByRequest(paths: seq<AttributePathParams>, f: Filter) returns (touched: bool)
    ensures touched == Touched(paths, f)
  {
    touched := false;
    for i := 0 to |paths|
      invariant !touched && forall j :: 0 <= j < i ==> !paths[j].IncludesAttributesInCluster(f.cluster)
    {
      if paths[i].IncludesAttributesInCluster(f.cluster) {
        return true;
      }
    }
  }

  method RegisterRequests(cache: ClusterStateCache, paths: seq<AttributePathParams>)
    modifies cache`requestPathSet
    ensures cache.requestPathSet == old(cache.requestPathSet) + UnsharedWildcards(paths)
  {
    var i := 0;
    while i < |paths|
      invariant 0 <= i <= |paths|
      invariant cache.requestPathSet == old(cache.requestPathSet)
                + set k | 0 <= k < i && paths[k].HasWildcardAttributeId() && !MeetsSpecific(paths, paths[k]) :: paths[k]
    {
      if paths[i].HasWildcardAttributeId() {
        var intersected := false;
        var j := 0;
        while j < |paths| && !intersected
          invariant 0 <= j <= |paths|
          invariant intersected ==> MeetsSpecific(paths, paths[i])
          invariant !intersected ==> forall k :: 0 <= k < j ==> paths[k].HasWildcardAttributeId() || !paths[i].Intersects(paths[k])
        {
          if !paths[j].HasWildcardAttributeId() && paths[i].Intersects(paths[j]) {
            intersected := true;
          }
          j := j + 1;
        }
        if !intersected {
          cache.requestPathSet := cache.requestPathSet + {paths[i]};
        }
      }
      i := i + 1;
    }
  }

  // `now` is `b` after exactly the filters fs were written.
  ghost predicate Written(w: Widths, fs: seq<Filter>, b: Buffer<Piece>, now: Buffer<Piece>) {
    && CostAll(w, fs) <= b.remaining
    && now == b.(tokens := b.tokens + Pieces(fs), remaining := b.remaining - CostAll(w, fs))
  }

  lemma WrittenNext(w: Widths, fs: seq<Filter>, f: Filter, b: Buffer<Piece>, now: Buffer<Piece>, next: Buffer<Piece>)
    requires Written(w, fs, b, now) && Cost(w, f) <= now.remaining
    requires next == now.(tokens := now.tokens + [FilterStart, FilterPath(f.cluster), FilterVersion(f.version), FilterEnd],
                          remaining := now.remaining - Cost(w, f))
    ensures Written(w, fs + [f], b, next)
  {
    assert (fs + [f])[..|fs|] == fs;
    assert b.tokens + Pieces(fs) + [FilterStart, FilterPath(f.cluster), FilterVersion(f.version), FilterEnd]
        == b.tokens + Pieces(fs + [f]);
  }

  lemma TouchedStep(v: seq<(Filter, nat)>, paths: seq<AttributePathParams>, i: nat)
    requires i < |v|
    ensures TouchedFilters(v[..i + 1], paths)
         == if Touched(paths, v[i].0) then TouchedFilters(v[..i], paths) + [v[i].0] else TouchedFilters(v[..i], paths)
  {
    assert v[..i + 1][..i] == v[..i];
  }

  // Some requested path names an attribute of the cluster.
  ghost predicate Wanted(paths: seq<AttributePathParams>, c: ClusterPath) {
    exists i, a: nat :: 0 <= i < |paths| && paths[i].IsSupersetOf(AttributePath(c.endpoint, c.cluster, a))
  }

  lemma TouchedMeansWanted(paths: seq<AttributePathParams>, f: Filter)
    ensures Touched(paths, f) <==> Wanted(paths, f.cluster)
  {
    var c := f.cluster;
    if i :| 0 <= i < |paths| && paths[i].IncludesAttributesInCluster(c) {
      IncludesMeansCovers(paths[i], c);
      var a: nat :| paths[i].IsSupersetOf(AttributePath(c.endpoint, c.cluster, a));
    }
    if i, a: nat :| 0 <= i < |paths| && paths[i].IsSupersetOf(AttributePath(c.endpoint, c.cluster, a)) {
      IncludesMeansCovers(paths[i], c);
    }
  }

  // `chosen` are the touched ones of the first n filters, in order, and fs is what they are.
  predicate Picks(v: seq<(Filter, nat)>, paths: seq<AttributePathParams>, n: nat, fs: seq<Filter>, chosen: seq<nat>) {
    && n <= |v| && |fs| == |chosen|
    && (forall k :: 0 <= k < |chosen| ==> chosen[k] < n && fs[k] == v[chosen[k]].0)
    && (forall j, k :: 0 <= j < k < |chosen| ==> chosen[j] < chosen[k])
    && (forall i: nat :: i < n ==> (i in chosen <==> Touched(paths, v[i].0)))
  }

  lemma PicksNext(v: seq<(Filter, nat)>, paths: seq<AttributePathParams>, n: nat, fs: seq<Filter>, chosen: seq<nat>)
    requires n < |v| && Picks(v, paths, n, fs, chosen) && Touched(paths, v[n].0)
    ensures Picks(v, paths, n + 1, fs + [v[n].0], chosen + [n])
  {
    var next := chosen + [n];
    assert next[|chosen|] == n;
    forall i: nat
      ensures i in next <==> i in chosen || i == n
    {
    }
  }

  lemma PicksNotNext(v: seq<(Filter, nat)>, paths: seq<AttributePathParams>, n: nat, fs: seq<Filter>, chosen: seq<nat>)
    requires n < |v| && Picks(v, paths, n, fs, chosen) && !Touched(paths, v[n].0)
    ensures Picks(v, paths, n + 1, fs, chosen)
  {
    assert n !in chosen;
  }

  lemma OneChosen(v: seq<(Filter, nat)>, paths: seq<AttributePathParams>, n: nat, fs: seq<Filter>, chosen: seq<nat>) returns (next: seq<nat>)
    requires n < |v| && Picks(v, paths, n, fs, chosen)
    ensures Picks(v, paths, n + 1, if Touched(paths, v[n].0) then fs + [v[n].0] else fs, next)
  {
    if Touched(paths, v[n].0) {
      PicksNext(v, paths, n, fs, chosen);
      return chosen + [n];
    }
    PicksNotNext(v, paths, n, fs, chosen);
    next := chosen;
  }

  // The touched filters are exactly those of wanted clusters, in order.
  lemma TouchedExactly(v: seq<(Filter, nat)>, paths: seq<AttributePathParams>) returns (chosen: seq<nat>)
    ensures var fs := TouchedFilters(v, paths);
            && |fs| == |chosen| && (forall k :: 0 <= k < |chosen| ==> chosen[k] < |v| && fs[k] == v[chosen[k]].0)
            && (forall j, k :: 0 <= j < k < |chosen| ==> chosen[j] < chosen[k])
            && (forall i: nat :: i < |v| ==> (i in chosen <==> Wanted(paths, v[i].0.cluster)))
  {
    chosen := [];
    var n := 0;
    while n < |v|
      invariant 0 <= n <= |v| && Picks(v, paths, n, TouchedFilters(v[..n], paths), chosen)
    {
      TouchedStep(v, paths, n);
      chosen := OneChosen(v, paths, n, TouchedFilters(v[..n], paths), chosen);
      n := n + 1;
    }
    assert v[..n] == v;
    forall i: nat | i < |v|
      ensures Touched(paths, v[i].0) <==> Wanted(paths, v[i].0.cluster)
    {
      TouchedMeansWanted(paths, v[i].0);
    }
  }

  lemma StopsAt(w: Widths, v: seq<(Filter, nat)>, paths: seq<AttributePathParams>, i: nat, b: Buffer<Piece>, now: Buffer<Piece>)
    requires i < |v| && Touched(paths, v[i].0)
    requires Written(w, TouchedFilters(v[..i], paths), b, now) && Cost(w, v[i].0) > now.remaining
    ensures var fs := TouchedFilters(v, paths);
            var k := |TouchedFilters(v[..i], paths)|;
            k <= |fs| && fs[..k] == TouchedFilters(v[..i], paths) && LongestFit(w, fs, k, b.remaining)
  {
    TouchedStep(v, paths, i);
    TouchedFiltersPrefix(v, paths, i + 1);
    StopsAfter(w, TouchedFilters(v, paths), TouchedFilters(v[..i], paths), v[i].0, b.remaining);
  }

  lemma StopsAfter(w: Widths, fs: seq<Filter>, before: seq<Filter>, f: Filter, room: nat)
    requires |before| < |fs| && fs[..|before| + 1] == before + [f]
    requires CostAll(w, before) <= room && Cost(w, f) > room - CostAll(w, before)
    ensures fs[..|before|] == before && LongestFit(w, fs, |before|, room)
  {
    assert fs[..|before|] == fs[..|before| + 1][..|before|] == before;
    assert (before + [f])[..|before|] == before;
  }

  // Registers the wildcard requests and writes the filters of the touched clusters, largest first,
  // until one does not fit.
  method OnUpdateDataVersionFilterList(cache: ClusterStateCache, writer: Writer<Piece>, w: Widths, paths: seq<AttributePathParams>)
    returns (encoded: bool, ghost sorted: seq<(Filter, nat)>, ghost k: nat)
    requires cache as object != writer
    modifies cache`requestPathSet, writer
    ensures cache.requestPathSet == old(cache.requestPathSet) + UnsharedWildcards(paths)
    ensures forall i, j :: 0 <= i < j < |sorted| ==> sorted[i] != sorted[j] && sorted[i].1 >= sorted[j].1
    ensures forall f :: f in sorted <==> f in FilterSet(cache.clusters)
    ensures var fs := TouchedFilters(sorted, paths);
            && k <= |fs| && CostAll(w, fs[..k]) <= old(writer.buf.remaining)
            && (k < |fs| ==> CostAll(w, fs[..k + 1]) > old(writer.buf.remaining))
            && writer.buf.tokens == old(writer.buf.tokens) + Pieces(fs[..k])
            && writer.buf.torn == old(writer.buf.torn)
            && writer.buf.remaining == old(writer.buf.remaining) - CostAll(w, fs[..k])
            && encoded == (k > 0)
  {
    RegisterRequests(cache, paths);
    var v := GetSortedFilters(cache);
    sorted := v;
    encoded, k := WriteFilters(writer, w, v, paths);
  }

  // The loop over the sorted filters.
  method WriteFilters(writer: Writer<Piece>, w: Widths, v: seq<(Filter, nat)>, paths: seq<AttributePathParams>) returns (encoded: bool, ghost k: nat)
    modifies writer
    ensures var fs := TouchedFilters(v, paths);
            LongestFit(w, fs, k, old(writer.buf.remaining)) && Written(w, fs[..k], old(writer.buf), writer.buf) && encoded == (k > 0)
  {
    encoded, k := false, 0;
    ghost var b := writer.buf;
    var i := 0;
    while i < |v|
      invariant 0 <= i <= |v|
      invariant k == |TouchedFilters(v[..i], paths)|
      invariant Written(w, TouchedFilters(v[..i], paths), b, writer.buf)
      invariant encoded == (k > 0)
    {
      TouchedStep(v, paths, i);
      var touched := TouchedByRequest(paths, v[i].0);
      if touched {
        var err := EncodeOrRollBack(writer, w, v, paths, i, b);
        if err != NoError {
          return;
        }
        k := k + 1;
        encoded := true;
      }
      i := i + 1;
    }
    AllWritten(w, v, paths, i, b, writer.buf);
  }

  lemma AllWritten(w: Widths, v: seq<(Filter, nat)>, paths: seq<AttributePathParams>, n: nat, b: Buffer<Piece>, now: Buffer<Piece>)
    requires n == |v| && Written(w, TouchedFilters(v[..n], paths), b, now)
    ensures var fs, k := TouchedFilters(v, paths), |TouchedFilters(v[..n], paths)|;
            LongestFit(w, fs, k, b.remaining) && Written(w, fs[..k], b, now)
  {
    assert v[..n] == v;
    assert TouchedFilters(v, paths)[..|TouchedFilters(v, paths)|] == TouchedFilters(v, paths);
  }

  // One filter, or nothing of it.
  method EncodeOrRollBack(writer: Writer<Piece>, w: Widths, v: seq<(Filter, nat)>, ghost paths: seq<AttributePathParams>, i: nat, ghost b: Buffer<Piece>)
    returns (err: ChipError)
    requires i < |v| && Touched(paths, v[i].0) && Written(w, TouchedFilters(v[..i], paths), b, writer.buf)
    modifies writer
    ensures err == NoError ==> Written(w, TouchedFilters(v[..i], paths) + [v[i].0], b, writer.buf)
    ensures err != NoError ==>
              && writer.buf == old(writer.buf)
              && var fs, k := TouchedFilters(v, paths), |TouchedFilters(v[..i], paths)|;
                 k <= |fs| && fs[..k] == TouchedFilters(v[..i], paths) && LongestFit(w, fs, k, b.remaining)
  {
    var backup := writer.Checkpoint();
    err := EncodeFilter(writer, w, v[i].0);
    if err != NoError {
      writer.Rollback(backup);
      StopsAt(w, v, paths, i, b, backup);
      return;
    }
    WrittenNext(w, TouchedFilters(v[..i], paths), v[i].0, b, backup, writer.buf);
  }

  // A registered path meets no request for a specific attribute.
  lemma UnsharedMeetsNone(paths: seq<AttributePathParams>, p: AttributePathParams, q: AttributePathParams)
    requires p in UnsharedWildcards(paths) && q in paths && !q.HasWildcardAttributeId()
    ensures p.HasWildcardAttributeId() && !p.Intersects(q)
  {
    assert exists j :: 0 <= j < |paths| && paths[j] == q;
  }

  // Registered are exactly the requests for all attributes that share no path with a request for a
  // specific one.
  lemma UnsharedExactly(paths: seq<AttributePathParams>, p: AttributePathParams)
    ensures p in UnsharedWildcards(paths) <==>
              && p in paths && p.attribute == 0xFFFF_FFFF
              && forall q, x :: q in paths && q.attribute != 0xFFFF_FFFF ==> !(p.IsSupersetOf(x) && q.IsSupersetOf(x))
  {
    forall q: AttributePathParams
      ensures p.Intersects(q) <==> exists x :: p.IsSupersetOf(x) && q.IsSupersetOf(x)
    {
      IntersectsMeansShared(p, q);
    }
    assert p in paths <==> exists i :: 0 <= i < |paths| && paths[i] == p;
    assert MeetsSpecific(paths, p) <==> exists q :: q in paths && !q.HasWildcardAttributeId() && p.Intersects(q);
  }
}
