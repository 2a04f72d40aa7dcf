// ClusterStateCache: what is cached for each cluster, and the protocol by which a cluster's data
// version is pending while its data arrives and committed once all of it has.

module ClusterCache {
  import opened Core
  import opened Tlv
  import opened PathParams

  // What is kept of one attribute: its data, the status it was answered with, or, when data is not
  // cached, only the size either would have.
  datatype AttributeState = AttributeData(e: Elem) | AttributeStatus(s: StatusIB) | AttributeSize(bytes: nat)

  datatype ClusterState = ClusterState(attributes: map<nat, AttributeState>, pending: Option<nat>, committed: Option<nat>)

  const NO_CLUSTER_STATE := ClusterState(map[], None, None)
  const NO_CLUSTER := ClusterPath(INVALID_ENDPOINT_ID, INVALID_CLUSTER_ID)

  // Bytes of a StatusIB on the wire.
  function SizeOfStatusIB(s: StatusIB): nat {
    5 + if s.clusterStatus.Some? then 3 else 0
  }

  function StateSize(a: AttributeState): nat {
    match a
    case AttributeData(e) => Size(e)
    case AttributeStatus(s) => SizeOfStatusIB(s)
    case AttributeSize(n) => n
  }

  // One OnAttributeData call: data with its version, or a status.
  datatype Item = DataItem(path: AttributePath, version: Option<nat>, e: Elem) | StatusItem(path: AttributePath, s: StatusIB)

  function Kept(item: Item, cacheData: bool): AttributeState {
    match item
    case DataItem(_, _, e) => if cacheData then AttributeData(e) else AttributeSize(Size(e))
    case StatusItem(_, s) => if cacheData then AttributeStatus(s) else AttributeSize(SizeOfStatusIB(s))
  }

  datatype State = State(clusters: map<ClusterPath, ClusterState>, last: ClusterPath, requests: set<AttributePathParams>) {
    // What operator[] of the cache finds or creates.
    function Entry(c: ClusterPath): ClusterState {
      if c in clusters then clusters[c] else NO_CLUSTER_STATE
    }

    function Put(c: ClusterPath, s: ClusterState): State {
      this.(clusters := clusters[c := s])
    }

    // Some requested wildcard path covers the whole cluster.
    predicate Covered(c: ClusterPath) {
      CoveredBy(requests, c)
    }
  }

  predicate CoveredBy(requests: set<AttributePathParams>, c: ClusterPath) {
    exists p :: p in requests && p.IncludesAllAttributesInCluster(c)
  }

  function Commit(st: State): State {
    if !st.last.IsValid() then st
    else
      var e := st.Entry(st.last);
      st.Put(st.last, if e.pending.Some? then e.(committed := e.pending, pending := None) else e)
  }

  // The state after c's committed version was cleared and the previous cluster, if another, was
  // committed.
  function Settled(st: State, c: ClusterPath): State {
    var cleared := st.Put(c, st.Entry(c).(committed := None));
    if st.last.IsValid() && st.last != c then Commit(cleared) else cleared
  }

  // The effect of data for a cluster on the versions.
  function Arrive(st: State, c: ClusterPath, version: Option<nat>): State {
    var settled := Settled(st, c);
    var stamped := if settled.Covered(c) then settled.Put(c, settled.Entry(c).(pending := version)) else settled;
    stamped.(last := c)
  }

  function Update(st: State, item: Item, cacheData: bool): State {
    var c := item.path.Cluster();
    var arrived := if item.DataItem? then Arrive(st, c, item.version) else st;
    var e := arrived.Entry(c);
    arrived.Put(c, e.(attributes := e.attributes[item.path.attribute := Kept(item, cacheData)]))
  }

  function Begin(st: State): State {
    st.(last := NO_CLUSTER)
  }

  function End(st: State): State {
    Commit(st).(last := NO_CLUSTER)
  }

  // What the owner is told when a report ends.
  datatype Changes = Changes(attributes: set<AttributePath>, clusters: set<ClusterPath>, endpoints: seq<nat>)

  class ClusterStateCache {
    const cacheData: bool
    var clusters: map<ClusterPath, ClusterState>
    var lastReportDataPath: ClusterPath
    var requestPathSet: set<AttributePathParams>
    var changedAttributeSet: set<AttributePath>
    var addedEndpoints: seq<nat>
    var changes: seq<Changes>

    constructor (cacheData: bool)
      ensures this.cacheData == cacheData
      ensures GetState() == State(map[], NO_CLUSTER, {})
      ensures changedAttributeSet == {} && addedEndpoints == [] && changes == []
    {
      this.cacheData := cacheData;
      clusters := map[];
      lastReportDataPath := NO_CLUSTER;
      requestPathSet := {};
      changedAttributeSet := {};
      addedEndpoints := [];
      changes := [];
    }

    function GetState(): State
      reads this
    {
      State(clusters, lastReportDataPath, requestPathSet)
    }

    method OnReportBegin()
      modifies this
      ensures GetState() == Begin(old(GetState()))
      ensures changedAttributeSet == {} && addedEndpoints == [] && changes == old(changes)
    {
      lastReportDataPath := NO_CLUSTER;
      changedAttributeSet := {};
      addedEndpoints := [];
    }

    method CommitPendingDataVersion()
      modifies this`clusters
      ensures GetState() == Commit(old(GetState()))
    {
      if !lastReportDataPath.IsValid() {
        return;
      }
      var last := GetState().Entry(lastReportDataPath);
      clusters := clusters[lastReportDataPath := last];
      if last.pending.Some? {
        clusters := clusters[lastReportDataPath := last.(committed := last.pending, pending := None)];
      }
    }

    method FindsEncompassingWildcardPath(c: ClusterPath) returns (found: bool)
      ensures found == GetState().Covered(c)
    {
      var left := requestPathSet;
      found := false;
      while left != {}
        invariant left <= requestPathSet && !found
        invariant forall p :: p in requestPathSet && p !in left ==> !p.IncludesAllAttributesInCluster(c)
        decreases left
      {
        var p :| p in left;
        if p.IncludesAllAttributesInCluster(c) {
          found := true;
          break;
        }
        left := left - {p};
      }
    }

    method UpdateCache(item: Item)
      modifies this`clusters, this`lastReportDataPath, this`changedAttributeSet, this`addedEndpoints
      ensures GetState() == Update(old(GetState()), item, cacheData)
      ensures changedAttributeSet == old(changedAttributeSet) + if cacheData then {item.path} else {}
      ensures addedEndpoints == old(addedEndpoints) +
                if exists c :: c in old(clusters) && c.endpoint == item.path.endpoint then [] else [item.path.endpoint]
    {
      var c := item.path.Cluster();
      var endpointIsNew := !(exists k :: k in clusters && k.endpoint == item.path.endpoint);
      var state := Kept(item, cacheData);
      if item.DataItem? {
        clusters := clusters[c := GetState().Entry(c).(committed := None)];
        if lastReportDataPath.IsValid() && lastReportDataPath != c {
          CommitPendingDataVersion();
        }
        var found := FindsEncompassingWildcardPath(c);
        if found {
          clusters := clusters[c := GetState().Entry(c).(pending := item.version)];
        }
        lastReportDataPath := c;
      }
      if endpointIsNew {
        addedEndpoints := addedEndpoints + [item.path.endpoint];
      }
      var e := GetState().Entry(c);
      clusters := clusters[c := e.(attributes := e.attributes[item.path.attribute := state])];
      if cacheData {
        changedAttributeSet := changedAttributeSet + {item.path};
      }
    }

    method OnReportEnd()
      modifies this
      ensures GetState() == End(old(GetState()))
      ensures changes == old(changes) + [Changes(old(changedAttributeSet), set p | p in old(changedAttributeSet) :: p.Cluster(), old(addedEndpoints))]
    {
      CommitPendingDataVersion();
      lastReportDataPath := NO_CLUSTER;
      changes := changes + [Changes(changedAttributeSet, set p | p in changedAttributeSet :: p.Cluster(), addedEndpoints)];
    }

    method GetVersion(c: ClusterPath) returns (err: ChipError, version: Option<nat>)
      ensures if !c.IsValid() then err == InvalidArgument
              else if c !in clusters then err == OtherError(0)
              else err == NoError && version == clusters[c].committed
    {
      version := None;
      if !c.IsValid() {
        return InvalidArgument, None;
      }
      if c !in clusters {
        return OtherError(0), None;
      }
      return NoError, clusters[c].committed;
    }
  }

  // ---------- runs ----------

  // One report: the request paths registered before it, its items, and whether it came to its end
  // or was given up.
  datatype Report = Report(newRequests: set<AttributePathParams>, items: seq<Item>, ended: bool)

  function UpdateAll(st: State, items: seq<Item>, cacheData: bool): State {
    if items == [] then st else Update(UpdateAll(st, items[..|items| - 1], cacheData), items[|items| - 1], cacheData)
  }

  // The state after the items of a report.
  function Inside(st: State, r: Report, cacheData: bool): State {
    UpdateAll(Begin(st.(requests := st.requests + r.newRequests)), r.items, cacheData)
  }

  function Run(st: State, reports: seq<Report>, cacheData: bool): State {
    if reports == [] then st
    else
      var n := |reports| - 1;
      var st' := Inside(Run(st, reports[..n], cacheData), reports[n], cacheData);
      if reports[n].ended then End(st') else st'
  }

  const INITIAL := State(map[], NO_CLUSTER, {})

  // The request paths registered up to the last of the reports.
  function Requests(reports: seq<Report>): set<AttributePathParams> {
    if reports == [] then {} else Requests(reports[..|reports| - 1]) + reports[|reports| - 1].newRequests
  }

  // The version on the last data item received for each cluster.
  function Stamped(stamps: map<ClusterPath, Option<nat>>, items: seq<Item>): map<ClusterPath, Option<nat>> {
    if items == [] then stamps
    else
      var before := Stamped(stamps, items[..|items| - 1]);
      var item := items[|items| - 1];
      if item.DataItem? then before[item.path.Cluster() := item.version] else before
  }

  function Stamps(reports: seq<Report>): map<ClusterPath, Option<nat>> {
    if reports == [] then map[] else Stamped(Stamps(reports[..|reports| - 1]), reports[|reports| - 1].items)
  }

  // ---------- the versions of a cluster, told from the reports alone ----------

  predicate IsDataFor(item: Item, c: ClusterPath) {
    item.DataItem? && item.path.Cluster() == c
  }

  // The last item that brings data for the cluster.
  function LastFor(items: seq<Item>, c: ClusterPath): (i: Option<nat>)
    ensures i.Some? ==> i.value < |items| && IsDataFor(items[i.value], c)
    ensures forall j :: (if i.Some? then i.value + 1 else 0) <= j < |items| ==> !IsDataFor(items[j], c)
  {
    if items == [] then None
    else if IsDataFor(items[|items| - 1], c) then Some(|items| - 1)
    else LastFor(items[..|items| - 1], c)
  }

  // The last item that brings data.
  function LastData(items: seq<Item>): (i: Option<nat>)
    ensures i.Some? ==> i.value < |items| && items[i.value].DataItem?
    ensures forall j :: (if i.Some? then i.value + 1 else 0) <= j < |items| ==> !items[j].DataItem?
  {
    if items == [] then None
    else if items[|items| - 1].DataItem? then Some(|items| - 1)
    else LastData(items[..|items| - 1])
  }

  datatype Versions = Versions(pending: Option<nat>, committed: Option<nat>)

  function VersionsOf(s: ClusterState): Versions {
    Versions(s.pending, s.committed)
  }

  // A report that brings data for a cluster decides its version anew. If a wildcard path covers the
  // cluster, the last version received is committed once data for another cluster or the end of
  // the report follows, and pending otherwise; under an invalid path it stays pending.
  function AfterReport(before: Versions, requests: set<AttributePathParams>, items: seq<Item>, ended: bool, c: ClusterPath): Versions {
    var i := LastFor(items, c);
    if i.None? then before
    else if !CoveredBy(requests, c) then Versions(None, None)
    else if c.IsValid() && (ended || LastData(items) != i) then Versions(None, items[i.value].version)
    else Versions(items[i.value].version, None)
  }

  function History(reports: seq<Report>, c: ClusterPath): Versions {
    if reports == [] then Versions(None, None)
    else
      var n := |reports| - 1;
      AfterReport(History(reports[..n], c), Requests(reports), reports[n].items, reports[n].ended, c)
  }

  // What data for cluster k does to the versions of cluster c.
  lemma ArriveVersions(st: State, k: ClusterPath, version: Option<nat>, c: ClusterPath)
    ensures var st' := Arrive(st, k, version);
            var before := VersionsOf(st.Entry(c));
            && st'.last == k && st'.requests == st.requests
            && VersionsOf(st'.Entry(c)) ==
                 if c == k then Versions(if st.Covered(k) then version else before.pending, None)
                 else if c == st.last && c.IsValid() && before.pending.Some? then Versions(None, before.pending)
                 else before
  {
    var settled := Settled(st, k);
    assert settled.requests == st.requests;
  }

  lemma UpdateVersions(st: State, item: Item, cacheData: bool, c: ClusterPath)
    ensures var k := item.path.Cluster();
            var arrived := if item.DataItem? then Arrive(st, k, item.version) else st;
            var st' := Update(st, item, cacheData);
            st'.last == arrived.last && st'.requests == arrived.requests && VersionsOf(st'.Entry(c)) == VersionsOf(arrived.Entry(c))
  {
  }

  lemma {:induction false} InsideVersions(st: State, items: seq<Item>, cacheData: bool, c: ClusterPath)
    requires st.last == NO_CLUSTER && (!st.Covered(c) ==> st.Entry(c).pending.None?)
    ensures var st' := UpdateAll(st, items, cacheData);
            var m := LastData(items);
            && st'.requests == st.requests
            && st'.last == (if m.Some? then items[m.value].path.Cluster() else NO_CLUSTER)
            && VersionsOf(st'.Entry(c)) == AfterReport(VersionsOf(st.Entry(c)), st.requests, items, false, c)
  {
    if items != [] {
      var n := |items| - 1;
      InsideVersions(st, items[..n], cacheData, c);
      var st' := UpdateAll(st, items[..n], cacheData);
      UpdateVersions(st', items[n], cacheData, c);
      if items[n].DataItem? {
        ArriveVersions(st', items[n].path.Cluster(), items[n].version, c);
      }
    }
  }

  lemma EndVersions(st: State, c: ClusterPath)
    ensures var before := VersionsOf(st.Entry(c));
            VersionsOf(End(st).Entry(c)) ==
              if c == st.last && c.IsValid() && before.pending.Some? then Versions(None, before.pending) else before
    ensures End(st).requests == st.requests && End(st).last == NO_CLUSTER
  {
  }

  lemma MoreCovered(requests: set<AttributePathParams>, more: set<AttributePathParams>, c: ClusterPath)
    requires CoveredBy(requests, c)
    ensures CoveredBy(requests + more, c)
  {
    var p :| p in requests && p.IncludesAllAttributesInCluster(c);
    assert p in requests + more;
  }

  lemma {:induction false} HistoryCovered(reports: seq<Report>, c: ClusterPath)
    requires History(reports, c) != Versions(None, None)
    ensures CoveredBy(Requests(reports), c)
  {
    if reports != [] {
      var n := |reports| - 1;
      if LastFor(reports[n].items, c).None? {
        HistoryCovered(reports[..n], c);
        MoreCovered(Requests(reports[..n]), reports[n].newRequests, c);
      }
    }
  }

  // After any run the versions of each cluster are what its reports say, and so are those in the
  // middle of a report, which is then the last one and has not ended.
  lemma {:induction false} RunVersions(reports: seq<Report>, cacheData: bool, c: ClusterPath)
    ensures var st := Run(INITIAL, reports, cacheData);
            st.requests == Requests(reports) && VersionsOf(st.Entry(c)) == History(reports, c)
  {
    if reports != [] {
      var n := |reports| - 1;
      RunVersions(reports[..n], cacheData, c);
      var st, r := Run(INITIAL, reports[..n], cacheData), reports[n];
      var begun := Begin(st.(requests := st.requests + r.newRequests));
      if st.Entry(c).pending.Some? {
        HistoryCovered(reports[..n], c);
        MoreCovered(st.requests, r.newRequests, c);
      }
      InsideVersions(begun, r.items, cacheData, c);
      EndVersions(Inside(st, r, cacheData), c);
    }
  }

  // ---------- a committed version is current ----------

  // The cluster still arriving has no committed version. A committed version is that of the last
  // data item of its cluster, under a valid path that some wildcard path covers; and so is a pending
  // one, except for the validity.
  ghost predicate Safe(st: State, stamps: map<ClusterPath, Option<nat>>) {
    && st.Entry(st.last).committed.None?
    && (forall c :: st.Entry(c).committed.Some? ==>
          c.IsValid() && c in stamps && st.Entry(c).committed == stamps[c] && st.Covered(c))
    && (forall c :: st.Entry(c).pending.Some? ==> c in stamps && st.Entry(c).pending == stamps[c] && st.Covered(c))
  }

  lemma {:induction false} StampedLast(stamps: map<ClusterPath, Option<nat>>, items: seq<Item>, c: ClusterPath)
    ensures var i, after := LastFor(items, c), Stamped(stamps, items);
            if i.Some? then c in after && after[c] == items[i.value].version
            else (c in after <==> c in stamps) && (c in stamps ==> after[c] == stamps[c])
  {
    if items != [] {
      StampedLast(stamps, items[..|items| - 1], c);
    }
  }

  lemma {:induction false} HistoryCurrent(reports: seq<Report>, c: ClusterPath)
    ensures var v := History(reports, c);
            && (v.committed.Some? ==> c.IsValid() && c in Stamps(reports) && v.committed == Stamps(reports)[c])
            && (v.pending.Some? ==> c in Stamps(reports) && v.pending == Stamps(reports)[c])
  {
    if reports != [] {
      var n := |reports| - 1;
      HistoryCurrent(reports[..n], c);
      StampedLast(Stamps(reports[..n]), reports[n].items, c);
    }
  }

  lemma {:induction false} ArrivingUncommitted(reports: seq<Report>, cacheData: bool)
    ensures var st := Run(INITIAL, reports, cacheData);
            History(reports, st.last).committed.None?
  {
    if reports == [] {
      return;
    }
    var n := |reports| - 1;
    var st, r := Run(INITIAL, reports[..n], cacheData), reports[n];
    var last := Run(INITIAL, reports, cacheData).last;
    HistoryCurrent(reports, last);
    if !r.ended {
      RunVersions(reports[..n], cacheData, last);
      InsideLast(Begin(st.(requests := st.requests + r.newRequests)), r.items, cacheData);
    }
  }

  lemma {:induction false} InsideLast(st: State, items: seq<Item>, cacheData: bool)
    ensures UpdateAll(st, items, cacheData).last == var m := LastData(items); if m.Some? then items[m.value].path.Cluster() else st.last
  {
    if items != [] {
      InsideLast(st, items[..|items| - 1], cacheData);
      UpdateVersions(UpdateAll(st, items[..|items| - 1], cacheData), items[|items| - 1], cacheData, NO_CLUSTER);
    }
  }

  // Every run is safe: whatever its reports bring, and wherever they are given up.
  lemma RunSafe(reports: seq<Report>, cacheData: bool)
    ensures Safe(Run(INITIAL, reports, cacheData), Stamps(reports))
  {
    var st := Run(INITIAL, reports, cacheData);
    ArrivingUncommitted(reports, cacheData);
    RunVersions(reports, cacheData, st.last);
    forall c
      ensures VersionsOf(st.Entry(c)) == History(reports, c) && (History(reports, c) != Versions(None, None) ==> st.Covered(c))
    {
      RunVersions(reports, cacheData, c);
      if History(reports, c) != Versions(None, None) {
        HistoryCovered(reports, c);
      }
    }
    forall c
      ensures var v := History(reports, c);
              && (v.committed.Some? ==> c.IsValid() && c in Stamps(reports) && v.committed == Stamps(reports)[c])
              && (v.pending.Some? ==> c in Stamps(reports) && v.pending == Stamps(reports)[c])
    {
      HistoryCurrent(reports, c);
    }
  }

  // ---------- what stays pending ----------

  ghost predicate Quiet(st: State) {
    forall c :: st.Entry(c).pending.None?
  }

  // Item i of a report strands its version: a wildcard path covers its cluster, no more data for
  // the cluster follows, and either its path is invalid or the report is given up at that cluster.
  predicate Strands(requests: set<AttributePathParams>, r: Report, i: nat)
    requires i < |r.items|
  {
    var item := r.items[i];
    var c := item.path.Cluster();
    && item.DataItem? && item.version.Some? && CoveredBy(requests, c)
    && LastFor(r.items, c) == Some(i)
    && (!c.IsValid() || (!r.ended && LastData(r.items) == Some(i)))
  }

  predicate StrandsFor(requests: set<AttributePathParams>, r: Report, c: ClusterPath) {
    var i := LastFor(r.items, c);
    i.Some? && Strands(requests, r, i.value)
  }

  predicate StrandsNothing(requests: set<AttributePathParams>, r: Report) {
    forall i :: 0 <= i < |r.items| ==> !Strands(requests, r, i)
  }

  ghost predicate QuietAfter(reports: seq<Report>) {
    forall c :: History(reports, c).pending.None?
  }

  lemma QuietHistory(reports: seq<Report>, cacheData: bool)
    ensures Quiet(Run(INITIAL, reports, cacheData)) <==> QuietAfter(reports)
  {
    var st := Run(INITIAL, reports, cacheData);
    forall c
      ensures st.Entry(c).pending.None? <==> History(reports, c).pending.None?
    {
      RunVersions(reports, cacheData, c);
    }
    if c :| History(reports, c).pending.Some? {
      assert st.Entry(c).pending.Some?;
    }
  }

  lemma StrandsExactly(reports: seq<Report>, c: ClusterPath)
    requires reports != [] && History(reports[..|reports| - 1], c).pending.None?
    ensures History(reports, c).pending.Some? <==> StrandsFor(Requests(reports), reports[|reports| - 1], c)
  {
  }

  lemma StrandsSome(requests: set<AttributePathParams>, r: Report)
    ensures StrandsNothing(requests, r) <==> forall c :: !StrandsFor(requests, r, c)
  {
    if i :| 0 <= i < |r.items| && Strands(requests, r, i) {
      assert StrandsFor(requests, r, r.items[i].path.Cluster());
    }
  }

  // From quiet to quiet, exactly if the report strands nothing.
  lemma QuietStep(reports: seq<Report>, cacheData: bool)
    requires reports != [] && Quiet(Run(INITIAL, reports[..|reports| - 1], cacheData))
    ensures Quiet(Run(INITIAL, reports, cacheData)) <==> StrandsNothing(Requests(reports), reports[|reports| - 1])
  {
    var requests, r := Requests(reports), reports[|reports| - 1];
    QuietHistory(reports[..|reports| - 1], cacheData);
    QuietHistory(reports, cacheData);
    StrandsSome(requests, r);
    forall c
      ensures History(reports, c).pending.Some? <==> StrandsFor(requests, r, c)
    {
      StrandsExactly(reports, c);
    }
    if c :| StrandsFor(requests, r, c) {
      assert History(reports, c).pending.Some?;
    }
  }

  lemma {:induction false} QuietUpTo(reports: seq<Report>, n: nat, cacheData: bool)
    requires n <= |reports| && forall k :: 0 <= k < n ==> StrandsNothing(Requests(reports[..k + 1]), reports[k])
    ensures Quiet(Run(INITIAL, reports[..n], cacheData))
  {
    if n > 0 {
      QuietUpTo(reports, n - 1, cacheData);
      assert reports[..n][..n - 1] == reports[..n - 1];
      assert StrandsNothing(Requests(reports[..n]), reports[n - 1]);
      assert reports[..n][..n] == reports[..n];
      QuietStep(reports[..n], cacheData);
    }
  }

  // Nothing is pending between the reports of a run exactly if no report strands a version.
  lemma QuietExactly(reports: seq<Report>, cacheData: bool)
    ensures (forall n :: 0 <= n <= |reports| ==> Quiet(Run(INITIAL, reports[..n], cacheData)))
       <==> (forall n :: 0 <= n < |reports| ==> StrandsNothing(Requests(reports[..n + 1]), reports[n]))
  {
    if forall n :: 0 <= n <= |reports| ==> Quiet(Run(INITIAL, reports[..n], cacheData)) {
      forall n | 0 <= n < |reports|
        ensures StrandsNothing(Requests(reports[..n + 1]), reports[n])
      {
        assert reports[..n + 1][..n] == reports[..n] && reports[..n + 1][..n + 1] == reports[..n + 1];
        assert Quiet(Run(INITIAL, reports[..n + 1], cacheData));
        QuietStep(reports[..n + 1], cacheData);
      }
    }
    if forall n :: 0 <= n < |reports| ==> StrandsNothing(Requests(reports[..n + 1]), reports[n]) {
      forall n | 0 <= n <= |reports|
        ensures Quiet(Run(INITIAL, reports[..n], cacheData))
      {
        QuietUpTo(reports, n, cacheData);
      }
    }
  }

  // Data with a version for a cluster that some wildcard path covers, under an invalid cluster path.
  predicate Harmful(requests: set<AttributePathParams>, item: Item) {
    item.DataItem? && item.version.Some? && CoveredBy(requests, item.path.Cluster()) && !item.path.Cluster().IsValid()
  }

  predicate Harmless(requests: set<AttributePathParams>, items: seq<Item>) {
    forall i :: 0 <= i < |items| ==> !Harmful(requests, items[i])
  }

  predicate HarmlessRun(reports: seq<Report>) {
    forall n :: 0 <= n < |reports| ==> Harmless(Requests(reports[..n + 1]), reports[n].items)
  }

  // A complete report as the read client delivers it: all data carries a version.
  predicate Delivered(r: Report) {
    r.ended && forall i :: 0 <= i < |r.items| && r.items[i].DataItem? ==> r.items[i].version.Some?
  }

  lemma HarmlessMeansStrandsNothing(requests: set<AttributePathParams>, r: Report)
    requires Delivered(r)
    ensures StrandsNothing(requests, r) <==> Harmless(requests, r.items)
  {
    forall i | 0 <= i < |r.items| && Harmful(requests, r.items[i])
      ensures !StrandsNothing(requests, r)
    {
      var c := r.items[i].path.Cluster();
      assert IsDataFor(r.items[i], c);
      assert Strands(requests, r, LastFor(r.items, c).value);
    }
  }

  // For complete reports of the read client: nothing is pending between them exactly if none brings
  // data for a covered cluster under an invalid path.
  lemma RunSafeExactly(reports: seq<Report>, cacheData: bool)
    requires forall n :: 0 <= n < |reports| ==> Delivered(reports[n])
    ensures (forall n :: 0 <= n <= |reports| ==> Quiet(Run(INITIAL, reports[..n], cacheData))) <==> HarmlessRun(reports)
  {
    QuietExactly(reports, cacheData);
    forall n | 0 <= n < |reports|
      ensures StrandsNothing(Requests(reports[..n + 1]), reports[n]) <==> Harmless(Requests(reports[..n + 1]), reports[n].items)
    {
      HarmlessMeansStrandsNothing(Requests(reports[..n + 1]), reports[n]);
    }
  }

  // ---------- inside a report ----------

  // Data under an invalid path, the last for its cluster, is followed by data for another cluster.
  predicate Overtaken(requests: set<AttributePathParams>, items: seq<Item>) {
    exists i :: 0 <= i < |items| && Harmful(requests, items[i])
                && LastFor(items, items[i].path.Cluster()) == Some(i) && LastData(items) != Some(i)
  }

  ghost predicate OnlyArrivingPending(st: State) {
    forall c :: st.Entry(c).pending.Some? ==> c == st.last
  }

  // In the middle of a report, before which nothing was pending, only the cluster still arriving
  // has a pending version, exactly if no data under an invalid path was overtaken.
  lemma InsideRunSafe(reports: seq<Report>, r: Report, cacheData: bool)
    requires Quiet(Run(INITIAL, reports, cacheData))
    ensures var st := Inside(Run(INITIAL, reports, cacheData), r, cacheData);
            OnlyArrivingPending(st) <==> !Overtaken(Requests(reports) + r.newRequests, r.items)
  {
    var st := Run(INITIAL, reports, cacheData);
    var requests := Requests(reports) + r.newRequests;
    var inside := Inside(st, r, cacheData);
    RunVersions(reports, cacheData, NO_CLUSTER);
    InsideLast(Begin(st.(requests := requests)), r.items, cacheData);
    forall c
      ensures inside.Entry(c).pending == AfterReport(VersionsOf(st.Entry(c)), requests, r.items, false, c).pending
    {
      assert st.Entry(c).pending.None?;
      InsideVersions(Begin(st.(requests := requests)), r.items, cacheData, c);
    }
    PendingInside(st, requests, r.items, inside);
  }

  lemma PendingInside(st: State, requests: set<AttributePathParams>, items: seq<Item>, inside: State)
    requires Quiet(st)
    requires inside.last == var m := LastData(items); if m.Some? then items[m.value].path.Cluster() else NO_CLUSTER
    requires forall c :: inside.Entry(c).pending == AfterReport(VersionsOf(st.Entry(c)), requests, items, false, c).pending
    ensures OnlyArrivingPending(inside) <==> !Overtaken(requests, items)
  {
    if c :| inside.Entry(c).pending.Some? && c != inside.last {
      var i := LastFor(items, c).value;
      assert Harmful(requests, items[i]);
    }
    if Overtaken(requests, items) {
      var i :| 0 <= i < |items| && Harmful(requests, items[i])
               && LastFor(items, items[i].path.Cluster()) == Some(i) && LastData(items) != Some(i);
      assert inside.Entry(items[i].path.Cluster()).pending.Some?;
    }
  }

  // ---------- the same, item by item ----------

  // Item i of report n brings data for the cluster.
  predicate DataAt(reports: seq<Report>, n: nat, i: nat, c: ClusterPath) {
    && n < |reports| && i < |reports[n].items|
    && reports[n].items[i].DataItem? && reports[n].items[i].path.endpoint == c.endpoint && reports[n].items[i].path.cluster == c.cluster
  }

  // And none after it does.
  ghost predicate LastDataAt(reports: seq<Report>, n: nat, i: nat, c: ClusterPath) {
    && DataAt(reports, n, i, c)
    && forall m: nat, j: nat :: DataAt(reports, m, j, c) ==> m < n || (m == n && j <= i)
  }

  // Some path registered before report n was complete asks for all attributes of the cluster.
  ghost predicate Requested(reports: seq<Report>, n: nat, c: ClusterPath)
    requires n < |reports|
  {
    exists m, p :: 0 <= m <= n && p in reports[m].newRequests && Asks(p, c)
  }

  predicate Asks(p: AttributePathParams, c: ClusterPath) {
    && p.attribute == 0xFFFF_FFFF
    && (p.endpoint == 0xFFFF || p.endpoint == c.endpoint) && (p.cluster == 0xFFFF_FFFF || p.cluster == c.cluster)
  }

  // All of the cluster's data arrived: other data or the end of the report followed.
  predicate Over(reports: seq<Report>, n: nat, i: nat)
    requires n < |reports|
  {
    reports[n].ended || exists j :: i < j < |reports[n].items| && reports[n].items[j].DataItem?
  }

  lemma {:induction false} RequestsAre(reports: seq<Report>, p: AttributePathParams)
    ensures p in Requests(reports) <==> exists m :: 0 <= m < |reports| && p in reports[m].newRequests
  {
    if reports != [] {
      var n := |reports| - 1;
      RequestsAre(reports[..n], p);
      if m :| 0 <= m < n && p in reports[..n][m].newRequests {
        assert p in reports[m].newRequests;
      }
      if m :| 0 <= m < |reports| && p in reports[m].newRequests {
        assert m < n ==> p in reports[..n][m].newRequests;
      }
    }
  }

  lemma RequestedMeansCovered(reports: seq<Report>, n: nat, c: ClusterPath)
    requires n < |reports|
    ensures Requested(reports, n, c) <==> CoveredBy(Requests(reports[..n + 1]), c)
  {
    if m, p :| 0 <= m <= n && p in reports[m].newRequests && Asks(p, c) {
      RequestsAre(reports[..n + 1], p);
      assert p in reports[..n + 1][m].newRequests && p.IncludesAllAttributesInCluster(c);
    }
    if p :| p in Requests(reports[..n + 1]) && p.IncludesAllAttributesInCluster(c) {
      RequestsAre(reports[..n + 1], p);
      var m :| 0 <= m < n + 1 && p in reports[..n + 1][m].newRequests;
      assert p in reports[m].newRequests && Asks(p, c);
    }
  }

  // The versions after a run, from the last item that brought data.
  ghost function VersionsAt(reports: seq<Report>, n: nat, i: nat, c: ClusterPath): Versions
    requires DataAt(reports, n, i, c)
  {
    if !Requested(reports, n, c) then Versions(None, None)
    else if c.endpoint != 0xFFFF && c.cluster != 0xFFFF_FFFF && Over(reports, n, i) then Versions(None, reports[n].items[i].version)
    else Versions(reports[n].items[i].version, None)
  }

  lemma LastInReport(items: seq<Item>, i: nat, c: ClusterPath)
    requires i < |items| && IsDataFor(items[i], c) && forall j :: i < j < |items| ==> !IsDataFor(items[j], c)
    ensures LastFor(items, c) == Some(i)
    ensures LastData(items) != Some(i) <==> exists j :: i < j < |items| && items[j].DataItem?
  {
    var m := LastFor(items, c);
    assert m.Some? && m.value == i;
  }

  lemma OlderRequested(reports: seq<Report>, n: nat, c: ClusterPath)
    requires n < |reports| - 1
    ensures Requested(reports[..|reports| - 1], n, c) <==> Requested(reports, n, c)
  {
    var front := reports[..|reports| - 1];
    assert front[..n + 1] == reports[..n + 1];
    RequestedMeansCovered(front, n, c);
    RequestedMeansCovered(reports, n, c);
  }

  lemma AtOlder(reports: seq<Report>, c: ClusterPath, n: nat, i: nat)
    requires LastDataAt(reports, n, i, c) && n < |reports| - 1
    ensures var front := reports[..|reports| - 1];
            LastDataAt(front, n, i, c) && VersionsAt(front, n, i, c) == VersionsAt(reports, n, i, c)
    ensures LastFor(reports[|reports| - 1].items, c) == None
  {
    var last := |reports| - 1;
    var front := reports[..last];
    forall m: nat, j: nat | DataAt(front, m, j, c)
      ensures DataAt(reports, m, j, c)
    {
    }
    assert DataAt(front, n, i, c) && forall m :: 0 <= m <= n ==> front[m] == reports[m];
    OlderRequested(reports, n, c);
    var k := LastFor(reports[last].items, c);
    if k.Some? {
      assert DataAt(reports, last, k.value, c);
    }
  }

  lemma {:induction false} HistoryAt(reports: seq<Report>, c: ClusterPath, n: nat, i: nat)
    requires LastDataAt(reports, n, i, c)
    ensures History(reports, c) == VersionsAt(reports, n, i, c)
  {
    var last := |reports| - 1;
    if n < last {
      AtOlder(reports, c, n, i);
      HistoryAt(reports[..last], c, n, i);
      return;
    }
    forall j | i < j < |reports[n].items|
      ensures !IsDataFor(reports[n].items[j], c)
    {
      assert !DataAt(reports, n, j, c);
    }
    LastInReport(reports[n].items, i, c);
    RequestedMeansCovered(reports, n, c);
    assert reports[..n + 1] == reports;
  }

  lemma {:induction false} HistoryNone(reports: seq<Report>, c: ClusterPath)
    requires forall n: nat, i: nat :: !DataAt(reports, n, i, c)
    ensures History(reports, c) == Versions(None, None)
  {
    if reports != [] {
      var last := |reports| - 1;
      forall n: nat, i: nat
        ensures !DataAt(reports[..last], n, i, c)
      {
        assert !DataAt(reports, n, i, c);
      }
      HistoryNone(reports[..last], c);
      var k := LastFor(reports[last].items, c);
      if k.Some? {
        assert DataAt(reports, last, k.value, c);
      }
    }
  }

  lemma {:induction false} FindLastData(reports: seq<Report>, c: ClusterPath) returns (found: bool, n: nat, i: nat)
    ensures if found then LastDataAt(reports, n, i, c) else forall m: nat, j: nat :: !DataAt(reports, m, j, c)
  {
    found, n, i := false, 0, 0;
    if reports == [] {
      return;
    }
    var last := |reports| - 1;
    var k := LastFor(reports[last].items, c);
    if k.Some? {
      found, n, i := true, last, k.value;
      assert IsDataFor(reports[last].items[i], c);
      forall m: nat, j: nat | DataAt(reports, m, j, c)
        ensures m < n || (m == n && j <= i)
      {
        assert m == n ==> IsDataFor(reports[n].items[j], c);
      }
      return;
    }
    found, n, i := FindLastData(reports[..last], c);
    forall m: nat, j: nat | DataAt(reports, m, j, c)
      ensures DataAt(reports[..last], m, j, c)
    {
      assert m == last ==> IsDataFor(reports[last].items[j], c);
    }
    if found {
      assert DataAt(reports, n, i, c);
    }
  }

  // After any run a cluster has a committed version exactly if its last data item carried it, some
  // registered wildcard asks for the cluster, its path is valid, and the data was over; and a pending
  // one exactly if the last two fail.
  lemma VersionsExactly(reports: seq<Report>, cacheData: bool, c: ClusterPath, v: nat)
    ensures var s := Run(INITIAL, reports, cacheData).Entry(c);
            && (s.committed == Some(v) <==> exists n: nat, i: nat :: LastDataAt(reports, n, i, c) && VersionsAt(reports, n, i, c).committed == Some(v))
            && (s.pending == Some(v) <==> exists n: nat, i: nat :: LastDataAt(reports, n, i, c) && VersionsAt(reports, n, i, c).pending == Some(v))
  {
    RunVersions(reports, cacheData, c);
    var found, n, i := FindLastData(reports, c);
    if found {
      HistoryAt(reports, c, n, i);
    } else {
      HistoryNone(reports, c);
    }
  }

  // ---------- the attributes of a cluster ----------

  predicate NamedAt(reports: seq<Report>, n: nat, i: nat, path: AttributePath) {
    n < |reports| && i < |reports[n].items| && reports[n].items[i].path == path
  }

  ghost predicate LastNamedAt(reports: seq<Report>, n: nat, i: nat, path: AttributePath) {
    && NamedAt(reports, n, i, path)
    && forall m: nat, j: nat :: NamedAt(reports, m, j, path) ==> m < n || (m == n && j <= i)
  }

  // What is kept of an item: its data or status, or just how many bytes that has.
  predicate Holds(a: AttributeState, item: Item, cacheData: bool) {
    match item
    case DataItem(_, _, e) => a == if cacheData then AttributeData(e) else AttributeSize(Size(e))
    case StatusItem(_, s) => a == if cacheData then AttributeStatus(s) else AttributeSize(5 + match s.clusterStatus { case Some(_) => 3 case None => 0 })
  }

  // What the cache holds of an attribute.
  function Held(st: State, path: AttributePath): Option<AttributeState> {
    var attributes := st.Entry(path.Cluster()).attributes;
    if path.attribute in attributes then Some(attributes[path.attribute]) else None
  }

  lemma UpdateHolds(st: State, item: Item, cacheData: bool, path: AttributePath)
    ensures var st' := Update(st, item, cacheData);
            if item.path == path then Held(st', path).Some? && Holds(Held(st', path).value, item, cacheData)
            else Held(st', path) == Held(st, path)
  {
    var c := item.path.Cluster();
    var settled := Settled(st, c);
    assert settled.Entry(path.Cluster()).attributes == st.Entry(path.Cluster()).attributes;
  }

  lemma {:induction false} InsideHolds(st: State, items: seq<Item>, cacheData: bool, path: AttributePath) returns (i: Option<nat>)
    ensures forall j :: (if i.Some? then i.value + 1 else 0) <= j < |items| ==> items[j].path != path
    ensures var st' := UpdateAll(st, items, cacheData);
            if i.Some? then i.value < |items| && items[i.value].path == path && Held(st', path).Some? && Holds(Held(st', path).value, items[i.value], cacheData)
            else Held(st', path) == Held(st, path)
  {
    if items == [] {
      i := None;
      return;
    }
    var n := |items| - 1;
    var before := InsideHolds(st, items[..n], cacheData, path);
    assert forall j :: 0 <= j < n ==> items[..n][j] == items[j];
    UpdateHolds(UpdateAll(st, items[..n], cacheData), items[n], cacheData, path);
    i := if items[n].path == path then Some(n) else before;
  }

  lemma EndHolds(st: State, path: AttributePath)
    ensures Held(End(st), path) == Held(st, path)
  {
  }

  lemma NamedOlder(reports: seq<Report>, items: seq<Item>, path: AttributePath)
    requires reports != [] && items == reports[|reports| - 1].items && forall j :: 0 <= j < |items| ==> items[j].path != path
    ensures forall n: nat, i: nat :: NamedAt(reports, n, i, path) <==> NamedAt(reports[..|reports| - 1], n, i, path)
  {
  }

  lemma {:induction false} HeldAt(reports: seq<Report>, cacheData: bool, path: AttributePath) returns (found: bool, n: nat, i: nat)
    ensures var held := Held(Run(INITIAL, reports, cacheData), path);
            if found then LastNamedAt(reports, n, i, path) && held.Some? && Holds(held.value, reports[n].items[i], cacheData)
            else held.None? && forall m: nat, j: nat :: !NamedAt(reports, m, j, path)
  {
    found, n, i := false, 0, 0;
    if reports == [] {
      return;
    }
    var last := |reports| - 1;
    var st, r := Run(INITIAL, reports[..last], cacheData), reports[last];
    var k := InsideHolds(Begin(st.(requests := st.requests + r.newRequests)), r.items, cacheData, path);
    EndHolds(Inside(st, r, cacheData), path);
    if k.Some? {
      return true, last, k.value;
    }
    found, n, i := HeldAt(reports[..last], cacheData, path);
    NamedOlder(reports, r.items, path);
  }

  // After any run the cache holds an attribute exactly if some item named it, and then what the last
  // such item brought.
  lemma AttributesExactly(reports: seq<Report>, cacheData: bool, path: AttributePath)
    ensures var held := Held(Run(INITIAL, reports, cacheData), path);
            && (held.Some? <==> exists n: nat, i: nat :: NamedAt(reports, n, i, path))
            && forall n: nat, i: nat :: LastNamedAt(reports, n, i, path) ==> Holds(held.value, reports[n].items[i], cacheData)
  {
    var found, n, i := HeldAt(reports, cacheData, path);
    assert found ==> NamedAt(reports, n, i, path);
  }

  // ---------- what a report announces ----------

  // Some of the first n items is for the endpoint.
  predicate NamesEndpoint(items: seq<Item>, n: nat, endpoint: nat) {
    exists i :: 0 <= i < n <= |items| && items[i].path.endpoint == endpoint
  }

  predicate NamesCluster(items: seq<Item>, n: nat, c: ClusterPath) {
    exists i :: 0 <= i < n <= |items| && items[i].path.Cluster() == c
  }

  predicate HasEndpoint(clusters: set<ClusterPath>, endpoint: nat) {
    exists c :: c in clusters && c.endpoint == endpoint
  }

  // The endpoints an owner is told of: those named and no cluster of which was known before, once
  // each.
  ghost predicate AreNew(known: set<ClusterPath>, items: seq<Item>, n: nat, endpoints: seq<nat>) {
    && (forall e: nat :: e in endpoints <==> NamesEndpoint(items, n, e) && !HasEndpoint(known, e))
    && (forall j, k :: 0 <= j < k < |endpoints| ==> endpoints[j] != endpoints[k])
  }

  ghost predicate AreNamed(items: seq<Item>, n: nat, paths: set<AttributePath>) {
    forall p :: p in paths <==> exists i :: 0 <= i < n <= |items| && items[i].path == p
  }

  // The clusters that are known after the first n items.
  ghost predicate AreKnown(known: set<ClusterPath>, items: seq<Item>, n: nat, clusters: set<ClusterPath>) {
    forall c :: c in clusters <==> c in known || NamesCluster(items, n, c)
  }

  predicate LastKnown(st: State) {
    st.last.IsValid() ==> st.last in st.clusters
  }

  lemma UpdateKnows(st: State, item: Item, cacheData: bool)
    requires LastKnown(st)
    ensures LastKnown(Update(st, item, cacheData)) && Update(st, item, cacheData).clusters.Keys == st.clusters.Keys + {item.path.Cluster()}
  {
    var c := item.path.Cluster();
    assert Settled(st, c).clusters.Keys == st.clusters.Keys + {c};
  }

  lemma KnownNext(known: set<ClusterPath>, items: seq<Item>, n: nat, clusters: set<ClusterPath>)
    requires n < |items| && AreKnown(known, items, n, clusters)
    ensures AreKnown(known, items, n + 1, clusters + {items[n].path.Cluster()})
  {
    forall c
      ensures NamesCluster(items, n + 1, c) <==> NamesCluster(items, n, c) || c == items[n].path.Cluster()
    {
    }
  }

  lemma KnownEndpoints(known: set<ClusterPath>, items: seq<Item>, n: nat, clusters: set<ClusterPath>, endpoint: nat)
    requires n <= |items| && AreKnown(known, items, n, clusters)
    ensures HasEndpoint(clusters, endpoint) <==> HasEndpoint(known, endpoint) || NamesEndpoint(items, n, endpoint)
  {
    if NamesEndpoint(items, n, endpoint) {
      var i :| 0 <= i < n && items[i].path.endpoint == endpoint;
      assert items[i].path.Cluster() in clusters;
    }
    if HasEndpoint(clusters, endpoint) {
      var c :| c in clusters && c.endpoint == endpoint;
    }
  }

  lemma NewNext(known: set<ClusterPath>, items: seq<Item>, n: nat, clusters: set<ClusterPath>, endpoints: seq<nat>)
    requires n < |items| && AreKnown(known, items, n, clusters) && AreNew(known, items, n, endpoints)
    ensures var e := items[n].path.endpoint;
            AreNew(known, items, n + 1, endpoints + if HasEndpoint(clusters, e) then [] else [e])
  {
    KnownEndpoints(known, items, n, clusters, items[n].path.endpoint);
    forall e: nat
      ensures NamesEndpoint(items, n + 1, e) <==> NamesEndpoint(items, n, e) || e == items[n].path.endpoint
    {
    }
  }

  // What has been collected after the first n items.
  ghost predicate Collected(known: set<ClusterPath>, items: seq<Item>, n: nat, cacheData: bool, st: State, paths: set<AttributePath>, endpoints: seq<nat>) {
    && LastKnown(st) && AreKnown(known, items, n, st.clusters.Keys)
    && AreNew(known, items, n, endpoints)
    && if cacheData then AreNamed(items, n, paths) else paths == {}
  }

  lemma CollectedNext(known: set<ClusterPath>, items: seq<Item>, n: nat, cacheData: bool, st: State, paths: set<AttributePath>, endpoints: seq<nat>)
    requires n < |items| && Collected(known, items, n, cacheData, st, paths, endpoints)
    ensures Collected(known, items, n + 1, cacheData, Update(st, items[n], cacheData), paths + if cacheData then {items[n].path} else {},
                      endpoints + if HasEndpoint(st.clusters.Keys, items[n].path.endpoint) then [] else [items[n].path.endpoint])
  {
    UpdateKnows(st, items[n], cacheData);
    KnownNext(known, items, n, st.clusters.Keys);
    NewNext(known, items, n, st.clusters.Keys, endpoints);
  }

  // One report as the read client hands it over: what is cached afterwards, and what the owner is
  // told when it ends.
  method DeliverReport(cache: ClusterStateCache, items: seq<Item>)
    modifies cache
    ensures cache.GetState() == End(UpdateAll(Begin(old(cache.GetState())), items, cache.cacheData))
    ensures |cache.changes| == |old(cache.changes)| + 1 && cache.changes[..|cache.changes| - 1] == old(cache.changes)
    ensures var told := cache.changes[|cache.changes| - 1];
            && (if cache.cacheData then AreNamed(items, |items|, told.attributes) else told.attributes == {})
            && (forall c :: c in told.clusters <==> exists p :: p in told.attributes && p.Cluster() == c)
            && AreNew(old(cache.clusters).Keys, items, |items|, told.endpoints)
  {
    ghost var begun := Begin(cache.GetState());
    ghost var known := cache.clusters.Keys;
    cache.OnReportBegin();
    var i := 0;
    while i < |items|
      invariant 0 <= i <= |items|
      invariant cache.GetState() == UpdateAll(begun, items[..i], cache.cacheData)
      invariant Collected(known, items, i, cache.cacheData, cache.GetState(), cache.changedAttributeSet, cache.addedEndpoints)
      invariant cache.changes == old(cache.changes)
    {
      assert items[..i + 1][..i] == items[..i];
      CollectedNext(known, items, i, cache.cacheData, cache.GetState(), cache.changedAttributeSet, cache.addedEndpoints);
      cache.UpdateCache(items[i]);
      i := i + 1;
    }
    assert items[..|items|] == items;
    cache.OnReportEnd();
  }

  // Data under an invalid path: its version is still pending when its report and all other clusters are done.
  lemma InvalidPathStrandsVersion(e: Elem)
    ensures var all := AttributePathParams(INVALID_ENDPOINT_ID, INVALID_CLUSTER_ID, INVALID_ATTRIBUTE_ID, INVALID_LIST_INDEX);
            var lost := AttributePath(INVALID_ENDPOINT_ID, 1, 0);
            var items := [DataItem(lost, Some(7), e), DataItem(AttributePath(1, 1, 0), Some(8), e)];
            var st := Run(INITIAL, [Report({all}, items, true)], true);
            st.Entry(lost.Cluster()).pending == Some(7) && st.Entry(ClusterPath(1, 1)).committed == Some(8)
  {
    var all := AttributePathParams(INVALID_ENDPOINT_ID, INVALID_CLUSTER_ID, INVALID_ATTRIBUTE_ID, INVALID_LIST_INDEX);
    var first, second := DataItem(AttributePath(INVALID_ENDPOINT_ID, 1, 0), Some(7), e), DataItem(AttributePath(1, 1, 0), Some(8), e);
    var items := [first, second];
    var reports := [Report({all}, items, true)];
    RunVersions(reports, true, first.path.Cluster());
    RunVersions(reports, true, ClusterPath(1, 1));
    assert reports[..0] == [] && items[..1] == [first];
    assert Requests(reports) == {all} && all in Requests(reports);
    assert LastFor(items, ClusterPath(1, 1)) == Some(1);
    assert LastFor(items[..1], first.path.Cluster()) == Some(0);
  }
}
