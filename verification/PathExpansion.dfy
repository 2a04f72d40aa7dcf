// AttributePathExpandIterator: a nested loop over endpoints, clusters and attributes that stops at
// every path and resumes from its member indices.

module PathExpansion {
  import opened Core
  import opened PathParams

  // The server side of the data model as the attribute storage holds it.
  datatype Cluster = Cluster(id: nat, attributes: seq<nat>)
  datatype Endpoint = Endpoint(id: nat, enabled: bool, clusters: seq<Cluster>)

  // `globals` are the ids of the global attributes that have no metadata.
  datatype Node = Node(endpoints: seq<Endpoint>, globals: seq<nat>)

  predicate WellFormedCluster(c: Cluster, globals: seq<nat>) {
    && |c.attributes| <= UINT16_MAX
    && Distinct(c.attributes)
    && (forall i, j :: 0 <= i < |c.attributes| && 0 <= j < |globals| ==> c.attributes[i] != globals[j])
  }

  predicate DistinctClusters(cs: seq<Cluster>) {
    forall i, j :: 0 <= i < j < |cs| ==> cs[i].id != cs[j].id
  }

  predicate DistinctEndpoints(es: seq<Endpoint>) {
    forall i, j :: 0 <= i < j < |es| ==> es[i].id != es[j].id
  }

  predicate WellFormedEndpoint(e: Endpoint, globals: seq<nat>) {
    && e.id != INVALID_ENDPOINT_ID
    && |e.clusters| <= UINT8_MAX
    && DistinctClusters(e.clusters)
    && forall c :: 0 <= c < |e.clusters| ==> WellFormedCluster(e.clusters[c], globals)
  }

  // Ids are unique, counts have the widths of the attribute storage, and no metadata attribute
  // repeats a global one.
  predicate WellFormed(node: Node) {
    && |node.endpoints| <= UINT16_MAX
    && |node.globals| < UINT8_MAX
    && Distinct(node.globals)
    && DistinctEndpoints(node.endpoints)
    && forall e :: 0 <= e < |node.endpoints| ==> WellFormedEndpoint(node.endpoints[e], node.globals)
  }

  // ---------- the attribute storage's lookups ----------

  function EndpointIndex(node: Node, id: nat): (index: nat)
    ensures index == UINT16_MAX || (index < |node.endpoints| && node.endpoints[index].id == id && node.endpoints[index].enabled)
  {
    if id == INVALID_ENDPOINT_ID then UINT16_MAX else EndpointIndexFrom(node, id, 0)
  }

  function EndpointIndexFrom(node: Node, id: nat, i: nat): (index: nat)
    ensures index == UINT16_MAX || (i <= index < |node.endpoints| && node.endpoints[index].id == id && node.endpoints[index].enabled)
    ensures index == UINT16_MAX && |node.endpoints| <= UINT16_MAX ==>
              forall k :: i <= k < |node.endpoints| ==> !(node.endpoints[k].id == id && node.endpoints[k].enabled)
    decreases |node.endpoints| - i
  {
    if i >= |node.endpoints| then UINT16_MAX
    else if node.endpoints[i].id == id && node.endpoints[i].enabled then i
    else EndpointIndexFrom(node, id, i + 1)
  }

  function IndexOfCluster(clusters: seq<Cluster>, id: nat, i: nat): (index: nat)
    ensures index == UINT8_MAX || (i <= index < |clusters| && clusters[index].id == id)
    ensures index == UINT8_MAX && |clusters| <= UINT8_MAX ==> forall k :: i <= k < |clusters| ==> clusters[k].id != id
    decreases |clusters| - i
  {
    if i >= |clusters| then UINT8_MAX else if clusters[i].id == id then i else IndexOfCluster(clusters, id, i + 1)
  }

  // Searches every endpoint of that id, enabled or not.
  function ClusterIndexFrom(node: Node, endpointId: nat, clusterId: nat, i: nat): nat
    decreases |node.endpoints| - i
  {
    if i >= |node.endpoints| then UINT8_MAX
    else if node.endpoints[i].id == endpointId && IndexOfCluster(node.endpoints[i].clusters, clusterId, 0) != UINT8_MAX
    then IndexOfCluster(node.endpoints[i].clusters, clusterId, 0)
    else ClusterIndexFrom(node, endpointId, clusterId, i + 1)
  }

  function ClusterIndex(node: Node, endpointId: nat, clusterId: nat): nat {
    ClusterIndexFrom(node, endpointId, clusterId, 0)
  }

  function ClusterCount(node: Node, endpointId: nat): nat {
    var e := EndpointIndex(node, endpointId);
    if e == UINT16_MAX || e >= |node.endpoints| then 0 else |node.endpoints[e].clusters|
  }

  function NthClusterId(node: Node, endpointId: nat, n: nat): Option<nat> {
    var e := EndpointIndex(node, endpointId);
    if e == UINT16_MAX || e >= |node.endpoints| || n >= |node.endpoints[e].clusters| then None
    else Some(node.endpoints[e].clusters[n].id)
  }

  function FindServerCluster(node: Node, endpointId: nat, clusterId: nat): Option<Cluster> {
    var e := EndpointIndex(node, endpointId);
    if e == UINT16_MAX || e >= |node.endpoints| then None
    else
      var c := IndexOfCluster(node.endpoints[e].clusters, clusterId, 0);
      if c >= |node.endpoints[e].clusters| then None else Some(node.endpoints[e].clusters[c])
  }

  function ServerAttributeCount(node: Node, endpointId: nat, clusterId: nat): nat {
    var c := FindServerCluster(node, endpointId, clusterId);
    if c.None? then 0 else |c.value.attributes|
  }

  function IndexOfId(ids: seq<nat>, id: nat, i: nat): (index: nat)
    requires i <= |ids|
    ensures i <= index <= |ids|
    ensures forall k :: i <= k < index ==> ids[k] != id
    ensures index < |ids| ==> ids[index] == id
    decreases |ids| - i
  {
    if i >= |ids| || ids[i] == id then i else IndexOfId(ids, id, i + 1)
  }

  function ServerAttributeIndex(node: Node, endpointId: nat, clusterId: nat, attributeId: nat): nat {
    var c := FindServerCluster(node, endpointId, clusterId);
    if c.None? then UINT16_MAX
    else
      var i := IndexOfId(c.value.attributes, attributeId, 0);
      if i < |c.value.attributes| then i else UINT16_MAX
  }

  function ServerAttributeIdByIndex(node: Node, endpointId: nat, clusterId: nat, index: nat): Option<nat> {
    var c := FindServerCluster(node, endpointId, clusterId);
    if c.None? || index >= |c.value.attributes| then None else Some(c.value.attributes[index])
  }

  // With unique ids the lookups by id lead back to the element they started from.
  lemma LookupEndpoint(node: Node, e: nat)
    requires WellFormed(node) && e < |node.endpoints| && node.endpoints[e].enabled
    ensures EndpointIndex(node, node.endpoints[e].id) == e
  {
  }

  lemma LookupCluster(node: Node, e: nat, c: nat)
    requires WellFormed(node) && e < |node.endpoints| && node.endpoints[e].enabled && c < |node.endpoints[e].clusters|
    ensures FindServerCluster(node, node.endpoints[e].id, node.endpoints[e].clusters[c].id) == Some(node.endpoints[e].clusters[c])
  {
    LookupEndpoint(node, e);
    var clusters := node.endpoints[e].clusters;
    var index := IndexOfCluster(clusters, clusters[c].id, 0);
    assert index != UINT8_MAX;
  }

  lemma {:induction false} LookupClusterIndex(node: Node, e: nat, clusterId: nat, i: nat)
    requires WellFormed(node) && e < |node.endpoints| && i <= |node.endpoints|
    ensures ClusterIndexFrom(node, node.endpoints[e].id, clusterId, i)
         == if i <= e then IndexOfCluster(node.endpoints[e].clusters, clusterId, 0) else UINT8_MAX
    decreases |node.endpoints| - i
  {
    if i < |node.endpoints| {
      LookupClusterIndex(node, e, clusterId, i + 1);
    }
  }

  // ---------- specification ----------

  function PathsOf(endpoint: nat, cluster: nat, attributes: seq<nat>): (ps: seq<AttributePath>)
    ensures |ps| == |attributes|
    ensures forall i :: 0 <= i < |ps| ==> ps[i] == AttributePath(endpoint, cluster, attributes[i])
  {
    seq(|attributes|, i requires 0 <= i < |attributes| => AttributePath(endpoint, cluster, attributes[i]))
  }

  // The paths of one cluster: its metadata attributes, then the global ones.
  function ClusterPaths(node: Node, endpoint: nat, c: Cluster): seq<AttributePath> {
    PathsOf(endpoint, c.id, c.attributes) + PathsOf(endpoint, c.id, node.globals)
  }

  function ClustersPaths(node: Node, endpoint: nat, clusters: seq<Cluster>): seq<AttributePath> {
    if clusters == [] then []
    else ClusterPaths(node, endpoint, clusters[0]) + ClustersPaths(node, endpoint, clusters[1..])
  }

  function EndpointPaths(node: Node, e: Endpoint): seq<AttributePath> {
    if e.enabled then ClustersPaths(node, e.id, e.clusters) else []
  }

  function EndpointsPaths(node: Node, endpoints: seq<Endpoint>): seq<AttributePath> {
    if endpoints == [] then [] else EndpointPaths(node, endpoints[0]) + EndpointsPaths(node, endpoints[1..])
  }

  // The paths of ps that the request is a superset of.
  function Select(req: AttributePathParams, ps: seq<AttributePath>): seq<AttributePath> {
    if ps == [] then []
    else (if req.IsSupersetOf(ps[0]) then [ps[0]] else []) + Select(req, ps[1..])
  }

  // A concrete request stands for itself, a wildcard one for every existing path it covers.
  function Expand(node: Node, req: AttributePathParams): seq<AttributePath> {
    if req.IsWildcardPath() then Select(req, EndpointsPaths(node, node.endpoints))
    else [AttributePath(req.endpoint, req.cluster, req.attribute)]
  }

  function ExpandAll(node: Node, reqs: seq<AttributePathParams>): seq<AttributePath> {
    if reqs == [] then [] else Expand(node, reqs[0]) + ExpandAll(node, reqs[1..])
  }

  lemma {:induction false} SelectSplit(req: AttributePathParams, xs: seq<AttributePath>, ys: seq<AttributePath>)
    ensures Select(req, xs + ys) == Select(req, xs) + Select(req, ys)
  {
    if xs == [] {
      assert xs + ys == ys;
    } else {
      assert (xs + ys)[1..] == xs[1..] + ys;
      SelectSplit(req, xs[1..], ys);
    }
  }

  lemma {:induction false} SelectNone(req: AttributePathParams, ps: seq<AttributePath>)
    requires forall p :: p in ps ==> !req.IsSupersetOf(p)
    ensures Select(req, ps) == []
  {
    if ps != [] {
      SelectNone(req, ps[1..]);
    }
  }

  predicate HasCluster(clusters: seq<Cluster>, id: nat) {
    exists c :: 0 <= c < |clusters| && clusters[c].id == id
  }

  lemma {:induction false} ClustersPathsWithin(node: Node, endpoint: nat, clusters: seq<Cluster>)
    ensures forall p :: p in ClustersPaths(node, endpoint, clusters) ==> p.endpoint == endpoint && HasCluster(clusters, p.cluster)
  {
    if clusters != [] {
      ClustersPathsWithin(node, endpoint, clusters[1..]);
      forall p | p in ClustersPaths(node, endpoint, clusters)
        ensures p.endpoint == endpoint && HasCluster(clusters, p.cluster)
      {
        if p in ClusterPaths(node, endpoint, clusters[0]) {
          assert p.cluster == clusters[0].id;
        } else {
          var c :| 0 <= c < |clusters[1..]| && clusters[1..][c].id == p.cluster;
          assert clusters[c + 1].id == p.cluster;
        }
      }
    }
  }

  // ---------- which paths that are ----------

  // The node serves the path: on an enabled endpoint, in a cluster of it, as an attribute of the
  // cluster or as a global one.
  predicate Serves(node: Node, p: AttributePath) {
    exists e :: 0 <= e < |node.endpoints| && ServedBy(node, node.endpoints[e], p)
  }

  predicate ServedBy(node: Node, e: Endpoint, p: AttributePath) {
    e.enabled && e.id == p.endpoint && exists c :: 0 <= c < |e.clusters| && HeldBy(node, e.clusters[c], p)
  }

  predicate HeldBy(node: Node, c: Cluster, p: AttributePath) {
    c.id == p.cluster && (p.attribute in c.attributes || p.attribute in node.globals)
  }

  lemma {:induction false} SelectMembers(req: AttributePathParams, ps: seq<AttributePath>)
    ensures forall p :: p in Select(req, ps) <==> p in ps && req.IsSupersetOf(p)
    ensures Distinct(ps) ==> Distinct(Select(req, ps))
  {
    if ps != [] {
      SelectMembers(req, ps[1..]);
      assert ps == [ps[0]] + ps[1..];
      if Distinct(ps) {
        assert Distinct(ps[1..]) && ps[0] !in ps[1..];
      }
    }
  }

  lemma ConcatDistinct(xs: seq<AttributePath>, ys: seq<AttributePath>)
    requires Distinct(xs) && Distinct(ys) && forall p :: p in xs ==> p !in ys
    ensures Distinct(xs + ys)
  {
    var zs := xs + ys;
    forall i, j | 0 <= i < j < |zs|
      ensures zs[i] != zs[j]
    {
      if i < |xs| <= j {
        assert zs[i] in xs && zs[j] in ys;
      }
    }
  }

  lemma ClusterMembers(node: Node, endpoint: nat, c: Cluster)
    ensures forall p :: p in ClusterPaths(node, endpoint, c) <==> p.endpoint == endpoint && HeldBy(node, c, p)
    ensures WellFormedCluster(c, node.globals) && Distinct(node.globals) ==> Distinct(ClusterPaths(node, endpoint, c))
  {
    var xs, ys := PathsOf(endpoint, c.id, c.attributes), PathsOf(endpoint, c.id, node.globals);
    forall p: AttributePath | p.endpoint == endpoint && HeldBy(node, c, p)
      ensures p in xs + ys
    {
      if i :| 0 <= i < |c.attributes| && c.attributes[i] == p.attribute {
        assert xs[i] == p;
      } else {
        var j :| 0 <= j < |node.globals| && node.globals[j] == p.attribute;
        assert ys[j] == p;
      }
    }
    if WellFormedCluster(c, node.globals) && Distinct(node.globals) {
      ConcatDistinct(xs, ys);
    }
  }

  predicate AnyHolds(node: Node, clusters: seq<Cluster>, p: AttributePath) {
    exists c :: 0 <= c < |clusters| && HeldBy(node, clusters[c], p)
  }

  lemma {:induction false} ClustersMembers(node: Node, endpoint: nat, clusters: seq<Cluster>)
    ensures forall p :: p in ClustersPaths(node, endpoint, clusters) <==> p.endpoint == endpoint && AnyHolds(node, clusters, p)
    ensures DistinctClusters(clusters) && Distinct(node.globals) && (forall c :: 0 <= c < |clusters| ==> WellFormedCluster(clusters[c], node.globals))
            ==> Distinct(ClustersPaths(node, endpoint, clusters))
  {
    if clusters == [] {
      return;
    }
    var rest := clusters[1..];
    ClusterMembers(node, endpoint, clusters[0]);
    ClustersMembers(node, endpoint, rest);
    forall p: AttributePath
      ensures AnyHolds(node, clusters, p) <==> HeldBy(node, clusters[0], p) || AnyHolds(node, rest, p)
    {
      if c :| 0 <= c < |clusters| && HeldBy(node, clusters[c], p) {
        assert c > 0 ==> HeldBy(node, rest[c - 1], p);
      }
      if c :| 0 <= c < |rest| && HeldBy(node, rest[c], p) {
        assert HeldBy(node, clusters[c + 1], p);
      }
    }
    if DistinctClusters(clusters) && Distinct(node.globals) && forall c :: 0 <= c < |clusters| ==> WellFormedCluster(clusters[c], node.globals) {
      ConcatDistinct(ClusterPaths(node, endpoint, clusters[0]), ClustersPaths(node, endpoint, rest));
    }
  }

  lemma EndpointMembers(node: Node, e: Endpoint)
    ensures forall p :: p in EndpointPaths(node, e) <==> ServedBy(node, e, p)
    ensures WellFormedEndpoint(e, node.globals) && Distinct(node.globals) ==> Distinct(EndpointPaths(node, e))
  {
    ClustersMembers(node, e.id, e.clusters);
    forall p: AttributePath
      ensures ServedBy(node, e, p) <==> e.enabled && e.id == p.endpoint && AnyHolds(node, e.clusters, p)
    {
    }
  }

  predicate AnyServes(node: Node, endpoints: seq<Endpoint>, p: AttributePath) {
    exists e :: 0 <= e < |endpoints| && ServedBy(node, endpoints[e], p)
  }

  lemma {:induction false} EndpointsMembers(node: Node, endpoints: seq<Endpoint>)
    ensures forall p :: p in EndpointsPaths(node, endpoints) <==> AnyServes(node, endpoints, p)
    ensures DistinctEndpoints(endpoints) && Distinct(node.globals) && (forall e :: 0 <= e < |endpoints| ==> WellFormedEndpoint(endpoints[e], node.globals))
            ==> Distinct(EndpointsPaths(node, endpoints))
  {
    if endpoints == [] {
      return;
    }
    var rest := endpoints[1..];
    EndpointMembers(node, endpoints[0]);
    EndpointsMembers(node, rest);
    forall p: AttributePath
      ensures AnyServes(node, endpoints, p) <==> ServedBy(node, endpoints[0], p) || AnyServes(node, rest, p)
    {
      if e :| 0 <= e < |endpoints| && ServedBy(node, endpoints[e], p) {
        assert e > 0 ==> ServedBy(node, rest[e - 1], p);
      }
      if e :| 0 <= e < |rest| && ServedBy(node, rest[e], p) {
        assert ServedBy(node, endpoints[e + 1], p);
      }
    }
    if DistinctEndpoints(endpoints) && Distinct(node.globals) && forall e :: 0 <= e < |endpoints| ==> WellFormedEndpoint(endpoints[e], node.globals) {
      ConcatDistinct(EndpointPaths(node, endpoints[0]), EndpointsPaths(node, rest));
    }
  }

  // A concrete request stands for its own path. A wildcard one stands for exactly the paths that the
  // node serves and that agree with it wherever it holds no wildcard, each once.
  lemma ExpandExactly(node: Node, req: AttributePathParams)
    ensures if req.endpoint == 0xFFFF || req.cluster == 0xFFFF_FFFF || req.attribute == 0xFFFF_FFFF then
              forall p :: p in Expand(node, req) <==>
                && Serves(node, p)
                && (req.endpoint == 0xFFFF || req.endpoint == p.endpoint)
                && (req.cluster == 0xFFFF_FFFF || req.cluster == p.cluster)
                && (req.attribute == 0xFFFF_FFFF || req.attribute == p.attribute)
            else Expand(node, req) == [AttributePath(req.endpoint, req.cluster, req.attribute)]
    ensures WellFormed(node) ==> Distinct(Expand(node, req))
  {
    EndpointsMembers(node, node.endpoints);
    SelectMembers(req, EndpointsPaths(node, node.endpoints));
    forall p: AttributePath
      ensures Serves(node, p) <==> AnyServes(node, node.endpoints, p)
    {
    }
  }
}
