// The iterator itself. Its indices are uint8_t and uint16_t members kept between calls; the
// maximal values stand for "not prepared yet".

module PathIterator {
  import opened Core
  import opened PathParams
  import opened PathExpansion

  // The member indices of the iterator.
  datatype Cursor = Cursor(position: nat, endpoint: nat, endpointEnd: nat, cluster: nat, clusterEnd: nat,
                           attribute: nat, attributeEnd: nat, global: nat, globalEnd: nat)
  {
    // The two attribute indices together say that the current cluster was not prepared.
    predicate AtSentinel() {
      attribute == UINT16_MAX && global == UINT8_MAX
    }
  }

  // The indices PrepareAttributeIndexRange chooses for a cluster.
  predicate Prepared(node: Node, req: AttributePathParams, c: Cluster, x: Cursor) {
    if req.HasWildcardAttributeId() then
      x.attribute == 0 && x.attributeEnd == |c.attributes| && x.global == 0 && x.globalEnd == |node.globals|
    else
      var i := IndexOfId(c.attributes, req.attribute, 0);
      var j := IndexOfId(node.globals, req.attribute, 0);
      if i < |c.attributes| then
        x.attribute == i && x.attributeEnd == i + 1 && x.global == UINT8_MAX && x.globalEnd == 0
      else
        && x.attribute == UINT16_MAX && x.attributeEnd == 0
        && if j < |node.globals| then x.global == j && x.globalEnd == j + 1 else x.global == UINT8_MAX && x.globalEnd == 0
  }

  // Where those indices may have advanced to.
  predicate Advanced(node: Node, req: AttributePathParams, c: Cluster, x: Cursor) {
    if req.HasWildcardAttributeId() then
      && x.attribute <= x.attributeEnd == |c.attributes|
      && x.global <= x.globalEnd == |node.globals|
      && (x.global > 0 ==> x.attribute == x.attributeEnd)
    else
      var i := IndexOfId(c.attributes, req.attribute, 0);
      var j := IndexOfId(node.globals, req.attribute, 0);
      if i < |c.attributes| then
        i <= x.attribute <= x.attributeEnd == i + 1 && x.global == UINT8_MAX && x.globalEnd == 0
      else
        && x.attribute == UINT16_MAX && x.attributeEnd == 0
        && if j < |node.globals| then j <= x.global <= x.globalEnd == j + 1 else x.global == UINT8_MAX && x.globalEnd == 0
  }

  // ---------- what is still to come, read off the indices ----------

  // What the attributes from index i of a list on contribute.
  function LaterAttributes(req: AttributePathParams, endpoint: nat, cluster: nat, ids: seq<nat>, i: nat): seq<AttributePath>
    decreases |ids| - i
  {
    if i >= |ids| then []
    else
      var p := AttributePath(endpoint, cluster, ids[i]);
      (if req.IsSupersetOf(p) then [p] else []) + LaterAttributes(req, endpoint, cluster, ids, i + 1)
  }

  function OfCluster(node: Node, req: AttributePathParams, endpoint: nat, c: Cluster): seq<AttributePath> {
    LaterAttributes(req, endpoint, c.id, c.attributes, 0) + LaterAttributes(req, endpoint, c.id, node.globals, 0)
  }

  function RestOfAttributes(node: Node, req: AttributePathParams, endpoint: nat, c: Cluster, x: Cursor): seq<AttributePath> {
    if x.attribute < x.attributeEnd then LaterAttributes(req, endpoint, c.id, c.attributes, x.attribute) else []
  }

  function RestOfGlobals(node: Node, req: AttributePathParams, endpoint: nat, c: Cluster, x: Cursor): seq<AttributePath> {
    if x.global < x.globalEnd then LaterAttributes(req, endpoint, c.id, node.globals, x.global) else []
  }

  function RestOfCluster(node: Node, req: AttributePathParams, endpoint: nat, c: Cluster, x: Cursor): seq<AttributePath> {
    if x.AtSentinel() then OfCluster(node, req, endpoint, c)
    else RestOfAttributes(node, req, endpoint, c, x) + RestOfGlobals(node, req, endpoint, c, x)
  }

  // What the clusters of an endpoint from index i on contribute.
  function LaterClusters(node: Node, req: AttributePathParams, e: Endpoint, i: nat): seq<AttributePath>
    decreases |e.clusters| - i
  {
    if i >= |e.clusters| then []
    else OfCluster(node, req, e.id, e.clusters[i]) + LaterClusters(node, req, e, i + 1)
  }

  function OfEndpoint(node: Node, req: AttributePathParams, e: Endpoint): seq<AttributePath> {
    if e.enabled then LaterClusters(node, req, e, 0) else []
  }

  // What the endpoints of the node from index i on contribute.
  function LaterEndpoints(node: Node, req: AttributePathParams, i: nat): seq<AttributePath>
    decreases |node.endpoints| - i
  {
    if i >= |node.endpoints| then [] else OfEndpoint(node, req, node.endpoints[i]) + LaterEndpoints(node, req, i + 1)
  }

  function RestFromCluster(node: Node, req: AttributePathParams, e: Endpoint, x: Cursor): seq<AttributePath> {
    if x.cluster < x.clusterEnd && x.cluster < |e.clusters|
    then RestOfCluster(node, req, e.id, e.clusters[x.cluster], x) + LaterClusters(node, req, e, x.cluster + 1)
    else []
  }

  function RestOfEndpoint(node: Node, req: AttributePathParams, e: Endpoint, x: Cursor): seq<AttributePath> {
    if x.cluster == UINT8_MAX then LaterClusters(node, req, e, 0) else RestFromCluster(node, req, e, x)
  }

  function RestOfRequest(node: Node, req: AttributePathParams, x: Cursor): seq<AttributePath> {
    if x.endpoint < x.endpointEnd && x.endpoint < |node.endpoints| then
      (if node.endpoints[x.endpoint].enabled then RestOfEndpoint(node, req, node.endpoints[x.endpoint], x) else [])
      + LaterEndpoints(node, req, x.endpoint + 1)
    else []
  }

  // The same, for a request that may not have been started.
  function AllOfRequest(node: Node, req: AttributePathParams, x: Cursor): seq<AttributePath> {
    if x.endpoint == UINT16_MAX then Expand(node, req) else RestOfRequest(node, req, x)
  }

  // Every path the iterator has yet to emit.
  function Remaining(node: Node, reqs: seq<AttributePathParams>, x: Cursor): seq<AttributePath> {
    if x.position >= |reqs| then []
    else if x.endpoint == UINT16_MAX then ExpandAll(node, reqs[x.position..])
    else if !reqs[x.position].IsWildcardPath() then ExpandAll(node, reqs[x.position + 1..])
    else RestOfRequest(node, reqs[x.position], x) + ExpandAll(node, reqs[x.position + 1..])
  }

  // ---------- consistency of the indices ----------

  predicate ClusterRange(req: AttributePathParams, e: Endpoint, x: Cursor) {
    && x.cluster <= x.clusterEnd <= |e.clusters|
    && (if req.HasWildcardClusterId() then x.clusterEnd == |e.clusters|
        else x.clusterEnd > 0 && x.cluster >= x.clusterEnd - 1 && e.clusters[x.clusterEnd - 1].id == req.cluster)
  }

  predicate ClusterOk(node: Node, req: AttributePathParams, e: Endpoint, x: Cursor) {
    x.cluster == UINT8_MAX
    || (ClusterRange(req, e, x)
        && (x.cluster < x.clusterEnd ==> x.AtSentinel() || Advanced(node, req, e.clusters[x.cluster], x)))
  }

  predicate EndpointRange(node: Node, req: AttributePathParams, x: Cursor) {
    && x.endpoint <= x.endpointEnd <= |node.endpoints|
    && (if req.HasWildcardEndpointId() then x.endpointEnd == |node.endpoints|
        else x.endpointEnd == 0 || (x.endpoint >= x.endpointEnd - 1 && node.endpoints[x.endpointEnd - 1].id == req.endpoint))
  }

  predicate EndpointOk(node: Node, req: AttributePathParams, x: Cursor) {
    && EndpointRange(node, req, x)
    && (x.endpoint < x.endpointEnd && node.endpoints[x.endpoint].enabled ==>
          ClusterOk(node, req, node.endpoints[x.endpoint], x)
          && (!req.HasWildcardEndpointId() ==> node.endpoints[x.endpoint].id == req.endpoint))
  }

  // The request names a metadata attribute at the one index whose successor is the sentinel.
  predicate NamesLastIndex(req: AttributePathParams, c: Cluster) {
    && !req.HasWildcardAttributeId()
    && IndexOfId(c.attributes, req.attribute, 0) < |c.attributes|
    && IndexOfId(c.attributes, req.attribute, 0) == UINT16_MAX - 1
  }

  // ---------- one cluster ----------

  lemma {:induction false} LaterAttributesAre(req: AttributePathParams, endpoint: nat, cluster: nat, ids: seq<nat>, i: nat)
    requires i <= |ids|
    ensures LaterAttributes(req, endpoint, cluster, ids, i) == Select(req, PathsOf(endpoint, cluster, ids[i..]))
    decreases |ids| - i
  {
    if i < |ids| {
      var ps := PathsOf(endpoint, cluster, ids[i..]);
      assert ps[1..] == PathsOf(endpoint, cluster, ids[i + 1..]);
      LaterAttributesAre(req, endpoint, cluster, ids, i + 1);
    }
  }

  // A cluster contributes its paths that the request covers.
  lemma OfClusterIs(node: Node, req: AttributePathParams, endpoint: nat, c: Cluster)
    ensures OfCluster(node, req, endpoint, c) == Select(req, ClusterPaths(node, endpoint, c))
  {
    assert c.attributes[0..] == c.attributes && node.globals[0..] == node.globals;
    LaterAttributesAre(req, endpoint, c.id, c.attributes, 0);
    LaterAttributesAre(req, endpoint, c.id, node.globals, 0);
    SelectSplit(req, PathsOf(endpoint, c.id, c.attributes), PathsOf(endpoint, c.id, node.globals));
  }

  lemma {:induction false} NoneCovered(req: AttributePathParams, endpoint: nat, cluster: nat, ids: seq<nat>, i: nat)
    requires forall k :: i <= k < |ids| ==> !req.IsSupersetOf(AttributePath(endpoint, cluster, ids[k]))
    ensures LaterAttributes(req, endpoint, cluster, ids, i) == []
    decreases |ids| - i
  {
    if i < |ids| {
      NoneCovered(req, endpoint, cluster, ids, i + 1);
    }
  }

  // With a named attribute all that is contributed is that one, at its index.
  lemma {:induction false} OnlyNamed(req: AttributePathParams, endpoint: nat, cluster: nat, ids: seq<nat>, i: nat, n: nat)
    requires Covers(req, endpoint, cluster) && !req.HasWildcardAttributeId() && Distinct(ids) && i <= n <= |ids|
    requires forall k :: i <= k < n ==> ids[k] != req.attribute
    requires n < |ids| ==> ids[n] == req.attribute
    ensures LaterAttributes(req, endpoint, cluster, ids, i) == if n < |ids| then [AttributePath(endpoint, cluster, ids[n])] else []
    decreases n - i
  {
    if i < n {
      assert !req.IsSupersetOf(AttributePath(endpoint, cluster, ids[i]));
      OnlyNamed(req, endpoint, cluster, ids, i + 1, n);
      return;
    }
    if n < |ids| {
      assert req.IsSupersetOf(AttributePath(endpoint, cluster, ids[n]));
      NoneCovered(req, endpoint, cluster, ids, n + 1);
    }
  }

  lemma {:induction false} SelectAll(req: AttributePathParams, ps: seq<AttributePath>)
    requires forall p :: p in ps ==> req.IsSupersetOf(p)
    ensures Select(req, ps) == ps
  {
    if ps != [] {
      SelectAll(req, ps[1..]);
      assert [ps[0]] + ps[1..] == ps;
    }
  }

  predicate Covers(req: AttributePathParams, endpoint: nat, cluster: nat) {
    (req.HasWildcardEndpointId() || req.endpoint == endpoint) && (req.HasWildcardClusterId() || req.cluster == cluster)
  }

  // Preparing a cluster does not change what is to come from it.
  lemma PreparedRest(node: Node, req: AttributePathParams, endpoint: nat, c: Cluster, x: Cursor)
    requires WellFormedCluster(c, node.globals) && |node.globals| < UINT8_MAX && Distinct(node.globals)
    requires Covers(req, endpoint, c.id) && Prepared(node, req, c, x)
    ensures OfCluster(node, req, endpoint, c) == RestOfAttributes(node, req, endpoint, c, x) + RestOfGlobals(node, req, endpoint, c, x)
    ensures Advanced(node, req, c, x)
  {
    PreparedAdvanced(node, req, c, x);
    if !req.HasWildcardAttributeId() {
      var i, j := IndexOfId(c.attributes, req.attribute, 0), IndexOfId(node.globals, req.attribute, 0);
      OnlyNamed(req, endpoint, c.id, c.attributes, 0, i);
      OnlyNamed(req, endpoint, c.id, c.attributes, i, i);
      OnlyNamed(req, endpoint, c.id, node.globals, 0, j);
      OnlyNamed(req, endpoint, c.id, node.globals, j, j);
    }
  }

  lemma PreparedAdvanced(node: Node, req: AttributePathParams, c: Cluster, x: Cursor)
    requires Prepared(node, req, c, x)
    ensures Advanced(node, req, c, x)
  {
  }

  // Taking the next attribute of a prepared cluster takes the next path.
  lemma TakeWildcardAttribute(node: Node, req: AttributePathParams, endpoint: nat, c: Cluster, x: Cursor)
    requires WellFormedCluster(c, node.globals) && |node.globals| < UINT8_MAX && req.HasWildcardAttributeId()
    requires Covers(req, endpoint, c.id) && Advanced(node, req, c, x) && x.attribute < x.attributeEnd
    ensures x.attribute < |c.attributes| && x.attribute < UINT16_MAX
    ensures var y := x.(attribute := x.attribute + 1);
            && RestOfAttributes(node, req, endpoint, c, x)
               == [AttributePath(endpoint, c.id, c.attributes[x.attribute])] + RestOfAttributes(node, req, endpoint, c, y)
            && Advanced(node, req, c, y) && !y.AtSentinel()
  {
    assert x.attribute + 1 == |c.attributes| ==> LaterAttributes(req, endpoint, c.id, c.attributes, x.attribute + 1) == [];
  }

  lemma TakeNamedAttribute(node: Node, req: AttributePathParams, endpoint: nat, c: Cluster, x: Cursor)
    requires WellFormedCluster(c, node.globals) && |node.globals| < UINT8_MAX && !req.HasWildcardAttributeId()
    requires Covers(req, endpoint, c.id) && Advanced(node, req, c, x) && x.attribute < x.attributeEnd
    ensures x.attribute < |c.attributes| && x.attribute < UINT16_MAX
    ensures var y := x.(attribute := x.attribute + 1);
            && RestOfAttributes(node, req, endpoint, c, x) == [AttributePath(endpoint, c.id, c.attributes[x.attribute])]
            && RestOfGlobals(node, req, endpoint, c, x) == [] && RestOfAttributes(node, req, endpoint, c, y) == []
            && Advanced(node, req, c, y)
            && (y.AtSentinel() <==> NamesLastIndex(req, c))
            && OfCluster(node, req, endpoint, c) == [AttributePath(endpoint, c.id, c.attributes[x.attribute])]
  {
    OnlyNamed(req, endpoint, c.id, c.attributes, x.attribute, x.attribute);
    OnlyNamed(req, endpoint, c.id, c.attributes, 0, x.attribute);
    NoneCovered(req, endpoint, c.id, node.globals, 0);
  }

  lemma TakeAttribute(node: Node, req: AttributePathParams, endpoint: nat, c: Cluster, x: Cursor)
    requires WellFormedCluster(c, node.globals) && |node.globals| < UINT8_MAX
    requires Covers(req, endpoint, c.id) && Advanced(node, req, c, x) && x.attribute < x.attributeEnd
    ensures x.attribute < |c.attributes| && x.attribute < UINT16_MAX
    ensures StepTaken(node, req, endpoint, c, RestOfAttributes(node, req, endpoint, c, x) + RestOfGlobals(node, req, endpoint, c, x),
                      x.(attribute := x.attribute + 1), AttributePath(endpoint, c.id, c.attributes[x.attribute]))
  {
    if req.HasWildcardAttributeId() {
      TakeWildcardAttribute(node, req, endpoint, c, x);
    } else {
      TakeNamedAttribute(node, req, endpoint, c, x);
    }
  }

  lemma TakeGlobalRest(node: Node, req: AttributePathParams, endpoint: nat, c: Cluster, x: Cursor)
    requires WellFormedCluster(c, node.globals) && |node.globals| < UINT8_MAX && Distinct(node.globals)
    requires Covers(req, endpoint, c.id) && Advanced(node, req, c, x)
    requires x.attribute >= x.attributeEnd && x.global < x.globalEnd
    ensures x.global < |node.globals|
    ensures RestOfGlobals(node, req, endpoint, c, x)
         == [AttributePath(endpoint, c.id, node.globals[x.global])] + RestOfGlobals(node, req, endpoint, c, x.(global := x.global + 1))
  {
    assert x.global + 1 == |node.globals| ==> LaterAttributes(req, endpoint, c.id, node.globals, x.global + 1) == [];
    if !req.HasWildcardAttributeId() {
      OnlyNamed(req, endpoint, c.id, node.globals, x.global, x.global);
    }
  }

  lemma TakeGlobal(node: Node, req: AttributePathParams, endpoint: nat, c: Cluster, x: Cursor)
    requires WellFormedCluster(c, node.globals) && |node.globals| < UINT8_MAX && Distinct(node.globals)
    requires Covers(req, endpoint, c.id) && Advanced(node, req, c, x)
    requires x.attribute >= x.attributeEnd && x.global < x.globalEnd
    ensures x.global < |node.globals|
    ensures StepTaken(node, req, endpoint, c, RestOfAttributes(node, req, endpoint, c, x) + RestOfGlobals(node, req, endpoint, c, x),
                      x.(global := x.global + 1), AttributePath(endpoint, c.id, node.globals[x.global]))
  {
    TakeGlobalRest(node, req, endpoint, c, x);
    assert RestOfAttributes(node, req, endpoint, c, x) == [];
  }

  // ---------- clusters and endpoints ----------

  // Read off the indices, what is to come is what the specification selects.
  lemma {:induction false} LaterClustersAre(node: Node, req: AttributePathParams, e: Endpoint, i: nat)
    requires i <= |e.clusters|
    ensures LaterClusters(node, req, e, i) == Select(req, ClustersPaths(node, e.id, e.clusters[i..]))
    decreases |e.clusters| - i
  {
    if i < |e.clusters| {
      var rest := e.clusters[i..];
      assert rest[0] == e.clusters[i] && rest[1..] == e.clusters[i + 1..];
      SelectSplit(req, ClusterPaths(node, e.id, rest[0]), ClustersPaths(node, e.id, rest[1..]));
      OfClusterIs(node, req, e.id, e.clusters[i]);
      LaterClustersAre(node, req, e, i + 1);
    }
  }

  lemma OfEndpointIs(node: Node, req: AttributePathParams, e: Endpoint)
    ensures OfEndpoint(node, req, e) == Select(req, EndpointPaths(node, e))
  {
    assert e.clusters[0..] == e.clusters;
    LaterClustersAre(node, req, e, 0);
  }

  lemma {:induction false} LaterEndpointsAre(node: Node, req: AttributePathParams, i: nat)
    requires i <= |node.endpoints|
    ensures LaterEndpoints(node, req, i) == Select(req, EndpointsPaths(node, node.endpoints[i..]))
    decreases |node.endpoints| - i
  {
    if i < |node.endpoints| {
      var rest := node.endpoints[i..];
      assert rest[0] == node.endpoints[i] && rest[1..] == node.endpoints[i + 1..];
      SelectSplit(req, EndpointPaths(node, rest[0]), EndpointsPaths(node, rest[1..]));
      OfEndpointIs(node, req, rest[0]);
      LaterEndpointsAre(node, req, i + 1);
    }
  }

  lemma EmptyFront(s: seq<AttributePath>)
    ensures [] + s == s
  {
  }

  lemma OtherCluster(node: Node, req: AttributePathParams, endpoint: nat, c: Cluster)
    requires !req.HasWildcardClusterId() && c.id != req.cluster
    ensures OfCluster(node, req, endpoint, c) == []
  {
    NoneCovered(req, endpoint, c.id, c.attributes, 0);
    NoneCovered(req, endpoint, c.id, node.globals, 0);
  }

  // Clusters that the request does not name contribute nothing.
  lemma {:induction false} SkipToCluster(node: Node, req: AttributePathParams, e: Endpoint, i: nat, c: nat)
    requires !req.HasWildcardClusterId() && i <= c <= |e.clusters|
    requires forall k :: i <= k < c ==> e.clusters[k].id != req.cluster
    ensures LaterClusters(node, req, e, i) == LaterClusters(node, req, e, c)
    decreases c - i
  {
    if i < c {
      OtherCluster(node, req, e.id, e.clusters[i]);
      EmptyFront(LaterClusters(node, req, e, i + 1));
      SkipToCluster(node, req, e, i + 1, c);
    }
  }

  lemma OtherEndpoint(node: Node, req: AttributePathParams, e: Endpoint)
    requires !req.HasWildcardEndpointId() && (e.enabled ==> e.id != req.endpoint)
    ensures OfEndpoint(node, req, e) == []
  {
    OfEndpointIs(node, req, e);
    ClustersPathsWithin(node, e.id, e.clusters);
    SelectNone(req, EndpointPaths(node, e));
  }

  lemma {:induction false} SkipToEndpoint(node: Node, req: AttributePathParams, i: nat, e: nat)
    requires !req.HasWildcardEndpointId() && i <= e <= |node.endpoints|
    requires forall k :: i <= k < e && node.endpoints[k].enabled ==> node.endpoints[k].id != req.endpoint
    ensures LaterEndpoints(node, req, i) == LaterEndpoints(node, req, e)
    decreases e - i
  {
    if i < e {
      OtherEndpoint(node, req, node.endpoints[i]);
      EmptyFront(LaterEndpoints(node, req, i + 1));
      SkipToEndpoint(node, req, i + 1, e);
    }
  }

  // Choosing the cluster range of an endpoint does not change what is to come from it.
  lemma PreparedClusters(node: Node, req: AttributePathParams, e: Endpoint, x: Cursor)
    requires |e.clusters| <= UINT8_MAX
    requires x.AtSentinel()
    requires DistinctClusters(e.clusters)
    requires if req.HasWildcardClusterId() then x.cluster == 0 && x.clusterEnd == |e.clusters|
             else x.cluster == IndexOfCluster(e.clusters, req.cluster, 0) && x.clusterEnd == Next8(x.cluster)
    ensures LaterClusters(node, req, e, 0) == RestFromCluster(node, req, e, x)
    ensures x.cluster < x.clusterEnd ==> ClusterRange(req, e, x)
  {
    if !req.HasWildcardClusterId() {
      SkipToCluster(node, req, e, 0, if x.cluster == UINT8_MAX then |e.clusters| else x.cluster);
    }
    PreparedClustersRest(node, req, e, x);
  }

  lemma PreparedClustersRest(node: Node, req: AttributePathParams, e: Endpoint, x: Cursor)
    requires x.AtSentinel() && x.cluster <= UINT8_MAX
    requires if x.cluster == UINT8_MAX then x.clusterEnd == 0 && LaterClusters(node, req, e, |e.clusters|) == LaterClusters(node, req, e, 0)
             else if x.cluster < x.clusterEnd then x.cluster < |e.clusters| && LaterClusters(node, req, e, x.cluster) == LaterClusters(node, req, e, 0)
             else |e.clusters| == 0
    ensures LaterClusters(node, req, e, 0) == RestFromCluster(node, req, e, x)
  {
  }

  // Leaving an exhausted cluster.
  lemma NextCluster(node: Node, req: AttributePathParams, e: Endpoint, x: Cursor)
    requires ClusterRange(req, e, x) && x.cluster < x.clusterEnd
    requires DistinctClusters(e.clusters)
    requires RestOfCluster(node, req, e.id, e.clusters[x.cluster], x) == []
    ensures var y := x.(cluster := x.cluster + 1, attribute := UINT16_MAX, global := UINT8_MAX);
            && RestFromCluster(node, req, e, y) == RestFromCluster(node, req, e, x)
            && ClusterRange(req, e, y)
  {
    if x.cluster + 1 == x.clusterEnd && !req.HasWildcardClusterId() {
      SkipToCluster(node, req, e, x.cluster + 1, |e.clusters|);
    }
    NextClusterRest(node, req, e, x);
  }

  lemma NextClusterRest(node: Node, req: AttributePathParams, e: Endpoint, x: Cursor)
    requires x.cluster < x.clusterEnd <= |e.clusters| && RestOfCluster(node, req, e.id, e.clusters[x.cluster], x) == []
    requires x.cluster + 1 == x.clusterEnd ==> LaterClusters(node, req, e, x.clusterEnd) == []
    ensures var y := x.(cluster := x.cluster + 1, attribute := UINT16_MAX, global := UINT8_MAX);
            RestFromCluster(node, req, e, y) == RestFromCluster(node, req, e, x)
  {
    EmptyFront(LaterClusters(node, req, e, x.cluster + 1));
  }

  predicate EndpointsReset(node: Node, req: AttributePathParams, x: Cursor) {
    if req.HasWildcardEndpointId() then x.endpoint == 0 && x.endpointEnd == |node.endpoints|
    else x.endpoint == EndpointIndex(node, req.endpoint) && x.endpointEnd == Next16(x.endpoint)
  }

  lemma ResetEndpointOk(node: Node, req: AttributePathParams, x: Cursor)
    requires WellFormed(node) && x.cluster == UINT8_MAX && EndpointsReset(node, req, x)
    requires x.endpoint < x.endpointEnd
    ensures EndpointOk(node, req, x)
  {
  }

  // Choosing the endpoint range of a request does not change what is to come from it.
  lemma PreparedEndpoints(node: Node, req: AttributePathParams, x: Cursor)
    requires WellFormed(node) && x.cluster == UINT8_MAX && EndpointsReset(node, req, x)
    ensures Select(req, EndpointsPaths(node, node.endpoints)) == RestOfRequest(node, req, x)
    ensures x.endpoint < x.endpointEnd ==> EndpointOk(node, req, x)
  {
    if x.endpoint < x.endpointEnd {
      ResetEndpointOk(node, req, x);
    }
    assert node.endpoints[0..] == node.endpoints;
    LaterEndpointsAre(node, req, 0);
    LaterAreRest(node, req, x);
  }

  lemma LaterAreRest(node: Node, req: AttributePathParams, x: Cursor)
    requires WellFormed(node) && x.cluster == UINT8_MAX && EndpointsReset(node, req, x)
    ensures LaterEndpoints(node, req, 0) == RestOfRequest(node, req, x)
  {
    if req.HasWildcardEndpointId() {
      return;
    }
    if x.endpoint == UINT16_MAX {
      SkipToEndpoint(node, req, 0, |node.endpoints|);
      return;
    }
    SkipToEndpoint(node, req, 0, x.endpoint);
  }

  // Leaving an exhausted or disabled endpoint.
  lemma NextEndpoint(node: Node, req: AttributePathParams, x: Cursor)
    requires DistinctEndpoints(node.endpoints) && EndpointRange(node, req, x) && x.endpoint < x.endpointEnd
    requires node.endpoints[x.endpoint].enabled ==> RestOfEndpoint(node, req, node.endpoints[x.endpoint], x) == []
    ensures var y := x.(endpoint := x.endpoint + 1, cluster := UINT8_MAX, attribute := UINT16_MAX, global := UINT8_MAX);
            RestOfRequest(node, req, y) == RestOfRequest(node, req, x)
  {
    NoneAfterNamed(node, req, x);
    ExhaustedRest(node, req, x);
    UnpreparedRest(node, req, x);
  }

  // Ids are unique: no endpoint after the one that is named has that id.
  lemma NoneAfterNamed(node: Node, req: AttributePathParams, x: Cursor)
    requires DistinctEndpoints(node.endpoints) && EndpointRange(node, req, x) && x.endpoint < x.endpointEnd
    ensures x.endpoint + 1 == x.endpointEnd ==> LaterEndpoints(node, req, x.endpointEnd) == []
  {
    if x.endpoint + 1 == x.endpointEnd && !req.HasWildcardEndpointId() {
      SkipToEndpoint(node, req, x.endpointEnd, |node.endpoints|);
    }
  }

  lemma NextEndpointOk(node: Node, req: AttributePathParams, x: Cursor)
    requires EndpointRange(node, req, x) && x.endpoint < x.endpointEnd
    ensures EndpointOk(node, req, x.(endpoint := x.endpoint + 1, cluster := UINT8_MAX, attribute := UINT16_MAX, global := UINT8_MAX))
  {
  }

  lemma ExhaustedRest(node: Node, req: AttributePathParams, x: Cursor)
    requires x.endpoint < x.endpointEnd <= |node.endpoints|
    requires node.endpoints[x.endpoint].enabled ==> RestOfEndpoint(node, req, node.endpoints[x.endpoint], x) == []
    ensures RestOfRequest(node, req, x) == LaterEndpoints(node, req, x.endpoint + 1)
  {
    EmptyFront(LaterEndpoints(node, req, x.endpoint + 1));
  }

  // The next endpoint was not looked at yet.
  lemma UnpreparedRest(node: Node, req: AttributePathParams, x: Cursor)
    requires x.endpoint < x.endpointEnd <= |node.endpoints|
    requires x.endpoint + 1 == x.endpointEnd ==> LaterEndpoints(node, req, x.endpointEnd) == []
    ensures var y := x.(endpoint := x.endpoint + 1, cluster := UINT8_MAX, attribute := UINT16_MAX, global := UINT8_MAX);
            RestOfRequest(node, req, y) == LaterEndpoints(node, req, x.endpoint + 1)
  {
  }

  // ---------- the iterator ----------

  datatype Output = Output(path: AttributePath, expanded: bool)

  const NO_OUTPUT := Output(AttributePath(0, 0, 0), false)

  // What one call of Next does to what is to come: it hands out the first path, and drops it
  // unless the request names a metadata attribute at index 65534, where it comes again.
  predicate Took(before: seq<AttributePath>, after: seq<AttributePath>, p: AttributePath, stuck: bool) {
    before != [] && p == before[0] && after == if stuck then before else before[1..]
  }

  lemma TookInFront(before: seq<AttributePath>, after: seq<AttributePath>, p: AttributePath, stuck: bool, rest: seq<AttributePath>)
    requires Took(before, after, p, stuck)
    ensures Took(before + rest, after + rest, p, stuck)
  {
  }

  lemma TookAll(before: seq<AttributePath>, after: seq<AttributePath>, p: AttributePath)
    requires Took(before, after, p, false)
    ensures [p] + after == before
  {
  }

  lemma MoveOver(front: seq<AttributePath>, p: AttributePath, rest: seq<AttributePath>)
    ensures front + ([p] + rest) == (front + [p]) + rest
    ensures (front + [p]) + [] == front + [p]
  {
  }

  // The successor of a uint8_t.
  function Next8(i: nat): nat {
    (i + 1) % 0x100
  }

  lemma NoWrap(i: nat)
    ensures i < UINT8_MAX ==> Next8(i) == i + 1
    ensures i < UINT16_MAX ==> Next16(i) == i + 1
    ensures Next8(UINT8_MAX) == 0 && Next16(UINT16_MAX) == 0
  {
  }

  predicate HasPaths(node: Node, c: Cluster) {
    |c.attributes| + |node.globals| > 0
  }

  // A path of cluster c was handed out, `before` being what was to come from it.
  predicate StepTaken(node: Node, req: AttributePathParams, endpoint: nat, c: Cluster, before: seq<AttributePath>, y: Cursor, p: AttributePath) {
    && Took(before, RestOfCluster(node, req, endpoint, c, y), p, y.AtSentinel())
    && Advanced(node, req, c, y)
    && (y.AtSentinel() <==> NamesLastIndex(req, c))
    && HasPaths(node, c)
    && p.endpoint == endpoint && p.cluster == c.id
  }

  // The invariant of the loop over clusters: `all` is still to come from the endpoint.
  predicate AmongClusters(node: Node, req: AttributePathParams, e: Endpoint, x: Cursor, all: seq<AttributePath>) {
    && RestFromCluster(node, req, e, x) == all
    && (x.cluster < x.clusterEnd ==> ClusterRange(req, e, x) && (x.AtSentinel() || Advanced(node, req, e.clusters[x.cluster], x)))
  }

  lemma AmongClustersNext(node: Node, req: AttributePathParams, e: Endpoint, x: Cursor, y: Cursor, all: seq<AttributePath>)
    requires AmongClusters(node, req, e, x, all) && x.cluster < x.clusterEnd
    requires DistinctClusters(e.clusters)
    requires RestOfCluster(node, req, e.id, e.clusters[x.cluster], x) == []
    requires y.AtSentinel() && y.cluster == x.cluster + 1 && y.clusterEnd == x.clusterEnd
    ensures AmongClusters(node, req, e, y, all)
  {
    NextCluster(node, req, e, x);
    var z := x.(cluster := x.cluster + 1, attribute := UINT16_MAX, global := UINT8_MAX);
    assert RestFromCluster(node, req, e, y) == RestFromCluster(node, req, e, z);
  }

  lemma ClusterCovered(req: AttributePathParams, e: Endpoint, x: Cursor)
    requires ClusterRange(req, e, x) && x.cluster < x.clusterEnd
    ensures req.HasWildcardClusterId() || req.cluster == e.clusters[x.cluster].id
  {
  }

  // A path of endpoint e was handed out, `before` being what was to come from it.
  predicate FoundInEndpoint(node: Node, req: AttributePathParams, e: Endpoint, before: seq<AttributePath>, y: Cursor, p: AttributePath) {
    && Took(before, RestOfEndpoint(node, req, e, y), p, y.AtSentinel())
    && y.cluster != UINT8_MAX && y.cluster < y.clusterEnd && ClusterOk(node, req, e, y)
    && (y.AtSentinel() <==> NamesLastIndex(req, e.clusters[y.cluster]))
    && HasPaths(node, e.clusters[y.cluster])
    && p.endpoint == e.id && p.cluster == e.clusters[y.cluster].id
  }

  lemma AmongClustersFound(node: Node, req: AttributePathParams, e: Endpoint, x: Cursor, y: Cursor, all: seq<AttributePath>, p: AttributePath)
    requires |e.clusters| <= UINT8_MAX
    requires AmongClusters(node, req, e, x, all) && x.cluster < x.clusterEnd
    requires StepTaken(node, req, e.id, e.clusters[x.cluster], RestOfCluster(node, req, e.id, e.clusters[x.cluster], x), y, p)
    requires y.cluster == x.cluster && y.clusterEnd == x.clusterEnd
    ensures FoundInEndpoint(node, req, e, all, y, p)
  {
    ClusterFoundTook(node, req, e, x, y, all, p);
    ClusterFoundOk(node, req, e, x, y);
  }

  lemma ClusterFoundOk(node: Node, req: AttributePathParams, e: Endpoint, x: Cursor, y: Cursor)
    requires |e.clusters| <= UINT8_MAX && ClusterRange(req, e, x) && x.cluster < x.clusterEnd
    requires y.cluster == x.cluster && y.clusterEnd == x.clusterEnd && Advanced(node, req, e.clusters[x.cluster], y)
    ensures y.cluster != UINT8_MAX && y.cluster < y.clusterEnd && ClusterOk(node, req, e, y)
  {
  }

  lemma ClusterFoundTook(node: Node, req: AttributePathParams, e: Endpoint, x: Cursor, y: Cursor, all: seq<AttributePath>, p: AttributePath)
    requires x.cluster < x.clusterEnd && x.cluster < |e.clusters| && x.cluster != UINT8_MAX
    requires var c := e.clusters[x.cluster];
             Took(RestOfCluster(node, req, e.id, c, x), RestOfCluster(node, req, e.id, c, y), p, y.AtSentinel())
    requires RestFromCluster(node, req, e, x) == all && y.cluster == x.cluster && y.clusterEnd == x.clusterEnd
    ensures Took(all, RestOfEndpoint(node, req, e, y), p, y.AtSentinel())
  {
    var c := e.clusters[x.cluster];
    TookInFront(RestOfCluster(node, req, e.id, c, x), RestOfCluster(node, req, e.id, c, y), p, y.AtSentinel(),
                LaterClusters(node, req, e, x.cluster + 1));
  }

  // The invariant of the loop over endpoints: `all` is still to come from the request.
  predicate AmongEndpoints(node: Node, req: AttributePathParams, x: Cursor, all: seq<AttributePath>) {
    && RestOfRequest(node, req, x) == all
    && (x.endpoint < x.endpointEnd ==> EndpointOk(node, req, x))
  }

  lemma AmongEndpointsNext(node: Node, req: AttributePathParams, x: Cursor, y: Cursor, all: seq<AttributePath>)
    requires WellFormed(node) && AmongEndpoints(node, req, x, all) && x.endpoint < x.endpointEnd
    requires node.endpoints[x.endpoint].enabled ==> RestOfEndpoint(node, req, node.endpoints[x.endpoint], x) == []
    requires y.cluster == UINT8_MAX && y.endpoint == x.endpoint + 1 && y.endpointEnd == x.endpointEnd
    ensures AmongEndpoints(node, req, y, all)
  {
    NextEndpoint(node, req, x);
    NextEndpointOk(node, req, x);
    var z := x.(endpoint := x.endpoint + 1, cluster := UINT8_MAX, attribute := UINT16_MAX, global := UINT8_MAX);
    assert RestOfRequest(node, req, y) == RestOfRequest(node, req, z);
  }

  // The indices as they are after a path of a wildcard request was handed out.
  predicate Resting(node: Node, req: AttributePathParams, x: Cursor) {
    && EndpointOk(node, req, x)
    && x.endpoint < x.endpointEnd && node.endpoints[x.endpoint].enabled
    && x.cluster != UINT8_MAX && x.cluster < x.clusterEnd
    && HasPaths(node, node.endpoints[x.endpoint].clusters[x.cluster])
  }

  // The path lies in the cluster the indices stand in.
  predicate LiesHere(node: Node, x: Cursor, p: AttributePath) {
    && x.endpoint < |node.endpoints| && x.cluster < |node.endpoints[x.endpoint].clusters|
    && p.endpoint == node.endpoints[x.endpoint].id
    && p.cluster == node.endpoints[x.endpoint].clusters[x.cluster].id
  }

  // A path of a wildcard request was handed out, `before` being what was to come from it.
  predicate FoundInRequest(node: Node, req: AttributePathParams, before: seq<AttributePath>, y: Cursor, p: AttributePath) {
    && Took(before, RestOfRequest(node, req, y), p, y.AtSentinel())
    && Resting(node, req, y) && LiesHere(node, y, p)
    && (y.AtSentinel() <==> NamesLastIndex(req, node.endpoints[y.endpoint].clusters[y.cluster]))
  }

  lemma EndpointFoundTook(node: Node, req: AttributePathParams, x: Cursor, y: Cursor, all: seq<AttributePath>, p: AttributePath)
    requires x.endpoint < x.endpointEnd && x.endpoint < |node.endpoints| && node.endpoints[x.endpoint].enabled
    requires var e := node.endpoints[x.endpoint];
             Took(RestOfEndpoint(node, req, e, x), RestOfEndpoint(node, req, e, y), p, y.AtSentinel())
    requires RestOfRequest(node, req, x) == all && y.endpoint == x.endpoint && y.endpointEnd == x.endpointEnd
    ensures Took(all, RestOfRequest(node, req, y), p, y.AtSentinel())
  {
    var e, later := node.endpoints[x.endpoint], LaterEndpoints(node, req, x.endpoint + 1);
    TookInFront(RestOfEndpoint(node, req, e, x), RestOfEndpoint(node, req, e, y), p, y.AtSentinel(), later);
    assert RestOfRequest(node, req, x) == RestOfEndpoint(node, req, e, x) + later;
    assert RestOfRequest(node, req, y) == RestOfEndpoint(node, req, e, y) + later;
  }

  lemma AmongEndpointsFound(node: Node, req: AttributePathParams, x: Cursor, y: Cursor, all: seq<AttributePath>, p: AttributePath)
    requires WellFormed(node) && AmongEndpoints(node, req, x, all) && x.endpoint < x.endpointEnd && node.endpoints[x.endpoint].enabled
    requires FoundInEndpoint(node, req, node.endpoints[x.endpoint], RestOfEndpoint(node, req, node.endpoints[x.endpoint], x), y, p)
    requires y.endpoint == x.endpoint && y.endpointEnd == x.endpointEnd
    ensures FoundInRequest(node, req, all, y, p)
  {
    EndpointFoundTook(node, req, x, y, all, p);
    EndpointFoundRests(node, req, x, y);
  }

  lemma EndpointFoundRests(node: Node, req: AttributePathParams, x: Cursor, y: Cursor)
    requires EndpointOk(node, req, x) && x.endpoint < x.endpointEnd && node.endpoints[x.endpoint].enabled
    requires y.endpoint == x.endpoint && y.endpointEnd == x.endpointEnd
    requires y.cluster != UINT8_MAX && y.cluster < y.clusterEnd && ClusterOk(node, req, node.endpoints[x.endpoint], y)
    requires HasPaths(node, node.endpoints[x.endpoint].clusters[y.cluster])
    ensures Resting(node, req, y)
  {
  }

  lemma WildcardRemaining(node: Node, reqs: seq<AttributePathParams>, x: Cursor)
    requires x.position < |reqs| && reqs[x.position].IsWildcardPath()
    ensures Remaining(node, reqs, x) == AllOfRequest(node, reqs[x.position], x) + ExpandAll(node, reqs[x.position + 1..])
  {
    assert reqs[x.position..][0] == reqs[x.position] && reqs[x.position..][1..] == reqs[x.position + 1..];
  }

  lemma WildcardTaken(node: Node, reqs: seq<AttributePathParams>, x: Cursor, y: Cursor, p: AttributePath)
    requires x.position == y.position < |reqs| && reqs[x.position].IsWildcardPath() && y.endpoint != UINT16_MAX
    requires Took(AllOfRequest(node, reqs[x.position], x), RestOfRequest(node, reqs[x.position], y), p, y.AtSentinel())
    ensures Took(Remaining(node, reqs, x), Remaining(node, reqs, y), p, y.AtSentinel())
  {
    WildcardRemaining(node, reqs, x);
    WildcardRemaining(node, reqs, y);
    TookInFront(AllOfRequest(node, reqs[x.position], x), RestOfRequest(node, reqs[x.position], y), p, y.AtSentinel(),
                ExpandAll(node, reqs[x.position + 1..]));
  }

  lemma WildcardExhausted(node: Node, reqs: seq<AttributePathParams>, x: Cursor)
    requires x.position < |reqs| && reqs[x.position].IsWildcardPath() && AllOfRequest(node, reqs[x.position], x) == []
    ensures Remaining(node, reqs, x) == ExpandAll(node, reqs[x.position + 1..])
  {
    WildcardRemaining(node, reqs, x);
    EmptyFront(ExpandAll(node, reqs[x.position + 1..]));
  }

  class AttributePathExpandIterator {
    const node: Node
    const requests: seq<AttributePathParams>
    var position: nat  // which request of the list is being expanded
    var output: Output
    var endpointIndex: nat
    var endEndpointIndex: nat
    var clusterIndex: nat
    var endClusterIndex: nat
    var attributeIndex: nat
    var endAttributeIndex: nat
    var globalAttributeIndex: nat
    var globalAttributeEndIndex: nat

    function Cur(): Cursor
      reads this
    {
      Cursor(position, endpointIndex, endEndpointIndex, clusterIndex, endClusterIndex,
             attributeIndex, endAttributeIndex, globalAttributeIndex, globalAttributeEndIndex)
    }

    // Every path that later calls of Next will emit.
    function ToCome(): seq<AttributePath>
      reads this
    {
      Remaining(node, requests, Cur())
    }

    // Holds throughout.
    predicate Valid()
      reads this
    {
      && WellFormed(node)
      && position <= |requests|
      && (position < |requests| && endpointIndex != UINT16_MAX && requests[position].IsWildcardPath() ==>
            Resting(node, requests[position], Cur()))
    }

    // The iterator stands in a cluster whose attributes it will prepare again.
    predicate Stuck()
      reads this
    {
      && position < |requests| && endpointIndex != UINT16_MAX && requests[position].IsWildcardPath()
      && attributeIndex == UINT16_MAX && globalAttributeIndex == UINT8_MAX
    }

    // The path just handed out is a metadata attribute that the request names at index 65534.
    predicate OnLastIndex()
      reads this
    {
      && position < |requests| && requests[position].IsWildcardPath()
      && endpointIndex < |node.endpoints| && clusterIndex < |node.endpoints[endpointIndex].clusters|
      && NamesLastIndex(requests[position], node.endpoints[endpointIndex].clusters[clusterIndex])
    }

    // The wildcard request being expanded has more paths.
    predicate InRequest()
      reads this
    {
      && position < |requests| && requests[position].IsWildcardPath() && endpointIndex != UINT16_MAX
      && RestOfRequest(node, requests[position], Cur()) != []
    }

    // Holds whenever the iterator is not inside Next.
    predicate Ready()
      reads this
    {
      && Valid()
      && (position < |requests| ==> endpointIndex != UINT16_MAX)
      && (position < |requests| && requests[position].IsWildcardPath() ==> LiesHere(node, Cur(), output.path))
      && (Stuck() <==> OnLastIndex())
      && (Stuck() ==> InRequest() && ToCome() != [] && ToCome()[0] == output.path)
    }

    constructor (node: Node, requests: seq<AttributePathParams>)
      requires WellFormed(node)
      ensures this.node == node && this.requests == requests && Ready()
      ensures var all := ExpandAll(node, requests);
              if all == [] then position == |requests| && ToCome() == [] && !Stuck()
              else position < |requests| && Took(all, ToCome(), output.path, Stuck())
      ensures position <= |requests| && ExpandAll(node, requests) == ExpandAll(node, requests[position..])
    {
      this.node := node;
      this.requests := requests;
      position := 0;
      output := NO_OUTPUT;
      endpointIndex, endEndpointIndex := UINT16_MAX, 0;
      clusterIndex, endClusterIndex := UINT8_MAX, 0;
      attributeIndex, endAttributeIndex := UINT16_MAX, 0;
      globalAttributeIndex, globalAttributeEndIndex := UINT8_MAX, 0;
      new;
      assert requests[0..] == requests;
      var more := Next();
    }

    // Whether a path is available, and which.
    method Get() returns (path: Output, valid: bool)
      ensures path == output && valid == (position < |requests|)
    {
      path := output;
      valid := position < |requests|;
    }

    method PrepareEndpointIndexRange(req: AttributePathParams)
      requires WellFormed(node)
      modifies this`endpointIndex, this`endEndpointIndex
      ensures if req.HasWildcardEndpointId() then endpointIndex == 0 && endEndpointIndex == |node.endpoints|
              else endpointIndex == EndpointIndex(node, req.endpoint) && endEndpointIndex == Next16(endpointIndex)
    {
      if req.HasWildcardEndpointId() {
        endpointIndex := 0;
        endEndpointIndex := |node.endpoints|;
      } else {
        endpointIndex := EndpointIndex(node, req.endpoint);
        endEndpointIndex := Next16(endpointIndex);
      }
    }

    method PrepareClusterIndexRange(req: AttributePathParams, endpointId: nat)
      modifies this`clusterIndex, this`endClusterIndex
      ensures if req.HasWildcardClusterId() then clusterIndex == 0 && endClusterIndex == ClusterCount(node, endpointId)
              else clusterIndex == ClusterIndex(node, endpointId, req.cluster) && endClusterIndex == Next8(clusterIndex)
    {
      if req.HasWildcardClusterId() {
        clusterIndex := 0;
        endClusterIndex := ClusterCount(node, endpointId);
      } else {
        clusterIndex := ClusterIndex(node, endpointId, req.cluster);
        endClusterIndex := Next8(clusterIndex);
      }
    }

    method PrepareAttributeIndexRange(req: AttributePathParams, endpointId: nat, clusterId: nat)
      requires WellFormed(node)
      requires FindServerCluster(node, endpointId, clusterId).Some?
      requires WellFormedCluster(FindServerCluster(node, endpointId, clusterId).value, node.globals)
      modifies this`attributeIndex, this`endAttributeIndex, this`globalAttributeIndex, this`globalAttributeEndIndex
      ensures Prepared(node, req, FindServerCluster(node, endpointId, clusterId).value, Cur())
    {
      if req.HasWildcardAttributeId() {
        attributeIndex := 0;
        endAttributeIndex := ServerAttributeCount(node, endpointId, clusterId);
        globalAttributeIndex := 0;
        globalAttributeEndIndex := |node.globals|;
      } else {
        attributeIndex := ServerAttributeIndex(node, endpointId, clusterId, req.attribute);
        endAttributeIndex := Next16(attributeIndex);
        if attributeIndex == UINT16_MAX {
          globalAttributeIndex := UINT8_MAX;
          var idx := 0;
          while idx < |node.globals|
            invariant 0 <= idx <= |node.globals|
            invariant globalAttributeIndex == UINT8_MAX
            invariant forall k :: 0 <= k < idx ==> node.globals[k] != req.attribute
            invariant attributeIndex == UINT16_MAX && endAttributeIndex == 0
          {
            if node.globals[idx] == req.attribute {
              globalAttributeIndex := idx;
              break;
            }
            idx := idx + 1;
          }
          globalAttributeEndIndex := Next8(globalAttributeIndex);
        } else {
          globalAttributeIndex := UINT8_MAX;
          globalAttributeEndIndex := 0;
        }
      }
    }

    // Both kinds of attributes of the prepared cluster, as the indices stand.
    function RestHere(req: AttributePathParams, endpointId: nat, c: Cluster): seq<AttributePath>
      reads this
    {
      RestOfAttributes(node, req, endpointId, c, Cur()) + RestOfGlobals(node, req, endpointId, c, Cur())
    }

    method EnsurePrepared(req: AttributePathParams, endpointId: nat, clusterId: nat, ghost c: Cluster)
      requires WellFormed(node) && WellFormedCluster(c, node.globals)
      requires FindServerCluster(node, endpointId, clusterId) == Some(c) && c.id == clusterId
      requires Covers(req, endpointId, clusterId)
      requires Cur().AtSentinel() || Advanced(node, req, c, Cur())
      modifies this`attributeIndex, this`endAttributeIndex, this`globalAttributeIndex, this`globalAttributeEndIndex
      ensures Advanced(node, req, c, Cur())
      ensures RestHere(req, endpointId, c) == old(RestOfCluster(node, req, endpointId, c, Cur()))
    {
      if attributeIndex == UINT16_MAX && globalAttributeIndex == UINT8_MAX {
        PrepareAttributeIndexRange(req, endpointId, clusterId);
        PreparedRest(node, req, endpointId, c, Cur());
      }
    }

    method EmitAttribute(req: AttributePathParams, endpointId: nat, clusterId: nat, ghost c: Cluster)
      requires WellFormed(node) && WellFormedCluster(c, node.globals)
      requires FindServerCluster(node, endpointId, clusterId) == Some(c) && c.id == clusterId
      requires Covers(req, endpointId, clusterId)
      requires Advanced(node, req, c, Cur()) && attributeIndex < endAttributeIndex
      modifies this`attributeIndex, this`output
      ensures output.expanded == old(output.expanded)
      ensures StepTaken(node, req, endpointId, c, old(RestHere(req, endpointId, c)), Cur(), output.path)
    {
      ghost var x := Cur();
      TakeAttribute(node, req, endpointId, c, x);
      NoWrap(attributeIndex);
      output := output.(path := AttributePath(endpointId, clusterId, ServerAttributeIdByIndex(node, endpointId, clusterId, attributeIndex).value));
      attributeIndex := Next16(attributeIndex);
      assert Cur() == x.(attribute := x.attribute + 1);
    }

    method EmitGlobal(req: AttributePathParams, endpointId: nat, clusterId: nat, ghost c: Cluster)
      requires WellFormed(node) && WellFormedCluster(c, node.globals)
      requires c.id == clusterId && Covers(req, endpointId, clusterId)
      requires Advanced(node, req, c, Cur()) && attributeIndex >= endAttributeIndex && globalAttributeIndex < globalAttributeEndIndex
      modifies this`globalAttributeIndex, this`output
      ensures output.expanded == old(output.expanded)
      ensures StepTaken(node, req, endpointId, c, old(RestHere(req, endpointId, c)), Cur(), output.path)
    {
      ghost var x := Cur();
      TakeGlobal(node, req, endpointId, c, x);
      NoWrap(globalAttributeIndex);
      output := output.(path := AttributePath(endpointId, clusterId, node.globals[globalAttributeIndex]));
      globalAttributeIndex := Next8(globalAttributeIndex);
      assert Cur() == x.(global := x.global + 1);
    }

    method Take(req: AttributePathParams, endpointId: nat, clusterId: nat, ghost c: Cluster) returns (found: bool)
      requires WellFormed(node) && WellFormedCluster(c, node.globals)
      requires FindServerCluster(node, endpointId, clusterId) == Some(c) && c.id == clusterId
      requires Covers(req, endpointId, clusterId)
      requires Advanced(node, req, c, Cur())
      modifies this`attributeIndex, this`globalAttributeIndex, this`output
      ensures output.expanded == old(output.expanded)
      ensures found ==> StepTaken(node, req, endpointId, c, old(RestHere(req, endpointId, c)), Cur(), output.path)
      ensures !found ==> old(RestHere(req, endpointId, c)) == [] && output == old(output)
    {
      found := attributeIndex < endAttributeIndex || globalAttributeIndex < globalAttributeEndIndex;
      if attributeIndex < endAttributeIndex {
        EmitAttribute(req, endpointId, clusterId, c);
      } else if globalAttributeIndex < globalAttributeEndIndex {
        EmitGlobal(req, endpointId, clusterId, c);
      }
    }

    // The body of the cluster loop: the next path of the current cluster, if there is one.
    method NextInCluster(req: AttributePathParams, endpointId: nat, clusterId: nat, ghost c: Cluster) returns (found: bool)
      requires WellFormed(node) && WellFormedCluster(c, node.globals)
      requires FindServerCluster(node, endpointId, clusterId) == Some(c) && c.id == clusterId
      requires Covers(req, endpointId, clusterId)
      requires Cur().AtSentinel() || Advanced(node, req, c, Cur())
      modifies this`attributeIndex, this`endAttributeIndex, this`globalAttributeIndex, this`globalAttributeEndIndex, this`output
      ensures output.expanded == old(output.expanded)
      ensures found ==> StepTaken(node, req, endpointId, c, old(RestOfCluster(node, req, endpointId, c, Cur())), Cur(), output.path)
      ensures !found ==> old(RestOfCluster(node, req, endpointId, c, Cur())) == [] && output == old(output)
    {
      EnsurePrepared(req, endpointId, clusterId, c);
      found := Take(req, endpointId, clusterId, c);
    }

    method EnsureClusters(req: AttributePathParams, endpointId: nat, ghost e: Endpoint, ghost k: nat)
      requires WellFormed(node) && k < |node.endpoints| && e == node.endpoints[k] && e.enabled && endpointId == e.id
      requires ClusterOk(node, req, e, Cur())
      modifies this`clusterIndex, this`endClusterIndex, this`attributeIndex, this`globalAttributeIndex
      ensures AmongClusters(node, req, e, Cur(), old(RestOfEndpoint(node, req, e, Cur())))
    {
      if clusterIndex == UINT8_MAX {
        LookupEndpoint(node, k);
        LookupClusterIndex(node, k, req.cluster, 0);
        PrepareClusterIndexRange(req, endpointId);
        attributeIndex := UINT16_MAX;
        globalAttributeIndex := UINT8_MAX;
        PreparedClusters(node, req, e, Cur());
      }
    }

    // One round of the loop over clusters, with its step to the next cluster.
    method VisitCluster(req: AttributePathParams, endpointId: nat, ghost e: Endpoint, ghost k: nat, ghost all: seq<AttributePath>) returns (found: bool)
      requires WellFormed(node) && k < |node.endpoints| && e == node.endpoints[k] && e.enabled && endpointId == e.id
      requires req.HasWildcardEndpointId() || req.endpoint == endpointId
      requires AmongClusters(node, req, e, Cur(), all) && clusterIndex < endClusterIndex
      modifies this`clusterIndex, this`attributeIndex, this`endAttributeIndex,
               this`globalAttributeIndex, this`globalAttributeEndIndex, this`output
      ensures output.expanded == old(output.expanded)
      ensures found ==> FoundInEndpoint(node, req, e, all, Cur(), output.path)
      ensures !found ==> && AmongClusters(node, req, e, Cur(), all) && output == old(output)
                         && clusterIndex == old(clusterIndex) + 1
    {
      ghost var x := Cur();
      LookupEndpoint(node, k);
      LookupCluster(node, k, clusterIndex);
      ClusterCovered(req, e, x);
      var clusterId := NthClusterId(node, endpointId, clusterIndex).value;
      found := NextInCluster(req, endpointId, clusterId, e.clusters[clusterIndex]);
      if found {
        AmongClustersFound(node, req, e, x, Cur(), all, output.path);
        return;
      }
      NoWrap(clusterIndex);
      clusterIndex := Next8(clusterIndex);
      attributeIndex := UINT16_MAX;
      globalAttributeIndex := UINT8_MAX;
      AmongClustersNext(node, req, e, x, Cur(), all);
    }

    // The loop over the clusters of an enabled endpoint.
    method NextInEndpoint(req: AttributePathParams, endpointId: nat, ghost e: Endpoint, ghost k: nat) returns (found: bool)
      requires WellFormed(node) && k < |node.endpoints| && e == node.endpoints[k] && e.enabled && endpointId == e.id
      requires req.HasWildcardEndpointId() || req.endpoint == endpointId
      requires ClusterOk(node, req, e, Cur())
      modifies this`clusterIndex, this`endClusterIndex, this`attributeIndex, this`endAttributeIndex,
               this`globalAttributeIndex, this`globalAttributeEndIndex, this`output
      ensures output.expanded == old(output.expanded)
      ensures found ==> FoundInEndpoint(node, req, e, old(RestOfEndpoint(node, req, e, Cur())), Cur(), output.path)
      ensures !found ==> old(RestOfEndpoint(node, req, e, Cur())) == [] && output == old(output)
    {
      ghost var all := RestOfEndpoint(node, req, e, Cur());
      EnsureClusters(req, endpointId, e, k);
      while clusterIndex < endClusterIndex
        invariant output == old(output)
        invariant AmongClusters(node, req, e, Cur(), all)
        decreases endClusterIndex - clusterIndex
      {
        found := VisitCluster(req, endpointId, e, k, all);
        if found {
          return;
        }
      }
      found := false;
    }

    // One round of the loop over endpoints, with its step to the next endpoint.
    method VisitEndpoint(req: AttributePathParams, ghost all: seq<AttributePath>) returns (found: bool)
      requires WellFormed(node)
      requires AmongEndpoints(node, req, Cur(), all) && endpointIndex < endEndpointIndex
      modifies this`endpointIndex, this`clusterIndex, this`endClusterIndex, this`attributeIndex, this`endAttributeIndex,
               this`globalAttributeIndex, this`globalAttributeEndIndex, this`output
      ensures output.expanded == old(output.expanded)
      ensures found ==> FoundInRequest(node, req, all, Cur(), output.path)
      ensures !found ==> && AmongEndpoints(node, req, Cur(), all) && output == old(output)
                         && endpointIndex == old(endpointIndex) + 1
    {
      ghost var x := Cur();
      if node.endpoints[endpointIndex].enabled {
        var endpointId := node.endpoints[endpointIndex].id;
        found := NextInEndpoint(req, endpointId, node.endpoints[endpointIndex], endpointIndex);
        if found {
          AmongEndpointsFound(node, req, x, Cur(), all, output.path);
          return;
        }
      }
      LeaveEndpoint(req, x, all);
      found := false;
    }

    method LeaveEndpoint(req: AttributePathParams, ghost x: Cursor, ghost all: seq<AttributePath>)
      requires WellFormed(node) && AmongEndpoints(node, req, x, all)
      requires x.endpoint == endpointIndex < endEndpointIndex == x.endpointEnd
      requires node.endpoints[endpointIndex].enabled ==> RestOfEndpoint(node, req, node.endpoints[endpointIndex], x) == []
      modifies this`endpointIndex, this`clusterIndex, this`attributeIndex, this`globalAttributeIndex
      ensures AmongEndpoints(node, req, Cur(), all) && endpointIndex == old(endpointIndex) + 1
    {
      NoWrap(endpointIndex);
      endpointIndex := Next16(endpointIndex);
      clusterIndex := UINT8_MAX;
      attributeIndex := UINT16_MAX;
      globalAttributeIndex := UINT8_MAX;
      AmongEndpointsNext(node, req, x, Cur(), all);
    }

    // The loop over the endpoints of a wildcard request.
    method NextInRequest(req: AttributePathParams, ghost all: seq<AttributePath>) returns (found: bool)
      requires WellFormed(node) && AmongEndpoints(node, req, Cur(), all)
      modifies this`endpointIndex, this`clusterIndex, this`endClusterIndex, this`attributeIndex, this`endAttributeIndex,
               this`globalAttributeIndex, this`globalAttributeEndIndex, this`output
      ensures output.expanded == old(output.expanded)
      ensures found ==> FoundInRequest(node, req, all, Cur(), output.path)
      ensures !found ==> all == [] && output == old(output)
    {
      while endpointIndex < endEndpointIndex
        invariant output == old(output)
        invariant AmongEndpoints(node, req, Cur(), all)
        decreases endEndpointIndex - endpointIndex
      {
        found := VisitEndpoint(req, all);
        if found {
          return;
        }
      }
      found := false;
    }

    method VisitWildcardRequest(req: AttributePathParams) returns (found: bool)
      requires WellFormed(node) && req.IsWildcardPath()
      requires endpointIndex != UINT16_MAX ==> Resting(node, req, Cur())
      modifies this`endpointIndex, this`endEndpointIndex, this`clusterIndex, this`endClusterIndex, this`attributeIndex, this`endAttributeIndex,
               this`globalAttributeIndex, this`globalAttributeEndIndex, this`output
      ensures output.expanded == old(output.expanded)
      ensures var all := AllOfRequest(node, req, old(Cur()));
              if found then FoundInRequest(node, req, all, Cur(), output.path) else all == [] && output == old(output)
    {
      ghost var all := AllOfRequest(node, req, Cur());
      if endpointIndex == UINT16_MAX {
        PrepareEndpointIndexRange(req);
        clusterIndex := UINT8_MAX;
        PreparedEndpoints(node, req, Cur());
      }
      found := NextInRequest(req, all);
    }

    // A wildcard request, seen from all that is to come.
    method VisitWildcard(req: AttributePathParams) returns (found: bool)
      requires WellFormed(node) && position < |requests| && requests[position] == req && req.IsWildcardPath()
      requires endpointIndex != UINT16_MAX ==> Resting(node, req, Cur())
      modifies this`endpointIndex, this`endEndpointIndex, this`clusterIndex, this`endClusterIndex, this`attributeIndex, this`endAttributeIndex,
               this`globalAttributeIndex, this`globalAttributeEndIndex, this`output
      ensures output.expanded == old(output.expanded)
      ensures found ==> && Took(old(ToCome()), ToCome(), output.path, Cur().AtSentinel())
                        && Resting(node, req, Cur()) && LiesHere(node, Cur(), output.path) && endpointIndex != UINT16_MAX
                        && (Cur().AtSentinel() ==> RestOfRequest(node, req, Cur()) != [])
                        && (Cur().AtSentinel() <==> NamesLastIndex(req, node.endpoints[endpointIndex].clusters[clusterIndex]))
      ensures !found ==> AllOfRequest(node, req, old(Cur())) == [] && old(ToCome()) == ExpandAll(node, requests[position + 1..])
    {
      ghost var x := Cur();
      found := VisitWildcardRequest(req);
      if found {
        WildcardTaken(node, requests, x, Cur(), output.path);
        return;
      }
      WildcardExhausted(node, requests, x);
    }

    // One round of the loop over the requests, with its step to the next request.
    method VisitRequest() returns (found: bool)
      requires Valid() && position < |requests|
      modifies this
      ensures Valid()
      ensures found ==> && Took(old(ToCome()), ToCome(), output.path, Stuck())
                        && position == old(position) && output.expanded == requests[position].IsWildcardPath()
                        && Ready()
      ensures !found ==> !old(InRequest()) && ToCome() == old(ToCome()) && position == old(position) + 1 && endpointIndex == UINT16_MAX
    {
      var req := requests[position];
      assert requests[position..][0] == req && requests[position..][1..] == requests[position + 1..];
      output := output.(expanded := req.IsWildcardPath());
      if endpointIndex == UINT16_MAX && !req.IsWildcardPath() {
        output := output.(path := AttributePath(req.endpoint, req.cluster, req.attribute));
        endpointIndex := 0;
        endEndpointIndex := 0;
        return true;
      }
      if !req.IsWildcardPath() {
        position := position + 1;
        endpointIndex := UINT16_MAX;
        return false;
      }
      found := VisitWildcard(req);
      if found {
        return;
      }
      position := position + 1;
      endpointIndex := UINT16_MAX;
    }

    // Moves to the next path; false once every request is exhausted.
    method Next() returns (more: bool)
      requires Valid()
      modifies this
      ensures Ready()
      ensures more <==> old(ToCome()) != []
      ensures more ==> && position < |requests| && output.expanded == requests[position].IsWildcardPath()
                       && Took(old(ToCome()), ToCome(), output.path, Stuck())
      ensures old(InRequest()) ==> position == old(position)
      ensures old(position) <= position <= |requests|
      ensures position > old(position) ==> old(ToCome()) == ExpandAll(node, requests[position..])
      ensures !more ==> position == |requests| && output == NO_OUTPUT && ToCome() == []
    {
      while position < |requests|
        invariant Valid() && ToCome() == old(ToCome())
        invariant old(InRequest()) ==> InRequest() && position == old(position)
        invariant old(position) <= position && (position > old(position) ==> endpointIndex == UINT16_MAX)
        decreases |requests| - position
      {
        more := VisitRequest();
        if more {
          return;
        }
      }
      output := NO_OUTPUT;
      more := false;
    }

    // Goes back to the first attribute of the current cluster when a wildcard attribute is being
    // expanded: what is to come is then the expansion from that cluster on.
    method ResetCurrentCluster()
      requires Ready()
      modifies this
      ensures Ready()
      ensures if old(position) < |requests| && requests[old(position)].HasWildcardAttributeId() then
                var e, c := old(endpointIndex), old(clusterIndex);
                var here := ClusterPaths(node, node.endpoints[e].id, node.endpoints[e].clusters[c]);
                && here != [] && output.path == here[0] && output.path.Cluster() == old(output.path.Cluster())
                && [output.path] + ToCome() == FromCluster(node, requests, old(position), e, c)
              else
                Cur() == old(Cur()) && output == old(output)
    {
      if position >= |requests| || !requests[position].HasWildcardAttributeId() {
        return;
      }
      ghost var pos, req, e, c := position, requests[position], endpointIndex, clusterIndex;
      attributeIndex := UINT16_MAX;
      globalAttributeIndex := UINT8_MAX;
      FirstOfCluster(node, requests, pos, e, c, Cur());
      ghost var all := ToCome();
      var more := Next();
      TookAll(all, ToCome(), output.path);
    }
  }

  // What a request list expands to from cluster c of endpoint e of request pos on.
  function FromCluster(node: Node, reqs: seq<AttributePathParams>, pos: nat, e: nat, c: nat): seq<AttributePath>
    requires pos < |reqs| && e < |node.endpoints| && c < |node.endpoints[e].clusters|
  {
    var req, ep := reqs[pos], node.endpoints[e];
    OfCluster(node, req, ep.id, ep.clusters[c]) + LaterClusters(node, req, ep, c + 1)
    + LaterEndpoints(node, req, e + 1) + ExpandAll(node, reqs[pos + 1..])
  }

  lemma FirstOfCluster(node: Node, reqs: seq<AttributePathParams>, pos: nat, e: nat, c: nat, x: Cursor)
    requires WellFormed(node) && pos < |reqs| && reqs[pos].HasWildcardAttributeId() && Resting(node, reqs[pos], x)
    requires x.AtSentinel() && x.position == pos && x.endpoint == e && x.cluster == c
    ensures Remaining(node, reqs, x) == FromCluster(node, reqs, pos, e, c)
    ensures var here := ClusterPaths(node, node.endpoints[e].id, node.endpoints[e].clusters[c]);
            here != [] && RestOfRequest(node, reqs[pos], x) != [] && Remaining(node, reqs, x)[0] == here[0]
  {
    RemainingFrom(node, reqs, pos, e, c, x);
    WildcardRemaining(node, reqs, x);
    FirstPath(node, reqs[pos], e, c, x, ExpandAll(node, reqs[pos + 1..]));
  }

  lemma RemainingFrom(node: Node, reqs: seq<AttributePathParams>, pos: nat, e: nat, c: nat, x: Cursor)
    requires pos < |reqs| && reqs[pos].IsWildcardPath()
    requires e < |node.endpoints| && e != UINT16_MAX && node.endpoints[e].enabled && c < |node.endpoints[e].clusters| && c != UINT8_MAX
    requires x.position == pos && x.endpoint == e < x.endpointEnd && x.cluster == c < x.clusterEnd && x.AtSentinel()
    ensures Remaining(node, reqs, x) == FromCluster(node, reqs, pos, e, c)
  {
    FirstOfRequest(node, reqs[pos], e, c, x);
    WildcardRemaining(node, reqs, x);
  }

  lemma FrontStays(a: seq<AttributePath>, b: seq<AttributePath>, c: seq<AttributePath>, d: seq<AttributePath>)
    requires a != []
    ensures (a + b) + c != [] && (((a + b) + c) + d)[0] == a[0]
  {
  }

  lemma FirstOfRequest(node: Node, req: AttributePathParams, e: nat, c: nat, x: Cursor)
    requires e < |node.endpoints| && node.endpoints[e].enabled && c < |node.endpoints[e].clusters| && c != UINT8_MAX
    requires x.endpoint == e < x.endpointEnd && x.cluster == c < x.clusterEnd && x.AtSentinel()
    ensures var ep := node.endpoints[e];
            RestOfRequest(node, req, x)
            == OfCluster(node, req, ep.id, ep.clusters[c]) + LaterClusters(node, req, ep, c + 1) + LaterEndpoints(node, req, e + 1)
  {
  }

  lemma FirstPath(node: Node, req: AttributePathParams, e: nat, c: nat, x: Cursor, rest: seq<AttributePath>)
    requires WellFormed(node) && req.HasWildcardAttributeId() && Resting(node, req, x)
    requires x.AtSentinel() && x.endpoint == e && x.cluster == c
    ensures var here := ClusterPaths(node, node.endpoints[e].id, node.endpoints[e].clusters[c]);
            here != [] && RestOfRequest(node, req, x) != [] && (RestOfRequest(node, req, x) + rest)[0] == here[0]
  {
    var ep := node.endpoints[e];
    ClusterCovered(req, ep, x);
    SelectAll(req, ClusterPaths(node, ep.id, ep.clusters[c]));
    OfClusterIs(node, req, ep.id, ep.clusters[c]);
    FirstOfRequest(node, req, e, c, x);
    FrontStays(ClusterPaths(node, ep.id, ep.clusters[c]), LaterClusters(node, req, ep, c + 1), LaterEndpoints(node, req, e + 1), rest);
  }

  lemma {:induction false} ExpandAllSplit(node: Node, xs: seq<AttributePathParams>, ys: seq<AttributePathParams>)
    ensures ExpandAll(node, xs + ys) == ExpandAll(node, xs) + ExpandAll(node, ys)
  {
    if xs == [] {
      assert xs + ys == ys;
    } else {
      assert (xs + ys)[1..] == xs[1..] + ys;
      ExpandAllSplit(node, xs[1..], ys);
    }
  }

  lemma ThreeParts(a: seq<AttributePath>, b: seq<AttributePath>, c: seq<AttributePath>)
    ensures a + (b + c) == (a + b) + c
  {
  }

  lemma {:induction false} ClustersSuffix(node: Node, req: AttributePathParams, ep: Endpoint, i: nat, c: nat) returns (front: seq<AttributePath>)
    requires i <= c <= |ep.clusters|
    ensures LaterClusters(node, req, ep, i) == front + LaterClusters(node, req, ep, c)
    decreases c - i
  {
    if i == c {
      front := [];
      EmptyFront(LaterClusters(node, req, ep, c));
      return;
    }
    var more := ClustersSuffix(node, req, ep, i + 1, c);
    ThreeParts(OfCluster(node, req, ep.id, ep.clusters[i]), more, LaterClusters(node, req, ep, c));
    front := OfCluster(node, req, ep.id, ep.clusters[i]) + more;
  }

  lemma {:induction false} EndpointsSuffix(node: Node, req: AttributePathParams, i: nat, e: nat) returns (front: seq<AttributePath>)
    requires i <= e <= |node.endpoints|
    ensures LaterEndpoints(node, req, i) == front + LaterEndpoints(node, req, e)
    decreases e - i
  {
    if i == e {
      front := [];
      EmptyFront(LaterEndpoints(node, req, e));
      return;
    }
    var more := EndpointsSuffix(node, req, i + 1, e);
    ThreeParts(OfEndpoint(node, req, node.endpoints[i]), more, LaterEndpoints(node, req, e));
    front := OfEndpoint(node, req, node.endpoints[i]) + more;
  }

  lemma ExpandIsLater(node: Node, req: AttributePathParams)
    requires req.IsWildcardPath()
    ensures Expand(node, req) == LaterEndpoints(node, req, 0)
  {
    assert node.endpoints[0..] == node.endpoints;
    LaterEndpointsAre(node, req, 0);
  }

  lemma RequestsSuffix(node: Node, reqs: seq<AttributePathParams>, pos: nat) returns (front: seq<AttributePath>)
    requires pos < |reqs|
    ensures ExpandAll(node, reqs) == front + (Expand(node, reqs[pos]) + ExpandAll(node, reqs[pos + 1..]))
  {
    assert reqs == reqs[..pos] + reqs[pos..] && reqs[pos..][0] == reqs[pos] && reqs[pos..][1..] == reqs[pos + 1..];
    ExpandAllSplit(node, reqs[..pos], reqs[pos..]);
    front := ExpandAll(node, reqs[..pos]);
  }

  lemma Nested(f1: seq<AttributePath>, f2: seq<AttributePath>, f3: seq<AttributePath>,
               a: seq<AttributePath>, b: seq<AttributePath>, c: seq<AttributePath>, d: seq<AttributePath>)
    ensures f1 + ((f2 + ((f3 + (a + b)) + c)) + d) == (f1 + f2 + f3) + (a + b + c + d)
  {
  }

  // The expansion from a cluster on is the end of the whole expansion.
  lemma FromClusterIsSuffix(node: Node, reqs: seq<AttributePathParams>, pos: nat, e: nat, c: nat) returns (front: seq<AttributePath>)
    requires pos < |reqs| && reqs[pos].IsWildcardPath()
    requires e < |node.endpoints| && node.endpoints[e].enabled && c < |node.endpoints[e].clusters|
    ensures ExpandAll(node, reqs) == front + FromCluster(node, reqs, pos, e, c)
  {
    var req, ep := reqs[pos], node.endpoints[e];
    var f1 := RequestsSuffix(node, reqs, pos);
    ExpandIsLater(node, req);
    var f2 := EndpointsSuffix(node, req, 0, e);
    var f3 := ClustersSuffix(node, req, ep, 0, c);
    front := f1 + f2 + f3;
    Nested(f1, f2, f3, OfCluster(node, req, ep.id, ep.clusters[c]), LaterClusters(node, req, ep, c + 1),
           LaterEndpoints(node, req, e + 1), ExpandAll(node, reqs[pos + 1..]));
  }

  // ---------- whole iterations ----------

  // A wildcard request that covers a cluster of an enabled endpoint and names the attribute at its
  // last index.
  predicate BlocksAt(node: Node, req: AttributePathParams, e: nat, c: nat) {
    && req.IsWildcardPath()
    && e < |node.endpoints| && node.endpoints[e].enabled && c < |node.endpoints[e].clusters|
    && Covers(req, node.endpoints[e].id, node.endpoints[e].clusters[c].id)
    && NamesLastIndex(req, node.endpoints[e].clusters[c])
  }

  ghost predicate Blocked(node: Node, reqs: seq<AttributePathParams>) {
    exists r, e, c :: 0 <= r < |reqs| && BlocksAt(node, reqs[r], e, c)
  }

  function BlockingPath(node: Node, req: AttributePathParams, e: nat, c: nat): AttributePath
    requires BlocksAt(node, req, e, c)
  {
    AttributePath(node.endpoints[e].id, node.endpoints[e].clusters[c].id, req.attribute)
  }

  // That path is one the request expands to.
  lemma BlockingExpands(node: Node, req: AttributePathParams, e: nat, c: nat)
    requires WellFormed(node) && BlocksAt(node, req, e, c)
    ensures BlockingPath(node, req, e, c) in Expand(node, req)
  {
    var ep, cl := node.endpoints[e], node.endpoints[e].clusters[c];
    var front := FromClusterIsSuffix(node, [req], 0, e, c);
    OnlyNamed(req, ep.id, cl.id, cl.attributes, 0, IndexOfId(cl.attributes, req.attribute, 0));
    assert BlockingPath(node, req, e, c) in OfCluster(node, req, ep.id, cl);
    assert [req][1..] == [] && ExpandAll(node, [req]) == Expand(node, req);
  }

  // Ids are unique: the path names the cluster it lies in.
  lemma LiesOnlyHere(node: Node, e: nat, c: nat, x: Cursor, p: AttributePath)
    requires WellFormed(node) && LiesHere(node, x, p)
    requires e < |node.endpoints| && c < |node.endpoints[e].clusters|
    requires p.endpoint == node.endpoints[e].id && p.cluster == node.endpoints[e].clusters[c].id
    ensures x.endpoint == e && x.cluster == c
  {
    assert x.endpoint == e;
    assert WellFormedEndpoint(node.endpoints[e], node.globals);
  }

  lemma RestingCovers(node: Node, req: AttributePathParams, x: Cursor)
    requires Resting(node, req, x) && req.IsWildcardPath()
    requires NamesLastIndex(req, node.endpoints[x.endpoint].clusters[x.cluster])
    ensures BlocksAt(node, req, x.endpoint, x.cluster)
  {
    ClusterCovered(req, node.endpoints[x.endpoint], x);
  }

  // Path q of request r was not handed out yet.
  predicate Ahead(node: Node, reqs: seq<AttributePathParams>, x: Cursor, r: nat, q: AttributePath)
    requires r < |reqs|
  {
    x.position < r || (x.position == r && q in RestOfRequest(node, reqs[r], x))
  }

  lemma TookOwn(a: seq<AttributePath>, b: seq<AttributePath>, tail: seq<AttributePath>, p: AttributePath)
    requires a != [] && Took(a + tail, b + tail, p, false)
    ensures p == a[0] && b == a[1..]
  {
    assert (a + tail)[1..] == a[1..] + tail;
    assert b == (b + tail)[..|b|] && a[1..] == (a[1..] + tail)[..|b|];
  }

  // Within its request, the blocking path stays ahead unless it was the one handed out.
  lemma StaysAhead(node: Node, reqs: seq<AttributePathParams>, r: nat, e: nat, c: nat, own: seq<AttributePath>, y: Cursor, p: AttributePath)
    requires WellFormed(node) && r < |reqs| && BlocksAt(node, reqs[r], e, c) && BlockingPath(node, reqs[r], e, c) in own
    requires y.position == r && y.endpoint != UINT16_MAX && LiesHere(node, y, p)
    requires Took(own + ExpandAll(node, reqs[r + 1..]), Remaining(node, reqs, y), p, false)
    requires !NamesLastIndex(reqs[r], node.endpoints[y.endpoint].clusters[y.cluster])
    ensures Ahead(node, reqs, y, r, BlockingPath(node, reqs[r], e, c))
  {
    var q := BlockingPath(node, reqs[r], e, c);
    WildcardRemaining(node, reqs, y);
    TookOwn(own, RestOfRequest(node, reqs[r], y), ExpandAll(node, reqs[r + 1..]), p);
    if q == p {
      LiesOnlyHere(node, e, c, y, p);
      assert false;
    }
  }

  // When its request is reached, the blocking path is ahead or was handed out.
  lemma ReachedAhead(node: Node, reqs: seq<AttributePathParams>, r: nat, e: nat, c: nat, y: Cursor, p: AttributePath)
    requires WellFormed(node) && r < |reqs| && BlocksAt(node, reqs[r], e, c)
    requires y.position == r && y.endpoint != UINT16_MAX && LiesHere(node, y, p)
    requires Took(ExpandAll(node, reqs[r..]), Remaining(node, reqs, y), p, false)
    requires !NamesLastIndex(reqs[r], node.endpoints[y.endpoint].clusters[y.cluster])
    ensures Ahead(node, reqs, y, r, BlockingPath(node, reqs[r], e, c))
  {
    BlockingExpands(node, reqs[r], e, c);
    assert reqs[r..][0] == reqs[r] && reqs[r..][1..] == reqs[r + 1..];
    StaysAhead(node, reqs, r, e, c, Expand(node, reqs[r]), y, p);
  }

  // A request that expands to something is not passed over.
  lemma NotPassed(node: Node, reqs: seq<AttributePathParams>, r: nat, from: nat, to: nat)
    requires from <= r < |reqs| && to <= |reqs| && |Expand(node, reqs[r])| > 0
    requires |ExpandAll(node, reqs[from..])| <= |ExpandAll(node, reqs[to..])|
    ensures to <= r
  {
    if to > r {
      NotSkipped(node, reqs, from, r, to);
    }
  }

  // What a call of Next that does not stick does to the place of the blocking path.
  lemma StepAhead(node: Node, reqs: seq<AttributePathParams>, r: nat, e: nat, c: nat, x: Cursor, y: Cursor, p: AttributePath)
    requires WellFormed(node) && r < |reqs| && BlocksAt(node, reqs[r], e, c)
    requires Ahead(node, reqs, x, r, BlockingPath(node, reqs[r], e, c)) && x.endpoint != UINT16_MAX
    requires x.position <= y.position <= |reqs|
    requires x.position == r && RestOfRequest(node, reqs[r], x) != [] ==> y.position == r
    requires y.position > x.position ==> Remaining(node, reqs, x) == ExpandAll(node, reqs[y.position..])
    requires y.position == r ==> && y.endpoint != UINT16_MAX && LiesHere(node, y, p)
                                 && !NamesLastIndex(reqs[r], node.endpoints[y.endpoint].clusters[y.cluster])
                                 && Took(Remaining(node, reqs, x), Remaining(node, reqs, y), p, false)
    ensures Ahead(node, reqs, y, r, BlockingPath(node, reqs[r], e, c))
  {
    if x.position == r {
      WildcardRemaining(node, reqs, x);
      StaysAhead(node, reqs, r, e, c, RestOfRequest(node, reqs[r], x), y, p);
      return;
    }
    BlockingExpands(node, reqs[r], e, c);
    if y.position > x.position {
      RemainingCount(node, reqs, x);
      NotPassed(node, reqs, r, x.position + 1, y.position);
    }
    if y.position == r {
      ReachedAhead(node, reqs, r, e, c, y, p);
    }
  }

  lemma RemainingCount(node: Node, reqs: seq<AttributePathParams>, x: Cursor)
    requires x.position < |reqs| && x.endpoint != UINT16_MAX
    ensures |Remaining(node, reqs, x)| >= |ExpandAll(node, reqs[x.position + 1..])|
  {
    if reqs[x.position].IsWildcardPath() {
      WildcardRemaining(node, reqs, x);
      return;
    }
  }

  lemma {:induction false} NotSkipped(node: Node, reqs: seq<AttributePathParams>, i: nat, r: nat, j: nat)
    requires i <= r < j <= |reqs| && Expand(node, reqs[r]) != []
    ensures |ExpandAll(node, reqs[i..])| > |ExpandAll(node, reqs[j..])|
    decreases j - i
  {
    assert reqs[i..][0] == reqs[i] && reqs[i..][1..] == reqs[i + 1..];
    if i < r {
      NotSkipped(node, reqs, i + 1, r, j);
    } else {
      FewerLater(node, reqs, i + 1, j);
    }
  }

  lemma {:induction false} FewerLater(node: Node, reqs: seq<AttributePathParams>, i: nat, j: nat)
    requires i <= j <= |reqs|
    ensures |ExpandAll(node, reqs[i..])| >= |ExpandAll(node, reqs[j..])|
    decreases j - i
  {
    if i < j {
      assert reqs[i..][0] == reqs[i] && reqs[i..][1..] == reqs[i + 1..];
      FewerLater(node, reqs, i + 1, j);
    }
  }

  // The same at the start of the iteration.
  lemma StartAhead(node: Node, reqs: seq<AttributePathParams>, r: nat, e: nat, c: nat, y: Cursor, p: AttributePath)
    requires WellFormed(node) && r < |reqs| && BlocksAt(node, reqs[r], e, c)
    requires y.position <= |reqs| && ExpandAll(node, reqs) == ExpandAll(node, reqs[y.position..])
    requires y.position == r ==> && y.endpoint != UINT16_MAX && LiesHere(node, y, p)
                                 && !NamesLastIndex(reqs[r], node.endpoints[y.endpoint].clusters[y.cluster])
                                 && Took(ExpandAll(node, reqs[r..]), Remaining(node, reqs, y), p, false)
    ensures Ahead(node, reqs, y, r, BlockingPath(node, reqs[r], e, c))
  {
    assert reqs[0..] == reqs;
    BlockingExpands(node, reqs[r], e, c);
    NotPassed(node, reqs, r, 0, y.position);
    if y.position == r {
      ReachedAhead(node, reqs, r, e, c, y, p);
    }
  }

  // The paths so far, the current one and those to come are `all`.
  predicate Collected(it: AttributePathExpandIterator, paths: seq<AttributePath>, all: seq<AttributePath>)
    reads it
  {
    all == if it.position < |it.requests| then paths + ([it.output.path] + it.ToCome()) else paths
  }

  lemma TakenNext(paths: seq<AttributePath>, current: AttributePath, before: seq<AttributePath>, next: AttributePath, after: seq<AttributePath>)
    requires Took(before, after, next, false)
    ensures paths + ([current] + before) == (paths + [current]) + ([next] + after)
  {
    TookAll(before, after, next);
    MoveOver(paths, current, before);
  }

  lemma NothingCollected(it: AttributePathExpandIterator, all: seq<AttributePath>)
    requires if all == [] then it.position == |it.requests|
             else it.position < |it.requests| && Took(all, it.ToCome(), it.output.path, false)
    ensures Collected(it, [], all)
  {
    if all != [] {
      TookAll(all, it.ToCome(), it.output.path);
      EmptyFront([it.output.path] + it.ToCome());
    }
  }

  // Path q of the blocking cluster was not handed out yet, or is the one that is handed out again
  // and again.
  predicate Blocking(it: AttributePathExpandIterator, r: nat, e: nat, c: nat)
    reads it
  {
    && r < |it.requests| && BlocksAt(it.node, it.requests[r], e, c)
    && it.position < |it.requests|
    && (it.OnLastIndex() || Ahead(it.node, it.requests, it.Cur(), r, BlockingPath(it.node, it.requests[r], e, c)))
  }

  // A call of Next does not get past a blocking path.
  method Step(it: AttributePathExpandIterator) returns (more: bool)
    requires it.Ready()
    modifies it
    ensures it.Ready()
    ensures if more then it.position < |it.requests| && Took(old(it.ToCome()), it.ToCome(), it.output.path, it.Stuck())
            else it.position == |it.requests| && old(it.ToCome()) == []
    ensures forall r, e, c :: old(Blocking(it, r, e, c)) ==> Blocking(it, r, e, c)
  {
    ghost var x, last := it.Cur(), it.OnLastIndex();
    more := it.Next();
    forall r, e, c | old(Blocking(it, r, e, c))
      ensures Blocking(it, r, e, c)
    {
      if last {
        LiesOnlyHere(it.node, x.endpoint, x.cluster, it.Cur(), it.output.path);
      } else if !it.OnLastIndex() {
        StepAhead(it.node, it.requests, r, e, c, x, it.Cur(), it.output.path);
      }
    }
  }

  // One round of an iteration.
  method MoveOn(it: AttributePathExpandIterator, ghost paths: seq<AttributePath>, ghost all: seq<AttributePath>)
    requires it.Ready() && it.position < |it.requests|
    modifies it
    ensures it.Ready()
    ensures old(Collected(it, paths, all)) && !it.Stuck() ==>
              && Collected(it, paths + [old(it.output.path)], all)
              && (it.position < |it.requests| ==> |it.ToCome()| < |old(it.ToCome())|)
    ensures forall r, e, c :: old(Blocking(it, r, e, c)) ==> Blocking(it, r, e, c)
  {
    ghost var path, toCome := it.output.path, it.ToCome();
    var more := Step(it);
    if it.Stuck() {
      return;
    }
    if more {
      TakenNext(paths, path, toCome, it.output.path, it.ToCome());
      return;
    }
    MoveOver(paths, path, []);
  }

  // Iterating until nothing is left yields exactly the expansion.
  method Collect(node: Node, requests: seq<AttributePathParams>) returns (paths: seq<AttributePath>)
    requires WellFormed(node) && !Blocked(node, requests)
    ensures paths == ExpandAll(node, requests)
  {
    var it := new AttributePathExpandIterator(node, requests);
    NotBlocked(it);
    NothingCollected(it, ExpandAll(node, requests));
    paths := [];
    var path, valid := it.Get();
    while valid
      invariant it.node == node && it.requests == requests && it.Ready() && !it.Stuck()
      invariant path == it.output && valid == (it.position < |requests|)
      invariant Collected(it, paths, ExpandAll(node, requests))
      decreases valid, |it.ToCome()|
    {
      MoveOn(it, paths, ExpandAll(node, requests));
      paths := paths + [path.path];
      NotBlocked(it);
      path, valid := it.Get();
    }
  }

  lemma NotBlocked(it: AttributePathExpandIterator)
    requires it.Ready() && !Blocked(it.node, it.requests)
    ensures !it.Stuck()
  {
    if it.Stuck() {
      RestingCovers(it.node, it.requests[it.position], it.Cur());
    }
  }

  // At the last index the iterator hands out the same path again, and is where it was.
  method RepeatsAtLastIndex(it: AttributePathExpandIterator)
    requires it.Ready() && it.OnLastIndex()
    modifies it
    ensures it.Ready() && it.OnLastIndex() && it.position == old(it.position) && it.output.path == old(it.output.path)
  {
    ghost var e, c := it.endpointIndex, it.clusterIndex;
    var more := it.Next();
    LiesOnlyHere(it.node, e, c, it.Cur(), it.output.path);
  }

  lemma StartBlocking(it: AttributePathExpandIterator, r: nat, e: nat, c: nat)
    requires it.Ready() && r < |it.requests| && BlocksAt(it.node, it.requests[r], e, c)
    requires ExpandAll(it.node, it.requests) == ExpandAll(it.node, it.requests[it.position..])
    requires var all := ExpandAll(it.node, it.requests);
             if all == [] then it.position == |it.requests|
             else it.position < |it.requests| && Took(all, it.ToCome(), it.output.path, it.Stuck())
    ensures Blocking(it, r, e, c)
  {
    if !it.OnLastIndex() {
      StartAhead(it.node, it.requests, r, e, c, it.Cur(), it.output.path);
    }
  }

  // The first n paths of an iteration. Unless a request blocks it, it ends with the whole
  // expansion; a blocked one never ends.
  method Iterate(node: Node, requests: seq<AttributePathParams>, n: nat) returns (paths: seq<AttributePath>, ended: bool)
    requires WellFormed(node)
    ensures ended <==> !Blocked(node, requests) && |ExpandAll(node, requests)| <= n
    ensures |paths| == if ended then |ExpandAll(node, requests)| else n
    ensures !Blocked(node, requests) ==> paths <= ExpandAll(node, requests)
  {
    ghost var all, blocked := ExpandAll(node, requests), Blocked(node, requests);
    ghost var r: nat, e: nat, c: nat := 0, 0, 0;
    var it := new AttributePathExpandIterator(node, requests);
    if blocked {
      r, e, c :| 0 <= r < |requests| && BlocksAt(node, requests[r], e, c);
      StartBlocking(it, r, e, c);
    } else {
      NotBlocked(it);
      NothingCollected(it, all);
    }
    paths := [];
    var path, valid := it.Get();
    while |paths| < n && valid
      invariant it.node == node && it.requests == requests && it.Ready() && |paths| <= n
      invariant path == it.output && valid == (it.position < |requests|)
      invariant if blocked then Blocking(it, r, e, c) else Collected(it, paths, all) && !it.Stuck()
      decreases n - |paths|
    {
      MoveOn(it, paths, all);
      paths := paths + [path.path];
      if !blocked {
        NotBlocked(it);
      }
      path, valid := it.Get();
    }
    ended := !valid;
  }

  // A node for which it happens: one cluster with 65535 attributes, the last of which is requested.
  function CrowdedCluster(): Cluster {
    Cluster(1, seq(UINT16_MAX, i => i))
  }

  function CrowdedNode(): Node {
    Node([Endpoint(1, true, [CrowdedCluster()])], [])
  }

  const LAST_ATTRIBUTE := AttributePathParams(INVALID_ENDPOINT_ID, 1, UINT16_MAX - 1, INVALID_LIST_INDEX)

  lemma CrowdedWellFormed()
    ensures WellFormed(CrowdedNode())
  {
  }

  lemma CrowdedExpansion()
    ensures NamesLastIndex(LAST_ATTRIBUTE, CrowdedCluster())
    ensures ExpandAll(CrowdedNode(), [LAST_ATTRIBUTE]) == [AttributePath(1, 1, UINT16_MAX - 1)]
  {
    var c := CrowdedCluster();
    var i := IndexOfId(c.attributes, UINT16_MAX - 1, 0);
    assert c.attributes[UINT16_MAX - 1] == UINT16_MAX - 1;
    OnlyNamed(LAST_ATTRIBUTE, 1, 1, c.attributes, 0, i);
    ExpandIsLater(CrowdedNode(), LAST_ATTRIBUTE);
    assert OfCluster(CrowdedNode(), LAST_ATTRIBUTE, 1, c) == [AttributePath(1, 1, UINT16_MAX - 1)];
    assert LaterClusters(CrowdedNode(), LAST_ATTRIBUTE, CrowdedNode().endpoints[0], 1) == [];
    assert LaterEndpoints(CrowdedNode(), LAST_ATTRIBUTE, 1) == [];
    assert [LAST_ATTRIBUTE][1..] == [];
  }

  lemma CrowdedOnlyCluster(x: Cursor)
    requires Resting(CrowdedNode(), LAST_ATTRIBUTE, x)
    ensures x.endpoint == 0 && x.cluster == 0 && |CrowdedNode().endpoints| == 1 && |CrowdedNode().endpoints[0].clusters| == 1
    ensures NamesLastIndex(LAST_ATTRIBUTE, CrowdedNode().endpoints[x.endpoint].clusters[x.cluster])
  {
    CrowdedExpansion();
  }

  // So an iterator over it emits its one path twice.
  method CrowdedNodeRepeats() returns (first: AttributePath, second: AttributePath)
    ensures ExpandAll(CrowdedNode(), [LAST_ATTRIBUTE]) == [first] && second == first
  {
    CrowdedWellFormed();
    CrowdedExpansion();
    var it := new AttributePathExpandIterator(CrowdedNode(), [LAST_ATTRIBUTE]);
    first := it.output.path;
    CrowdedOnlyCluster(it.Cur());
    RepeatsAtLastIndex(it);
    second := it.output.path;
  }
}
