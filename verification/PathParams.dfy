// Requested attribute paths, with wildcards (section 8.9.2.2 of the Matter Core Specification).

module PathParams {
  import opened Core

  datatype AttributePathParams = AttributePathParams(endpoint: nat, cluster: nat, attribute: nat, listIndex: nat) {
    predicate HasWildcardEndpointId() {
      endpoint == INVALID_ENDPOINT_ID
    }
    predicate HasWildcardClusterId() {
      cluster == INVALID_CLUSTER_ID
    }
    predicate HasWildcardAttributeId() {
      attribute == INVALID_ATTRIBUTE_ID
    }
    predicate IsWildcardPath() {
      HasWildcardEndpointId() || HasWildcardClusterId() || HasWildcardAttributeId()
    }

    predicate IsSupersetOf(p: AttributePath) {
      && (HasWildcardEndpointId() || endpoint == p.endpoint)
      && (HasWildcardClusterId() || cluster == p.cluster)
      && (HasWildcardAttributeId() || attribute == p.attribute)
    }

    predicate Intersects(other: AttributePathParams) {
      && (HasWildcardEndpointId() || other.HasWildcardEndpointId() || endpoint == other.endpoint)
      && (HasWildcardClusterId() || other.HasWildcardClusterId() || cluster == other.cluster)
      && (HasWildcardAttributeId() || other.HasWildcardAttributeId() || attribute == other.attribute)
    }

    predicate IncludesAttributesInCluster(c: ClusterPath) {
      && (HasWildcardEndpointId() || endpoint == c.endpoint)
      && (HasWildcardClusterId() || cluster == c.cluster)
    }

    predicate IncludesAllAttributesInCluster(c: ClusterPath) {
      IncludesAttributesInCluster(c) && HasWildcardAttributeId()
    }
  }

  // Two requests intersect exactly when some concrete path lies in both.
  lemma IntersectsMeansShared(x: AttributePathParams, y: AttributePathParams)
    ensures x.Intersects(y) <==> exists p :: x.IsSupersetOf(p) && y.IsSupersetOf(p)
  {
    var p := AttributePath(if x.HasWildcardEndpointId() then y.endpoint else x.endpoint,
                           if x.HasWildcardClusterId() then y.cluster else x.cluster,
                           if x.HasWildcardAttributeId() then y.attribute else x.attribute);
    if x.Intersects(y) {
      assert x.IsSupersetOf(p) && y.IsSupersetOf(p);
    }
  }

  // A request covers the paths that agree with it wherever it does not hold a wildcard.
  lemma SupersetMeansAgrees(x: AttributePathParams, p: AttributePath)
    ensures x.IsSupersetOf(p) <==>
              p == AttributePath(if x.endpoint == 0xFFFF then p.endpoint else x.endpoint,
                                 if x.cluster == 0xFFFF_FFFF then p.cluster else x.cluster,
                                 if x.attribute == 0xFFFF_FFFF then p.attribute else x.attribute)
    ensures x.IsWildcardPath() <==> x.endpoint == 0xFFFF || x.cluster == 0xFFFF_FFFF || x.attribute == 0xFFFF_FFFF
  {
  }

  // It includes attributes of a cluster, or all of them, exactly when it covers some path, or every
  // path, of that cluster.
  lemma IncludesMeansCovers(x: AttributePathParams, c: ClusterPath)
    ensures x.IncludesAttributesInCluster(c) <==> exists a: nat :: x.IsSupersetOf(AttributePath(c.endpoint, c.cluster, a))
    ensures x.IncludesAllAttributesInCluster(c) <==> forall a: nat :: x.IsSupersetOf(AttributePath(c.endpoint, c.cluster, a))
  {
    if x.IncludesAttributesInCluster(c) {
      assert x.IsSupersetOf(AttributePath(c.endpoint, c.cluster, x.attribute));
    }
    var other := x.attribute + 1;
    assert x.IsSupersetOf(AttributePath(c.endpoint, c.cluster, other)) ==> x.HasWildcardAttributeId();
  }
}
