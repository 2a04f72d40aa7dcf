// Access control entries: which are valid, and which request each of them grants (section 6.6 of
// the Matter Core Specification).

module AccessEntries {
  import opened Core

  // ---------- node ids ----------

  const MAX_OPERATIONAL_NODE_ID := 0xFFFF_FFEF_FFFF_FFFF
  const MIN_CASE_AUTH_TAG := 0xFFFF_FFFD_0000_0000
  const MAX_CASE_AUTH_TAG := 0xFFFF_FFFD_FFFF_FFFF
  const MIN_GROUP_NODE_ID := 0xFFFF_FFFF_FFFF_0000
  const UNDEFINED_CAT := 0

  predicate IsOperationalNodeId(n: nat) {
    n != 0 && n <= MAX_OPERATIONAL_NODE_ID
  }

  predicate IsCASEAuthTag(n: nat) {
    MIN_CASE_AUTH_TAG <= n <= MAX_CASE_AUTH_TAG
  }

  predicate IsGroupId(n: nat) {
    n >= MIN_GROUP_NODE_ID
  }

  function CASEAuthTagFromNodeId(n: nat): nat {
    n % 0x1_0000_0000
  }

  function CATVersion(cat: nat): nat {
    cat % 0x1_0000
  }

  function CATIdentifier(cat: nat): nat {
    (cat / 0x1_0000) % 0x1_0000
  }

  predicate IsValidCaseNodeId(n: nat) {
    IsOperationalNodeId(n) || (IsCASEAuthTag(n) && CATVersion(CASEAuthTagFromNodeId(n)) != 0)
  }

  predicate IsValidGroupNodeId(n: nat) {
    IsGroupId(n) && n % 0x1_0000 != 0
  }

  // Some tag of the subject's certificate has the identifier that is asked for and at least its
  // version.
  predicate CheckSubjectAgainstCATs(cats: seq<nat>, subject: nat) {
    && IsCASEAuthTag(subject)
    && var wanted := CASEAuthTagFromNodeId(subject);
       exists i :: 0 <= i < |cats| && CATGrants(cats[i], wanted)
  }

  predicate CATGrants(cat: nat, wanted: nat) {
    && cat != UNDEFINED_CAT
    && CATIdentifier(cat) == CATIdentifier(wanted)
    && CATVersion(wanted) > 0
    && CATVersion(cat) >= CATVersion(wanted)
  }

  // ---------- ids of targets ----------

  predicate IsValidClusterId(c: nat) {
    var id, vendor := c % 0x1_0000, (c / 0x1_0000) % 0x1_0000;
    (vendor == 0 && id <= 0x7FFF) || (1 <= vendor <= 0xFFFE && 0xFC00 <= id <= 0xFFFE)
  }

  predicate IsValidEndpointId(e: nat) {
    e != INVALID_ENDPOINT_ID
  }

  predicate IsValidDeviceTypeId(d: nat) {
    var id, vendor := d % 0x1_0000, (d / 0x1_0000) % 0x1_0000;
    vendor <= 0xFFFE && id <= 0xBFFF
  }

  // ---------- entries ----------

  datatype Privilege = View | ProxyView | Operate | Manage | Administer
  datatype AuthMode = NoAuth | Pase | Case | Group

  // A field that is present is one whose flag is set.
  datatype Target = Target(cluster: Option<nat>, endpoint: Option<nat>, deviceType: Option<nat>)

  datatype Entry = Entry(fabric: nat, authMode: AuthMode, privilege: Privilege, subjects: seq<nat>, targets: seq<Target>)

  const UNDEFINED_FABRIC := 0

  datatype SubjectDescriptor = SubjectDescriptor(fabric: nat, authMode: AuthMode, subject: nat, cats: seq<nat>)
  datatype RequestPath = RequestPath(cluster: nat, endpoint: nat)

  predicate ValidSubject(mode: AuthMode, subject: nat) {
    (mode == Case && IsValidCaseNodeId(subject)) || (mode == Group && IsValidGroupNodeId(subject))
  }

  predicate ValidTarget(t: Target) {
    && (t.cluster.Some? || t.endpoint.Some? || t.deviceType.Some?)
    && !(t.endpoint.Some? && t.deviceType.Some?)
    && (t.cluster.Some? ==> IsValidClusterId(t.cluster.value))
    && (t.endpoint.Some? ==> IsValidEndpointId(t.endpoint.value))
    && (t.deviceType.Some? ==> IsValidDeviceTypeId(t.deviceType.value))
  }

  predicate ValidEntry(e: Entry) {
    && e.fabric != UNDEFINED_FABRIC
    && (e.authMode == Case || (e.authMode == Group && e.privilege != Administer))
    && (forall i :: 0 <= i < |e.subjects| ==> ValidSubject(e.authMode, e.subjects[i]))
    && (forall i :: 0 <= i < |e.targets| ==> ValidTarget(e.targets[i]))
  }

  // The entry check: two loops that stop at the first offence.
  method IsValid(e: Entry) returns (valid: bool)
    ensures valid == ValidEntry(e)
  {
    if e.fabric == UNDEFINED_FABRIC {
      return false;
    }
    if e.authMode != Case {
      if e.authMode != Group {
        return false;
      }
      if e.privilege == Administer {
        return false;
      }
    }
    for i := 0 to |e.subjects|
      invariant forall j :: 0 <= j < i ==> ValidSubject(e.authMode, e.subjects[j])
    {
      var isCase, isGroup := e.authMode == Case, e.authMode == Group;
      if !((isCase && IsValidCaseNodeId(e.subjects[i])) || (isGroup && IsValidGroupNodeId(e.subjects[i]))) {
        return false;
      }
    }
    for i := 0 to |e.targets|
      invariant forall j :: 0 <= j < i ==> ValidTarget(e.targets[j])
    {
      var t := e.targets[i];
      var hasCluster, hasEndpoint, hasDeviceType := t.cluster.Some?, t.endpoint.Some?, t.deviceType.Some?;
      if !((hasCluster || hasEndpoint || hasDeviceType) && !(hasEndpoint && hasDeviceType)
           && (!hasCluster || IsValidClusterId(t.cluster.value))
           && (!hasEndpoint || IsValidEndpointId(t.endpoint.value))
           && (!hasDeviceType || IsValidDeviceTypeId(t.deviceType.value))) {
        return false;
      }
    }
    valid := true;
  }

  // ---------- the decision ----------

  // Whether an entry of privilege `entry` serves a request that needs `request`.
  predicate Serves(request: Privilege, entry: Privilege) {
    match entry
    case View => request == View
    case ProxyView => request == ProxyView || request == View
    case Operate => request == Operate || request == View
    case Manage => request == Manage || request == Operate || request == View
    case Administer => request == Administer || request == Manage || request == Operate || request == View || request == ProxyView
  }

  // How far up a privilege stands between View and Administer.
  function Rank(p: Privilege): nat {
    match p
    case View => 0
    case ProxyView => 1
    case Operate => 1
    case Manage => 2
    case Administer => 3
  }

  // Privileges form a partial order: p is served by q exactly if they are the same or q stands higher,
  // except that ProxyView stands apart from Operate and Manage.
  lemma PrivilegeOrder(p: Privilege, q: Privilege, r: Privilege)
    ensures Serves(p, q) <==> p == q || (Rank(p) < Rank(q) && (p == ProxyView || q == ProxyView ==> p == View || q == Administer))
    ensures Serves(p, p)
    ensures Serves(p, q) && Serves(q, p) ==> p == q
    ensures Serves(p, q) && Serves(q, r) ==> Serves(p, r)
    ensures Serves(View, p) && Serves(p, Administer)
    ensures !Serves(p, q) && !Serves(q, p) <==> (p == ProxyView && (q == Operate || q == Manage)) || (q == ProxyView && (p == Operate || p == Manage))
  {
  }

  predicate SubjectMatches(d: SubjectDescriptor, s: nat) {
    if IsCASEAuthTag(s) then CheckSubjectAgainstCATs(d.cats, s) else s == d.subject
  }

  predicate TargetMatches(p: RequestPath, t: Target, onEndpoint: (nat, nat) -> bool) {
    && (t.cluster.Some? ==> t.cluster.value == p.cluster)
    && (t.endpoint.Some? ==> t.endpoint.value == p.endpoint)
    && (t.deviceType.Some? ==> onEndpoint(t.deviceType.value, p.endpoint))
  }

  predicate AnySubject(e: Entry, d: SubjectDescriptor) {
    e.subjects == [] || exists i :: 0 <= i < |e.subjects| && SubjectMatches(d, e.subjects[i])
  }

  predicate AnyTarget(e: Entry, p: RequestPath, onEndpoint: (nat, nat) -> bool) {
    e.targets == [] || exists i :: 0 <= i < |e.targets| && TargetMatches(p, e.targets[i], onEndpoint)
  }

  predicate EntryGrants(e: Entry, d: SubjectDescriptor, p: RequestPath, request: Privilege, onEndpoint: (nat, nat) -> bool) {
    && e.fabric == d.fabric && e.authMode == d.authMode && Serves(request, e.privilege)
    && AnySubject(e, d) && AnyTarget(e, p, onEndpoint)
  }

  // The decision as a rule: commissioning sessions may do anything, every other subject what some
  // entry of its fabric grants.
  predicate Allowed(acl: seq<Entry>, d: SubjectDescriptor, p: RequestPath, request: Privilege, onEndpoint: (nat, nat) -> bool) {
    d.authMode == Pase || exists i :: 0 <= i < |acl| && EntryGrants(acl[i], d, p, request, onEndpoint)
  }

  predicate AllValid(acl: seq<Entry>) {
    forall i :: 0 <= i < |acl| ==> ValidEntry(acl[i])
  }

  method AnySubjectMatches(e: Entry, d: SubjectDescriptor) returns (err: ChipError, matched: bool)
    requires ValidEntry(e) && e.authMode == d.authMode
    ensures err == NoError && matched == exists i :: 0 <= i < |e.subjects| && SubjectMatches(d, e.subjects[i])
  {
    err, matched := NoError, false;
    for i := 0 to |e.subjects|
      invariant err == NoError && !matched
      invariant forall j :: 0 <= j < i ==> !SubjectMatches(d, e.subjects[j])
    {
      var subject := e.subjects[i];
      assert ValidSubject(e.authMode, subject);
      if IsOperationalNodeId(subject) {
        if e.authMode != Case {
          return IncorrectState, false;
        }
        if subject == d.subject {
          return NoError, true;
        }
      } else if IsCASEAuthTag(subject) {
        if e.authMode != Case {
          return IncorrectState, false;
        }
        if CheckSubjectAgainstCATs(d.cats, subject) {
          return NoError, true;
        }
      } else if IsGroupId(subject) {
        if e.authMode != Group {
          return IncorrectState, false;
        }
        if subject == d.subject {
          return NoError, true;
        }
      } else {
        return IncorrectState, false;
      }
    }
  }

  method AnyTargetMatches(e: Entry, p: RequestPath, onEndpoint: (nat, nat) -> bool) returns (matched: bool)
    ensures matched == exists i :: 0 <= i < |e.targets| && TargetMatches(p, e.targets[i], onEndpoint)
  {
    matched := false;
    for i := 0 to |e.targets|
      invariant forall j :: 0 <= j < i ==> !TargetMatches(p, e.targets[j], onEndpoint)
    {
      var t := e.targets[i];
      if t.cluster.Some? && t.cluster.value != p.cluster {
        continue;
      }
      if t.endpoint.Some? && t.endpoint.value != p.endpoint {
        continue;
      }
      if t.deviceType.Some? && !onEndpoint(t.deviceType.value, p.endpoint) {
        continue;
      }
      return true;
    }
  }

  // The decision loop. `delegated` is what the delegate answers; NotImplemented asks for the
  // default algorithm. On valid entries the loop never finds an inconsistent one.
  method Check(acl: seq<Entry>, d: SubjectDescriptor, p: RequestPath, request: Privilege,
               onEndpoint: (nat, nat) -> bool, delegated: ChipError) returns (err: ChipError)
    requires AllValid(acl)
    ensures delegated != NotImplemented ==> err == delegated
    ensures delegated == NotImplemented ==> err == if Allowed(acl, d, p, request, onEndpoint) then NoError else AccessDenied
  {
    if delegated != NotImplemented {
      return delegated;
    }
    if d.authMode == Pase {
      return NoError;
    }
    for i := 0 to |acl|
      invariant forall j :: 0 <= j < i ==> !EntryGrants(acl[j], d, p, request, onEndpoint)
    {
      var e := acl[i];
      if e.fabric != d.fabric {
        continue;
      }
      if e.authMode != Case && e.authMode != Group {
        return IncorrectState;
      }
      if e.authMode != d.authMode {
        continue;
      }
      if !Serves(request, e.privilege) {
        continue;
      }
      if |e.subjects| > 0 {
        var inconsistent, matched := AnySubjectMatches(e, d);
        if inconsistent != NoError {
          return inconsistent;
        }
        if !matched {
          continue;
        }
      }
      if |e.targets| > 0 {
        var matched := AnyTargetMatches(e, p, onEndpoint);
        if !matched {
          continue;
        }
      }
      assert EntryGrants(e, d, p, request, onEndpoint);
      return NoError;
    }
    err := AccessDenied;
  }

  // ---------- the rule in the terms of the specification ----------

  // A CASE authenticated tag names an identifier and a version.
  function Tag(id: nat, version: nat): nat {
    id * 0x1_0000 + version
  }

  lemma Halves(high: nat, low: nat)
    requires low < 0x1_0000
    ensures Tag(high, low) % 0x1_0000 == low && Tag(high, low) / 0x1_0000 == high
  {
  }

  lemma TagNode(n: nat)
    requires n < 0x1_0000_0000
    ensures CASEAuthTagFromNodeId(MIN_CASE_AUTH_TAG + n) == n && IsCASEAuthTag(MIN_CASE_AUTH_TAG + n)
  {
    assert MIN_CASE_AUTH_TAG == 0xFFFF_FFFD * 0x1_0000_0000;
  }

  lemma TagParts(id: nat, version: nat)
    requires id < 0x1_0000 && version < 0x1_0000
    ensures CATIdentifier(Tag(id, version)) == id && CATVersion(Tag(id, version)) == version
    ensures CASEAuthTagFromNodeId(MIN_CASE_AUTH_TAG + Tag(id, version)) == Tag(id, version) && IsCASEAuthTag(MIN_CASE_AUTH_TAG + Tag(id, version))
  {
    Halves(id, version);
    TagNode(Tag(id, version));
  }

  lemma TagOf(cat: nat)
    requires cat < 0x1_0000_0000
    ensures CATIdentifier(cat) < 0x1_0000 && CATVersion(cat) < 0x1_0000 && cat == Tag(CATIdentifier(cat), CATVersion(cat))
  {
    assert cat == (cat / 0x1_0000) * 0x1_0000 + cat % 0x1_0000;
  }

  lemma TagOfNode(s: nat)
    requires IsCASEAuthTag(s)
    ensures CASEAuthTagFromNodeId(s) < 0x1_0000_0000 && s == MIN_CASE_AUTH_TAG + CASEAuthTagFromNodeId(s)
  {
    TagNode(s - MIN_CASE_AUTH_TAG);
  }

  // A subject that is a tag is met by a certificate that holds the same identifier in at least its
  // version; any other one by the subject itself.
  ghost predicate SubjectMet(d: SubjectDescriptor, s: nat) {
    if 0xFFFF_FFFD_0000_0000 <= s <= 0xFFFF_FFFD_FFFF_FFFF then exists i :: 0 <= i < |d.cats| && TagMet(d.cats[i], s) else s == d.subject
  }

  ghost predicate TagMet(cat: nat, s: nat) {
    exists id, version, held :: Meets(id, version, held) && s == MIN_CASE_AUTH_TAG + Tag(id, version) && cat == Tag(id, held)
  }

  predicate Meets(id: nat, version: nat, held: nat) {
    id < 0x1_0000 && 0 < version <= held < 0x1_0000
  }

  lemma CATGrantsExactly(cat: nat, wanted: nat)
    requires cat < 0x1_0000_0000 && wanted < 0x1_0000_0000
    ensures CATGrants(cat, wanted) <==> exists id, version, held :: Meets(id, version, held) && wanted == Tag(id, version) && cat == Tag(id, held)
  {
    if CATGrants(cat, wanted) {
      TagOf(cat);
      TagOf(wanted);
      assert Meets(CATIdentifier(wanted), CATVersion(wanted), CATVersion(cat));
    }
    if id, version, held :| Meets(id, version, held) && wanted == Tag(id, version) && cat == Tag(id, held) {
      TagParts(id, version);
      TagParts(id, held);
    }
  }

  lemma SubjectMatchesExactly(d: SubjectDescriptor, s: nat)
    requires forall i :: 0 <= i < |d.cats| ==> d.cats[i] < 0x1_0000_0000
    ensures SubjectMatches(d, s) <==> SubjectMet(d, s)
  {
    if IsCASEAuthTag(s) {
      TagOfNode(s);
      forall i | 0 <= i < |d.cats|
        ensures CATGrants(d.cats[i], CASEAuthTagFromNodeId(s)) <==> TagMet(d.cats[i], s)
      {
        CATGrantsExactly(d.cats[i], CASEAuthTagFromNodeId(s));
      }
    }
  }

  // An entry lets a subject do what needs a privilege on a path.
  ghost predicate Lets(e: Entry, d: SubjectDescriptor, p: RequestPath, request: Privilege, onEndpoint: (nat, nat) -> bool) {
    && e.fabric == d.fabric && e.authMode == d.authMode
    && (request == e.privilege
        || (Rank(request) < Rank(e.privilege) && (request == ProxyView || e.privilege == ProxyView ==> request == View || e.privilege == Administer)))
    && (e.subjects == [] || exists s :: s in e.subjects && SubjectMet(d, s))
    && (e.targets == [] || exists t :: t in e.targets && OnTarget(t, p, onEndpoint))
  }

  predicate OnTarget(t: Target, p: RequestPath, onEndpoint: (nat, nat) -> bool) {
    (t.cluster == None || t.cluster == Some(p.cluster)) && (t.endpoint == None || t.endpoint == Some(p.endpoint))
    && (t.deviceType == None || onEndpoint(t.deviceType.value, p.endpoint))
  }

  lemma GrantsExactly(e: Entry, d: SubjectDescriptor, p: RequestPath, request: Privilege, onEndpoint: (nat, nat) -> bool)
    requires forall i :: 0 <= i < |d.cats| ==> d.cats[i] < 0x1_0000_0000
    ensures EntryGrants(e, d, p, request, onEndpoint) <==> Lets(e, d, p, request, onEndpoint)
  {
    PrivilegeOrder(request, e.privilege, e.privilege);
    forall s
      ensures SubjectMatches(d, s) <==> SubjectMet(d, s)
    {
      SubjectMatchesExactly(d, s);
    }
    assert (exists i :: 0 <= i < |e.subjects| && SubjectMatches(d, e.subjects[i])) <==> exists s :: s in e.subjects && SubjectMatches(d, s);
    assert forall t :: TargetMatches(p, t, onEndpoint) <==> OnTarget(t, p, onEndpoint);
    assert (exists i :: 0 <= i < |e.targets| && TargetMatches(p, e.targets[i], onEndpoint)) <==> exists t :: t in e.targets && TargetMatches(p, t, onEndpoint);
  }

  // Access is allowed exactly to commissioning sessions and where some entry lets the subject.
  lemma AllowedExactly(acl: seq<Entry>, d: SubjectDescriptor, p: RequestPath, request: Privilege, onEndpoint: (nat, nat) -> bool)
    requires forall i :: 0 <= i < |d.cats| ==> d.cats[i] < 0x1_0000_0000
    ensures Allowed(acl, d, p, request, onEndpoint) <==> d.authMode == Pase || exists e :: e in acl && Lets(e, d, p, request, onEndpoint)
  {
    forall i | 0 <= i < |acl|
      ensures EntryGrants(acl[i], d, p, request, onEndpoint) <==> Lets(acl[i], d, p, request, onEndpoint)
    {
      GrantsExactly(acl[i], d, p, request, onEndpoint);
    }
    if e :| e in acl && Lets(e, d, p, request, onEndpoint) {
      var i :| 0 <= i < |acl| && acl[i] == e;
      assert EntryGrants(acl[i], d, p, request, onEndpoint);
    }
  }

  predicate Named(id: nat, version: nat) {
    id < 0x1_0000 && 0 < version < 0x1_0000
  }

  // The subjects an entry may name: under CASE operational nodes and tags with a version, under Group
  // all groups but the null one, and none otherwise.
  lemma ValidSubjectExactly(s: nat)
    requires s < 0x1_0000_0000_0000_0000
    ensures ValidSubject(Case, s) <==> 0 < s <= 0xFFFF_FFEF_FFFF_FFFF || exists id, version :: Named(id, version) && s == MIN_CASE_AUTH_TAG + Tag(id, version)
    ensures ValidSubject(Group, s) <==> 0xFFFF_FFFF_FFFF_0001 <= s
    ensures !ValidSubject(Pase, s) && !ValidSubject(NoAuth, s)
  {
    if ValidSubject(Case, s) && IsCASEAuthTag(s) {
      TagOfNode(s);
      TagOf(CASEAuthTagFromNodeId(s));
      assert Named(CATIdentifier(CASEAuthTagFromNodeId(s)), CATVersion(CASEAuthTagFromNodeId(s)));
    }
    if id, version :| Named(id, version) && s == MIN_CASE_AUTH_TAG + Tag(id, version) {
      TagParts(id, version);
    }
    if s >= MIN_GROUP_NODE_ID {
      assert MIN_GROUP_NODE_ID == 0xFFFF_FFFF_FFFF * 0x1_0000;
    }
  }

  predicate OfVendor(vendor: nat, id: nat, firstVendor: nat, firstId: nat, lastId: nat) {
    firstVendor <= vendor < 0xFFFF && firstId <= id <= lastId
  }

  // The clusters and device types: the standard ones, and those of a manufacturer, each in its range.
  lemma ValidTargetIdsExactly(n: nat)
    requires n < 0x1_0000_0000
    ensures IsValidClusterId(n) <==> n <= 0x7FFF || exists vendor, id :: OfVendor(vendor, id, 1, 0xFC00, 0xFFFE) && n == Tag(vendor, id)
    ensures IsValidDeviceTypeId(n) <==> exists vendor, id :: OfVendor(vendor, id, 0, 0, 0xBFFF) && n == Tag(vendor, id)
  {
    var high, low := n / 0x1_0000, n % 0x1_0000;
    assert n == Tag(high, low) && high % 0x1_0000 == high;
    forall vendor: nat, id: nat | id < 0x1_0000 && n == Tag(vendor, id)
      ensures vendor == high && id == low
    {
      Halves(vendor, id);
    }
    assert IsValidClusterId(n) && high > 0 ==> OfVendor(high, low, 1, 0xFC00, 0xFFFE);
    assert IsValidDeviceTypeId(n) ==> OfVendor(high, low, 0, 0, 0xBFFF);
  }

  // Which entries are accepted.
  ghost predicate Acceptable(e: Entry) {
    && e.fabric != 0 && e.authMode in {Case, Group} && !(e.authMode == Group && e.privilege == Administer)
    && (forall s :: s in e.subjects ==> ValidSubject(e.authMode, s))
    && (forall t :: t in e.targets ==>
          && (t.cluster != None || t.endpoint != None || t.deviceType != None) && (t.endpoint == None || t.deviceType == None)
          && (t.cluster == None || IsValidClusterId(t.cluster.value)) && t.endpoint != Some(0xFFFF)
          && (t.deviceType == None || IsValidDeviceTypeId(t.deviceType.value)))
  }

  lemma ValidEntryExactly(e: Entry)
    ensures ValidEntry(e) <==> Acceptable(e)
  {
    forall t
      ensures ValidTarget(t) <==>
                && (t.cluster != None || t.endpoint != None || t.deviceType != None) && (t.endpoint == None || t.deviceType == None)
                && (t.cluster == None || IsValidClusterId(t.cluster.value)) && t.endpoint != Some(0xFFFF)
                && (t.deviceType == None || IsValidDeviceTypeId(t.deviceType.value))
    {
    }
    assert (forall i :: 0 <= i < |e.subjects| ==> ValidSubject(e.authMode, e.subjects[i])) <==> forall s :: s in e.subjects ==> ValidSubject(e.authMode, s);
    assert (forall i :: 0 <= i < |e.targets| ==> ValidTarget(e.targets[i])) <==> forall t :: t in e.targets ==> ValidTarget(t);
  }

  // The order of the entries does not matter.
  lemma OrderDoesNotMatter(acl: seq<Entry>, acl': seq<Entry>, d: SubjectDescriptor, p: RequestPath, request: Privilege, onEndpoint: (nat, nat) -> bool)
    requires multiset(acl) == multiset(acl')
    ensures Allowed(acl, d, p, request, onEndpoint) == Allowed(acl', d, p, request, onEndpoint)
  {
    forall e
      ensures e in acl <==> e in acl'
    {
      assert e in acl <==> e in multiset(acl);
      assert e in acl' <==> e in multiset(acl');
    }
    forall i | 0 <= i < |acl|
      ensures exists j :: 0 <= j < |acl'| && acl'[j] == acl[i]
    {
      assert acl[i] in acl;
    }
    forall j | 0 <= j < |acl'|
      ensures exists i :: 0 <= i < |acl| && acl[i] == acl'[j]
    {
      assert acl'[j] in acl';
    }
  }

  // Whoever may do what privilege q allows may do what any privilege that q implies allows.
  lemma ImpliedPrivilegesAllowed(acl: seq<Entry>, d: SubjectDescriptor, path: RequestPath, p: Privilege, q: Privilege, onEndpoint: (nat, nat) -> bool)
    requires Allowed(acl, d, path, q, onEndpoint) && Serves(p, q)
    ensures Allowed(acl, d, path, p, onEndpoint)
  {
    if d.authMode != Pase {
      var i :| 0 <= i < |acl| && EntryGrants(acl[i], d, path, q, onEndpoint);
      PrivilegeOrder(p, q, acl[i].privilege);
      assert EntryGrants(acl[i], d, path, p, onEndpoint);
    }
  }
}
