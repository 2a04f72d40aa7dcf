// The access control list as the delegate stores it: one list for all fabrics, in which an entry
// is addressed by its index among the entries of its fabric.

module AccessStore {
  import opened Core
  import opened AccessEntries

  datatype Limits = Limits(entries: nat, entriesPerFabric: nat, subjectsPerEntry: nat, targetsPerEntry: nat)

  predicate StorageFits(limits: Limits, e: Entry) {
    |e.subjects| <= limits.subjectsPerEntry && |e.targets| <= limits.targetsPerEntry
  }

  // The entries of one fabric, in order.
  function OfFabric(acl: seq<Entry>, fabric: nat): (es: seq<Entry>)
    ensures |es| <= |acl|
  {
    if acl == [] then []
    else OfFabric(acl[..|acl| - 1], fabric) + if acl[|acl| - 1].fabric == fabric then [acl[|acl| - 1]] else []
  }

  // Where the entry with that index among the fabric's entries is stored.
  function Position(acl: seq<Entry>, fabric: nat, index: nat): (pos: Option<nat>)
    ensures pos.Some? ==> pos.value < |acl| && acl[pos.value].fabric == fabric
    ensures pos.Some? <==> index < |OfFabric(acl, fabric)|
    ensures pos.Some? ==> |OfFabric(acl[..pos.value], fabric)| == index
  {
    if acl == [] then None
    else
      var n := |acl| - 1;
      assert forall k :: 0 <= k < n ==> acl[..n][..k] == acl[..k];
      if index < |OfFabric(acl[..n], fabric)| then Position(acl[..n], fabric, index)
      else if acl[n].fabric == fabric && index == |OfFabric(acl[..n], fabric)| then Some(n)
      else None
  }

  lemma {:induction false} OfFabricSplit(xs: seq<Entry>, ys: seq<Entry>, fabric: nat)
    ensures OfFabric(xs + ys, fabric) == OfFabric(xs, fabric) + OfFabric(ys, fabric)
  {
    if ys == [] {
      assert xs + ys == xs;
    } else {
      var n := |ys| - 1;
      assert (xs + ys)[..|xs| + n] == xs + ys[..n];
      OfFabricSplit(xs, ys[..n], fabric);
    }
  }

  lemma OfFabricOne(e: Entry, fabric: nat)
    ensures OfFabric([e], fabric) == if e.fabric == fabric then [e] else []
  {
    assert [e][..0] == [];
  }

  // The list around position pos, seen from a fabric.
  lemma OfFabricAround(acl: seq<Entry>, pos: nat, fabric: nat)
    requires pos < |acl|
    ensures OfFabric(acl, fabric)
         == OfFabric(acl[..pos], fabric) + (if acl[pos].fabric == fabric then [acl[pos]] else []) + OfFabric(acl[pos + 1..], fabric)
  {
    assert acl == acl[..pos] + [acl[pos]] + acl[pos + 1..];
    OfFabricSplit(acl[..pos] + [acl[pos]], acl[pos + 1..], fabric);
    OfFabricSplit(acl[..pos], [acl[pos]], fabric);
    OfFabricOne(acl[pos], fabric);
  }

  function Removed<T>(s: seq<T>, i: nat): seq<T>
    requires i < |s|
  {
    s[..i] + s[i + 1..]
  }

  lemma RemoveAt(acl: seq<Entry>, pos: nat, fabric: nat)
    requires pos < |acl|
    ensures acl[pos].fabric == fabric ==> |OfFabric(acl[..pos], fabric)| < |OfFabric(acl, fabric)|
    ensures OfFabric(Removed(acl, pos), fabric)
         == if acl[pos].fabric == fabric then Removed(OfFabric(acl, fabric), |OfFabric(acl[..pos], fabric)|) else OfFabric(acl, fabric)
  {
    OfFabricAround(acl, pos, fabric);
    OfFabricSplit(acl[..pos], acl[pos + 1..], fabric);
  }

  lemma ReplaceAt(acl: seq<Entry>, pos: nat, e: Entry, fabric: nat)
    requires pos < |acl|
    ensures var i := |OfFabric(acl[..pos], fabric)|;
            OfFabric(acl[pos := e], fabric)
            == OfFabric(acl[..pos], fabric) + (if e.fabric == fabric then [e] else []) + OfFabric(acl[pos + 1..], fabric)
  {
    OfFabricAround(acl[pos := e], pos, fabric);
    assert acl[pos := e][..pos] == acl[..pos] && acl[pos := e][pos + 1..] == acl[pos + 1..];
  }

  // ---------- changes and their replay ----------

  datatype ChangeType = Added | RemovedEntry | Updated

  // What a listener is told: the fabric, the index in it, the entry if known, and what happened.
  datatype Change = Change(fabric: nat, index: nat, entry: Option<Entry>, kind: ChangeType)

  // What a listener that mirrors a fabric's entries does with a change.
  function Apply(es: seq<Entry>, c: Change): seq<Entry> {
    match c.kind
    case Added => if c.entry.Some? then es + [c.entry.value] else es
    case RemovedEntry => if c.index < |es| then Removed(es, c.index) else es
    case Updated => if c.index < |es| && c.entry.Some? then es[c.index := c.entry.value] else es
  }

  function Replay(es: seq<Entry>, changes: seq<Change>, fabric: nat): seq<Entry> {
    if changes == [] then es
    else
      var before := Replay(es, changes[..|changes| - 1], fabric);
      var c := changes[|changes| - 1];
      if c.fabric == fabric then Apply(before, c) else before
  }

  // ---------- operations ----------

  datatype Op =
    | CreateOp(fabric: nat, entry: Entry)
    | UpdateOp(fabric: nat, index: nat, entry: Entry)
    | DeleteOp(fabric: nat, index: nat, fault: Option<ChipError>, listened: bool)

  datatype Effect = Effect(acl: seq<Entry>, err: ChipError, changes: seq<Change>)

  // What one operation does to the list, what it returns and what it announces. A delete may fail
  // inside the delegate; the removed entry is announced only if somebody listened beforehand.
  function Perform(acl: seq<Entry>, limits: Limits, op: Op): Effect {
    match op
    case CreateOp(fabric, e) =>
      if |OfFabric(acl, fabric)| + 1 > limits.entriesPerFabric then Effect(acl, BufferTooSmall, [])
      else if !ValidEntry(e) then Effect(acl, InvalidArgument, [])
      else if |acl| >= limits.entries || !StorageFits(limits, e) then Effect(acl, BufferTooSmall, [])
      else Effect(acl + [e], NoError, [Change(e.fabric, |OfFabric(acl, e.fabric)|, Some(e), Added)])
    case UpdateOp(fabric, index, e) =>
      var pos := Position(acl, fabric, index);
      if !ValidEntry(e) then Effect(acl, InvalidArgument, [])
      else if pos.None? then Effect(acl, Sentinel, [])
      else if !StorageFits(limits, e) then Effect(acl, BufferTooSmall, [])
      else Effect(acl[pos.value := e], NoError, [Change(fabric, index, Some(e), Updated)])
    case DeleteOp(fabric, index, fault, listened) =>
      var pos := Position(acl, fabric, index);
      if pos.None? then Effect(acl, Sentinel, [])
      else if fault.Some? then Effect(acl, fault.value, [])
      else Effect(Removed(acl, pos.value), NoError,
                  [Change(fabric, index, if listened then Some(acl[pos.value]) else None, RemovedEntry)])
  }

  // Every operation keeps the entries valid.
  lemma PerformKeepsValid(acl: seq<Entry>, limits: Limits, op: Op)
    requires AllValid(acl)
    ensures AllValid(Perform(acl, limits, op).acl)
  {
  }

  lemma AppendReplays(acl: seq<Entry>, e: Entry, fabric: nat)
    ensures OfFabric(acl + [e], fabric) == if e.fabric == fabric then OfFabric(acl, fabric) + [e] else OfFabric(acl, fabric)
  {
    OfFabricSplit(acl, [e], fabric);
    OfFabricOne(e, fabric);
  }

  // Such an update succeeds, and it moves the entry into another fabric.
  predicate MovesEntry(acl: seq<Entry>, limits: Limits, op: Op) {
    && op.UpdateOp? && op.entry.fabric != op.fabric
    && ValidEntry(op.entry) && Position(acl, op.fabric, op.index).Some? && StorageFits(limits, op.entry)
  }

  // A mirror of a fabric that replays what one operation announces agrees with the store afterwards,
  // with one exception: an update that moves the entry into another fabric is announced to the
  // fabric it leaves, and the mirrors of both fabrics are then wrong.
  lemma PerformReplays(acl: seq<Entry>, limits: Limits, op: Op, fabric: nat)
    ensures var after := Perform(acl, limits, op);
            Replay(OfFabric(acl, fabric), after.changes, fabric) == OfFabric(after.acl, fabric)
            <==> !(MovesEntry(acl, limits, op) && (fabric == op.fabric || fabric == op.entry.fabric))
  {
    match op
    case CreateOp(_, _) => CreateReplays(acl, limits, op, fabric);
    case UpdateOp(_, _, _) => UpdateReplays(acl, limits, op, fabric);
    case DeleteOp(_, _, _, _) => DeleteReplays(acl, limits, op, fabric);
  }

  lemma CreateReplays(acl: seq<Entry>, limits: Limits, op: Op, fabric: nat)
    requires op.CreateOp?
    ensures var after := Perform(acl, limits, op);
            Replay(OfFabric(acl, fabric), after.changes, fabric) == OfFabric(after.acl, fabric)
  {
    var after := Perform(acl, limits, op);
    if after.err == NoError {
      ReplayOne(OfFabric(acl, fabric), after.changes[0], fabric);
      AppendReplays(acl, op.entry, fabric);
    }
  }

  lemma DeleteReplays(acl: seq<Entry>, limits: Limits, op: Op, fabric: nat)
    requires op.DeleteOp?
    ensures var after := Perform(acl, limits, op);
            Replay(OfFabric(acl, fabric), after.changes, fabric) == OfFabric(after.acl, fabric)
  {
    var after := Perform(acl, limits, op);
    if after.changes != [] {
      ReplayOne(OfFabric(acl, fabric), after.changes[0], fabric);
      RemoveAt(acl, Position(acl, op.fabric, op.index).value, fabric);
    }
  }

  lemma UpdateReplays(acl: seq<Entry>, limits: Limits, op: Op, fabric: nat)
    requires op.UpdateOp?
    ensures var after := Perform(acl, limits, op);
            Replay(OfFabric(acl, fabric), after.changes, fabric) == OfFabric(after.acl, fabric)
            <==> !(MovesEntry(acl, limits, op) && (fabric == op.fabric || fabric == op.entry.fabric))
  {
    var after := Perform(acl, limits, op);
    if after.err == NoError && after.changes != [] {
      ReplayOne(OfFabric(acl, fabric), after.changes[0], fabric);
      UpdateSeen(acl, Position(acl, op.fabric, op.index).value, op.entry, fabric);
    }
  }

  lemma ReplayOne(es: seq<Entry>, c: Change, fabric: nat)
    ensures Replay(es, [c], fabric) == if c.fabric == fabric then Apply(es, c) else es
  {
    assert [c][..0] == [];
  }

  lemma UpdateSeen(acl: seq<Entry>, pos: nat, e: Entry, fabric: nat)
    requires pos < |acl|
    ensures var i := |OfFabric(acl[..pos], fabric)|;
            var es, es' := OfFabric(acl, fabric), OfFabric(acl[pos := e], fabric);
            && (acl[pos].fabric == fabric ==> i < |es|)
            && (acl[pos].fabric == fabric && e.fabric == fabric ==> es' == es[i := e])
            && (acl[pos].fabric == fabric && e.fabric != fabric ==> |es'| == |es| - 1)
            && (acl[pos].fabric != fabric && e.fabric == fabric ==> |es'| == |es| + 1)
            && (acl[pos].fabric != fabric && e.fabric != fabric ==> es' == es)
  {
    OfFabricAround(acl, pos, fabric);
    ReplaceAt(acl, pos, e, fabric);
  }

  // ---------- what each operation answers ----------

  // A creation is refused for a full fabric, an unacceptable entry or a full store, in that order, and
  // then changes and announces nothing. Otherwise the entry comes last among those of its fabric.
  lemma CreateExactly(acl: seq<Entry>, limits: Limits, fabric: nat, e: Entry)
    ensures var after := Perform(acl, limits, CreateOp(fabric, e));
            if |OfFabric(acl, fabric)| >= limits.entriesPerFabric then after == Effect(acl, BufferTooSmall, [])
            else if !Acceptable(e) then after == Effect(acl, InvalidArgument, [])
            else if |acl| >= limits.entries || |e.subjects| > limits.subjectsPerEntry || |e.targets| > limits.targetsPerEntry
            then after == Effect(acl, BufferTooSmall, [])
            else
              && after.err == NoError
              && OfFabric(after.acl, e.fabric) == OfFabric(acl, e.fabric) + [e]
              && (forall g: nat :: g != e.fabric ==> OfFabric(after.acl, g) == OfFabric(acl, g))
              && after.changes == [Change(e.fabric, |OfFabric(acl, e.fabric)|, Some(e), Added)]
  {
    ValidEntryExactly(e);
    forall g: nat
      ensures OfFabric(acl + [e], g) == if g == e.fabric then OfFabric(acl, g) + [e] else OfFabric(acl, g)
    {
      AppendReplays(acl, e, g);
    }
  }

  // An update is refused for an unacceptable entry, an index the fabric does not have or an entry that
  // is too large. Otherwise the entry takes that place, if it stays in the fabric.
  lemma UpdateExactly(acl: seq<Entry>, limits: Limits, fabric: nat, index: nat, e: Entry)
    ensures var after := Perform(acl, limits, UpdateOp(fabric, index, e));
            if !Acceptable(e) then after == Effect(acl, InvalidArgument, [])
            else if index >= |OfFabric(acl, fabric)| then after == Effect(acl, Sentinel, [])
            else if |e.subjects| > limits.subjectsPerEntry || |e.targets| > limits.targetsPerEntry then after == Effect(acl, BufferTooSmall, [])
            else
              && after.err == NoError && after.changes == [Change(fabric, index, Some(e), Updated)]
              && (e.fabric == fabric ==> OfFabric(after.acl, fabric) == OfFabric(acl, fabric)[index := e])
              && (forall g: nat :: g != fabric && g != e.fabric ==> OfFabric(after.acl, g) == OfFabric(acl, g))
  {
    ValidEntryExactly(e);
    var pos := Position(acl, fabric, index);
    if pos.Some? {
      forall g: nat
        ensures OfFabric(acl[pos.value := e], g) ==
                  if g == fabric && g == e.fabric then OfFabric(acl, fabric)[index := e]
                  else if g != fabric && g != e.fabric then OfFabric(acl, g) else OfFabric(acl[pos.value := e], g)
      {
        UpdateSeen(acl, pos.value, e, g);
      }
    }
  }

  // A deletion of an index the fabric has succeeds unless the delegate fails, and takes out just that
  // entry.
  lemma DeleteExactly(acl: seq<Entry>, limits: Limits, fabric: nat, index: nat, fault: Option<ChipError>, listened: bool)
    ensures var after := Perform(acl, limits, DeleteOp(fabric, index, fault, listened));
            var es := OfFabric(acl, fabric);
            if index >= |es| then after == Effect(acl, Sentinel, [])
            else if fault.Some? then after == Effect(acl, fault.value, [])
            else
              && after.err == NoError
              && OfFabric(after.acl, fabric) == es[..index] + es[index + 1..]
              && (forall g: nat :: g != fabric ==> OfFabric(after.acl, g) == OfFabric(acl, g))
              && after.changes == [Change(fabric, index, if listened then Some(es[index]) else None, RemovedEntry)]
  {
    var pos := Position(acl, fabric, index);
    if pos.Some? {
      OfFabricAround(acl, pos.value, fabric);
      forall g: nat
        ensures OfFabric(Removed(acl, pos.value), g) == if g == fabric then Removed(OfFabric(acl, g), index) else OfFabric(acl, g)
      {
        RemoveAt(acl, pos.value, g);
      }
    }
  }

  // Such an update: one entry, moved from fabric 1 to fabric 2.
  lemma MoveSpoilsMirrors(limits: Limits, e: Entry)
    requires ValidEntry(e.(fabric := 2)) && StorageFits(limits, e) && e.fabric == 1
    ensures var op := UpdateOp(1, 0, e.(fabric := 2));
            var after := Perform([e], limits, op);
            && MovesEntry([e], limits, op)
            && Replay(OfFabric([e], 1), after.changes, 1) != OfFabric(after.acl, 1)
            && Replay(OfFabric([e], 2), after.changes, 2) != OfFabric(after.acl, 2)
  {
    OfFabricOne(e, 1);
    var op := UpdateOp(1, 0, e.(fabric := 2));
    PerformReplays([e], limits, op, 1);
    PerformReplays([e], limits, op, 2);
  }

  // ---------- the limit per fabric ----------

  ghost predicate WithinLimit(acl: seq<Entry>, limits: Limits) {
    forall g: nat :: |OfFabric(acl, g)| <= limits.entriesPerFabric
  }

  // A creation passes the checks, which look at the caller's fabric.
  predicate Stores(acl: seq<Entry>, limits: Limits, op: Op) {
    && op.CreateOp? && |OfFabric(acl, op.fabric)| < limits.entriesPerFabric && ValidEntry(op.entry)
    && |acl| < limits.entries && StorageFits(limits, op.entry)
  }

  // An entry is put into another fabric than the caller's, and that one is full.
  predicate Overfills(acl: seq<Entry>, limits: Limits, op: Op) {
    && (MovesEntry(acl, limits, op) || (Stores(acl, limits, op) && op.entry.fabric != op.fabric))
    && |OfFabric(acl, op.entry.fabric)| >= limits.entriesPerFabric
  }

  // An operation keeps every fabric within its limit with exactly that exception.
  lemma PerformKeepsLimit(acl: seq<Entry>, limits: Limits, op: Op)
    requires WithinLimit(acl, limits)
    ensures WithinLimit(Perform(acl, limits, op).acl, limits) <==> !Overfills(acl, limits, op)
  {
    var after := Perform(acl, limits, op).acl;
    if Overfills(acl, limits, op) {
      OneMore(acl, limits, op);
      return;
    }
    forall g: nat
      ensures |OfFabric(after, g)| <= limits.entriesPerFabric
    {
      match op
      case CreateOp(_, _) => CreateKeepsLimit(acl, limits, op, g);
      case UpdateOp(_, _, _) => UpdateKeepsLimit(acl, limits, op, g);
      case DeleteOp(_, _, _, _) => DeleteKeepsLimit(acl, limits, op, g);
    }
  }

  lemma CreateKeepsLimit(acl: seq<Entry>, limits: Limits, op: Op, g: nat)
    requires WithinLimit(acl, limits) && op.CreateOp? && !Overfills(acl, limits, op)
    ensures |OfFabric(Perform(acl, limits, op).acl, g)| <= limits.entriesPerFabric
  {
    if Stores(acl, limits, op) {
      AppendReplays(acl, op.entry, g);
    }
  }

  lemma UpdateKeepsLimit(acl: seq<Entry>, limits: Limits, op: Op, g: nat)
    requires WithinLimit(acl, limits) && op.UpdateOp? && !Overfills(acl, limits, op)
    ensures |OfFabric(Perform(acl, limits, op).acl, g)| <= limits.entriesPerFabric
  {
    var pos := Position(acl, op.fabric, op.index);
    if pos.Some? {
      UpdateSeen(acl, pos.value, op.entry, g);
    }
  }

  lemma DeleteKeepsLimit(acl: seq<Entry>, limits: Limits, op: Op, g: nat)
    requires WithinLimit(acl, limits) && op.DeleteOp?
    ensures |OfFabric(Perform(acl, limits, op).acl, g)| <= limits.entriesPerFabric
  {
    var pos := Position(acl, op.fabric, op.index);
    if pos.Some? {
      RemoveAt(acl, pos.value, g);
    }
  }

  lemma OneMore(acl: seq<Entry>, limits: Limits, op: Op)
    requires Overfills(acl, limits, op)
    ensures |OfFabric(Perform(acl, limits, op).acl, op.entry.fabric)| > limits.entriesPerFabric
  {
    if op.CreateOp? {
      AppendReplays(acl, op.entry, op.entry.fabric);
    } else {
      UpdateSeen(acl, Position(acl, op.fabric, op.index).value, op.entry, op.entry.fabric);
    }
  }

  // Every store built by operations that leave entries in the caller's fabric keeps the limit.
  lemma {:induction false} BuiltWithinLimit(limits: Limits, ops: seq<Op>)
    requires forall i :: 0 <= i < |ops| ==> KeepsFabric(ops[i]) && (ops[i].CreateOp? ==> ops[i].entry.fabric == ops[i].fabric)
    ensures WithinLimit(PerformAll([], limits, ops).acl, limits)
  {
    if ops != [] {
      var n := |ops| - 1;
      BuiltWithinLimit(limits, ops[..n]);
      PerformKeepsLimit(PerformAll([], limits, ops[..n]).acl, limits, ops[n]);
    }
  }

  // With one entry allowed per fabric, two creations through fabric 1 put two entries into fabric 2.
  lemma LimitOverrun(e: Entry)
    requires ValidEntry(e) && e.fabric == 2 && |e.subjects| <= 4 && |e.targets| <= 4
    ensures var limits, op := Limits(10, 1, 4, 4), CreateOp(1, e);
            |OfFabric(Perform(Perform([], limits, op).acl, limits, op).acl, 2)| == 2
  {
    var limits, op := Limits(10, 1, 4, 4), CreateOp(1, e);
    assert Perform([], limits, op).acl == [e];
    OfFabricOne(e, 1);
    OfFabricOne(e, 2);
    AppendReplays([e], e, 2);
  }

  // ---------- runs ----------

  function PerformAll(acl: seq<Entry>, limits: Limits, ops: seq<Op>): Effect {
    if ops == [] then Effect(acl, NoError, [])
    else
      var before := PerformAll(acl, limits, ops[..|ops| - 1]);
      var last := Perform(before.acl, limits, ops[|ops| - 1]);
      Effect(last.acl, last.err, before.changes + last.changes)
  }

  predicate KeepsFabric(op: Op) {
    op.UpdateOp? ==> op.entry.fabric == op.fabric
  }

  lemma {:induction false} ReplaySplit(es: seq<Entry>, xs: seq<Change>, ys: seq<Change>, fabric: nat)
    ensures Replay(es, xs + ys, fabric) == Replay(Replay(es, xs, fabric), ys, fabric)
  {
    if ys == [] {
      assert xs + ys == xs;
    } else {
      var n := |ys| - 1;
      assert (xs + ys)[..|xs| + n] == xs + ys[..n];
      ReplaySplit(es, xs, ys[..n], fabric);
    }
  }

  // Over any run of operations the store stays valid, and a listener present throughout rebuilds
  // every fabric's entries from what it was told.
  lemma {:induction false} RunReplays(acl: seq<Entry>, limits: Limits, ops: seq<Op>, fabric: nat)
    requires AllValid(acl)
    requires forall i :: 0 <= i < |ops| ==> KeepsFabric(ops[i])
    ensures AllValid(PerformAll(acl, limits, ops).acl)
    ensures Replay(OfFabric(acl, fabric), PerformAll(acl, limits, ops).changes, fabric) == OfFabric(PerformAll(acl, limits, ops).acl, fabric)
  {
    if ops != [] {
      var n := |ops| - 1;
      RunReplays(acl, limits, ops[..n], fabric);
      var before := PerformAll(acl, limits, ops[..n]);
      PerformReplays(before.acl, limits, ops[n], fabric);
      PerformKeepsValid(before.acl, limits, ops[n]);
      ReplaySplit(OfFabric(acl, fabric), before.changes, Perform(before.acl, limits, ops[n]).changes, fabric);
    }
  }

  // Every store that validated operations build from nothing holds valid entries only, which is
  // what the decision loop relies on.
  lemma {:induction false} BuiltFromEmpty(limits: Limits, ops: seq<Op>)
    ensures AllValid(PerformAll([], limits, ops).acl)
  {
    if ops != [] {
      BuiltFromEmpty(limits, ops[..|ops| - 1]);
      PerformKeepsValid(PerformAll([], limits, ops[..|ops| - 1]).acl, limits, ops[|ops| - 1]);
    }
  }

  // The decision on any store built that way: allowed exactly if the subject is PASE or some entry
  // of its fabric grants the request.
  method CheckBuilt(limits: Limits, ops: seq<Op>, d: SubjectDescriptor, p: RequestPath, request: Privilege,
                    onEndpoint: (nat, nat) -> bool) returns (err: ChipError)
    ensures err == if Allowed(PerformAll([], limits, ops).acl, d, p, request, onEndpoint) then NoError else AccessDenied
  {
    BuiltFromEmpty(limits, ops);
    err := Check(PerformAll([], limits, ops).acl, d, p, request, onEndpoint, NotImplemented);
  }
}
