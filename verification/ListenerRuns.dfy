// Whole runs of the access control object: changes of the list and of the listeners in any order.

module ListenerRuns {
  import opened Core
  import opened AccessEntries
  import opened AccessStore
  import opened BulkDeletion
  import opened AccessControl

  datatype Call =
    | CreateCall(fabric: nat, entry: Entry)
    | UpdateCall(fabric: nat, index: nat, entry: Entry)
    | DeleteCall(fabric: nat, index: nat)
    | DeleteAllCall(fabric: nat)
    | AddCall(listener: EntryListener)
    | RemoveCall(listener: EntryListener)

  // What a call comes to on the store, with the outcomes its deletions met.
  ghost predicate CarriesOut(call: Call, acl: seq<Entry>, ops: seq<Op>) {
    match call
    case CreateCall(fabric, entry) => ops == [CreateOp(fabric, entry)]
    case UpdateCall(fabric, index, entry) => ops == [UpdateOp(fabric, index, entry)]
    case DeleteCall(fabric, index) => exists fault :: ops == [DeleteOp(fabric, index, fault, true)]
    case DeleteAllCall(fabric) => exists met :: |met| == |OfFabric(acl, fabric)| && RealFaults(met) && ops == DownOps(fabric, |met|, met)
    case _ => ops == []
  }

  // The deletions from index n - 1 down.
  function DownOps(fabric: nat, n: nat, met: seq<Option<ChipError>>): (ops: seq<Op>)
    requires |met| <= n
    ensures forall i :: 0 <= i < |ops| ==> ops[i].DeleteOp?
  {
    if met == [] then []
    else DownOps(fabric, n, met[..|met| - 1]) + [DeleteOp(fabric, n - |met|, met[|met| - 1], true)]
  }

  // Every call of a run is carried out on the store that the calls before it left.
  ghost predicate AllCarriedOut(calls: seq<Call>, acl: seq<Entry>, limits: Limits, runs: seq<seq<Op>>) {
    |calls| == |runs| &&
    (calls == [] ||
      var n := |calls| - 1;
      && AllCarriedOut(calls[..n], acl, limits, runs[..n])
      && CarriesOut(calls[n], PerformAll(acl, limits, Flat(runs[..n])).acl, runs[n]))
  }

  function Flat(runs: seq<seq<Op>>): seq<Op> {
    if runs == [] then [] else Flat(runs[..|runs| - 1]) + runs[|runs| - 1]
  }

  lemma PerformNext(acl: seq<Entry>, limits: Limits, ops: seq<Op>, op: Op)
    ensures var before, all := PerformAll(acl, limits, ops), PerformAll(acl, limits, ops + [op]);
            var after := Perform(before.acl, limits, op);
            all == Effect(after.acl, after.err, before.changes + after.changes)
  {
    assert (ops + [op])[..|ops|] == ops;
  }

  lemma Regroup<T>(a: seq<T>, b: seq<T>, c: seq<T>)
    ensures (a + b) + c == a + (b + c)
  {
  }

  lemma OneLonger<T>(s: seq<T>, n: nat)
    requires n < |s|
    ensures s[..n + 1] == s[..n] + [s[n]]
    ensures n + 1 == |s| ==> s[..n + 1] == s
  {
  }

  lemma {:induction false} PerformAllSplit(acl: seq<Entry>, limits: Limits, xs: seq<Op>, ys: seq<Op>)
    ensures var before := PerformAll(acl, limits, xs);
            var after := PerformAll(before.acl, limits, ys);
            var all := PerformAll(acl, limits, xs + ys);
            all.acl == after.acl && all.changes == before.changes + after.changes
  {
    var before := PerformAll(acl, limits, xs);
    if ys == [] {
      assert xs + ys == xs;
      return;
    }
    var n := |ys| - 1;
    OneLonger(ys, n);
    PerformAllSplit(acl, limits, xs, ys[..n]);
    var after := PerformAll(before.acl, limits, ys[..n]);
    Regroup(xs, ys[..n], [ys[n]]);
    PerformNext(acl, limits, xs + ys[..n], ys[n]);
    PerformNext(before.acl, limits, ys[..n], ys[n]);
    Regroup(before.changes, after.changes, Perform(after.acl, limits, ys[n]).changes);
  }

  lemma PerformOne(acl: seq<Entry>, limits: Limits, op: Op)
    ensures var one, after := PerformAll(acl, limits, [op]), Perform(acl, limits, op);
            one.acl == after.acl && one.changes == after.changes
  {
    assert [op][..0] == [];
  }

  // Deleting all entries of a fabric is those deletions, one after the other.
  lemma {:induction false} DeleteDownOps(acl: seq<Entry>, limits: Limits, fabric: nat, n: nat, met: seq<Option<ChipError>>)
    requires |met| <= n
    ensures var bulk, done := DeleteDown(acl, limits, fabric, n, met, true), PerformAll(acl, limits, DownOps(fabric, n, met));
            bulk.acl == done.acl && bulk.changes == done.changes
  {
    if met == [] {
      return;
    }
    var k := |met| - 1;
    DeleteDownOps(acl, limits, fabric, n, met[..k]);
    PerformNext(acl, limits, DownOps(fabric, n, met[..k]), DeleteOp(fabric, n - |met|, met[k], true));
  }

  // The listeners a call names.
  function Named(call: Call): set<EntryListener> {
    if call.AddCall? || call.RemoveCall? then {call.listener} else {}
  }

  // A listener is present, and all present ones are among `all`.
  ghost predicate Present(control: AccessControl, l: EntryListener, all: set<EntryListener>)
    reads control, control.listeners
  {
    control.Linked() && control.initialized && l in control.listeners && forall k :: k in control.listeners ==> k in all
  }

  // A call that changes the list.
  method ChangeEntries(control: AccessControl, call: Call, l: EntryListener, ghost all: set<EntryListener>) returns (ghost ops: seq<Op>)
    requires Present(control, l, all) && !call.AddCall? && !call.RemoveCall?
    modifies control`acl, control`attempts, control.listeners`seen
    ensures Present(control, l, all) && CarriesOut(call, old(control.acl), ops)
    ensures var done := PerformAll(old(control.acl), control.limits, ops);
            control.acl == done.acl && l.seen == old(l.seen) + done.changes
  {
    var err;
    ghost var changes;
    match call {
      case CreateCall(fabric, entry) =>
        ops := [CreateOp(fabric, entry)];
        PerformOne(control.acl, control.limits, ops[0]);
        err, changes := control.CreateEntry(fabric, entry);
      case UpdateCall(fabric, index, entry) =>
        ops := [UpdateOp(fabric, index, entry)];
        PerformOne(control.acl, control.limits, ops[0]);
        err, changes := control.UpdateEntry(fabric, index, entry);
      case DeleteCall(fabric, index) =>
        ops := DeleteOnce(control, fabric, index, l, all);
      case DeleteAllCall(fabric) =>
        ops := DeleteEach(control, fabric, l, all);
    }
  }

  method DeleteOnce(control: AccessControl, fabric: nat, index: nat, l: EntryListener, ghost all: set<EntryListener>)
    returns (ghost ops: seq<Op>)
    requires Present(control, l, all)
    modifies control`acl, control`attempts, control.listeners`seen
    ensures Present(control, l, all) && CarriesOut(DeleteCall(fabric, index), old(control.acl), ops)
    ensures var done := PerformAll(old(control.acl), control.limits, ops);
            control.acl == done.acl && l.seen == old(l.seen) + done.changes
  {
    var err;
    ghost var changes, fault;
    err, changes, fault := control.DeleteEntry(fabric, index);
    ops := [DeleteOp(fabric, index, fault, true)];
    PerformOne(old(control.acl), control.limits, ops[0]);
  }

  method DeleteEach(control: AccessControl, fabric: nat, l: EntryListener, ghost all: set<EntryListener>)
    returns (ghost ops: seq<Op>)
    requires Present(control, l, all)
    modifies control`acl, control`attempts, control.listeners`seen
    ensures Present(control, l, all) && CarriesOut(DeleteAllCall(fabric), old(control.acl), ops)
    ensures var done := PerformAll(old(control.acl), control.limits, ops);
            control.acl == done.acl && l.seen == old(l.seen) + done.changes
  {
    var err;
    ghost var met, done;
    err, met, done := control.DeleteAllEntriesForFabric(fabric);
    ops := DownOps(fabric, |met|, met);
    DeleteDownOps(old(control.acl), control.limits, fabric, |met|, met);
  }

  // A call that links or unlinks a listener.
  method Relink(control: AccessControl, call: Call, l: EntryListener, ghost all: set<EntryListener>)
    requires Present(control, l, all) && (call.AddCall? || call.RemoveCall?) && call != RemoveCall(l) && Named(call) <= all
    modifies control`head, control`listeners, all`next
    ensures Present(control, l, all)
  {
    match call {
      case AddCall(listener) => control.AddEntryListener(listener);
      case RemoveCall(listener) => control.RemoveEntryListener(listener);
    }
  }

  method Carry(control: AccessControl, call: Call, l: EntryListener, ghost all: set<EntryListener>) returns (ghost ops: seq<Op>)
    requires Present(control, l, all) && call != RemoveCall(l) && Named(call) <= all
    modifies control`acl, control`attempts, control`head, control`listeners, all
    ensures Present(control, l, all) && CarriesOut(call, old(control.acl), ops)
    ensures var done := PerformAll(old(control.acl), control.limits, ops);
            control.acl == done.acl && l.seen == old(l.seen) + done.changes
  {
    if call.AddCall? || call.RemoveCall? {
      Relink(control, call, l, all);
      return [];
    }
    ops := ChangeEntries(control, call, l, all);
  }

  // The calls of a run led from one store to another and announced the changes.
  ghost predicate Reached(calls: seq<Call>, acl: seq<Entry>, limits: Limits, runs: seq<seq<Op>>, now: seq<Entry>, changes: seq<Change>) {
    && AllCarriedOut(calls, acl, limits, runs)
    && PerformAll(acl, limits, Flat(runs)).acl == now && PerformAll(acl, limits, Flat(runs)).changes == changes
  }

  lemma CarriedOn(calls: seq<Call>, call: Call, acl: seq<Entry>, limits: Limits, runs: seq<seq<Op>>, ops: seq<Op>,
                  now: seq<Entry>, changes: seq<Change>)
    requires Reached(calls, acl, limits, runs, now, changes) && CarriesOut(call, now, ops)
    ensures var done := PerformAll(now, limits, ops);
            Reached(calls + [call], acl, limits, runs + [ops], done.acl, changes + done.changes)
  {
    assert (calls + [call])[..|calls|] == calls && (runs + [ops])[..|runs|] == runs;
    PerformAllSplit(acl, limits, Flat(runs), ops);
  }

  // One call of a run.
  method Next(control: AccessControl, call: Call, l: EntryListener, ghost all: set<EntryListener>, ghost before: seq<Call>,
              ghost start: seq<Entry>, ghost told: seq<Change>, ghost runs: seq<seq<Op>>, ghost changes: seq<Change>)
    returns (ghost runs': seq<seq<Op>>, ghost changes': seq<Change>)
    requires Present(control, l, all) && call != RemoveCall(l) && Named(call) <= all
    requires Reached(before, start, control.limits, runs, control.acl, changes) && l.seen == told + changes
    modifies control`acl, control`attempts, control`head, control`listeners, all
    ensures Present(control, l, all)
    ensures Reached(before + [call], start, control.limits, runs', control.acl, changes') && l.seen == told + changes'
  {
    ghost var now := control.acl;
    ghost var ops := Carry(control, call, l, all);
    ghost var more := PerformAll(now, control.limits, ops).changes;
    CarriedOn(before, call, start, control.limits, runs, ops, now, changes);
    Regroup(told, changes, more);
    runs', changes' := runs + [ops], changes + more;
  }

  // A run of calls during which listener l is not removed: whatever the others do, and whatever
  // deletions fail, l is told exactly the changes of the run.
  method Run(control: AccessControl, calls: seq<Call>, l: EntryListener, ghost all: set<EntryListener>)
    returns (ghost runs: seq<seq<Op>>, ghost changes: seq<Change>)
    requires Present(control, l, all)
    requires forall i :: 0 <= i < |calls| ==> calls[i] != RemoveCall(l) && Named(calls[i]) <= all
    modifies control`acl, control`attempts, control`head, control`listeners, all
    ensures Present(control, l, all)
    ensures Reached(calls, old(control.acl), control.limits, runs, control.acl, changes) && l.seen == old(l.seen) + changes
  {
    runs, changes := [], [];
    ghost var start, told := control.acl, l.seen;
    var i := 0;
    while i < |calls|
      invariant 0 <= i <= |calls| && Present(control, l, all)
      invariant Reached(calls[..i], start, control.limits, runs, control.acl, changes) && l.seen == told + changes
    {
      OneLonger(calls, i);
      runs, changes := Next(control, calls[i], l, all, calls[..i], start, told, runs, changes);
      i := i + 1;
    }
    assert calls[..i] == calls;
  }

  lemma CallKeepsFabric(call: Call, acl: seq<Entry>, ops: seq<Op>)
    requires CarriesOut(call, acl, ops) && (call.UpdateCall? ==> call.entry.fabric == call.fabric)
    ensures forall i :: 0 <= i < |ops| ==> KeepsFabric(ops[i])
  {
  }

  lemma {:induction false} RunKeepsFabric(calls: seq<Call>, acl: seq<Entry>, limits: Limits, runs: seq<seq<Op>>)
    requires AllCarriedOut(calls, acl, limits, runs)
    requires forall i :: 0 <= i < |calls| && calls[i].UpdateCall? ==> calls[i].entry.fabric == calls[i].fabric
    ensures forall i :: 0 <= i < |Flat(runs)| ==> KeepsFabric(Flat(runs)[i])
  {
    if calls != [] {
      var n := |calls| - 1;
      RunKeepsFabric(calls[..n], acl, limits, runs[..n]);
      CallKeepsFabric(calls[n], PerformAll(acl, limits, Flat(runs[..n])).acl, runs[n]);
    }
  }

  // If the updates of the run keep entries in their fabrics, l can rebuild any fabric's entries from
  // what it was told.
  lemma ListenerRebuilds(calls: seq<Call>, acl: seq<Entry>, limits: Limits, runs: seq<seq<Op>>, now: seq<Entry>, changes: seq<Change>, fabric: nat)
    requires AllValid(acl) && Reached(calls, acl, limits, runs, now, changes)
    requires forall i :: 0 <= i < |calls| && calls[i].UpdateCall? ==> calls[i].entry.fabric == calls[i].fabric
    ensures AllValid(now) && Replay(OfFabric(acl, fabric), changes, fabric) == OfFabric(now, fabric)
  {
    RunKeepsFabric(calls, acl, limits, runs);
    RunReplays(acl, limits, Flat(runs), fabric);
  }
}
