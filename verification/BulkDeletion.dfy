// Deleting all entries of a fabric, from the last to the first, while some of the deletions fail.

module BulkDeletion {
  import opened Core
  import opened AccessEntries
  import opened AccessStore

  // What is left of a fabric when its entries are deleted from the last to the first and the k-th
  // attempt fails exactly when faults[k] says so.
  function Survivors(es: seq<Entry>, faults: seq<Option<ChipError>>): seq<Entry>
    requires |faults| >= |es|
  {
    if es == [] then []
    else Survivors(es[..|es| - 1], faults[1..]) + if faults[0].Some? then [es[|es| - 1]] else []
  }

  function FirstFault(faults: seq<Option<ChipError>>): ChipError {
    if faults == [] then NoError else if faults[0].Some? then faults[0].value else FirstFault(faults[1..])
  }

  predicate RealFaults(faults: seq<Option<ChipError>>) {
    forall i :: 0 <= i < |faults| && faults[i].Some? ==> faults[i].value != NoError
  }

  // Entry i survives exactly when its own attempt failed.
  lemma {:induction false} SurvivorsAre(es: seq<Entry>, faults: seq<Option<ChipError>>)
    requires |faults| >= |es|
    ensures forall e :: e in Survivors(es, faults) <==> exists i :: 0 <= i < |es| && es[i] == e && faults[|es| - 1 - i].Some?
  {
    if es != [] {
      var n := |es| - 1;
      SurvivorsAre(es[..n], faults[1..]);
      forall e
        ensures e in Survivors(es, faults) <==> exists i :: 0 <= i < |es| && es[i] == e && faults[n - i].Some?
      {
        if e in Survivors(es[..n], faults[1..]) {
          var i :| 0 <= i < n && es[..n][i] == e && faults[1..][n - 1 - i].Some?;
          assert es[i] == e && faults[n - i].Some?;
        }
        if i :| 0 <= i < |es| && es[i] == e && faults[n - i].Some? {
          if i < n {
            assert es[..n][i] == e && faults[1..][n - 1 - i].Some?;
          }
        }
      }
    }
  }

  // Nothing is left exactly when no attempt failed, which is when the result is a success.
  lemma {:induction false} SuccessMeansEmpty(es: seq<Entry>, faults: seq<Option<ChipError>>)
    requires |faults| == |es| && RealFaults(faults)
    ensures FirstFault(faults) == NoError <==> Survivors(es, faults) == []
  {
    if es != [] {
      assert forall i :: 0 <= i < |faults[1..]| ==> faults[1..][i] == faults[i + 1];
      SuccessMeansEmpty(es[..|es| - 1], faults[1..]);
    }
  }

  // The error is that of the first attempt that failed.
  lemma {:induction false} FirstFaultIs(faults: seq<Option<ChipError>>)
    ensures if forall i :: 0 <= i < |faults| ==> faults[i].None? then FirstFault(faults) == NoError
            else exists i :: 0 <= i < |faults| && faults[i] == Some(FirstFault(faults)) && forall j :: 0 <= j < i ==> faults[j].None?
  {
    if faults != [] && faults[0].None? {
      var rest := faults[1..];
      FirstFaultIs(rest);
      assert forall i :: 0 <= i < |rest| ==> rest[i] == faults[i + 1];
      if i :| 0 <= i < |rest| && rest[i] == Some(FirstFault(rest)) && forall j :: 0 <= j < i ==> rest[j].None? {
        assert forall j :: 1 <= j < i + 1 ==> faults[j] == rest[j - 1];
        assert faults[i + 1] == Some(FirstFault(faults));
      }
    }
  }

  lemma {:induction false} SurvivorsFront(e: Entry, es: seq<Entry>, faults: seq<Option<ChipError>>, f: Option<ChipError>)
    requires |faults| == |es|
    ensures Survivors([e] + es, faults + [f]) == (if f.Some? then [e] else []) + Survivors(es, faults)
  {
    var all := [e] + es;
    if es == [] {
      assert all[..0] == [] && (faults + [f])[0] == f;
    } else {
      var n := |es| - 1;
      assert all[..|all| - 1] == [e] + es[..n];
      assert (faults + [f])[1..] == faults[1..] + [f];
      SurvivorsFront(e, es[..n], faults[1..], f);
    }
  }

  lemma {:induction false} FirstFaultSnoc(faults: seq<Option<ChipError>>, f: Option<ChipError>)
    requires RealFaults(faults)
    ensures FirstFault(faults + [f])
         == if FirstFault(faults) != NoError then FirstFault(faults) else if f.Some? then f.value else NoError
  {
    if faults == [] {
      assert ([] + [f])[1..] == [];
    } else {
      assert (faults + [f])[1..] == faults[1..] + [f];
      assert forall i :: 0 <= i < |faults[1..]| ==> faults[1..][i] == faults[i + 1];
      FirstFaultSnoc(faults[1..], f);
    }
  }

  // Where the bulk deletion of a fabric's entries `es` stands once entries i.. were attempted, with
  // the outcomes `met`: what is left, the error so far, and what was announced.
  predicate Deleting(es: seq<Entry>, i: nat, fabric: nat, met: seq<Option<ChipError>>, now: seq<Entry>, told: seq<Change>, sticky: ChipError) {
    && i <= |es| && |met| == |es| - i && RealFaults(met)
    && OfFabric(now, fabric) == es[..i] + Survivors(es[i..], met)
    && sticky == FirstFault(met)
    && Replay(es, told, fabric) == OfFabric(now, fabric)
  }

  lemma DeletingAtFirst(acl: seq<Entry>, fabric: nat)
    ensures var es := OfFabric(acl, fabric); Deleting(es, |es|, fabric, [], acl, [], NoError)
  {
    var es := OfFabric(acl, fabric);
    assert es[|es|..] == [] && es[..|es|] == es;
  }

  // What the bulk deletion comes to.
  predicate Deleted(es: seq<Entry>, fabric: nat, met: seq<Option<ChipError>>, now: seq<Entry>, told: seq<Change>, sticky: ChipError) {
    && |met| == |es|
    && OfFabric(now, fabric) == Survivors(es, met)
    && sticky == FirstFault(met)
    && (sticky == NoError <==> OfFabric(now, fabric) == [])
    && Replay(es, told, fabric) == OfFabric(now, fabric)
  }

  lemma DeletingAtLast(es: seq<Entry>, fabric: nat, met: seq<Option<ChipError>>, now: seq<Entry>, told: seq<Change>, sticky: ChipError)
    requires Deleting(es, 0, fabric, met, now, told, sticky)
    ensures Deleted(es, fabric, met, now, told, sticky)
  {
    assert es[0..] == es && es[..0] == [];
    SuccessMeansEmpty(es, met);
  }

  ghost predicate SameElsewhere(was: seq<Entry>, now: seq<Entry>, fabric: nat) {
    forall g :: g != fabric ==> OfFabric(now, g) == OfFabric(was, g)
  }

  // The entry addressed next is the i-th of the original ones.
  lemma DeletionTarget(es: seq<Entry>, i: nat, fabric: nat, met: seq<Option<ChipError>>, now: seq<Entry>, told: seq<Change>, sticky: ChipError)
    requires i < |es| && Deleting(es, i + 1, fabric, met, now, told, sticky)
    ensures var pos := Position(now, fabric, i); pos.Some? && now[pos.value] == es[i]
  {
    var pos := Position(now, fabric, i);
    assert OfFabric(now, fabric)[i] == es[i];
    OfFabricAround(now, pos.value, fabric);
  }

  lemma SurvivorsStep(es: seq<Entry>, i: nat, met: seq<Option<ChipError>>, fault: Option<ChipError>)
    requires i < |es| && |met| == |es| - i - 1
    ensures es[..i] + Survivors(es[i..], met + [fault])
         == (if fault.Some? then es[..i + 1] else es[..i]) + Survivors(es[i + 1..], met)
  {
    assert es[i..] == [es[i]] + es[i + 1..];
    SurvivorsFront(es[i], es[i + 1..], met, fault);
    assert es[..i] + [es[i]] == es[..i + 1];
  }

  lemma RemovedAmid(xs: seq<Entry>, ys: seq<Entry>, i: nat)
    requires |xs| == i + 1
    ensures Removed(xs + ys, i) == xs[..i] + ys
  {
  }

  lemma DeletedOf(es: seq<Entry>, i: nat, fabric: nat, met: seq<Option<ChipError>>, now: seq<Entry>, limits: Limits, op: Op)
    requires i < |es| && |met| == |es| - i - 1
    requires OfFabric(now, fabric) == es[..i + 1] + Survivors(es[i + 1..], met)
    requires op.DeleteOp? && op.fabric == fabric && op.index == i
    ensures OfFabric(Perform(now, limits, op).acl, fabric) == es[..i] + Survivors(es[i..], met + [op.fault])
  {
    SurvivorsStep(es, i, met, op.fault);
    if op.fault.None? {
      RemoveAt(now, Position(now, fabric, i).value, fabric);
      RemovedAmid(es[..i + 1], Survivors(es[i + 1..], met), i);
      assert es[..i + 1][..i] == es[..i];
    }
  }

  // One step of the bulk deletion, seen from the fabric.
  lemma DeletionStep(es: seq<Entry>, i: nat, fabric: nat, met: seq<Option<ChipError>>, now: seq<Entry>, told: seq<Change>, sticky: ChipError,
                     limits: Limits, op: Op)
    requires i < |es| && Deleting(es, i + 1, fabric, met, now, told, sticky)
    requires op.DeleteOp? && op.fabric == fabric && op.index == i && op.fault != Some(NoError)
    ensures var after := Perform(now, limits, op);
            Deleting(es, i, fabric, met + [op.fault], after.acl, told + after.changes, if sticky == NoError then after.err else sticky)
  {
    var after := Perform(now, limits, op);
    DeletionTarget(es, i, fabric, met, now, told, sticky);
    DeletedOf(es, i, fabric, met, now, limits, op);
    FirstFaultSnoc(met, op.fault);
    DeleteReplays(now, limits, op, fabric);
    ReplaySplit(es, told, after.changes, fabric);
  }

  // And from any other fabric.
  lemma DeletionElsewhere(now: seq<Entry>, limits: Limits, op: Op)
    requires op.DeleteOp?
    ensures SameElsewhere(now, Perform(now, limits, op).acl, op.fabric)
  {
    var pos := Position(now, op.fabric, op.index);
    if pos.Some? {
      forall g | g != op.fabric ensures OfFabric(Removed(now, pos.value), g) == OfFabric(now, g) {
        RemoveAt(now, pos.value, g);
      }
    }
  }

  // One attempted deletion: the entry, and how it failed, if it did.
  datatype Attempt = Attempt(entry: Entry, fault: Option<ChipError>)

  // The outcomes `met` belong to the entries from the last one down, one each.
  function AttemptsOn(es: seq<Entry>, met: seq<Option<ChipError>>): seq<Attempt>
    requires |met| <= |es|
  {
    seq(|met|, k requires 0 <= k < |met| => Attempt(es[|es| - 1 - k], met[k]))
  }

  datatype Bulk = Bulk(acl: seq<Entry>, err: ChipError, changes: seq<Change>, attempts: seq<Attempt>)

  function Attempted(acl: seq<Entry>, fabric: nat, index: nat, fault: Option<ChipError>): seq<Attempt> {
    var pos := Position(acl, fabric, index);
    if pos.Some? then [Attempt(acl[pos.value], fault)] else []
  }

  // One more deletion, of the entry with that index; the first error stays.
  function DeleteOne(before: Bulk, limits: Limits, fabric: nat, index: nat, fault: Option<ChipError>, listened: bool): Bulk {
    var after := Perform(before.acl, limits, DeleteOp(fabric, index, fault, listened));
    Bulk(after.acl, if before.err == NoError then after.err else before.err, before.changes + after.changes,
         before.attempts + Attempted(before.acl, fabric, index, fault))
  }

  // Deletions from index n - 1 down, one for each outcome in `met`.
  function DeleteDown(acl: seq<Entry>, limits: Limits, fabric: nat, n: nat, met: seq<Option<ChipError>>, listened: bool): Bulk
    requires |met| <= n
  {
    if met == [] then Bulk(acl, NoError, [], [])
    else
      var k := |met| - 1;
      DeleteOne(DeleteDown(acl, limits, fabric, n, met[..k], listened), limits, fabric, n - |met|, met[k], listened)
  }

  lemma DeleteDownNext(acl: seq<Entry>, limits: Limits, fabric: nat, n: nat, met: seq<Option<ChipError>>, fault: Option<ChipError>, listened: bool)
    requires |met| < n
    ensures DeleteDown(acl, limits, fabric, n, met + [fault], listened)
         == DeleteOne(DeleteDown(acl, limits, fabric, n, met, listened), limits, fabric, n - |met| - 1, fault, listened)
  {
    assert (met + [fault])[..|met|] == met;
  }

  ghost predicate DownTo(es: seq<Entry>, i: nat, acl: seq<Entry>, fabric: nat, met: seq<Option<ChipError>>, now: Bulk) {
    && Deleting(es, i, fabric, met, now.acl, now.changes, now.err)
    && now.attempts == AttemptsOn(es, met)
    && SameElsewhere(acl, now.acl, fabric)
  }

  lemma DeleteOneStep(es: seq<Entry>, i: nat, acl: seq<Entry>, limits: Limits, fabric: nat, met: seq<Option<ChipError>>, before: Bulk,
                      fault: Option<ChipError>, listened: bool)
    requires i < |es| && DownTo(es, i + 1, acl, fabric, met, before) && fault != Some(NoError)
    ensures DownTo(es, i, acl, fabric, met + [fault], DeleteOne(before, limits, fabric, i, fault, listened))
  {
    var op := DeleteOp(fabric, i, fault, listened);
    DeletionTarget(es, i, fabric, met, before.acl, before.changes, before.err);
    DeletionStep(es, i, fabric, met, before.acl, before.changes, before.err, limits, op);
    DeletionElsewhere(before.acl, limits, op);
  }

  lemma {:induction false} DeletingDown(acl: seq<Entry>, limits: Limits, fabric: nat, es: seq<Entry>, i: nat, met: seq<Option<ChipError>>, listened: bool)
    requires es == OfFabric(acl, fabric) && i + |met| == |es| && RealFaults(met)
    ensures DownTo(es, i, acl, fabric, met, DeleteDown(acl, limits, fabric, |es|, met, listened))
    decreases |met|
  {
    if met == [] {
      DeletingDownFirst(acl, limits, fabric, es, i, met, listened);
      return;
    }
    var k := |met| - 1;
    DeletingDown(acl, limits, fabric, es, i + 1, met[..k], listened);
    assert met[..k] + [met[k]] == met;
    DeletingDownNext(acl, limits, fabric, es, i, met[..k], met[k], met, listened, DeleteDown(acl, limits, fabric, |es|, met[..k], listened));
  }

  lemma DeletingDownFirst(acl: seq<Entry>, limits: Limits, fabric: nat, es: seq<Entry>, n: nat, met: seq<Option<ChipError>>, listened: bool)
    requires es == OfFabric(acl, fabric) && n == |es| && met == []
    ensures DownTo(es, n, acl, fabric, met, DeleteDown(acl, limits, fabric, |es|, met, listened))
  {
    DeletingAtFirst(acl, fabric);
  }

  lemma DeletingDownNext(acl: seq<Entry>, limits: Limits, fabric: nat, es: seq<Entry>, i: nat, met: seq<Option<ChipError>>, fault: Option<ChipError>,
                         more: seq<Option<ChipError>>, listened: bool, before: Bulk)
    requires i < |es| && |met| == |es| - i - 1 && fault != Some(NoError) && more == met + [fault]
    requires before == DeleteDown(acl, limits, fabric, |es|, met, listened) && DownTo(es, i + 1, acl, fabric, met, before)
    ensures DownTo(es, i, acl, fabric, more, DeleteDown(acl, limits, fabric, |es|, more, listened))
  {
    DeleteDownNext(acl, limits, fabric, |es|, met, fault, listened);
    DeleteOneStep(es, i, acl, limits, fabric, met, before, fault, listened);
  }

  // Whatever subset of the deletions fails: each original entry is attempted once, exactly the failed
  // ones stay, in order, the result is the first error, or a success exactly if nothing is left,
  // a mirror of the fabric keeps up, and other fabrics keep their entries.
  lemma BulkDeletionExact(acl: seq<Entry>, limits: Limits, fabric: nat, met: seq<Option<ChipError>>, listened: bool)
    requires |met| == |OfFabric(acl, fabric)| && RealFaults(met)
    ensures var es := OfFabric(acl, fabric);
            var end := DeleteDown(acl, limits, fabric, |es|, met, listened);
            && end.attempts == AttemptsOn(es, met)
            && OfFabric(end.acl, fabric) == Survivors(es, met)
            && end.err == FirstFault(met)
            && (end.err == NoError <==> OfFabric(end.acl, fabric) == [])
            && Replay(es, end.changes, fabric) == OfFabric(end.acl, fabric)
            && SameElsewhere(acl, end.acl, fabric)
  {
    var es := OfFabric(acl, fabric);
    var end := DeleteDown(acl, limits, fabric, |es|, met, listened);
    DeletingDown(acl, limits, fabric, es, 0, met, listened);
    DeletingAtLast(es, fabric, met, end.acl, end.changes, end.err);
  }
}
