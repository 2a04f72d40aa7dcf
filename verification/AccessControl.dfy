// AccessControl: validated changes of the access control list, an intrusive list of listeners that
// are told of each change, and the deletion of all entries of a fabric.

module AccessControl {
  import opened Core
  import opened AccessEntries
  import opened AccessStore
  import opened BulkDeletion

  // A listener carries the link to the next one and remembers what it was told.
  class EntryListener {
    var next: EntryListener?
    var seen: seq<Change>

    constructor ()
      ensures next == null && seen == []
    {
      next := null;
      seen := [];
    }
  }

  lemma RemovedDistinct(ls: seq<EntryListener>, i: nat)
    requires Distinct(ls) && i < |ls|
    ensures Distinct(Removed(ls, i)) && ls[i] !in Removed(ls, i)
    ensures forall k {:trigger Removed(ls, i)[k]} :: 0 <= k < |ls| - 1 ==> Removed(ls, i)[k] == if k < i then ls[k] else ls[k + 1]
  {
  }

  class AccessControl {
    const limits: Limits
    var initialized: bool
    var acl: seq<Entry>
    var head: EntryListener?
    ghost var listeners: seq<EntryListener>
    // The deletions that reached the delegate's storage.
    ghost var attempts: seq<Attempt>

    constructor (limits: Limits)
      ensures Linked() && !initialized && acl == [] && listeners == [] && attempts == []
      ensures this.limits == limits
    {
      this.limits := limits;
      initialized := false;
      acl := [];
      head := null;
      listeners := [];
      attempts := [];
    }

    method Init() returns (err: ChipError)
      modifies this`initialized
      ensures initialized && err == if old(initialized) then IncorrectState else NoError
    {
      if initialized {
        return IncorrectState;
      }
      initialized := true;
      err := NoError;
    }

    // The links from `head` run through `listeners`, each once, in order, and end.
    ghost predicate Linked()
      reads this, listeners
    {
      && head == (if listeners == [] then null else listeners[0])
      && Distinct(listeners)
      && (forall i {:trigger listeners[i]} :: 0 <= i < |listeners| ==> listeners[i].next == if i + 1 < |listeners| then listeners[i + 1] else null)
    }

    method AddEntryListener(listener: EntryListener)
      requires Linked()
      modifies this`head, this`listeners, listener`next, listeners`next
      ensures Linked()
      ensures listeners == if listener in old(listeners) then old(listeners) else old(listeners) + [listener]
    {
      if head == null {
        head := listener;
        listener.next := null;
        listeners := [listener];
        return;
      }
      var l: EntryListener := head;
      ghost var i := 0;
      while true
        invariant 0 <= i < |listeners| && l == listeners[i]
        invariant listener !in listeners[..i]
        invariant listeners == old(listeners) && Linked()
        decreases |listeners| - i
      {
        if l == listener {
          return;
        }
        if l.next == null {
          assert i == |listeners| - 1;
          assert listeners == listeners[..i] + [l];
          l.next := listener;
          listener.next := null;
          listeners := listeners + [listener];
          return;
        }
        assert listeners[..i + 1] == listeners[..i] + [l];
        l := l.next;
        i := i + 1;
      }
    }

    method RemoveEntryListener(listener: EntryListener)
      requires Linked()
      modifies this`head, this`listeners, listener`next, listeners`next
      ensures Linked()
      ensures listener !in listeners
      ensures if listener in old(listeners)
              then exists i :: 0 <= i < |old(listeners)| && old(listeners)[i] == listener && listeners == Removed(old(listeners), i)
              else listeners == old(listeners)
    {
      if head == listener {
        assert old(listeners)[0] == listener;
        UnlinkFirst();
        return;
      }
      var l := head;
      ghost var i := 0;
      while l != null
        invariant 0 <= i <= |listeners| && l == (if i < |listeners| then listeners[i] else null)
        invariant listener !in listeners[..Min(i + 1, |listeners|)]
        invariant listeners == old(listeners) && Linked()
        decreases |listeners| - i
      {
        if l.next == listener {
          UnlinkNext(l, i);
          assert old(listeners)[i + 1] == listener;
          return;
        }
        assert i + 1 < |listeners| ==> listeners[..i + 2] == listeners[..i + 1] + [listeners[i + 1]];
        l := l.next;
        i := i + 1;
      }
      assert listeners[..Min(i + 1, |listeners|)] == listeners;
    }

    method UnlinkFirst()
      requires Linked() && head != null
      modifies this`head, this`listeners, head`next
      ensures Linked() && listeners == Removed(old(listeners), 0) && old(head) !in listeners
    {
      var listener := head;
      head := listener.next;
      listener.next := null;
      RemovedDistinct(listeners, 0);
      listeners := Removed(listeners, 0);
    }

    method UnlinkNext(l: EntryListener, ghost i: nat)
      requires Linked() && i + 1 < |listeners| && l == listeners[i]
      modifies this`listeners, l`next, l.next`next
      ensures Linked() && listeners == Removed(old(listeners), i + 1) && old(l.next) !in listeners
    {
      ghost var was := listeners;
      var listener := l.next;
      l.next := listener.next;
      listener.next := null;
      RemovedDistinct(was, i + 1);
      listeners := Removed(was, i + 1);
      assert Linked() by {
        assert forall k {:trigger was[k]} :: 0 <= k < |was| && k != i && k != i + 1 ==> was[k].next == if k + 1 < |was| then was[k + 1] else null;
      }
    }

    // Tells every listener, once.
    method NotifyEntryChanged(c: Change)
      requires Linked()
      modifies listeners`seen
      ensures forall i {:trigger listeners[i]} :: 0 <= i < |listeners| ==> listeners[i].seen == old(listeners[i].seen) + [c]
    {
      var l := head;
      ghost var i := 0;
      while l != null
        invariant 0 <= i <= |listeners| && l == (if i < |listeners| then listeners[i] else null)
        invariant forall k :: 0 <= k < i ==> listeners[k].seen == old(listeners[k].seen) + [c]
        invariant forall k :: i <= k < |listeners| ==> listeners[k].seen == old(listeners[k].seen)
        decreases |listeners| - i
      {
        l.seen := l.seen + [c];
        l := l.next;
        i := i + 1;
      }
    }

    method Store(acl': seq<Entry>, c: Change)
      requires Linked()
      modifies this`acl, listeners`seen
      ensures Linked() && acl == acl'
      ensures forall i {:trigger listeners[i]} :: 0 <= i < |listeners| ==> listeners[i].seen == old(listeners[i].seen) + [c]
    {
      acl := acl';
      NotifyEntryChanged(c);
    }

    method CreateEntry(fabric: nat, entry: Entry) returns (err: ChipError, ghost changes: seq<Change>)
      requires Linked()
      modifies this`acl, listeners`seen
      ensures Linked()
      ensures if !old(initialized) then err == IncorrectState && acl == old(acl) && changes == []
              else Effect(acl, err, changes) == Perform(old(acl), limits, CreateOp(fabric, entry))
      ensures forall i {:trigger listeners[i]} :: 0 <= i < |listeners| ==> listeners[i].seen == old(listeners[i].seen) + changes
    {
      changes := [];
      if !initialized {
        return IncorrectState, [];
      }
      var count := |OfFabric(acl, fabric)|;
      if count + 1 > limits.entriesPerFabric {
        return BufferTooSmall, [];
      }
      var valid := IsValid(entry);
      if !valid {
        return InvalidArgument, [];
      }
      // The delegate stores the entry under the entry's own fabric and says where.
      if |acl| >= limits.entries || !StorageFits(limits, entry) {
        return BufferTooSmall, [];
      }
      var index := |OfFabric(acl, entry.fabric)|;
      changes := [Change(entry.fabric, index, Some(entry), Added)];
      Store(acl + [entry], Change(entry.fabric, index, Some(entry), Added));
      err := NoError;
    }

    method UpdateEntry(fabric: nat, index: nat, entry: Entry) returns (err: ChipError, ghost changes: seq<Change>)
      requires Linked()
      modifies this`acl, listeners`seen
      ensures Linked()
      ensures if !old(initialized) then err == IncorrectState && acl == old(acl) && changes == []
              else Effect(acl, err, changes) == Perform(old(acl), limits, UpdateOp(fabric, index, entry))
      ensures forall i {:trigger listeners[i]} :: 0 <= i < |listeners| ==> listeners[i].seen == old(listeners[i].seen) + changes
    {
      changes := [];
      if !initialized {
        return IncorrectState, [];
      }
      var valid := IsValid(entry);
      if !valid {
        return InvalidArgument, [];
      }
      var pos := Position(acl, fabric, index);
      if pos.None? {
        return Sentinel, [];
      }
      if !StorageFits(limits, entry) {
        return BufferTooSmall, [];
      }
      changes := [Change(fabric, index, Some(entry), Updated)];
      Store(acl[pos.value := entry], Change(fabric, index, Some(entry), Updated));
      err := NoError;
    }

    // The delegate's deletion, which may fail for reasons of its own.
    method DelegateDelete(fabric: nat, index: nat) returns (err: ChipError, ghost fault: Option<ChipError>)
      modifies this`acl, this`attempts
      ensures var pos := Position(old(acl), fabric, index);
              if pos.None? then
                err == Sentinel && fault == None && acl == old(acl) && attempts == old(attempts)
              else
                && fault != Some(NoError)
                && attempts == old(attempts) + [Attempt(old(acl)[pos.value], fault)]
                && if fault.Some? then err == fault.value && acl == old(acl)
                   else err == NoError && acl == Removed(old(acl), pos.value)
    {
      var pos := Position(acl, fabric, index);
      if pos.None? {
        return Sentinel, None;
      }
      err := *;
      fault := if err == NoError then None else Some(err);
      attempts := attempts + [Attempt(acl[pos.value], fault)];
      if err == NoError {
        acl := Removed(acl, pos.value);
      }
    }

    // Reads the entry if anybody listens, and deletes it.
    method ReadAndDelete(fabric: nat, index: nat) returns (err: ChipError, latest: Option<Entry>, ghost fault: Option<ChipError>)
      requires Linked()
      modifies this`acl, this`attempts
      ensures fault != Some(NoError)
      ensures Perform(old(acl), limits, DeleteOp(fabric, index, fault, listeners != []))
           == Effect(acl, err, if err == NoError then [Change(fabric, index, latest, RemovedEntry)] else [])
      ensures attempts == old(attempts) + Attempted(old(acl), fabric, index, fault)
    {
      latest := None;
      if head != null {
        var pos := Position(acl, fabric, index);
        if pos.Some? {
          latest := Some(acl[pos.value]);
        }
      }
      err, fault := DelegateDelete(fabric, index);
    }

    method DeleteEntry(fabric: nat, index: nat) returns (err: ChipError, ghost changes: seq<Change>, ghost fault: Option<ChipError>)
      requires Linked()
      modifies this`acl, this`attempts, listeners`seen
      ensures Linked()
      ensures if !old(initialized) then
                err == IncorrectState && acl == old(acl) && changes == [] && attempts == old(attempts)
              else
                && fault != Some(NoError)
                && Effect(acl, err, changes) == Perform(old(acl), limits, DeleteOp(fabric, index, fault, listeners != []))
                && attempts == old(attempts) + Attempted(old(acl), fabric, index, fault)
      ensures forall i {:trigger listeners[i]} :: 0 <= i < |listeners| ==> listeners[i].seen == old(listeners[i].seen) + changes
    {
      changes, fault := [], None;
      if !initialized {
        return IncorrectState, [], None;
      }
      var latest;
      err, latest, fault := ReadAndDelete(fabric, index);
      if err != NoError {
        return;
      }
      changes := [Change(fabric, index, latest, RemovedEntry)];
      NotifyEntryChanged(Change(fabric, index, latest, RemovedEntry));
    }

    // Every listener was told the changes, and nothing else, since it had been told `was`.
    ghost predicate Heard(was: seq<seq<Change>>, changes: seq<Change>)
      reads this, listeners
    {
      && |was| == |listeners|
      && forall i {:trigger listeners[i]} :: 0 <= i < |listeners| ==> listeners[i].seen == was[i] + changes
    }

    ghost function Seen(): seq<seq<Change>>
      reads this, listeners
    {
      seq(|listeners|, i requires 0 <= i < |listeners| reads this, listeners => listeners[i].seen)
    }

    // The store and its log are where `done` says, counting from a log `base`.
    ghost predicate At(done: Bulk, base: seq<Attempt>)
      reads this
    {
      acl == done.acl && attempts == base + done.attempts
    }

    // Deletes the entries of a fabric from the last to the first, going on after a failure.
    method DeleteAllEntriesForFabric(fabric: nat) returns (stickyError: ChipError, ghost met: seq<Option<ChipError>>, ghost done: Bulk)
      requires Linked()
      modifies this`acl, this`attempts, listeners`seen
      ensures Linked()
      ensures if !old(initialized) then stickyError == IncorrectState && done == Bulk(old(acl), NoError, [], [])
              else
                && |met| == |OfFabric(old(acl), fabric)| && RealFaults(met)
                && done == DeleteDown(old(acl), limits, fabric, |met|, met, listeners != [])
                && stickyError == done.err
      ensures At(done, old(attempts)) && Heard(old(Seen()), done.changes)
    {
      met, done := [], Bulk(acl, NoError, [], []);
      ghost var start, base, was := acl, attempts, Seen();
      if !initialized {
        stickyError := IncorrectState;
        return;
      }
      stickyError := NoError;
      var aclCount: nat := |OfFabric(acl, fabric)|;
      ghost var n := aclCount;
      while aclCount > 0
        invariant Linked() && initialized
        invariant aclCount + |met| == n && RealFaults(met)
        invariant done == DeleteDown(start, limits, fabric, n, met, listeners != [])
        invariant stickyError == done.err && At(done, base) && Heard(was, done.changes)
        decreases aclCount
      {
        aclCount := aclCount - 1;
        stickyError, met, done := DeleteForBulk(fabric, aclCount, stickyError, start, n, met, done, base, was);
      }
    }

    // The body of the loop above.
    method DeleteForBulk(fabric: nat, index: nat, sticky: ChipError, ghost start: seq<Entry>, ghost n: nat,
                         ghost met: seq<Option<ChipError>>, ghost done: Bulk, ghost base: seq<Attempt>, ghost was: seq<seq<Change>>)
      returns (sticky': ChipError, ghost met': seq<Option<ChipError>>, ghost done': Bulk)
      requires Linked() && initialized && At(done, base) && Heard(was, done.changes) && sticky == done.err
      requires index + |met| + 1 == n && RealFaults(met) && done == DeleteDown(start, limits, fabric, n, met, listeners != [])
      modifies this`acl, this`attempts, listeners`seen
      ensures Linked() && |met'| == |met| + 1 && RealFaults(met')
      ensures done' == DeleteDown(start, limits, fabric, n, met', listeners != [])
      ensures At(done', base) && Heard(was, done'.changes) && sticky' == done'.err
    {
      ghost var fault;
      sticky', done', fault := DeleteAndRecord(fabric, index, sticky, done, base, was);
      met' := met + [fault];
      DeleteDownNext(start, limits, fabric, n, met, fault, listeners != []);
    }

    method DeleteAndRecord(fabric: nat, index: nat, sticky: ChipError, ghost done: Bulk, ghost base: seq<Attempt>, ghost was: seq<seq<Change>>)
      returns (sticky': ChipError, ghost done': Bulk, ghost fault: Option<ChipError>)
      requires Linked() && initialized && At(done, base) && Heard(was, done.changes) && sticky == done.err
      modifies this`acl, this`attempts, listeners`seen
      ensures Linked() && fault != Some(NoError)
      ensures done' == DeleteOne(done, limits, fabric, index, fault, listeners != [])
      ensures At(done', base) && Heard(was, done'.changes) && sticky' == done'.err
    {
      var err;
      ghost var changes;
      err, changes, fault := DeleteEntry(fabric, index);
      sticky' := if sticky == NoError then err else sticky;
      done' := DeleteOne(done, limits, fabric, index, fault, listeners != []);
    }
  }
}
