// DeferredAttributePersistenceProvider: writes of selected attributes wait until the attribute has
// been left alone for a while.

module DeferredPersistence {
  import opened Core

  type Byte = b: int | 0 <= b < 0x100

  // A deferred attribute; it is armed while it holds a value, which may be of no bytes.
  datatype Slot = Slot(path: AttributePath, flushTime: nat, value: Option<seq<Byte>>) {
    predicate IsArmed() {
      value.Some?
    }
  }

  const TIMESTAMP_MAX := 0xFFFF_FFFF_FFFF_FFFF

  // What reached the decorated persister, and when.
  datatype Persisted = Persisted(path: AttributePath, value: seq<Byte>, at: nat)

  // The buffer is replaced only if its size changes, and a slot without one has size 0.
  function PrepareWrite(s: Slot, flushTime: nat, value: seq<Byte>): Slot {
    var size := if s.value.Some? then |s.value.value| else 0;
    if size != |value| then Slot(s.path, flushTime, Some(value))
    else if s.value.Some? then Slot(s.path, flushTime, Some(value))
    else Slot(s.path, flushTime, None)
  }

  class DeferredAttributePersistenceProvider {
    const writeDelay: nat
    const slots: array<Slot>
    var log: seq<Persisted>
    var timer: Option<nat>  // when the one timer was asked to fire

    constructor (slots: array<Slot>, writeDelay: nat)
      ensures this.slots == slots && this.writeDelay == writeDelay && log == [] && timer == None
    {
      this.slots := slots;
      this.writeDelay := writeDelay;
      log := [];
      timer := None;
    }

    ghost function View(): Store
      reads this, slots
    {
      Store(slots[..], log, timer)
    }

    // `written` and `now` are the two readings of the clock, `direct` what the decorated persister
    // answers to a write that is not deferred.
    method WriteValue(path: AttributePath, value: seq<Byte>, written: nat, now: nat, direct: ChipError) returns (err: ChipError)
      modifies this`log, this`timer, slots
      ensures View() == Write(old(View()), path, value, written + writeDelay, now, direct)
      ensures err == if Find(old(slots[..]), path).Some? then NoError else direct
    {
      var i := 0;
      while i < slots.Length
        invariant 0 <= i <= slots.Length
        invariant forall k :: 0 <= k < i ==> slots[k].path != path
      {
        if slots[i].path == path {
          FoundAt(slots[..], path, i);
          slots[i] := PrepareWrite(slots[i], written + writeDelay, value);
          assert slots[..] == old(slots[..])[i := slots[i]];
          FlushAndScheduleNext(now);
          return NoError;
        }
        i := i + 1;
      }
      assert Find(slots[..], path).None?;
      if direct == NoError {
        log := log + [Persisted(path, value, now)];
      }
      err := direct;
    }

    method FlushAndScheduleNext(now: nat)
      modifies this`log, this`timer, slots
      ensures View() == FlushAndSchedule(old(View()), now)
    {
      var nextFlushTime: nat := TIMESTAMP_MAX;
      ghost var was, logged := slots[..], log;
      var i := 0;
      while i < slots.Length
        invariant 0 <= i <= slots.Length && slots[i..] == was[i..]
        invariant Pass(slots[..i], log, nextFlushTime) == FlushPass(was[..i], logged, now)
        invariant timer == old(timer)
      {
        assert was[..i + 1][..i] == was[..i] && slots[i] == slots[i..][0] == was[i];
        ghost var done := slots[..i];
        if slots[i].IsArmed() {
          if slots[i].flushTime <= now {
            log := log + [Persisted(slots[i].path, slots[i].value.value, now)];
            slots[i] := slots[i].(value := None);
          } else {
            nextFlushTime := Min(nextFlushTime, slots[i].flushTime);
          }
        }
        assert slots[..i] == done && slots[..i + 1] == done + [slots[i]];
        assert slots[i + 1..] == was[i..][1..] == was[i + 1..];
        i := i + 1;
      }
      assert slots[..i] == slots[..] && was[..i] == was;
      if nextFlushTime != TIMESTAMP_MAX {
        timer := Some(nextFlushTime);
      }
    }

    method OnTimer(now: nat)
      requires timer.Some?
      modifies this`log, this`timer, slots
      ensures View() == Fire(old(View()), now)
    {
      timer := None;
      FlushAndScheduleNext(now);
    }
  }

  // ---------- the provider as a value ----------

  datatype Store = Store(slots: seq<Slot>, log: seq<Persisted>, timer: Option<nat>)

  function Find(slots: seq<Slot>, path: AttributePath): (i: Option<nat>)
    ensures i.Some? ==> i.value < |slots| && slots[i.value].path == path && forall k :: 0 <= k < i.value ==> slots[k].path != path
    ensures i.None? ==> forall k :: 0 <= k < |slots| ==> slots[k].path != path
  {
    if slots == [] then None
    else
      var n := |slots| - 1;
      var i := Find(slots[..n], path);
      if i.Some? then i else if slots[n].path == path then Some(n) else None
  }

  lemma FoundAt(slots: seq<Slot>, path: AttributePath, i: nat)
    requires i < |slots| && slots[i].path == path && forall k :: 0 <= k < i ==> slots[k].path != path
    ensures Find(slots, path) == Some(i)
  {
  }

  // One slot's share of a flush: what becomes of it, what is persisted, and the earliest deadline left.
  datatype Pass = Pass(slots: seq<Slot>, log: seq<Persisted>, next: nat)

  function Take(p: Pass, s: Slot, now: nat): Pass {
    if s.value.None? then p.(slots := p.slots + [s])
    else if s.flushTime <= now then Pass(p.slots + [s.(value := None)], p.log + [Persisted(s.path, s.value.value, now)], p.next)
    else p.(slots := p.slots + [s], next := Min(p.next, s.flushTime))
  }

  function FlushPass(slots: seq<Slot>, log: seq<Persisted>, now: nat): Pass {
    if slots == [] then Pass([], log, TIMESTAMP_MAX)
    else Take(FlushPass(slots[..|slots| - 1], log, now), slots[|slots| - 1], now)
  }

  function FlushAndSchedule(s: Store, now: nat): Store {
    var p := FlushPass(s.slots, s.log, now);
    Store(p.slots, p.log, if p.next != TIMESTAMP_MAX then Some(p.next) else s.timer)
  }

  function Write(s: Store, path: AttributePath, value: seq<Byte>, flushTime: nat, now: nat, direct: ChipError): Store {
    var i := Find(s.slots, path);
    if i.Some? then FlushAndSchedule(s.(slots := s.slots[i.value := PrepareWrite(s.slots[i.value], flushTime, value)]), now)
    else if direct == NoError then s.(log := s.log + [Persisted(path, value, now)])
    else s
  }

  function Fire(s: Store, now: nat): Store {
    FlushAndSchedule(s.(timer := None), now)
  }

  // ---------- what a flush does ----------

  predicate Due(s: Slot, now: nat) {
    s.IsArmed() && s.flushTime <= now
  }

  predicate DistinctPaths(slots: seq<Slot>) {
    forall i, j :: 0 <= i < j < |slots| ==> slots[i].path != slots[j].path
  }

  function LastPersisted(log: seq<Persisted>, path: AttributePath): Option<Persisted> {
    if log == [] then None
    else if log[|log| - 1].path == path then Some(log[|log| - 1])
    else LastPersisted(log[..|log| - 1], path)
  }

  lemma LastPersistedSnoc(log: seq<Persisted>, e: Persisted, path: AttributePath)
    ensures LastPersisted(log + [e], path) == if e.path == path then Some(e) else LastPersisted(log, path)
  {
    assert (log + [e])[..|log|] == log;
  }

  // A slot that is due is persisted and disarmed; any other is left alone.
  lemma {:induction false} FlushSlots(slots: seq<Slot>, log: seq<Persisted>, now: nat)
    ensures var p := FlushPass(slots, log, now);
            && |p.slots| == |slots|
            && forall i :: 0 <= i < |slots| ==> p.slots[i] == if Due(slots[i], now) then slots[i].(value := None) else slots[i]
  {
    if slots != [] {
      FlushSlots(slots[..|slots| - 1], log, now);
    }
  }

  // The deadline computed is the earliest one left.
  lemma {:induction false} FlushNext(slots: seq<Slot>, log: seq<Persisted>, now: nat)
    ensures var next := FlushPass(slots, log, now).next;
            && next <= TIMESTAMP_MAX
            && (forall i :: 0 <= i < |slots| && slots[i].IsArmed() && !Due(slots[i], now) ==> next <= slots[i].flushTime)
            && (next != TIMESTAMP_MAX ==> exists i :: 0 <= i < |slots| && slots[i].IsArmed() && !Due(slots[i], now) && next == slots[i].flushTime)
  {
    if slots != [] {
      var n := |slots| - 1;
      FlushNext(slots[..n], log, now);
      var before := FlushPass(slots[..n], log, now).next;
      if before != TIMESTAMP_MAX {
        var i :| 0 <= i < n && slots[..n][i].IsArmed() && !Due(slots[..n][i], now) && before == slots[..n][i].flushTime;
        assert slots[i] == slots[..n][i];
      }
      assert forall i :: 0 <= i < n ==> slots[..n][i] == slots[i];
    }
  }

  // What was last persisted for a path: the value of its slot if that was due, and otherwise whatever
  // it was before.
  lemma {:induction false} FlushLog(slots: seq<Slot>, log: seq<Persisted>, now: nat, path: AttributePath)
    requires DistinctPaths(slots)
    ensures LastPersisted(FlushPass(slots, log, now).log, path)
         == match Find(slots, path)
            case None => LastPersisted(log, path)
            case Some(i) => if Due(slots[i], now) then Some(Persisted(path, slots[i].value.value, now)) else LastPersisted(log, path)
  {
    if slots != [] {
      var n := |slots| - 1;
      FlushLog(slots[..n], log, now, path);
      var p := FlushPass(slots[..n], log, now);
      if Due(slots[n], now) {
        LastPersistedSnoc(p.log, Persisted(slots[n].path, slots[n].value.value, now), path);
      }
    }
  }

  predicate FromDue(slots: seq<Slot>, e: Persisted, now: nat) {
    exists i :: 0 <= i < |slots| && Due(slots[i], now) && e == Persisted(slots[i].path, slots[i].value.value, now)
  }

  lemma FromDueLonger(slots: seq<Slot>, n: nat, e: Persisted, now: nat)
    requires n <= |slots| && FromDue(slots[..n], e, now)
    ensures FromDue(slots, e, now)
  {
    var i :| 0 <= i < n && Due(slots[..n][i], now) && e == Persisted(slots[..n][i].path, slots[..n][i].value.value, now);
    assert slots[i] == slots[..n][i];
  }

  // Everything a flush persists was due.
  lemma {:induction false} FlushOnlyDue(slots: seq<Slot>, log: seq<Persisted>, now: nat)
    ensures var after := FlushPass(slots, log, now).log;
            log <= after && forall k :: |log| <= k < |after| ==> FromDue(slots, after[k], now)
  {
    if slots == [] {
      return;
    }
    var n := |slots| - 1;
    FlushOnlyDue(slots[..n], log, now);
    var before, after := FlushPass(slots[..n], log, now).log, FlushPass(slots, log, now).log;
    forall k | |log| <= k < |after|
      ensures FromDue(slots, after[k], now)
    {
      if k < |before| {
        FromDueLonger(slots, n, before[k], now);
      } else {
        assert Due(slots[n], now);
      }
    }
  }

  // ---------- every run ----------

  // A write and when it was made.
  datatype Written = Written(value: seq<Byte>, at: nat)

  // A provider together with the last effective write to each deferred path, the clock, and its
  // reading when the slots were last looked through, which a write that is not deferred does not do.
  datatype World = World(store: Store, last: map<AttributePath, Written>, clock: nat, flushed: nat)

  // `written` and `now` are the clock readings of a write; the timer fires no earlier than asked.
  datatype Event =
    | WriteEvent(path: AttributePath, value: seq<Byte>, written: nat, now: nat, direct: ChipError)
    | TimerEvent(now: nat)

  predicate Deferred(w: World, path: AttributePath) {
    Find(w.store.slots, path).Some?
  }

  predicate Armed(w: World, path: AttributePath) {
    var i := Find(w.store.slots, path);
    i.Some? && w.store.slots[i.value].IsArmed()
  }

  function Step(w: World, delay: nat, e: Event): World {
    match e
    case WriteEvent(path, value, written, now, direct) =>
      World(Write(w.store, path, value, written + delay, now, direct),
            if Deferred(w, path) && (value != [] || Armed(w, path)) then w.last[path := Written(value, written)] else w.last,
            now,
            if Deferred(w, path) then now else w.flushed)
    case TimerEvent(now) => World(Fire(w.store, now), w.last, now, now)
  }

  // The clock does not go back, and a time stamp plus a delay does not overflow.
  predicate Legal(w: World, delay: nat, e: Event) {
    match e
    case WriteEvent(_, _, written, now, _) => w.clock <= written <= now && written + delay < TIMESTAMP_MAX
    case TimerEvent(now) => w.store.timer.Some? && w.store.timer.value <= now && w.clock <= now
  }

  // A slot holds the last value written to its path and waits for its delay to pass, or that value
  // is the one persisted last, and it had waited.
  predicate SlotGood(s: Slot, log: seq<Persisted>, last: map<AttributePath, Written>, flushed: nat, delay: nat) {
    if s.IsArmed() then
      s.path in last && s.value.value == last[s.path].value && s.flushTime == last[s.path].at + delay && flushed < s.flushTime < TIMESTAMP_MAX
    else
      match LastPersisted(log, s.path)
      case None => s.path !in last
      case Some(e) => s.path in last && e.value == last[s.path].value && last[s.path].at + delay <= e.at <= flushed
  }

  // If anything is armed the timer is set to the earliest deadline.
  predicate TimerGood(s: Store) {
    (exists i :: 0 <= i < |s.slots| && s.slots[i].IsArmed()) ==>
      && s.timer.Some?
      && (forall i :: 0 <= i < |s.slots| && s.slots[i].IsArmed() ==> s.timer.value <= s.slots[i].flushTime)
      && (exists i :: 0 <= i < |s.slots| && s.slots[i].IsArmed() && s.timer.value == s.slots[i].flushTime)
  }

  predicate SlotsGood(w: World, delay: nat) {
    && DistinctPaths(w.store.slots) && w.flushed <= w.clock
    && forall i :: 0 <= i < |w.store.slots| ==> SlotGood(w.store.slots[i], w.store.log, w.last, w.flushed, delay)
  }

  predicate Good(w: World, delay: nat) {
    SlotsGood(w, delay) && TimerGood(w.store)
  }

  // A slot may be due, but is otherwise as it should be.
  predicate SlotReady(s: Slot, log: seq<Persisted>, last: map<AttributePath, Written>, now: nat, delay: nat) {
    if s.IsArmed() then
      s.path in last && s.value.value == last[s.path].value && s.flushTime == last[s.path].at + delay && s.flushTime < TIMESTAMP_MAX
    else SlotGood(s, log, last, now, delay)
  }

  lemma FindOwn(slots: seq<Slot>, i: nat)
    requires DistinctPaths(slots) && i < |slots|
    ensures Find(slots, slots[i].path) == Some(i)
  {
  }

  lemma FlushMakesGood(s: Store, last: map<AttributePath, Written>, now: nat, delay: nat)
    requires DistinctPaths(s.slots)
    requires forall i :: 0 <= i < |s.slots| ==> SlotReady(s.slots[i], s.log, last, now, delay)
    ensures Good(World(FlushAndSchedule(s, now), last, now, now), delay)
  {
    var p := FlushPass(s.slots, s.log, now);
    FlushSlots(s.slots, s.log, now);
    forall i | 0 <= i < |s.slots|
      ensures SlotGood(p.slots[i], p.log, last, now, delay) && p.slots[i].path == s.slots[i].path
    {
      FlushLog(s.slots, s.log, now, s.slots[i].path);
      FindOwn(s.slots, i);
    }
    FlushTimerGood(s, now, p);
  }

  lemma FlushTimerGood(s: Store, now: nat, p: Pass)
    requires p == FlushPass(s.slots, s.log, now)
    requires forall i :: 0 <= i < |s.slots| && s.slots[i].IsArmed() ==> s.slots[i].flushTime < TIMESTAMP_MAX
    ensures TimerGood(FlushAndSchedule(s, now))
  {
    FlushSlots(s.slots, s.log, now);
    FlushNext(s.slots, s.log, now);
    if p.next != TIMESTAMP_MAX {
      var i :| 0 <= i < |s.slots| && s.slots[i].IsArmed() && !Due(s.slots[i], now) && p.next == s.slots[i].flushTime;
      assert p.slots[i].IsArmed() && p.next == p.slots[i].flushTime;
    }
  }

  // Every write and every firing of the timer keeps the provider as it should be.
  lemma StepGood(w: World, delay: nat, e: Event)
    requires Good(w, delay) && Legal(w, delay, e)
    ensures Good(Step(w, delay, e), delay)
  {
    match e
    case TimerEvent(now) => FlushMakesGood(w.store.(timer := None), w.last, now, delay);
    case WriteEvent(path, value, written, now, direct) =>
      var i := Find(w.store.slots, path);
      if i.Some? {
        WriteReady(w, delay, e, i.value);
        FlushMakesGood(w.store.(slots := w.store.slots[i.value := PrepareWrite(w.store.slots[i.value], written + delay, value)]),
                       Step(w, delay, e).last, now, delay);
      } else {
        DirectWriteGood(w, delay, e);
      }
  }

  lemma WriteReady(w: World, delay: nat, e: Event, i: nat)
    requires Good(w, delay) && Legal(w, delay, e) && e.WriteEvent? && Find(w.store.slots, e.path) == Some(i)
    ensures var slots := w.store.slots[i := PrepareWrite(w.store.slots[i], e.written + delay, e.value)];
            && DistinctPaths(slots)
            && forall k :: 0 <= k < |slots| ==> SlotReady(slots[k], w.store.log, Step(w, delay, e).last, e.now, delay)
  {
  }

  lemma DirectWriteGood(w: World, delay: nat, e: Event)
    requires Good(w, delay) && Legal(w, delay, e) && e.WriteEvent? && Find(w.store.slots, e.path).None?
    ensures Good(Step(w, delay, e), delay)
  {
    forall i | 0 <= i < |w.store.slots|
      ensures SlotGood(w.store.slots[i], Step(w, delay, e).store.log, w.last, w.flushed, delay)
    {
      LastPersistedSnoc(w.store.log, Persisted(e.path, e.value, e.now), w.store.slots[i].path);
    }
  }

  function Run(w: World, delay: nat, es: seq<Event>): World {
    if es == [] then w else Step(Run(w, delay, es[..|es| - 1]), delay, es[|es| - 1])
  }

  predicate LegalRun(w: World, delay: nat, es: seq<Event>) {
    es != [] ==> LegalRun(w, delay, es[..|es| - 1]) && Legal(Run(w, delay, es[..|es| - 1]), delay, es[|es| - 1])
  }

  // Nothing was written yet.
  predicate Initial(w: World) {
    && DistinctPaths(w.store.slots) && w.last == map[] && w.store.log == [] && w.flushed <= w.clock
    && forall i :: 0 <= i < |w.store.slots| ==> !w.store.slots[i].IsArmed()
  }

  lemma {:induction false} RunGood(w: World, delay: nat, es: seq<Event>)
    requires Initial(w) && LegalRun(w, delay, es)
    ensures Good(Run(w, delay, es), delay)
  {
    if es != [] {
      RunGood(w, delay, es[..|es| - 1]);
      StepGood(Run(w, delay, es[..|es| - 1]), delay, es[|es| - 1]);
    }
  }

  // Every armed deadline is ahead of the clock.
  predicate OnTime(w: World) {
    forall i :: 0 <= i < |w.store.slots| && w.store.slots[i].IsArmed() ==> w.clock < w.store.slots[i].flushTime
  }

  predicate NoneArmed(s: Store) {
    forall i :: 0 <= i < |s.slots| ==> !s.slots[i].IsArmed()
  }

  // A deferred write and a firing of the timer return with every deadline ahead. Any other write
  // does not look through the slots: it returns so exactly if nothing is armed or the timer is not
  // overdue.
  lemma ReturnsOnTime(w: World, delay: nat, e: Event)
    requires Good(w, delay) && Legal(w, delay, e)
    ensures OnTime(Step(w, delay, e)) <==>
              e.TimerEvent? || Deferred(w, e.path) || NoneArmed(w.store) || (w.store.timer.Some? && e.now < w.store.timer.value)
  {
    StepGood(w, delay, e);
    if e.TimerEvent? || Deferred(w, e.path) {
      assert Step(w, delay, e).flushed == Step(w, delay, e).clock;
      return;
    }
    if !NoneArmed(w.store) {
      var i :| 0 <= i < |w.store.slots| && w.store.slots[i].IsArmed() && w.store.timer.value == w.store.slots[i].flushTime;
      assert Step(w, delay, e).store.slots[i] == w.store.slots[i];
    }
  }

  lemma RunReturnsOnTime(w: World, delay: nat, es: seq<Event>, e: Event)
    requires Initial(w) && LegalRun(w, delay, es) && Legal(Run(w, delay, es), delay, e)
    ensures var before := Run(w, delay, es);
            OnTime(Step(before, delay, e)) <==>
              || e.TimerEvent? || Deferred(before, e.path) || NoneArmed(before.store)
              || (before.store.timer.Some? && e.now < before.store.timer.value)
  {
    RunGood(w, delay, es);
    ReturnsOnTime(Run(w, delay, es), delay, e);
  }

  // A run that ends with a deadline passed: a deferred write at 0 with a delay of 10, whose timer is
  // late, and another write at 20.
  lemma DirectWriteLate(path: AttributePath, other: AttributePath)
    requires path != other
    ensures var w := World(Store([Slot(path, 0, None)], [], None), map[], 0, 0);
            var es := [WriteEvent(path, [1], 0, 0, NoError), WriteEvent(other, [2], 20, 20, NoError)];
            Initial(w) && LegalRun(w, 10, es) && !OnTime(Run(w, 10, es))
  {
    var first, second := WriteEvent(path, [1], 0, 0, NoError), WriteEvent(other, [2], 20, 20, NoError);
    var w := World(Store([Slot(path, 0, None)], [], None), map[], 0, 0);
    var s := World(Store([Slot(path, 10, Some([1]))], [], Some(10)), map[path := Written([1], 0)], 0, 0);
    FirstWriteArms(path);
    TwoSteps(w, first, second);
    DirectWriteExactly(s.store, other, [2], 30, 20, NoError);
    assert Step(s, 10, second).store.slots[0].flushTime == 10;
  }

  lemma FirstWriteArms(path: AttributePath)
    ensures Step(World(Store([Slot(path, 0, None)], [], None), map[], 0, 0), 10, WriteEvent(path, [1], 0, 0, NoError))
         == World(Store([Slot(path, 10, Some([1]))], [], Some(10)), map[path := Written([1], 0)], 0, 0)
  {
    var idle, armed := [Slot(path, 0, None)], [Slot(path, 10, Some([1]))];
    FoundAt(idle, path, 0);
    assert idle[0 := PrepareWrite(idle[0], 10, [1])] == armed && armed[..0] == [];
    assert FlushPass(armed, [], 0) == Pass(armed, [], 10);
  }

  lemma TwoSteps(w: World, first: Event, second: Event)
    requires Legal(w, 10, first) && Legal(Step(w, 10, first), 10, second)
    ensures LegalRun(w, 10, [first, second]) && Run(w, 10, [first, second]) == Step(Step(w, 10, first), 10, second)
  {
    assert [first, second][..1] == [first] && [first][..0] == [];
    assert Run(w, 10, [first]) == Step(w, 10, first);
  }

  // A deferred value is persisted only once its path was left alone for the delay, and it is the last
  // one written; a write that is not deferred is persisted at once.
  predicate PersistedInTime(w: World, delay: nat, e: Event, p: Persisted) {
    var last := Step(w, delay, e).last;
    if Deferred(w, p.path) then p.path in last && p.value == last[p.path].value && last[p.path].at + delay <= p.at
    else e.WriteEvent? && p == Persisted(e.path, e.value, e.now)
  }

  lemma StepPersistsInTime(w: World, delay: nat, e: Event)
    requires Good(w, delay) && Legal(w, delay, e)
    ensures var log, after := w.store.log, Step(w, delay, e).store.log;
            log <= after && forall k :: |log| <= k < |after| ==> PersistedInTime(w, delay, e, after[k])
  {
    match e
    case TimerEvent(now) => FlushInTime(w, delay, e, w.store.slots, now);
    case WriteEvent(path, _, _, _, _) =>
      var i := Find(w.store.slots, path);
      if i.Some? {
        WritePersistsInTime(w, delay, e, i.value);
      }
  }

  lemma WritePersistsInTime(w: World, delay: nat, e: Event, i: nat)
    requires Good(w, delay) && Legal(w, delay, e) && e.WriteEvent? && Find(w.store.slots, e.path) == Some(i)
    ensures var log, after := w.store.log, Step(w, delay, e).store.log;
            log <= after && forall k :: |log| <= k < |after| ==> PersistedInTime(w, delay, e, after[k])
  {
    WriteReady(w, delay, e, i);
    FlushInTime(w, delay, e, w.store.slots[i := PrepareWrite(w.store.slots[i], e.written + delay, e.value)], e.now);
  }

  lemma FlushInTime(w: World, delay: nat, e: Event, slots: seq<Slot>, now: nat)
    requires |slots| == |w.store.slots| && forall i :: 0 <= i < |slots| ==> slots[i].path == w.store.slots[i].path
    requires forall i :: 0 <= i < |slots| ==> SlotReady(slots[i], w.store.log, Step(w, delay, e).last, now, delay)
    ensures var after := FlushPass(slots, w.store.log, now).log;
            w.store.log <= after && forall k :: |w.store.log| <= k < |after| ==> PersistedInTime(w, delay, e, after[k])
  {
    FlushOnlyDue(slots, w.store.log, now);
    var after := FlushPass(slots, w.store.log, now).log;
    forall k | |w.store.log| <= k < |after|
      ensures PersistedInTime(w, delay, e, after[k])
    {
      assert FromDue(slots, after[k], now);
    }
  }

  lemma RunPersistsInTime(w: World, delay: nat, es: seq<Event>, e: Event)
    requires Initial(w) && LegalRun(w, delay, es) && Legal(Run(w, delay, es), delay, e)
    ensures var before := Run(w, delay, es);
            var log, after := before.store.log, Step(before, delay, e).store.log;
            log <= after && forall k :: |log| <= k < |after| ==> PersistedInTime(before, delay, e, after[k])
  {
    RunGood(w, delay, es);
    StepPersistsInTime(Run(w, delay, es), delay, e);
  }

  // ---------- draining ----------

  function ArmedCount(slots: seq<Slot>): (n: nat)
    ensures n <= |slots|
    ensures n == 0 <==> forall i :: 0 <= i < |slots| ==> !slots[i].IsArmed()
  {
    if slots == [] then 0 else ArmedCount(slots[..|slots| - 1]) + if slots[|slots| - 1].IsArmed() then 1 else 0
  }

  lemma {:induction false} FlushDisarms(slots: seq<Slot>, log: seq<Persisted>, now: nat)
    ensures ArmedCount(FlushPass(slots, log, now).slots) + DueCount(slots, now) == ArmedCount(slots)
  {
    if slots != [] {
      var n := |slots| - 1;
      FlushDisarms(slots[..n], log, now);
      var p := FlushPass(slots[..n], log, now);
      ArmedOneMore(p.slots, if Due(slots[n], now) then slots[n].(value := None) else slots[n]);
    }
  }

  lemma ArmedOneMore(slots: seq<Slot>, s: Slot)
    ensures ArmedCount(slots + [s]) == ArmedCount(slots) + if s.IsArmed() then 1 else 0
  {
    assert (slots + [s])[..|slots|] == slots;
  }

  function DueCount(slots: seq<Slot>, now: nat): nat {
    if slots == [] then 0 else DueCount(slots[..|slots| - 1], now) + if Due(slots[|slots| - 1], now) then 1 else 0
  }

  lemma {:induction false} SomeDue(slots: seq<Slot>, i: nat, now: nat)
    requires i < |slots| && Due(slots[i], now)
    ensures DueCount(slots, now) > 0
  {
    var n := |slots| - 1;
    if i < n {
      SomeDue(slots[..n], i, now);
    }
  }

  // While anything is armed each firing of the timer persists something; so as many firings as there
  // are slots disarm them all.
  lemma FiringProgresses(w: World, delay: nat, now: nat)
    requires Good(w, delay) && Legal(w, delay, TimerEvent(now))
    ensures var after := Step(w, delay, TimerEvent(now));
            if ArmedCount(w.store.slots) == 0 then after.store.timer == None
            else ArmedCount(after.store.slots) < ArmedCount(w.store.slots)
  {
    FlushDisarms(w.store.slots, w.store.log, now);
    FlushNext(w.store.slots, w.store.log, now);
    if ArmedCount(w.store.slots) != 0 {
      var i :| 0 <= i < |w.store.slots| && w.store.slots[i].IsArmed();
      var j :| 0 <= j < |w.store.slots| && w.store.slots[j].IsArmed() && w.store.timer.value == w.store.slots[j].flushTime;
      SomeDue(w.store.slots, j, now);
    }
  }

  // Once no timer is set, the last effective write to every deferred path is the one persisted last.
  lemma DrainedIsPersisted(w: World, delay: nat, es: seq<Event>, path: AttributePath)
    requires Initial(w) && LegalRun(w, delay, es)
    requires Run(w, delay, es).store.timer.None?
    requires Deferred(Run(w, delay, es), path) && path in Run(w, delay, es).last
    ensures var end := Run(w, delay, es);
            var p := LastPersisted(end.store.log, path);
            p.Some? && p.value.value == end.last[path].value && end.last[path].at + delay <= p.value.at
  {
    RunGood(w, delay, es);
    var end := Run(w, delay, es);
    var i := Find(end.store.slots, path).value;
    assert SlotGood(end.store.slots[i], end.store.log, end.last, end.flushed, delay);
  }

  // ---------- writes of no bytes ----------

  // A deferred write takes effect, by leaving its value armed or by persisting it, unless it is of
  // no bytes and nothing was armed.
  predicate TookEffect(before: Store, after: Store, path: AttributePath, value: seq<Byte>, now: nat)
    requires before.log <= after.log
  {
    var i := Find(after.slots, path);
    && i.Some?
    && (after.slots[i.value].value == Some(value)
        || LastPersisted(after.log[|before.log|..], path) == Some(Persisted(path, value, now)))
  }

  lemma WriteTakesEffect(w: World, delay: nat, e: Event)
    requires Good(w, delay) && Legal(w, delay, e) && e.WriteEvent? && Deferred(w, e.path)
    ensures var after := Step(w, delay, e).store;
            && w.store.log <= after.log
            && (TookEffect(w.store, after, e.path, e.value, e.now) <==> e.value != [] || Armed(w, e.path))
  {
    var i := Find(w.store.slots, e.path).value;
    var slots := w.store.slots[i := PrepareWrite(w.store.slots[i], e.written + delay, e.value)];
    assert slots[i].path == e.path && DistinctPaths(slots);
    FlushTakesEffect(w.store, slots, i, e.value, e.now);
  }

  lemma FlushTakesEffect(s: Store, slots: seq<Slot>, i: nat, value: seq<Byte>, now: nat)
    requires DistinctPaths(slots) && i < |slots|
    ensures var after := FlushAndSchedule(s.(slots := slots), now);
            && s.log <= after.log
            && (TookEffect(s, after, slots[i].path, value, now) <==> slots[i].value == Some(value))
  {
    FlushedSlot(slots, i, s.log, now);
    FlushedSlot(slots, i, [], now);
    FlushAppends(slots, s.log, now);
  }

  // What a flush persists goes to the end of the log, whatever is in it.
  lemma {:induction false} FlushAppends(slots: seq<Slot>, log: seq<Persisted>, now: nat)
    ensures FlushPass(slots, log, now).log == log + FlushPass(slots, [], now).log
  {
    if slots != [] {
      FlushAppends(slots[..|slots| - 1], log, now);
    }
  }

  lemma FlushedSlot(slots: seq<Slot>, i: nat, log: seq<Persisted>, now: nat)
    requires DistinctPaths(slots) && i < |slots|
    ensures var p := FlushPass(slots, log, now);
            && Find(p.slots, slots[i].path) == Some(i)
            && p.slots[i] == (if Due(slots[i], now) then slots[i].(value := None) else slots[i])
            && LastPersisted(p.log, slots[i].path)
               == if Due(slots[i], now) then Some(Persisted(slots[i].path, slots[i].value.value, now)) else LastPersisted(log, slots[i].path)
  {
    FindOwn(slots, i);
    FlushSlots(slots, log, now);
    FlushLog(slots, log, now, slots[i].path);
    FoundAt(FlushPass(slots, log, now).slots, slots[i].path, i);
  }

  // A write to any other path reaches the persister at once if that accepts it, and is lost if not;
  // nothing else changes.
  lemma DirectWriteExactly(s: Store, path: AttributePath, value: seq<Byte>, flushTime: nat, now: nat, direct: ChipError)
    requires forall i :: 0 <= i < |s.slots| ==> s.slots[i].path != path
    ensures var after := Write(s, path, value, flushTime, now, direct);
            && after.slots == s.slots && after.timer == s.timer
            && after.log == (if direct == NoError then s.log + [Persisted(path, value, now)] else s.log)
            && (direct == NoError ==> LastPersisted(after.log, path) == Some(Persisted(path, value, now)))
  {
    LastPersistedSnoc(s.log, Persisted(path, value, now), path);
  }

  // A write of no bytes to an idle slot.
  lemma EmptyWriteDropped(path: AttributePath)
    ensures var s := Store([Slot(path, 0, None)], [], None);
            Write(s, path, [], 100, 50, NoError) == Store([Slot(path, 100, None)], [], None)
  {
    var slots := [Slot(path, 100, None)];
    assert slots[..0] == [];
    FoundAt([Slot(path, 0, None)], path, 0);
    assert FlushPass(slots, [], 50) == Pass(slots, [], TIMESTAMP_MAX);
  }
}
