// Encoder, reporting engine, wire and buffering callback together: whatever the packet sizes, the
// owner of the callback gets a list attribute once and whole, or an error and no list at all, or,
// when the packets stop coming, nothing of it.

module ChunkingRoundTrip {
  import opened Core
  import opened Tlv
  import opened ListEncoder
  import opened ReportEngine
  import opened BufferedRead
  import opened BufferedStream

  // How the read client presents one report to its callback.
  function ToItem(ib: ReportIB): ReportItem {
    match ib
    case StatusReportIB(about, status) => ReportItem(DataPath(about, NotList, None), None, status)
    case DataIB(path, nullIndex, data) =>
      var op := if nullIndex then AppendItem else if data.Array? then ReplaceAll else NotList;
      ReportItem(DataPath(path.path, op, Some(path.version)), Some(data), SUCCESS)
  }

  function ToItems(ibs: seq<ReportIB>): seq<ReportItem> {
    seq(|ibs|, i requires 0 <= i < |ibs| => ToItem(ibs[i]))
  }

  lemma ToItemsSplit(xs: seq<ReportIB>, ys: seq<ReportIB>)
    ensures ToItems(xs + ys) == ToItems(xs) + ToItems(ys)
  {
  }

  // Nothing ties the end of xs to the start of ys.
  predicate Apart(xs: seq<ReportItem>, ys: seq<ReportItem>) {
    xs == [] || ys == [] || xs[|xs| - 1].dp.path != ys[0].dp.path
  }

  lemma {:induction false} LastRunApart(xs: seq<ReportItem>, ys: seq<ReportItem>)
    requires ys != [] && Apart(xs, ys)
    ensures LastRun(xs + ys) == |xs| + LastRun(ys)
  {
    var n := |ys| - 1;
    if n > 0 && ys[n - 1].dp.path == ys[n].dp.path {
      assert (xs + ys)[..|xs| + n] == xs + ys[..n];
      LastRunApart(xs, ys[..n]);
    }
  }

  lemma SplitAt(xs: seq<ReportItem>, ys: seq<ReportItem>, m: nat)
    requires m <= |ys|
    ensures (xs + ys)[..|xs| + m] == xs + ys[..m]
    ensures (xs + ys)[|xs| + m..] == ys[m..]
  {
  }

  lemma SpecLast(front: seq<ReportItem>, ys: seq<ReportItem>)
    requires ys != [] && Apart(front, ys)
    ensures Spec(front + ys) == Spec(front + ys[..LastRun(ys)]) + RunOutput(ys[LastRun(ys)..])
  {
    LastRunApart(front, ys);
    SplitAt(front, ys, LastRun(ys));
  }

  lemma {:induction false} SpecApart(xs: seq<ReportItem>, ys: seq<ReportItem>)
    requires Apart(xs, ys)
    ensures Spec(xs + ys) == Spec(xs) + Spec(ys)
    decreases |ys|
  {
    if ys == [] {
      assert xs + ys == xs;
      assert Spec(xs) + [] == Spec(xs);
    } else {
      var m := LastRun(ys);
      SpecLast(xs, ys);
      SpecApart(xs, ys[..m]);
      ThreeEvents(Spec(xs), Spec(ys[..m]), RunOutput(ys[m..]));
    }
  }

  lemma WellFormedApart(xs: seq<ReportItem>, ys: seq<ReportItem>, limit: nat)
    requires WellFormed(xs, limit) && WellFormed(ys, limit) && Apart(xs, ys)
    ensures WellFormed(xs + ys, limit)
  {
    var zs := xs + ys;
    forall i | 0 <= i < |zs|
      ensures WellFormedItem(zs[i], limit)
      ensures StartsBlock(zs, i) ==> zs[i].dp.op == ReplaceAll
    {
      if i < |xs| {
        assert WellFormedItem(xs[i], limit);
        assert StartsBlock(zs, i) <==> StartsBlock(xs, i);
      } else {
        assert WellFormedItem(ys[i - |xs|], limit);
        assert i > |xs| ==> zs[i - 1] == ys[i - |xs| - 1];
        assert StartsBlock(zs, i) ==> StartsBlock(ys, i - |xs|);
      }
    }
  }

  lemma {:induction false} LastRunSamePath(items: seq<ReportItem>, p: AttributePath)
    requires items != [] && SamePath(items, p)
    ensures LastRun(items) == 0
  {
    if |items| > 1 {
      LastRunSamePath(items[..|items| - 1], p);
    }
  }

  lemma SpecOfRun(items: seq<ReportItem>, p: AttributePath)
    requires items != [] && SamePath(items, p)
    ensures Spec(items) == RunOutput(items)
  {
    LastRunSamePath(items, p);
    assert items[..0] == [] && items[0..] == items;
    assert [] + RunOutput(items) == RunOutput(items);
  }

  lemma {:induction false} ListOfAppends(path: ReportPath, front: seq<ReportItem>, es: seq<Elem>)
    requires front != []
    ensures var run := front + ToItems(AppendIBs(path, es));
            && ListOf(run) == ListOf(front) + es
            && Immediate(run) == Immediate(front)
    decreases |es|
  {
    if es == [] {
      assert front + ToItems(AppendIBs(path, es)) == front;
    } else {
      var n := |es| - 1;
      assert es == es[..n] + [es[n]];
      AppendIBsSplit(path, es[..n], [es[n]]);
      assert AppendIBs(path, [es[n]]) == [DataIB(path, true, es[n])] + AppendIBs(path, []);
      var run := front + ToItems(AppendIBs(path, es));
      var shorter := front + ToItems(AppendIBs(path, es[..n]));
      assert run == shorter + [ToItem(DataIB(path, true, es[n]))];
      assert run[..|run| - 1] == shorter;
      ListOfAppends(path, front, es[..n]);
      assert ListOf(run) == ListOf(shorter) + [es[n]];
    }
  }

  lemma {:induction false} AppendsAre(path: ReportPath, es: seq<Elem>)
    ensures |AppendIBs(path, es)| == |es|
    ensures forall i :: 0 <= i < |es| ==> AppendIBs(path, es)[i] == DataIB(path, true, es[i])
  {
    if es != [] {
      AppendsAre(path, es[1..]);
    }
  }

  ghost predicate AllFit(es: seq<Elem>, limit: nat) {
    forall i :: 0 <= i < |es| ==> Fits(es[i], limit)
  }

  // The pieces of an attribute form one well-formed run whose list is the whole of it.
  lemma ChunkedRun(path: ReportPath, es: seq<Elem>, k: nat, limit: nat)
    requires k <= |es| && AllFit(es, limit)
    ensures var run := ToItems(Chunked(path, es, k));
            && run != [] && SamePath(run, path.path) && WellFormed(run, limit)
            && ListOf(run) == es && Immediate(run) == []
            && run[|run| - 1].dp.op.IsListOperation() && run[|run| - 1].dp.version == Some(path.version)
  {
    var head := ToItems([ListIB(path, es[..k])]);
    var tail := AppendIBs(path, es[k..]);
    var run := ToItems(Chunked(path, es, k));
    AppendsAre(path, es[k..]);
    assert run == head + ToItems(tail);
    ListOfAppends(path, head, es[k..]);
    assert head[..0] == [];
    assert es[..k] + es[k..] == es;
    forall i | 0 <= i < |run|
      ensures run[i].dp.path == path.path && WellFormedItem(run[i], limit)
      ensures StartsBlock(run, i) ==> run[i].dp.op == ReplaceAll
    {
      if i > 0 {
        assert run[i] == ToItem(DataIB(path, true, es[k..][i - 1]));
        assert es[k..][i - 1] == es[k + i - 1];
      }
    }
  }

  // A run between items for other paths contributes its own output and disturbs nothing.
  lemma RunBetween(before: seq<ReportItem>, run: seq<ReportItem>, after: seq<ReportItem>, p: AttributePath, limit: nat)
    requires run != [] && SamePath(run, p)
    requires WellFormed(before, limit) && WellFormed(run, limit) && WellFormed(after, limit)
    requires before != [] ==> before[|before| - 1].dp.path != p
    requires after != [] ==> after[0].dp.path != p
    ensures WellFormed(before + run + after, limit)
    ensures Spec(before + run + after) == Spec(before) + RunOutput(run) + Spec(after)
  {
    WellFormedApart(before, run, limit);
    WellFormedApart(before + run, after, limit);
    SpecOfRun(run, p);
    SpecApart(before, run);
    SpecApart(before + run, after);
  }

  // A complete attribute between other attributes: one callback with the whole list.
  lemma DeliveredOnce(path: ReportPath, es: seq<Elem>, ibs: seq<ReportIB>, before: seq<ReportItem>, after: seq<ReportItem>, limit: nat)
    requires CarriesPrefix(path, es, |es|, ibs) && AllFit(es, limit)
    requires WellFormed(before, limit) && WellFormed(after, limit)
    requires before != [] ==> before[|before| - 1].dp.path != path.path
    requires after != [] ==> after[0].dp.path != path.path
    ensures WellFormed(before + ToItems(ibs) + after, limit)
    ensures Spec(before + ToItems(ibs) + after)
         == Spec(before) + [WholeList(DataPath(path.path, ReplaceAll, Some(path.version)), es)] + Spec(after)
  {
    assert es[..|es|] == es;
    var k :| 0 <= k <= |es| && ibs == Chunked(path, es, k);
    ChunkedRun(path, es, k, limit);
    assert [] + [WholeList(DataPath(path.path, ReplaceAll, Some(path.version)), es)]
        == [WholeList(DataPath(path.path, ReplaceAll, Some(path.version)), es)];
    RunBetween(before, ToItems(ibs), after, path.path, limit);
  }

  lemma ToItemsSnoc(ibs: seq<ReportIB>)
    requires ibs != []
    ensures ToItems(ibs) == ToItems(ibs[..|ibs| - 1]) + [ToItem(ibs[|ibs| - 1])]
  {
  }

  lemma WellFormedSnoc(front: seq<ReportItem>, item: ReportItem, limit: nat)
    requires WellFormed(front, limit) && WellFormedItem(item, limit) && !item.dp.op.IsListOperation()
    ensures WellFormed(front + [item], limit)
  {
    var run := front + [item];
    forall i | 0 <= i < |run|
      ensures WellFormedItem(run[i], limit) && (StartsBlock(run, i) ==> run[i].dp.op == ReplaceAll)
    {
      if i < |front| {
        assert StartsBlock(run, i) <==> StartsBlock(front, i);
      }
    }
  }

  lemma OutputSnoc(front: seq<ReportItem>, item: ReportItem)
    requires Immediate(front) == [] && !item.dp.op.IsListOperation()
    ensures RunOutput(front + [item]) == [AttributeData(item)]
  {
    assert (front + [item])[..|front|] == front;
  }

  // An attribute whose read failed midway: the error, and no list, whatever was sent before.
  lemma FailedRun(path: ReportPath, es: seq<Elem>, status: StatusIB, ibs: seq<ReportIB>, limit: nat)
    requires ibs != [] && ibs[|ibs| - 1] == StatusReportIB(path.path, status) && !status.IsSuccess()
    requires var carried := ibs[..|ibs| - 1]; carried == [] || exists c: nat :: CarriesPrefix(path, es, c, carried)
    requires AllFit(es, limit)
    ensures var run := ToItems(ibs);
            && SamePath(run, path.path) && WellFormed(run, limit)
            && RunOutput(run) == [AttributeData(ReportItem(DataPath(path.path, NotList, None), None, status))]
  {
    var carried := ibs[..|ibs| - 1];
    var front := ToItems(carried);
    if carried != [] {
      var c: nat :| CarriesPrefix(path, es, c, carried);
      var k :| 0 <= k <= c && carried == Chunked(path, es[..c], k);
      ChunkedRun(path, es[..c], k, limit);
    }
    ToItemsSnoc(ibs);
    WellFormedSnoc(front, ToItem(ibs[|ibs| - 1]), limit);
    OutputSnoc(front, ToItem(ibs[|ibs| - 1]));
  }

  lemma FailedOnce(path: ReportPath, es: seq<Elem>, status: StatusIB, ibs: seq<ReportIB>, before: seq<ReportItem>, after: seq<ReportItem>, limit: nat)
    requires ibs != [] && ibs[|ibs| - 1] == StatusReportIB(path.path, status) && !status.IsSuccess()
    requires var carried := ibs[..|ibs| - 1]; carried == [] || exists c: nat :: CarriesPrefix(path, es, c, carried)
    requires AllFit(es, limit)
    requires WellFormed(before, limit) && WellFormed(after, limit)
    requires before != [] ==> before[|before| - 1].dp.path != path.path
    requires after != [] ==> after[0].dp.path != path.path
    ensures WellFormed(before + ToItems(ibs) + after, limit)
    ensures Spec(before + ToItems(ibs) + after)
         == Spec(before) + [AttributeData(ReportItem(DataPath(path.path, NotList, None), None, status))] + Spec(after)
  {
    FailedRun(path, es, status, ibs, limit);
    RunBetween(before, ToItems(ibs), after, path.path, limit);
  }

  // What the owner of the callback is told about the attribute: the values of the chosen items as
  // one list, or the status of the failed read if some item has an undefined fabric.
  function Outcome(req: ReadRequest, items: seq<ListItem>, chosen: seq<nat>, cost: StatusCost): Event
    requires forall k :: 0 <= k < |chosen| ==> chosen[k] < |items|
  {
    if exists i :: 0 <= i < |items| && items[i].fabric == Some(0)
    then AttributeData(ReportItem(DataPath(req.path.path, NotList, None), None, cost.status))
    else AttributeData(ReportItem(DataPath(req.path.path, ReplaceAll, Some(req.path.version)), Some(Array(Picked(items, chosen))), SUCCESS))
  }

  // Feeds the items of a report that has begun to the buffering callback.
  method Feed(callback: BufferedReadCallback, items: seq<ReportItem>)
    requires HaveData(items)
    modifies callback
    ensures var (st, events) := Process(old(callback.GetState()), items, callback.limit);
            callback.GetState() == st && callback.log == old(callback.log) + events
  {
    ghost var st0, log0 := callback.GetState(), callback.log;
    var i := 0;
    while i < |items|
      invariant 0 <= i <= |items|
      invariant var (st, events) := Process(st0, items[..i], callback.limit);
                callback.GetState() == st && callback.log == log0 + events
    {
      assert items[..i + 1][..i] == items[..i];
      ghost var (st, events) := Process(st0, items[..i], callback.limit);
      ThreeEvents(log0, events, OnItem(st, items[i], callback.limit).1);
      callback.OnAttributeData(items[i]);
      i := i + 1;
    }
    assert items[..i] == items;
  }

  // Feeds a whole report to the buffering callback.
  method Deliver(callback: BufferedReadCallback, items: seq<ReportItem>)
    requires HaveData(items)
    modifies callback
    ensures var (st, events) := Report(old(callback.GetState()), items, callback.limit);
            callback.GetState() == st && callback.log == old(callback.log) + events
  {
    ghost var st0, log0 := callback.GetState(), callback.log;
    callback.OnReportBegin();
    Feed(callback, items);
    ghost var (st, events) := Process(st0, items, callback.limit);
    assert (log0 + [BeginOfReport] + events) + FlushEvents(st) + [EndOfReport]
        == log0 + ([BeginOfReport] + events + FlushEvents(st) + [EndOfReport]);
    callback.OnReportEnd();
  }

  // What a callback was told by the items of a report that never ends: of the reports `before`, and
  // of nothing of the attribute whose pieces `ibs` came last.
  lemma UnfinishedSaysNothing(st: State, path: ReportPath, es: seq<Elem>, before: seq<ReportItem>, ibs: seq<ReportIB>, limit: nat)
    requires Clean(st) && WellFormed(before, limit) && AllFit(es, limit)
    requires before != [] ==> before[|before| - 1].dp.path != path.path
    requires ibs == [] || exists c: nat :: CarriesPrefix(path, es, c, ibs)
    ensures HaveData(before + ToItems(ibs))
    ensures Process(st, before + ToItems(ibs), limit).1 <= Spec(before)
  {
    ProcessMeetsSpec(st, before, limit);
    var (st1, events) := Process(st, before, limit);
    if ibs == [] {
      assert before + ToItems(ibs) == before;
      return;
    }
    var c: nat :| CarriesPrefix(path, es, c, ibs);
    var k :| 0 <= k <= c && ibs == Chunked(path, es[..c], k);
    ChunkedRun(path, es[..c], k, limit);
    var run := ToItems(ibs);
    ProcessRun(st1, run, limit);
    ProcessSplit(st, before, run, limit);
    assert FlushEvents(st1) + [] == FlushEvents(st1);
  }

  lemma Wrap(log: seq<Event>, a: seq<Event>, b: seq<Event>, c: seq<Event>)
    ensures log + ([BeginOfReport] + (a + b + c) + [EndOfReport]) == log + [BeginOfReport] + a + b + c + [EndOfReport]
  {
  }

  // A list of more than 65536 items in packets of two: the client gathers the first items twice.
  lemma ItemsRepeat(req: ReadRequest, es: seq<Elem>, cost: StatusCost, n: nat)
    requires OneByteItems(es) && |es| > MANY && n == MANY / 2
    ensures var sent := Packets(req, es, false, cost, PairRooms(req, 2, n));
            var next := Packet(req, es, false, cost, sent.state, PairRoom(req));
            ListOf(ToItems(sent.ibs + next.ibs)) == es[..2 * n] + es[..2]
  {
    ItemsComeAgain(req, es, cost, n);
    ChunkedThenAppended(req.path, es[..2 * n], 2, es[..2]);
  }

  lemma ChunkedThenAppended(path: ReportPath, es: seq<Elem>, k: nat, more: seq<Elem>)
    requires k <= |es|
    ensures ListOf(ToItems(Chunked(path, es, k) + AppendIBs(path, more))) == es + more
  {
    Rejoined([ListIB(path, es[..k])], AppendIBs(path, es[k..]), AppendIBs(path, more));
    AppendIBsSplit(path, es[k..], more);
    ListThenAppends(path, es[..k], es[k..] + more);
    assert es[..k] + (es[k..] + more) == es + more;
  }

  lemma Rejoined(a: seq<ReportIB>, b: seq<ReportIB>, c: seq<ReportIB>)
    ensures (a + b) + c == a + (b + c)
  {
  }

  lemma ListThenAppends(path: ReportPath, head: seq<Elem>, later: seq<Elem>)
    ensures ListOf(ToItems([ListIB(path, head)] + AppendIBs(path, later))) == head + later
  {
    ToItemsSplit([ListIB(path, head)], AppendIBs(path, later));
    ListOfAppends(path, ToItems([ListIB(path, head)]), later);
  }

  // What was sent of an attribute whose packets stopped coming.
  method DeliverUnfinished(callback: BufferedReadCallback, req: ReadRequest, received: seq<ReportIB>,
                           ghost es: seq<Elem>, ghost before: seq<ReportIB>, ghost ibs: seq<ReportIB>)
    requires received == before + ibs && AllFit(es, callback.limit)
    requires WellFormed(ToItems(before), callback.limit)
    requires before != [] ==> ToItem(before[|before| - 1]).dp.path != req.path.path
    requires ibs == [] || exists c: nat :: CarriesPrefix(req.path, es, c, ibs)
    requires Clean(callback.GetState())
    modifies callback
    ensures callback.log <= old(callback.log) + [BeginOfReport] + Spec(ToItems(before))
  {
    ToItemsSplit(before, ibs);
    UnfinishedSaysNothing(callback.GetState(), req.path, es, ToItems(before), ibs, callback.limit);
    callback.OnReportBegin();
    Feed(callback, ToItems(received));
  }

  // A complete attribute, then other ones, and the end of the report.
  method DeliverCompleted(callback: BufferedReadCallback, req: ReadRequest, items: seq<ListItem>, cost: StatusCost, received: seq<ReportIB>,
                          after: seq<ReportItem>, ghost before: seq<ReportIB>, ghost ibs: seq<ReportIB>)
    returns (ghost chosen: seq<nat>)
    requires received == before + ibs && AllFit(Kept(req, items), callback.limit) && !cost.status.IsSuccess()
    requires WellFormed(ToItems(before), callback.limit) && WellFormed(after, callback.limit)
    requires before != [] ==> ToItem(before[|before| - 1]).dp.path != req.path.path
    requires after != [] ==> after[0].dp.path != req.path.path
    requires Complete(req, Kept(req, items), Broken(items), cost.status, ibs)
    requires Clean(callback.GetState())
    modifies callback
    ensures Chosen(req, items, chosen) && forall k :: 0 <= k < |chosen| ==> chosen[k] < |items|
    ensures callback.log == old(callback.log) + [BeginOfReport] + Spec(ToItems(before)) + [Outcome(req, items, chosen, cost)] + Spec(after) + [EndOfReport]
  {
    chosen := KeptExactly(req, items);
    ToItemsSplit(before, ibs);
    var all := ToItems(received) + after;
    if Broken(items) {
      FailedOnce(req.path, Kept(req, items), cost.status, ibs, ToItems(before), after, callback.limit);
    } else {
      DeliveredOnce(req.path, Kept(req, items), ibs, ToItems(before), after, callback.limit);
    }
    ReportMeetsSpec(callback.GetState(), all, callback.limit);
    Deliver(callback, all);
    Wrap(old(callback.log), Spec(ToItems(before)), [Outcome(req, items, chosen, cost)], Spec(after));
  }

  // A whole read: the server sends the attribute in packets of any sizes, after the reports
  // `before`; the client unpacks them, sees the reports `after` of other attributes, and closes.
  method ReadListAttribute(req: ReadRequest, items: seq<ListItem>, cost: StatusCost, rooms: nat -> nat,
                           before: seq<ReportIB>, after: seq<ReportItem>, callback: BufferedReadCallback)
    returns (completed: bool, ghost chosen: seq<nat>)
    requires |Kept(req, items)| <= 0xFFFF && AllFit(Kept(req, items), callback.limit) && !cost.status.IsSuccess()
    requires WellFormed(ToItems(before), callback.limit) && WellFormed(after, callback.limit)
    requires before != [] ==> ToItem(before[|before| - 1]).dp.path != req.path.path
    requires after != [] ==> after[0].dp.path != req.path.path
    requires Clean(callback.GetState())
    modifies callback
    ensures !completed ==> callback.log <= old(callback.log) + [BeginOfReport] + Spec(ToItems(before))
    ensures Chosen(req, items, chosen) && forall k :: 0 <= k < |chosen| ==> chosen[k] < |items|
    ensures completed ==>
              callback.log == old(callback.log) + [BeginOfReport] + Spec(ToItems(before)) + [Outcome(req, items, chosen, cost)] + Spec(after) + [EndOfReport]
    ensures (forall n: nat :: n > 0 || before == [] ==> Suffices(req, Kept(req, items), Broken(items), cost, rooms(n)))
            ==> completed
  {
    var reporter := new AttributeReporter(req, cost);
    var packets; ghost var ibs;
    packets, completed, ibs := reporter.SendReports(items, before, rooms);
    if completed {
      chosen := DeliverCompleted(callback, req, items, cost, Receive(packets).value, after, before, ibs);
      return;
    }
    chosen := KeptExactly(req, items);
    if packets != [] {
      DeliverUnfinished(callback, req, Receive(packets).value, Kept(req, items), before, ibs);
    }
  }
}
