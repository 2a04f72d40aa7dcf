// What the buffering callback means for a whole stream of reports: each maximal run of items for
// one path becomes its non-list items followed by at most one complete list.

module BufferedStream {
  import opened Core
  import opened Tlv
  import opened BufferedRead

  predicate StartsBlock(items: seq<ReportItem>, i: nat)
    requires i < |items|
  {
    && items[i].dp.op.IsListOperation()
    && (i == 0 || items[i - 1].dp.path != items[i].dp.path || !items[i - 1].dp.op.IsListOperation())
  }

  predicate Fits(e: Elem, limit: nat) {
    Size(e) <= limit
  }

  // An item as the read client delivers it: a failed status is not a list operation, list data is
  // present and of the right type, and every list item fits a packet buffer.
  predicate WellFormedItem(item: ReportItem, limit: nat) {
    && (!item.status.IsSuccess() ==> item.dp.op == NotList)
    && (item.dp.op.IsListOperation() ==> item.data.Some?)
    && (item.dp.op == ReplaceAll ==> item.data.value.Array? && forall i :: 0 <= i < |item.data.value.items| ==> Fits(item.data.value.items[i], limit))
    && (item.dp.op == AppendItem ==> Fits(item.data.value, limit))
  }

  predicate WellFormedItems(items: seq<ReportItem>, limit: nat) {
    forall i :: 0 <= i < |items| ==> WellFormedItem(items[i], limit)
  }

  // The items of one report: well formed, and each block of list operations starts with the list.
  predicate WellFormed(items: seq<ReportItem>, limit: nat) {
    && WellFormedItems(items, limit)
    && (forall i :: 0 <= i < |items| && StartsBlock(items, i) ==> items[i].dp.op == ReplaceAll)
  }

  predicate SamePath(items: seq<ReportItem>, p: AttributePath) {
    forall i :: 0 <= i < |items| ==> items[i].dp.path == p
  }

  // Where the last maximal run of items for one path starts.
  function LastRun(items: seq<ReportItem>): (m: nat)
    requires items != []
    ensures m < |items|
    ensures SamePath(items[m..], items[|items| - 1].dp.path)
    ensures m == 0 || items[m - 1].dp.path != items[|items| - 1].dp.path
  {
    var n := |items| - 1;
    if n == 0 || items[n - 1].dp.path != items[n].dp.path then n else LastRun(items[..n])
  }

  // The latest whole list of a run followed by what was appended since; appended items that no whole
  // list precedes join `list`, which was buffered before.
  function Gathered(list: seq<Elem>, run: seq<ReportItem>): seq<Elem> {
    if run == [] then list
    else
      var item := run[|run| - 1];
      if item.dp.op == ReplaceAll && item.data.Some? && item.data.value.Array? then item.data.value.items
      else if item.dp.op == AppendItem && item.data.Some? then Gathered(list, run[..|run| - 1]) + [item.data.value]
      else Gathered(list, run[..|run| - 1])
  }

  function ListOf(run: seq<ReportItem>): seq<Elem> {
    Gathered([], run)
  }

  function Immediate(run: seq<ReportItem>): seq<Event> {
    if run == [] then []
    else
      var item := run[|run| - 1];
      Immediate(run[..|run| - 1]) + if item.dp.op.IsListOperation() then [] else [AttributeData(item)]
  }

  // What the owner is told about one run.
  function RunOutput(run: seq<ReportItem>): seq<Event>
    requires run != []
  {
    var last := run[|run| - 1].dp;
    Immediate(run) + if last.op.IsListOperation() then [WholeList(last, ListOf(run))] else []
  }

  // What the owner is told about the items of one report, run by run.
  function Spec(items: seq<ReportItem>): seq<Event> {
    if items == [] then [] else Spec(items[..LastRun(items)]) + RunOutput(items[LastRun(items)..])
  }

  predicate HaveData(items: seq<ReportItem>) {
    forall i :: 0 <= i < |items| ==> HasItsData(items[i])
  }

  // The calls of one report, without its begin and end.
  function Process(st: State, items: seq<ReportItem>, limit: nat): (State, seq<Event>)
    requires HaveData(items)
  {
    if items == [] then (st, [])
    else
      var (st1, events) := Process(st, items[..|items| - 1], limit);
      var (st2, more) := OnItem(st1, items[|items| - 1], limit);
      (st2, events + more)
  }

  lemma ProcessNext(st: State, xs: seq<ReportItem>, item: ReportItem, limit: nat)
    requires HaveData(xs) && HasItsData(item)
    ensures HaveData(xs + [item])
    ensures var (st1, events) := Process(st, xs, limit);
            var (st2, more) := OnItem(st1, item, limit);
            Process(st, xs + [item], limit) == (st2, events + more)
  {
    assert (xs + [item])[..|xs|] == xs;
  }

  lemma {:induction false} ProcessSplit(st: State, xs: seq<ReportItem>, ys: seq<ReportItem>, limit: nat)
    requires HaveData(xs) && HaveData(ys)
    ensures HaveData(xs + ys)
    ensures var (st1, events) := Process(st, xs, limit);
            var (st2, more) := Process(st1, ys, limit);
            Process(st, xs + ys, limit) == (st2, events + more)
  {
    var (st1, events) := Process(st, xs, limit);
    if ys == [] {
      assert xs + ys == xs && events + [] == events;
      return;
    }
    var n := |ys| - 1;
    ProcessSplit(st, xs, ys[..n], limit);
    var (st2, more) := Process(st1, ys[..n], limit);
    assert xs + ys == (xs + ys[..n]) + [ys[n]];
    ProcessNext(st, xs + ys[..n], ys[n], limit);
    ThreeEvents(events, more, OnItem(st2, ys[n], limit).1);
  }

  // No list is waiting to be handed out.
  predicate Clean(st: State) {
    !st.dp.op.IsListOperation()
  }

  lemma {:induction false} AllBufferable(es: seq<Elem>, limit: nat)
    requires forall i :: 0 <= i < |es| ==> Fits(es[i], limit)
    ensures Bufferable(es, limit) == es
  {
    if es != [] {
      assert forall i :: 0 <= i < |es[1..]| ==> es[1..][i] == es[i + 1];
      AllBufferable(es[1..], limit);
      assert [es[0]] + es[1..] == es;
    }
  }

  // A run: what waited for another path goes out first, the non-list items go out at once, and
  // the buffer ends up holding what the run gathers.
  lemma {:induction false} ProcessRun(st: State, run: seq<ReportItem>, limit: nat)
    requires run != [] && SamePath(run, run[0].dp.path)
    requires Clean(st) || st.dp.path != run[0].dp.path
    requires WellFormedItems(run, limit)
    ensures HaveData(run)
    ensures var (st', events) := Process(st, run, limit);
            && events == FlushEvents(st) + Immediate(run)
            && st'.dp == run[|run| - 1].dp
            && st'.list == Gathered(Flush(st).list, run)
  {
    var n := |run| - 1;
    var item := run[n];
    if item.dp.op == ReplaceAll {
      AllBufferable(item.data.value.items, limit);
    }
    if n == 0 {
      assert run[..0] == [];
      assert Process(st, [], limit) == (st, []);
      assert [] + OnItem(st, item, limit).1 == OnItem(st, item, limit).1;
      assert Immediate(run[..0]) == [];
      assert FlushEvents(st) + [] == FlushEvents(st);
      return;
    }
    var front := run[..n];
    ProcessRun(st, front, limit);
    var (st1, events) := Process(st, front, limit);
    assert st1.dp == run[n - 1].dp && st1.dp.path == item.dp.path;
    ThreeEvents(FlushEvents(st), Immediate(front), OnItem(st1, item, limit).1);
  }

  lemma ThreeEvents(a: seq<Event>, b: seq<Event>, c: seq<Event>)
    ensures (a + b) + c == a + (b + c)
  {
  }

  // What is told about a run, and what stays buffered after it, when `list` is buffered before it.
  function RunOutputFrom(list: seq<Elem>, run: seq<ReportItem>): seq<Event>
    requires run != []
  {
    var last := run[|run| - 1].dp;
    Immediate(run) + if last.op.IsListOperation() then [WholeList(last, Gathered(list, run))] else []
  }

  function LeftByRun(list: seq<Elem>, run: seq<ReportItem>): seq<Elem>
    requires run != []
  {
    if run[|run| - 1].dp.op.IsListOperation() then [] else Gathered(list, run)
  }

  function LeftByItems(list: seq<Elem>, items: seq<ReportItem>): seq<Elem> {
    if items == [] then list else LeftByRun(LeftByItems(list, items[..LastRun(items)]), items[LastRun(items)..])
  }

  function SpecFrom(list: seq<Elem>, items: seq<ReportItem>): seq<Event> {
    if items == [] then []
    else
      var m := LastRun(items);
      SpecFrom(list, items[..m]) + RunOutputFrom(LeftByItems(list, items[..m]), items[m..])
  }

  // With the list that is still buffered, a run contributes exactly its output.
  lemma RunDelivered(st: State, run: seq<ReportItem>, limit: nat)
    requires run != [] && SamePath(run, run[0].dp.path)
    requires Clean(st) || st.dp.path != run[0].dp.path
    requires WellFormedItems(run, limit)
    ensures HaveData(run)
    ensures var (st', events) := Process(st, run, limit);
            && events + FlushEvents(st') == FlushEvents(st) + RunOutputFrom(Flush(st).list, run)
            && st'.dp == run[|run| - 1].dp && Flush(st').list == LeftByRun(Flush(st).list, run)
  {
    ProcessRun(st, run, limit);
    var (st', events) := Process(st, run, limit);
    ThreeEvents(FlushEvents(st), Immediate(run), FlushEvents(st'));
  }

  lemma Regroup(events: seq<Event>, more: seq<Event>, flushed: seq<Event>, output: seq<Event>, rest: seq<Event>)
    requires more + rest == flushed + output
    ensures (events + more) + rest == (events + flushed) + output
  {
    assert (events + more) + rest == events + (more + rest);
  }

  lemma JoinRun(st: State, front: seq<ReportItem>, st1: State, events: seq<Event>, run: seq<ReportItem>, limit: nat)
    requires HaveData(front) && Process(st, front, limit) == (st1, events)
    requires run != [] && SamePath(run, run[0].dp.path) && WellFormedItems(run, limit)
    requires Clean(st1) || st1.dp.path != run[0].dp.path
    ensures HaveData(front + run)
    ensures var (st2, all) := Process(st, front + run, limit);
            && all + FlushEvents(st2) == events + FlushEvents(st1) + RunOutputFrom(Flush(st1).list, run)
            && st2.dp == run[|run| - 1].dp && Flush(st2).list == LeftByRun(Flush(st1).list, run)
  {
    RunDelivered(st1, run, limit);
    ProcessSplit(st, front, run, limit);
    var r := Process(st1, run, limit);
    Regroup(events, r.1, FlushEvents(st1), RunOutputFrom(Flush(st1).list, run), FlushEvents(r.0));
  }

  // From a clean state the calls made so far, with what is still buffered, follow from the items and
  // from what was buffered before.
  lemma {:induction false} ProcessItems(st: State, items: seq<ReportItem>, limit: nat)
    requires Clean(st) && WellFormedItems(items, limit)
    ensures HaveData(items)
    ensures var (st', events) := Process(st, items, limit);
            && events + FlushEvents(st') == SpecFrom(st.list, items)
            && Flush(st').list == LeftByItems(st.list, items)
            && (items != [] ==> st'.dp == items[|items| - 1].dp)
    decreases |items|
  {
    if items == [] {
      return;
    }
    var m := LastRun(items);
    ProcessItems(st, items[..m], limit);
    assert items[m..][0] == items[m] && (m > 0 ==> items[..m][m - 1] == items[m - 1]);
    var (st1, events) := Process(st, items[..m], limit);
    LastRunProcessed(st, items, m, st1, events, limit);
  }

  lemma LastRunProcessed(st: State, items: seq<ReportItem>, m: nat, st1: State, events: seq<Event>, limit: nat)
    requires items != [] && m == LastRun(items) && WellFormedItems(items[m..], limit)
    requires HaveData(items[..m]) && Process(st, items[..m], limit) == (st1, events)
    requires events + FlushEvents(st1) == SpecFrom(st.list, items[..m]) && Flush(st1).list == LeftByItems(st.list, items[..m])
    requires Clean(st1) || st1.dp.path != items[m].dp.path
    ensures HaveData(items)
    ensures var (st', all) := Process(st, items, limit);
            && all + FlushEvents(st') == SpecFrom(st.list, items)
            && Flush(st').list == LeftByItems(st.list, items)
            && st'.dp == items[|items| - 1].dp
  {
    var front, run := items[..m], items[m..];
    assert front + run == items;
    assert run[0].dp.path == items[m].dp.path && run[|run| - 1] == items[|items| - 1];
    JoinRun(st, front, st1, events, run, limit);
  }

  // ---------- where what is left matters ----------

  predicate Restarts(run: seq<ReportItem>) {
    exists i :: 0 <= i < |run| && run[i].dp.op == ReplaceAll && run[i].data.Some? && run[i].data.value.Array?
  }

  lemma {:induction false} GatheredIs(list: seq<Elem>, run: seq<ReportItem>)
    ensures Gathered(list, run) == if Restarts(run) then ListOf(run) else list + ListOf(run)
  {
    if run == [] {
      return;
    }
    var n := |run| - 1;
    GatheredIs(list, run[..n]);
    assert Restarts(run[..n]) ==> Restarts(run);
    var item := run[n];
    if item.dp.op == AppendItem && item.data.Some? && !Restarts(run) {
      assert (list + ListOf(run[..n])) + [item.data.value] == list + ListOf(run);
    }
  }

  // A list is handed over that some run before left items for: no whole list came before its appended
  // items.
  predicate LeaksHere(list: seq<Elem>, run: seq<ReportItem>)
    requires run != []
  {
    list != [] && run[|run| - 1].dp.op.IsListOperation() && !Restarts(run)
  }

  predicate Leaks(list: seq<Elem>, items: seq<ReportItem>) {
    items != [] &&
      var m := LastRun(items);
      Leaks(list, items[..m]) || LeaksHere(LeftByItems(list, items[..m]), items[m..])
  }

  lemma RunExactly(list: seq<Elem>, run: seq<ReportItem>)
    requires run != []
    ensures |RunOutputFrom(list, run)| == |RunOutput(run)|
    ensures RunOutputFrom(list, run) == RunOutput(run) <==> !LeaksHere(list, run)
  {
    GatheredIs(list, run);
    var last := run[|run| - 1].dp;
    if last.op.IsListOperation() {
      var at := |Immediate(run)|;
      assert RunOutputFrom(list, run)[at] == WholeList(last, Gathered(list, run)) && RunOutput(run)[at] == WholeList(last, ListOf(run));
      assert |list + ListOf(run)| == |list| + |ListOf(run)|;
      assert list == [] ==> list + ListOf(run) == ListOf(run);
    }
  }

  lemma SameParts(a: seq<Event>, b: seq<Event>, c: seq<Event>, d: seq<Event>)
    requires |a| == |c|
    ensures a + b == c + d <==> a == c && b == d
  {
    if a + b == c + d {
      assert a == (a + b)[..|a|] && c == (c + d)[..|c|];
      assert b == (a + b)[|a|..] && d == (c + d)[|c|..];
    }
  }

  lemma {:induction false} ItemsExactly(list: seq<Elem>, items: seq<ReportItem>)
    ensures |SpecFrom(list, items)| == |Spec(items)|
    ensures SpecFrom(list, items) == Spec(items) <==> !Leaks(list, items)
    decreases |items|
  {
    if items != [] {
      var m := LastRun(items);
      ItemsExactly(list, items[..m]);
      RunExactly(LeftByItems(list, items[..m]), items[m..]);
      SameParts(SpecFrom(list, items[..m]), RunOutputFrom(LeftByItems(list, items[..m]), items[m..]), Spec(items[..m]), RunOutput(items[m..]));
    }
  }

  // ---------- blocks that start with the whole list ----------

  lemma WellFormedParts(items: seq<ReportItem>, m: nat, limit: nat)
    requires WellFormed(items, limit) && m <= |items|
    requires 0 < m < |items| ==> items[m - 1].dp.path != items[m].dp.path
    ensures WellFormed(items[..m], limit) && WellFormed(items[m..], limit)
  {
    assert forall i :: 0 <= i < m ==> (StartsBlock(items[..m], i) <==> StartsBlock(items, i));
    assert forall i :: 0 <= i < |items| - m ==> (StartsBlock(items[m..], i) <==> StartsBlock(items, m + i));
  }

  lemma {:induction false} WholeListFirst(run: seq<ReportItem>, k: nat, limit: nat)
    requires k < |run| && SamePath(run, run[0].dp.path) && WellFormed(run, limit) && run[k].dp.op.IsListOperation()
    ensures Restarts(run)
  {
    assert WellFormedItem(run[k], limit);
    if !StartsBlock(run, k) {
      WholeListFirst(run, k - 1, limit);
    }
  }

  lemma {:induction false} NothingLeaks(list: seq<Elem>, items: seq<ReportItem>, limit: nat)
    requires WellFormed(items, limit)
    ensures !Leaks(list, items)
    decreases |items|
  {
    if items != [] {
      var m := LastRun(items);
      assert items[m..][|items| - m - 1] == items[|items| - 1] && items[m..][0] == items[m];
      WellFormedParts(items, m, limit);
      NothingLeaks(list, items[..m], limit);
      if items[|items| - 1].dp.op.IsListOperation() {
        WholeListFirst(items[m..], |items| - m - 1, limit);
      }
    }
  }

  // From a clean state the calls made so far, with what is still buffered, are the specification.
  lemma ProcessMeetsSpec(st: State, items: seq<ReportItem>, limit: nat)
    requires Clean(st) && WellFormed(items, limit)
    ensures HaveData(items)
    ensures var (st', events) := Process(st, items, limit);
            && events + FlushEvents(st') == Spec(items)
            && (items != [] ==> st'.dp == items[|items| - 1].dp)
  {
    ProcessItems(st, items, limit);
    NothingLeaks(st.list, items, limit);
    ItemsExactly(st.list, items);
  }

  // One report from its begin to its end.
  function Report(st: State, items: seq<ReportItem>, limit: nat): (State, seq<Event>)
    requires HaveData(items)
  {
    var (st', events) := Process(st, items, limit);
    (Flush(st'), [BeginOfReport] + events + FlushEvents(st') + [EndOfReport])
  }

  function Reports(st: State, reports: seq<seq<ReportItem>>, limit: nat): (State, seq<Event>)
    requires forall i :: 0 <= i < |reports| ==> HaveData(reports[i])
    decreases |reports|
  {
    if reports == [] then (st, [])
    else
      var (st1, events) := Report(st, reports[0], limit);
      var (st2, more) := Reports(st1, reports[1..], limit);
      (st2, events + more)
  }

  function SpecReports(reports: seq<seq<ReportItem>>): seq<Event> {
    if reports == [] then [] else [BeginOfReport] + Spec(reports[0]) + [EndOfReport] + SpecReports(reports[1..])
  }

  lemma ReportMeetsSpec(st: State, items: seq<ReportItem>, limit: nat)
    requires Clean(st) && WellFormed(items, limit)
    ensures HaveData(items)
    ensures var (st', events) := Report(st, items, limit);
            Clean(st') && events == [BeginOfReport] + Spec(items) + [EndOfReport]
  {
    ProcessMeetsSpec(st, items, limit);
    var (st', events) := Process(st, items, limit);
    assert [BeginOfReport] + events + FlushEvents(st') == [BeginOfReport] + (events + FlushEvents(st'));
  }

  // Any sequence of well-formed reports: what the owner is told depends on each report alone, so
  // nothing of one run or report leaks into a later one.
  lemma {:induction false} StreamMeetsSpec(st: State, reports: seq<seq<ReportItem>>, limit: nat)
    requires Clean(st) && forall i :: 0 <= i < |reports| ==> WellFormed(reports[i], limit)
    ensures forall i :: 0 <= i < |reports| ==> HaveData(reports[i])
    ensures Reports(st, reports, limit).1 == SpecReports(reports)
    ensures Clean(Reports(st, reports, limit).0)
    decreases |reports|
  {
    forall i | 0 <= i < |reports|
      ensures HaveData(reports[i])
    {
      ReportMeetsSpec(st, reports[i], limit);
    }
    if reports != [] {
      ReportMeetsSpec(st, reports[0], limit);
      StreamMeetsSpec(Report(st, reports[0], limit).0, reports[1..], limit);
    }
  }

  // ---------- any reports ----------

  function SpecReportsFrom(list: seq<Elem>, reports: seq<seq<ReportItem>>): seq<Event>
    decreases |reports|
  {
    if reports == [] then []
    else [BeginOfReport] + SpecFrom(list, reports[0]) + [EndOfReport] + SpecReportsFrom(LeftByItems(list, reports[0]), reports[1..])
  }

  predicate LeaksInReports(list: seq<Elem>, reports: seq<seq<ReportItem>>)
    decreases |reports|
  {
    reports != [] && (Leaks(list, reports[0]) || LeaksInReports(LeftByItems(list, reports[0]), reports[1..]))
  }

  lemma ReportItems(st: State, items: seq<ReportItem>, limit: nat)
    requires Clean(st) && WellFormedItems(items, limit)
    ensures HaveData(items)
    ensures var (st', events) := Report(st, items, limit);
            Clean(st') && st'.list == LeftByItems(st.list, items) && events == [BeginOfReport] + SpecFrom(st.list, items) + [EndOfReport]
  {
    ProcessItems(st, items, limit);
    var (st', events) := Process(st, items, limit);
    assert [BeginOfReport] + events + FlushEvents(st') == [BeginOfReport] + (events + FlushEvents(st'));
  }

  lemma {:induction false} ReportsFrom(st: State, reports: seq<seq<ReportItem>>, limit: nat)
    requires Clean(st) && forall i :: 0 <= i < |reports| ==> WellFormedItems(reports[i], limit)
    ensures forall i :: 0 <= i < |reports| ==> HaveData(reports[i])
    ensures Reports(st, reports, limit).1 == SpecReportsFrom(st.list, reports)
    decreases |reports|
  {
    forall i | 0 <= i < |reports|
      ensures HaveData(reports[i])
    {
      ReportItems(st, reports[i], limit);
    }
    if reports != [] {
      ReportItems(st, reports[0], limit);
      ReportsFrom(Report(st, reports[0], limit).0, reports[1..], limit);
    }
  }

  lemma {:induction false} ReportsExactly(list: seq<Elem>, reports: seq<seq<ReportItem>>)
    ensures SpecReportsFrom(list, reports) == SpecReports(reports) <==> !LeaksInReports(list, reports)
    decreases |reports|
  {
    if reports != [] {
      var left := LeftByItems(list, reports[0]);
      ItemsExactly(list, reports[0]);
      ReportsExactly(left, reports[1..]);
      FramedParts(SpecFrom(list, reports[0]), SpecReportsFrom(left, reports[1..]), Spec(reports[0]), SpecReports(reports[1..]));
    }
  }

  lemma FramedParts(a: seq<Event>, b: seq<Event>, c: seq<Event>, d: seq<Event>)
    requires |a| == |c|
    ensures [BeginOfReport] + a + [EndOfReport] + b == [BeginOfReport] + c + [EndOfReport] + d <==> a == c && b == d
  {
    SameParts([BeginOfReport] + a + [EndOfReport], b, [BeginOfReport] + c + [EndOfReport], d);
    SameParts([BeginOfReport] + a, [EndOfReport], [BeginOfReport] + c, [EndOfReport]);
    SameParts([BeginOfReport], a, [BeginOfReport], c);
  }

  // Any reports of well-formed items, whatever their blocks start with: the owner is told exactly
  // what is owed run by run, unless some list is handed over behind items that earlier runs left.
  lemma StreamExactly(reports: seq<seq<ReportItem>>, limit: nat)
    requires forall i :: 0 <= i < |reports| ==> WellFormedItems(reports[i], limit)
    ensures forall i :: 0 <= i < |reports| ==> HaveData(reports[i])
    ensures Reports(State(NO_PATH, []), reports, limit).1 == SpecReports(reports) <==> !LeaksInReports([], reports)
  {
    ReportsFrom(State(NO_PATH, []), reports, limit);
    ReportsExactly([], reports);
  }

  // ---------- what is not a list ----------

  // The items of other attributes and the errors, in order.
  function Plain(items: seq<ReportItem>): seq<ReportItem> {
    if items == [] then []
    else Plain(items[..|items| - 1]) + if items[|items| - 1].dp.op == NotList then [items[|items| - 1]] else []
  }

  // The items that were passed on as they came.
  function PassedOn(events: seq<Event>): seq<ReportItem> {
    if events == [] then []
    else
      var e := events[|events| - 1];
      PassedOn(events[..|events| - 1]) + if e.AttributeData? && e.item.dp.op == NotList then [e.item] else []
  }

  lemma {:induction false} PlainSplit(xs: seq<ReportItem>, ys: seq<ReportItem>)
    ensures Plain(xs + ys) == Plain(xs) + Plain(ys)
  {
    if ys == [] {
      assert xs + ys == xs;
    } else {
      var n := |ys| - 1;
      assert (xs + ys)[..|xs| + n] == xs + ys[..n];
      PlainSplit(xs, ys[..n]);
    }
  }

  lemma {:induction false} PassedOnSplit(xs: seq<Event>, ys: seq<Event>)
    ensures PassedOn(xs + ys) == PassedOn(xs) + PassedOn(ys)
  {
    if ys == [] {
      assert xs + ys == xs;
    } else {
      var n := |ys| - 1;
      assert (xs + ys)[..|xs| + n] == xs + ys[..n];
      PassedOnSplit(xs, ys[..n]);
    }
  }

  lemma {:induction false} PassedOnOne(e: Event)
    ensures PassedOn([e]) == if e.AttributeData? && e.item.dp.op == NotList then [e.item] else []
  {
    assert [e][..0] == [];
  }

  lemma {:induction false} ImmediatePasses(run: seq<ReportItem>)
    ensures PassedOn(Immediate(run)) == Plain(run)
  {
    if run != [] {
      var n := |run| - 1;
      ImmediatePasses(run[..n]);
      PassedOnOne(AttributeData(run[n]));
      PassedOnSplit(Immediate(run[..n]), [AttributeData(run[n])]);
      assert Immediate(run[..n]) + [] == Immediate(run[..n]) && Plain(run[..n]) + [] == Plain(run[..n]);
    }
  }

  lemma {:induction false} RunPasses(run: seq<ReportItem>)
    requires run != []
    ensures PassedOn(RunOutput(run)) == Plain(run)
  {
    var last := run[|run| - 1].dp;
    ImmediatePasses(run);
    PassedOnOne(WholeList(last, ListOf(run)));
    PassedOnSplit(Immediate(run), if last.op.IsListOperation() then [WholeList(last, ListOf(run))] else []);
  }

  // Whatever else is owed, everything that is not a list operation is passed on as it came, once
  // and in order.
  lemma {:induction false} PlainItemsPass(items: seq<ReportItem>)
    ensures PassedOn(Spec(items)) == Plain(items)
    decreases |items|
  {
    if items != [] {
      var m := LastRun(items);
      PlainItemsPass(items[..m]);
      RunPasses(items[m..]);
      PassedOnSplit(Spec(items[..m]), RunOutput(items[m..]));
      PlainSplitAt(items, m);
    }
  }

  lemma {:induction false} PlainSplitAt(items: seq<ReportItem>, m: nat)
    requires m <= |items|
    ensures Plain(items) == Plain(items[..m]) + Plain(items[m..])
  {
    assert items[..m] + items[m..] == items;
    PlainSplit(items[..m], items[m..]);
  }

  // Without the rule on blocks, items do leak: an error for a list leaves its items buffered, and
  // an append for another path in a later report picks them up.
  lemma LeakWithoutWholeList(p: AttributePath, q: AttributePath, x: Elem, y: Elem, limit: nat)
    requires p != q && Fits(x, limit) && Fits(y, limit)
    ensures var first := [ReportItem(DataPath(p, ReplaceAll, None), Some(Array([x])), SUCCESS),
                          ReportItem(DataPath(p, NotList, None), None, FAILURE)];
            var second := [ReportItem(DataPath(q, AppendItem, None), Some(y), SUCCESS)];
            && HaveData(first) && HaveData(second)
            && WellFormed(first, limit) && ListOf(second) == [y]
            && WholeList(DataPath(q, AppendItem, None), [x, y]) in Reports(State(NO_PATH, []), [first, second], limit).1
  {
    var replace := ReportItem(DataPath(p, ReplaceAll, None), Some(Array([x])), SUCCESS);
    var failed := ReportItem(DataPath(p, NotList, None), None, FAILURE);
    var append := ReportItem(DataPath(q, AppendItem, None), Some(y), SUCCESS);
    var first, second := [replace, failed], [append];
    var st := State(NO_PATH, []);
    AllBufferable([x], limit);
    assert first[..1] == [replace] && [replace][..0] == [] && second[..0] == [];
    assert Process(st, [replace], limit).0 == State(replace.dp, [x]);
    assert Process(st, first, limit).0 == State(failed.dp, [x]);
    var st1 := Report(st, first, limit).0;
    assert st1 == State(failed.dp, [x]);
    assert Process(st1, second, limit).0 == State(append.dp, [x, y]);
    assert [first, second][1..] == [second];
    assert WholeList(append.dp, [x, y]) in Report(st1, second, limit).1;
    assert ListOf(second) == ListOf([]) + [y];
  }
}
