// ChunkedWriteCallback: a list written in chunks gets one status response per chunk; the application
// gets one for the list.

module ChunkedWrite {
  import opened Core

  datatype Response = Response(path: AttributePath, op: ListOp, status: StatusIB)

  datatype Report = Reported(path: AttributePath, status: StatusIB) | Failed(err: ChipError) | Done

  class ChunkedWriteCallback {
    var processingAttributePath: Option<AttributePath>
    var attributeStatus: StatusIB
    var reports: seq<Report>  // what the application was told

    constructor ()
      ensures View() == Merger(None, SUCCESS, [])
    {
      processingAttributePath := None;
      attributeStatus := SUCCESS;
      reports := [];
    }

    ghost function View(): Merger
      reads this
    {
      Merger(processingAttributePath, attributeStatus, reports)
    }

    method OnResponse(r: Response)
      modifies this
      ensures View() == Merge(old(View()), r)
    {
      var status := r.status;
      if processingAttributePath.Some? {
        var appending := IsAppendingToLastItem(r);
        if appending {
          if attributeStatus.IsSuccess() {
            attributeStatus := status;
          }
          return;
        }
        reports := reports + [Reported(processingAttributePath.value, attributeStatus)];
      }
      if r.op.IsListItemOperation() {
        status := FAILURE;
      }
      processingAttributePath := Some(r.path);
      attributeStatus := status;
    }

    method OnError(err: ChipError)
      modifies this
      ensures View() == old(View()).(reports := old(reports) + [Failed(err)])
    {
      reports := reports + [Failed(err)];
    }

    method OnDone()
      modifies this
      ensures View() == Finish(old(View()))
    {
      if processingAttributePath.Some? {
        reports := reports + [Reported(processingAttributePath.value, attributeStatus)];
      }
      processingAttributePath := None;
      attributeStatus := SUCCESS;
      reports := reports + [Done];
    }

    method IsAppendingToLastItem(r: Response) returns (appending: bool)
      ensures appending <==> processingAttributePath.Some? && Continues(processingAttributePath.value, r)
    {
      if !r.op.IsListItemOperation() {
        return false;
      }
      if processingAttributePath.None? || processingAttributePath.value != r.path {
        return false;
      }
      appending := r.op == AppendItem;
    }
  }

  // ---------- the callback step by step ----------

  datatype Merger = Merger(path: Option<AttributePath>, status: StatusIB, reports: seq<Report>)

  predicate Continues(path: AttributePath, r: Response) {
    r.op == AppendItem && r.path == path
  }

  function FirstStatus(r: Response): StatusIB {
    if r.op.IsListItemOperation() then FAILURE else r.status
  }

  function Merge(m: Merger, r: Response): Merger {
    if m.path.Some? && Continues(m.path.value, r) then m.(status := if m.status.IsSuccess() then r.status else m.status)
    else Merger(Some(r.path), FirstStatus(r), m.reports + Pending(m))
  }

  function Pending(m: Merger): seq<Report> {
    if m.path.Some? then [Reported(m.path.value, m.status)] else []
  }

  function Finish(m: Merger): Merger {
    Merger(None, SUCCESS, m.reports + Pending(m) + [Done])
  }

  function MergeAll(m: Merger, rs: seq<Response>): Merger
    decreases |rs|
  {
    if rs == [] then m else MergeAll(Merge(m, rs[0]), rs[1..])
  }

  // ---------- what the application is owed ----------

  // How many responses at the front belong to the same list.
  function RunLength(path: AttributePath, rs: seq<Response>): (k: nat)
    ensures k <= |rs|
    ensures forall i :: 0 <= i < k ==> Continues(path, rs[i])
    ensures k < |rs| ==> !Continues(path, rs[k])
  {
    if rs == [] || !Continues(path, rs[0]) then 0 else 1 + RunLength(path, rs[1..])
  }

  // The statuses of a run: its first response's, which is a failure if it is a list item operation,
  // and those of the appends.
  function Statuses(rs: seq<Response>): seq<StatusIB>
    requires rs != []
  {
    [FirstStatus(rs[0])] + Appended(rs[1..])
  }

  function Appended(rs: seq<Response>): (ss: seq<StatusIB>)
    ensures |ss| == |rs| && forall i :: 0 <= i < |rs| ==> ss[i] == rs[i].status
  {
    seq(|rs|, i requires 0 <= i < |rs| => rs[i].status)
  }

  // The first failure of a run, or else its last status.
  function Verdict(ss: seq<StatusIB>): StatusIB
    requires ss != []
  {
    if |ss| == 1 || !ss[0].IsSuccess() then ss[0] else Verdict(ss[1..])
  }

  // One report for each run of responses, in order.
  function Owed(rs: seq<Response>): seq<Report>
    decreases |rs|
  {
    if rs == [] then []
    else
      var n := 1 + RunLength(rs[0].path, rs[1..]);
      [Reported(rs[0].path, Verdict(Statuses(rs[..n])))] + Owed(rs[n..])
  }

  lemma {:induction false} VerdictIsFirstFailure(ss: seq<StatusIB>)
    requires ss != []
    ensures exists i :: 0 <= i < |ss| && Verdict(ss) == ss[i] && (forall j :: 0 <= j < i ==> ss[j].IsSuccess()) && (ss[i].IsSuccess() ==> i == |ss| - 1)
    ensures Verdict(ss).IsSuccess() <==> forall i :: 0 <= i < |ss| ==> ss[i].IsSuccess()
  {
    if |ss| == 1 || !ss[0].IsSuccess() {
      assert Verdict(ss) == ss[0];
      return;
    }
    var rest := ss[1..];
    VerdictIsFirstFailure(rest);
    var i :| 0 <= i < |rest| && Verdict(rest) == rest[i] && (forall j :: 0 <= j < i ==> rest[j].IsSuccess()) && (rest[i].IsSuccess() ==> i == |rest| - 1);
    assert ss[i + 1] == rest[i];
    assert forall j :: 0 <= j < i + 1 ==> ss[j].IsSuccess() by {
      assert forall j :: 1 <= j < i + 1 ==> ss[j] == rest[j - 1];
    }
    assert forall j :: 0 <= j < |rest| ==> rest[j] == ss[j + 1];
  }

  // Merging on from a status.
  lemma VerdictMerges(s: StatusIB, t: StatusIB, rest: seq<StatusIB>)
    ensures Verdict([s, t] + rest) == Verdict([if s.IsSuccess() then t else s] + rest)
  {
    assert ([s, t] + rest)[1..] == [t] + rest;
  }

  // With a run under way: it ends where the next response does not continue it.
  lemma {:induction false} RunUnderWay(path: AttributePath, status: StatusIB, reports: seq<Report>, rs: seq<Response>)
    ensures var k := RunLength(path, rs);
            Finish(MergeAll(Merger(Some(path), status, reports), rs)).reports
            == reports + ([Reported(path, Verdict([status] + Appended(rs[..k])))] + Owed(rs[k..])) + [Done]
    decreases |rs|, 2
  {
    var m := Merger(Some(path), status, reports);
    var k := RunLength(path, rs);
    if rs == [] {
      assert Appended(rs[..k]) == [];
    } else if k == 0 {
      RunStarts(path, status, reports, rs);
    } else {
      var status' := if status.IsSuccess() then rs[0].status else status;
      RunUnderWay(path, status', reports, rs[1..]);
      assert rs[1..][..k - 1] == rs[..k][1..] && rs[1..][k - 1..] == rs[k..];
      var more := Appended(rs[..k][1..]);
      VerdictMerges(status, rs[0].status, more);
      assert [status] + Appended(rs[..k]) == [status, rs[0].status] + more;
    }
  }

  lemma Regroup(reports: seq<Report>, r: Report, more: seq<Report>)
    ensures reports + [r] + more == reports + ([r] + more)
  {
  }

  // The next response starts a run of its own.
  lemma {:induction false} RunStarts(path: AttributePath, status: StatusIB, reports: seq<Report>, rs: seq<Response>)
    requires rs != [] && RunLength(path, rs) == 0
    ensures Finish(MergeAll(Merger(Some(path), status, reports), rs)).reports
         == reports + ([Reported(path, Verdict([status] + Appended(rs[..0])))] + Owed(rs[0..])) + [Done]
    decreases |rs|, 1
  {
    var told := reports + [Reported(path, status)];
    RunOpens(told, rs);
    assert rs[0..] == rs && Appended(rs[..0]) == [];
    Regroup(reports, Reported(path, status), Owed(rs));
  }

  lemma {:induction false} RunOpens(told: seq<Report>, rs: seq<Response>)
    requires rs != []
    ensures Finish(MergeAll(Merger(Some(rs[0].path), FirstStatus(rs[0]), told), rs[1..])).reports == told + Owed(rs) + [Done]
    decreases |rs|, 0
  {
    var rest := rs[1..];
    var k := RunLength(rs[0].path, rest);
    RunUnderWay(rs[0].path, FirstStatus(rs[0]), told, rest);
    assert rs[..1 + k][1..] == rest[..k] && rs[1 + k..] == rest[k..] && rs[..1 + k][0] == rs[0];
  }

  // Whatever responses arrive, closed by OnDone: the application is told of each run once, in order,
  // of the first failure in it if there is one, and the callback is as it was before.
  lemma WritesMerged(reports: seq<Report>, rs: seq<Response>)
    ensures Finish(MergeAll(Merger(None, SUCCESS, reports), rs)) == Merger(None, SUCCESS, reports + Owed(rs) + [Done])
  {
    if rs == [] {
      assert reports + [] == reports;
      return;
    }
    assert reports + Pending(Merger(None, SUCCESS, reports)) == reports;
    RunOpens(reports, rs);
  }

  // ---------- in the terms of the responses ----------

  // Response i starts a report of its own: it is the first, is no append, or is for another path than
  // the one before it.
  predicate Starts(rs: seq<Response>, i: nat)
    requires i < |rs|
  {
    i == 0 || rs[i].op != AppendItem || rs[i].path != rs[i - 1].path
  }

  // The status a response counts with: an item operation that starts a report counts as a failure.
  function Counted(rs: seq<Response>, i: nat): StatusIB
    requires i < |rs|
  {
    if Starts(rs, i) && (rs[i].op == ReplaceItem || rs[i].op == DeleteItem || rs[i].op == AppendItem) then StatusIB(1, None) else rs[i].status
  }

  // The status of responses from..to is the first failure among them, or the last one's.
  predicate Decides(rs: seq<Response>, from: nat, to: nat, status: StatusIB)
    requires from < to <= |rs|
  {
    exists i :: from <= i < to && status == Counted(rs, i)
                && (forall j :: from <= j < i ==> Counted(rs, j).status == 0) && (status.status == 0 ==> i == to - 1)
  }

  // `starts` are the responses that start a report, in order, and the end.
  ghost predicate AllStarts(rs: seq<Response>, starts: seq<nat>) {
    && starts != [] && starts[|starts| - 1] == |rs|
    && (forall j, k :: 0 <= j < k < |starts| ==> starts[j] < starts[k])
    && (forall i :: 0 <= i < |rs| ==> (i in starts <==> Starts(rs, i)))
  }

  lemma {:induction false} RunOfOnePath(rs: seq<Response>, k: nat)
    requires k < |rs| && k <= RunLength(rs[0].path, rs[1..])
    ensures rs[k].path == rs[0].path && (k > 0 ==> !Starts(rs, k))
  {
    if k > 0 {
      assert Continues(rs[0].path, rs[1..][k - 1]);
      RunOfOnePath(rs, k - 1);
    }
  }

  lemma RunEnds(rs: seq<Response>, n: nat)
    requires rs != [] && n == 1 + RunLength(rs[0].path, rs[1..])
    ensures n < |rs| ==> Starts(rs, n)
  {
    if n < |rs| {
      RunOfOnePath(rs, n - 1);
      assert !Continues(rs[0].path, rs[1..][n - 1]);
    }
  }

  lemma RunDecides(rs: seq<Response>, n: nat)
    requires rs != [] && n == 1 + RunLength(rs[0].path, rs[1..])
    ensures Decides(rs, 0, n, Verdict(Statuses(rs[..n])))
  {
    var ss := Statuses(rs[..n]);
    CountedAre(rs, n);
    VerdictIsFirstFailure(ss);
    VerdictDecides(rs, n, ss);
  }

  lemma CountedAre(rs: seq<Response>, n: nat)
    requires rs != [] && n == 1 + RunLength(rs[0].path, rs[1..])
    ensures |Statuses(rs[..n])| == n && forall k :: 0 <= k < n ==> Statuses(rs[..n])[k] == Counted(rs, k)
  {
    forall k | 0 <= k < n
      ensures Statuses(rs[..n])[k] == Counted(rs, k)
    {
      RunOfOnePath(rs, k);
    }
  }

  lemma VerdictDecides(rs: seq<Response>, n: nat, ss: seq<StatusIB>)
    requires 0 < n <= |rs| && |ss| == n && forall k :: 0 <= k < n ==> ss[k] == Counted(rs, k)
    requires exists i :: 0 <= i < |ss| && Verdict(ss) == ss[i] && (forall j :: 0 <= j < i ==> ss[j].IsSuccess()) && (ss[i].IsSuccess() ==> i == |ss| - 1)
    ensures Decides(rs, 0, n, Verdict(ss))
  {
    var i :| 0 <= i < |ss| && Verdict(ss) == ss[i] && (forall j :: 0 <= j < i ==> ss[j].IsSuccess()) && (ss[i].IsSuccess() ==> i == |ss| - 1);
    assert Verdict(ss) == Counted(rs, i);
  }

  // The responses after a report starts are seen the same from there.
  lemma SeenFrom(rs: seq<Response>, n: nat)
    requires n < |rs| && Starts(rs, n)
    ensures forall i :: n <= i < |rs| ==> (Starts(rs, i) <==> Starts(rs[n..], i - n)) && Counted(rs, i) == Counted(rs[n..], i - n)
  {
    forall i | n <= i < |rs|
      ensures (Starts(rs, i) <==> Starts(rs[n..], i - n)) && Counted(rs, i) == Counted(rs[n..], i - n)
    {
      assert rs[n..][i - n] == rs[i] && (i > n ==> rs[n..][i - n - 1] == rs[i - 1]);
    }
  }

  lemma DecidesFrom(rs: seq<Response>, n: nat, from: nat, to: nat, status: StatusIB)
    requires n < |rs| && Starts(rs, n) && from < to <= |rs| - n && Decides(rs[n..], from, to, status)
    ensures Decides(rs, n + from, n + to, status)
  {
    SeenFrom(rs, n);
    var i :| from <= i < to && status == Counted(rs[n..], i)
             && (forall j :: from <= j < i ==> Counted(rs[n..], j).status == 0) && (status.status == 0 ==> i == to - 1);
    assert status == Counted(rs, n + i);
    assert forall j :: n + from <= j < n + i ==> Counted(rs, j) == Counted(rs[n..], j - n);
  }

  // Report k is about what the k-th start and the responses up to the next one wrote.
  predicate ReportAt(rs: seq<Response>, starts: seq<nat>, reports: seq<Report>, k: nat)
    requires k < |reports| && |starts| == |reports| + 1
  {
    && starts[k] < starts[k + 1] <= |rs|
    && reports[k].Reported? && reports[k].path == rs[starts[k]].path && Decides(rs, starts[k], starts[k + 1], reports[k].status)
  }

  function Shifted(starts: seq<nat>, n: nat): (shifted: seq<nat>)
    ensures |shifted| == |starts| && forall k :: 0 <= k < |starts| ==> shifted[k] == starts[k] + n
  {
    seq(|starts|, k requires 0 <= k < |starts| => starts[k] + n)
  }

  // One report for each start: for its path, with the first failure of the responses up to the next
  // start, or the last status of them.
  lemma {:induction false} OwedExactly(rs: seq<Response>) returns (starts: seq<nat>)
    ensures AllStarts(rs, starts) && |Owed(rs)| == |starts| - 1
    ensures forall k :: 0 <= k < |Owed(rs)| ==> ReportAt(rs, starts, Owed(rs), k)
    decreases |rs|
  {
    if rs == [] {
      starts := [0];
      return;
    }
    var n := 1 + RunLength(rs[0].path, rs[1..]);
    var rest := OwedExactly(rs[n..]);
    starts := [0] + Shifted(rest, n);
    StartsJoined(rs, n, rest);
    FirstStart(rs[n..], rest);
    OwedJoined(rs, n, rest, Owed(rs[n..]), starts, Owed(rs));
  }

  lemma OwedJoined(rs: seq<Response>, n: nat, rest: seq<nat>, reports: seq<Report>, starts: seq<nat>, all: seq<Report>)
    requires rs != [] && n == 1 + RunLength(rs[0].path, rs[1..])
    requires |rest| == |reports| + 1 && rest[0] == 0 && rest[|rest| - 1] == |rs| - n && starts == [0] + Shifted(rest, n)
    requires forall k :: 0 <= k < |reports| ==> ReportAt(rs[n..], rest, reports, k)
    requires all == [Reported(rs[0].path, Verdict(Statuses(rs[..n])))] + reports
    ensures forall k :: 0 <= k < |all| ==> ReportAt(rs, starts, all, k)
  {
    RunDecides(rs, n);
    RunEnds(rs, n);
    assert starts[1] == n && ReportAt(rs, starts, all, 0);
    forall k | 0 < k < |all|
      ensures ReportAt(rs, starts, all, k)
    {
      assert ReportAt(rs[n..], rest, reports, k - 1);
      ReportFrom(rs, n, rest, reports, k - 1, starts, all);
    }
  }

  lemma ReportFrom(rs: seq<Response>, n: nat, rest: seq<nat>, reports: seq<Report>, k: nat, starts: seq<nat>, all: seq<Report>)
    requires n < |rs| && Starts(rs, n) && k < |reports| && |rest| == |reports| + 1 && ReportAt(rs[n..], rest, reports, k)
    requires |all| == |reports| + 1 && |starts| == |rest| + 1 && all[k + 1] == reports[k]
    requires starts[k + 1] == rest[k] + n && starts[k + 2] == rest[k + 1] + n
    ensures ReportAt(rs, starts, all, k + 1)
  {
    DecidesFrom(rs, n, rest[k], rest[k + 1], reports[k].status);
  }

  lemma FirstStart(rs: seq<Response>, starts: seq<nat>)
    requires AllStarts(rs, starts)
    ensures starts[0] == 0
  {
    if rs != [] {
      assert Starts(rs, 0) && 0 in starts;
    }
  }

  lemma StartsJoined(rs: seq<Response>, n: nat, rest: seq<nat>)
    requires rs != [] && n == 1 + RunLength(rs[0].path, rs[1..]) && AllStarts(rs[n..], rest)
    ensures AllStarts(rs, [0] + Shifted(rest, n))
  {
    var starts := [0] + Shifted(rest, n);
    RunEnds(rs, n);
    forall i | 0 <= i < |rs|
      ensures i in starts <==> Starts(rs, i)
    {
      if i < n {
        RunOfOnePath(rs, i);
      } else {
        SeenFrom(rs, n);
        if i in starts {
          var k :| 0 <= k < |starts| && starts[k] == i;
          assert rest[k - 1] == i - n;
        }
        if i - n in rest {
          var k :| 0 <= k < |rest| && rest[k] == i - n;
          assert starts[k + 1] == i;
        }
      }
    }
  }

  // A list that arrives as one response and appends gets one report.
  lemma {:induction false} ListReportedOnce(path: AttributePath, rs: seq<Response>)
    requires rs != [] && rs[0].path == path && (rs[0].op == NotList || rs[0].op == ReplaceAll)
    requires forall i :: 1 <= i < |rs| ==> rs[i].path == path && rs[i].op == AppendItem
    ensures exists status :: Owed(rs) == [Reported(path, status)]
                             && (status.status == 0 <==> forall i :: 0 <= i < |rs| ==> rs[i].status.status == 0)
  {
    var k := RunLength(path, rs[1..]);
    assert k == |rs| - 1;
    assert rs[..1 + k] == rs && rs[1 + k..] == [];
    var ss := Statuses(rs);
    VerdictIsFirstFailure(ss);
    assert forall i :: 0 <= i < |rs| ==> ss[i] == rs[i].status;
    assert Owed(rs) == [Reported(path, Verdict(ss))];
  }
}
