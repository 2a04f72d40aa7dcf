// The reporting engine as far as one list attribute is concerned: it builds one report packet
// after another until the attribute is out, keeping or dropping what the encoder wrote.

module ReportEngine {
  import opened Core
  import opened Tlv
  import opened ListEncoder

  // One AttributeReportIB on the wire.
  datatype ReportIB =
    | DataIB(path: ReportPath, nullIndex: bool, data: Elem)
    | StatusReportIB(about: AttributePath, status: StatusIB)

  function Emit(ib: ReportIB): seq<Token> {
    match ib
    case StatusReportIB(about, status) => [StatusReport(about, status)]
    case DataIB(path, false, Array(es)) => ListTokens(path, es)
    case DataIB(path, nullIndex, e) => [Head(path, nullIndex), Item(e), DataEnd, ReportEnd]
  }

  function EmitAll(ibs: seq<ReportIB>): seq<Token> {
    if ibs == [] then [] else Emit(ibs[0]) + EmitAll(ibs[1..])
  }

  function LeadingItems(ts: seq<Token>): (es: seq<Elem>)
    ensures |es| <= |ts|
  {
    if ts == [] || !ts[0].Item? then [] else [ts[0].e] + LeadingItems(ts[1..])
  }

  function Prepend(ib: ReportIB, rest: Option<seq<ReportIB>>): Option<seq<ReportIB>> {
    match rest
    case None => None
    case Some(ibs) => Some([ib] + ibs)
  }

  // Reads a packet back; None when it is not a sequence of complete reports.
  function Parse(ts: seq<Token>): Option<seq<ReportIB>>
    decreases |ts|
  {
    if ts == [] then Some([])
    else if ts[0].StatusReport? then Prepend(StatusReportIB(ts[0].about, ts[0].status), Parse(ts[1..]))
    else if |ts| >= 4 && ts[0].Head? && ts[1].Item? && ts[2] == DataEnd && ts[3] == ReportEnd then
      Prepend(DataIB(ts[0].path, ts[0].nullIndex, ts[1].e), Parse(ts[4..]))
    else if |ts| >= 2 && ts[0].Head? && !ts[0].nullIndex && ts[1] == ArrayOpen then
      var es := LeadingItems(ts[2..]);
      var rest := ts[2 + |es|..];
      if |rest| >= 3 && rest[..3] == [ArrayClose, DataEnd, ReportEnd]
      then Prepend(DataIB(ts[0].path, false, Array(es)), Parse(rest[3..]))
      else None
    else None
  }

  lemma ItemFirst(es: seq<Elem>, rest: seq<Token>)
    requires es != []
    ensures ItemTokens(es) + rest == [Item(es[0])] + (ItemTokens(es[1..]) + rest)
  {
  }

  lemma {:induction false} LeadingItemsOfItems(es: seq<Elem>, rest: seq<Token>)
    requires rest != [] && !rest[0].Item?
    ensures LeadingItems(ItemTokens(es) + rest) == es
    ensures |ItemTokens(es)| == |es|
  {
    if es == [] {
      assert ItemTokens(es) + rest == rest;
    } else {
      ItemFirst(es, rest);
      LeadingItemsOfItems(es[1..], rest);
    }
  }

  lemma ParseList(path: ReportPath, es: seq<Elem>, rest: seq<Token>)
    ensures Parse(ListTokens(path, es) + rest) == Prepend(DataIB(path, false, Array(es)), Parse(rest))
  {
    var closing := [ArrayClose, DataEnd, ReportEnd];
    var ts := ListTokens(path, es) + rest;
    assert ts[2..] == ItemTokens(es) + (closing + rest);
    LeadingItemsOfItems(es, closing + rest);
    var tail := ts[2 + |es|..];
    assert tail == closing + rest;
    assert tail[..3] == closing && tail[3..] == rest;
  }

  lemma ParseEmit(ib: ReportIB, rest: seq<Token>)
    ensures Parse(Emit(ib) + rest) == Prepend(ib, Parse(rest))
  {
    if ib.DataIB? && !ib.nullIndex && ib.data.Array? {
      ParseList(ib.path, ib.data.items, rest);
    } else {
      assert (Emit(ib) + rest)[|Emit(ib)|..] == rest;
    }
  }

  // The wire form loses nothing.
  lemma {:induction false} ParseEmitAll(ibs: seq<ReportIB>)
    ensures Parse(EmitAll(ibs)) == Some(ibs)
  {
    if ibs != [] {
      ParseEmit(ibs[0], EmitAll(ibs[1..]));
      ParseEmitAll(ibs[1..]);
      assert [ibs[0]] + ibs[1..] == ibs;
    }
  }

  lemma {:induction false} EmitAllSplit(xs: seq<ReportIB>, ys: seq<ReportIB>)
    ensures EmitAll(xs + ys) == EmitAll(xs) + EmitAll(ys)
  {
    if xs == [] {
      assert xs + ys == ys;
    } else {
      assert (xs + ys)[1..] == xs[1..] + ys;
      EmitAllSplit(xs[1..], ys);
    }
  }

  function ListIB(path: ReportPath, es: seq<Elem>): ReportIB {
    DataIB(path, false, Array(es))
  }

  function AppendIBs(path: ReportPath, es: seq<Elem>): seq<ReportIB> {
    if es == [] then [] else [DataIB(path, true, es[0])] + AppendIBs(path, es[1..])
  }

  lemma {:induction false} AppendIBsSplit(path: ReportPath, xs: seq<Elem>, ys: seq<Elem>)
    ensures AppendIBs(path, xs + ys) == AppendIBs(path, xs) + AppendIBs(path, ys)
  {
    if xs == [] {
      assert xs + ys == ys;
    } else {
      assert (xs + ys)[1..] == xs[1..] + ys;
      AppendIBsSplit(path, xs[1..], ys);
    }
  }

  lemma {:induction false} EmitAppends(path: ReportPath, es: seq<Elem>)
    ensures EmitAll(AppendIBs(path, es)) == AppendTokens(path, es)
  {
    if es != [] {
      EmitAppends(path, es[1..]);
    }
  }

  lemma EmitListIB(path: ReportPath, es: seq<Elem>)
    ensures EmitAll([ListIB(path, es)]) == ListTokens(path, es)
  {
    assert [ListIB(path, es)][1..] == [];
  }

  // A list delivered in pieces: the first k elements in one list, every other one appended.
  function Chunked(path: ReportPath, es: seq<Elem>, k: nat): seq<ReportIB>
    requires k <= |es|
  {
    [ListIB(path, es[..k])] + AppendIBs(path, es[k..])
  }

  lemma ChunkedExtend(path: ReportPath, es: seq<Elem>, k: nat, c: nat, d: nat)
    requires k <= c <= d <= |es|
    ensures Chunked(path, es[..c], k) + AppendIBs(path, es[c..d]) == Chunked(path, es[..d], k)
  {
    assert es[..c][..k] == es[..d][..k];
    assert es[..d][k..] == es[..c][k..] + es[c..d];
    AppendIBsSplit(path, es[..c][k..], es[c..d]);
  }

  // What the status that reports the failed read holds, and how many bytes its report takes.
  datatype StatusCost = StatusCost(status: StatusIB, bytes: nat)

  datatype PacketResult = PacketResult(ibs: seq<ReportIB>, state: EncodeState, done: bool)

  function StatusPacket(req: ReadRequest, cost: StatusCost, room: nat): PacketResult {
    if cost.bytes <= room
    then PacketResult([StatusReportIB(req.path.path, cost.status)], FRESH_STATE, true)
    else PacketResult([], FRESH_STATE, false)
  }

  // What a packet with `room` bytes left gets of the attribute, and what is remembered for the
  // next one. `es` are the elements to deliver; a broken list ends in a status instead.
  function Packet(req: ReadRequest, es: seq<Elem>, broken: bool, cost: StatusCost, s: EncodeState, room: nat): PacketResult {
    if s.listIndex == INVALID_LIST_INDEX then
      if room < OpeningBytes(req) + CLOSING_BYTES then PacketResult([], FRESH_STATE, false)
      else
        var k := FitCount(es, 0, room - OpeningBytes(req) - CLOSING_BYTES);
        if k == |es| && broken then StatusPacket(req, cost, room)
        else if k == |es| then PacketResult([ListIB(req.path, es)], FRESH_STATE, true)
        else if k == 0 then PacketResult([], FRESH_STATE, false)
        else PacketResult([ListIB(req.path, es[..k])], EncodeState(true, IndexAfter(k)), false)
    else
      var start := Min(s.listIndex, |es|);
      var k := FitCount(es[start..], AppendOverhead(req), room);
      if start + k == |es| && broken then StatusPacket(req, cost, room)
      else if start + k == |es| then PacketResult(AppendIBs(req.path, es[start..]), FRESH_STATE, true)
      else PacketResult(AppendIBs(req.path, es[start..start + k]), EncodeState(true, IndexAfter(s.listIndex + k)), false)
  }

  // The handler's state, the writer and whether the attribute is out, once a packet is decided.
  datatype Settled = Settled(state: EncodeState, buf: Buffer<Token>, done: bool)

  // What the engine makes of an encoder that turned `b` into `b'` and returned (s', err).
  function Settle(req: ReadRequest, cost: StatusCost, b: Buffer<Token>, s': EncodeState, b': Buffer<Token>, err: ChipError): Settled {
    if err == NoError then Settled(FRESH_STATE, b', true)
    else if s'.allowPartialData && IsOutOfWriterSpace(err) then Settled(s', b', false)
    else if IsOutOfWriterSpace(err) || cost.bytes > b.remaining then Settled(FRESH_STATE, b, false)
    else Settled(FRESH_STATE, b.(tokens := b.tokens + [StatusReport(req.path.path, cost.status)], remaining := b.remaining - cost.bytes), true)
  }

  ghost predicate Matches(b: Buffer<Token>, p: PacketResult, r: Settled) {
    r.done == p.done && r.state == p.state && r.buf.tokens == b.tokens + EmitAll(p.ibs) && r.buf.torn == b.torn
  }

  lemma StatusMatches(req: ReadRequest, cost: StatusCost, b: Buffer<Token>, s': EncodeState, b': Buffer<Token>, r: Settled)
    requires r == Settle(req, cost, b, s', b', InvalidFabricIndex)
    ensures Matches(b, StatusPacket(req, cost, b.remaining), r)
  {
    var status := [StatusReportIB(req.path.path, cost.status)];
    assert EmitAll(status) == Emit(status[0]) + EmitAll([]);
    assert b.tokens + EmitAll([]) == b.tokens;
  }

  lemma FirstPacket(req: ReadRequest, es: seq<Elem>, broken: bool, cost: StatusCost, s: EncodeState, b: Buffer<Token>,
                    s': EncodeState, b': Buffer<Token>, err: ChipError, r: Settled)
    requires s.listIndex == INVALID_LIST_INDEX
    requires EncodeListOutcome(req, es, broken, s, b, s', b', err)
    requires r == Settle(req, cost, b, s', b', err)
    ensures Matches(b, Packet(req, es, broken, cost, s, b.remaining), r)
  {
    assert b.tokens + EmitAll([]) == b.tokens;
    if b.remaining >= OpeningBytes(req) + CLOSING_BYTES {
      var k := FitCount(es, 0, b.remaining - OpeningBytes(req) - CLOSING_BYTES);
      if k == |es| && broken {
        StatusMatches(req, cost, b, s', b', r);
      } else {
        EmitListIB(req.path, es[..k]);
        assert es[..|es|] == es;
      }
    }
  }

  lemma ResumedPacket(req: ReadRequest, es: seq<Elem>, broken: bool, cost: StatusCost, s: EncodeState, b: Buffer<Token>,
                      s': EncodeState, b': Buffer<Token>, err: ChipError, r: Settled)
    requires s.listIndex != INVALID_LIST_INDEX
    requires EncodeListOutcome(req, es, broken, s, b, s', b', err)
    requires r == Settle(req, cost, b, s', b', err)
    ensures Matches(b, Packet(req, es, broken, cost, s, b.remaining), r)
  {
    var start := Min(s.listIndex, |es|);
    var k := FitCount(es[start..], AppendOverhead(req), b.remaining);
    if start + k == |es| && broken {
      StatusMatches(req, cost, b, s', b', r);
    } else {
      EmitAppends(req.path, es[start..start + k]);
      assert es[start..|es|] == es[start..];
    }
  }

  // `ibs` carries the first c elements of the attribute and nothing else.
  ghost predicate CarriesPrefix(path: ReportPath, es: seq<Elem>, c: nat, ibs: seq<ReportIB>) {
    c <= |es| && exists k :: 0 <= k <= c && ibs == Chunked(path, es[..c], k)
  }

  // The reports sent so far and the saved state agree.
  ghost predicate InStep(req: ReadRequest, es: seq<Elem>, s: EncodeState, ibs: seq<ReportIB>) {
    if s.listIndex == INVALID_LIST_INDEX then ibs == []
    else 0 < s.listIndex && CarriesPrefix(req.path, es, s.listIndex, ibs)
  }

  // What the reports of an attribute look like once it is out.
  ghost predicate Complete(req: ReadRequest, es: seq<Elem>, broken: bool, status: StatusIB, ibs: seq<ReportIB>) {
    if broken then
      && ibs != []
      && ibs[|ibs| - 1] == StatusReportIB(req.path.path, status)
      && var carried := ibs[..|ibs| - 1];
         (carried == [] || exists c: nat :: CarriesPrefix(req.path, es, c, carried))
    else
      CarriesPrefix(req.path, es, |es|, ibs)
  }

  // A packet of that room, used for this attribute alone, can hold any one report of it.
  ghost predicate Suffices(req: ReadRequest, es: seq<Elem>, broken: bool, cost: StatusCost, room: nat) {
    && OpeningBytes(req) + CLOSING_BYTES <= room
    && (forall i :: 0 <= i < |es| ==> Size(es[i]) + AppendOverhead(req) <= room)
    && (broken ==> cost.bytes <= room)
  }

  lemma PacketInStep(req: ReadRequest, es: seq<Elem>, broken: bool, cost: StatusCost, s: EncodeState, room: nat, ibs: seq<ReportIB>)
    requires |es| <= 0xFFFF && InStep(req, es, s, ibs)
    ensures var p := Packet(req, es, broken, cost, s, room);
            if p.done then Complete(req, es, broken, cost.status, ibs + p.ibs)
            else
              && (p.state.listIndex == INVALID_LIST_INDEX ==> p.ibs == [])
              && (s.listIndex == INVALID_LIST_INDEX || p.ibs != [] ==> InStep(req, es, p.state, ibs + p.ibs))
              && (p.ibs != [] ==> p.state.listIndex != INVALID_LIST_INDEX &&
                                  (s.listIndex == INVALID_LIST_INDEX || s.listIndex < p.state.listIndex))
  {
    var p := Packet(req, es, broken, cost, s, room);
    assert ibs + [] == ibs;
    if p.ibs != [] && p.ibs[0].StatusReportIB? {
      assert (ibs + p.ibs)[..|ibs|] == ibs;
      return;
    }
    if s.listIndex == INVALID_LIST_INDEX {
      FirstInStep(req, es, broken, cost, s, room);
      return;
    }
    if p.done || p.ibs != [] {
      LaterInStep(req, es, broken, cost, s, room, ibs);
    }
  }

  lemma FirstInStep(req: ReadRequest, es: seq<Elem>, broken: bool, cost: StatusCost, s: EncodeState, room: nat)
    requires |es| <= 0xFFFF && s.listIndex == INVALID_LIST_INDEX
    ensures var p := Packet(req, es, broken, cost, s, room);
            p.ibs != [] && !p.ibs[0].StatusReportIB? ==>
              if p.done then CarriesPrefix(req.path, es, |es|, p.ibs) && !broken
              else p.state.listIndex != INVALID_LIST_INDEX && InStep(req, es, p.state, p.ibs)
  {
    if room < OpeningBytes(req) + CLOSING_BYTES {
      return;
    }
    var k := FitCount(es, 0, room - OpeningBytes(req) - CLOSING_BYTES);
    if k == |es| {
      WholeInOne(req.path, es);
    } else if k > 0 {
      FirstStopped(req, es, k);
    }
  }

  lemma WholeInOne(path: ReportPath, es: seq<Elem>)
    ensures CarriesPrefix(path, es, |es|, [ListIB(path, es)])
  {
    OneChunk(path, es, |es|);
    assert es[..|es|] == es;
  }

  lemma FirstStopped(req: ReadRequest, es: seq<Elem>, k: nat)
    requires 0 < k < |es| <= 0xFFFF
    ensures IndexAfter(k) == k && k != INVALID_LIST_INDEX && InStep(req, es, EncodeState(true, k), [ListIB(req.path, es[..k])])
  {
    OneChunk(req.path, es, k);
    IndexAfterExact(k);
  }

  lemma OneChunk(path: ReportPath, es: seq<Elem>, k: nat)
    requires k <= |es|
    ensures [ListIB(path, es[..k])] == Chunked(path, es[..k], k) && CarriesPrefix(path, es, k, [ListIB(path, es[..k])])
  {
    assert es[..k][..k] == es[..k] && es[..k][k..] == [];
    assert [ListIB(path, es[..k])] + [] == [ListIB(path, es[..k])];
  }

  lemma LaterInStep(req: ReadRequest, es: seq<Elem>, broken: bool, cost: StatusCost, s: EncodeState, room: nat, ibs: seq<ReportIB>)
    requires |es| <= 0xFFFF && s.listIndex != INVALID_LIST_INDEX && InStep(req, es, s, ibs)
    requires var p := Packet(req, es, broken, cost, s, room);
             (p.done && p.ibs == []) || (p.ibs != [] && !p.ibs[0].StatusReportIB?)
    ensures var p := Packet(req, es, broken, cost, s, room);
            if p.done then CarriesPrefix(req.path, es, |es|, ibs + p.ibs) && !broken
            else s.listIndex < p.state.listIndex != INVALID_LIST_INDEX && InStep(req, es, p.state, ibs + p.ibs)
  {
    var p := Packet(req, es, broken, cost, s, room);
    var n := FitCount(es[s.listIndex..], AppendOverhead(req), room);
    IndexAfterExact(s.listIndex + n);
    var k :| 0 <= k <= s.listIndex && ibs == Chunked(req.path, es[..s.listIndex], k);
    var d := s.listIndex + n;
    assert es[s.listIndex..|es|] == es[s.listIndex..];
    ChunkedExtend(req.path, es, k, s.listIndex, d);
    if !p.done {
      assert n > 0;
    }
  }

  // ---------- where the next packet continues ----------

  // What a packet owes that continues at item n.
  function Continuation(req: ReadRequest, es: seq<Elem>, n: nat, room: nat): seq<ReportIB>
    requires n <= |es|
  {
    AppendIBs(req.path, es[n..n + FitCount(es[n..], AppendOverhead(req), room)])
  }

  lemma {:induction false} AllFitIn(es: seq<Elem>, overhead: nat, room: nat)
    requires Cost(es, overhead) <= room
    ensures FitCount(es, overhead, room) == |es|
  {
    if es != [] {
      AllFitIn(es[1..], overhead, room - Size(es[0]) - overhead);
    }
  }

  lemma {:induction false} AppendIBsLength(path: ReportPath, es: seq<Elem>)
    ensures |AppendIBs(path, es)| == |es| && (es != [] ==> AppendIBs(path, es)[0] == DataIB(path, true, es[0]))
  {
    if es != [] {
      AppendIBsLength(path, es[1..]);
    }
  }

  // With room for everything that is asked for, a packet that continues elsewhere shows it.
  lemma GoesAstray(req: ReadRequest, es: seq<Elem>, cost: StatusCost, n: nat) returns (room: nat)
    requires INVALID_LIST_INDEX <= n < |es|
    ensures Packet(req, es, false, cost, EncodeState(true, IndexAfter(n)), room).ibs != Continuation(req, es, n, room)
  {
    var i := IndexAfter(n);
    IndexAfterExact(n);
    if i == INVALID_LIST_INDEX {
      room := OpensAgain(req, es, cost, EncodeState(true, i), n);
      return;
    }
    room := StartsEarlier(req, es, cost, EncodeState(true, i), n);
  }

  lemma OpensAgain(req: ReadRequest, es: seq<Elem>, cost: StatusCost, s: EncodeState, n: nat) returns (room: nat)
    requires s.listIndex == INVALID_LIST_INDEX && n < |es|
    ensures Packet(req, es, false, cost, s, room).ibs != Continuation(req, es, n, room)
  {
    room := OpeningBytes(req) + CLOSING_BYTES + Cost(es, 0);
    AllFitIn(es, 0, Cost(es, 0));
    assert Packet(req, es, false, cost, s, room).ibs == [ListIB(req.path, es)];
    AppendIBsLength(req.path, es[n..n + FitCount(es[n..], AppendOverhead(req), room)]);
  }

  lemma StartsEarlier(req: ReadRequest, es: seq<Elem>, cost: StatusCost, s: EncodeState, n: nat) returns (room: nat)
    requires s.listIndex != INVALID_LIST_INDEX && s.listIndex < n < |es|
    ensures Packet(req, es, false, cost, s, room).ibs != Continuation(req, es, n, room)
  {
    room := Cost(es[s.listIndex..], AppendOverhead(req));
    AllFitIn(es[s.listIndex..], AppendOverhead(req), room);
    ContinuesAt(req, es, cost, s, room);
    AppendIBsLength(req.path, es[s.listIndex..|es|]);
    AppendIBsLength(req.path, es[n..n + FitCount(es[n..], AppendOverhead(req), room)]);
  }

  lemma GoesOn(req: ReadRequest, es: seq<Elem>, cost: StatusCost, n: nat, room: nat)
    requires n < |es| && n < INVALID_LIST_INDEX
    ensures Packet(req, es, false, cost, EncodeState(true, IndexAfter(n)), room).ibs == Continuation(req, es, n, room)
  {
    IndexAfterExact(n);
    ContinuesAt(req, es, cost, EncodeState(true, n), room);
  }

  lemma ContinuesAt(req: ReadRequest, es: seq<Elem>, cost: StatusCost, s: EncodeState, room: nat)
    requires s.listIndex < |es| && s.listIndex != INVALID_LIST_INDEX
    ensures Packet(req, es, false, cost, s, room).ibs == Continuation(req, es, s.listIndex, room)
  {
    var k := FitCount(es[s.listIndex..], AppendOverhead(req), room);
    if s.listIndex + k == |es| {
      assert es[s.listIndex..s.listIndex + k] == es[s.listIndex..];
    }
  }

  // After a packet that stopped with item n to come, the next one continues at item n, whatever its
  // room, exactly if n is below 65535.
  lemma ResumesWhereStopped(req: ReadRequest, es: seq<Elem>, cost: StatusCost, n: nat)
    requires n < |es|
    ensures (forall room: nat :: Packet(req, es, false, cost, EncodeState(true, IndexAfter(n)), room).ibs == Continuation(req, es, n, room))
            <==> n < INVALID_LIST_INDEX
  {
    if n < INVALID_LIST_INDEX {
      forall room: nat
        ensures Packet(req, es, false, cost, EncodeState(true, IndexAfter(n)), room).ibs == Continuation(req, es, n, room)
      {
        GoesOn(req, es, cost, n, room);
      }
      return;
    }
    var room := GoesAstray(req, es, cost, n);
  }

  lemma {:induction false} OneByteEach(es: seq<Elem>, room: nat)
    requires forall i :: 0 <= i < |es| ==> Size(es[i]) == 1
    ensures FitCount(es, 0, room) == Min(room, |es|) && Cost(es, 0) == |es|
  {
    if es != [] {
      assert forall i :: 0 <= i < |es[1..]| ==> es[1..][i] == es[i + 1];
      OneByteEach(es[1..], if room > 0 then room - 1 else 0);
    }
  }

  // What the packets of a read hold of the attribute, and where they leave it. Once it is out no
  // more is sent.
  function Packets(req: ReadRequest, es: seq<Elem>, broken: bool, cost: StatusCost, rooms: seq<nat>): PacketResult {
    if rooms == [] then PacketResult([], FRESH_STATE, false)
    else
      var before := Packets(req, es, broken, cost, rooms[..|rooms| - 1]);
      if before.done then before
      else
        var p := Packet(req, es, broken, cost, before.state, rooms[|rooms| - 1]);
        PacketResult(before.ibs + p.ibs, p.state, p.done)
  }

  lemma {:induction false} FitsMeansCost(es: seq<Elem>, overhead: nat, room: nat)
    requires FitCount(es, overhead, room) == |es|
    ensures Cost(es, overhead) <= room
  {
    if es != [] {
      FitsMeansCost(es[1..], overhead, room - Size(es[0]) - overhead);
    }
  }

  lemma {:induction false} CostOfSuffix(es: seq<Elem>, overhead: nat, n: nat)
    requires n <= |es|
    ensures Cost(es[n..], 0) <= Cost(es, overhead)
  {
    if n > 0 {
      CostOfSuffix(es[1..], overhead, n - 1);
      assert es[1..][n - 1..] == es[n..];
    } else if es != [] {
      assert es[0..] == es && es[1..][0..] == es[1..];
      CostOfSuffix(es[1..], overhead, 0);
    }
  }

  const LAST_RESUMABLE := INVALID_LIST_INDEX - 1

  // A packet that does not hold what comes from item 65534 on does not end the list, wherever the
  // saved index says that it continues.
  lemma PacketNotDone(req: ReadRequest, es: seq<Elem>, broken: bool, cost: StatusCost, s: EncodeState, room: nat)
    requires s.listIndex <= INVALID_LIST_INDEX <= |es| && room < Cost(es[LAST_RESUMABLE..], 0)
    ensures var p := Packet(req, es, broken, cost, s, room); !p.done && p.state.listIndex <= INVALID_LIST_INDEX
  {
    if s.listIndex == INVALID_LIST_INDEX {
      if room >= OpeningBytes(req) + CLOSING_BYTES {
        var left := room - OpeningBytes(req) - CLOSING_BYTES;
        CostOfSuffix(es, 0, LAST_RESUMABLE);
        IndexAfterExact(FitCount(es, 0, left));
        if FitCount(es, 0, left) == |es| {
          FitsMeansCost(es, 0, left);
        }
      }
      return;
    }
    var start := s.listIndex;
    var rest, k := es[start..], FitCount(es[start..], AppendOverhead(req), room);
    CostOfSuffix(rest, AppendOverhead(req), LAST_RESUMABLE - start);
    assert rest[LAST_RESUMABLE - start..] == es[LAST_RESUMABLE..];
    IndexAfterExact(start + k);
    if k == |rest| {
      FitsMeansCost(rest, AppendOverhead(req), room);
    }
  }

  // So a list of which no packet holds what comes from item 65534 on never ends, however many
  // packets are sent.
  lemma {:induction false} NeverCompletes(req: ReadRequest, es: seq<Elem>, broken: bool, cost: StatusCost, rooms: seq<nat>)
    requires INVALID_LIST_INDEX <= |es| && forall i :: 0 <= i < |rooms| ==> rooms[i] < Cost(es[LAST_RESUMABLE..], 0)
    ensures var r := Packets(req, es, broken, cost, rooms); !r.done && r.state.listIndex <= INVALID_LIST_INDEX
  {
    if rooms != [] {
      var n := |rooms| - 1;
      NeverCompletes(req, es, broken, cost, rooms[..n]);
      PacketNotDone(req, es, broken, cost, Packets(req, es, broken, cost, rooms[..n]).state, rooms[n]);
    }
  }

  lemma {:induction false} CostCounts(es: seq<Elem>)
    requires forall i :: 0 <= i < |es| ==> Size(es[i]) > 0
    ensures |es| <= Cost(es, 0)
  {
    if es != [] {
      CostCounts(es[1..]);
    }
  }

  // In packets of fewer than `limit` bytes that is every list of 65534 + limit items.
  lemma TooManyItems(req: ReadRequest, es: seq<Elem>, broken: bool, cost: StatusCost, rooms: seq<nat>, limit: nat)
    requires limit > 0 && LAST_RESUMABLE + limit <= |es|
    requires (forall i :: 0 <= i < |es| ==> Size(es[i]) > 0) && forall i :: 0 <= i < |rooms| ==> rooms[i] < limit
    ensures !Packets(req, es, broken, cost, rooms).done
  {
    CostCounts(es[LAST_RESUMABLE..]);
    NeverCompletes(req, es, broken, cost, rooms);
  }

  const MANY := 0x1_0000

  function PairRoom(req: ReadRequest): nat {
    2 * (1 + AppendOverhead(req))
  }

  function FirstRoom(req: ReadRequest, first: nat): nat {
    OpeningBytes(req) + CLOSING_BYTES + first
  }

  // Room for some items of one byte each in the packet that opens the list, then for two each.
  function PairRooms(req: ReadRequest, first: nat, n: nat): seq<nat> {
    if n == 0 then [] else PairRooms(req, first, n - 1) + [if n == 1 then FirstRoom(req, first) else PairRoom(req)]
  }

  lemma PacketsNext(req: ReadRequest, es: seq<Elem>, broken: bool, cost: StatusCost, rooms: seq<nat>, room: nat)
    requires !Packets(req, es, broken, cost, rooms).done
    ensures var before := Packets(req, es, broken, cost, rooms);
            var p := Packet(req, es, broken, cost, before.state, room);
            Packets(req, es, broken, cost, rooms + [room]) == PacketResult(before.ibs + p.ibs, p.state, p.done)
  {
    assert (rooms + [room])[..|rooms|] == rooms;
  }

  predicate OneByteItems(es: seq<Elem>) {
    forall i :: 0 <= i < |es| ==> Size(es[i]) == 1
  }

  lemma FirstPair(req: ReadRequest, es: seq<Elem>, cost: StatusCost, first: nat)
    requires OneByteItems(es) && 0 < first < |es|
    ensures Packet(req, es, false, cost, FRESH_STATE, FirstRoom(req, first))
         == PacketResult([ListIB(req.path, es[..first])], EncodeState(true, IndexAfter(first)), false)
  {
    OneByteEach(es, first);
  }

  lemma TwoFit(es: seq<Elem>, overhead: nat)
    requires OneByteItems(es) && |es| >= 2
    ensures FitCount(es, overhead, 2 * (1 + overhead)) == 2
  {
    assert es[1..][0] == es[1];
    assert FitCount(es[1..][1..], overhead, 0) == 0;
  }

  lemma NextPair(req: ReadRequest, es: seq<Elem>, cost: StatusCost, s: EncodeState)
    requires OneByteItems(es) && s.listIndex < INVALID_LIST_INDEX && s.listIndex + 2 < |es|
    ensures Packet(req, es, false, cost, s, PairRoom(req))
         == PacketResult(AppendIBs(req.path, es[s.listIndex..s.listIndex + 2]), EncodeState(true, IndexAfter(s.listIndex + 2)), false)
  {
    TwoFit(es[s.listIndex..], AppendOverhead(req));
    ResumedWith(req, es, cost, s, PairRoom(req), 2);
  }

  lemma ResumedWith(req: ReadRequest, es: seq<Elem>, cost: StatusCost, s: EncodeState, room: nat, k: nat)
    requires s.listIndex < INVALID_LIST_INDEX && s.listIndex + k < |es| && FitCount(es[s.listIndex..], AppendOverhead(req), room) == k
    ensures Packet(req, es, false, cost, s, room)
         == PacketResult(AppendIBs(req.path, es[s.listIndex..s.listIndex + k]), EncodeState(true, IndexAfter(s.listIndex + k)), false)
  {
  }

  // The packets so far hold the first c items in pieces, and the list goes on.
  ghost predicate Halfway(path: ReportPath, es: seq<Elem>, first: nat, c: nat, r: PacketResult) {
    && first <= c <= |es|
    && r.ibs == Chunked(path, es[..c], first) && r.state == EncodeState(true, IndexAfter(c)) && !r.done
  }

  lemma HalfwayNext(path: ReportPath, es: seq<Elem>, first: nat, c: nat, r: PacketResult, p: PacketResult)
    requires Halfway(path, es, first, c, r) && c + 2 <= |es|
    requires p == PacketResult(AppendIBs(path, es[c..c + 2]), EncodeState(true, IndexAfter(c + 2)), false)
    ensures Halfway(path, es, first, c + 2, PacketResult(r.ibs + p.ibs, p.state, p.done))
  {
    ChunkedExtend(path, es, first, c, c + 2);
  }

  lemma PairsFirst(req: ReadRequest, es: seq<Elem>, cost: StatusCost, first: nat)
    requires OneByteItems(es) && 0 < first < |es|
    ensures Halfway(req.path, es, first, first, Packets(req, es, false, cost, PairRooms(req, first, 1)))
  {
    assert PairRooms(req, first, 1) == [] + [FirstRoom(req, first)];
    PacketsNext(req, es, false, cost, [], FirstRoom(req, first));
    FirstPair(req, es, cost, first);
    OneChunk(req.path, es, first);
  }

  lemma PairsNext(req: ReadRequest, es: seq<Elem>, cost: StatusCost, first: nat, rooms: seq<nat>, c: nat)
    requires OneByteItems(es) && c < INVALID_LIST_INDEX && c + 2 < |es|
    requires Halfway(req.path, es, first, c, Packets(req, es, false, cost, rooms))
    ensures Halfway(req.path, es, first, c + 2, Packets(req, es, false, cost, rooms + [PairRoom(req)]))
  {
    var r := Packets(req, es, false, cost, rooms);
    var p := Packet(req, es, false, cost, r.state, PairRoom(req));
    IndexAfterExact(c);
    NextPair(req, es, cost, r.state);
    HalfwayNext(req.path, es, first, c, r, p);
    PacketsNext(req, es, false, cost, rooms, PairRoom(req));
  }

  ghost predicate AfterPairs(req: ReadRequest, es: seq<Elem>, cost: StatusCost, first: nat, n: nat)
    requires n > 0
  {
    Halfway(req.path, es, first, first + 2 * n - 2, Packets(req, es, false, cost, PairRooms(req, first, n)))
  }

  lemma PairsStep(req: ReadRequest, es: seq<Elem>, cost: StatusCost, first: nat, n: nat)
    requires OneByteItems(es) && n > 0 && first + 2 * n < |es| && first + 2 * n <= MANY && first <= 2
    requires AfterPairs(req, es, cost, first, n)
    ensures AfterPairs(req, es, cost, first, n + 1)
  {
    assert PairRooms(req, first, n + 1) == PairRooms(req, first, n) + [PairRoom(req)];
    PairsNext(req, es, cost, first, PairRooms(req, first, n), first + 2 * n - 2);
  }

  // Up to the first index that is not below 65535 all is well.
  lemma {:induction false} Pairs(req: ReadRequest, es: seq<Elem>, cost: StatusCost, first: nat, n: nat)
    requires OneByteItems(es) && 1 <= first <= 2 && n > 0 && first + 2 * n - 2 < |es| && first + 2 * n <= MANY + 2
    ensures AfterPairs(req, es, cost, first, n)
  {
    if n == 1 {
      PairsFirst(req, es, cost, first);
    } else {
      Pairs(req, es, cost, first, n - 1);
      PairsStep(req, es, cost, first, n - 1);
    }
  }

  // Packets of one item and then of two reach index 65535: the next one opens the list again.
  lemma ListOpensAgain(req: ReadRequest, es: seq<Elem>, cost: StatusCost, n: nat)
    requires OneByteItems(es) && |es| >= MANY && n == MANY / 2
    ensures var sent := Packets(req, es, false, cost, PairRooms(req, 1, n));
            && sent.ibs == Chunked(req.path, es[..2 * n - 1], 1) && !sent.done
            && Packet(req, es, false, cost, sent.state, FirstRoom(req, 1)).ibs == [ListIB(req.path, es[..1])]
  {
    Pairs(req, es, cost, 1, n);
    IndexAfterExact(2 * n - 1);
    FirstPair(req, es, cost, 1);
  }

  // Packets of two items jump over it: the next one starts over with the first items.
  lemma ItemsComeAgain(req: ReadRequest, es: seq<Elem>, cost: StatusCost, n: nat)
    requires OneByteItems(es) && |es| > MANY && n == MANY / 2
    ensures var sent := Packets(req, es, false, cost, PairRooms(req, 2, n));
            && sent.ibs == Chunked(req.path, es[..2 * n], 2) && !sent.done
            && Packet(req, es, false, cost, sent.state, PairRoom(req)).ibs == AppendIBs(req.path, es[..2])
  {
    Pairs(req, es, cost, 2, n);
    IndexAfterIs(2 * n);
    NextPair(req, es, cost, EncodeState(true, 0));
    assert es[0..2] == es[..2];
  }

  // What a client reads out of a sequence of packets.
  function Receive(packets: seq<seq<Token>>): Option<seq<ReportIB>> {
    if packets == [] then Some([])
    else
      var rest := Receive(packets[..|packets| - 1]);
      var last := Parse(packets[|packets| - 1]);
      if rest.None? || last.None? then None else Some(rest.value + last.value)
  }

  // A client that read `packets` has seen the reports `before`, which the first packet carried
  // along, and then `ibs`.
  ghost predicate Sent(before: seq<ReportIB>, packets: seq<seq<Token>>, ibs: seq<ReportIB>) {
    && Receive(packets) == Some(if packets == [] then [] else before + ibs)
    && (packets == [] ==> ibs == [])
  }

  lemma ReceiveNext(packets: seq<seq<Token>>, tokens: seq<Token>, got: seq<ReportIB>, more: seq<ReportIB>)
    requires Receive(packets) == Some(got) && Parse(tokens) == Some(more)
    ensures Receive(packets + [tokens]) == Some(got + more)
  {
    assert (packets + [tokens])[..|packets|] == packets;
  }

  lemma ParseTwo(xs: seq<ReportIB>, ys: seq<ReportIB>)
    ensures Parse(EmitAll(xs) + EmitAll(ys)) == Some(xs + ys)
  {
    EmitAllSplit(xs, ys);
    ParseEmitAll(xs + ys);
  }

  lemma FirstReports(before: seq<ReportIB>, ibs: seq<ReportIB>, more: seq<ReportIB>)
    requires ibs == []
    ensures [] + (before + more) == before + (ibs + more)
  {
  }

  lemma MoreReports(before: seq<ReportIB>, ibs: seq<ReportIB>, more: seq<ReportIB>)
    ensures (before + ibs) + ([] + more) == before + (ibs + more)
  {
  }

  lemma SentNext(before: seq<ReportIB>, packets: seq<seq<Token>>, ibs: seq<ReportIB>, tokens: seq<Token>, more: seq<ReportIB>)
    requires Sent(before, packets, ibs)
    requires Parse(tokens) == Some((if packets == [] then before else []) + more)
    ensures Sent(before, packets + [tokens], ibs + more)
  {
    if packets == [] {
      ReceiveNext(packets, tokens, [], before + more);
      FirstReports(before, ibs, more);
      return;
    }
    ReceiveNext(packets, tokens, before + ibs, [] + more);
    MoreReports(before, ibs, more);
  }

  // A packet that goes out empty had too little room for a single report.
  lemma NoProgress(req: ReadRequest, es: seq<Elem>, broken: bool, cost: StatusCost, s: EncodeState, room: nat, before: seq<ReportIB>)
    requires s.listIndex == INVALID_LIST_INDEX || s.listIndex <= |es|
    requires var p := Packet(req, es, broken, cost, s, room);
             !p.done && EmitAll(before) + EmitAll(p.ibs) == []
    ensures before == [] && !Suffices(req, es, broken, cost, room)
  {
    var p := Packet(req, es, broken, cost, s, room);
    assert before == [] && p.ibs == [];
    if s.listIndex != INVALID_LIST_INDEX {
      var start := s.listIndex;
      var k := FitCount(es[start..], AppendOverhead(req), room);
      if start + k < |es| {
        assert AppendIBs(req.path, es[start..start + k]) == [];
        assert k == 0;
        assert es[start..][0] == es[start];
      }
    }
  }

  class AttributeReporter {
    const req: ReadRequest
    const statusCost: StatusCost
    // The ReadHandler's saved encode state.
    var encodeState: EncodeState

    constructor (req: ReadRequest, statusCost: StatusCost)
      ensures this.req == req && this.statusCost == statusCost && encodeState == FRESH_STATE
    {
      this.req := req;
      this.statusCost := statusCost;
      encodeState := FRESH_STATE;
    }

    // Encodes the attribute into the packet under construction, which may hold other reports.
    // Complete reports are kept, a failed attempt is rolled back, and an error other than a full
    // packet is turned into a status report.
    method BuildReport(items: seq<ListItem>, writer: Writer<Token>) returns (done: bool)
      requires encodeState.listIndex <= 0xFFFF
      modifies this, writer
      ensures var b := old(writer.buf);
              var p := Packet(req, Kept(req, items), Broken(items), statusCost, old(encodeState), b.remaining);
              Matches(b, p, Settled(encodeState, writer.buf, done))
    {
      ghost var es := Kept(req, items);
      ghost var s := encodeState;
      var attributeBackup := writer.Checkpoint();
      var encoder := new AttributeValueEncoder(req, writer, encodeState);
      var err := encoder.EncodeList(items);
      var state := encoder.encodeState;
      ghost var written, encoded := writer.buf, err;
      if err != NoError {
        if state.allowPartialData && IsOutOfWriterSpace(err) {
          encodeState := state;
        } else {
          writer.Rollback(attributeBackup);
          encodeState := FRESH_STATE;
          if !IsOutOfWriterSpace(err) {
            err := writer.Put(StatusReport(req.path.path, statusCost.status), statusCost.bytes);
            if err != NoError {
              writer.Rollback(attributeBackup);
            }
          }
        }
      }
      if err == NoError {
        encodeState := FRESH_STATE;
      }
      done := err == NoError;
      if s.listIndex == INVALID_LIST_INDEX {
        FirstPacket(req, es, Broken(items), statusCost, s, attributeBackup, state, written, encoded, Settled(encodeState, writer.buf, done));
      } else {
        ResumedPacket(req, es, Broken(items), statusCost, s, attributeBackup, state, written, encoded, Settled(encodeState, writer.buf, done));
      }
    }

    // Sends report packets until the attribute is out. `rooms(n)` is what packet n has left for
    // the attribute; the first packet may already hold the reports `before`. A packet that would
    // go out empty while the attribute is not finished ends the interaction instead.
    method SendReports(items: seq<ListItem>, before: seq<ReportIB>, rooms: nat -> nat)
      returns (packets: seq<seq<Token>>, completed: bool, ghost ibs: seq<ReportIB>)
      requires encodeState == FRESH_STATE
      requires |Kept(req, items)| <= 0xFFFF
      modifies this
      ensures Sent(before, packets, ibs)
      ensures completed ==> packets != [] && Complete(req, Kept(req, items), Broken(items), statusCost.status, ibs)
      ensures !completed ==> ibs == [] || exists c: nat :: CarriesPrefix(req.path, Kept(req, items), c, ibs)
      ensures (forall n: nat :: n > 0 || before == [] ==> Suffices(req, Kept(req, items), Broken(items), statusCost, rooms(n)))
              ==> completed
    {
      ghost var es, broken := Kept(req, items), Broken(items);
      packets, completed, ibs := [], false, [];
      var n: nat := 0;
      while true
        invariant |packets| == n
        invariant encodeState.listIndex <= INVALID_LIST_INDEX && InStep(req, es, encodeState, ibs)
        invariant Sent(before, packets, ibs)
        decreases if n == 0 then 1 else 0, if encodeState.listIndex == INVALID_LIST_INDEX then |es| + 1 else |es| - encodeState.listIndex
      {
        ghost var s := encodeState;
        var writer := new Writer(Buffer(if n == 0 then EmitAll(before) else [], false, rooms(n), 0));
        var done := BuildReport(items, writer);
        ghost var p := Packet(req, es, broken, statusCost, s, rooms(n));
        PacketInStep(req, es, broken, statusCost, s, rooms(n), ibs);
        if !done && writer.buf.tokens == [] {
          NoProgress(req, es, broken, statusCost, s, rooms(n), if n == 0 then before else []);
          assert s.listIndex == INVALID_LIST_INDEX || CarriesPrefix(req.path, es, s.listIndex, ibs);
          return;
        }
        ParseTwo(if n == 0 then before else [], p.ibs);
        SentNext(before, packets, ibs, writer.buf.tokens, p.ibs);
        packets := packets + [writer.buf.tokens];
        ibs := ibs + p.ibs;
        if done {
          completed := true;
          return;
        }
        n := n + 1;
      }
    }
  }
}
