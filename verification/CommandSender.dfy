// CommandSender: one invoke request, after a timed handshake if asked for, and its response.

module CommandSender {
  import opened Core

  datatype State = Idle | AddingCommand | AddedCommand | AwaitingTimedStatus | CommandSent | ResponseReceived | AwaitingDestruction

  type Failure = e: ChipError | e != NoError witness InvalidTlvElement

  // One block of an invoke response: a status, a command, or something that does not parse.
  datatype ResponseIB =
    | StatusBlock(path: CommandPath, status: StatusIB)
    | DataBlock(path: CommandPath)
    | MalformedBlock(err: Failure)

  // What arrives: a status response, an invoke response whose blocks end with an error or without,
  // or another message; each on the sender's exchange or not.
  datatype Incoming =
    | StatusMessage(ours: bool, malformed: ChipError, status: StatusIB)
    | InvokeResponse(ours: bool, blocks: seq<ResponseIB>, end: ChipError)
    | OtherMessage(ours: bool)

  // What the sender does that others see: what it sends, what it takes in, and its callbacks.
  datatype Action =
    | TimedRequestSent(timeout: nat)
    | InvokeSent
    | StatusSent
    | Received(m: Incoming)
    | TimedOut
    | OnResponse(path: CommandPath, status: StatusIB, hasData: bool)
    | OnError(err: ChipError)
    | OnDone

  function ToChipError(s: StatusIB): ChipError {
    if s.IsSuccess() then NoError else OtherError(if s.clusterStatus.Some? then 0x100 + s.clusterStatus.value else s.status)
  }

  function Told(b: ResponseIB): seq<Action> {
    match b
    case StatusBlock(path, status) => [if status.IsSuccess() then OnResponse(path, status, false) else OnError(ToChipError(status))]
    case DataBlock(path) => [OnResponse(path, SUCCESS, true)]
    case MalformedBlock(_) => []
  }

  function ToldAll(bs: seq<ResponseIB>): seq<Action> {
    if bs == [] then [] else ToldAll(bs[..|bs| - 1]) + Told(bs[|bs| - 1])
  }

  // How many blocks are processed: those before the first that does not parse.
  function Parsed(blocks: seq<ResponseIB>): (k: nat)
    ensures k <= |blocks|
    ensures forall i :: 0 <= i < k ==> !blocks[i].MalformedBlock?
    ensures k < |blocks| ==> blocks[k].MalformedBlock?
  {
    if blocks == [] || blocks[0].MalformedBlock? then 0 else 1 + Parsed(blocks[1..])
  }

  function ParseError(blocks: seq<ResponseIB>, end: ChipError): ChipError {
    var k := Parsed(blocks);
    if k < |blocks| then blocks[k].err else end
  }

  class CommandSender {
    const suppress: bool
    const timedRequest: bool
    var state: State
    var timedInvokeTimeout: Option<nat>
    var finalized: bool      // the packet was taken out of the writer
    var holdsExchange: bool
    var trace: seq<Action>

    constructor (timedRequest: bool, suppress: bool)
      ensures this.timedRequest == timedRequest && this.suppress == suppress
      ensures state == Idle && timedInvokeTimeout == None && trace == [] && !finalized && !holdsExchange
    {
      this.timedRequest := timedRequest;
      this.suppress := suppress;
      state := Idle;
      timedInvokeTimeout := None;
      finalized := false;
      holdsExchange := false;
      trace := [];
    }

    ghost function View(): Sender
      reads this
    {
      Sender(state, timedRequest, timedInvokeTimeout, trace)
    }

    // `encoded` is what writing the start of the command into the request comes to.
    method PrepareCommand(encoded: ChipError) returns (err: ChipError)
      modifies this`state
      ensures err == if old(state) != Idle then IncorrectState else encoded
      ensures state == if err == NoError then AddingCommand else old(state)
    {
      if state != Idle {
        return IncorrectState;
      }
      if encoded != NoError {
        return encoded;
      }
      state := AddingCommand;
      err := NoError;
    }

    // Of several timeouts the least one counts.
    method FinishCommand(encoded: ChipError, timeout: Option<nat>) returns (err: ChipError)
      modifies this`state, this`timedInvokeTimeout
      ensures err == if old(state) != AddingCommand then IncorrectState else encoded
      ensures state == if err == NoError then AddedCommand else old(state)
      ensures err != NoError ==> timedInvokeTimeout == old(timedInvokeTimeout)
      ensures err == NoError ==>
                && (timedInvokeTimeout.Some? <==> old(timedInvokeTimeout).Some? || timeout.Some?)
                && (timedInvokeTimeout.Some? ==> timedInvokeTimeout == old(timedInvokeTimeout) || timedInvokeTimeout == timeout)
                && (timedInvokeTimeout.Some? && timeout.Some? ==> timedInvokeTimeout.value <= timeout.value)
                && (timedInvokeTimeout.Some? && old(timedInvokeTimeout).Some? ==> timedInvokeTimeout.value <= old(timedInvokeTimeout).value)
    {
      if state != AddingCommand {
        return IncorrectState;
      }
      if encoded != NoError {
        return encoded;
      }
      state := AddedCommand;
      if timedInvokeTimeout.None? {
        timedInvokeTimeout := timeout;
      } else if timeout.Some? {
        timedInvokeTimeout := Some(Min(timedInvokeTimeout.value, timeout.value));
      }
      err := NoError;
    }

    // `exchange` says whether an exchange could be made, and whether it is a group exchange; `sent`
    // is what sending on it comes to. The packet is finalized, which can be done once, before
    // anything that can fail, and the exchange taken over before it is looked at.
    method SendCommandRequest(exchange: Option<bool>, sent: ChipError) returns (err: ChipError)
      requires state == AddedCommand ==> !finalized
      modifies this`state, this`trace, this`finalized, this`holdsExchange
      ensures var passed := old(state) == AddedCommand && timedRequest == timedInvokeTimeout.Some?;
              && (err == NoError <==> passed && exchange == Some(false) && sent == NoError)
              && finalized == (old(finalized) || passed)
              && holdsExchange == (old(holdsExchange) || (passed && exchange.Some?))
      ensures View() == if err == NoError then Launch(old(View())) else old(View())
    {
      if timedRequest != timedInvokeTimeout.Some? {
        return IncorrectState;
      }
      err := SendCommandRequestInternal(exchange, sent);
    }

    method SendCommandRequestInternal(exchange: Option<bool>, sent: ChipError) returns (err: ChipError)
      requires state == AddedCommand ==> !finalized
      modifies this`state, this`trace, this`finalized, this`holdsExchange
      ensures err == NoError <==> old(state) == AddedCommand && exchange == Some(false) && sent == NoError
      ensures finalized == (old(finalized) || old(state) == AddedCommand)
      ensures holdsExchange == (old(holdsExchange) || (old(state) == AddedCommand && exchange.Some?))
      ensures View() == if err == NoError then Launch(old(View())) else old(View())
    {
      if state != AddedCommand {
        return IncorrectState;
      }
      finalized := true;
      if exchange.None? {
        return NoMemory;
      }
      holdsExchange := true;
      if exchange.value {
        return InvalidMessageType;
      }
      if timedInvokeTimeout.Some? {
        if sent != NoError {
          return sent;
        }
        trace := trace + [TimedRequestSent(timedInvokeTimeout.value)];
        state := AwaitingTimedStatus;
        return NoError;
      }
      err := SendInvokeRequest(sent);
    }

    method SendInvokeRequest(sent: ChipError) returns (err: ChipError)
      modifies this`state, this`trace
      ensures err == sent
      ensures View() == if sent == NoError then old(View()).(state := CommandSent, trace := old(trace) + [InvokeSent]) else old(View())
    {
      if sent != NoError {
        return sent;
      }
      trace := trace + [InvokeSent];
      state := CommandSent;
      err := NoError;
    }

    method OnMessageReceived(m: Incoming, sent: ChipError) returns (err: ChipError)
      modifies this`state, this`trace
      ensures View() == Step(old(View()), Message(m, sent))
    {
      trace := trace + [Received(m)];
      if state == CommandSent {
        state := ResponseReceived;
      }
      var sendStatusResponse := false;
      err, sendStatusResponse := Process(m, sent);
      if err != NoError {
        trace := trace + [OnError(err)];
      }
      if sendStatusResponse {
        trace := trace + [StatusSent];
      }
      if state != CommandSent {
        Close();
      }
    }

    // The part before the exit label.
    method Process(m: Incoming, sent: ChipError) returns (err: ChipError, sendStatusResponse: bool)
      modifies this`state, this`trace
      ensures Processed(View(), err, sendStatusResponse) == Processing(old(View()), m, sent)
    {
      sendStatusResponse := false;
      if !m.ours {
        return IncorrectState, false;
      }
      sendStatusResponse := true;
      if state == AwaitingTimedStatus {
        if m.StatusMessage? {
          if m.malformed != NoError {
            return m.malformed, true;
          }
          sendStatusResponse := false;
          if ToChipError(m.status) != NoError {
            return ToChipError(m.status), false;
          }
          err := SendInvokeRequest(sent);
        } else {
          err := InvalidMessageType;
        }
        return;
      }
      if m.InvokeResponse? {
        err := ProcessInvokeResponse(m.blocks, m.end);
        if err != NoError {
          return;
        }
        sendStatusResponse := false;
      } else if m.StatusMessage? {
        if m.malformed != NoError {
          return m.malformed, true;
        }
        if ToChipError(m.status) != NoError {
          return ToChipError(m.status), true;
        }
        err := InvalidMessageType;
      } else {
        err := InvalidMessageType;
      }
    }

    method ProcessInvokeResponse(blocks: seq<ResponseIB>, end: ChipError) returns (err: ChipError)
      modifies this`trace
      ensures err == ParseError(blocks, end)
      ensures trace == old(trace) + ToldAll(blocks[..Parsed(blocks)])
    {
      var i := 0;
      while i < |blocks|
        invariant 0 <= i <= Parsed(blocks)
        invariant trace == old(trace) + ToldAll(blocks[..i])
      {
        var b := blocks[i];
        if b.MalformedBlock? {
          return b.err;
        }
        assert blocks[..i + 1][..i] == blocks[..i];
        trace := trace + Told(b);
        i := i + 1;
      }
      err := end;
    }

    method OnResponseTimeout()
      modifies this`state, this`trace
      ensures View() == Step(old(View()), NoAnswer)
    {
      trace := trace + [TimedOut] + [OnError(Timeout)];
      Close();
    }

    method Close()
      modifies this`state, this`trace
      ensures View() == Closed(old(View()))
    {
      state := AwaitingDestruction;
      trace := trace + [OnDone];
    }
  }

  // ---------- every run ----------

  datatype Sender = Sender(state: State, timed: bool, timeout: Option<nat>, trace: seq<Action>)

  datatype Event = Message(m: Incoming, sent: ChipError) | NoAnswer

  function Launch(s: Sender): Sender {
    if s.timeout.Some? then s.(state := AwaitingTimedStatus, trace := s.trace + [TimedRequestSent(s.timeout.value)])
    else s.(state := CommandSent, trace := s.trace + [InvokeSent])
  }

  datatype Processed = Processed(s: Sender, err: ChipError, sendStatus: bool)

  function Processing(s: Sender, m: Incoming, sent: ChipError): Processed {
    if !m.ours then Processed(s, IncorrectState, false)
    else if s.state == AwaitingTimedStatus then
      if !m.StatusMessage? then Processed(s, InvalidMessageType, true)
      else if m.malformed != NoError then Processed(s, m.malformed, true)
      else if !m.status.IsSuccess() then Processed(s, ToChipError(m.status), false)
      else if sent != NoError then Processed(s, sent, false)
      else Processed(s.(state := CommandSent, trace := s.trace + [InvokeSent]), NoError, false)
    else
      match m
      case InvokeResponse(_, blocks, end) =>
        var err := ParseError(blocks, end);
        Processed(s.(trace := s.trace + ToldAll(blocks[..Parsed(blocks)])), err, err != NoError)
      case StatusMessage(_, malformed, status) =>
        Processed(s, if malformed != NoError then malformed else if !status.IsSuccess() then ToChipError(status) else InvalidMessageType, true)
      case OtherMessage(_) => Processed(s, InvalidMessageType, true)
  }

  function Closed(s: Sender): Sender {
    s.(state := AwaitingDestruction, trace := s.trace + [OnDone])
  }

  function Step(s: Sender, e: Event): Sender {
    match e
    case NoAnswer => Closed(s.(trace := s.trace + [TimedOut] + [OnError(Timeout)]))
    case Message(m, sent) =>
      var p := Processing(s.(state := if s.state == CommandSent then ResponseReceived else s.state, trace := s.trace + [Received(m)]), m, sent);
      var told := p.s.(trace := p.s.trace + (if p.err != NoError then [OnError(p.err)] else []) + (if p.sendStatus then [StatusSent] else []));
      if told.state == CommandSent then told else Closed(told)
  }

  function Run(s: Sender, es: seq<Event>): Sender {
    if es == [] then s else Step(Run(s, es[..|es| - 1]), es[|es| - 1])
  }

  // Events reach the sender until it closes.
  predicate Delivered(s: Sender, es: seq<Event>) {
    es != [] ==> Delivered(s, es[..|es| - 1]) && Run(s, es[..|es| - 1]).state != AwaitingDestruction
  }

  predicate Success(m: Incoming) {
    m.StatusMessage? && m.ours && m.malformed == NoError && m.status.IsSuccess()
  }

  // What the trace of a sender can be while it waits, and once it is done.
  ghost predicate Waiting(s: Sender) {
    match s.state
    case AwaitingTimedStatus => s.timeout.Some? && s.trace == [TimedRequestSent(s.timeout.value)]
    case CommandSent =>
      if s.timeout.None? then s.trace == [InvokeSent]
      else exists m :: Success(m) && s.trace == [TimedRequestSent(s.timeout.value), Received(m), InvokeSent]
    case _ => false
  }

  // The last event: a message or a timeout, what it makes the sender say, and OnDone; neither another
  // invoke request nor a second OnDone is among it.
  predicate Last(t: seq<Action>) {
    && |t| >= 2 && t[|t| - 1] == OnDone && (t[0].Received? || t[0] == TimedOut)
    && forall i :: 1 <= i < |t| - 1 ==> t[i].OnResponse? || t[i].OnError? || t[i] == StatusSent
  }

  ghost predicate Done(s: Sender) {
    && s.state == AwaitingDestruction
    && exists w: Sender, t :: Waiting(w) && w.timeout == s.timeout && Last(t) && s.trace == w.trace + t
  }

  lemma {:induction false} ToldAllCallbacks(bs: seq<ResponseIB>)
    ensures forall i :: 0 <= i < |ToldAll(bs)| ==> ToldAll(bs)[i].OnResponse? || ToldAll(bs)[i].OnError?
  {
    if bs != [] {
      ToldAllCallbacks(bs[..|bs| - 1]);
    }
  }

  lemma ClosesAfter(w: Sender, s: Sender, first: Action, said: seq<Action>)
    requires Waiting(w) && (first.Received? || first == TimedOut)
    requires forall i :: 0 <= i < |said| ==> said[i].OnResponse? || said[i].OnError? || said[i] == StatusSent
    requires s.state == AwaitingDestruction && s.timeout == w.timeout && s.trace == w.trace + [first] + said + [OnDone]
    ensures Done(s)
  {
    var t := [first] + said + [OnDone];
    assert forall i :: 1 <= i < |t| - 1 ==> t[i] == said[i - 1];
    assert Last(t);
    assert s.trace == w.trace + t;
  }

  lemma NoAnswerCloses(w: Sender)
    requires Waiting(w)
    ensures Done(Step(w, NoAnswer))
  {
    ClosesAfter(w, Step(w, NoAnswer), TimedOut, [OnError(Timeout)]);
  }

  // What a processed message makes the sender say.
  function Said(acts: seq<Action>, err: ChipError, sendStatus: bool): seq<Action> {
    acts + (if err != NoError then [OnError(err)] else []) + (if sendStatus then [StatusSent] else [])
  }

  function Callbacks(state: State, m: Incoming): seq<Action> {
    if state != AwaitingTimedStatus && m.ours && m.InvokeResponse? then ToldAll(m.blocks[..Parsed(m.blocks)]) else []
  }

  lemma CallbacksOnly(state: State, m: Incoming)
    ensures forall i :: 0 <= i < |Callbacks(state, m)| ==> Callbacks(state, m)[i].OnResponse? || Callbacks(state, m)[i].OnError?
  {
    if m.InvokeResponse? {
      ToldAllCallbacks(m.blocks[..Parsed(m.blocks)]);
    }
  }

  lemma ProcessingSays(s: Sender, m: Incoming, sent: ChipError)
    requires s.state == AwaitingTimedStatus || s.state == ResponseReceived
    requires !(s.state == AwaitingTimedStatus && Success(m) && sent == NoError)
    ensures var p := Processing(s, m, sent); p.s == s.(trace := s.trace + Callbacks(s.state, m))
  {
  }

  lemma StepSays(w: Sender, m: Incoming, sent: ChipError, s: Sender, p: Processed)
    requires w.state == AwaitingTimedStatus || w.state == CommandSent
    requires s == w.(state := if w.state == CommandSent then ResponseReceived else w.state, trace := w.trace + [Received(m)])
    requires p == Processing(s, m, sent) && p.s == s.(trace := s.trace + Callbacks(s.state, m))
    ensures var end := Step(w, Message(m, sent));
            && end.state == AwaitingDestruction && end.timeout == w.timeout
            && end.trace == w.trace + [Received(m)] + Said(Callbacks(s.state, m), p.err, p.sendStatus) + [OnDone]
  {
  }

  lemma MessageCloses(w: Sender, m: Incoming, sent: ChipError)
    requires Waiting(w) && !(w.state == AwaitingTimedStatus && Success(m) && sent == NoError)
    ensures Done(Step(w, Message(m, sent)))
  {
    var s := w.(state := if w.state == CommandSent then ResponseReceived else w.state, trace := w.trace + [Received(m)]);
    var p := Processing(s, m, sent);
    ProcessingSays(s, m, sent);
    StepSays(w, m, sent, s, p);
    CallbacksOnly(s.state, m);
    ClosesAfter(w, Step(w, Message(m, sent)), Received(m), Said(Callbacks(s.state, m), p.err, p.sendStatus));
  }

  lemma HandshakeContinues(w: Sender, m: Incoming)
    requires Waiting(w) && w.state == AwaitingTimedStatus && Success(m)
    ensures var s := Step(w, Message(m, NoError)); Waiting(s) && s.state == CommandSent && s.timeout == w.timeout
  {
    var s := Step(w, Message(m, NoError));
    assert s.trace == [TimedRequestSent(w.timeout.value), Received(m), InvokeSent];
  }

  // ---------- what a message makes the sender say ----------

  // A status block that is a success is a response without data, any other one an error that tells
  // the cluster's status before the general one; a data block is a response with data.
  predicate IsTold(b: ResponseIB, a: Action) {
    match b
    case StatusBlock(path, status) =>
      if status.status == 0 then a == OnResponse(path, status, false)
      else a == OnError(OtherError(match status.clusterStatus { case Some(c) => 0x100 + c case None => status.status }))
    case DataBlock(path) => a == OnResponse(path, StatusIB(0, None), true)
    case MalformedBlock(_) => false
  }

  // Each block gets one callback, in order.
  lemma {:induction false} ToldExactly(bs: seq<ResponseIB>)
    requires forall i :: 0 <= i < |bs| ==> !bs[i].MalformedBlock?
    ensures |ToldAll(bs)| == |bs| && forall i :: 0 <= i < |bs| ==> IsTold(bs[i], ToldAll(bs)[i])
  {
    if bs != [] {
      ToldExactly(bs[..|bs| - 1]);
    }
  }

  lemma {:induction false} ParsedAre(blocks: seq<ResponseIB>, k: nat)
    requires k <= |blocks| && (forall i :: 0 <= i < k ==> !blocks[i].MalformedBlock?) && (k < |blocks| ==> blocks[k].MalformedBlock?)
    ensures Parsed(blocks) == k
  {
    if k > 0 {
      ParsedAre(blocks[1..], k - 1);
    }
  }

  // A sender that waits for its response gets one with k blocks before a malformed one, or with k
  // blocks in all: it tells each of the k, then the error if there is one, answered by a status
  // response, and is done.
  lemma ResponseTold(w: Sender, blocks: seq<ResponseIB>, end: ChipError, sent: ChipError, k: nat) returns (told: seq<Action>)
    requires w.state == CommandSent
    requires k <= |blocks| && (forall i :: 0 <= i < k ==> !blocks[i].MalformedBlock?) && (k < |blocks| ==> blocks[k].MalformedBlock?)
    ensures |told| == k && forall i :: 0 <= i < k ==> IsTold(blocks[i], told[i])
    ensures var m, err := InvokeResponse(true, blocks, end), if k < |blocks| then blocks[k].err else end;
            var s := Step(w, Message(m, sent));
            && s.state == AwaitingDestruction
            && s.trace == w.trace + [Received(m)] + told + (if err == NoError then [] else [OnError(err), StatusSent]) + [OnDone]
  {
    ParsedAre(blocks, k);
    ToldExactly(blocks[..k]);
    told := ToldAll(blocks[..k]);
    var m, err := InvokeResponse(true, blocks, end), if k < |blocks| then blocks[k].err else end;
    var said := w.trace + [Received(m)] + told;
    assert said + [] + [] == said + [] == said;
    assert said + [OnError(err)] + [StatusSent] == said + [OnError(err), StatusSent];
  }

  // Any other message, or none: one error, and the sender is done; a message on its own exchange is
  // answered by a status response, except for a failure status in the handshake.
  lemma OtherwiseAnError(w: Sender, m: Incoming, sent: ChipError)
    requires w.state == CommandSent || w.state == AwaitingTimedStatus
    requires !(m.ours && m.InvokeResponse? && w.state == CommandSent)
    requires !(m.ours && m.StatusMessage? && m.malformed == NoError && m.status.status == 0 && w.state == AwaitingTimedStatus)
    ensures var failure := m.StatusMessage? && m.malformed == NoError && m.status.status != 0;
            var err := if !m.ours then IncorrectState
                       else if m.StatusMessage? && m.malformed != NoError then m.malformed
                       else if failure then OtherError(match m.status.clusterStatus case Some(c) => 0x100 + c case None => m.status.status)
                       else InvalidMessageType;
            var s := Step(w, Message(m, sent));
            && s.state == AwaitingDestruction
            && s.trace == w.trace + [Received(m), OnError(err)]
                          + (if m.ours && !(failure && w.state == AwaitingTimedStatus) then [StatusSent] else []) + [OnDone]
    ensures Step(w, NoAnswer).state == AwaitingDestruction && Step(w, NoAnswer).trace == w.trace + [TimedOut, OnError(Timeout), OnDone]
  {
    var s := Step(w, Message(m, sent));
    var err := s.trace[|w.trace| + 1].err;
    assert w.trace + [Received(m)] + [OnError(err)] == w.trace + [Received(m), OnError(err)];
    assert w.trace + [TimedOut] + [OnError(Timeout)] + [OnDone] == w.trace + [TimedOut, OnError(Timeout), OnDone];
  }

  // A success in the handshake sends the invoke request, or reports why it could not be sent.
  lemma HandshakeSends(w: Sender, m: Incoming, sent: ChipError)
    requires w.state == AwaitingTimedStatus
    requires m.ours && m.StatusMessage? && m.malformed == NoError && m.status.status == 0
    ensures var s := Step(w, Message(m, sent));
            if sent == NoError then s.state == CommandSent && s.trace == w.trace + [Received(m), InvokeSent]
            else s.state == AwaitingDestruction && s.trace == w.trace + [Received(m), OnError(sent), OnDone]
  {
    assert w.trace + [Received(m)] + [InvokeSent] == w.trace + [Received(m), InvokeSent];
    assert w.trace + [Received(m), InvokeSent] + [] + [] == w.trace + [Received(m), InvokeSent];
    assert w.trace + [Received(m)] + [OnError(sent)] + [] + [OnDone] == w.trace + [Received(m), OnError(sent), OnDone];
  }

  // ---------- the whole life ----------

  // After a successful SendCommandRequest, whatever messages and timeouts are delivered until the
  // sender closes.
  lemma {:induction false} RunStays(s: Sender, es: seq<Event>)
    requires s.trace == [] && Delivered(Launch(s), es)
    ensures var end := Run(Launch(s), es);
            && end.timeout == s.timeout
            && (Waiting(end) || Done(end))
            && (end.state == AwaitingTimedStatus ==> |es| == 0)
            && (end.state == CommandSent ==> |es| == if s.timeout.Some? then 1 else 0)
            && |es| <= 2
  {
    if es == [] {
      return;
    }
    var n := |es| - 1;
    RunStays(s, es[..n]);
    var w := Run(Launch(s), es[..n]);
    assert Waiting(w);
    match es[n]
    case NoAnswer => NoAnswerCloses(w);
    case Message(m, sent) =>
      if w.state == AwaitingTimedStatus && Success(m) && sent == NoError {
        HandshakeContinues(w, m);
      } else {
        MessageCloses(w, m, sent);
      }
  }

  // OnDone, if the sender is done, is there exactly once and last; the invoke request is sent at most
  // once, first of all, or for a timed invoke only right after a success to the timed request.
  predicate Orderly(t: seq<Action>, timeout: Option<nat>, done: bool) {
    && t != []
    && multiset(t)[OnDone] == (if done then 1 else 0)
    && (done ==> t[|t| - 1] == OnDone)
    && multiset(t)[InvokeSent] <= 1
    && (timeout.None? ==> t[0] == InvokeSent)
    && (timeout.Some? ==>
          && t[0] == TimedRequestSent(timeout.value)
          && (InvokeSent in t ==> |t| >= 3 && t[2] == InvokeSent && t[1].Received? && Success(t[1].m)))
  }

  lemma WaitingOrderly(w: Sender)
    requires Waiting(w)
    ensures Orderly(w.trace, w.timeout, false)
  {
  }

  lemma LastOrderly(w: seq<Action>, timeout: Option<nat>, t: seq<Action>)
    requires Orderly(w, timeout, false) && Last(t)
    ensures Orderly(w + t, timeout, true)
  {
    var middle := t[..|t| - 1];
    assert t == middle + [OnDone];
    assert OnDone !in middle && InvokeSent !in middle;
    assert InvokeSent in w + t ==> InvokeSent in w;
  }

  lemma SenderLifecycle(s: Sender, es: seq<Event>)
    requires s.trace == [] && Delivered(Launch(s), es)
    ensures |es| <= 2
    ensures var end := Run(Launch(s), es); Orderly(end.trace, s.timeout, end.state == AwaitingDestruction)
  {
    RunStays(s, es);
    var end := Run(Launch(s), es);
    if Waiting(end) {
      WaitingOrderly(end);
      return;
    }
    var w: Sender, t :| Waiting(w) && w.timeout == end.timeout && Last(t) && end.trace == w.trace + t;
    WaitingOrderly(w);
    LastOrderly(w.trace, w.timeout, t);
  }
}
