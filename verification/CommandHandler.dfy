// CommandHandler: the response is built step by step, and sent when the last of the handles that
// hold it off goes.

module CommandHandler {
  import opened Core
  import opened InvokeResponse

  datatype ExchangeKind = Unicast | Group

  datatype Message = InvokeResponseMessage(w: WriterState) | StatusResponseMessage(status: nat)

  // A handle holds its handler off, or is null.
  class Handle {
    var handler: CommandHandler?

    ghost predicate Valid()
      reads this, Held(), if handler == null then {} else handler.live
    {
      handler != null ==> this in handler.live && handler.Valid()
    }

    function Held(): (hs: set<CommandHandler>)
      reads this
    {
      if handler == null then {} else {handler}
    }

    constructor (target: CommandHandler?)
      requires target != null ==> target.Valid() && target.done == 0
      modifies if target == null then {} else {target}
      ensures Valid() && handler == target
      ensures target != null ==> target.View() == Step(old(target.View()), Create(this))
    {
      handler := null;
      new;
      if target != null {
        target.IncrementHoldOff(this);
        handler := target;
      }
    }

    constructor Move(from: Handle)
      requires from.Valid()
      modifies from, from.Held()
      ensures Valid() && from.handler == null && handler == old(from.handler)
      ensures handler != null ==> handler.View() == Step(old(from.handler.View()), MoveNew(from, this))
    {
      handler := from.handler;
      new;
      from.handler := null;
      if handler != null {
        handler.live := handler.live - {from} + {this};
      }
    }

    method Release(up: bool)
      requires Valid()
      modifies this, Held()
      ensures Valid() && handler == null
      ensures old(handler) != null ==>
                && old(handler).Valid() && old(handler).View() == Dropped(old(handler.View()), this, up)
                && old(handler).goneAsync == old(handler.goneAsync)
    {
      if handler != null {
        handler.DecrementHoldOff(this, up);
        handler := null;
      }
    }

    // Move assignment. The handle assigned to lets go first, also when it is the one moved from. The
    // handlers make the steps Reassign, or else Drop and MoveNew.
    method Assign(from: Handle, up: bool)
      requires Valid() && from.Valid()
      modifies this, from, Held(), from.Held()
      ensures Valid() && from.Valid() && from.handler == null
      ensures from != this ==> handler == old(from.handler)
      ensures old(handler) != null && old(from.handler) == old(handler) ==>
                old(handler).View() == Moved(Dropped(old(handler.View()), this, up), from, this)
      ensures old(handler) != null && old(from.handler) != old(handler) ==>
                old(handler).View() == Dropped(old(handler.View()), this, up)
      ensures old(from.handler) != null && old(from.handler) != old(handler) ==>
                old(from.handler).View() == Moved(old(from.handler.View()), from, this)
    {
      Release(up);
      Take(from);
    }

    // The second half of a move assignment.
    method Take(from: Handle)
      requires handler == null && from.Valid()
      modifies this, from, from.Held()
      ensures Valid() && from.Valid() && from.handler == null && handler == if from == this then null else old(from.handler)
      ensures handler != null ==> handler.Valid() && handler.View() == Moved(old(from.handler.View()), from, this)
    {
      handler := from.handler;
      from.handler := null;
      if handler != null {
        handler.live := handler.live - {from} + {this};
      }
    }
  }

  class CommandHandler {
    const capacity: nat
    const suppress: bool
    var draft: Draft
    var pendingWork: nat
    var sentStatusResponse: bool
    var goneAsync: bool
    var exchange: Option<ExchangeKind>
    var done: nat             // calls of OnDone
    var sent: seq<Message>    // what was put on the exchange
    ghost var live: set<Handle>
    ghost var began: bool

    ghost predicate Valid()
      reads this, live
    {
      && pendingWork == |live|
      && forall h :: h in live ==> h.handler == this
    }

    ghost function View(): Session
      reads this
    {
      Session(live, began, draft, exchange, sentStatusResponse, done, sent)
    }

    constructor (capacity: nat, suppress: bool)
      ensures Valid() && View() == INITIAL && !goneAsync
      ensures this.capacity == capacity && this.suppress == suppress
    {
      this.capacity := capacity;
      this.suppress := suppress;
      draft := UNUSED;
      pendingWork := 0;
      sentStatusResponse := false;
      goneAsync := false;
      exchange := None;
      done := 0;
      sent := [];
      live := {};
      began := false;
    }

    method IncrementHoldOff(ghost h: Handle)
      requires h !in live
      modifies this`pendingWork, this`live, this`began
      ensures pendingWork == old(pendingWork) + 1 && View() == Step(old(View()), Create(h))
    {
      pendingWork := pendingWork + 1;
      live := live + {h};
      began := true;
    }

    // `up` says whether the exchange takes the message, if one is sent.
    method DecrementHoldOff(ghost h: Handle, up: bool)
      requires Valid() && h in live
      modifies this`live, this`pendingWork, this`draft, this`sent, this`done
      ensures Valid() && View() == Step(old(View()), Drop(h, up))
    {
      live := live - {h};
      pendingWork := pendingWork - 1;
      if pendingWork != 0 {
        return;
      }
      assert |live| == 0;
      assert live == {};
      if !sentStatusResponse {
        if exchange.None? {
        } else if !exchange.value.Group? {
          var err := SendCommandResponse(up);
        }
      }
      Close();
    }

    method SendCommandResponse(up: bool) returns (err: ChipError)
      modifies this`draft, this`sent
      ensures err == NoError <==> pendingWork == 0 && old(draft).state == AddedCommand && exchange.Some? && up
      ensures err == NoError ==> sent == old(sent) + [InvokeResponseMessage(old(draft).w)] && draft == old(draft).(state := CommandSent)
      ensures err != NoError ==> sent == old(sent) && draft == old(draft)
    {
      if pendingWork != 0 || draft.state != AddedCommand || exchange.None? {
        return IncorrectState;
      }
      if !up {
        return OtherError(0);
      }
      sent := sent + [InvokeResponseMessage(draft.w)];
      draft := draft.(state := CommandSent);
      err := NoError;
    }

    method Close()
      requires pendingWork == 0
      modifies this`draft, this`done
      ensures draft == old(draft).(state := AwaitingDestruction) && done == old(done) + 1
    {
      draft := draft.(state := AwaitingDestruction);
      done := done + 1;
    }

    // OnInvokeCommandRequest up to the processing of the request: the exchange is taken over and the
    // work handle created.
    method StartInvoke(ec: ExchangeKind) returns (work: Handle)
      requires Valid() && Legal(View(), Start(ec))
      modifies this
      ensures Valid() && fresh(work) && work.Valid() && work.handler == this
      ensures View() == Step(Step(old(View()), Start(ec)), Create(work))
    {
      exchange := Some(ec);
      work := new Handle(this);
    }

    // The rest of it, once the request was processed with a status: a failure is reported at once,
    // and the work handle goes.
    method FinishInvoke(status: nat, work: Handle, statusUp: bool, up: bool)
      requires work.Valid() && work.handler == this
      modifies this, work
      ensures Valid() && goneAsync && work.Valid() && work.handler == null
      ensures View() == Step(if status == 0 then old(View()) else Step(old(View()), ProcessingFailed(status, statusUp)), Drop(work, up))
    {
      if status != 0 {
        if exchange.Some? && statusUp {
          sent := sent + [StatusResponseMessage(status)];
        }
        sentStatusResponse := true;
      }
      goneAsync := true;
      work.Release(up);
    }

    // The exchange closes under the handler.
    method OnExchangeClosed()
      modifies this`exchange
      ensures View() == Step(old(View()), ExchangeGone)
    {
      exchange := None;
    }

    // ---------- building the response ----------

    method AllocateBuffer() returns (err: ChipError)
      modifies this`draft
      ensures Outcome(draft, err) == Allocate(old(draft), capacity, suppress)
    {
      if !draft.hasBuffer {
        var a := StartAnonymous(WriterState([], false, capacity, NotSpecified), OpenMessage, Structure);
        draft := draft.(w := a.w, messageError := a.err);
        if a.err != NoError {
          return a.err;
        }
        a := PutTagged(draft.w, Suppress(suppress), BOOLEAN_BYTES);
        draft := draft.(w := a.w, messageError := a.err);
        if a.err != NoError {
          return a.err;
        }
        a := StartTagged(draft.w, OpenResponses, Array);
        draft := draft.(w := a.w, messageError := a.err, responsesError := a.err);
        if a.err != NoError {
          return a.err;
        }
        draft := draft.(responsesOuter := Structure, hasBuffer := true);
      }
      err := NoError;
    }

    // The checkpoint is taken before the state is looked at.
    method PrepareCommand(path: CommandPath) returns (err: ChipError)
      modifies this`draft
      ensures var a := Allocate(old(draft), capacity, suppress);
              Outcome(draft, err) == if a.err != NoError then a else Prepare(a.d.(backup := a.d.w), OpenCommand, path)
    {
      err := AllocateBuffer();
      if err != NoError {
        return;
      }
      draft := draft.(backup := draft.w);
      err := PrepareBlock(OpenCommand, path);
    }

    method PrepareStatus(path: CommandPath) returns (err: ChipError)
      modifies this`draft
      ensures var a := Allocate(old(draft), capacity, suppress);
              Outcome(draft, err) == if a.err != NoError then a else Prepare(a.d, OpenStatus, path)
    {
      err := AllocateBuffer();
      if err != NoError {
        return;
      }
      err := PrepareBlock(OpenStatus, path);
    }

    method PrepareBlock(open: Token, path: CommandPath) returns (err: ChipError)
      modifies this`draft
      ensures Outcome(draft, err) == Prepare(old(draft), open, path)
    {
      if draft.state != Idle {
        return IncorrectState;
      }
      draft := draft.(state := Preparing);
      if draft.responsesError == NoError {
        var r := StartAnonymous(draft.w, OpenResponse, Structure);
        if r.err == NoError {
          draft := draft.(responseOuter := draft.w.container);
        }
        draft := draft.(w := r.w, responsesError := r.err);
      }
      if draft.responsesError != NoError {
        return draft.responsesError;
      }
      var r := StartTagged(draft.w, open, Structure);
      draft := draft.(w := r.w);
      if r.err != NoError {
        return r.err;
      }
      r := PutTagged(draft.w, Path(path), PathBytes(path));
      draft := draft.(w := r.w);
      if r.err != NoError {
        return r.err;
      }
      draft := draft.(state := AddingCommand);
      err := NoError;
    }

    method Encode(payload: Token, bytes: nat) returns (err: ChipError)
      modifies this`draft
      ensures Outcome(draft, err) == Payload(old(draft), payload, bytes)
    {
      var r := PutTagged(draft.w, payload, bytes);
      draft := draft.(w := r.w);
      err := r.err;
    }

    // FinishCommand and FinishStatus: they end the same containers.
    method FinishBlock() returns (err: ChipError)
      modifies this`draft
      ensures Outcome(draft, err) == Finish(old(draft))
    {
      if draft.state != AddingCommand {
        return IncorrectState;
      }
      var r := End(draft.w, Structure);
      draft := draft.(w := r.w);
      if r.err != NoError {
        return r.err;
      }
      r := End(draft.w, draft.responseOuter);
      draft := draft.(w := r.w);
      if r.err != NoError {
        return r.err;
      }
      if draft.responsesError == NoError {
        r := End(draft.w, draft.responsesOuter);
        draft := draft.(w := r.w, responsesError := r.err);
        if r.err == NoError {
          draft := draft.(responsesOuter := NotSpecified);
        }
      }
      if draft.responsesError != NoError {
        return draft.responsesError;
      }
      err := EndMessage();
      if err == NoError {
        draft := draft.(state := AddedCommand);
      }
    }

    method EndMessage() returns (err: ChipError)
      modifies this`draft
      ensures Outcome(draft, err) == EndOfInvokeResponseMessage(old(draft))
    {
      if draft.messageError == NoError {
        var r := PutTagged(draft.w, Revision, REVISION_BYTES);
        draft := draft.(w := r.w, messageError := r.err);
      }
      if draft.messageError == NoError {
        var r := End(draft.w, NotSpecified);
        draft := draft.(w := r.w, messageError := r.err);
      }
      err := draft.messageError;
    }

    method RollbackResponse() returns (err: ChipError)
      modifies this`draft
      ensures Outcome(draft, err) == RollBack(old(draft))
    {
      if draft.state != Preparing && draft.state != AddingCommand {
        return IncorrectState;
      }
      draft := draft.(w := draft.backup, messageError := NoError);
      draft := draft.(state := Idle);
      err := NoError;
    }

    method TryAddResponseData(path: CommandPath, data: CommandData) returns (err: ChipError)
      modifies this`draft
      ensures Outcome(draft, err) == TryAddData(old(draft), capacity, suppress, path, data)
    {
      err := PrepareCommand(path.(command := data.id));
      if err != NoError {
        return;
      }
      err := Encode(Fields(data.content), data.bytes);
      if err != NoError {
        return;
      }
      err := FinishBlock();
    }

    method AddResponseData(path: CommandPath, data: CommandData) returns (err: ChipError)
      modifies this`draft
      ensures Outcome(draft, err) == AddData(old(draft), capacity, suppress, path, data)
    {
      err := TryAddResponseData(path, data);
      if err != NoError {
        var ignored := RollbackResponse();
      }
    }

    method AddStatusResponse(path: CommandPath, status: StatusIB) returns (err: ChipError)
      modifies this`draft
      ensures Outcome(draft, err) == AddStatus(old(draft), capacity, suppress, path, status)
    {
      err := PrepareStatus(path);
      if err != NoError {
        return;
      }
      err := Encode(ErrorStatus(status), StatusBytes(status));
      if err != NoError {
        return;
      }
      err := FinishBlock();
    }

    // The data, or a Failure status in its place.
    method AddResponseOrFailure(path: CommandPath, data: CommandData)
      modifies this`draft
      ensures draft == AddResponse(old(draft), capacity, suppress, path, data)
    {
      var err := AddResponseData(path, data);
      if err != NoError {
        err := AddStatusResponse(path, FAILURE);
      }
    }
  }

  // ---------- every interleaving ----------

  // What a handler is, apart from the handles' own links to it.
  datatype Session = Session(
    live: set<Handle>, began: bool, draft: Draft, exchange: Option<ExchangeKind>, statusSent: bool, done: nat, sent: seq<Message>)

  const INITIAL := Session({}, false, UNUSED, None, false, 0, [])

  datatype Event =
    | Start(ec: ExchangeKind)
    | Create(h: Handle)
    | MoveNew(from: Handle, to: Handle)
    | Reassign(from: Handle, to: Handle, up: bool)
    | Drop(h: Handle, up: bool)
    | Respond(capacity: nat, suppress: bool, c: Call)
    | ProcessingFailed(status: nat, up: bool)
    | ExchangeGone

  // What happens when the last handle went.
  function Ended(s: Session, up: bool): Session {
    var sends := !s.statusSent && s.exchange.Some? && !s.exchange.value.Group? && s.draft.state == AddedCommand && up;
    s.(sent := if sends then s.sent + [InvokeResponseMessage(s.draft.w)] else s.sent,
       draft := s.draft.(state := AwaitingDestruction), done := s.done + 1)
  }

  function Dropped(s: Session, h: Handle, up: bool): Session {
    if h !in s.live then s
    else
      var rest := s.(live := s.live - {h});
      if rest.live == {} then Ended(rest, up) else rest
  }

  function Moved(s: Session, from: Handle, to: Handle): Session {
    if from in s.live then s.(live := s.live - {from} + {to}) else s
  }

  function Step(s: Session, e: Event): Session {
    match e
    case Start(ec) => s.(exchange := Some(ec))
    case Create(h) => s.(live := s.live + {h}, began := true)
    case MoveNew(from, to) => Moved(s, from, to)
    case Reassign(from, to, up) => Moved(Dropped(s, to, up), from, to)
    case Drop(h, up) => Dropped(s, h, up)
    case Respond(capacity, suppress, c) => s.(draft := Perform(s.draft, capacity, suppress, c))
    case ProcessingFailed(status, up) =>
      s.(sent := if s.exchange.Some? && up then s.sent + [StatusResponseMessage(status)] else s.sent, statusSent := true)
    case ExchangeGone => s.(exchange := None)
  }

  // Handles are made, and responses added, while the handler is there; a request is taken once and
  // its processing ends once, before the work handle goes.
  predicate Legal(s: Session, e: Event) {
    match e
    case Start(_) => !s.began && s.done == 0 && s.draft.state == Idle
    case Create(h) => h !in s.live && s.done == 0
    case MoveNew(from, to) => to !in s.live
    case Respond(_, _, _) => s.live != {}
    case ProcessingFailed(_, _) => s.live != {} && !s.statusSent
    case _ => true
  }

  function Run(s: Session, es: seq<Event>): Session
    decreases |es|
  {
    if es == [] then s else Run(Step(s, es[0]), es[1..])
  }

  predicate LegalRun(s: Session, es: seq<Event>)
    decreases |es|
  {
    es != [] ==> Legal(s, es[0]) && LegalRun(Step(s, es[0]), es[1..])
  }

  // OnDone was called exactly if there were handles and none is left, and once; at most one message
  // was sent, and an invoke response only if it is complete.
  ghost predicate Conserved(s: Session) {
    && s.done == (if s.began && s.live == {} then 1 else 0)
    && (!s.began ==> s.live == {})
    && |s.sent| <= (if s.statusSent || s.done == 1 then 1 else 0)
    && (forall i :: 0 <= i < |s.sent| && s.sent[i].InvokeResponseMessage? ==> CompleteMessage(s.sent[i].w))
    && (s.done == 0 ==> Sound(s.draft))
  }

  lemma StepConserves(s: Session, e: Event)
    requires Conserved(s) && Legal(s, e)
    ensures Conserved(Step(s, e))
  {
    if e.Respond? {
      PerformSound(s.draft, e.capacity, e.suppress, e.c);
    }
  }

  lemma {:induction false} RunConserves(s: Session, es: seq<Event>)
    requires Conserved(s) && LegalRun(s, es)
    ensures Conserved(Run(s, es))
    decreases |es|
  {
    if es != [] {
      StepConserves(s, es[0]);
      RunConserves(Step(s, es[0]), es[1..]);
    }
  }

  // For every interleaving of creating, moving and releasing handles.
  lemma HoldOffConserved(es: seq<Event>)
    requires LegalRun(INITIAL, es)
    ensures Conserved(Run(INITIAL, es))
  {
    RunConserves(INITIAL, es);
  }

  // Nothing comes between the added response and its exchange.
  predicate Undisturbed(e: Event) {
    match e
    case ExchangeGone => false
    case ProcessingFailed(_, _) => false
    case Drop(_, up) => up
    case Reassign(_, _, up) => up
    case _ => true
  }

  predicate Pending(s: Session, w: WriterState) {
    && s.began && s.done == 0 && s.sent == [] && !s.statusSent
    && s.exchange == Some(Unicast) && s.draft.state == AddedCommand && s.draft.w == w
  }

  predicate Delivered(s: Session, w: WriterState) {
    s.began && s.done == 1 && s.live == {} && s.sent == [InvokeResponseMessage(w)]
  }

  lemma StepDelivers(s: Session, e: Event, w: WriterState)
    requires Conserved(s) && Legal(s, e) && Undisturbed(e)
    requires Pending(s, w) || Delivered(s, w)
    ensures Pending(Step(s, e), w) || Delivered(Step(s, e), w)
  {
    if e.Respond? {
      PerformSound(s.draft, e.capacity, e.suppress, e.c);
    }
  }

  // Once a response was added, whatever else is added and however the handles move, it is the one
  // message sent, when the last handle goes.
  lemma {:induction false} AddedResponseDelivered(s: Session, es: seq<Event>, w: WriterState)
    requires Conserved(s) && LegalRun(s, es) && forall i :: 0 <= i < |es| ==> Undisturbed(es[i])
    requires Pending(s, w) || Delivered(s, w)
    ensures var end := Run(s, es);
            if end.live == {} then Delivered(end, w) else Pending(end, w)
    decreases |es|
  {
    if es != [] {
      StepConserves(s, es[0]);
      StepDelivers(s, es[0], w);
      AddedResponseDelivered(Step(s, es[0]), es[1..], w);
    }
  }

  // ---------- what is sent ----------

  lemma {:induction false} RunSplit(s: Session, xs: seq<Event>, ys: seq<Event>)
    ensures Run(s, xs + ys) == Run(Run(s, xs), ys)
    ensures LegalRun(s, xs + ys) <==> LegalRun(s, xs) && LegalRun(Run(s, xs), ys)
    decreases |xs|
  {
    if xs == [] {
      assert xs + ys == ys;
    } else {
      assert (xs + ys)[1..] == xs[1..] + ys;
      RunSplit(Step(s, xs[0]), xs[1..], ys);
    }
  }

  // Once a status was sent nothing else is.
  lemma {:induction false} StatusIsLast(s: Session, es: seq<Event>)
    requires s.statusSent && LegalRun(s, es)
    ensures Run(s, es).sent == s.sent
    decreases |es|
  {
    if es != [] {
      StatusIsLast(Step(s, es[0]), es[1..]);
    }
  }

  // A request that failed: over the whole run the one message sent is its status, and there is none
  // only if the exchange was gone or did not take it.
  lemma FailureReported(before: seq<Event>, status: nat, up: bool, after: seq<Event>)
    requires LegalRun(INITIAL, before + [ProcessingFailed(status, up)] + after)
    ensures Run(INITIAL, before + [ProcessingFailed(status, up)] + after).sent
         == if Run(INITIAL, before).exchange.Some? && up then [StatusResponseMessage(status)] else []
  {
    var e := ProcessingFailed(status, up);
    RunSplit(INITIAL, before + [e], after);
    RunSplit(INITIAL, before, [e]);
    var s := Run(INITIAL, before);
    assert [e][1..] == [] && Legal(s, e) && Run(s, [e]) == Run(Step(s, e), []);
    RunConserves(INITIAL, before);
    assert s.done == 0 && s.sent == [];
    StatusIsLast(Step(s, e), after);
  }

  // The exchange taken over at the start is there until it is closed.
  lemma {:induction false} ExchangeKept(s: Session, es: seq<Event>)
    requires forall i :: 0 <= i < |es| ==> !es[i].Start? && !es[i].ExchangeGone?
    ensures Run(s, es).exchange == s.exchange
    decreases |es|
  {
    if es != [] {
      ExchangeKept(Step(s, es[0]), es[1..]);
    }
  }

  // So a request that failed while its exchange was open is answered with just its status, whatever
  // was or will be added to the response.
  lemma FailedRequestAnswered(ec: ExchangeKind, before: seq<Event>, status: nat, after: seq<Event>)
    requires LegalRun(INITIAL, [Start(ec)] + before + [ProcessingFailed(status, true)] + after)
    requires forall i :: 0 <= i < |before| ==> !before[i].Start? && !before[i].ExchangeGone?
    ensures Run(INITIAL, [Start(ec)] + before + [ProcessingFailed(status, true)] + after).sent == [StatusResponseMessage(status)]
  {
    RunSplit(INITIAL, [Start(ec)], before);
    assert [Start(ec)][1..] == [];
    ExchangeKept(Run(INITIAL, [Start(ec)]), before);
    FailureReported([Start(ec)] + before, status, true, after);
  }

  // The last handle to go sends the message that was built exactly if it was completed, no status
  // was sent, and there is an exchange that is not a group's and takes it; then OnDone is called.
  lemma LastHandleSends(s: Session, h: Handle, up: bool)
    requires s.live == {h}
    ensures var end := Step(s, Drop(h, up));
            && end.live == {} && end.done == s.done + 1 && end.draft.state == AwaitingDestruction
            && end.sent == s.sent + if s.draft.state == AddedCommand && !s.statusSent && s.exchange == Some(Unicast) && up
                                    then [InvokeResponseMessage(s.draft.w)] else []
  {
    assert s.sent + [] == s.sent;
  }

  // Any other handle goes without anything being sent.
  lemma OtherHandlesDoNot(s: Session, h: Handle, up: bool)
    requires h in s.live && s.live != {h}
    ensures Step(s, Drop(h, up)) == s.(live := s.live - {h})
  {
    assert s.live == (s.live - {h}) + {h};
  }
}
