// The invoke response a command handler builds: one response information block, written piece by
// piece into a message that is sent only once it was completed.

module InvokeResponse {
  import opened Core

  // A response command: its id and its fields, with the bytes they take under a context tag.
  datatype CommandData = CommandData(id: nat, content: int, bytes: nat)

  // What is written: opened containers, whole elements, and ends of containers.
  datatype Token =
    | OpenMessage
    | Suppress(value: bool)
    | OpenResponses
    | OpenResponse
    | OpenCommand
    | OpenStatus
    | Path(path: CommandPath)
    | Fields(content: int)
    | ErrorStatus(status: StatusIB)
    | Revision
    | Close

  datatype Container = NotSpecified | Structure | Array

  const TAGGED_START_BYTES := 2
  const ANONYMOUS_START_BYTES := 1
  const END_BYTES := 1
  const BOOLEAN_BYTES := 2
  const REVISION_BYTES := 3

  // Unsigned integers take their least width.
  function UnsignedBytes(v: nat): nat {
    if v <= 0xFF then 3 else if v <= 0xFFFF then 4 else if v <= 0xFFFF_FFFF then 6 else 10
  }

  function PathBytes(p: CommandPath): nat {
    TAGGED_START_BYTES + UnsignedBytes(p.endpoint) + UnsignedBytes(p.cluster) + UnsignedBytes(p.command) + END_BYTES
  }

  function StatusBytes(s: StatusIB): nat {
    TAGGED_START_BYTES + UnsignedBytes(s.status) + (if s.clusterStatus.Some? then UnsignedBytes(s.clusterStatus.value) else 0) + END_BYTES
  }

  // The writer: what was written, whether some element was cut off, the room left, and the
  // container being written.
  datatype WriterState = WriterState(tokens: seq<Token>, torn: bool, remaining: nat, container: Container)

  datatype Written = Written(w: WriterState, err: ChipError)

  // Writes one element; when it does not fit, as much of it as fits is still written.
  function Emit(w: WriterState, t: Token, bytes: nat): Written {
    if bytes <= w.remaining then Written(w.(tokens := w.tokens + [t], remaining := w.remaining - bytes), NoError)
    else Written(w.(torn := true, remaining := 0), NoMemory)
  }

  // A context tag is allowed inside a structure only.
  function PutTagged(w: WriterState, t: Token, bytes: nat): Written {
    if w.container != Structure then Written(w, InvalidTlvTag) else Emit(w, t, bytes)
  }

  function StartTagged(w: WriterState, t: Token, container: Container): Written {
    var r := PutTagged(w, t, TAGGED_START_BYTES);
    if r.err == NoError then Written(r.w.(container := container), NoError) else r
  }

  // An anonymous tag is allowed at the outermost level and inside an array only.
  function StartAnonymous(w: WriterState, t: Token, container: Container): Written {
    if w.container == Structure then Written(w, InvalidTlvTag)
    else
      var r := Emit(w, t, ANONYMOUS_START_BYTES);
      if r.err == NoError then Written(r.w.(container := container), NoError) else r
  }

  // Ends the container being written; the caller says which one it was opened in.
  function End(w: WriterState, outer: Container): Written {
    if w.container == NotSpecified then Written(w, IncorrectState) else Emit(w.(container := outer), Close, END_BYTES)
  }

  datatype State = Idle | Preparing | AddingCommand | AddedCommand | CommandSent | AwaitingDestruction

  // The handler's state, its writer with the checkpoint, and what the nested builders remember: the
  // sticky errors of the message and of the list of responses, the container that list was opened in
  // (forgotten once it is closed), and the one the response block was opened in.
  datatype Draft = Draft(
    state: State, hasBuffer: bool, w: WriterState, backup: WriterState,
    messageError: ChipError, responsesError: ChipError, responsesOuter: Container, responseOuter: Container)

  const BLANK := WriterState([], false, 0, NotSpecified)
  const UNUSED := Draft(Idle, false, BLANK, BLANK, IncorrectState, IncorrectState, NotSpecified, NotSpecified)

  datatype Outcome = Outcome(d: Draft, err: ChipError)

  // ---------- the steps ----------

  function HeaderTokens(suppress: bool): seq<Token> {
    [OpenMessage, Suppress(suppress), OpenResponses]
  }

  // The message header is written once, into a fresh packet.
  function Allocate(d: Draft, capacity: nat, suppress: bool): Outcome {
    if d.hasBuffer then Outcome(d, NoError)
    else
      var a := StartAnonymous(WriterState([], false, capacity, NotSpecified), OpenMessage, Structure);
      if a.err != NoError then Outcome(d.(w := a.w, messageError := a.err), a.err)
      else
        var b := PutTagged(a.w, Suppress(suppress), BOOLEAN_BYTES);
        if b.err != NoError then Outcome(d.(w := b.w, messageError := b.err), b.err)
        else
          var c := StartTagged(b.w, OpenResponses, Array);
          if c.err != NoError then Outcome(d.(w := c.w, messageError := c.err, responsesError := c.err), c.err)
          else Outcome(d.(w := c.w, messageError := NoError, responsesError := NoError, responsesOuter := Structure, hasBuffer := true), NoError)
  }

  function CreateInvokeResponse(d: Draft): Outcome {
    if d.responsesError != NoError then Outcome(d, d.responsesError)
    else
      var r := StartAnonymous(d.w, OpenResponse, Structure);
      Outcome(d.(w := r.w, responsesError := r.err, responseOuter := if r.err == NoError then d.w.container else d.responseOuter), r.err)
  }

  // From the start of the response block to its path.
  function Prepare(d: Draft, open: Token, path: CommandPath): Outcome {
    if d.state != Idle then Outcome(d, IncorrectState)
    else
      var a := CreateInvokeResponse(d.(state := Preparing));
      if a.err != NoError then a
      else
        var b := StartTagged(a.d.w, open, Structure);
        if b.err != NoError then Outcome(a.d.(w := b.w), b.err)
        else
          var c := PutTagged(b.w, Path(path), PathBytes(path));
          Outcome(a.d.(w := c.w, state := if c.err == NoError then AddingCommand else Preparing), c.err)
  }

  function Payload(d: Draft, t: Token, bytes: nat): Outcome {
    var r := PutTagged(d.w, t, bytes);
    Outcome(d.(w := r.w), r.err)
  }

  function EndOfInvokeResponses(d: Draft): Outcome {
    if d.responsesError != NoError then Outcome(d, d.responsesError)
    else
      var r := End(d.w, d.responsesOuter);
      Outcome(d.(w := r.w, responsesError := r.err, responsesOuter := if r.err == NoError then NotSpecified else d.responsesOuter), r.err)
  }

  function EndOfInvokeResponseMessage(d: Draft): Outcome {
    if d.messageError != NoError then Outcome(d, d.messageError)
    else
      var a := PutTagged(d.w, Revision, REVISION_BYTES);
      if a.err != NoError then Outcome(d.(w := a.w, messageError := a.err), a.err)
      else
        var b := End(a.w, NotSpecified);
        Outcome(d.(w := b.w, messageError := b.err), b.err)
  }

  // From the end of the command or status to the end of the message.
  function Finish(d: Draft): Outcome {
    if d.state != AddingCommand then Outcome(d, IncorrectState)
    else
      var a := End(d.w, Structure);
      if a.err != NoError then Outcome(d.(w := a.w), a.err)
      else
        var b := End(a.w, d.responseOuter);
        if b.err != NoError then Outcome(d.(w := b.w), b.err)
        else
          var c := EndOfInvokeResponses(d.(w := b.w));
          if c.err != NoError then c
          else
            var e := EndOfInvokeResponseMessage(c.d);
            if e.err != NoError then e else Outcome(e.d.(state := AddedCommand), NoError)
  }

  function Add(d: Draft, open: Token, path: CommandPath, payload: Token, bytes: nat): Outcome {
    var a := Prepare(d, open, path);
    if a.err != NoError then a else Fill(a.d, payload, bytes)
  }

  function Fill(d: Draft, payload: Token, bytes: nat): Outcome {
    var r := Payload(d, payload, bytes);
    if r.err != NoError then r else Finish(r.d)
  }

  function RollBack(d: Draft): Outcome {
    if d.state == Preparing || d.state == AddingCommand then Outcome(d.(w := d.backup, messageError := NoError, state := Idle), NoError)
    else Outcome(d, IncorrectState)
  }

  // ---------- the calls an application makes ----------

  function ResponsePath(path: CommandPath, data: CommandData): CommandPath {
    path.(command := data.id)
  }

  function TryAddData(d: Draft, capacity: nat, suppress: bool, path: CommandPath, data: CommandData): Outcome {
    var a := Allocate(d, capacity, suppress);
    if a.err != NoError then a
    else Add(a.d.(backup := a.d.w), OpenCommand, ResponsePath(path, data), Fields(data.content), data.bytes)
  }

  function AddData(d: Draft, capacity: nat, suppress: bool, path: CommandPath, data: CommandData): Outcome {
    var a := TryAddData(d, capacity, suppress, path, data);
    if a.err != NoError then Outcome(RollBack(a.d).d, a.err) else a
  }

  function AddStatus(d: Draft, capacity: nat, suppress: bool, path: CommandPath, status: StatusIB): Outcome {
    var a := Allocate(d, capacity, suppress);
    if a.err != NoError then a else Add(a.d, OpenStatus, path, ErrorStatus(status), StatusBytes(status))
  }

  function AddResponse(d: Draft, capacity: nat, suppress: bool, path: CommandPath, data: CommandData): Draft {
    var a := AddData(d, capacity, suppress, path, data);
    if a.err != NoError then AddStatus(a.d, capacity, suppress, path, FAILURE).d else a.d
  }

  // ---------- what a complete message is ----------

  function MessageTokens(suppress: bool, open: Token, path: CommandPath, payload: Token): seq<Token> {
    HeaderTokens(suppress) + [OpenResponse, open, Path(path), payload, Close, Close, Close, Revision, Close]
  }

  predicate DataMessage(w: WriterState, suppress: bool, path: CommandPath, content: int) {
    !w.torn && w.container == NotSpecified && w.tokens == MessageTokens(suppress, OpenCommand, path, Fields(content))
  }

  predicate StatusMessage(w: WriterState, suppress: bool, path: CommandPath, status: StatusIB) {
    !w.torn && w.container == NotSpecified && w.tokens == MessageTokens(suppress, OpenStatus, path, ErrorStatus(status))
  }

  ghost predicate CompleteMessage(w: WriterState) {
    || (exists suppress, path, content :: DataMessage(w, suppress, path, content))
    || (exists suppress, path, status :: StatusMessage(w, suppress, path, status))
  }

  // Nothing but the header was written yet, and everything is in order.
  predicate Ready(d: Draft) {
    && d.state == Idle && d.hasBuffer && !d.w.torn && d.w.container == Array && (d.w.tokens == HeaderTokens(false) || d.w.tokens == HeaderTokens(true))
    && d.messageError == NoError && d.responsesError == NoError && d.responsesOuter == Structure
  }

  // The bytes of the response block, and of what completes the message after it.
  function BlockBytes(path: CommandPath, bytes: nat): nat {
    ANONYMOUS_START_BYTES + TAGGED_START_BYTES + PathBytes(path) + bytes + END_BYTES + END_BYTES
  }
  const TAIL_BYTES := END_BYTES + REVISION_BYTES + END_BYTES

  // Nothing more can be added: the packet is full, or the builder of the responses failed or was closed.
  predicate Doomed(d: Draft) {
    d.hasBuffer && (d.w.remaining == 0 || d.responsesError != NoError || d.responsesOuter == NotSpecified)
  }

  // Where the attempt to add a block to a draft in order leaves it.
  predicate Added(d: Draft, suppress: bool, open: Token, path: CommandPath, payload: Token, bytes: nat, r: Outcome) {
    var room, need := d.w.remaining, BlockBytes(path, bytes);
    && r.d.hasBuffer && r.d.backup == d.backup
    && (r.err == NoError <==> need + TAIL_BYTES <= room)
    && (r.err == NoError ==>
          && r.d.state == AddedCommand && !r.d.w.torn && r.d.w.container == NotSpecified
          && r.d.w.tokens == MessageTokens(suppress, open, path, payload))
    && (r.err != NoError ==>
          && (r.d.state == Preparing || r.d.state == AddingCommand)
          && (r.d.responsesError == NoError <==> 1 <= room && room != need)
          && r.d.responsesOuter == (if need + 1 <= room then NotSpecified else Structure)
          && (r.d.w.remaining == 0 || r.d.responsesError != NoError || r.d.responsesOuter == NotSpecified))
  }

  lemma PrepareReady(d: Draft, open: Token, path: CommandPath)
    requires Ready(d)
    ensures var r := Prepare(d, open, path);
            var bytes := ANONYMOUS_START_BYTES + TAGGED_START_BYTES + PathBytes(path);
            if bytes <= d.w.remaining then
              && r.err == NoError
              && r.d == d.(state := AddingCommand, responseOuter := Array,
                           w := WriterState(d.w.tokens + [OpenResponse] + [open] + [Path(path)], false, d.w.remaining - bytes, Structure))
            else
              && r.err != NoError && r.d.state == Preparing && r.d.w.remaining == 0
              && r.d == d.(state := Preparing, w := r.d.w, responseOuter := r.d.responseOuter, responsesError := r.d.responsesError)
              && (r.d.responsesError == NoError <==> 1 <= d.w.remaining)
  {
  }

  lemma FinishBlock(d: Draft)
    requires d.state == AddingCommand && d.responseOuter == Array && d.w.container == Structure && !d.w.torn
    requires d.messageError == NoError && d.responsesError == NoError && d.responsesOuter == Structure
    ensures var r, room := Finish(d), d.w.remaining;
            && r.d.hasBuffer == d.hasBuffer && r.d.backup == d.backup
            && (r.err == NoError <==> 2 + TAIL_BYTES <= room)
            && (r.err == NoError ==>
                  && r.d.state == AddedCommand && !r.d.w.torn && r.d.w.container == NotSpecified
                  && r.d.w.tokens == d.w.tokens + [Close] + [Close] + [Close] + [Revision] + [Close])
            && (r.err != NoError ==>
                  && r.d.state == AddingCommand && r.d.w.remaining == 0
                  && (r.d.responsesError == NoError <==> room != 2)
                  && r.d.responsesOuter == (if 3 <= room then NotSpecified else Structure))
  {
  }

  lemma FillBlock(d: Draft, payload: Token, bytes: nat)
    requires d.state == AddingCommand && d.responseOuter == Array && d.w.container == Structure && !d.w.torn
    requires d.messageError == NoError && d.responsesError == NoError && d.responsesOuter == Structure
    ensures var r, room := Fill(d, payload, bytes), d.w.remaining;
            && r.d.hasBuffer == d.hasBuffer && r.d.backup == d.backup
            && (r.err == NoError <==> bytes + 2 + TAIL_BYTES <= room)
            && (r.err == NoError ==>
                  && r.d.state == AddedCommand && !r.d.w.torn && r.d.w.container == NotSpecified
                  && r.d.w.tokens == d.w.tokens + [payload] + [Close] + [Close] + [Close] + [Revision] + [Close])
            && (r.err != NoError ==>
                  && r.d.state == AddingCommand && r.d.w.remaining == 0
                  && (r.d.responsesError == NoError <==> room != bytes + 2)
                  && r.d.responsesOuter == (if bytes + 3 <= room then NotSpecified else Structure))
  {
    var r := Payload(d, payload, bytes);
    if r.err == NoError {
      FinishBlock(r.d);
    }
  }

  lemma WholeMessage(suppress: bool, open: Token, path: CommandPath, payload: Token)
    ensures HeaderTokens(suppress) + [OpenResponse] + [open] + [Path(path)] + [payload] + [Close] + [Close] + [Close] + [Revision] + [Close]
         == MessageTokens(suppress, open, path, payload)
  {
  }

  lemma AddToReady(d: Draft, suppress: bool, open: Token, path: CommandPath, payload: Token, bytes: nat)
    requires Ready(d) && d.w.tokens == HeaderTokens(suppress)
    ensures Added(d, suppress, open, path, payload, bytes, Add(d, open, path, payload, bytes))
  {
    PrepareReady(d, open, path);
    WholeMessage(suppress, open, path, payload);
    var a := Prepare(d, open, path);
    if a.err != NoError {
      return;
    }
    FillBlock(a.d, payload, bytes);
  }

  lemma FinishClosed(d: Draft)
    requires d.responsesError != NoError || d.responsesOuter == NotSpecified
    ensures var r := Finish(d);
            && r.err != NoError && r.d.state == d.state && r.d.hasBuffer == d.hasBuffer && r.d.backup == d.backup
            && (d.responsesError != NoError ==> r.d.responsesError != NoError)
            && (d.responsesOuter == NotSpecified ==> r.d.responsesOuter == NotSpecified)
  {
  }

  lemma AddToClosed(d: Draft, open: Token, path: CommandPath, payload: Token, bytes: nat)
    requires d.state == Idle && d.responsesOuter == NotSpecified
    ensures var r := Add(d, open, path, payload, bytes);
            && r.err != NoError && (r.d.state == Preparing || r.d.state == AddingCommand)
            && r.d.hasBuffer == d.hasBuffer && r.d.backup == d.backup && r.d.responsesOuter == NotSpecified
            && (d.responsesError != NoError ==> r.d.responsesError != NoError)
  {
    var a := Prepare(d, open, path);
    if a.err != NoError {
      return;
    }
    var b := Payload(a.d, payload, bytes);
    if b.err != NoError {
      return;
    }
    FinishClosed(b.d);
  }

  // A doomed draft never becomes a message, and what dooms it lasts.
  lemma AddToDoomed(d: Draft, open: Token, path: CommandPath, payload: Token, bytes: nat)
    requires Doomed(d) && d.state != AddedCommand
    ensures var r := Add(d, open, path, payload, bytes);
            && r.err != NoError && r.d.state != AddedCommand && Doomed(r.d) && r.d.backup == d.backup
            && (d.state == Idle ==> r.d.state == Preparing || r.d.state == AddingCommand)
            && (d.state != Idle ==> r.d == d)
            && (d.responsesError != NoError ==> r.d.responsesError != NoError)
            && (d.responsesOuter == NotSpecified ==> r.d.responsesOuter == NotSpecified)
  {
    if d.state != Idle {
      return;
    }
    if d.responsesOuter == NotSpecified {
      AddToClosed(d, open, path, payload, bytes);
      return;
    }
    var a := CreateInvokeResponse(d.(state := Preparing));
    assert a.err != NoError;
  }

  // ---------- any sequence of calls ----------

  datatype Call =
    | ResponseCall(path: CommandPath, data: CommandData)
    | DataCall(path: CommandPath, data: CommandData)
    | StatusCall(path: CommandPath, status: StatusIB)

  function Perform(d: Draft, capacity: nat, suppress: bool, c: Call): Draft {
    match c
    case ResponseCall(path, data) => AddResponse(d, capacity, suppress, path, data)
    case DataCall(path, data) => AddData(d, capacity, suppress, path, data).d
    case StatusCall(path, status) => AddStatus(d, capacity, suppress, path, status).d
  }

  function PerformAll(d: Draft, capacity: nat, suppress: bool, cs: seq<Call>): Draft {
    if cs == [] then d else Perform(PerformAll(d, capacity, suppress, cs[..|cs| - 1]), capacity, suppress, cs[|cs| - 1])
  }

  // A draft counts as added only if the message is complete, and as started over only if it is in
  // order or can never be completed.
  ghost predicate Sound(d: Draft) {
    && (!d.hasBuffer ==> d.state == Idle)
    && (d.hasBuffer ==>
          match d.state
          case Idle => Ready(d) || Doomed(d)
          case Preparing => Doomed(d)
          case AddingCommand => Doomed(d)
          case AddedCommand => CompleteMessage(d.w)
          case _ => false)
  }

  lemma AllocateSound(d: Draft, capacity: nat, suppress: bool)
    requires Sound(d)
    ensures var r := Allocate(d, capacity, suppress);
            && Sound(r.d) && r.d.state == d.state
            && (r.err == NoError <==> r.d.hasBuffer)
            && (d.hasBuffer ==> r.d == d)
            && (!d.hasBuffer && r.err == NoError ==> Ready(r.d) && r.d.w.tokens == HeaderTokens(suppress))
  {
  }

  lemma SomeSuppress(d: Draft) returns (suppress: bool)
    requires Ready(d)
    ensures d.w.tokens == HeaderTokens(suppress)
  {
    suppress := d.w.tokens == HeaderTokens(true);
  }

  // Adding a command or a status to an allocated draft.
  lemma AddSound(d: Draft, open: Token, path: CommandPath, payload: Token, bytes: nat)
    requires Sound(d) && d.hasBuffer
    requires (open == OpenCommand && payload.Fields?) || (open == OpenStatus && payload.ErrorStatus?)
    ensures var r := Add(d, open, path, payload, bytes);
            && Sound(r.d) && r.d.hasBuffer && r.d.backup == d.backup
            && (r.err == NoError ==> r.d.state == AddedCommand)
            && (d.state == AddedCommand ==> r.err != NoError && r.d == d)
  {
    if d.state == AddedCommand {
      return;
    }
    if Doomed(d) {
      AddToDoomed(d, open, path, payload, bytes);
      return;
    }
    var suppress := SomeSuppress(d);
    AddToReady(d, suppress, open, path, payload, bytes);
    var r := Add(d, open, path, payload, bytes);
    if r.err == NoError {
      if open == OpenCommand {
        assert DataMessage(r.d.w, suppress, path, payload.content);
      } else {
        assert StatusMessage(r.d.w, suppress, path, payload.status);
      }
    }
  }

  // Trying to add data and rolling back.
  lemma AddRolledBackSound(d: Draft, path: CommandPath, payload: Token, bytes: nat)
    requires Sound(d) && d.hasBuffer && d.backup == d.w && payload.Fields?
    ensures var r := Add(d, OpenCommand, path, payload, bytes);
            r.err != NoError ==> Sound(RollBack(r.d).d)
  {
    AddSound(d, OpenCommand, path, payload, bytes);
    if d.state == AddedCommand {
      return;
    }
    if Doomed(d) {
      AddToDoomed(d, OpenCommand, path, payload, bytes);
      return;
    }
    var suppress := SomeSuppress(d);
    AddToReady(d, suppress, OpenCommand, path, payload, bytes);
  }

  lemma AddDataSound(d: Draft, capacity: nat, suppress: bool, path: CommandPath, data: CommandData)
    requires Sound(d)
    ensures var r := AddData(d, capacity, suppress, path, data);
            && Sound(r.d)
            && (r.err == NoError ==> r.d.state == AddedCommand)
            && (d.state == AddedCommand ==> r.err != NoError && r.d.state == AddedCommand && r.d.w == d.w)
  {
    AllocateSound(d, capacity, suppress);
    var a := Allocate(d, capacity, suppress);
    if a.err == NoError {
      var b := a.d.(backup := a.d.w);
      AddSound(b, OpenCommand, ResponsePath(path, data), Fields(data.content), data.bytes);
      AddRolledBackSound(b, ResponsePath(path, data), Fields(data.content), data.bytes);
    }
  }

  lemma AddStatusSound(d: Draft, capacity: nat, suppress: bool, path: CommandPath, status: StatusIB)
    requires Sound(d)
    ensures var r := AddStatus(d, capacity, suppress, path, status);
            && Sound(r.d)
            && (d.state == AddedCommand ==> r.d.state == AddedCommand && r.d.w == d.w)
  {
    AllocateSound(d, capacity, suppress);
    var a := Allocate(d, capacity, suppress);
    if a.err == NoError {
      AddSound(a.d, OpenStatus, path, ErrorStatus(status), StatusBytes(status));
    }
  }

  lemma PerformSound(d: Draft, capacity: nat, suppress: bool, c: Call)
    requires Sound(d)
    ensures var d' := Perform(d, capacity, suppress, c);
            Sound(d') && (d.state == AddedCommand ==> d'.state == AddedCommand && d'.w == d.w)
  {
    match c
    case ResponseCall(path, data) =>
      AddDataSound(d, capacity, suppress, path, data);
      AddStatusSound(AddData(d, capacity, suppress, path, data).d, capacity, suppress, path, FAILURE);
    case DataCall(path, data) => AddDataSound(d, capacity, suppress, path, data);
    case StatusCall(path, status) => AddStatusSound(d, capacity, suppress, path, status);
  }

  // Whatever an application adds in whatever order, and wherever the packet runs out of room, the
  // draft counts as added only when it is one complete message.
  lemma {:induction false} RunSound(capacity: nat, suppress: bool, cs: seq<Call>)
    ensures Sound(PerformAll(UNUSED, capacity, suppress, cs))
  {
    if cs != [] {
      var n := |cs| - 1;
      RunSound(capacity, suppress, cs[..n]);
      PerformSound(PerformAll(UNUSED, capacity, suppress, cs[..n]), capacity, suppress, cs[n]);
    }
  }

  lemma OneMoreCall(capacity: nat, suppress: bool, cs: seq<Call>, c: Call)
    ensures var d, d' := PerformAll(UNUSED, capacity, suppress, cs), PerformAll(UNUSED, capacity, suppress, cs + [c]);
            d.state == AddedCommand ==> d'.state == AddedCommand && d'.w == d.w
  {
    var d := PerformAll(UNUSED, capacity, suppress, cs);
    assert (cs + [c])[..|cs|] == cs;
    RunSound(capacity, suppress, cs);
    PerformSound(d, capacity, suppress, c);
  }

  lemma LastApart(xs: seq<Call>, ys: seq<Call>)
    requires ys != []
    ensures xs + ys == xs + ys[..|ys| - 1] + [ys[|ys| - 1]]
  {
    assert ys == ys[..|ys| - 1] + [ys[|ys| - 1]];
  }

  // And from then on it stays that message.
  lemma {:induction false} FirstResponseStays(capacity: nat, suppress: bool, before: seq<Call>, after: seq<Call>)
    requires PerformAll(UNUSED, capacity, suppress, before).state == AddedCommand
    ensures var d, d' := PerformAll(UNUSED, capacity, suppress, before), PerformAll(UNUSED, capacity, suppress, before + after);
            d'.state == AddedCommand && d'.w == d.w
  {
    if after == [] {
      assert before + after == before;
      return;
    }
    var n := |after| - 1;
    FirstResponseStays(capacity, suppress, before, after[..n]);
    OneMoreCall(capacity, suppress, before + after[..n], after[n]);
    LastApart(before, after);
  }

  // ---------- what one response comes to ----------

  const HEADER_BYTES := ANONYMOUS_START_BYTES + BOOLEAN_BYTES + TAGGED_START_BYTES

  lemma AllocateFresh(d: Draft, capacity: nat, suppress: bool)
    requires !d.hasBuffer && d.state == Idle
    ensures var r := Allocate(d, capacity, suppress);
            if HEADER_BYTES <= capacity then
              r.err == NoError && Ready(r.d) && r.d.w == WriterState(HeaderTokens(suppress), false, capacity - HEADER_BYTES, Array)
            else r.err != NoError && !r.d.hasBuffer && r.d.state == Idle
  {
  }

  // The room for a response: what the packet has left, or what a fresh one will have.
  function Room(d: Draft, capacity: nat): int {
    if d.hasBuffer then d.w.remaining else capacity - HEADER_BYTES
  }

  // What the header says, or will say.
  predicate Suppressed(d: Draft, suppress: bool) {
    if d.hasBuffer then d.w.tokens == HeaderTokens(true) else suppress
  }

  // One whole message, token by token.
  lemma MessagesSpelled(w: WriterState, suppress: bool, path: CommandPath, content: int, status: StatusIB)
    ensures DataMessage(w, suppress, path, content) <==>
              !w.torn && w.container == NotSpecified &&
              w.tokens == [OpenMessage, Suppress(suppress), OpenResponses, OpenResponse, OpenCommand, Path(path), Fields(content),
                           Close, Close, Close, Revision, Close]
    ensures StatusMessage(w, suppress, path, status) <==>
              !w.torn && w.container == NotSpecified &&
              w.tokens == [OpenMessage, Suppress(suppress), OpenResponses, OpenResponse, OpenStatus, Path(path), ErrorStatus(status),
                           Close, Close, Close, Revision, Close]
  {
  }

  // The bytes such a message takes: the header, and the block with the rest.
  lemma BytesSpelled(path: CommandPath, bytes: nat, status: StatusIB)
    ensures HEADER_BYTES == 5
    ensures BlockBytes(path, bytes) + TAIL_BYTES == 13 + UnsignedBytes(path.endpoint) + UnsignedBytes(path.cluster) + UnsignedBytes(path.command) + bytes
    ensures StatusBytes(status) == 3 + UnsignedBytes(status.status) + match status.clusterStatus case None => 0 case Some(c) => UnsignedBytes(c)
  {
  }

  // A block is added to an idle handler exactly if it is not spoilt and the whole message fits.
  lemma AddExact(d: Draft, capacity: nat, suppress: bool, open: Token, path: CommandPath, payload: Token, bytes: nat)
    requires Sound(d) && d.state == Idle
    ensures var a := Allocate(d, capacity, suppress);
            var b := a.d.(backup := a.d.w);
            if a.err != NoError then a.d.state == Idle && Room(d, capacity) < 0
            else
              && (a.d.hasBuffer && (Doomed(d) ==> Doomed(a.d)))
              && BlockAdded(d, capacity, suppress, open, path, payload, bytes, Add(a.d, open, path, payload, bytes))
              && BlockAdded(d, capacity, suppress, open, path, payload, bytes, Add(b, open, path, payload, bytes))
  {
    if !d.hasBuffer {
      AllocateFresh(d, capacity, suppress);
    }
    var a := Allocate(d, capacity, suppress);
    if a.err == NoError {
      AddExactly(a.d, open, path, payload, bytes);
      AddExactly(a.d.(backup := a.d.w), open, path, payload, bytes);
    }
  }

  predicate BlockAdded(d: Draft, capacity: nat, suppress: bool, open: Token, path: CommandPath, payload: Token, bytes: nat, r: Outcome) {
    && (r.err == NoError <==> r.d.state == AddedCommand)
    && (r.err == NoError <==> !Doomed(d) && BlockBytes(path, bytes) + TAIL_BYTES <= Room(d, capacity))
    && (r.err == NoError ==> !r.d.w.torn && r.d.w.container == NotSpecified && r.d.w.tokens == MessageTokens(Suppressed(d, suppress), open, path, payload))
  }

  lemma AddExactly(d: Draft, open: Token, path: CommandPath, payload: Token, bytes: nat)
    requires d.hasBuffer && d.state == Idle && (Ready(d) || Doomed(d))
    ensures var r := Add(d, open, path, payload, bytes);
            && (r.err == NoError <==> r.d.state == AddedCommand)
            && (r.err == NoError <==> !Doomed(d) && BlockBytes(path, bytes) + TAIL_BYTES <= d.w.remaining)
            && (r.err == NoError ==> !r.d.w.torn && r.d.w.container == NotSpecified
                                     && r.d.w.tokens == MessageTokens(d.w.tokens == HeaderTokens(true), open, path, payload))
  {
    if Doomed(d) {
      AddToDoomed(d, open, path, payload, bytes);
    } else {
      AddToReady(d, d.w.tokens == HeaderTokens(true), open, path, payload, bytes);
    }
  }

  // A status response: that status, for that path, exactly if it fits a message that is not spoilt.
  lemma AddStatusExact(d: Draft, capacity: nat, suppress: bool, path: CommandPath, status: StatusIB)
    requires Sound(d) && d.state == Idle
    ensures var r := AddStatus(d, capacity, suppress, path, status);
            && (r.err == NoError <==> r.d.state == AddedCommand)
            && (r.d.state == AddedCommand <==> !Doomed(d) && BlockBytes(path, StatusBytes(status)) + TAIL_BYTES <= Room(d, capacity))
            && (r.d.state == AddedCommand ==> StatusMessage(r.d.w, Suppressed(d, suppress), path, status))
  {
    AddExact(d, capacity, suppress, OpenStatus, path, ErrorStatus(status), StatusBytes(status));
  }

  // Response data: those fields, under the id of the response command, likewise; and when they do not
  // fit the handler is idle again.
  lemma AddDataExact(d: Draft, capacity: nat, suppress: bool, path: CommandPath, data: CommandData)
    requires Sound(d) && d.state == Idle
    ensures var r := AddData(d, capacity, suppress, path, data);
            var answer := CommandPath(path.endpoint, path.cluster, data.id);
            && (r.err == NoError <==> r.d.state == AddedCommand) && (r.err != NoError ==> r.d.state == Idle)
            && (r.d.state == AddedCommand <==> !Doomed(d) && BlockBytes(answer, data.bytes) + TAIL_BYTES <= Room(d, capacity))
            && (r.d.state == AddedCommand ==> DataMessage(r.d.w, Suppressed(d, suppress), answer, data.content))
  {
    AddExact(d, capacity, suppress, OpenCommand, ResponsePath(path, data), Fields(data.content), data.bytes);
    AllocateSound(d, capacity, suppress);
    var a := Allocate(d, capacity, suppress);
    if a.err == NoError {
      AddFailed(a.d.(backup := a.d.w), ResponsePath(path, data), Fields(data.content), data.bytes);
    }
  }

  lemma AddFailed(d: Draft, path: CommandPath, payload: Token, bytes: nat)
    requires d.hasBuffer && d.state == Idle && (Ready(d) || Doomed(d))
    ensures var r := Add(d, OpenCommand, path, payload, bytes);
            r.err != NoError ==> r.d.state == Preparing || r.d.state == AddingCommand
  {
    if Doomed(d) {
      AddToDoomed(d, OpenCommand, path, payload, bytes);
    } else {
      AddToReady(d, d.w.tokens == HeaderTokens(true), OpenCommand, path, payload, bytes);
    }
  }

  // What a response comes to in so much room: the data if the whole message fits; otherwise the
  // Failure status if that fits, and the data already failed inside its block; otherwise nothing
  // that could be sent. When the data fails only while the message is being completed, the fallback
  // is lost.
  predicate Responded(room: int, suppress: bool, path: CommandPath, data: CommandData, d: Draft) {
    var need := BlockBytes(ResponsePath(path, data), data.bytes);
    if need + TAIL_BYTES <= room then
      d.state == AddedCommand && DataMessage(d.w, suppress, ResponsePath(path, data), data.content)
    else if room < need && BlockBytes(path, StatusBytes(FAILURE)) + TAIL_BYTES <= room then
      d.state == AddedCommand && StatusMessage(d.w, suppress, path, FAILURE)
    else d.state != AddedCommand
  }

  // Whatever was attempted before: a handler that is idle and not spoilt responds so, and a spoilt
  // one never.
  lemma AddResponseExact(d: Draft, capacity: nat, suppress: bool, path: CommandPath, data: CommandData)
    requires Sound(d) && d.state == Idle
    ensures var r := AddResponse(d, capacity, suppress, path, data);
            if Doomed(d) then r.state != AddedCommand
            else Responded(Room(d, capacity), Suppressed(d, suppress), path, data, r)
  {
    if Doomed(d) {
      DoomedResponse(d, capacity, suppress, path, data);
      return;
    }
    if d.hasBuffer {
      ReadyResponse(d, capacity, suppress, path, data);
      return;
    }
    AllocateFresh(d, capacity, suppress);
    var a := Allocate(d, capacity, suppress);
    if a.err != NoError {
      AllocateFresh(a.d, capacity, suppress);
      return;
    }
    ReadyResponse(a.d, capacity, suppress, path, data);
    assert AddResponse(d, capacity, suppress, path, data) == AddResponse(a.d, capacity, suppress, path, data);
  }

  lemma ReadyResponse(d: Draft, capacity: nat, suppress: bool, path: CommandPath, data: CommandData)
    requires Ready(d)
    ensures Responded(d.w.remaining, d.w.tokens == HeaderTokens(true), path, data, AddResponse(d, capacity, suppress, path, data))
  {
    var sup := d.w.tokens == HeaderTokens(true);
    var b := d.(backup := d.w);
    AddToReady(b, sup, OpenCommand, ResponsePath(path, data), Fields(data.content), data.bytes);
    var c := Add(b, OpenCommand, ResponsePath(path, data), Fields(data.content), data.bytes);
    if c.err == NoError {
      return;
    }
    FallBackExact(b, c, capacity, suppress, sup, path, data);
  }

  lemma DoomedResponse(d: Draft, capacity: nat, suppress: bool, path: CommandPath, data: CommandData)
    requires Doomed(d) && d.state == Idle
    ensures AddResponse(d, capacity, suppress, path, data).state != AddedCommand
  {
    var b := d.(backup := d.w);
    AddToDoomed(b, OpenCommand, ResponsePath(path, data), Fields(data.content), data.bytes);
    var rolled := RollBack(Add(b, OpenCommand, ResponsePath(path, data), Fields(data.content), data.bytes).d).d;
    AddToDoomed(rolled, OpenStatus, path, ErrorStatus(FAILURE), StatusBytes(FAILURE));
  }

  // After the data failed.
  lemma FallBackExact(b: Draft, c: Outcome, capacity: nat, suppress: bool, sup: bool, path: CommandPath, data: CommandData)
    requires Ready(b) && b.backup == b.w && b.w.tokens == HeaderTokens(sup) && c.err != NoError
    requires Added(b, sup, OpenCommand, ResponsePath(path, data), Fields(data.content), data.bytes, c)
    ensures var d := AddStatus(RollBack(c.d).d, capacity, suppress, path, FAILURE).d;
            var need, room := BlockBytes(ResponsePath(path, data), data.bytes), b.w.remaining;
            if room < need && BlockBytes(path, StatusBytes(FAILURE)) + TAIL_BYTES <= room then
              d.state == AddedCommand && StatusMessage(d.w, sup, path, FAILURE)
            else d.state != AddedCommand
  {
    var rolled := RollBack(c.d).d;
    if Ready(rolled) {
      AddToReady(rolled, sup, OpenStatus, path, ErrorStatus(FAILURE), StatusBytes(FAILURE));
    } else {
      AddToDoomed(rolled, OpenStatus, path, ErrorStatus(FAILURE), StatusBytes(FAILURE));
    }
  }

  // Such a response, for every packet that would have held the Failure status: fields whose block
  // takes all the room.
  lemma FallbackLost(capacity: nat, suppress: bool, path: CommandPath) returns (data: CommandData)
    requires BlockBytes(path, StatusBytes(FAILURE)) + TAIL_BYTES <= capacity - HEADER_BYTES
    ensures AddResponse(UNUSED, capacity, suppress, path, data).state != AddedCommand
    ensures AddStatus(UNUSED, capacity, suppress, path, FAILURE).d.state == AddedCommand
  {
    data := CommandData(path.command, 0, capacity - HEADER_BYTES - BlockBytes(path, 0));
    assert ResponsePath(path, data) == path;
    AddResponseExact(UNUSED, capacity, suppress, path, data);
    AllocateFresh(UNUSED, capacity, suppress);
    var a := Allocate(UNUSED, capacity, suppress);
    AddToReady(a.d, suppress, OpenStatus, path, ErrorStatus(FAILURE), StatusBytes(FAILURE));
  }
}
