// Client side of list chunking: BufferedReadCallback, which gathers the pieces of a list and
// hands its owner one complete list.

module BufferedRead {
  import opened Core
  import opened Tlv

  // One OnAttributeData call: the data of an attribute, or a status for it.
  datatype ReportItem = ReportItem(dp: DataPath, data: Option<Elem>, status: StatusIB)

  // The calls the buffering callback makes on its owner.
  datatype Event =
    | BeginOfReport
    | EndOfReport
    | AttributeData(item: ReportItem)
    | Error(err: ChipError)

  const NO_PATH := DataPath(AttributePath(0, 0, 0), NotList, None)

  // The path latched last, and the list items buffered since the buffer was last cleared.
  datatype State = State(dp: DataPath, list: seq<Elem>)

  predicate BuffersList(item: ReportItem) {
    item.dp.op.IsListOperation() && item.status.IsSuccess()
  }

  // What the read client guarantees for each call: a successful list operation carries data.
  predicate HasItsData(item: ReportItem) {
    BuffersList(item) ==> item.data.Some?
  }

  function WholeList(dp: DataPath, es: seq<Elem>): Event {
    AttributeData(ReportItem(dp.(op := ReplaceAll), Some(Array(es)), SUCCESS))
  }

  function FlushEvents(st: State): seq<Event> {
    if st.dp.op.IsListOperation() then [WholeList(st.dp, st.list)] else []
  }

  function Flush(st: State): State {
    if st.dp.op.IsListOperation() then State(NO_PATH, []) else st
  }

  // The items of a list up to the first that does not fit a packet buffer.
  function Bufferable(es: seq<Elem>, limit: nat): seq<Elem> {
    if es == [] || Size(es[0]) > limit then [] else [es[0]] + Bufferable(es[1..], limit)
  }

  // What BufferData does to the buffered list, and its error.
  function Buffered(list: seq<Elem>, op: ListOp, e: Elem, limit: nat): (seq<Elem>, ChipError) {
    match op
    case ReplaceAll =>
      if !e.Array? then (list, InvalidTlvElement)
      else
        var kept := Bufferable(e.items, limit);
        (kept, if kept == e.items then NoError else NoMemory)
    case AppendItem => if Size(e) > limit then (list, NoMemory) else (list + [e], NoError)
    case _ => (list, NoError)
  }

  // What one OnAttributeData call does.
  function OnItem(st: State, item: ReportItem, limit: nat): (State, seq<Event>)
    requires HasItsData(item)
  {
    var events := if item.dp.path == st.dp.path then [] else FlushEvents(st);
    var st1 := if item.dp.path == st.dp.path then st else Flush(st);
    if BuffersList(item) then
      var (list, err) := Buffered(st1.list, item.dp.op, item.data.value, limit);
      if err == NoError then (State(item.dp, list), events)
      else (State(st1.dp, list), events + [Error(err)])
    else
      (State(item.dp, st1.list), events + [AttributeData(item)])
  }

  datatype ListToken = Open | Element(e: Elem) | Close

  function ElementTokens(es: seq<Elem>): seq<ListToken> {
    if es == [] then [] else ElementTokens(es[..|es| - 1]) + [Element(es[|es| - 1])]
  }

  function ReadElements(ts: seq<ListToken>): seq<Elem> {
    if ts == [] then []
    else ReadElements(ts[..|ts| - 1]) + match ts[|ts| - 1] case Element(e) => [e] case _ => []
  }

  lemma {:induction false} ElementsOfTokens(es: seq<Elem>)
    ensures ReadElements(ElementTokens(es)) == es
  {
    if es != [] {
      ElementsOfTokens(es[..|es| - 1]);
      var ts := ElementTokens(es);
      assert ts[..|ts| - 1] == ElementTokens(es[..|es| - 1]);
      assert es[..|es| - 1] + [es[|es| - 1]] == es;
    }
  }

  class BufferedReadCallback {
    const limit: nat  // bytes of the packet buffer one list item is copied into
    var bufferedPath: DataPath
    var bufferedList: seq<Elem>
    var log: seq<Event>

    constructor (limit: nat)
      ensures this.limit == limit && GetState() == State(NO_PATH, []) && log == []
    {
      this.limit := limit;
      bufferedPath := NO_PATH;
      bufferedList := [];
      log := [];
    }

    function GetState(): State
      reads this
    {
      State(bufferedPath, bufferedList)
    }

    method OnReportBegin()
      modifies this
      ensures GetState() == old(GetState()) && log == old(log) + [BeginOfReport]
    {
      log := log + [BeginOfReport];
    }

    method OnReportEnd()
      modifies this
      ensures GetState() == Flush(old(GetState()))
      ensures log == old(log) + FlushEvents(old(GetState())) + [EndOfReport]
    {
      var err := DispatchBufferedData(bufferedPath.path, SUCCESS, true);
      log := log + (if err == NoError then [] else [Error(err)]) + [EndOfReport];
    }

    // Rebuilds the list in a buffer whose size is computed beforehand; that size always suffices.
    method GenerateListTLV() returns (err: ChipError, list: Elem)
      ensures err == NoError && list == Array(bufferedList)
    {
      var total: nat := 0;
      var i := 0;
      while i < |bufferedList|
        invariant 0 <= i <= |bufferedList| && total == SizeAll(bufferedList[..i])
      {
        assert bufferedList[..i + 1] == bufferedList[..i] + [bufferedList[i]];
        SizeAllSplit(bufferedList[..i], [bufferedList[i]]);
        assert SizeAll([bufferedList[i]]) == Size(bufferedList[i]) + SizeAll([]);
        total := total + Size(bufferedList[i]);
        i := i + 1;
      }
      assert bufferedList[..|bufferedList|] == bufferedList;
      total := total + 4;

      var writer := new Writer<ListToken>(Buffer([], false, total, 0));
      err := writer.Put(Open, CONTAINER_START_BYTES);
      list := Array([]);
      if err != NoError {
        return;
      }
      i := 0;
      while i < |bufferedList|
        invariant 0 <= i <= |bufferedList|
        invariant writer.buf.tokens == [Open] + ElementTokens(bufferedList[..i]) && !writer.buf.torn
        invariant writer.buf.remaining == SizeAll(bufferedList[i..]) + 3
      {
        assert bufferedList[i..][1..] == bufferedList[i + 1..];
        err := writer.Put(Element(bufferedList[i]), Size(bufferedList[i]));
        if err != NoError {
          return;
        }
        assert bufferedList[..i + 1][..i] == bufferedList[..i];
        i := i + 1;
      }
      err := writer.Put(Close, CONTAINER_END_BYTES);
      if err != NoError {
        return;
      }
      ElementsOfTokens(bufferedList);
      list := Array(ReadElements(writer.buf.tokens[1..|writer.buf.tokens| - 1]));
      assert writer.buf.tokens[1..|writer.buf.tokens| - 1] == ElementTokens(bufferedList);
    }

    method BufferListItem(e: Elem) returns (err: ChipError)
      modifies this
      ensures bufferedPath == old(bufferedPath) && log == old(log)
      ensures if Size(e) > limit then err == NoMemory && bufferedList == old(bufferedList)
              else err == NoError && bufferedList == old(bufferedList) + [e]
    {
      if Size(e) > limit {
        return NoMemory;
      }
      bufferedList := bufferedList + [e];
      err := NoError;
    }

    method BufferData(op: ListOp, data: Elem) returns (err: ChipError)
      modifies this
      ensures bufferedPath == old(bufferedPath) && log == old(log)
      ensures (bufferedList, err) == Buffered(old(bufferedList), op, data, limit)
    {
      err := NoError;
      if op.ReplaceAll? {
        if !data.Array? {
          return InvalidTlvElement;
        }
        bufferedList := [];
        var i := 0;
        while i < |data.items|
          invariant 0 <= i <= |data.items| && err == NoError
          invariant bufferedPath == old(bufferedPath) && log == old(log)
          invariant bufferedList == data.items[..i]
          invariant Bufferable(data.items, limit) == data.items[..i] + Bufferable(data.items[i..], limit)
        {
          assert data.items[i..][0] == data.items[i] && data.items[i..][1..] == data.items[i + 1..];
          err := BufferListItem(data.items[i]);
          if err != NoError {
            assert Bufferable(data.items, limit) == data.items[..i];
            return;
          }
          assert data.items[..i] + [data.items[i]] == data.items[..i + 1];
          i := i + 1;
        }
        assert data.items[..i] == data.items;
      } else if op.AppendItem? {
        err := BufferListItem(data);
      }
    }

    // Hands out the buffered list unless more of it, or an error for it, may still follow.
    method DispatchBufferedData(path: AttributePath, status: StatusIB, endOfReport: bool) returns (err: ChipError)
      modifies this
      ensures err == NoError
      ensures var waits := path == old(bufferedPath.path) && (!endOfReport || !status.IsSuccess());
              && GetState() == (if waits then old(GetState()) else Flush(old(GetState())))
              && log == old(log) + if waits then [] else FlushEvents(old(GetState()))
    {
      err := NoError;
      if path == bufferedPath.path {
        if !endOfReport {
          return;
        }
        if !status.IsSuccess() {
          return;
        }
      }
      if !bufferedPath.op.IsListOperation() {
        return;
      }
      var list;
      err, list := GenerateListTLV();
      if err != NoError {
        return;
      }
      bufferedPath := bufferedPath.(op := ReplaceAll);
      log := log + [AttributeData(ReportItem(bufferedPath, Some(list), SUCCESS))];
      bufferedList := [];
      bufferedPath := NO_PATH;
    }

    method OnAttributeData(item: ReportItem)
      requires HasItsData(item)
      modifies this
      ensures var (st, events) := OnItem(old(GetState()), item, limit);
              GetState() == st && log == old(log) + events
    {
      var err := DispatchBufferedData(item.dp.path, item.status, false);
      if err == NoError {
        if item.dp.op.IsListOperation() && item.status.IsSuccess() {
          err := BufferData(item.dp.op, item.data.value);
        } else {
          log := log + [AttributeData(item)];
        }
      }
      if err == NoError {
        bufferedPath := item.dp;
      } else {
        log := log + [Error(err)];
      }
    }
  }
}
