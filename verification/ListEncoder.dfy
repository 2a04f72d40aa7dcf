// Server side of list chunking: AttributeValueEncoder, which writes as much of a list as a
// packet holds and remembers where to continue.

module ListEncoder {
  import opened Core
  import opened Tlv

  // The attribute a report is about and the version of its cluster's data.
  datatype ReportPath = ReportPath(path: AttributePath, version: nat)

  // What the encoder writes into an AttributeReportIBs array. `Head` opens an AttributeReportIB
  // and its AttributeDataIB and holds path and data version; a null list index marks an append.
  datatype Token =
    | Head(path: ReportPath, nullIndex: bool)
    | ArrayOpen
    | Item(e: Elem)
    | ArrayClose
    | DataEnd
    | ReportEnd
    | StatusReport(about: AttributePath, status: StatusIB)

  const NULL_LIST_INDEX_BYTES := 2
  const ARRAY_OPEN_BYTES := CONTAINER_START_BYTES + CONTEXT_TAG_BYTES
  const END_OF_LIST_BYTES := 1
  const END_OF_ATTRIBUTE_REPORT_BYTES := 2
  const CLOSING_BYTES := END_OF_ATTRIBUTE_REPORT_BYTES + END_OF_LIST_BYTES

  // One list item: its fabric index when the item type is fabric scoped, and its encoding for
  // the accessing fabric.
  datatype ListItem = ListItem(fabric: Option<nat>, value: Elem)

  const UNDEFINED_FABRIC_INDEX := 0

  datatype EncodeState = EncodeState(allowPartialData: bool, listIndex: nat)

  const FRESH_STATE := EncodeState(false, INVALID_LIST_INDEX)

  // What stays fixed while one attribute is read: its path, the size of a report header with
  // that path (without a list index), and the fabric filter of the request.
  datatype ReadRequest = ReadRequest(path: ReportPath, headBytes: nat, accessingFabric: nat, fabricFiltered: bool)

  predicate Passes(req: ReadRequest, item: ListItem) {
    item.fabric.None? || !req.fabricFiltered || item.fabric.value == req.accessingFabric
  }

  predicate HasUndefinedFabric(item: ListItem) {
    item.fabric == Some(UNDEFINED_FABRIC_INDEX)
  }

  // The elements a read must deliver, in order, up to the first item whose fabric is undefined.
  function Kept(req: ReadRequest, items: seq<ListItem>): seq<Elem> {
    if items == [] || HasUndefinedFabric(items[0]) then []
    else if Passes(req, items[0]) then [items[0].value] + Kept(req, items[1..])
    else Kept(req, items[1..])
  }

  // Some item makes the read itself fail.
  predicate Broken(items: seq<ListItem>) {
    exists i :: 0 <= i < |items| && HasUndefinedFabric(items[i])
  }

  // Item i is to be delivered: no item up to it has an undefined fabric, and it is of no fabric, of the
  // accessing one, or the read is not filtered.
  predicate Deliverable(req: ReadRequest, items: seq<ListItem>, i: nat) {
    && i < |items|
    && (forall j :: 0 <= j <= i ==> items[j].fabric != Some(0))
    && (items[i].fabric == None || items[i].fabric == Some(req.accessingFabric) || !req.fabricFiltered)
  }

  // `chosen` are the indices of just those items, in order.
  ghost predicate Chosen(req: ReadRequest, items: seq<ListItem>, chosen: seq<nat>) {
    && (forall j, k :: 0 <= j < k < |chosen| ==> chosen[j] < chosen[k])
    && (forall i: nat :: i in chosen <==> Deliverable(req, items, i))
  }

  function Picked(items: seq<ListItem>, chosen: seq<nat>): (es: seq<Elem>)
    requires forall k :: 0 <= k < |chosen| ==> chosen[k] < |items|
    ensures |es| == |chosen| && forall k :: 0 <= k < |es| ==> es[k] == items[chosen[k]].value
  {
    seq(|chosen|, k requires 0 <= k < |chosen| => items[chosen[k]].value)
  }

  // The same from item i on.
  ghost predicate ChosenFrom(req: ReadRequest, items: seq<ListItem>, i: nat, chosen: seq<nat>) {
    && (forall j, k :: 0 <= j < k < |chosen| ==> chosen[j] < chosen[k])
    && (forall k: nat :: k in chosen <==> k >= i && Deliverable(req, items, k))
  }

  ghost predicate AreValues(items: seq<ListItem>, chosen: seq<nat>, es: seq<Elem>) {
    && |es| == |chosen|
    && forall k :: 0 <= k < |chosen| ==> chosen[k] < |items| && es[k] == items[chosen[k]].value
  }

  lemma ChooseAlso(req: ReadRequest, items: seq<ListItem>, i: nat, rest: seq<nat>)
    requires ChosenFrom(req, items, i + 1, rest) && Deliverable(req, items, i)
    ensures ChosenFrom(req, items, i, [i] + rest)
  {
    assert forall k :: 0 <= k < |rest| ==> rest[k] in rest;
  }

  lemma {:induction false} KeptFrom(req: ReadRequest, items: seq<ListItem>, i: nat) returns (chosen: seq<nat>)
    requires i <= |items| && forall j :: 0 <= j < i ==> items[j].fabric != Some(0)
    ensures ChosenFrom(req, items, i, chosen) && AreValues(items, chosen, Kept(req, items[i..]))
    decreases |items| - i
  {
    if i == |items| || items[i].fabric == Some(0) {
      chosen := [];
      return;
    }
    assert items[i..][0] == items[i] && items[i..][1..] == items[i + 1..];
    chosen := KeptFrom(req, items, i + 1);
    if Passes(req, items[i]) {
      ChooseAlso(req, items, i, chosen);
      chosen := [i] + chosen;
    }
  }

  // What is delivered are the values of those items.
  lemma KeptExactly(req: ReadRequest, items: seq<ListItem>) returns (chosen: seq<nat>)
    ensures Chosen(req, items, chosen) && (forall k :: 0 <= k < |chosen| ==> chosen[k] < |items|)
    ensures Kept(req, items) == Picked(items, chosen)
    ensures Broken(items) <==> exists i :: 0 <= i < |items| && items[i].fabric == Some(0)
  {
    assert items[0..] == items;
    chosen := KeptFrom(req, items, 0);
    assert Broken(items) <==> exists i :: 0 <= i < |items| && items[i].fabric == Some(0) by {
      assert forall i :: 0 <= i < |items| ==> (HasUndefinedFabric(items[i]) <==> items[i].fabric == Some(0));
    }
  }

  // How many leading elements fit into `room` when each costs `overhead` more than its size.
  function FitCount(es: seq<Elem>, overhead: nat, room: int): (k: nat)
    ensures k <= |es|
  {
    if es == [] || Size(es[0]) + overhead > room then 0
    else 1 + FitCount(es[1..], overhead, room - Size(es[0]) - overhead)
  }

  // What `es` costs in all.
  function Cost(es: seq<Elem>, overhead: nat): nat {
    if es == [] then 0 else Size(es[0]) + overhead + Cost(es[1..], overhead)
  }

  lemma {:induction false} CostSnoc(es: seq<Elem>, e: Elem, overhead: nat)
    ensures Cost(es + [e], overhead) == Cost(es, overhead) + Size(e) + overhead
  {
    if es == [] {
      assert es + [e] == [e];
      assert Cost([e][1..], overhead) == 0;
    } else {
      assert (es + [e])[1..] == es[1..] + [e];
      CostSnoc(es[1..], e, overhead);
    }
  }

  // FitCount is the longest prefix that fits, and the only such length.
  lemma {:induction false} FitCountIsMaximal(es: seq<Elem>, overhead: nat, room: nat)
    ensures var k := FitCount(es, overhead, room);
            && Cost(es[..k], overhead) <= room
            && (k < |es| ==> Cost(es[..k + 1], overhead) > room)
  {
    var k := FitCount(es, overhead, room);
    if es == [] || Size(es[0]) + overhead > room {
      if es != [] {
        assert es[..1][0] == es[0];
      }
    } else {
      FitCountIsMaximal(es[1..], overhead, room - Size(es[0]) - overhead);
      assert es[..k][1..] == es[1..][..k - 1];
      if k < |es| {
        assert es[..k + 1][1..] == es[1..][..k];
      }
    }
  }

  function ItemTokens(es: seq<Elem>): seq<Token> {
    if es == [] then [] else [Item(es[0])] + ItemTokens(es[1..])
  }

  function ListTokens(path: ReportPath, es: seq<Elem>): seq<Token> {
    [Head(path, false), ArrayOpen] + ItemTokens(es) + [ArrayClose, DataEnd, ReportEnd]
  }

  function AppendTokens(path: ReportPath, es: seq<Elem>): seq<Token> {
    if es == [] then []
    else [Head(path, true), Item(es[0]), DataEnd, ReportEnd] + AppendTokens(path, es[1..])
  }

  lemma {:induction false} ItemTokensSnoc(es: seq<Elem>, e: Elem)
    ensures ItemTokens(es + [e]) == ItemTokens(es) + [Item(e)]
  {
    if es == [] {
      assert es + [e] == [e];
      assert ItemTokens([e][1..]) == [];
    } else {
      assert (es + [e])[1..] == es[1..] + [e];
      ItemTokensSnoc(es[1..], e);
    }
  }

  lemma {:induction false} AppendTokensSnoc(path: ReportPath, es: seq<Elem>, e: Elem)
    ensures AppendTokens(path, es + [e]) == AppendTokens(path, es) + [Head(path, true), Item(e), DataEnd, ReportEnd]
  {
    if es == [] {
      assert es + [e] == [e];
      assert AppendTokens(path, [e][1..]) == [];
    } else {
      assert (es + [e])[1..] == es[1..] + [e];
      AppendTokensSnoc(path, es[1..], e);
    }
  }

  // Bytes of the first report of a list without its items and closing bytes.
  function OpeningBytes(req: ReadRequest): nat {
    req.headBytes + ARRAY_OPEN_BYTES
  }

  // Bytes that a report carrying one appended item needs beyond the item itself.
  function AppendOverhead(req: ReadRequest): nat {
    req.headBytes + NULL_LIST_INDEX_BYTES + CONTEXT_TAG_BYTES + END_OF_ATTRIBUTE_REPORT_BYTES
  }

  // What one item costs beyond its size, and the tokens that a run of items becomes: bare items
  // inside the list that opens the attribute, one report per item after that.
  function Overhead(req: ReadRequest, initial: bool): nat {
    if initial then 0 else AppendOverhead(req)
  }

  function RunTokens(req: ReadRequest, initial: bool, es: seq<Elem>): seq<Token> {
    if initial then ItemTokens(es) else AppendTokens(req.path, es)
  }

  lemma RunTokensSnoc(req: ReadRequest, initial: bool, es: seq<Elem>, e: Elem)
    ensures RunTokens(req, initial, es + [e]) == RunTokens(req, initial, es) + RunTokens(req, initial, [e])
  {
    assert [e][1..] == [];
    if initial {
      ItemTokensSnoc(es, e);
      assert ItemTokens([e]) == [Item(e)];
    } else {
      AppendTokensSnoc(req.path, es, e);
      assert AppendTokens(req.path, [e]) == [Head(req.path, true), Item(e), DataEnd, ReportEnd];
    }
  }

  // `now` is `b` after the items start..c were written, and FitCount agrees so far.
  ghost predicate Progress(req: ReadRequest, initial: bool, es: seq<Elem>, start: nat, c: nat, b: Buffer<Token>, now: Buffer<Token>)
    requires start <= c <= |es|
  {
    var overhead := Overhead(req, initial);
    && Cost(es[start..c], overhead) <= b.remaining
    && FitCount(es[start..], overhead, b.remaining) == c - start + FitCount(es[c..], overhead, now.remaining)
    && now == b.(tokens := b.tokens + RunTokens(req, initial, es[start..c]), remaining := b.remaining - Cost(es[start..c], overhead))
  }

  lemma ProgressStart(req: ReadRequest, initial: bool, es: seq<Elem>, start: nat, b: Buffer<Token>)
    requires start <= |es|
    ensures Progress(req, initial, es, start, start, b, b)
  {
    assert es[start..start] == [];
    assert b.tokens + [] == b.tokens;
  }

  lemma FitCountStep(es: seq<Elem>, c: nat, overhead: nat, room: int)
    requires c < |es| && Size(es[c]) + overhead <= room
    ensures FitCount(es[c..], overhead, room) == 1 + FitCount(es[c + 1..], overhead, room - Size(es[c]) - overhead)
  {
    assert es[c..][0] == es[c] && es[c..][1..] == es[c + 1..];
  }

  lemma CostStep(es: seq<Elem>, start: nat, c: nat, overhead: nat)
    requires start <= c < |es|
    ensures Cost(es[start..c + 1], overhead) == Cost(es[start..c], overhead) + Size(es[c]) + overhead
  {
    CostSnoc(es[start..c], es[c], overhead);
    assert es[start..c + 1] == es[start..c] + [es[c]];
  }

  lemma RunTokensStep(req: ReadRequest, initial: bool, es: seq<Elem>, start: nat, c: nat, before: seq<Token>)
    requires start <= c < |es|
    ensures before + RunTokens(req, initial, es[start..c]) + RunTokens(req, initial, [es[c]])
         == before + RunTokens(req, initial, es[start..c + 1])
  {
    assert es[start..c + 1] == es[start..c] + [es[c]];
    RunTokensSnoc(req, initial, es[start..c], es[c]);
  }

  lemma ProgressStep(req: ReadRequest, initial: bool, es: seq<Elem>, start: nat, c: nat,
                     b: Buffer<Token>, now: Buffer<Token>, next: Buffer<Token>)
    requires start <= c < |es| && Progress(req, initial, es, start, c, b, now)
    requires Size(es[c]) + Overhead(req, initial) <= now.remaining
    requires next == now.(tokens := now.tokens + RunTokens(req, initial, [es[c]]),
                          remaining := now.remaining - Size(es[c]) - Overhead(req, initial))
    ensures Progress(req, initial, es, start, c + 1, b, next)
  {
    CostStep(es, start, c, Overhead(req, initial));
    FitCountStep(es, c, Overhead(req, initial), now.remaining);
    RunTokensStep(req, initial, es, start, c, b.tokens);
  }

  lemma ProgressStop(req: ReadRequest, initial: bool, es: seq<Elem>, start: nat, c: nat, b: Buffer<Token>, now: Buffer<Token>)
    requires start <= c <= |es| && Progress(req, initial, es, start, c, b, now)
    requires c == |es| || Size(es[c]) + Overhead(req, initial) > now.remaining
    ensures FitCount(es[start..], Overhead(req, initial), b.remaining) == c - start
  {
    assert c < |es| ==> es[c..][0] == es[c];
  }

  // ---------- the uint16_t index of items ----------

  // The index a saved state holds after n items were encoded.
  function IndexAfter(n: nat): nat {
    if n == 0 then 0 else Next16(IndexAfter(n - 1))
  }

  lemma {:induction false} IndexAfterIs(n: nat)
    ensures IndexAfter(n) == n % 0x1_0000
  {
    if n > 0 {
      IndexAfterIs(n - 1);
      Next16Of(n - 1);
    }
  }

  lemma Next16Of(m: nat)
    ensures Next16(m % 0x1_0000) == (m + 1) % 0x1_0000
  {
    var q, r := m / 0x1_0000, m % 0x1_0000;
    assert m == 0x1_0000 * q + r;
  }

  // The index counts the items exactly up to 65535 of them, and it is mistaken for the state of a
  // list that was never started exactly when the count is 65535 modulo 65536.
  lemma IndexAfterExact(n: nat)
    ensures IndexAfter(n) == n <==> n <= 0xFFFF
    ensures IndexAfter(n) == INVALID_LIST_INDEX <==> n % 0x1_0000 == 0xFFFF
    ensures IndexAfter(n) <= 0xFFFF
  {
    IndexAfterIs(n);
    var q, r := n / 0x1_0000, n % 0x1_0000;
    assert n == 0x1_0000 * q + r;
  }

  // ---------- encoding items ----------

  // The part of the encoder that encoding items changes.
  datatype Cursor = Cursor(currentIndex: nat, savedIndex: nat, encodedSome: bool, buf: Buffer<Token>)

  // What EncodeListItem does: skip an item of an earlier packet, write a whole item, or fail and
  // leave everything, the writer included, as it was.
  predicate ItemOutcome(req: ReadRequest, initial: bool, e: Elem, x: Cursor, y: Cursor, err: ChipError) {
    var cost := Size(e) + Overhead(req, initial);
    if x.currentIndex < x.savedIndex then
      err == NoError && y == x.(currentIndex := Next16(x.currentIndex))
    else if cost <= x.buf.remaining then
      && err == NoError
      && y == Cursor(Next16(x.currentIndex), Next16(x.savedIndex), true,
                     x.buf.(tokens := x.buf.tokens + RunTokens(req, initial, [e]), remaining := x.buf.remaining - cost))
    else
      err == NoMemory && y == x
  }

  // What ListEncodeHelper::Encode does: it rejects an item of an undefined fabric and drops one
  // that the fabric filter excludes.
  predicate HelperOutcome(req: ReadRequest, initial: bool, item: ListItem, x: Cursor, y: Cursor, err: ChipError) {
    if HasUndefinedFabric(item) then err == InvalidFabricIndex && y == x
    else if !Passes(req, item) then err == NoError && y == x
    else ItemOutcome(req, initial, item.value, x, y, err)
  }

  // After the first i items, c of them elements to deliver, have been offered without an error.
  ghost predicate Offered(req: ReadRequest, initial: bool, items: seq<ListItem>, first: nat, b: Buffer<Token>,
                          i: nat, c: nat, x: Cursor)
    requires i <= |items|
  {
    var es := Kept(req, items);
    var start := Min(first, |es|);
    && c <= |es| && es[c..] == Kept(req, items[i..])
    && (forall j :: 0 <= j < i ==> !HasUndefinedFabric(items[j]))
    && x.currentIndex == IndexAfter(c)
    && x.savedIndex == (if c <= first then first else IndexAfter(c))
    && x.encodedSome == (c > first)
    && (c <= start ==> x.buf == b)
    && (c >= start ==> Progress(req, initial, es, start, c, b, x.buf))
  }

  lemma OfferedStart(req: ReadRequest, initial: bool, items: seq<ListItem>, first: nat, b: Buffer<Token>)
    ensures Offered(req, initial, items, first, b, 0, 0, Cursor(0, first, false, b))
  {
    ProgressStart(req, initial, Kept(req, items), 0, b);
    assert items[0..] == items;
  }

  lemma KeptStep(req: ReadRequest, items: seq<ListItem>, i: nat, c: nat)
    requires i < |items| && c <= |Kept(req, items)| && Kept(req, items)[c..] == Kept(req, items[i..])
    requires !HasUndefinedFabric(items[i])
    ensures var es := Kept(req, items);
            if Passes(req, items[i])
            then c < |es| && es[c] == items[i].value && es[c + 1..] == Kept(req, items[i + 1..])
            else es[c..] == Kept(req, items[i + 1..])
  {
    var es := Kept(req, items);
    assert items[i..][0] == items[i] && items[i..][1..] == items[i + 1..];
    if Passes(req, items[i]) {
      assert es[c] == es[c..][0];
      assert es[c + 1..] == es[c..][1..];
    }
  }

  // Before the resume point the item is skipped, from there on it is encoded.
  lemma SkipsOrEncodes(c: nat, first: nat)
    requires first <= 0xFFFF
    ensures IndexAfter(c) < (if c <= first then first else IndexAfter(c)) <==> c < first
    ensures IndexAfter(first) == first && Next16(IndexAfter(c)) == IndexAfter(c + 1)
  {
    IndexAfterExact(c);
    IndexAfterExact(first);
  }

  lemma OfferedStep(req: ReadRequest, initial: bool, items: seq<ListItem>, first: nat, b: Buffer<Token>,
                    i: nat, c: nat, x: Cursor, y: Cursor) returns (d: nat)
    requires i < |items| && Offered(req, initial, items, first, b, i, c, x)
    requires HelperOutcome(req, initial, items[i], x, y, NoError) && first <= 0xFFFF
    ensures Offered(req, initial, items, first, b, i + 1, d, y)
  {
    KeptStep(req, items, i, c);
    if !Passes(req, items[i]) {
      return c;
    }
    d := c + 1;
    SkipsOrEncodes(c, first);
    if c >= first {
      ItemEncoded(req, initial, items, first, b, i, c, x, y);
      return;
    }
    ItemSkipped(req, initial, items, first, b, i, c, x, y);
  }

  lemma ItemEncoded(req: ReadRequest, initial: bool, items: seq<ListItem>, first: nat, b: Buffer<Token>,
                    i: nat, c: nat, x: Cursor, y: Cursor)
    requires i < |items| && Offered(req, initial, items, first, b, i, c, x) && c >= first
    requires c < |Kept(req, items)| && Kept(req, items)[c] == items[i].value && Kept(req, items)[c + 1..] == Kept(req, items[i + 1..])
    requires !HasUndefinedFabric(items[i]) && ItemOutcome(req, initial, items[i].value, x, y, NoError)
    requires x.currentIndex == x.savedIndex && Next16(IndexAfter(c)) == IndexAfter(c + 1)
    ensures Offered(req, initial, items, first, b, i + 1, c + 1, y)
  {
    var es := Kept(req, items);
    ProgressStep(req, initial, es, Min(first, |es|), c, b, x.buf, y.buf);
  }

  lemma ItemSkipped(req: ReadRequest, initial: bool, items: seq<ListItem>, first: nat, b: Buffer<Token>,
                    i: nat, c: nat, x: Cursor, y: Cursor)
    requires i < |items| && Offered(req, initial, items, first, b, i, c, x) && c < first
    requires c < |Kept(req, items)| && Kept(req, items)[c + 1..] == Kept(req, items[i + 1..])
    requires !HasUndefinedFabric(items[i]) && y == x.(currentIndex := Next16(x.currentIndex)) && Next16(IndexAfter(c)) == IndexAfter(c + 1)
    ensures Offered(req, initial, items, first, b, i + 1, c + 1, y)
  {
    var es := Kept(req, items);
    if c + 1 == Min(first, |es|) {
      ProgressStart(req, initial, es, c + 1, b);
    }
  }

  // The state in which the generator stops, on an error at item i or at the end of the list.
  ghost predicate Generated(req: ReadRequest, initial: bool, items: seq<ListItem>, first: nat, b: Buffer<Token>,
                            y: Cursor, err: ChipError)
  {
    var es := Kept(req, items);
    var start := Min(first, |es|);
    var k := FitCount(es[start..], Overhead(req, initial), b.remaining);
    && err == EncodeResult(start + k == |es|, Broken(items))
    && y.savedIndex == IndexAfter(first + k)
    && y.encodedSome == (k > 0)
    && Progress(req, initial, es, start, start + k, b, y.buf)
  }

  lemma OfferedAtStop(req: ReadRequest, initial: bool, items: seq<ListItem>, first: nat, b: Buffer<Token>, i: nat, c: nat, x: Cursor)
    requires i <= |items| && Offered(req, initial, items, first, b, i, c, x) && IndexAfter(first) == first
    requires c == |Kept(req, items)| || c >= first
    ensures var es := Kept(req, items);
            var start := Min(first, |es|);
            && start <= c <= |es| && Progress(req, initial, es, start, c, b, x.buf)
            && x.savedIndex == IndexAfter(first + (c - start)) && x.encodedSome == (c > start)
  {
    var es := Kept(req, items);
    if c < first {
      assert Min(first, |es|) == c && first + (c - c) == first;
      return;
    }
    assert Min(first, |es|) == first && first + (c - first) == c;
  }

  // The generator stops with every element offered, or with one that does not fit.
  lemma GeneratedStop(req: ReadRequest, initial: bool, items: seq<ListItem>, first: nat, b: Buffer<Token>, start: nat, c: nat, x: Cursor)
    requires var es := Kept(req, items);
             && start == Min(first, |es|) && start <= c <= |es| && Progress(req, initial, es, start, c, b, x.buf)
             && (c == |es| || Size(es[c]) + Overhead(req, initial) > x.buf.remaining)
    requires x.savedIndex == IndexAfter(first + (c - start)) && x.encodedSome == (c > start)
    ensures Generated(req, initial, items, first, b, x, EncodeResult(c == |Kept(req, items)|, Broken(items)))
  {
    var es := Kept(req, items);
    ProgressStop(req, initial, es, start, c, b, x.buf);
    assert start + FitCount(es[start..], Overhead(req, initial), b.remaining) == c;
  }

  lemma ErrorMeans(req: ReadRequest, initial: bool, items: seq<ListItem>, first: nat, b: Buffer<Token>,
                   i: nat, c: nat, x: Cursor, y: Cursor, err: ChipError)
    requires i < |items| && Offered(req, initial, items, first, b, i, c, x)
    requires err != NoError && HelperOutcome(req, initial, items[i], x, y, err) && first <= 0xFFFF
    ensures var es := Kept(req, items);
            && y == x && err == EncodeResult(c == |es|, Broken(items))
            && (c == |es| || (c >= first && Size(es[c]) + Overhead(req, initial) > x.buf.remaining))
  {
    if HasUndefinedFabric(items[i]) {
      assert items[i..][0] == items[i];
      assert Broken(items) && c == |Kept(req, items)|;
      return;
    }
    SkipsOrEncodes(c, first);
    KeptStep(req, items, i, c);
  }

  lemma GeneratedAtError(req: ReadRequest, initial: bool, items: seq<ListItem>, first: nat, b: Buffer<Token>,
                         i: nat, c: nat, x: Cursor, y: Cursor, err: ChipError)
    requires i < |items| && Offered(req, initial, items, first, b, i, c, x)
    requires err != NoError && HelperOutcome(req, initial, items[i], x, y, err) && first <= 0xFFFF
    ensures Generated(req, initial, items, first, b, y, err)
  {
    ErrorMeans(req, initial, items, first, b, i, c, x, y, err);
    SkipsOrEncodes(c, first);
    OfferedAtStop(req, initial, items, first, b, i, c, x);
    GeneratedStop(req, initial, items, first, b, Min(first, |Kept(req, items)|), c, x);
  }

  lemma GeneratedAtEnd(req: ReadRequest, initial: bool, items: seq<ListItem>, first: nat, b: Buffer<Token>, c: nat, x: Cursor)
    requires Offered(req, initial, items, first, b, |items|, c, x) && first <= 0xFFFF
    ensures Generated(req, initial, items, first, b, x, NoError)
  {
    SkipsOrEncodes(c, first);
    assert c == |Kept(req, items)| && !Broken(items);
    OfferedAtStop(req, initial, items, first, b, |items|, c, x);
    GeneratedStop(req, initial, items, first, b, Min(first, |Kept(req, items)|), c, x);
  }

  function EncodeResult(encodedAll: bool, broken: bool): ChipError {
    if !encodedAll then NoMemory else if broken then InvalidFabricIndex else NoError
  }

  // What the first EncodeList call for an attribute does, when opening the list fits: (s', b') is
  // the state and buffer it leaves.
  ghost predicate FirstOutcome(req: ReadRequest, es: seq<Elem>, broken: bool, b: Buffer<Token>,
                               s': EncodeState, b': Buffer<Token>, err: ChipError)
  {
    var k := FitCount(es, 0, b.remaining - OpeningBytes(req) - CLOSING_BYTES);
    && err == EncodeResult(k == |es|, broken)
    && s' == (if err == NoError then FRESH_STATE else EncodeState(k > 0, IndexAfter(k)))
    && b'.tokens == b.tokens + ListTokens(req.path, es[..k])
    && b'.torn == b.torn && b'.reserved == b.reserved
    && b'.remaining == b.remaining - OpeningBytes(req) - CLOSING_BYTES - Cost(es[..k], 0)
  }

  // What a later call does: it continues after the items of the saved state.
  ghost predicate ResumedOutcome(req: ReadRequest, es: seq<Elem>, broken: bool, s: EncodeState, b: Buffer<Token>,
                                 s': EncodeState, b': Buffer<Token>, err: ChipError)
  {
    var start := Min(s.listIndex, |es|);
    var k := FitCount(es[start..], AppendOverhead(req), b.remaining);
    && err == EncodeResult(start + k == |es|, broken)
    && s' == (if err == NoError then FRESH_STATE else EncodeState(true, IndexAfter(s.listIndex + k)))
    && b'.tokens == b.tokens + AppendTokens(req.path, es[start..start + k])
    && b'.torn == b.torn && b'.reserved == b.reserved
    && b'.remaining == b.remaining - Cost(es[start..start + k], AppendOverhead(req))
  }

  // What one EncodeList call does to the writer and to the saved state: `es` are the elements to
  // deliver, (s, b) the state and buffer before, (s', b') after.
  ghost predicate EncodeListOutcome(req: ReadRequest, es: seq<Elem>, broken: bool,
                                    s: EncodeState, b: Buffer<Token>,
                                    s': EncodeState, b': Buffer<Token>, err: ChipError)
  {
    if s.listIndex != INVALID_LIST_INDEX then
      ResumedOutcome(req, es, broken, s, b, s', b', err)
    else if b.remaining < OpeningBytes(req) + CLOSING_BYTES then
      err == NoMemory && s' == FRESH_STATE
    else
      FirstOutcome(req, es, broken, b, s', b', err)
  }

  lemma GeneratedFirst(req: ReadRequest, items: seq<ListItem>, b: Buffer<Token>, inner: Buffer<Token>,
                       y: Cursor, err: ChipError, s': EncodeState, b': Buffer<Token>)
    requires Generated(req, true, items, 0, inner, y, err)
    requires OpeningBytes(req) + CLOSING_BYTES <= b.remaining
    requires inner == b.(tokens := b.tokens + [Head(req.path, false), ArrayOpen],
                         remaining := b.remaining - OpeningBytes(req) - CLOSING_BYTES,
                         reserved := b.reserved + CLOSING_BYTES)
    requires b' == y.buf.(tokens := y.buf.tokens + [ArrayClose, DataEnd, ReportEnd], reserved := b.reserved)
    requires s' == if err == NoError then FRESH_STATE else EncodeState(y.encodedSome, y.savedIndex)
    ensures FirstOutcome(req, Kept(req, items), Broken(items), b, s', b', err)
  {
    var es := Kept(req, items);
    assert es[0..] == es;
    var k := FitCount(es, 0, inner.remaining);
    assert es[0..0 + k] == es[..k];
    assert b.tokens + [Head(req.path, false), ArrayOpen] + ItemTokens(es[..k]) + [ArrayClose, DataEnd, ReportEnd]
        == b.tokens + ListTokens(req.path, es[..k]);
  }

  lemma GeneratedResumed(req: ReadRequest, items: seq<ListItem>, s: EncodeState, b: Buffer<Token>,
                         y: Cursor, err: ChipError, s': EncodeState)
    requires Generated(req, false, items, s.listIndex, b, y, err)
    requires s' == if err == NoError then FRESH_STATE else EncodeState(true, y.savedIndex)
    ensures ResumedOutcome(req, Kept(req, items), Broken(items), s, b, s', y.buf, err)
  {
  }

  class AttributeValueEncoder {
    const req: ReadRequest
    const writer: Writer<Token>
    var triedEncode: bool
    var listOp: ListOp
    var encodingInitialList: bool
    var encodedAtLeastOneListItem: bool
    var encodeState: EncodeState
    var currentIndex: nat

    constructor (req: ReadRequest, writer: Writer<Token>, state: EncodeState)
      ensures this.req == req && this.writer == writer
      ensures encodeState == state && currentIndex == INVALID_LIST_INDEX
      ensures !triedEncode && !encodingInitialList && !encodedAtLeastOneListItem && listOp == NotList
    {
      this.req := req;
      this.writer := writer;
      triedEncode := false;
      listOp := NotList;
      encodingInitialList := false;
      encodedAtLeastOneListItem := false;
      encodeState := state;
      currentIndex := INVALID_LIST_INDEX;
    }

    ghost function GetCursor(): Cursor
      reads this, writer
    {
      Cursor(currentIndex, encodeState.listIndex, encodedAtLeastOneListItem, writer.buf)
    }

    // Opens a report: path and data version, with a null list index for an append.
    method PrepareAttribute() returns (err: ChipError)
      modifies writer
      ensures var cost := req.headBytes + if listOp.AppendItem? then NULL_LIST_INDEX_BYTES else 0;
              var b := old(writer.buf);
              if cost <= b.remaining
              then err == NoError && writer.buf == b.(tokens := b.tokens + [Head(req.path, listOp.AppendItem?)],
                                                      remaining := b.remaining - cost)
              else err == NoMemory
    {
      err := writer.Put(Head(req.path, listOp.AppendItem?),
                        req.headBytes + if listOp.AppendItem? then NULL_LIST_INDEX_BYTES else 0);
    }

    method FinishAttribute() returns (err: ChipError)
      modifies writer
      ensures var b := old(writer.buf);
              if END_OF_ATTRIBUTE_REPORT_BYTES <= b.remaining
              then err == NoError && writer.buf == b.(tokens := b.tokens + [DataEnd, ReportEnd],
                                                      remaining := b.remaining - END_OF_ATTRIBUTE_REPORT_BYTES)
              else err == NoMemory
    {
      err := writer.Put(DataEnd, 1);
      if err != NoError {
        return;
      }
      ghost var mid := writer.buf.tokens;
      err := writer.Put(ReportEnd, 1);
      assert mid + [ReportEnd] == old(writer.buf.tokens) + [DataEnd, ReportEnd];
    }

    // One complete report holding a single value.
    method EncodeAttributeReportIB(e: Elem) returns (err: ChipError)
      requires listOp.AppendItem?
      modifies writer
      ensures var b := old(writer.buf);
              if Size(e) + AppendOverhead(req) <= b.remaining
              then err == NoError && writer.buf == b.(tokens := b.tokens + [Head(req.path, true), Item(e), DataEnd, ReportEnd],
                                                      remaining := b.remaining - Size(e) - AppendOverhead(req))
              else err == NoMemory
    {
      ghost var b := writer.buf;
      err := PrepareAttribute();
      if err != NoError {
        return;
      }
      err := writer.Put(Item(e), CONTEXT_TAG_BYTES + Size(e));
      if err != NoError {
        return;
      }
      err := FinishAttribute();
      assert b.tokens + [Head(req.path, true)] + [Item(e)] + [DataEnd, ReportEnd]
          == b.tokens + [Head(req.path, true), Item(e), DataEnd, ReportEnd];
    }

    // Readies the encoder for the items. A failed start leaves a state that says nothing was
    // encoded; a successful first start has reserved the closing bytes.
    method EnsureListStarted() returns (err: ChipError)
      requires currentIndex == INVALID_LIST_INDEX
      modifies this, writer
      ensures triedEncode == old(triedEncode) && encodedAtLeastOneListItem == old(encodedAtLeastOneListItem)
      ensures encodingInitialList == (old(encodeState.listIndex) == INVALID_LIST_INDEX)
      ensures var b := old(writer.buf);
              if !encodingInitialList then
                && err == NoError
                && writer.buf == b
                && encodeState == EncodeState(true, old(encodeState.listIndex))
                && listOp == AppendItem
              else if b.remaining < OpeningBytes(req) + CLOSING_BYTES then
                err == NoMemory && encodeState == FRESH_STATE
              else
                && err == NoError
                && encodeState == EncodeState(true, 0)
                && listOp == ReplaceAll
                && writer.buf == b.(tokens := b.tokens + [Head(req.path, false), ArrayOpen],
                                    remaining := b.remaining - OpeningBytes(req) - CLOSING_BYTES,
                                    reserved := b.reserved + CLOSING_BYTES)
      ensures err == NoError ==> currentIndex == 0
    {
      ghost var b := writer.buf;
      encodingInitialList := encodeState.listIndex == INVALID_LIST_INDEX;
      if encodingInitialList {
        encodeState := encodeState.(allowPartialData := false);
        listOp := ReplaceAll;
        err := PrepareAttribute();
        if err != NoError {
          return;
        }
        err := writer.Put(ArrayOpen, ARRAY_OPEN_BYTES);
        if err != NoError {
          return;
        }
        assert b.tokens + [Head(req.path, false)] + [ArrayOpen] == b.tokens + [Head(req.path, false), ArrayOpen];
        err := writer.ReserveBuffer(END_OF_ATTRIBUTE_REPORT_BYTES + END_OF_LIST_BYTES);
        if err != NoError {
          return;
        }
        encodeState := encodeState.(listIndex := 0);
      } else {
        listOp := AppendItem;
        err := NoError;
      }
      currentIndex := 0;
      encodeState := encodeState.(allowPartialData := true);
    }

    // Writes one item or leaves the writer exactly as it was.
    method EncodeListItem(e: Elem) returns (err: ChipError)
      requires !encodingInitialList ==> listOp.AppendItem?
      modifies this, writer
      ensures triedEncode == old(triedEncode) && listOp == old(listOp) && encodingInitialList == old(encodingInitialList)
      ensures encodeState.allowPartialData == old(encodeState.allowPartialData)
      ensures ItemOutcome(req, encodingInitialList, e, old(GetCursor()), GetCursor(), err)
    {
      if currentIndex < encodeState.listIndex {
        currentIndex := Next16(currentIndex);
        return NoError;
      }
      var backup := writer.Checkpoint();
      if encodingInitialList {
        err := writer.Put(Item(e), Size(e));
      } else {
        err := EncodeAttributeReportIB(e);
      }
      if err != NoError {
        writer.Rollback(backup);
        return;
      }
      assert ItemTokens([e]) == [Item(e)] && AppendTokens(req.path, [e]) == [Head(req.path, true), Item(e), DataEnd, ReportEnd] by {
        assert [e][1..] == [];
      }
      currentIndex := Next16(currentIndex);
      encodeState := encodeState.(listIndex := Next16(encodeState.listIndex));
      encodedAtLeastOneListItem := true;
    }

    // ListEncodeHelper::Encode
    method HelperEncode(item: ListItem) returns (err: ChipError)
      requires !encodingInitialList ==> listOp.AppendItem?
      modifies this, writer
      ensures triedEncode == old(triedEncode) && listOp == old(listOp) && encodingInitialList == old(encodingInitialList)
      ensures encodeState.allowPartialData == old(encodeState.allowPartialData)
      ensures HelperOutcome(req, encodingInitialList, item, old(GetCursor()), GetCursor(), err)
    {
      if item.fabric.Some? && item.fabric.value == UNDEFINED_FABRIC_INDEX {
        return InvalidFabricIndex;
      }
      if item.fabric.Some? && req.fabricFiltered && item.fabric.value != req.accessingFabric {
        return NoError;
      }
      err := EncodeListItem(item.value);
    }

    // The list generator of EncodeList: offers the items one by one and stops at the first error.
    method GenerateItems(items: seq<ListItem>) returns (err: ChipError)
      requires currentIndex == 0
      requires encodeState.listIndex <= 0xFFFF
      requires !encodingInitialList ==> listOp.AppendItem?
      requires !encodedAtLeastOneListItem
      modifies this, writer
      ensures triedEncode == old(triedEncode) && listOp == old(listOp) && encodingInitialList == old(encodingInitialList)
      ensures encodeState.allowPartialData == old(encodeState.allowPartialData)
      ensures Generated(req, encodingInitialList, items, old(encodeState.listIndex), old(writer.buf), GetCursor(), err)
    {
      ghost var b, first := writer.buf, encodeState.listIndex;
      ghost var c := 0;
      var i := 0;
      OfferedStart(req, encodingInitialList, items, first, b);
      while i < |items|
        invariant 0 <= i <= |items|
        invariant triedEncode == old(triedEncode) && listOp == old(listOp) && encodingInitialList == old(encodingInitialList)
        invariant encodeState.allowPartialData == old(encodeState.allowPartialData)
        invariant Offered(req, encodingInitialList, items, first, b, i, c, GetCursor())
      {
        err, c := OfferItem(items, i, first, b, c);
        if err != NoError {
          return;
        }
        i := i + 1;
      }
      GeneratedAtEnd(req, encodingInitialList, items, first, b, c, GetCursor());
      err := NoError;
    }

    // The body of the loop above.
    method OfferItem(items: seq<ListItem>, i: nat, ghost first: nat, ghost b: Buffer<Token>, ghost c: nat) returns (err: ChipError, ghost d: nat)
      requires i < |items| && first <= 0xFFFF
      requires !encodingInitialList ==> listOp.AppendItem?
      requires Offered(req, encodingInitialList, items, first, b, i, c, GetCursor())
      modifies this, writer
      ensures triedEncode == old(triedEncode) && listOp == old(listOp) && encodingInitialList == old(encodingInitialList)
      ensures encodeState.allowPartialData == old(encodeState.allowPartialData)
      ensures err == NoError ==> Offered(req, encodingInitialList, items, first, b, i + 1, d, GetCursor())
      ensures err != NoError ==> Generated(req, encodingInitialList, items, first, b, GetCursor(), err)
    {
      ghost var x := GetCursor();
      err := HelperEncode(items[i]);
      if err != NoError {
        GeneratedAtError(req, encodingInitialList, items, first, b, i, c, x, GetCursor(), err);
        d := c;
        return;
      }
      d := OfferedStep(req, encodingInitialList, items, first, b, i, c, x, GetCursor());
    }

    // Closes the first report of a list. The bytes were reserved, so no step of it can fail.
    method EnsureListEnded()
      requires encodingInitialList ==> writer.buf.reserved >= CLOSING_BYTES
      modifies this, writer
      ensures triedEncode == old(triedEncode) && listOp == old(listOp) && encodingInitialList == old(encodingInitialList)
      ensures currentIndex == old(currentIndex) && encodedAtLeastOneListItem == old(encodedAtLeastOneListItem)
      ensures encodeState == if encodingInitialList && !encodedAtLeastOneListItem
                             then old(encodeState).(allowPartialData := false) else old(encodeState)
      ensures var b := old(writer.buf);
              writer.buf == if encodingInitialList
                            then b.(tokens := b.tokens + [ArrayClose, DataEnd, ReportEnd], reserved := b.reserved - CLOSING_BYTES)
                            else b
    {
      if !encodingInitialList {
        return;
      }
      ghost var b := writer.buf;
      var err := writer.UnreserveBuffer(END_OF_LIST_BYTES + END_OF_ATTRIBUTE_REPORT_BYTES);
      assert err == NoError;
      err := writer.Put(ArrayClose, END_OF_LIST_BYTES);
      assert err == NoError;
      err := FinishAttribute();
      assert err == NoError;
      assert b.tokens + [ArrayClose] + [DataEnd, ReportEnd] == b.tokens + [ArrayClose, DataEnd, ReportEnd];
      if !encodedAtLeastOneListItem {
        encodeState := encodeState.(allowPartialData := false);
      }
    }

    // Encodes `items` through the list generator, resuming from the saved state.
    method EncodeList(items: seq<ListItem>) returns (err: ChipError)
      requires currentIndex == INVALID_LIST_INDEX && !encodedAtLeastOneListItem
      requires encodeState.listIndex <= 0xFFFF
      modifies this, writer
      ensures triedEncode
      ensures EncodeListOutcome(req, Kept(req, items), Broken(items), old(encodeState), old(writer.buf), encodeState, writer.buf, err)
    {
      ghost var s, b := encodeState, writer.buf;
      triedEncode := true;
      err := EnsureListStarted();
      if err != NoError {
        return;
      }
      ghost var inner := writer.buf;
      err := GenerateItems(items);
      ghost var y := GetCursor();
      EnsureListEnded();
      if err == NoError {
        encodeState := FRESH_STATE;
      }
      if s.listIndex == INVALID_LIST_INDEX {
        GeneratedFirst(req, items, b, inner, y, err, encodeState, writer.buf);
      } else {
        GeneratedResumed(req, items, s, b, y, err, encodeState);
      }
    }
  }
}
