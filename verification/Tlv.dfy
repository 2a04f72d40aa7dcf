// TLV elements as values with a size, and the TLV writer as a byte budget.

module Tlv {
  import opened Core

  // A TLV element under an anonymous tag. A leaf stands for any element that is not an
  // array; `bytes` is its whole encoded length.
  datatype Elem = Leaf(content: int, bytes: nat) | Array(items: seq<Elem>)

  const CONTAINER_START_BYTES := 1
  const CONTAINER_END_BYTES := 1
  const CONTEXT_TAG_BYTES := 1

  function Size(e: Elem): nat {
    match e
    case Leaf(_, n) => n
    case Array(items) => CONTAINER_START_BYTES + SizeAll(items) + CONTAINER_END_BYTES
  }

  function SizeAll(es: seq<Elem>): nat {
    if es == [] then 0 else Size(es[0]) + SizeAll(es[1..])
  }

  lemma {:induction false} SizeAllSplit(xs: seq<Elem>, ys: seq<Elem>)
    ensures SizeAll(xs + ys) == SizeAll(xs) + SizeAll(ys)
  {
    if xs == [] {
      assert xs + ys == ys;
    } else {
      assert (xs + ys)[1..] == xs[1..] + ys;
      SizeAllSplit(xs[1..], ys);
    }
  }

  // The writer's copyable state. `torn` records that some element was cut off by the end of
  // the buffer, so the bytes written so far cannot be sent as they are.
  datatype Buffer<T> = Buffer(tokens: seq<T>, torn: bool, remaining: nat, reserved: nat)

  class Writer<T> {
    var buf: Buffer<T>

    constructor (initial: Buffer<T>)
      ensures buf == initial
    {
      buf := initial;
    }

    // Writes one element; when it does not fit, as much of it as fits is still written.
    method Put(t: T, size: nat) returns (err: ChipError)
      modifies this
      ensures size <= old(buf.remaining) ==>
                err == NoError &&
                buf == old(buf).(tokens := old(buf.tokens) + [t], remaining := old(buf.remaining) - size)
      ensures size > old(buf.remaining) ==>
                err == NoMemory && buf == old(buf).(torn := true, remaining := 0)
    {
      if size <= buf.remaining {
        buf := buf.(tokens := buf.tokens + [t], remaining := buf.remaining - size);
        err := NoError;
      } else {
        buf := buf.(torn := true, remaining := 0);
        err := NoMemory;
      }
    }

    method ReserveBuffer(n: nat) returns (err: ChipError)
      modifies this
      ensures n <= old(buf.remaining) ==>
                err == NoError &&
                buf == old(buf).(remaining := old(buf.remaining) - n, reserved := old(buf.reserved) + n)
      ensures n > old(buf.remaining) ==> err == NoMemory && buf == old(buf)
    {
      if buf.remaining < n {
        return NoMemory;
      }
      buf := buf.(remaining := buf.remaining - n, reserved := buf.reserved + n);
      err := NoError;
    }

    method UnreserveBuffer(n: nat) returns (err: ChipError)
      modifies this
      ensures n <= old(buf.reserved) ==>
                err == NoError &&
                buf == old(buf).(remaining := old(buf.remaining) + n, reserved := old(buf.reserved) - n)
      ensures n > old(buf.reserved) ==> err == NoMemory && buf == old(buf)
    {
      if buf.reserved < n {
        return NoMemory;
      }
      buf := buf.(remaining := buf.remaining + n, reserved := buf.reserved - n);
      err := NoError;
    }

    method Checkpoint() returns (backup: Buffer<T>)
      ensures backup == buf
    {
      backup := buf;
    }

    method Rollback(backup: Buffer<T>)
      modifies this
      ensures buf == backup
    {
      buf := backup;
    }
  }
}
