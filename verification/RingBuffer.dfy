/** RingBuffer.h, at its only instantiation: a ring of Splits. Indices are unsigned 32-bit
    window ids; a slot is the id modulo the buffer size. */
module Ring {
  import opened Bytes
  import opened Splits

  // What getTotal adds up: the cached totals of lens slots from window begin on.
  ghost function SpanTotal(slots: seq<Split>, begin: int, lens: nat): nat
    requires slots != []
  {
    if lens == 0 then 0
    else SpanTotal(slots, begin, lens - 1) + slots[U32(begin + lens - 1) % |slots|].total
  }

  lemma {:induction false} SpanOfOne(slots: seq<Split>, w: u32)
    requires slots != []
    ensures SpanTotal(slots, w, 1) == slots[w % |slots|].total
  {
    assert SpanTotal(slots, w, 0) == 0;
    assert U32(w + 1 - 1) == w;
  }

  class RingBuffer {
    const bufferSize: u32
    const windowSize: u32
    const buffer: array<Split>
    var currentSize: u32
    var head: u32
    var tail: u32

    ghost predicate Valid()
      reads this
    {
      buffer.Length == bufferSize && bufferSize > 0
    }

    constructor (bufferSize: u32, windowSize: u32)
      requires bufferSize > 0
      ensures Valid() && fresh(buffer)
      ensures this.bufferSize == bufferSize && this.windowSize == windowSize
      ensures head == tail == currentSize == 0
      ensures forall i | 0 <= i < buffer.Length :: buffer[i] == EMPTY
    {
      this.bufferSize := bufferSize;
      this.windowSize := windowSize;
      buffer := new Split[bufferSize](_ => EMPTY);
      head, tail, currentSize := 0, 0, 0;
    }

    method PutData(data: Split) returns (at: u32)
      requires Valid()
      modifies this, buffer
      ensures at == old(tail)
      ensures buffer[..] == old(buffer[..])[old(tail) % bufferSize := data]
      ensures tail == U32(old(tail) + 1)
      ensures var grown := U32(old(currentSize) + 1);
              if grown <= windowSize then currentSize == grown && head == old(head)
              else currentSize == grown - 1 && head == U32(old(head) + 1)
    {
      at := tail;
      buffer[tail % bufferSize] := data;
      currentSize := U32(currentSize + 1);
      tail := U32(tail + 1);
      if currentSize > windowSize {
        head := U32(head + 1);
        currentSize := U32(currentSize - 1);
      }
    }

    method GetData(index: u32) returns (data: Split)
      requires Valid()
      ensures data == buffer[index % bufferSize]
    {
      data := buffer[index % bufferSize];
    }

    method GetTotal(begin: u32, lens: u32) returns (sum: Split)
      requires Valid()
      ensures sum == Split(map[], U32(SpanTotal(buffer[..], begin, lens)))
    {
      sum := EMPTY;
      for i := 0 to lens
        invariant sum == Split(map[], U32(SpanTotal(buffer[..], begin, i)))
      {
        var slot := U32(begin + i) % bufferSize;
        U32Add(SpanTotal(buffer[..], begin, i), buffer[slot].total);
        sum := sum.Plus(buffer[slot]);
      }
    }

    predicate AheadOfHead(index: u32)
      reads this
    {
      index < head
    }

    predicate AheadOfTail(index: u32)
      reads this
    {
      index < tail
    }

    method UpdateData(index: u32, data: Split)
      requires Valid()
      modifies buffer
      ensures buffer[..] == old(buffer[..])[index % bufferSize := data]
    {
      buffer[index % bufferSize] := data;
    }

    method UpdateHeadTail(newHead: u32)
      modifies this
      ensures head == tail == newHead && currentSize == 0
    {
      head := newHead;
      tail := head;
      currentSize := 0;
    }
  }
}
