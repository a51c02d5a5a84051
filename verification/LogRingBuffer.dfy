/** EirLogRing of kernel/eir/generic/log-ring.cpp over a byte array. */
module LogRingBuffer {
  import opened Common
  import opened LogRing
  import opened Sequences

  datatype Record = Record(nextPtr: nat, size: nat)

  /** The payloads as a reader with a buffer of maxSize bytes sees them. */
  function Truncated(records: seq<Payload>, maxSize: nat): (r: seq<Payload>)
    ensures |r| == |records|
    ensures forall i :: 0 <= i < |r| ==> r[i] == records[i][..Min(|records[i]|, maxSize)]
  {
    seq(|records|, i requires 0 <= i < |records| => records[i][..Min(|records[i]|, maxSize)])
  }

  lemma TruncatedSuffix(records: seq<Payload>, k: nat, maxSize: nat)
    requires k <= |records|
    ensures Truncated(records[k..], maxSize) == Truncated(records, maxSize)[k..|records|]
  {
  }

  /** memcpy() into a region of the array. */
  method CopyInto(dst: array<byte>, at: nat, bytes: seq<byte>)
    requires at + |bytes| <= dst.Length
    modifies dst
    ensures dst[..] == Put(old(dst[..]), at, bytes)
  {
    var i := 0;
    while i < |bytes|
      invariant 0 <= i <= |bytes|
      invariant dst[..] == Put(old(dst[..]), at, bytes[..i])
    {
      dst[at + i] := bytes[i];
      i := i + 1;
    }
    assert bytes[..i] == bytes;
  }

  class EirLogRing {
    const buffer: array<byte>
    var tailPtr: nat
    var headPtr: nat
    /** Everything that was ever enqueued. */
    ghost var history: seq<Payload>

    /** The records that are still in the ring. */
    ghost function Live(): seq<Payload>
      reads this
    {
      Kept(history, buffer.Length)
    }

    /** Pointers count the bytes of all records before them. */
    ghost predicate Valid()
      reads this, buffer
    {
      buffer.Length > 0 && RingOk(buffer[..], tailPtr, headPtr, Live()) && headPtr == Total(history)
    }

    /** The pointer of the record with index j of the history. */
    ghost function Pointer(j: nat): nat
      requires j <= |history|
      reads this
    {
      Total(history[..j])
    }

    constructor (size: nat)
      requires IsPowerOfTwo(size) && WORD <= size < Bound(WORD)
      ensures Valid() && fresh(buffer) && buffer.Length == size && history == []
    {
      PowersAreAligned(size);
      buffer := new byte[size];
      tailPtr, headPtr, history := 0, 0, [];
    }

    /** The size in the header of the record at `ptr`, whose record is the first of `records`. */
    method ReadSize(ptr: nat, ghost records: seq<Payload>) returns (size: nat)
      requires 0 < buffer.Length < Bound(WORD) && buffer.Length % WORD == 0 && ptr % WORD == 0
      requires records != [] && Layout(buffer[..], ptr, records) && Total(records) <= buffer.Length
      ensures size == |records[0]| && Offset(ptr, buffer.Length) + WORD <= buffer.Length
    {
      AlignedOffset(ptr, buffer.Length);
      var offset := Offset(ptr, buffer.Length);
      ReadHeader(buffer[..], ptr, offset, EncodeWord(|records[0]|, WORD), records[0]);
      assert buffer[..][offset..offset + WORD] == buffer[offset..offset + WORD];
      WordRoundTrip(|records[0]|, WORD);
      size := DecodeWord(buffer[offset..offset + WORD]);
    }

    /** Drop the oldest records until the new one fits. */
    method Invalidate(payload: Payload) returns (invalPtr: nat, ghost kept: seq<Payload>)
      requires Valid() && EffectiveSize(|payload|) <= buffer.Length
      ensures RingOk(buffer[..], invalPtr, headPtr, kept)
      ensures headPtr + EffectiveSize(|payload|) <= invalPtr + buffer.Length
      ensures kept + [payload] == Kept(history + [payload], buffer.Length)
    {
      ghost var live, k := Live(), 0;
      invalPtr, kept := tailPtr, live;
      assert live[0..] == live;
      while invalPtr + buffer.Length < headPtr + WORD + |payload|
        invariant k <= |live| && kept == live[k..] && RingOk(buffer[..], invalPtr, headPtr, kept)
        invariant k > 0 ==> Total(live[k - 1..]) + EffectiveSize(|payload|) > buffer.Length
        decreases |kept|
      {
        UnroundedTest(invalPtr, headPtr, buffer.Length, |payload|);
        assert kept != [];
        var tailSize := ReadSize(invalPtr, kept);
        DropOldest(buffer[..], invalPtr, headPtr, kept);
        invalPtr, k, kept := invalPtr + EffectiveSize(tailSize), k + 1, kept[1..];
        assert live[k - 1..][1..] == live[k..];
      }
      UnroundedTest(invalPtr, headPtr, buffer.Length, |payload|);
      KeptAppend(live, payload, buffer.Length, k);
      KeptTwice(history, payload, buffer.Length);
    }

    /** enqueue(): afterwards the ring holds the longest suffix of the history that fits. */
    method Enqueue(payload: Payload)
      requires Valid() && EffectiveSize(|payload|) <= buffer.Length
      modifies this, buffer
      ensures Valid() && history == old(history) + [payload]
    {
      var invalPtr, kept := Invalidate(payload);
      ghost var bytes := buffer[..];
      tailPtr := invalPtr;

      var recordOffset := Offset(headPtr, buffer.Length);
      AlignedOffset(headPtr, buffer.Length);
      StorePayload(recordOffset, payload);
      StoreKeepsRing(bytes, tailPtr, headPtr, kept, payload);
      TotalAppend(history, payload);
      headPtr := headPtr + EffectiveSize(|payload|);
      history := history + [payload];
      assert Live() == kept + [payload];
    }

    /** The three memcpy() calls of enqueue(). */
    method StorePayload(recordOffset: nat, payload: Payload)
      requires recordOffset + WORD <= buffer.Length && WORD + |payload| <= buffer.Length
      modifies buffer
      ensures buffer[..] == Store(old(buffer[..]), recordOffset, EncodeWord(|payload|, WORD), payload)
    {
      CopyInto(buffer, recordOffset, EncodeWord(|payload|, WORD));
      var preWrapSize := Min(buffer.Length - (recordOffset + WORD), |payload|);
      CopyInto(buffer, recordOffset + WORD, payload[..preWrapSize]);
      CopyInto(buffer, 0, payload[preWrapSize..]);
    }

    /** Copy the payload of a record, cut to maxSize, out of the ring. */
    method CopyOut(ptr: nat, ghost records: seq<Payload>, data: array<byte>, maxSize: nat) returns (r: Record)
      requires 0 < buffer.Length < Bound(WORD) && buffer.Length % WORD == 0 && ptr % WORD == 0
      requires records != [] && Layout(buffer[..], ptr, records) && Total(records) <= buffer.Length
      requires maxSize <= data.Length && data != buffer
      modifies data
      ensures r == Record(ptr + EffectiveSize(|records[0]|), Min(|records[0]|, maxSize))
      ensures data[..] == records[0][..r.size] + old(data[r.size..])
    {
      var recordSize := ReadSize(ptr, records);
      var recordOffset := Offset(ptr, buffer.Length);
      var chunkSize := Min(recordSize, maxSize);
      var preWrapSize := Min(buffer.Length - (recordOffset + WORD), chunkSize);
      ReadPayload(buffer[..], ptr, recordOffset, EncodeWord(recordSize, WORD), records[0], chunkSize, preWrapSize);
      PutTwice(data[..], buffer[recordOffset + WORD..recordOffset + WORD + preWrapSize],
               buffer[..chunkSize - preWrapSize]);
      CopyInto(data, 0, buffer[recordOffset + WORD..recordOffset + WORD + preWrapSize]);
      CopyInto(data, preWrapSize, buffer[..chunkSize - preWrapSize]);
      r := Record(ptr + EffectiveSize(recordSize), chunkSize);
    }

    /**
     dequeueAt() at the pointer of record j of the history: the oldest record from there
     on that is still in the ring, cut to maxSize, and the pointer of its successor.
     */
    method DequeueAt(deqPtr: nat, ghost j: nat, data: array<byte>, maxSize: nat) returns (r: Option<Record>)
      requires Valid() && j <= |history| && deqPtr == Pointer(j) && maxSize <= data.Length && data != buffer
      modifies data
      ensures var m := Max(j, FirstKept(history, buffer.Length));
              if m == |history| then r == None && data[..] == old(data[..])
              else
                && r == Some(Record(Pointer(m + 1), Min(|history[m]|, maxSize)))
                && data[..] == Truncated(history, maxSize)[m] + old(data[r.value.size..])
    {
      var ptr := deqPtr;
      ghost var m := Max(j, FirstKept(history, buffer.Length));
      if ptr < tailPtr { ptr := tailPtr; }
      Locate(buffer[..], tailPtr, headPtr, history, j, ptr);
      if ptr == headPtr { return None; }
      var record := CopyOut(ptr, history[m..], data, maxSize);
      r := Some(record);
    }

    /** dequeueAt() into a buffer on the stack. */
    method ReadLine(ptr: nat, ghost j: nat, maxSize: nat) returns (nextPtr: Option<nat>, line: Payload)
      requires Valid() && j <= |history| && ptr == Pointer(j)
      ensures var m := Max(j, FirstKept(history, buffer.Length));
              if m == |history| then nextPtr == None
              else nextPtr == Some(Pointer(m + 1)) && line == Truncated(history, maxSize)[m]
    {
      var data := new byte[maxSize];
      var record := DequeueAt(ptr, j, data, maxSize);
      match record
      case None => nextPtr, line := None, [];
      case Some(r) => nextPtr, line := Some(r.nextPtr), data[..r.size];
    }

    /** The loop that replays the backlog: all records in the ring, oldest first. */
    method Replay(maxSize: nat) returns (lines: seq<Payload>)
      requires Valid()
      ensures lines == Truncated(Live(), maxSize)
    {
      ghost var k, all := FirstKept(history, buffer.Length), Truncated(history, maxSize);
      ghost var m := k;
      lines := [];
      var nextPtr, line := ReadLine(0, 0, maxSize);
      while nextPtr.Some?
        invariant k <= m <= |history| && lines == all[k..m]
        invariant if m == |history| then nextPtr == None else nextPtr == Some(Pointer(m + 1)) && line == all[m]
        decreases |history| - m
      {
        assert all[k..m] + [all[m]] == all[k..m + 1];
        lines, m := lines + [line], m + 1;
        nextPtr, line := ReadLine(nextPtr.value, m, maxSize);
      }
      KeptIsLongestSuffix(history, buffer.Length, k);
      TruncatedSuffix(history, k, maxSize);
    }
  }
}
