/** The byte layout of the boot log ring and which records it holds. */
module LogRing {
  import opened Common
  import opened Remainders
  import opened Sequences

  newtype byte = x: int | 0 <= x < 256

  /** sizeof(size_t); also the header size and the alignment of records. */
  const WORD: nat := 8

  // ---- Words in memory ----

  function Bound(width: nat): (n: nat)
    ensures n > 0
  {
    if width == 0 then 1 else 256 * Bound(width - 1)
  }

  /** Byte i of a number in little-endian order. */
  function Digit(n: nat, i: nat): byte {
    if i == 0 then (n % 256) as byte else Digit(n / 256, i - 1)
  }

  function EncodeWord(n: nat, width: nat): (bytes: seq<byte>)
    ensures |bytes| == width
  {
    seq(width, i requires 0 <= i < width => Digit(n, i))
  }

  function DecodeWord(bytes: seq<byte>): nat {
    if bytes == [] then 0 else bytes[0] as nat + 256 * DecodeWord(bytes[1..])
  }

  lemma {:induction false} WordRoundTrip(n: nat, width: nat)
    requires n < Bound(width)
    ensures DecodeWord(EncodeWord(n, width)) == n
    decreases width
  {
    if width > 0 {
      WordRoundTrip(n / 256, width - 1);
      assert EncodeWord(n, width)[1..] == EncodeWord(n / 256, width - 1);
    }
  }

  // ---- Records ----

  type Payload = seq<byte>

  /** Header and payload, rounded up to the alignment. */
  function EffectiveSize(recordSize: nat): (n: nat)
    ensures n % WORD == 0 && WORD + recordSize <= n < WORD + recordSize + WORD
  {
    (WORD + recordSize + WORD - 1) / WORD * WORD
  }

  function Total(records: seq<Payload>): (n: nat)
    ensures n % WORD == 0
  {
    if records == [] then 0 else EffectiveSize(|records[0]|) + Total(records[1..])
  }

  lemma {:induction false} TotalSplit(records: seq<Payload>, k: nat)
    requires k <= |records|
    ensures Total(records) == Total(records[..k]) + Total(records[k..])
    decreases k
  {
    if k > 0 {
      TotalSplit(records[1..], k - 1);
      assert records[..k][1..] == records[1..][..k - 1];
      assert records[1..][k - 1..] == records[k..];
    } else {
      assert records[0..] == records;
    }
  }

  lemma TotalStep(records: seq<Payload>, k: nat)
    requires k < |records|
    ensures Total(records[..k + 1]) == Total(records[..k]) + EffectiveSize(|records[k]|)
    ensures Total(records[k..]) == EffectiveSize(|records[k]|) + Total(records[k + 1..])
  {
    TotalSplit(records[..k + 1], k);
    assert records[..k + 1][..k] == records[..k];
    assert records[..k + 1][k..] == [records[k]];
    assert records[k..][1..] == records[k + 1..];
  }

  /** The records that a ring of the given size holds after all of these were written. */
  function Kept(records: seq<Payload>, ringSize: nat): (kept: seq<Payload>)
    ensures |kept| <= |records| && Total(kept) <= ringSize
  {
    if Total(records) <= ringSize then records else Kept(records[1..], ringSize)
  }

  /** Kept is the longest suffix that fits. */
  lemma {:induction false} KeptIsLongestSuffix(records: seq<Payload>, ringSize: nat, k: nat)
    requires k <= |records|
    ensures Kept(records, ringSize) == records[|records| - |Kept(records, ringSize)|..]
    ensures k < |records| - |Kept(records, ringSize)| <==> Total(records[k..]) > ringSize
    decreases |records|
  {
    if Total(records) > ringSize {
      if k > 0 {
        KeptIsLongestSuffix(records[1..], ringSize, k - 1);
        assert records[1..][k - 1..] == records[k..];
      } else {
        KeptIsLongestSuffix(records[1..], ringSize, 0);
        assert records[0..] == records;
      }
      var n := |Kept(records, ringSize)|;
      assert records[1..][|records| - 1 - n..] == records[|records| - n..];
    } else {
      TotalSplit(records, k);
      assert records[0..] == records;
    }
  }

  // ---- Bytes in the ring ----

  /** A ring that holds at least one header is made up of words. */
  lemma PowersAreAligned(n: nat)
    requires IsPowerOfTwo(n) && n >= WORD
    ensures n % WORD == 0
  {
    assert IsPowerOfTwo(n / 2) && IsPowerOfTwo(n / 2 / 2) && IsPowerOfTwo(n / 2 / 2 / 2);
  }

  /** Where pointer p lies in a ring of n bytes: p & (n - 1) when n is a power of two. */
  function Offset(p: nat, n: nat): (offset: nat)
    requires n > 0
    ensures offset < n
  {
    p % n
  }

  /** A position that has gone on by at most n bytes. */
  function Wrap(x: nat, n: nat): nat
    requires n > 0
  {
    if x < n then x else x - n
  }

  /** Pointers at most a ring apart: the offset wraps at most once. */
  lemma OffsetMoves(p: nat, q: nat, n: nat)
    requires n > 0 && p <= q <= p + n
    ensures Offset(q, n) == Wrap(Offset(p, n) + (q - p), n)
  {
    var k, r := p / n, p % n + (q - p);
    assert p == k * n + p % n;
    if r < n {
      RemainderIsUnique(q, k, r, n);
    } else {
      assert (k + 1) * n == k * n + n;
      RemainderIsUnique(q, k + 1, r - n, n);
    }
  }

  lemma AlignedOffset(p: nat, n: nat)
    requires n > 0 && p % WORD == 0 && n % WORD == 0
    ensures Offset(p, n) % WORD == 0 && Offset(p, n) + WORD <= n
  {
    var q, m := p / n, n / WORD;
    assert p == q * n + p % n && n == m * WORD;
    assert p % n == p - (q * m) * WORD;
  }

  /** The bytes lie at pointer p of the ring. */
  ghost predicate At(buffer: seq<byte>, p: nat, bytes: seq<byte>) {
    |buffer| > 0 && forall i {:trigger bytes[i]} :: 0 <= i < |bytes| ==> buffer[Offset(p + i, |buffer|)] == bytes[i]
  }

  /** Header and payload of a record. */
  function Image(payload: Payload): (bytes: seq<byte>)
    ensures |bytes| == WORD + |payload|
  {
    EncodeWord(|payload|, WORD) + payload
  }

  /** From pointer p on, the ring holds these records. */
  ghost predicate Layout(buffer: seq<byte>, p: nat, records: seq<Payload>)
    decreases |records|
  {
    records != [] ==>
      At(buffer, p, Image(records[0])) && Layout(buffer, p + EffectiveSize(|records[0]|), records[1..])
  }

  lemma {:induction false} LayoutAt(buffer: seq<byte>, p: nat, records: seq<Payload>, k: nat)
    requires Layout(buffer, p, records) && k <= |records|
    ensures Layout(buffer, p + Total(records[..k]), records[k..])
    decreases k
  {
    if k == 0 {
      assert records[0..] == records;
    } else {
      LayoutAt(buffer, p + EffectiveSize(|records[0]|), records[1..], k - 1);
      assert records[..k][1..] == records[1..][..k - 1];
      assert records[1..][k - 1..] == records[k..];
    }
  }

  /** Between pointers `from` and `to` the two buffers agree. */
  ghost predicate Agree(a: seq<byte>, b: seq<byte>, from: nat, to: nat) {
    |a| == |b| > 0 && forall t {:trigger a[Offset(t, |a|)]} :: from <= t < to ==> a[Offset(t, |a|)] == b[Offset(t, |a|)]
  }

  lemma {:induction false} LayoutFrame(a: seq<byte>, b: seq<byte>, p: nat, records: seq<Payload>)
    requires Layout(a, p, records) && Agree(a, b, p, p + Total(records))
    ensures Layout(b, p, records)
    decreases |records|
  {
    if records != [] {
      var bytes := Image(records[0]);
      forall i | 0 <= i < |bytes| ensures b[Offset(p + i, |b|)] == bytes[i] {
        assert a[Offset(p + i, |a|)] == bytes[i];
      }
      LayoutFrame(a, b, p + EffectiveSize(|records[0]|), records[1..]);
    }
  }

  lemma {:induction false} LayoutAppend(buffer: seq<byte>, p: nat, records: seq<Payload>, payload: Payload)
    requires Layout(buffer, p, records) && At(buffer, p + Total(records), Image(payload))
    ensures Layout(buffer, p, records + [payload])
    decreases |records|
  {
    var all := records + [payload];
    if records == [] {
      assert all[1..] == [];
    } else {
      LayoutAppend(buffer, p + EffectiveSize(|records[0]|), records[1..], payload);
      assert all[1..] == records[1..] + [payload];
    }
  }

  // ---- What enqueue() writes ----

  lemma PutTwice(buffer: seq<byte>, a: seq<byte>, b: seq<byte>)
    requires |a| + |b| <= |buffer|
    ensures Put(Put(buffer, 0, a), |a|, b) == a + b + buffer[|a| + |b|..]
  {
  }

  function Max(a: nat, b: nat): nat { if a < b then b else a }

  /** The buffer after the three memcpy() calls of enqueue(). */
  function Store(buffer: seq<byte>, offset: nat, header: seq<byte>, payload: Payload): (r: seq<byte>)
    requires |header| == WORD && offset + WORD <= |buffer| && WORD + |payload| <= |buffer|
    ensures |r| == |buffer|
  {
    var pre := Min(|buffer| - (offset + WORD), |payload|);
    Put(Put(Put(buffer, offset, header), offset + WORD, payload[..pre]), 0, payload[pre..])
  }

  lemma StoreByte(buffer: seq<byte>, offset: nat, header: seq<byte>, payload: Payload, i: nat)
    requires |header| == WORD && offset + WORD <= |buffer| && i < WORD + |payload| <= |buffer|
    ensures Wrap(offset + i, |buffer|) < |buffer|
    ensures Store(buffer, offset, header, payload)[Wrap(offset + i, |buffer|)] == (header + payload)[i]
  {
  }

  /** The byte at x, d bytes before the record, is out of its reach. */
  lemma StoreOther(buffer: seq<byte>, offset: nat, header: seq<byte>, payload: Payload, x: nat, d: nat)
    requires |header| == WORD && offset + WORD <= |buffer| && x < |buffer| && offset == Wrap(x + d, |buffer|)
    requires 0 < d && d + WORD + |payload| <= |buffer|
    ensures Store(buffer, offset, header, payload)[x] == buffer[x]
  {
  }

  lemma WrappedAt(buffer: seq<byte>, p: nat, offset: nat, bytes: seq<byte>)
    requires |bytes| <= |buffer| && |buffer| > 0 && offset == Offset(p, |buffer|)
    requires forall i :: 0 <= i < |bytes| ==> HasByte(buffer, offset + i, bytes[i])
    ensures At(buffer, p, bytes)
  {
    forall i | 0 <= i < |bytes| ensures buffer[Offset(p + i, |buffer|)] == bytes[i] {
      OffsetMoves(p, p + i, |buffer|);
      assert HasByte(buffer, offset + i, bytes[i]);
    }
  }

  ghost predicate HasByte(buffer: seq<byte>, x: nat, b: byte) {
    x < 2 * |buffer| && buffer[Wrap(x, |buffer|)] == b
  }

  lemma StoreWrites(buffer: seq<byte>, p: nat, offset: nat, header: seq<byte>, payload: Payload)
    requires |buffer| > 0 && offset == Offset(p, |buffer|) && offset + WORD <= |buffer|
    requires |header| == WORD && WORD + |payload| <= |buffer|
    ensures At(Store(buffer, offset, header, payload), p, header + payload)
  {
    var stored, record := Store(buffer, offset, header, payload), header + payload;
    forall i | 0 <= i < |record| ensures HasByte(stored, offset + i, record[i]) {
      StoreByte(buffer, offset, header, payload, i);
    }
    WrappedAt(stored, p, offset, record);
  }

  lemma StoreKeeps(buffer: seq<byte>, from: nat, p: nat, offset: nat, header: seq<byte>, payload: Payload)
    requires |buffer| > 0 && offset == Offset(p, |buffer|) && offset + WORD <= |buffer|
    requires |header| == WORD && from <= p && p + WORD + |payload| <= from + |buffer|
    ensures Agree(buffer, Store(buffer, offset, header, payload), from, p)
  {
    var stored := Store(buffer, offset, header, payload);
    forall t | from <= t < p ensures buffer[Offset(t, |buffer|)] == stored[Offset(t, |buffer|)] {
      OffsetMoves(t, p, |buffer|);
      StoreOther(buffer, offset, header, payload, Offset(t, |buffer|), p - t);
    }
  }

  lemma ByteAt(buffer: seq<byte>, p: nat, bytes: seq<byte>, i: nat)
    requires At(buffer, p, bytes) && i < |bytes| <= |buffer|
    ensures buffer[Wrap(Offset(p, |buffer|) + i, |buffer|)] == bytes[i]
  {
    OffsetMoves(p, p + i, |buffer|);
    assert buffer[Offset(p + i, |buffer|)] == bytes[i];
  }

  /** The two memcpy() calls of dequeueAt() give the first `size` bytes of the payload. */
  lemma ReadPayload(buffer: seq<byte>, p: nat, offset: nat, header: seq<byte>, payload: Payload, size: nat, pre: nat)
    requires |buffer| > 0 && offset == Offset(p, |buffer|) && offset + WORD <= |buffer| && |header| == WORD
    requires At(buffer, p, header + payload) && size <= |payload| && WORD + |payload| <= |buffer|
    requires pre == Min(|buffer| - (offset + WORD), size)
    ensures buffer[offset + WORD..offset + WORD + pre] + buffer[..size - pre] == payload[..size]
  {
    var read := buffer[offset + WORD..offset + WORD + pre] + buffer[..size - pre];
    forall k | 0 <= k < size ensures read[k] == payload[k] {
      ByteAt(buffer, p, header + payload, WORD + k);
    }
  }

  lemma ReadHeader(buffer: seq<byte>, p: nat, offset: nat, header: seq<byte>, payload: Payload)
    requires |buffer| > 0 && offset == Offset(p, |buffer|) && offset + WORD <= |buffer| && |header| == WORD
    requires At(buffer, p, header + payload) && WORD + |payload| <= |buffer|
    ensures buffer[offset..offset + WORD] == header
  {
    forall i | 0 <= i < WORD ensures buffer[offset..offset + WORD][i] == header[i] {
      ByteAt(buffer, p, header + payload, i);
    }
  }

  // ---- Enqueueing against the specification ----

  /** Dropping from the front until the new record fits leaves what a fresh count would keep. */
  lemma {:induction false} KeptAppend(records: seq<Payload>, payload: Payload, ringSize: nat, k: nat)
    requires k <= |records| && EffectiveSize(|payload|) <= ringSize
    requires Total(records[k..]) + EffectiveSize(|payload|) <= ringSize
    requires k > 0 ==> Total(records[k - 1..]) + EffectiveSize(|payload|) > ringSize
    ensures Kept(records + [payload], ringSize) == records[k..] + [payload]
    decreases k
  {
    var all := records + [payload];
    TotalSplit(all, |records|);
    assert all[..|records|] == records && all[|records|..] == [payload];
    if k == 0 {
      assert records[0..] == records;
    } else {
      TotalSplit(records, k - 1);
      assert records[1..][k - 1..] == records[k..] && all[1..] == records[1..] + [payload];
      if k > 1 { assert records[1..][k - 2..] == records[k - 1..]; }
      KeptAppend(records[1..], payload, ringSize, k - 1);
    }
  }

  /** The eviction test with the unrounded size decides like one with the rounded size. */
  lemma UnroundedTest(inval: nat, enq: nat, ringSize: nat, recordSize: nat)
    requires inval % WORD == 0 && enq % WORD == 0 && ringSize % WORD == 0
    ensures inval + ringSize < enq + WORD + recordSize <==> inval + ringSize < enq + EffectiveSize(recordSize)
  {
  }

  /** Forgetting what was already dropped does not change what is kept. */
  lemma {:induction false} KeptTwice(records: seq<Payload>, payload: Payload, ringSize: nat)
    ensures Kept(records + [payload], ringSize) == Kept(Kept(records, ringSize) + [payload], ringSize)
    decreases |records|
  {
    if Total(records) > ringSize {
      var all := records + [payload];
      TotalSplit(all, |records|);
      assert all[..|records|] == records && all[1..] == records[1..] + [payload];
      KeptTwice(records[1..], payload, ringSize);
    }
  }

  lemma AlignedSum(a: nat, b: nat)
    requires a % WORD == 0 && b % WORD == 0
    ensures (a + b) % WORD == 0
  {
  }

  lemma TotalAppend(records: seq<Payload>, payload: Payload)
    ensures Total(records + [payload]) == Total(records) + EffectiveSize(|payload|)
  {
    var all := records + [payload];
    TotalSplit(all, |records|);
    assert all[..|records|] == records && all[|records|..] == [payload];
  }

  /** The state of the ring as values: the records in it and where they lie. */
  ghost predicate RingOk(buffer: seq<byte>, tail: nat, head: nat, records: seq<Payload>) {
    && 0 < |buffer| < Bound(WORD) && |buffer| % WORD == 0
    && tail % WORD == 0 && head % WORD == 0 && tail + Total(records) == head
    && Total(records) <= |buffer| && Layout(buffer, tail, records)
  }

  lemma DropOldest(buffer: seq<byte>, tail: nat, head: nat, records: seq<Payload>)
    requires RingOk(buffer, tail, head, records) && records != []
    ensures RingOk(buffer, tail + EffectiveSize(|records[0]|), head, records[1..])
  {
  }

  lemma WrittenLayout(buffer: seq<byte>, buffer': seq<byte>, tail: nat, head: nat,
                      records: seq<Payload>, payload: Payload)
    requires Layout(buffer, tail, records) && head == tail + Total(records) && |buffer| == |buffer'|
    requires Agree(buffer, buffer', tail, head) && At(buffer', head, EncodeWord(|payload|, WORD) + payload)
    ensures Layout(buffer', tail, records + [payload])
  {
    LayoutFrame(buffer, buffer', tail, records);
    LayoutAppend(buffer', tail, records, payload);
  }

  lemma StoreKeepsLayout(buffer: seq<byte>, tail: nat, head: nat, records: seq<Payload>,
                         offset: nat, header: seq<byte>, payload: Payload)
    requires |buffer| > 0 && offset == Offset(head, |buffer|) && offset + WORD <= |buffer|
    requires header == EncodeWord(|payload|, WORD) && Layout(buffer, tail, records)
    requires head == tail + Total(records) && head + WORD + |payload| <= tail + |buffer|
    ensures Layout(Store(buffer, offset, header, payload), tail, records + [payload])
  {
    StoreKeeps(buffer, tail, head, offset, header, payload);
    StoreWrites(buffer, head, offset, header, payload);
    WrittenLayout(buffer, Store(buffer, offset, header, payload), tail, head, records, payload);
  }

  lemma StoreKeepsRing(buffer: seq<byte>, tail: nat, head: nat, records: seq<Payload>, payload: Payload)
    requires RingOk(buffer, tail, head, records) && Offset(head, |buffer|) + WORD <= |buffer|
    requires head + EffectiveSize(|payload|) <= tail + |buffer|
    ensures RingOk(Store(buffer, Offset(head, |buffer|), EncodeWord(|payload|, WORD), payload),
                   tail, head + EffectiveSize(|payload|), records + [payload])
  {
    var offset, header := Offset(head, |buffer|), EncodeWord(|payload|, WORD);
    StoreKeepsLayout(buffer, tail, head, records, offset, header, payload);
    TotalAppend(records, payload);
    AlignedSum(head, EffectiveSize(|payload|));
  }

  // ---- Pointers ----

  lemma {:induction false} PointersIncrease(records: seq<Payload>, i: nat, j: nat)
    requires i < j <= |records|
    ensures Total(records[..i]) < Total(records[..j])
    decreases j
  {
    TotalStep(records, j - 1);
    if i < j - 1 { PointersIncrease(records, i, j - 1); }
  }

  /** Moving a pointer up to the tail moves its index up to the first record in the ring. */
  lemma SeekPointer(records: seq<Payload>, j: nat, k: nat)
    requires j <= |records| && k <= |records|
    ensures Total(records[..Max(j, k)]) == Max(Total(records[..j]), Total(records[..k]))
    ensures Total(records[..Max(j, k)]) == Total(records) <==> Max(j, k) == |records|
  {
    if j < k { PointersIncrease(records, j, k); } else if k < j { PointersIncrease(records, k, j); }
    if Max(j, k) < |records| { PointersIncrease(records, Max(j, k), |records|); }
    assert records[..|records|] == records;
  }

  /** The index of the oldest record that is still in the ring. */
  function FirstKept(records: seq<Payload>, ringSize: nat): (k: nat)
    ensures k <= |records|
  {
    |records| - |Kept(records, ringSize)|
  }

  /** The tail is the pointer of the oldest record in the ring. */
  lemma TailPointer(tail: nat, history: seq<Payload>, ringSize: nat)
    requires tail + Total(Kept(history, ringSize)) == Total(history)
    ensures tail == Total(history[..FirstKept(history, ringSize)])
  {
    var k := FirstKept(history, ringSize);
    KeptIsLongestSuffix(history, ringSize, k);
    TotalSplit(history, k);
  }

  lemma TotalBetween(records: seq<Payload>, k: nat, m: nat)
    requires k <= m <= |records|
    ensures Total(records[..m]) == Total(records[..k]) + Total(records[k..][..m - k])
  {
    TotalSplit(records[..m], k);
    assert records[..m][..k] == records[..k] && records[..m][k..] == records[k..][..m - k];
  }

  /** The record at a pointer between tail and head, found in the history. */
  lemma RecordAt(buffer: seq<byte>, tail: nat, history: seq<Payload>, m: nat)
    requires |buffer| > 0 && Layout(buffer, tail, Kept(history, |buffer|))
    requires tail == Total(history[..FirstKept(history, |buffer|)])
    requires FirstKept(history, |buffer|) <= m < |history|
    ensures Layout(buffer, Total(history[..m]), history[m..]) && Total(history[m..]) <= |buffer|
    ensures Total(history[..m + 1]) == Total(history[..m]) + EffectiveSize(|history[m]|)
  {
    var k := FirstKept(history, |buffer|);
    TotalStep(history, m);
    KeptIsLongestSuffix(history, |buffer|, m);
    TotalBetween(history, k, m);
    LayoutAt(buffer, tail, history[k..], m - k);
    assert history[k..][m - k..] == history[m..];
  }

  /** Where dequeueAt() reads when it is given the pointer of record j. */
  lemma Locate(buffer: seq<byte>, tail: nat, head: nat, history: seq<Payload>, j: nat, ptr: nat)
    requires |buffer| > 0 && RingOk(buffer, tail, head, Kept(history, |buffer|)) && head == Total(history)
    requires j <= |history| && ptr == Max(Total(history[..j]), tail)
    ensures var m := Max(j, FirstKept(history, |buffer|));
            && m <= |history| && ptr == Total(history[..m]) && (ptr == head <==> m == |history|)
            && (m < |history| ==>
                  && Layout(buffer, ptr, history[m..]) && Total(history[m..]) <= |buffer|
                  && Total(history[..m + 1]) == ptr + EffectiveSize(|history[m..][0]|))
  {
    var k := FirstKept(history, |buffer|);
    TailPointer(tail, history, |buffer|);
    SeekPointer(history, j, k);
    if Max(j, k) < |history| { RecordAt(buffer, tail, history, Max(j, k)); }
  }
}
