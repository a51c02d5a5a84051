/** Netlink attributes of core/include/core/netlink.hpp: what the builder writes and the iterators read. */
module Netlink {
  import opened Common

  type byte = x: int | 0 <= x < 256

  /** NLA_HDRLEN: a 16-bit length and a 16-bit type. */
  const HEADER: nat := 4

  /** NLA_ALIGN(), RTA_ALIGN(), NLMSG_ALIGN() */
  function Align(n: nat): (r: nat)
    ensures r % 4 == 0 && n <= r < n + 4
  {
    (n + 3) / 4 * 4
  }

  /** An attribute as a caller of the builder sees it. */
  datatype Attr =
    | Data(kind: byte, payload: seq<byte>)
    | Text(kind: byte, text: seq<byte>)
    | Nested(kind: byte, children: seq<Attr>)

  // ---- The bytes of an attribute ----

  function Zeros(n: nat): (r: seq<byte>)
    ensures |r| == n && forall i :: 0 <= i < n ==> r[i] == 0
  {
    seq(n, _ => 0)
  }

  /** A 16-bit word in memory order; larger numbers are cut off. */
  function Word(n: nat): (r: seq<byte>)
    ensures |r| == 2
  {
    [n % 256, n / 256 % 256]
  }

  function HeaderBytes(length: nat, kind: byte): (r: seq<byte>)
    ensures |r| == HEADER
  {
    Word(length) + Word(kind)
  }

  /** The payload, as it lies behind the header. */
  function Payload(a: Attr): seq<byte>
    decreases a, 0
  {
    match a
    case Data(_, payload) => payload
    case Text(_, text) => text + [0]
    case Nested(_, children) => EncodeAll(children)
  }

  function Encode(a: Attr): (r: seq<byte>)
    ensures |r| == Align(HEADER + |Payload(a)|) && |r| % 4 == 0
    decreases a, 1
  {
    var length := HEADER + |Payload(a)|;
    HeaderBytes(length, a.kind) + Payload(a) + Zeros(Align(length) - length)
  }

  /** On the wire: the length in two bytes, low byte first, then the type in two bytes, then the payload. */
  lemma EncodedBytes(a: Attr)
    ensures var bytes, length := Encode(a), HEADER + |Payload(a)|;
            && bytes[0] as int + 256 * bytes[1] as int == length % 0x10000
            && bytes[2] == a.kind && bytes[3] == 0
            && bytes[HEADER..length] == Payload(a) && (forall i :: length <= i < |bytes| ==> bytes[i] == 0)
  {
  }

  function EncodeAll(attrs: seq<Attr>): (r: seq<byte>)
    ensures |r| % 4 == 0
    decreases attrs
  {
    if attrs == [] then [] else Encode(attrs[0]) + EncodeAll(attrs[1..])
  }

  /** What the attributes must be like: lengths of 16 bits, strings without NUL. */
  predicate Fits(a: Attr)
    decreases a, 0
  {
    && HEADER + |Payload(a)| < 0x10000
    && (a.Text? ==> forall i :: 0 <= i < |a.text| ==> a.text[i] != 0)
    && (a.Nested? ==> AllFit(a.children))
  }

  predicate AllFit(attrs: seq<Attr>)
    decreases attrs
  {
    attrs != [] ==> Fits(attrs[0]) && AllFit(attrs[1..])
  }

  // ---- Room for an attribute ----

  /** aligned_size: computed from the length after it was cut off to 16 bits. */
  function Room(length: nat): (r: nat)
    ensures r % 4 == 0
  {
    Align(length % 0x10000)
  }

  /** Header and payload stay inside the room exactly if the length fits 16 bits. */
  lemma RoomIff(length: nat)
    ensures length <= Room(length) <==> length < 0x10000
    ensures length < 0x10000 ==> Room(length) == Align(length)
  {
  }

  /** The builder stays inside its buffer: only the length of a nested attribute may be cut off. */
  predicate Writable(a: Attr)
    decreases a, 0
  {
    match a
    case Data(_, payload) => HEADER + |payload| < 0x10000
    case Text(_, text) => HEADER + |text| + 1 < 0x10000
    case Nested(_, children) => AllWritable(children)
  }

  predicate AllWritable(attrs: seq<Attr>)
    decreases attrs
  {
    attrs != [] ==> Writable(attrs[0]) && AllWritable(attrs[1..])
  }

  /** A string of 65531 bytes gets no room at all: the offset of the builder does not move. */
  lemma NoRoom(kind: byte, text: seq<byte>)
    requires |text| == 65531
    ensures Room(HEADER + |Payload(Text(kind, text))|) == 0 && !Writable(Text(kind, text))
  {
  }

  lemma {:induction false} FitsIsWritable(a: Attr)
    requires Fits(a)
    ensures Writable(a)
    decreases a, 0
  {
    if a.Nested? { AllFitIsWritable(a.children); }
  }

  /** What can be read back can be written. */
  lemma {:induction false} AllFitIsWritable(attrs: seq<Attr>)
    requires AllFit(attrs)
    ensures AllWritable(attrs)
    decreases attrs
  {
    if attrs != [] {
      FitsIsWritable(attrs[0]);
      AllFitIsWritable(attrs[1..]);
    }
  }

  // ---- Reading ----

  function WordAt(buf: seq<byte>, p: nat): nat
    requires p + 2 <= |buf|
  {
    var low: int, high: int := buf[p], buf[p + 1];
    low + 256 * high
  }

  /** rta_len */
  function LengthAt(buf: seq<byte>, p: nat): nat
    requires p + HEADER <= |buf|
  {
    WordAt(buf, p)
  }

  /** Attr::type() */
  function KindAt(buf: seq<byte>, p: nat): nat
    requires p + HEADER <= |buf|
  {
    WordAt(buf, p + 2)
  }

  /** Attr::data() for a type of the given size. */
  function DataAt(buf: seq<byte>, p: nat, size: nat): Option<seq<byte>>
    requires p + HEADER <= |buf| && p + LengthAt(buf, p) <= |buf|
  {
    if LengthAt(buf, p) >= HEADER + size then Some(buf[p + HEADER..p + HEADER + size]) else None
  }

  /** strlen(), as far as the buffer goes. */
  function Strlen(buf: seq<byte>, p: nat): (n: nat)
    requires p <= |buf|
    ensures p + n <= |buf|
    decreases |buf| - p
  {
    if p == |buf| || buf[p] == 0 then 0 else 1 + Strlen(buf, p + 1)
  }

  /** Attr::str() */
  function StrAt(buf: seq<byte>, p: nat): Option<seq<byte>>
    requires p + HEADER <= |buf|
  {
    var n := Strlen(buf, p + HEADER);
    if LengthAt(buf, p) < HEADER + 1 || LengthAt(buf, p) < HEADER + n then None
    else Some(buf[p + HEADER..p + HEADER + n])
  }

  /** Iterator::operator++() */
  function NextAt(buf: seq<byte>, p: nat): nat
    requires p + HEADER <= |buf|
  {
    p + Align(LengthAt(buf, p))
  }

  /** The accessors of the attribute at p give back `a`. */
  ghost predicate ReadsOne(buf: seq<byte>, p: nat, a: Attr)
    decreases a, 0
  {
    && p + HEADER <= |buf| && p + LengthAt(buf, p) <= |buf| && KindAt(buf, p) == a.kind
    && match a
       case Data(_, payload) => LengthAt(buf, p) == HEADER + |payload| && DataAt(buf, p, |payload|) == Some(payload)
       case Text(_, text) => StrAt(buf, p) == Some(text)
       case Nested(_, children) => Reads(buf, p + HEADER, p + LengthAt(buf, p), children)
  }

  /** Iterating from p meets exactly these attributes and then stops at `end`. */
  ghost predicate Reads(buf: seq<byte>, p: nat, end: nat, attrs: seq<Attr>)
    decreases attrs
  {
    if attrs == [] then p == end
    else p != end && ReadsOne(buf, p, attrs[0]) && Reads(buf, NextAt(buf, p), end, attrs[1..])
  }

  /** The buffer holds the bytes at p. */
  ghost predicate At(buf: seq<byte>, p: nat, bytes: seq<byte>) {
    p + |bytes| <= |buf| && buf[p..p + |bytes|] == bytes
  }

  lemma AtSplit(buf: seq<byte>, p: nat, a: seq<byte>, b: seq<byte>)
    requires At(buf, p, a + b)
    ensures At(buf, p, a) && At(buf, p + |a|, b)
  {
    var bytes := buf[p..p + |a + b|];
    assert buf[p..p + |a|] == bytes[..|a|] == a;
    assert buf[p + |a|..p + |a| + |b|] == bytes[|a|..] == b;
  }

  lemma HeaderRead(buf: seq<byte>, p: nat, length: nat, kind: byte)
    requires At(buf, p, HeaderBytes(length, kind)) && length < 0x10000
    ensures LengthAt(buf, p) == length && KindAt(buf, p) == kind
  {
    var h := HeaderBytes(length, kind);
    assert forall i :: 0 <= i < 4 ==> buf[p + i] == buf[p..p + 4][i] == h[i];
  }

  /** The length word keeps the low 16 bits. */
  lemma LengthCutOff(buf: seq<byte>, p: nat, length: nat, kind: byte)
    requires At(buf, p, HeaderBytes(length, kind))
    ensures LengthAt(buf, p) == length % 0x10000
  {
    var h := HeaderBytes(length, kind);
    assert forall i :: 0 <= i < 4 ==> buf[p + i] == buf[p..p + 4][i] == h[i];
  }

  lemma {:induction false} StrlenOf(buf: seq<byte>, p: nat, text: seq<byte>)
    requires At(buf, p, text + [0]) && forall i :: 0 <= i < |text| ==> text[i] != 0
    ensures Strlen(buf, p) == |text|
    decreases |text|
  {
    assert forall i :: 0 <= i <= |text| ==> buf[p + i] == buf[p..p + |text + [0]|][i] == (text + [0])[i];
    if text != [] {
      assert text + [0] == [text[0]] + (text[1..] + [0]);
      AtSplit(buf, p, [text[0]], text[1..] + [0]);
      StrlenOf(buf, p + 1, text[1..]);
    }
  }

  lemma TextAt(buf: seq<byte>, p: nat, text: seq<byte>)
    requires At(buf, p, text + [0]) && forall i :: 0 <= i < |text| ==> text[i] != 0
    ensures At(buf, p, text) && Strlen(buf, p) == |text|
  {
    StrlenOf(buf, p, text);
    AtSplit(buf, p, text, [0]);
  }

  /** The parts of an encoded attribute in a buffer. */
  lemma EncodedAt(buf: seq<byte>, p: nat, a: Attr)
    requires At(buf, p, Encode(a)) && Fits(a)
    ensures p + HEADER <= |buf| && LengthAt(buf, p) == HEADER + |Payload(a)| && KindAt(buf, p) == a.kind
    ensures At(buf, p + HEADER, Payload(a)) && NextAt(buf, p) == p + |Encode(a)|
  {
    var length := HEADER + |Payload(a)|;
    AtSplit(buf, p, HeaderBytes(length, a.kind) + Payload(a), Zeros(Align(length) - length));
    AtSplit(buf, p, HeaderBytes(length, a.kind), Payload(a));
    HeaderRead(buf, p, length, a.kind);
  }

  /** Every attribute that was written is read back, recursively. */
  lemma {:induction false} ReadsEncoded(buf: seq<byte>, p: nat, a: Attr)
    requires At(buf, p, Encode(a)) && Fits(a)
    ensures ReadsOne(buf, p, a)
    decreases a, 0
  {
    EncodedAt(buf, p, a);
    match a
    case Data(_, payload) =>
    case Text(_, text) => TextAt(buf, p + HEADER, text);
    case Nested(_, children) =>
      ReadsAll(buf, p + HEADER, p + LengthAt(buf, p), children);
  }

  lemma {:induction false} ReadsAll(buf: seq<byte>, p: nat, end: nat, attrs: seq<Attr>)
    requires At(buf, p, EncodeAll(attrs)) && AllFit(attrs) && end == p + |EncodeAll(attrs)|
    ensures Reads(buf, p, end, attrs)
    decreases attrs
  {
    if attrs != [] {
      var first, rest := Encode(attrs[0]), EncodeAll(attrs[1..]);
      AtSplit(buf, p, first, rest);
      ReadsEncoded(buf, p, attrs[0]);
      EncodedAt(buf, p, attrs[0]);
      ReadsAll(buf, p + |first|, end, attrs[1..]);
    }
  }

  // ---- Which ranges the iterator gets through ----

  /** The loop stops after at most k attributes and reads only headers inside the buffer. */
  ghost predicate EndsAfter(buf: seq<byte>, p: nat, end: nat, k: nat)
    decreases k
  {
    p == end || (k > 0 && p + HEADER <= |buf| && EndsAfter(buf, NextAt(buf, p), end, k - 1))
  }

  ghost predicate Ends(buf: seq<byte>, p: nat, end: nat) { exists k: nat :: EndsAfter(buf, p, end, k) }

  /** The range is tiled by attributes with a positive length. */
  predicate Tiled(buf: seq<byte>, p: nat, end: nat)
    decreases end - p
  {
    || p == end
    || (p < end && p + HEADER <= |buf| && LengthAt(buf, p) > 0 && Tiled(buf, NextAt(buf, p), end))
  }

  lemma {:induction false} EndedIsTiled(buf: seq<byte>, p: nat, end: nat, k: nat)
    requires EndsAfter(buf, p, end, k)
    ensures Tiled(buf, p, end) && p <= end
    decreases k
  {
    if p != end { EndedIsTiled(buf, NextAt(buf, p), end, k - 1); }
  }

  lemma {:induction false} TiledEnds(buf: seq<byte>, p: nat, end: nat)
    requires Tiled(buf, p, end)
    ensures Ends(buf, p, end)
    decreases end - p
  {
    if p == end {
      assert EndsAfter(buf, p, end, 0);
    } else {
      TiledEnds(buf, NextAt(buf, p), end);
      var k: nat :| EndsAfter(buf, NextAt(buf, p), end, k);
      assert EndsAfter(buf, p, end, k + 1);
    }
  }

  /** Iterating from p ends, and ends inside the buffer, exactly if the range is tiled. */
  lemma EndsIff(buf: seq<byte>, p: nat, end: nat)
    ensures Ends(buf, p, end) <==> Tiled(buf, p, end)
  {
    if Tiled(buf, p, end) {
      TiledEnds(buf, p, end);
    } else if k: nat :| EndsAfter(buf, p, end, k) {
      EndedIsTiled(buf, p, end, k);
    }
  }

  /** What is read back was tiled. */
  lemma {:induction false} ReadsIsTiled(buf: seq<byte>, p: nat, end: nat, attrs: seq<Attr>)
    requires Reads(buf, p, end, attrs)
    ensures EndsAfter(buf, p, end, |attrs|) && Tiled(buf, p, end)
    decreases attrs
  {
    if attrs != [] { ReadsIsTiled(buf, NextAt(buf, p), end, attrs[1..]); }
    EndedIsTiled(buf, p, end, |attrs|);
  }

  // ---- What the conditions are for ----

  lemma {:induction false} StrlenStops(buf: seq<byte>, p: nat, text: seq<byte>, i: nat)
    requires At(buf, p, text + [0]) && i < |text| && text[i] == 0
    ensures Strlen(buf, p) <= i
    decreases i
  {
    assert buf[p] == buf[p..p + |text + [0]|][0] == text[0];
    if i > 0 {
      assert text + [0] == [text[0]] + (text[1..] + [0]);
      AtSplit(buf, p, [text[0]], text[1..] + [0]);
      StrlenStops(buf, p + 1, text[1..], i - 1);
    }
  }

  /** The buffer holds the attribute at p, if the builder gets to write it. */
  ghost predicate WrittenAt(buf: seq<byte>, p: nat, a: Attr) { Writable(a) ==> At(buf, p, Encode(a)) }

  /** A string is written and read back exactly if it has no NUL and its length fits 16 bits. */
  lemma TextReadIffNoNul(buf: seq<byte>, p: nat, kind: byte, text: seq<byte>)
    requires WrittenAt(buf, p, Text(kind, text))
    ensures Writable(Text(kind, text)) ==> p + HEADER <= |buf|
    ensures Writable(Text(kind, text)) && StrAt(buf, p) == Some(text) <==>
            HEADER + |text| + 1 < 0x10000 && forall i :: 0 <= i < |text| ==> text[i] != 0
  {
    var a := Text(kind, text);
    if Writable(a) {
      var length := HEADER + |Payload(a)|;
      AtSplit(buf, p, HeaderBytes(length, kind) + Payload(a), Zeros(Align(length) - length));
      AtSplit(buf, p, HeaderBytes(length, kind), Payload(a));
      HeaderRead(buf, p, length, kind);
      if forall i :: 0 <= i < |text| ==> text[i] != 0 {
        TextAt(buf, p + HEADER, text);
      } else {
        var i :| 0 <= i < |text| && text[i] == 0;
        StrlenStops(buf, p + HEADER, text, i);
      }
    }
  }

  /** Data is written and read back exactly if its length fits 16 bits. */
  lemma DataReadIffFits(buf: seq<byte>, p: nat, kind: byte, payload: seq<byte>)
    requires WrittenAt(buf, p, Data(kind, payload))
    ensures Writable(Data(kind, payload)) && ReadsOne(buf, p, Data(kind, payload)) <==> HEADER + |payload| < 0x10000
  {
    if Writable(Data(kind, payload)) { ReadsEncoded(buf, p, Data(kind, payload)); }
  }

  /** Iterating ends in one place only. */
  lemma {:induction false} ReadsOnce(buf: seq<byte>, p: nat, end: nat, end': nat, attrs: seq<Attr>)
    requires Reads(buf, p, end, attrs) && Reads(buf, p, end', attrs)
    ensures end == end'
    decreases attrs
  {
    if attrs != [] { ReadsOnce(buf, NextAt(buf, p), end, end', attrs[1..]); }
  }

  /** A nested attribute is always written, and its children are read back exactly if its length fits 16 bits. */
  lemma NestedReadIffFits(buf: seq<byte>, p: nat, kind: byte, children: seq<Attr>)
    requires At(buf, p, Encode(Nested(kind, children))) && AllFit(children)
    ensures Writable(Nested(kind, children))
    ensures ReadsOne(buf, p, Nested(kind, children)) <==> HEADER + |EncodeAll(children)| < 0x10000
  {
    var a := Nested(kind, children);
    AllFitIsWritable(children);
    var length := HEADER + |Payload(a)|;
    AtSplit(buf, p, HeaderBytes(length, kind) + Payload(a), Zeros(Align(length) - length));
    AtSplit(buf, p, HeaderBytes(length, kind), Payload(a));
    if length < 0x10000 {
      ReadsEncoded(buf, p, a);
    } else {
      LengthCutOff(buf, p, length, kind);
      ReadsAll(buf, p + HEADER, p + length, children);
      NotReadIfCutOff(buf, p, kind, children, p + length);
    }
  }

  lemma NotReadIfCutOff(buf: seq<byte>, p: nat, kind: byte, children: seq<Attr>, end: nat)
    requires p + HEADER <= |buf| && Reads(buf, p + HEADER, end, children) && p + LengthAt(buf, p) != end
    ensures !ReadsOne(buf, p, Nested(kind, children))
  {
    if ReadsOne(buf, p, Nested(kind, children)) {
      ReadsOnce(buf, p + HEADER, end, p + LengthAt(buf, p), children);
    }
  }

  // ---- Packets ----

  /** sizeof(struct nlmsghdr) */
  const MESSAGE_HEADER: nat := 16

  /** A 32-bit word in memory order. */
  function Word32(n: nat): (r: seq<byte>)
    ensures |r| == 4
  {
    Word(n) + Word(n / 0x10000)
  }

  function Word32At(buf: seq<byte>, p: nat): nat
    requires p + 4 <= |buf|
  {
    WordAt(buf, p) + 0x10000 * WordAt(buf, p + 2)
  }

  /** A finished packet: the header with the length of everything, the message, the attributes. */
  function Packet(header: seq<byte>, message: seq<byte>, attrs: seq<Attr>): seq<byte>
    requires |header| == MESSAGE_HEADER - 4
  {
    var body := message + Zeros(Align(|message|) - |message|) + EncodeAll(attrs);
    Word32(MESSAGE_HEADER + |body|) + header + body
  }

  lemma Word32Read(n: nat, rest: seq<byte>)
    requires n < 0x1_0000_0000
    ensures Word32At(Word32(n) + rest, 0) == n
  {
    var buf := Word32(n) + rest;
    assert buf[0] == n % 256 && buf[1] == n / 256 % 256;
    assert buf[2] == n / 0x10000 % 256 && buf[3] == n / 0x10000 / 256 % 256;
    assert n / 0x10000 / 256 < 256;
  }

  /** The whole round trip: iterating a finished packet gives back what was built and stops at nlmsg_len. */
  lemma PacketRoundTrip(header: seq<byte>, message: seq<byte>, attrs: seq<Attr>)
    requires |header| == MESSAGE_HEADER - 4 && AllFit(attrs)
    requires |Packet(header, message, attrs)| < 0x1_0000_0000
    ensures var buf := Packet(header, message, attrs);
            Word32At(buf, 0) == |buf| && Reads(buf, MESSAGE_HEADER + Align(|message|), Word32At(buf, 0), attrs)
  {
    var buf := Packet(header, message, attrs);
    var body := message + Zeros(Align(|message|) - |message|) + EncodeAll(attrs);
    var front := Word32(MESSAGE_HEADER + |body|) + header + (message + Zeros(Align(|message|) - |message|));
    assert buf == front + EncodeAll(attrs);
    assert buf == Word32(|buf|) + (header + body);
    Word32Read(|buf|, header + body);
    assert At(buf, |front|, EncodeAll(attrs));
    ReadsAll(buf, |front|, |buf|, attrs);
  }
}
