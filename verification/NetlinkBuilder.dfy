/** NetlinkBuilder and the iteration of NetlinkAttrs, proved against the format. */
module NetlinkBuilders {
  import opened Common
  import opened Netlink

  /** memcpy() over the part `a` of a buffer. */
  lemma Overwrite(before: seq<byte>, a: seq<byte>, rest: seq<byte>, bytes: seq<byte>)
    requires |bytes| == |a|
    ensures var buffer := before + a + rest;
            buffer[..|before|] + bytes + buffer[|before| + |bytes|..] == before + bytes + rest
  {
  }

  /** Header and payload copied into a zero-filled extension of the buffer. */
  lemma AttrWrites(before: seq<byte>, header: seq<byte>, payload: seq<byte>, size: nat)
    requires |header| == HEADER && HEADER + |payload| <= size
    ensures var b0 := before + Zeros(size);
            var b1 := b0[..|before|] + header + b0[|before| + |header|..];
            b1[..|before| + HEADER] + payload + b1[|before| + HEADER + |payload|..]
            == before + (header + payload + Zeros(size - (HEADER + |payload|)))
  {
    var b0 := before + Zeros(size);
    var b1 := b0[..|before|] + header + b0[|before| + |header|..];
    assert b1 == before + header + Zeros(size - HEADER);
  }

  class NetlinkBuilder {
    var buffer: seq<byte>
    var offset: nat

    ghost predicate Valid()
      reads this
    {
      offset == |buffer| && offset % 4 == 0
    }

    constructor ()
      ensures Valid() && buffer == []
    {
      buffer, offset := [], 0;
    }

    /** Buffer contents after resize() to a larger size. */
    method Resize(size: nat)
      requires size >= |buffer|
      modifies `buffer
      ensures buffer == old(buffer) + Zeros(size - |old(buffer)|)
    {
      buffer := buffer + Zeros(size - |buffer|);
    }

    /** memcpy() into the buffer. */
    method Copy(at: nat, bytes: seq<byte>)
      requires at + |bytes| <= |buffer|
      modifies `buffer
      ensures buffer == old(buffer)[..at] + bytes + old(buffer)[at + |bytes|..]
    {
      buffer := buffer[..at] + bytes + buffer[at + |bytes|..];
    }

    method BufferAlign()
      requires offset == |buffer|
      modifies this
      ensures Valid() && buffer == old(buffer) + Zeros(Align(old(offset)) - old(offset))
      ensures old(offset) % 4 == 0 ==> buffer == old(buffer)
    {
      var size := Align(offset);
      if offset != size { Resize(size); }
      offset := size;
      assert old(offset) == size ==> buffer == old(buffer) + Zeros(0);
    }

    /** header() and message(): raw bytes, then alignment. */
    method Raw(bytes: seq<byte>)
      requires Valid()
      modifies this
      ensures Valid() && buffer == old(buffer) + bytes + Zeros(Align(|bytes|) - |bytes|)
    {
      ghost var before := buffer;
      Resize(offset + |bytes|);
      Copy(offset, bytes);
      assert buffer == before + bytes;
      offset := offset + |bytes|;
      BufferAlign();
      AlignAfter(|before|, |bytes|);
    }

    /**
     Room for an attribute, its header and its payload. The room comes from the length after
     it was cut off; `inside` tells whether the copies stay in the buffer, and if not, the
     method stops before they leave it.
     */
    method WriteAttr(kind: byte, payload: seq<byte>) returns (inside: bool)
      requires Valid()
      modifies `buffer
      ensures inside <==> Writable(Data(kind, payload))
      ensures inside ==> buffer == old(buffer) + Encode(Data(kind, payload))
    {
      var length := HEADER + |payload|;
      RoomIff(length);
      ghost var before := buffer;
      Resize(offset + Room(length));
      inside := offset + HEADER + |payload| <= |buffer|;
      if !inside { return; }
      AttrWrites(before, HeaderBytes(length, kind), payload, Align(length));
      Copy(offset, HeaderBytes(length, kind));
      Copy(offset + HEADER, payload);
    }

    /** nlattr() for a payload of any type; a string brings its terminator along. */
    method NlAttr(kind: byte, payload: seq<byte>) returns (inside: bool)
      requires Valid()
      modifies this
      ensures inside <==> Writable(Data(kind, payload))
      ensures inside ==> Valid() && buffer == old(buffer) + Encode(Data(kind, payload))
    {
      RoomIff(HEADER + |payload|);
      inside := WriteAttr(kind, payload);
      if !inside { return; }
      offset := offset + Room(HEADER + |payload|);
      BufferAlign();
    }

    method NlAttrString(kind: byte, text: seq<byte>) returns (inside: bool)
      requires Valid()
      modifies this
      ensures inside <==> Writable(Text(kind, text))
      ensures inside ==> Valid() && buffer == old(buffer) + Encode(Text(kind, text))
    {
      inside := NlAttr(kind, text + [0]);
    }

    /** nested_nlattr(): the callback builds the children, then the length is filled in. */
    method NestedNlAttr(kind: byte, children: seq<Attr>) returns (inside: bool)
      requires Valid()
      modifies this
      ensures inside <==> Writable(Nested(kind, children))
      ensures inside ==> Valid() && buffer == old(buffer) + Encode(Nested(kind, children))
      decreases children, 1
    {
      ghost var before := buffer;
      var prevOffset := offset;
      Resize(offset + HEADER);
      Copy(offset + 2, Word(kind));
      assert buffer == before + Zeros(2) + Word(kind);
      offset := offset + HEADER;
      inside := AppendAll(children);
      if !inside { return; }
      ghost var body := EncodeAll(children);
      assert buffer == before + Zeros(2) + (Word(kind) + body);
      Overwrite(before, Zeros(2), Word(kind) + body, Word(HEADER + |body|));
      Copy(prevOffset, Word(offset - prevOffset));
      NestedBytes(before, kind, children);
      BufferAlign();
    }

    method Append(a: Attr) returns (inside: bool)
      requires Valid()
      modifies this
      ensures inside <==> Writable(a)
      ensures inside ==> Valid() && buffer == old(buffer) + Encode(a)
      decreases a, 0
    {
      match a
      case Data(kind, payload) => inside := NlAttr(kind, payload);
      case Text(kind, text) => inside := NlAttrString(kind, text);
      case Nested(kind, children) => inside := NestedNlAttr(kind, children);
    }

    method AppendAll(attrs: seq<Attr>) returns (inside: bool)
      requires Valid()
      modifies this
      ensures inside <==> AllWritable(attrs)
      ensures inside ==> Valid() && buffer == old(buffer) + EncodeAll(attrs)
      decreases attrs, 0
    {
      inside := true;
      if attrs != [] {
        ghost var before := buffer;
        inside := Append(attrs[0]);
        if !inside { return; }
        inside := AppendAll(attrs[1..]);
        assert inside ==> buffer == before + (Encode(attrs[0]) + EncodeAll(attrs[1..]));
      }
    }

    /** packet(): the length of everything goes to the front. */
    method Finish() returns (packet: seq<byte>)
      requires Valid() && |buffer| >= 4
      modifies `buffer
      ensures packet == Word32(|old(buffer)|) + old(buffer)[4..]
    {
      Copy(0, Word32(offset));
      packet := buffer;
    }
  }

  lemma NestedBytes(before: seq<byte>, kind: byte, children: seq<Attr>)
    ensures var body := EncodeAll(children);
            before + Word(HEADER + |body|) + (Word(kind) + body) == before + Encode(Nested(kind, children))
  {
    var body := EncodeAll(children);
    assert Payload(Nested(kind, children)) == body;
    assert Zeros(Align(HEADER + |body|) - (HEADER + |body|)) == [];
  }

  lemma AlignAfter(offset: nat, size: nat)
    requires offset % 4 == 0
    ensures Align(offset + size) == offset + Align(size)
  {
  }

  /** A message built from scratch: exactly if the builder stays inside its buffer. */
  method Build(header: seq<byte>, message: seq<byte>, attrs: seq<Attr>) returns (packet: Option<seq<byte>>)
    requires |header| == MESSAGE_HEADER - 4
    ensures packet == if AllWritable(attrs) then Some(Packet(header, message, attrs)) else None
  {
    var builder := new NetlinkBuilder();
    builder.Raw(Zeros(4) + header);
    builder.Raw(message);
    var inside := builder.AppendAll(attrs);
    if !inside { return None; }
    var bytes := builder.Finish();
    ghost var body := message + Zeros(Align(|message|) - |message|) + EncodeAll(attrs);
    assert bytes == Word32(MESSAGE_HEADER + |body|) + header + body;
    packet := Some(bytes);
  }

  /** The positions of a range from p on, one attribute after the other. */
  function Walk(buf: seq<byte>, p: nat, end: nat): seq<nat>
    requires Tiled(buf, p, end)
    decreases end - p
  {
    if p == end then [] else [p] + Walk(buf, NextAt(buf, p), end)
  }

  /** The attributes that were written lie at the positions of the walk. */
  lemma {:induction false} WalkReads(buf: seq<byte>, p: nat, end: nat, attrs: seq<Attr>)
    requires Reads(buf, p, end, attrs)
    ensures Tiled(buf, p, end) && |Walk(buf, p, end)| == |attrs|
    ensures forall k :: 0 <= k < |attrs| ==> ReadsOne(buf, Walk(buf, p, end)[k], attrs[k])
    decreases attrs
  {
    ReadsIsTiled(buf, p, end, attrs);
    if attrs != [] { WalkReads(buf, NextAt(buf, p), end, attrs[1..]); }
  }

  /** The loop over any attribute range that it gets through. */
  method Iterate(buf: seq<byte>, begin: nat, end: nat) returns (found: seq<nat>)
    requires Tiled(buf, begin, end)
    ensures found == Walk(buf, begin, end)
  {
    var it := begin;
    found := [];
    while it != end
      invariant Tiled(buf, it, end) && Walk(buf, begin, end) == found + Walk(buf, it, end)
      decreases end - it
    {
      WalkFurther(buf, begin, it, end, found);
      found := found + [it];
      it := NextAt(buf, it);
    }
  }

  lemma OneFurther(found: seq<nat>, p: nat, rest: seq<nat>)
    ensures found + ([p] + rest) == (found + [p]) + rest
  {
  }

  lemma WalkFurther(buf: seq<byte>, begin: nat, it: nat, end: nat, found: seq<nat>)
    requires Tiled(buf, begin, end) && Tiled(buf, it, end) && it != end
    requires Walk(buf, begin, end) == found + Walk(buf, it, end)
    ensures it < NextAt(buf, it) <= end && Tiled(buf, NextAt(buf, it), end)
    ensures Walk(buf, begin, end) == (found + [it]) + Walk(buf, NextAt(buf, it), end)
  {
    OneFurther(found, it, Walk(buf, NextAt(buf, it), end));
  }
}
