/**
 The container every bulk transfer is made of: section 7.1.1 of the USB Still Image
 Capture Device Definition 1.0. Twelve header bytes (length, type, code, transaction
 id), then parameters or data.
 */
module Containers {
  import opened Bytes

  const COMMAND: u16 := 1
  const DATA: u16 := 2
  const RESPONSE: u16 := 3

  datatype Container = Container(kind: u16, code: u16, tid: u32, body: seq<byte>)

  /** Containers whose length field is a non-negative C `int`. */
  type Packet = c: Container | 12 + |c.body| <= INT_MAX witness Container(0, 0, 0, [])

  function Header(size: u32, kind: u16, code: u16, tid: u32): (d: seq<byte>)
    ensures |d| == 12
  {
    Le32(size) + Le16(kind) + Le16(code) + Le32(tid)
  }

  function Encode(c: Packet): (d: seq<byte>)
    ensures |d| == 12 + |c.body|
  {
    Header(12 + |c.body|, c.kind, c.code, c.tid) + c.body
  }

  /** What a reader makes of bytes whose length field is exact. */
  function Decode(d: seq<byte>): Option<Packet>
  {
    if 12 <= |d| <= INT_MAX && Get32(d) == |d| then
      Some(Container(Get16(d[4..]), Get16(d[6..]), Get32(d[8..]), d[12..]))
    else
      None
  }

  lemma EncodedFields(c: Packet, rest: seq<byte>)
    ensures var d := Encode(c) + rest;
            Get32(d) == 12 + |c.body| && Get16(d[4..]) == c.kind && Get16(d[6..]) == c.code
            && Get32(d[8..]) == c.tid && d[12..] == c.body + rest
  {
    hide Le32, Le16, Get32, Get16;
    HeaderFields(12 + |c.body|, c.kind, c.code, c.tid, c.body + rest);
    HeaderApart(Header(12 + |c.body|, c.kind, c.code, c.tid), c.body, rest);
  }

  lemma HeaderApart(h: seq<byte>, body: seq<byte>, rest: seq<byte>)
    requires |h| == 12
    ensures h + body + rest == h + (body + rest) && (h + body + rest)[12..] == body + rest
  {
  }

  lemma HeaderFields(size: u32, kind: u16, code: u16, tid: u32, rest: seq<byte>)
    ensures var d := Header(size, kind, code, tid) + rest;
            Get32(d) == size && Get16(d[4..]) == kind && Get16(d[6..]) == code && Get32(d[8..]) == tid
  {
    hide Le32, Le16, Get32, Get16;
    var d := Header(size, kind, code, tid) + rest;
    Get32At([], size, Le16(kind) + Le16(code) + Le32(tid) + rest);
    assert d == [] + Le32(size) + (Le16(kind) + Le16(code) + Le32(tid) + rest) && d[0..] == d;
    Get16At(Le32(size), kind, Le16(code) + Le32(tid) + rest);
    assert d == Le32(size) + Le16(kind) + (Le16(code) + Le32(tid) + rest);
    Get16At(Le32(size) + Le16(kind), code, Le32(tid) + rest);
    assert d == Le32(size) + Le16(kind) + Le16(code) + (Le32(tid) + rest);
    Get32At(Le32(size) + Le16(kind) + Le16(code), tid, rest);
  }

  /** Decoding undoes encoding. */
  lemma DecodeEncode(c: Packet)
    ensures Decode(Encode(c)) == Some(c)
  {
    EncodedFields(c, []);
    assert Encode(c) + [] == Encode(c);
  }

  /** All that a transfer layer knows of a container: its length field counts its bytes. */
  predicate IsBlock(b: seq<byte>)
  {
    12 <= |b| <= INT_MAX && Get32(b) == |b|
  }

  type Block = b: seq<byte> | IsBlock(b)
    witness [12, 0, 0, 0, 0, 0, 0, 0, 0, 0, 0, 0]

  lemma EncodeIsBlock(c: Packet)
    ensures IsBlock(Encode(c))
  {
    EncodedFields(c, []);
    assert Encode(c) + [] == Encode(c);
  }

  lemma GetLength(b: Block, rest: seq<byte>)
    ensures Get32(b + rest) == |b|
  {
  }
}
