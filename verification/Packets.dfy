/**
 Conversion between the containers of the USB transport and the packets of PTP/IP
 (sections 2.3.6, 2.3.9 and 2.3.12 of CIPA DC-005), which bridges clients on the network to
 the camera's USB side (`src/packet.c`).
 */
module Packets {
  import opened Bytes
  import opened Containers

  const COMMAND_REQUEST: u32 := 6
  const COMMAND_RESPONSE: u32 := 7
  const DATA_START: u32 := 9
  const DATA_END: u32 := 12

  const IP_HEADER := 18
  const START_SIZE := 20
  const END_SIZE := 12

  function Le64(x: u64): (d: seq<byte>)
    ensures |d| == 8
  {
    Le32(x % 0x1_0000_0000) + Le32(x / 0x1_0000_0000)
  }

  function Get64(d: seq<byte>): u64
    requires |d| >= 8
  {
    var lo: int, hi: int := Get32(d), Get32(d[4..]);
    lo + hi * 0x1_0000_0000
  }

  // ---- From USB ---------------------------------------------------------------------------

  /** A command request; its data-phase field is never set, so it holds whatever was there. */
  function IpCommand(phase: u32, code: u16, tid: u32, params: seq<byte>): (d: seq<byte>)
    requires IP_HEADER + |params| <= INT_MAX
    ensures |d| == IP_HEADER + |params|
  {
    Le32(IP_HEADER + |params|) + Le32(COMMAND_REQUEST) + Le32(phase) + Le16(code) + Le32(tid) + params
  }

  function IpStart(tid: u32, payload: nat): (d: seq<byte>)
    requires payload <= INT_MAX
    ensures |d| == START_SIZE
  {
    Le32(START_SIZE) + Le32(DATA_START) + Le32(tid) + Le64(payload)
  }

  function IpEnd(tid: u32, payload: seq<byte>): (d: seq<byte>)
    requires END_SIZE + |payload| <= INT_MAX
    ensures |d| == END_SIZE + |payload|
  {
    Le32(END_SIZE + |payload|) + Le32(DATA_END) + Le32(tid) + payload
  }

  function IpResponse(code: u16, tid: u32): (d: seq<byte>)
    ensures |d| == 14
  {
    Le32(14) + Le32(COMMAND_RESPONSE) + Le16(code) + Le32(tid)
  }

  /** Whole parameters only: what is over is dropped. */
  function WholeWords(body: seq<byte>): (r: seq<byte>)
    ensures |r| == |body| / 4 * 4 && r <= body
  {
    body[..|body| / 4 * 4]
  }

  /** conv_usb_packet_to_ip; None for the kinds it does not know. */
  function UsbToIp(c: Packet, phase: u32): Option<seq<byte>>
    requires IP_HEADER + |c.body| <= INT_MAX
  {
    if c.kind == DATA then Some(IpStart(c.tid, |c.body|) + IpEnd(c.tid, c.body))
    else if c.kind == RESPONSE then Some(IpResponse(c.code, c.tid))
    else if c.kind == COMMAND then Some(IpCommand(phase, c.code, c.tid, WholeWords(c.body)))
    else None
  }

  // ---- To USB -----------------------------------------------------------------------------

  /** conv_ip_cmd_packet_to_usb; None where the program gives up. */
  function IpToUsb(d: seq<byte>): Option<Packet>
    requires IP_HEADER <= |d| <= INT_MAX && Get32(d) == |d|
  {
    if Get32(d[4..]) != COMMAND_REQUEST then None
    else Some(Container(COMMAND, Get16(d[12..]), Get32(d[14..]), WholeWords(d[IP_HEADER..])))
  }

  /** What the data packets must bring: the payload the start packet announces. */
  ghost predicate Announced(start: seq<byte>, end: seq<byte>)
  {
    |start| >= START_SIZE && |end| >= END_SIZE
    && Get64(start[12..]) <= Min(|end| - END_SIZE, INT_MAX - 12)
  }

  /** conv_ip_data_packets_to_usb, under the opcode the caller remembers. */
  function IpDataToUsb(start: seq<byte>, end: seq<byte>, opcode: u16): Packet
    requires Announced(start, end)
  {
    Container(DATA, opcode, Get32(start[8..]), end[END_SIZE..END_SIZE + Get64(start[12..])])
  }

  // ---- There and back ---------------------------------------------------------------------

  lemma IpCommandFields(phase: u32, code: u16, tid: u32, params: seq<byte>)
    requires IP_HEADER + |params| <= INT_MAX
    ensures var d := IpCommand(phase, code, tid, params);
            && |d| == 18 + |params| && Get32(d) == |d| && Get32(d[4..]) == 6 && Get32(d[8..]) == phase
            && Get16(d[12..]) == code && Get32(d[14..]) == tid && d[18..] == params
  {
    hide Get32, Get16, Le32, Le16;
    var n := IP_HEADER + |params|;
    var d := IpCommand(phase, code, tid, params);
    Get32At([], n, Le32(COMMAND_REQUEST) + Le32(phase) + Le16(code) + Le32(tid) + params);
    assert d == [] + Le32(n) + (Le32(COMMAND_REQUEST) + Le32(phase) + Le16(code) + Le32(tid) + params) && d[0..] == d;
    Get32At(Le32(n), COMMAND_REQUEST, Le32(phase) + Le16(code) + Le32(tid) + params);
    assert d == Le32(n) + Le32(COMMAND_REQUEST) + (Le32(phase) + Le16(code) + Le32(tid) + params);
    Get32At(Le32(n) + Le32(COMMAND_REQUEST), phase, Le16(code) + Le32(tid) + params);
    assert d == Le32(n) + Le32(COMMAND_REQUEST) + Le32(phase) + (Le16(code) + Le32(tid) + params);
    var h := Le32(n) + Le32(COMMAND_REQUEST) + Le32(phase);
    Get16At(h, code, Le32(tid) + params);
    assert d == h + Le16(code) + (Le32(tid) + params);
    Get32At(h + Le16(code), tid, params);
    assert d == h + Le16(code) + Le32(tid) + params;
  }

  /** A command comes back unchanged exactly if its parameters are whole words. */
  lemma CommandThereAndBackIff(c: Packet, phase: u32)
    requires c.kind == COMMAND && IP_HEADER + |c.body| <= INT_MAX
    ensures var d := UsbToIp(c, phase).value;
            && IP_HEADER <= |d| <= INT_MAX && Get32(d) == |d|
            && IpToUsb(d).Some?
            && (IpToUsb(d).value == c <==> |c.body| % 4 == 0)
            && IpToUsb(d).value.tid == c.tid && IpToUsb(d).value.code == c.code
  {
    hide IpCommand, Get32, Get16;
    IpCommandFields(phase, c.code, c.tid, WholeWords(c.body));
    if |c.body| % 4 == 0 {
      assert WholeWords(c.body) == c.body;
    }
    assert WholeWords(WholeWords(c.body)) == WholeWords(c.body);
  }

  lemma Get64Of(x: u64)
    ensures Get64(Le64(x)) == x
  {
    hide Get32, Le32;
    var lo, hi := x % 0x1_0000_0000, x / 0x1_0000_0000;
    Get32At([], lo, Le32(hi));
    assert [] + Le32(lo) + Le32(hi) == Le64(x) && Le64(x)[0..] == Le64(x);
    Get32At(Le32(lo), hi, []);
    assert Le32(lo) + Le32(hi) + [] == Le64(x);
  }

  lemma StartFields(tid: u32, payload: nat)
    requires payload <= INT_MAX
    ensures var d := IpStart(tid, payload);
            && |d| == 20 == Get32(d) && Get32(d[4..]) == 9 && Get32(d[8..]) == tid && Get64(d[12..]) == payload
            && Get32(d[12..]) == payload && Get32(d[16..]) == 0
  {
    Get64Of(payload);
    hide Get32, Le32, Le64, Get64;
    var d := IpStart(tid, payload);
    Get32At([], START_SIZE, Le32(DATA_START) + Le32(tid) + Le64(payload));
    assert d == [] + Le32(START_SIZE) + (Le32(DATA_START) + Le32(tid) + Le64(payload)) && d[0..] == d;
    Get32At(Le32(START_SIZE), DATA_START, Le32(tid) + Le64(payload));
    assert d == Le32(START_SIZE) + Le32(DATA_START) + (Le32(tid) + Le64(payload));
    Get32At(Le32(START_SIZE) + Le32(DATA_START), tid, Le64(payload));
    assert d[12..] == Le64(payload);
    hide Get64;
    LowWord(payload);
    assert d[12..][4..] == d[16..];
  }

  /** A payload below 2^31 is in the first word. */
  lemma LowWord(x: u32)
    ensures Get32(Le64(x)) == x && Get32(Le64(x)[4..]) == 0
  {
    hide Get32, Le32;
    Get32At([], x, Le32(0));
    assert [] + Le32(x) + Le32(0) == Le64(x) && Le64(x)[0..] == Le64(x);
    Get32At(Le32(x), 0, []);
    assert Le32(x) + Le32(0) + [] == Le64(x);
  }

  /**
   A data container comes back unchanged exactly if the caller names its opcode again: the
   packets in between do not carry it. Each of the two declares its own length.
   */
  lemma DataThereAndBackIff(c: Packet, phase: u32, opcode: u16)
    requires c.kind == DATA && IP_HEADER + |c.body| <= INT_MAX
    ensures var d := UsbToIp(c, phase).value;
            && |d| >= START_SIZE
            && var start, end := d[..START_SIZE], d[START_SIZE..];
            && Announced(start, end)
            && Get32(start) == |start|
            && (IpDataToUsb(start, end, opcode) == c <==> opcode == c.code)
  {
    StartFields(c.tid, |c.body|);
    hide Get32, Get64, Le32, Le64, IpStart;
    var start, end := IpStart(c.tid, |c.body|), IpEnd(c.tid, c.body);
    var d := start + end;
    assert d[..START_SIZE] == start && d[START_SIZE..] == end;
    assert end[END_SIZE..END_SIZE + |c.body|] == c.body;
  }

  lemma EndDeclaresItsLength(tid: u32, payload: seq<byte>)
    requires END_SIZE + |payload| <= INT_MAX
    ensures var d := IpEnd(tid, payload);
            Get32(d) == |d| == 12 + |payload| && Get32(d[4..]) == 12 && Get32(d[8..]) == tid && d[12..] == payload
  {
    hide Get32, Le32;
    var n := END_SIZE + |payload|;
    var d := IpEnd(tid, payload);
    Get32At([], n, Le32(DATA_END) + Le32(tid) + payload);
    assert d == [] + Le32(n) + (Le32(DATA_END) + Le32(tid) + payload) && d[0..] == d;
    Get32At(Le32(n), DATA_END, Le32(tid) + payload);
    assert d == Le32(n) + Le32(DATA_END) + (Le32(tid) + payload);
    Get32At(Le32(n) + Le32(DATA_END), tid, payload);
  }

  /** Responses keep their code and id, and nothing else. */
  lemma ResponseFields(c: Packet, phase: u32)
    requires c.kind == RESPONSE && IP_HEADER + |c.body| <= INT_MAX
    ensures var d := UsbToIp(c, phase).value;
            && |d| == 14 && Get32(d) == 14 && Get32(d[4..]) == 7 && Get16(d[8..]) == c.code
            && Get32(d[10..]) == c.tid
  {
    hide Get32, Get16, Le32, Le16;
    var d := IpResponse(c.code, c.tid);
    Get32At([], 14, Le32(COMMAND_RESPONSE) + Le16(c.code) + Le32(c.tid));
    assert d == [] + Le32(14) + (Le32(COMMAND_RESPONSE) + Le16(c.code) + Le32(c.tid)) && d[0..] == d;
    Get32At(Le32(14), COMMAND_RESPONSE, Le16(c.code) + Le32(c.tid));
    assert d == Le32(14) + Le32(COMMAND_RESPONSE) + (Le16(c.code) + Le32(c.tid));
    Get16At(Le32(14) + Le32(COMMAND_RESPONSE), c.code, Le32(c.tid));
    assert d == Le32(14) + Le32(COMMAND_RESPONSE) + Le16(c.code) + Le32(c.tid);
    Get32At(Le32(14) + Le32(COMMAND_RESPONSE) + Le16(c.code), c.tid, []);
    assert d == Le32(14) + Le32(COMMAND_RESPONSE) + Le16(c.code) + Le32(c.tid) + [];
  }

  /** Two responses that differ only in their parameters become the same packet. */
  lemma ResponsesLoseParameters(a: Packet, b: Packet, phase: u32)
    requires a.kind == RESPONSE == b.kind && IP_HEADER + |a.body| <= INT_MAX && IP_HEADER + |b.body| <= INT_MAX
    ensures UsbToIp(a, phase) == UsbToIp(b, phase) <==> a.code == b.code && a.tid == b.tid
  {
    ResponseFields(a, phase);
    ResponseFields(b, phase);
    hide Get32, Get16, IpResponse;
  }

  // ---- The copy loops -----------------------------------------------------------------------

  /** Copies `n` 32-bit parameters. */
  method CopyParams(from: seq<byte>, to: array<byte>, at: nat, n: nat)
    requires 4 * n <= |from| && at + 4 * n <= to.Length
    modifies to
    ensures to[..] == Written(old(to[..]), at, from[..4 * n])
  {
    hide Written, Le32, Get32;
    ghost var was := to[..];
    NothingCopied(was, at, from);
    for i := 0 to n
      invariant to[..] == Written(was, at, from[..4 * i])
    {
      WordCopied(was, at, from, i);
      var word := from[4 * i..4 * i + 4];
      var _ := PutU32(to, at + 4 * i, Get32(word));
    }
  }

  lemma NothingCopied(buf: seq<byte>, at: nat, from: seq<byte>)
    requires at <= |buf|
    ensures Written(buf, at, from[..4 * 0]) == buf
  {
  }

  lemma WordCopied(buf: seq<byte>, at: nat, from: seq<byte>, i: nat)
    requires 4 * i + 4 <= |from| && at + 4 * i + 4 <= |buf|
    ensures var word := from[4 * i..4 * i + 4];
            Written(Written(buf, at, from[..4 * i]), at + 4 * i, Le32(Get32(word))) == Written(buf, at, from[..4 * (i + 1)])
  {
    var word := from[4 * i..4 * i + 4];
    Le32OfGet32(word);
    assert from[..4 * (i + 1)] == from[..4 * i] + word;
    WrittenOnwards(buf, at, from[..4 * i], word);
    hide Written, Le32, Get32;
  }

  /** The 18 header bytes, all but the data-phase field. */
  method PutIpHeader(req: array<byte>, length: u32, code: u16, tid: u32)
    requires req.Length >= IP_HEADER
    modifies req
    ensures req[..IP_HEADER] == Le32(length) + Le32(COMMAND_REQUEST) + old(req[8..12]) + Le16(code) + Le32(tid)
    ensures req[IP_HEADER..] == old(req[IP_HEADER..])
  {
    hide Le32, Le16, Written;
    HeaderWritten(req[..], Le32(length), Le32(COMMAND_REQUEST), Le16(code), Le32(tid));
    assert req[8..12] == req[..][8..12] && req[IP_HEADER..] == req[..][IP_HEADER..];
    var _ := PutU32(req, 0, length);
    var _ := PutU32(req, 4, COMMAND_REQUEST);
    var _ := PutU16(req, 12, code);
    var _ := PutU32(req, 14, tid);
    assert req[..IP_HEADER] == req[..][..IP_HEADER] && req[IP_HEADER..] == req[..][IP_HEADER..];
  }

  lemma HeaderWritten(buf: seq<byte>, a: seq<byte>, b: seq<byte>, c: seq<byte>, d: seq<byte>)
    requires |buf| >= 18 && |a| == 4 && |b| == 4 && |c| == 2 && |d| == 4
    ensures var r := Written(Written(Written(Written(buf, 0, a), 4, b), 12, c), 14, d);
            r[..18] == a + b + buf[8..12] + c + d && r[18..] == buf[18..]
  {
    var r1 := Written(buf, 0, a);
    var r2 := Written(r1, 4, b);
    var r3 := Written(r2, 12, c);
    var r4 := Written(r3, 14, d);
    assert r2[..12] == a + b + buf[8..12] && r2[12..] == buf[12..];
    assert r3[..14] == r2[..12] + c && r3[14..] == buf[14..];
    assert r4[..18] == r3[..14] + d && r4[18..] == buf[18..];
  }

  /** The command branch of conv_usb_packet_to_ip over real buffers; `req` comes from malloc. */
  method ConvCommand(c: Packet, req: array<byte>)
    requires c.kind == COMMAND && IP_HEADER + |c.body| <= INT_MAX && req.Length == IP_HEADER + |c.body| / 4 * 4
    modifies req
    ensures Some(req[..]) == UsbToIp(c, Get32(old(req[8..12])))
  {
    hide Get32, Le32, Le16;
    var paramLength := |c.body| / 4;
    Le32OfGet32(req[8..12]);
    PutIpHeader(req, 18 + 4 * paramLength, c.code, c.tid);
    ghost var head := req[..];
    CopyParams(c.body, req, 18, paramLength);
    assert req[..] == head[..18] + WholeWords(c.body);
  }

  /** conv_ip_cmd_packet_to_usb over real buffers. */
  method ConvIpCommand(d: seq<byte>, c: array<byte>) returns (ok: bool)
    requires IP_HEADER <= |d| <= INT_MAX && Get32(d) == |d| && c.Length == 12 + (|d| - IP_HEADER) / 4 * 4
    modifies c
    ensures ok <==> IpToUsb(d).Some?
    ensures ok ==> c[..] == Encode(IpToUsb(d).value)
  {
    hide Get32, Get16, Le32, Le16;
    if Get32(d[4..]) != COMMAND_REQUEST {
      return false;
    }
    var paramLength := (|d| - 18) / 4;
    var body := d[18..];
    var _ := PutBytes(c, 0, Header(12 + 4 * paramLength, COMMAND, Get16(d[12..]), Get32(d[14..])));
    ghost var head := c[..];
    CopyParams(body, c, 12, paramLength);
    assert c[..] == head[..12] + WholeWords(body);
    return true;
  }
}
