/**
 How the bytes a host writes become containers: whatever arrives is appended to one buffer,
 and each write lets at most one complete container out of it (`src/vcamera.c`).
 */
module Framing {
  import opened Bytes
  import opened Containers
  import opened Replies
  import opened Transactions

  const MAX_PARAMS := 5

  /** `outbulk[..nroutbulk]` and the camera behind it. */
  datatype Wire = Wire(outbulk: seq<byte>, cam: Camera)

  /** `(code & 0x7000) == 0x1000`, or the code kept for testing. */
  predicate AllowedCode(code: u16)
  {
    code / 0x1000 % 8 == 1 || code == VUSB
  }

  /** The containers the camera refuses before looking for a handler. */
  predicate Malformed(d: seq<byte>)
    requires |d| >= 4
  {
    |d| < 12
    || (Get16(d[4..]) != COMMAND && Get16(d[4..]) != DATA)
    || !AllowedCode(Get16(d[6..]))
    || (Get16(d[4..]) == COMMAND && (|d| % 4 != 0 || (|d| - 12) / 4 > MAX_PARAMS))
  }

  /** What a complete container makes the camera do. */
  function Receive(c: Camera, d: seq<byte>): Camera
    requires |d| >= 4
  {
    if Malformed(d) then Refuse(c, RC_GENERAL_ERROR)
    else if Get16(d[4..]) == COMMAND then Command(c, Request(Get16(d[6..]), Get32(d[8..]), GetWords(d[12..])))
    else DataPhase(c, Get16(d[6..]), d[12..])
  }

  /**
   vcam_process_output. A refused container is moved out of the buffer; an accepted one is
   only subtracted from the byte count, so that what stays is the front of the buffer.
   */
  function ProcessOutput(w: Wire): Wire
  {
    var ob := w.outbulk;
    if |ob| < 4 then w
    else
      var size := Get32(ob);
      if size > |ob| then w
      else if size < 4 then Wire(ob[size..], Refuse(w.cam, RC_GENERAL_ERROR))
      else if Malformed(ob[..size]) then Wire(ob[size..], Receive(w.cam, ob[..size]))
      else Wire(ob[..|ob| - size], Receive(w.cam, ob[..size]))
  }

  /** vcam_write */
  function Write(w: Wire, data: seq<byte>): Wire
  {
    ProcessOutput(w.(outbulk := w.outbulk + data))
  }

  function Feed(w: Wire, chunks: seq<seq<byte>>): Wire
    decreases |chunks|
  {
    if chunks == [] then w else Feed(Write(w, chunks[0]), chunks[1..])
  }

  // ---- Any chunking within packets is as good as whole packets -----------------------------

  /** A container whose declared length is the number of its bytes, and covers its length field. */
  ghost predicate IsPacket(p: seq<byte>)
  {
    |p| >= 4 && Get32(p) == |p|
  }

  lemma {:induction false} FeedAppend(w: Wire, a: seq<seq<byte>>, b: seq<seq<byte>>)
    ensures Feed(w, a + b) == Feed(Feed(w, a), b)
    decreases |a|
  {
    if a == [] {
      assert a + b == b;
    } else {
      FeedAppend(Write(w, a[0]), a[1..], b);
      assert (a + b)[1..] == a[1..] + b;
    }
  }

  /** While a packet is incomplete the camera only collects. */
  lemma PartWaits(w: Wire, p: seq<byte>, n: nat, data: seq<byte>)
    requires IsPacket(p) && n < |p| && w.outbulk + data == p[..n]
    ensures Write(w, data) == w.(outbulk := p[..n])
  {
    if n >= 4 {
      Get32Prefix(p, n);
    }
  }

  lemma WholeIsReceived(w: Wire, p: seq<byte>, data: seq<byte>)
    requires IsPacket(p) && w.outbulk + data == p
    ensures Write(w, data) == Wire([], Receive(w.cam, p))
  {
    assert p[..|p|] == p && p[|p|..] == [] && p[..|p| - |p|] == [];
  }

  lemma {:induction false} EmptyWrites(w: Wire, chunks: seq<seq<byte>>)
    requires w.outbulk == [] && Flatten(chunks) == []
    ensures Feed(w, chunks) == w
    decreases |chunks|
  {
    if chunks == [] {
    } else {
      assert chunks[0] == [];
      assert Write(w, []) == w;
      EmptyWrites(w, chunks[1..]);
    }
  }

  /** The chunks that complete one packet, after `n` of its bytes. */
  lemma {:induction false} ChunksReceive(w: Wire, p: seq<byte>, n: nat, chunks: seq<seq<byte>>)
    requires IsPacket(p) && n < |p| && w.outbulk == p[..n] && Flatten(chunks) == p[n..]
    ensures Feed(w, chunks) == Wire([], Receive(w.cam, p))
    decreases |chunks|
  {
    var m := n + |chunks[0]|;
    assert p[n..] == chunks[0] + Flatten(chunks[1..]);
    assert p[n..][..|chunks[0]|] == chunks[0] && p[n..][|chunks[0]|..] == Flatten(chunks[1..]);
    assert p[..n] + chunks[0] == p[..m] && p[m..] == Flatten(chunks[1..]);
    hide IsPacket, Receive, ProcessOutput, Write;
    if m < |p| {
      PartWaits(w, p, m, chunks[0]);
      ChunksReceive(Write(w, chunks[0]), p, m, chunks[1..]);
    } else {
      assert p[..m] == p;
      WholeIsReceived(w, p, chunks[0]);
      EmptyWrites(Write(w, chunks[0]), chunks[1..]);
    }
  }

  /** What the camera is after a sequence of packets. */
  ghost function ReceiveAll(c: Camera, packets: seq<seq<byte>>): Camera
    requires forall i :: 0 <= i < |packets| ==> IsPacket(packets[i])
    decreases |packets|
  {
    if packets == [] then c
    else
      assert IsPacket(packets[0]);
      ReceiveAll(Receive(c, packets[0]), packets[1..])
  }

  /**
   For every chunking that does not cut across packets, the camera ends up in the state and
   has sent the bytes that it has after receiving the packets one by one.
   */
  lemma {:induction false} ChunkingIsInvisible(w: Wire, packets: seq<seq<byte>>, groups: seq<seq<seq<byte>>>)
    requires w.outbulk == [] && |groups| == |packets|
    requires forall i :: 0 <= i < |packets| ==> IsPacket(packets[i]) && Flatten(groups[i]) == packets[i]
    ensures Feed(w, Flatten(groups)) == Wire([], ReceiveAll(w.cam, packets))
    decreases |packets|
  {
    if packets == [] {
    } else {
      var p, g := packets[0], groups[0];
      assert IsPacket(p) && p[..0] == [] && p[0..] == p;
      ChunksReceive(w, p, 0, g);
      hide IsPacket, Receive;
      FeedAppend(w, g, Flatten(groups[1..]));
      ChunkingIsInvisible(Wire([], Receive(w.cam, p)), packets[1..], groups[1..]);
    }
  }

  /** Two chunkings of the same packets cannot be told apart. */
  lemma ChunkingsAgree(w: Wire, packets: seq<seq<byte>>, a: seq<seq<seq<byte>>>, b: seq<seq<seq<byte>>>)
    requires w.outbulk == [] && |a| == |b| == |packets|
    requires forall i :: 0 <= i < |packets| ==>
               IsPacket(packets[i]) && Flatten(a[i]) == packets[i] && Flatten(b[i]) == packets[i]
    ensures Feed(w, Flatten(a)) == Feed(w, Flatten(b))
  {
    ChunkingIsInvisible(w, packets, a);
    ChunkingIsInvisible(w, packets, b);
  }

  // ---- Chunks that cross a boundary --------------------------------------------------------

  /**
   A write that brings a packet and more: the packet is received, but the bytes after it
   stay behind intact only if the packet was refused, or if they happen to be what the
   buffer starts with.
   */
  lemma CrossingIff(w: Wire, p: seq<byte>, more: seq<byte>)
    requires IsPacket(p) && w.outbulk == []
    ensures Write(w, p + more).cam == Receive(w.cam, p)
    ensures Write(w, p + more).outbulk == more <==> Malformed(p) || (p + more)[..|more|] == more
  {
    assert Get32(p + more) == Get32(p);
    assert (p + more)[..|p|] == p && (p + more)[|p|..] == more && [] + (p + more) == p + more;
  }

  /** An OpenSession and a CloseSession in one write: the close is lost for good. */
  lemma CrossingLoses(c: Camera)
    ensures var open := Encode(Container(COMMAND, OPEN_SESSION, 1, Words([1])));
            var close := Encode(Container(COMMAND, CLOSE_SESSION, 2, []));
            && IsPacket(open) && IsPacket(close)
            && Write(Wire([], c), open + close).outbulk != close
  {
    var open := Encode(Container(COMMAND, OPEN_SESSION, 1, Words([1])));
    var close := Encode(Container(COMMAND, CLOSE_SESSION, 2, []));
    EncodedFields(Container(COMMAND, OPEN_SESSION, 1, Words([1])), []);
    EncodedFields(Container(COMMAND, CLOSE_SESSION, 2, []), []);
    assert open + [] == open && close + [] == close;
    hide Encode, Words;
    assert !Malformed(open) by {
      hide Get32;
    }
    hide Malformed, Write;
    CrossingIff(Wire([], c), open, close);
    assert (open + close)[..12] == open[..12];
    assert Get32(open[..12]) == Get32(open);
  }

  // ---- Encoded requests reach their handlers ------------------------------------------------

  /** The bytes of a command with up to five parameters are received as that command. */
  lemma CommandArrives(c: Camera, req: Request)
    requires |req.params| <= MAX_PARAMS && AllowedCode(req.code)
    ensures var d := Encode(Container(COMMAND, req.code, req.tid, Words(req.params)));
            IsPacket(d) && Receive(c, d) == Command(c, req)
  {
    hide Encode, Get32, Get16, GetWords, Words, Command;
    var k := Container(COMMAND, req.code, req.tid, Words(req.params));
    EncodedFields(k, []);
    assert Encode(k) + [] == Encode(k) && k.body + [] == k.body;
    GetWordsOfWords(req.params);
  }

  lemma DataArrives(c: Camera, code: u16, tid: u32, data: seq<byte>)
    requires 12 + |data| <= INT_MAX && AllowedCode(code)
    ensures var d := Encode(Container(DATA, code, tid, data));
            IsPacket(d) && Receive(c, d) == DataPhase(c, code, data)
  {
    var k := Container(DATA, code, tid, data);
    EncodedFields(k, []);
    assert Encode(k) + [] == Encode(k) && k.body + [] == k.body;
    hide Encode, Get32, Get16, DataPhase;
  }

  /** What a client may ask for without being refused for the form of it. */
  predicate Sendable(t: Txn)
  {
    |t.params| <= MAX_PARAMS && AllowedCode(t.code) && (t.data.Some? ==> 12 + |t.data.value| <= INT_MAX)
  }

  function CommandPacket(t: Txn, tid: u32): seq<byte>
    requires Sendable(t)
  {
    Encode(Container(COMMAND, t.code, tid, Words(t.params)))
  }

  function PacketsOf(t: Txn, tid: u32): seq<seq<byte>>
    requires Sendable(t)
  {
    [CommandPacket(t, tid)] + if t.data.Some? then [Encode(Container(DATA, t.code, tid, t.data.value))] else []
  }

  lemma TransactionArrives(c: Camera, t: Txn, tid: u32)
    requires Sendable(t)
    ensures forall i :: 0 <= i < |PacketsOf(t, tid)| ==> IsPacket(PacketsOf(t, tid)[i])
    ensures ReceiveAll(c, PacketsOf(t, tid)) == Transact(c, t, tid)
  {
    var req := Request(t.code, tid, t.params);
    CommandArrives(c, req);
    var c1 := Command(c, req);
    if t.data.Some? {
      DataArrives(c1, t.code, tid, t.data.value);
    }
    hide IsPacket, Receive, Command, DataPhase, Encode;
    assert PacketsOf(t, tid)[1..] == if t.data.Some? then [Encode(Container(DATA, t.code, tid, t.data.value))] else [];
    if t.data.Some? {
      assert PacketsOf(t, tid)[1..][1..] == [];
      assert ReceiveAll(c1, PacketsOf(t, tid)[1..]) == DataPhase(c1, t.code, t.data.value);
    }
  }

  lemma ReceiveFirst(c: Camera, packets: seq<seq<byte>>)
    requires packets != [] && forall i :: 0 <= i < |packets| ==> IsPacket(packets[i])
    ensures |packets[0]| >= 4 && ReceiveAll(c, packets) == ReceiveAll(Receive(c, packets[0]), packets[1..])
  {
    assert IsPacket(packets[0]);
    hide Receive;
  }

  lemma {:induction false} ReceiveAppend(c: Camera, a: seq<seq<byte>>, b: seq<seq<byte>>)
    requires forall i :: 0 <= i < |a| ==> IsPacket(a[i])
    requires forall i :: 0 <= i < |b| ==> IsPacket(b[i])
    ensures ReceiveAll(c, a + b) == ReceiveAll(ReceiveAll(c, a), b)
    decreases |a|
  {
    hide IsPacket, Receive;
    if a == [] {
      assert a + b == b;
    } else {
      hide *;
      ReceiveFirst(c, a);
      ReceiveFirst(c, a + b);
      ReceiveAppend(Receive(c, a[0]), a[1..], b);
      assert (a + b)[1..] == a[1..] + b;
    }
  }

  /** The packets of a session's transactions, numbered by the client from `tid`. */
  function SessionPackets(tid: u32, ts: seq<Txn>): seq<seq<byte>>
    requires forall i :: 0 <= i < |ts| ==> Sendable(ts[i])
  {
    if ts == [] then [] else SessionPackets(tid, ts[..|ts| - 1]) + PacketsOf(ts[|ts| - 1], Id(tid, |ts| - 1))
  }

  lemma {:induction false} SessionArrives(c: Camera, tid: u32, ts: seq<Txn>)
    requires forall i :: 0 <= i < |ts| ==> Sendable(ts[i])
    ensures forall i :: 0 <= i < |SessionPackets(tid, ts)| ==> IsPacket(SessionPackets(tid, ts)[i])
    ensures ReceiveAll(c, SessionPackets(tid, ts)) == RunFrom(c, tid, ts)
    decreases |ts|
  {
    if ts == [] {
    } else {
      var n := |ts| - 1;
      SessionArrives(c, tid, ts[..n]);
      var c1 := RunFrom(c, tid, ts[..n]);
      TransactionArrives(c1, ts[n], Id(tid, n));
      hide IsPacket, PacketsOf, Transact, Sendable, ReceiveAll, Id;
      ReceiveAppend(c, SessionPackets(tid, ts[..n]), PacketsOf(ts[n], Id(tid, n)));
    }
  }

  /**
   From bytes to answers. A client that opened a session sends its transactions cut into
   writes in any way that does not cut across packets: the camera ends where the
   transactions lead, one at a time, and has answered each of them once under its own id.
   */
  lemma AnyChunkingIsAnswered(c: Camera, ts: seq<Txn>, groups: seq<seq<seq<byte>>>)
    requires c.session != 0 && forall i :: 0 <= i < |ts| ==> Sendable(ts[i]) && Fits(ts[i])
    requires var packets := SessionPackets(c.seqnr, ts);
             |groups| == |packets| && forall i :: 0 <= i < |packets| ==> Flatten(groups[i]) == packets[i]
    ensures Feed(Wire([], c), Flatten(groups)) == Wire([], RunFrom(c, c.seqnr, ts))
    ensures AnsweredAll(c, c.seqnr, ts)
  {
    hide *;
    SessionArrives(c, c.seqnr, ts);
    ChunkingIsInvisible(Wire([], c), SessionPackets(c.seqnr, ts), groups);
    RunStaysInStep(c, ts);
  }
}
