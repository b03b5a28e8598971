/**
 What one write of the host does, in terms of the bytes alone: whether a container is
 complete, when it is refused before any handler sees it, and what the handler sees
 otherwise (`src/vcamera.c`).
 */
module WriteAnswers {
  import opened Bytes
  import opened Containers
  import opened Replies
  import opened Transactions
  import opened Framing

  /** A container the camera refuses as it stands. */
  ghost predicate Refused(d: seq<byte>)
  {
    || |d| < 12
    || (var kind := Get16(d[4..]); kind != 1 && kind != 2)
    || (var code := Get16(d[6..]); !(0x1000 <= code < 0x2000) && !(0x9000 <= code < 0xA000) && code != 0xBEEF)
    || (Get16(d[4..]) == 1 && |d| !in {12, 16, 20, 24, 28, 32})
  }

  /** A general error under the camera's own id, and nothing else. */
  ghost predicate Complains(c: Camera, c': Camera)
  {
    && c'.sent == c.sent + [Container(3, 0x2002, c.seqnr, [])]
    && c' == c.(sent := c'.sent, seqnr := if c.seqnr == 0xffff_ffff then 0 else c.seqnr + 1)
  }

  /** The parameters of a command, word after word. */
  ghost predicate Params(d: seq<byte>, params: seq<u32>)
    requires |d| >= 12
  {
    |params| == (|d| - 12) / 4 && forall k :: 0 <= k < |params| ==> params[k] == Get32(d[12 + 4 * k..])
  }

  ghost predicate Receives(c: Camera, c': Camera, d: seq<byte>)
    requires |d| >= 12
  {
    if Get16(d[4..]) == 1 then
      exists params: seq<u32> :: Params(d, params) && c' == Transact(c, Txn(Get16(d[6..]), params, None), Get32(d[8..]))
    else
      c' == DataPhase(c, Get16(d[6..]), d[12..])
  }

  lemma RefusedIs(d: seq<byte>)
    requires |d| >= 4
    ensures Malformed(d) <==> Refused(d)
  {
    hide Get16;
    if |d| >= 12 {
      Nibbles(Get16(d[6..]));
    }
  }

  /** The mask 0x7000 leaves the top bit out. */
  lemma Nibbles(code: u16)
    ensures code / 0x1000 % 8 == 1 <==> 0x1000 <= code < 0x2000 || 0x9000 <= code < 0xA000
  {
    var n := code / 0x1000;
    assert 0x1000 * n <= code < 0x1000 * n + 0x1000;
    assert n < 16;
  }

  lemma ParamsAre(d: seq<byte>)
    requires |d| >= 12
    ensures Params(d, GetWords(d[12..]))
  {
    hide GetWords, Get32;
    var ps := GetWords(d[12..]);
    forall k | 0 <= k < |ps|
      ensures ps[k] == Get32(d[12 + 4 * k..])
    {
      WordAt(d[12..], k);
      assert d[12..][4 * k..] == d[12 + 4 * k..];
    }
  }

  lemma RefuseComplains(c: Camera)
    ensures Complains(c, Refuse(c, RC_GENERAL_ERROR))
  {
    assert Words([]) == [];
  }

  lemma ReceiveIs(c: Camera, d: seq<byte>)
    requires |d| >= 4
    ensures Refused(d) ==> Complains(c, Receive(c, d))
    ensures !Refused(d) ==> |d| >= 12 && Receives(c, Receive(c, d), d)
  {
    RefusedIs(d);
    RefuseComplains(c);
    hide Refused, Complains, Refuse, Command, DataPhase, GetWords, Get32, Get16;
    if !Malformed(d) {
      ParamsAre(d);
      hide Params;
      if Get16(d[4..]) == COMMAND {
        assert Receive(c, d) == Transact(c, Txn(Get16(d[6..]), GetWords(d[12..]), None), Get32(d[8..]));
      }
    }
  }

  /**
   A write: an incomplete container waits; one that is refused is moved out of the buffer;
   of any other the handler is run, and the buffer loses as many bytes from its end.
   */
  lemma WriteIs(w: Wire, data: seq<byte>)
    ensures var ob, w' := w.outbulk + data, Write(w, data);
            if |ob| < 4 || Get32(ob) > |ob| then
              w' == w.(outbulk := ob)
            else if Refused(ob[..Get32(ob)]) then
              w'.outbulk == ob[Get32(ob)..] && Complains(w.cam, w'.cam)
            else
              12 <= Get32(ob) && w'.outbulk == ob[..|ob| - Get32(ob)] && Receives(w.cam, w'.cam, ob[..Get32(ob)])
  {
    hide Refused, Complains, Receives, Receive, Malformed, Refuse, Get32;
    var ob := w.outbulk + data;
    RefuseComplains(w.cam);
    if |ob| >= 4 && Get32(ob) <= |ob| {
      var d := ob[..Get32(ob)];
      if |d| >= 4 {
        ReceiveIs(w.cam, d);
        RefusedIs(d);
      } else {
        ShortIsRefused(d);
      }
    }
  }

  lemma ShortIsRefused(d: seq<byte>)
    requires |d| < 4
    ensures Refused(d)
  {
  }
}
