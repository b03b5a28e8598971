/**
 The response code of every transaction, over the containers it appends: the session
 operations, both phases of a property write and of the checksum, property reads, and what
 any operation is answered with that is unknown or comes without a session (`src/ops.c`,
 `src/vcamera.c`).
 */
module SessionAnswers {
  import opened Bytes
  import opened Containers
  import opened PropTypes
  import opened Replies
  import opened Transactions
  import Catalog
  import Downloads
  import Listings
  import ObjectStore

  /** One response more, without parameters, under `tid`. */
  ghost predicate Says(c: Camera, c': Camera, rc: u16, tid: u32)
  {
    c'.sent == c.sent + [Container(3, rc, tid, [])]
  }

  /** Two of them, counted on by one. */
  ghost predicate SaysTwice(c: Camera, c': Camera, rc1: u16, rc2: u16, tid: u32)
  {
    c'.sent == c.sent + [Container(3, rc1, tid, []), Container(3, rc2, if tid == 0xffff_ffff then 0 else tid + 1, [])]
  }

  /** The code of the last container. */
  ghost function LastCode(c: Camera): u16
    requires c.sent != []
  {
    c.sent[|c.sent| - 1].code
  }

  lemma RefuseSays(c: Camera, rc: u16)
    ensures Says(c, Refuse(c, rc), rc, c.seqnr)
    ensures Refuse(c, rc).seqnr == if c.seqnr == 0xffff_ffff then 0 else c.seqnr + 1
    ensures Refuse(c, rc) == c.(sent := Refuse(c, rc).sent, seqnr := Refuse(c, rc).seqnr)
  {
    assert Words([]) == [];
  }

  // ---- The session -----------------------------------------------------------------------

  /** OpenSession is 0x1002: which code, under which id, and which session is open then. */
  lemma OpenSessionAnswers(c: Camera, params: seq<u32>, tid: u32)
    ensures var c' := Transact(c, Txn(0x1002, params, None), tid);
            && (|params| != 1 ==> Says(c, c', 0x2002, c.seqnr) && c'.session == c.session)
            && (|params| == 1 && params[0] == 0 ==> Says(c, c', 0x201D, c.seqnr) && c'.session == c.session)
            && (|params| == 1 && params[0] != 0 && c.session != 0 ==> Says(c, c', 0x201E, tid) && c'.session == c.session)
            && (|params| == 1 && params[0] != 0 && c.session == 0 ==> Says(c, c', 0x2001, tid) && c'.session == params[0])
            && c'.props == c.props && c'.store == c.store
  {
    OpenIs(c, Request(0x1002, tid, params));
    RefuseSays(c, 0x2002);
    RefuseSays(c, 0x201D);
    RefuseSays(c.(seqnr := tid), 0x201E);
    if |params| == 1 {
      RefuseSays(c.(seqnr := tid, session := params[0]), 0x2001);
    }
    hide OpenSession, Refuse;
  }

  lemma OpenIs(c: Camera, req: Request)
    ensures OpenSession(c, req) ==
            if |req.params| != 1 then Refuse(c, 0x2002)
            else if req.params[0] == 0 then Refuse(c, 0x201D)
            else if c.session != 0 then Refuse(c.(seqnr := req.tid), 0x201E)
            else Refuse(c.(seqnr := req.tid, session := req.params[0]), 0x2001)
  {
    hide Refuse;
  }

  /** CloseSession is 0x1003; with no session open it, too, answers that one already is. */
  lemma CloseSessionAnswers(c: Camera, params: seq<u32>, tid: u32)
    ensures var c' := Transact(c, Txn(0x1003, params, None), tid);
            && (|params| != 0 ==> Says(c, c', 0x2002, c.seqnr) && c'.session == c.session)
            && (|params| == 0 && c.session == 0 ==> Says(c, c', 0x201E, c.seqnr) && c'.session == 0)
            && (|params| == 0 && c.session != 0 ==> Says(c, c', 0x2001, c.seqnr) && c'.session == 0 && c'.seqnr == 1)
            && c'.props == c.props && c'.store == c.store
  {
    RefuseSays(c, 0x2002);
    RefuseSays(c, 0x201E);
    RefuseSays(c.(session := 0), 0x2001);
    hide Refuse;
  }

  /**
   The two in one statement each way: 0x2001 is the last code of an OpenSession exactly if no
   session was open and there is one parameter that is not zero, 0x201E exactly if a session
   was open and the parameter is as it should be; of a CloseSession, without parameters.
   */
  lemma SessionCodesIff(c: Camera, params: seq<u32>, tid: u32)
    ensures var c' := Transact(c, Txn(0x1002, params, None), tid);
            && c'.sent != []
            && (LastCode(c') == 0x2001 <==> c.session == 0 && |params| == 1 && params[0] != 0)
            && (LastCode(c') == 0x201E <==> c.session != 0 && |params| == 1 && params[0] != 0)
            && (LastCode(c') == 0x201D <==> |params| == 1 && params[0] == 0)
            && (LastCode(c') == 0x2002 <==> |params| != 1)
    ensures var c' := Transact(c, Txn(0x1003, params, None), tid);
            && c'.sent != []
            && (LastCode(c') == 0x2001 <==> c.session != 0 && params == [])
            && (LastCode(c') == 0x201E <==> c.session == 0 && params == [])
            && (LastCode(c') == 0x2002 <==> params != [])
  {
    hide Transact;
    OpenSessionAnswers(c, params, tid);
    CloseSessionAnswers(c, params, tid);
  }

  /** The opcodes the camera has a handler for. */
  ghost predicate Handled(code: u16)
  {
    0x1001 <= code <= 0x100B || code == 0x100E || 0x1014 <= code <= 0x1016 || code == 0x101B || code == 0xBEEF
  }

  /** Unknown opcodes, and data for an operation that takes none. */
  lemma UnexpectedAnswers(c: Camera, t: Txn, tid: u32)
    ensures !Handled(t.code) && t.data.None? ==> Says(c, Transact(c, t, tid), 0x2005, c.seqnr)
    ensures !Handled(t.code) && t.data.Some? ==> SaysTwice(c, Transact(c, t, tid), 0x2005, 0x2005, c.seqnr)
    ensures Handled(t.code) && t.code != 0x1016 && t.code != 0xBEEF && t.data.Some? ==>
              var c1, c2 := Transact(c, t.(data := None), tid), Transact(c, t, tid);
              Says(c1, c2, 0x2002, c1.seqnr) && c2.store == c1.store && c2.session == c1.session && c2.props == c1.props
  {
    var c1 := Command(c, Request(t.code, tid, t.params));
    RefuseSays(c, 0x2005);
    RefuseSays(c1, 0x2005);
    RefuseSays(c1, 0x2002);
    KnownIs(t.code);
    hide Handle, Refuse, Known, Handled;
  }

  lemma KnownIs(code: u16)
    ensures Known(code) <==> Handled(code)
  {
  }

  /** Without a session everything but the three that do not need one is refused. */
  lemma ClosedSessionAnswers(c: Camera, t: Txn, tid: u32)
    requires c.session == 0 && Handled(t.code) && t.code != 0x1001 && t.code != 0x1002 && t.code != 0x1003
    ensures t.data.None? ==>
              var c' := Transact(c, t, tid);
              Says(c, c', 0x2003, c.seqnr) && c'.session == 0 && c'.store == c.store && c'.props == c.props
  {
    RefuseSays(c, 0x2003);
    hide Refuse;
  }

  // ---- What operations with an answer of their own append ----------------------------------

  /** Perhaps a data container under the opcode, then the response. */
  ghost predicate Appends(c: Camera, c': Camera, code: u16, r: Reply)
  {
    c'.sent == c.sent
               + (if r.data.Some? then [Container(2, code, c.seqnr, r.data.value)] else [])
               + [Container(3, r.rc, c.seqnr, Words(r.params))]
  }

  lemma AnswerAppends(c: Camera, code: u16, r: Reply)
    ensures Appends(c, Answer(c, code, r), code, r)
    ensures Answer(c, code, r).store == c.store && Answer(c, code, r).session == c.session && Answer(c, code, r).props == c.props
  {
    assert c.sent + [] == c.sent;
  }

  /** Which operation an opcode stands for. */
  lemma ObjectOperationsAnswer(c: Camera, code: u16, params: seq<u32>, tid: u32)
    requires c.session != 0
    requires code == 0x1006 || code == 0x1007 || code == 0x100B || code == 0x100E || code == 0x101B
    ensures var c' := Transact(c, Txn(code, params, None), tid);
            && (code == 0x1006 ==> Appends(c, c', code, Listings.NumObjects(c.store.list, params)) && c'.store == c.store)
            && (code == 0x1007 ==> Appends(c, c', code, Listings.ObjectHandles(c.store.list, params)) && c'.store == c.store)
            && (code == 0x100B ==> Appends(c, c', code, Catalog.DeleteReply(c.store, params))
                                   && c'.store == Catalog.AfterDelete(c.store, params))
            && (code == 0x100E ==> Appends(c, c', code, Catalog.InitiateCaptureReply(c.store, params))
                                   && c'.store == Catalog.AfterInitiateCapture(c.store, params))
            && (code == 0x101B ==> Appends(c, c', code, Downloads.StandardReply(c.store, params)) && c'.store == c.store)
            && c'.session == c.session && c'.props == c.props
  {
    var c1 := c.(store := StoreAfter(c.store, code, params));
    StoreIs(c.store, code, params);
    AnswerAppends(c1, code, StoreReply(c.store, code, params));
    hide StoreReply, StoreAfter, Answer, Appends;
    AppendsAlike(c1, c, Answer(c1, code, StoreReply(c.store, code, params)), code, StoreReply(c.store, code, params));
    AnswerKeepsCommand(c1, code, StoreReply(c.store, code, params), Request(code, tid, params));
  }

  lemma AppendsAlike(c1: Camera, c: Camera, c': Camera, code: u16, r: Reply)
    requires c1.sent == c.sent && c1.seqnr == c.seqnr
    ensures Appends(c1, c', code, r) <==> Appends(c, c', code, r)
  {
  }

  lemma AnswerKeepsCommand(c: Camera, code: u16, r: Reply, req: Request)
    ensures Appends(c, Answer(c, code, r).(cmd := req), code, r) <==> Appends(c, Answer(c, code, r), code, r)
    ensures forall c0: Camera :: Appends(c0, Answer(c, code, r).(cmd := req), code, r) <==> Appends(c0, Answer(c, code, r), code, r)
  {
  }

  lemma StoreIs(s: ObjectStore.Store, code: u16, params: seq<u32>)
    ensures code == 0x1006 ==> StoreReply(s, code, params) == Listings.NumObjects(s.list, params) && StoreAfter(s, code, params) == s
    ensures code == 0x1007 ==> StoreReply(s, code, params) == Listings.ObjectHandles(s.list, params) && StoreAfter(s, code, params) == s
    ensures code == 0x100B ==> StoreReply(s, code, params) == Catalog.DeleteReply(s, params)
                               && StoreAfter(s, code, params) == Catalog.AfterDelete(s, params)
    ensures code == 0x100E ==> StoreReply(s, code, params) == Catalog.InitiateCaptureReply(s, params)
                               && StoreAfter(s, code, params) == Catalog.AfterInitiateCapture(s, params)
    ensures code == 0x101B ==> StoreReply(s, code, params) == Downloads.StandardReply(s, params) && StoreAfter(s, code, params) == s
  {
  }

  /** The describing operations send what the rest of the camera says; only the first needs no session. */
  lemma DescriptionsAnswer(c: Camera, code: u16, params: seq<u32>, tid: u32)
    requires code == 0x1001
             || (c.session != 0 && (code == 0x1004 || code == 0x1005 || code == 0x1008 || code == 0x1009 || code == 0x100A || code == 0x1014))
    ensures var c' := Transact(c, Txn(code, params, None), tid);
            && Appends(c, c', code, c.around.describe(c.store, c.props, code, params))
            && c'.store == c.store && c'.session == c.session && c'.props == c.props
  {
    var r := c.around.describe(c.store, c.props, code, params);
    AnswerAppends(c, code, r);
    AnswerKeepsCommand(c, code, r, Request(code, tid, params));
    hide Answer, Appends;
  }

  // ---- Properties --------------------------------------------------------------------------

  /** The property a code names: the one registered first. */
  ghost predicate FirstProp(props: seq<Prop>, i: nat, code: u32)
  {
    i < |props| && props[i].code == code && forall k :: 0 <= k < i ==> props[k].code != code
  }

  ghost predicate NoProp(props: seq<Prop>, code: u32)
  {
    forall k :: 0 <= k < |props| ==> props[k].code != code
  }

  lemma FirstPropIs(props: seq<Prop>, code: u32)
    ensures NoProp(props, code) <==> FindProp(props, code) == |props|
    ensures forall i: nat :: FirstProp(props, i, code) <==> i == FindProp(props, code) < |props|
  {
    hide FindProp;
  }

  lemma PropInside(props: seq<Prop>, code: u32)
    ensures forall i: nat :: FirstProp(props, i, code) ==> i < |props|
  {
  }

  /**
   How many bytes a value of the type has, as its own bytes tell: types 1 to 8 by their width,
   arrays by their count, strings by their characters.
   */
  ghost predicate Delimits(v: seq<byte>, kind: u16, n: nat)
  {
    || ((kind == 1 || kind == 2) && n == 1)
    || ((kind == 3 || kind == 4) && n == 2)
    || ((kind == 5 || kind == 6) && n == 4)
    || ((kind == 7 || kind == 8) && n == 8)
    || (kind == 0x4002 && |v| >= 4 && n == 4 + Get32(v) as int)
    || (kind == 0x4004 && |v| >= 4 && n == 4 + 2 * Get32(v) as int)
    || (kind == 0x4006 && |v| >= 4 && n == 4 + 4 * Get32(v) as int)
    || (kind == 0x4008 && |v| >= 4 && n == 4 + 8 * Get32(v) as int)
    || (kind == 0xFFFF && |v| >= 1 && n == 1 + 2 * v[0] as int)
  }

  lemma PropSizeIs(v: seq<byte>, kind: u16)
    ensures forall n: nat :: PropSize(v, kind) == Some(n) <==> Delimits(v, kind, n)
  {
    hide Get32;
  }

  /** The bytes a read sends of a property, if there are any. */
  ghost predicate Sends(p: Prop, sent: Option<seq<byte>>)
  {
    match sent
    case Some(d) =>
      && p.value.Some? && d <= p.value.value
      && if p.kind == 0 then |d| == p.valueLength else Delimits(p.value.value, p.kind, |d|)
    case None =>
      p.value.Some? ==>
        if p.kind == 0 then |p.value.value| < p.valueLength
        else forall n: nat :: n <= |p.value.value| ==> !Delimits(p.value.value, p.kind, n)
  }

  lemma ValueSends(p: Prop)
    ensures Sends(p, ValueBytes(p))
  {
    if p.value.Some? {
      PropSizeIs(p.value.value, p.kind);
    }
    hide PropSize, Delimits;
  }

  /** GetDevicePropValue is 0x1015. */
  lemma GetPropAnswers(c: Camera, params: seq<u32>, tid: u32)
    requires c.session != 0
    ensures var c' := Transact(c, Txn(0x1015, params, None), tid);
            && c'.session == c.session && c'.store == c.store && c'.props == c.props
            && (|params| != 1 ==> Says(c, c', 0x2002, c.seqnr))
            && (|params| == 1 && NoProp(c.props, params[0]) ==> Says(c, c', 0x200A, c.seqnr))
            && (|params| == 1 ==> forall i: nat :: FirstProp(c.props, i, params[0]) ==>
                 if c.props[i].invisible then Says(c, c', 0x200A, c.seqnr)
                 else if Sends(c.props[i], None) then Says(c, c', 0x200A, c.seqnr)
                 else exists d: seq<byte> :: Sends(c.props[i], Some(d))
                        && c'.sent == c.sent + [Container(2, 0x1015, c.seqnr, d), Container(3, 0x2001, c.seqnr, [])])
  {
    var r := PropReply(c.props, params);
    GetPropIs(c, params, tid);
    if |params| == 1 {
      FirstPropIs(c.props, params[0]);
      PropInside(c.props, params[0]);
      var i := FindProp(c.props, params[0]);
      if i < |c.props| {
        ValueSends(c.props[i]);
        SendsOne(c.props[i]);
      }
    }
    hide Transact, FindProp, ValueBytes, Sends, FirstProp, NoProp;
  }

  lemma SendsOne(p: Prop)
    ensures forall d: seq<byte> :: Sends(p, Some(d)) ==> !Sends(p, None)
  {
    hide Delimits;
  }

  lemma GetPropIs(c: Camera, params: seq<u32>, tid: u32)
    requires c.session != 0
    ensures var c', r := Transact(c, Txn(0x1015, params, None), tid), PropReply(c.props, params);
            && c'.session == c.session && c'.store == c.store && c'.props == c.props
            && (r == Reply(None, 0x2002, []) ==> Says(c, c', 0x2002, c.seqnr))
            && (r == Reply(None, 0x200A, []) ==> Says(c, c', 0x200A, c.seqnr))
            && forall d: seq<byte> :: r == Reply(Some(d), 0x2001, []) ==>
                 c'.sent == c.sent + [Container(2, 0x1015, c.seqnr, d), Container(3, 0x2001, c.seqnr, [])]
  {
    var r := PropReply(c.props, params);
    AnswerAppends(c, 0x1015, r);
    hide PropReply;
    assert Words([]) == [];
    assert c.sent + [] == c.sent;
    if r.data.Some? {
      var d, e := Container(2, 0x1015, c.seqnr, r.data.value), Container(3, r.rc, c.seqnr, Words(r.params));
      assert c.sent + [d] + [e] == c.sent + [d, e];
    }
  }

  // ---- Property writes ---------------------------------------------------------------------

  /** The camera but for what it sent, the id it counts and the command it remembers. */
  ghost predicate Untouched(c: Camera, c': Camera)
  {
    c'.session == c.session && c'.store == c.store && c'.props == c.props
  }

  /** The command phase of SetDevicePropValue, 0x1016: only refusals are answered. */
  lemma SetPropCommandAnswers(c: Camera, params: seq<u32>, tid: u32)
    ensures var c' := Transact(c, Txn(0x1016, params, None), tid);
            && Untouched(c, c') && c'.cmd.params == params
            && (c.session == 0 ==> Says(c, c', 0x2003, c.seqnr))
            && (c.session != 0 && |params| != 1 ==> Says(c, c', 0x2002, c.seqnr))
            && (c.session != 0 && |params| == 1 ==>
                  if NoProp(c.props, params[0]) then Says(c, c', 0x200A, c.seqnr) else c'.sent == c.sent && c'.seqnr == c.seqnr)
  {
    RefuseSays(c, 0x2003);
    RefuseSays(c, 0x2002);
    RefuseSays(c, 0x200A);
    if |params| == 1 {
      FirstPropIs(c.props, params[0]);
    }
    hide Refuse, FindProp, NoProp;
  }

  /** Its data phase, under the remembered command. */
  lemma SetPropDataAnswers(c: Camera, data: seq<byte>)
    ensures var c' := DataPhase(c, 0x1016, data);
            && (c.session == 0 ==> Says(c, c', 0x2003, c.seqnr) && Untouched(c, c'))
            && (c.session != 0 && |c.cmd.params| != 1 ==> Says(c, c', 0x2002, c.seqnr) && Untouched(c, c'))
            && (c.session != 0 && |c.cmd.params| == 1 ==>
                  && (NoProp(c.props, c.cmd.params[0]) ==> c' == c)
                  && forall i: nat :: FirstProp(c.props, i, c.cmd.params[0]) ==>
                       if c.props[i].invisible then Says(c, c', 0x2001, c.seqnr) && Untouched(c, c')
                       else if data == [] then Says(c, c', 0x2002, c.seqnr) && Untouched(c, c')
                       else Took(c, c', i, data))
  {
    RefuseSays(c, 0x2003);
    RefuseSays(c, 0x2002);
    RefuseSays(c, 0x2001);
    if |c.cmd.params| == 1 {
      FirstPropIs(c.props, c.cmd.params[0]);
      PropInside(c.props, c.cmd.params[0]);
      var i := FindProp(c.props, c.cmd.params[0]);
      if i < |c.props| {
        Takes(c, i, data);
      }
    }
    hide Refuse, FindProp, NoProp, FirstProp, Stored, SetterCode, Took;
  }

  /** Property `i` has the written value, or what its setter makes of it, whose result is the code. */
  ghost predicate Took(c: Camera, c': Camera, i: nat, data: seq<byte>)
    requires i < |c.props|
  {
    && c'.session == c.session && c'.store == c.store
    && |c'.props| == |c.props| && (forall k :: 0 <= k < |c.props| && k != i ==> c'.props[k] == c.props[k])
    && var p, p' := c.props[i], c'.props[i];
    && p'.code == p.code && p'.kind == p.kind && p'.invisible == p.invisible && p'.valueLength == p.valueLength
    && p'.setter == p.setter
    && match p.setter
       case Stores => p'.value == Some(data) && Says(c, c', 0x2001, c.seqnr)
       case Custom(rc, after) =>
         && p'.value == after(data)
         && (rc(data) == 0 ==> Says(c, c', 0x2001, c.seqnr))
         && (rc(data) < 0 ==> Says(c, c', 0x2002, c.seqnr))
         && (rc(data) > 0 ==> Says(c, c', rc(data) % 0x1_0000, c.seqnr))
  }

  lemma Takes(c: Camera, i: nat, data: seq<byte>)
    requires i < |c.props|
    ensures var (p, rc) := Stored(c.props[i], data);
            Took(c, Refuse(c.(props := c.props[i := p]), SetterCode(rc)), i, data)
  {
    var (p, rc) := Stored(c.props[i], data);
    RefuseSays(c.(props := c.props[i := p]), SetterCode(rc));
    hide Refuse;
  }

  // ---- The checksum ------------------------------------------------------------------------

  /** The sum of all the bytes: nothing, one, or two parts. */
  lemma ChecksumIsSum(a: seq<byte>, x: byte)
    ensures Checksum([]) == 0 && Checksum(a + [x]) == Checksum(a) + x
  {
    assert (a + [x])[..|a|] == a;
  }

  /** 0xBEEF: the bytes' sum, in 32 bits, is compared with the command's first parameter. */
  lemma ChecksumAnswers(c: Camera, params: seq<u32>, data: seq<byte>, tid: u32)
    ensures var c' := Transact(c, Txn(0xBEEF, params, None), tid);
            && Untouched(c, c') && (if c.session == 0 then Says(c, c', 0x2003, c.seqnr) else c'.sent == c.sent)
    ensures var c1, c2 := Transact(c, Txn(0xBEEF, params, None), tid), Transact(c, Txn(0xBEEF, params, Some(data)), tid);
            var expected := if params == [] then c.around.junk(Request(0xBEEF, tid, params)) else params[0];
            && Untouched(c, c2)
            && Says(c1, c2, if Checksum(data) % 0x1_0000_0000 == expected then 0x2001 else 0x2002, c1.seqnr)
  {
    var c1 := Transact(c, Txn(0xBEEF, params, None), tid);
    RefuseSays(c, 0x2003);
    RefuseSays(c1, 0x2002);
    RefuseSays(c1, 0x2001);
    hide Refuse, Checksum;
  }
}
