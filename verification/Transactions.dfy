/**
 Transactions (section 9.3 of PIMA 15740:2000): a command, perhaps a data phase from the
 client, at most one data container back, and a response. The camera reads the client's
 transaction id only when a session is opened and counts on its own from there
 (`src/ops.c`, `src/vcamera.c`).
 */
module Transactions {
  import opened Bytes
  import opened Containers
  import opened PropTypes
  import opened Replies
  import Catalog
  import Downloads
  import Listings
  import ObjectStore

  const WRAP: int := 0x1_0000_0000

  const GET_DEVICE_INFO: u16 := 0x1001
  const OPEN_SESSION: u16 := 0x1002
  const CLOSE_SESSION: u16 := 0x1003
  const GET_STORAGE_IDS: u16 := 0x1004
  const GET_STORAGE_INFO: u16 := 0x1005
  const GET_NUM_OBJECTS: u16 := 0x1006
  const GET_OBJECT_HANDLES: u16 := 0x1007
  const GET_OBJECT_INFO: u16 := 0x1008
  const GET_OBJECT: u16 := 0x1009
  const GET_THUMB: u16 := 0x100A
  const DELETE_OBJECT: u16 := 0x100B
  const INITIATE_CAPTURE: u16 := 0x100E
  const GET_PROP_DESC: u16 := 0x1014
  const GET_PROP_VALUE: u16 := 0x1015
  const SET_PROP_VALUE: u16 := 0x1016
  const GET_PARTIAL_OBJECT: u16 := 0x101B
  const VUSB: u16 := 0xBEEF

  datatype Request = Request(code: u16, tid: u32, params: seq<u32>)

  /** How a property takes a write: by storing the bytes, or through a setter of its own. */
  datatype Setter = Stores | Custom(rc: seq<byte> -> int, after: seq<byte> -> Option<seq<byte>>)

  datatype Prop = Prop(code: u32, kind: u16, invisible: bool, value: Option<seq<byte>>, valueLength: nat,
                       setter: Setter)

  /**
   What the handlers find outside this model: the answers of those that only describe the
   camera and its objects, and the word of the stack that a checksum is compared with when
   the command brought none.
   */
  datatype Surroundings = Surroundings(describe: (ObjectStore.Store, seq<Prop>, u16, seq<u32>) -> Reply,
                                       junk: Request -> u32)

  /** `cmd` is the last command a handler saw; `sent` everything appended to the bulk-IN buffer. */
  datatype Camera = Camera(session: u32, seqnr: u32, cmd: Request, props: seq<Prop>, store: ObjectStore.Store,
                           sent: seq<Container>, around: Surroundings)

  // ---- What handlers send ----------------------------------------------------------------

  function Send(c: Camera, code: u16, data: seq<byte>): Camera
  {
    c.(sent := c.sent + [Container(DATA, code, c.seqnr, data)])
  }

  /** ptp_response: every response moves the camera on to the next transaction id. */
  function Respond(c: Camera, rc: u16, params: seq<u32>): Camera
  {
    c.(sent := c.sent + [Container(RESPONSE, rc, c.seqnr, Words(params))], seqnr := (c.seqnr + 1) % WRAP)
  }

  function Refuse(c: Camera, rc: u16): Camera
  {
    Respond(c, rc, [])
  }

  function Answer(c: Camera, code: u16, r: Reply): Camera
  {
    Respond(if r.data.Some? then Send(c, code, r.data.value) else c, r.rc, r.params)
  }

  // ---- The session -----------------------------------------------------------------------

  function OpenSession(c: Camera, req: Request): Camera
  {
    if |req.params| != 1 then Refuse(c, RC_GENERAL_ERROR)
    else if req.params[0] == 0 then Refuse(c, RC_INVALID_PARAMETER)
    else
      var c1 := c.(seqnr := req.tid);
      if c1.session != 0 then Refuse(c1, RC_SESSION_ALREADY_OPENED)
      else Refuse(c1.(session := req.params[0]), RC_OK)
  }

  function CloseSession(c: Camera, req: Request): Camera
  {
    if |req.params| != 0 then Refuse(c, RC_GENERAL_ERROR)
    else if c.session == 0 then Refuse(c, RC_SESSION_ALREADY_OPENED)
    else Refuse(c.(session := 0), RC_OK).(seqnr := 1)
  }

  // ---- Properties ------------------------------------------------------------------------

  function FindProp(props: seq<Prop>, code: u32): (i: nat)
    ensures i <= |props|
    ensures i < |props| ==> props[i].code == code
    ensures forall k :: 0 <= k < i ==> props[k].code != code
  {
    if props == [] || props[0].code == code then 0 else 1 + FindProp(props[1..], code)
  }

  /** The bytes of a value as its type delimits them; None where they would run past it. */
  function ValueBytes(p: Prop): Option<seq<byte>>
  {
    if p.value.None? then None
    else
      var v := p.value.value;
      var size := if p.kind == UNDEF then Some(p.valueLength) else PropSize(v, p.kind);
      if size.None? || size.value > |v| then None else Some(v[..size.value])
  }

  function PropReply(props: seq<Prop>, params: seq<u32>): Reply
  {
    if |params| != 1 then Just(RC_GENERAL_ERROR)
    else
      var i := FindProp(props, params[0]);
      if i == |props| || props[i].invisible then Just(RC_DEVICE_PROP_NOT_SUPPORTED)
      else
        match ValueBytes(props[i])
        case None => Just(RC_DEVICE_PROP_NOT_SUPPORTED)
        case Some(v) => Reply(Some(v), RC_OK, [])
  }

  /** The command phase of a write answers only to refuse it. */
  function SetPropCommand(c: Camera, req: Request): Camera
  {
    if c.session == 0 then Refuse(c, RC_SESSION_NOT_OPEN)
    else if |req.params| != 1 then Refuse(c, RC_GENERAL_ERROR)
    else if FindProp(c.props, req.params[0]) == |c.props| then Refuse(c, RC_DEVICE_PROP_NOT_SUPPORTED)
    else c
  }

  /** vcam_set_prop_data: the property afterwards and what the setter returned. */
  function Stored(p: Prop, data: seq<byte>): (Prop, int)
  {
    match p.setter
    case Stores => (p.(value := Some(data)), 0)
    case Custom(rc, after) => (p.(value := after(data)), rc(data))
  }

  function SetterCode(rc: int): u16
  {
    if rc == 0 then RC_OK else if rc < 0 then RC_GENERAL_ERROR else rc % 0x1_0000
  }

  /** The data phase, run under the saved command: silent where the command phase refused. */
  function SetPropData(c: Camera, data: seq<byte>): Camera
  {
    if c.session == 0 then Refuse(c, RC_SESSION_NOT_OPEN)
    else if |c.cmd.params| != 1 then Refuse(c, RC_GENERAL_ERROR)
    else
      var i := FindProp(c.props, c.cmd.params[0]);
      if i == |c.props| then c
      else if c.props[i].invisible then Refuse(c, RC_OK)
      else if data == [] then Refuse(c, RC_GENERAL_ERROR)
      else
        var (p, rc) := Stored(c.props[i], data);
        Refuse(c.(props := c.props[i := p]), SetterCode(rc))
  }

  function Checksum(data: seq<byte>): nat
  {
    if data == [] then 0 else Checksum(data[..|data| - 1]) + data[|data| - 1]
  }

  function VusbData(c: Camera, data: seq<byte>): Camera
  {
    var expected := if c.cmd.params == [] then c.around.junk(c.cmd) else c.cmd.params[0];
    if Checksum(data) % WRAP != expected then Refuse(c, RC_GENERAL_ERROR) else Refuse(c, RC_OK)
  }

  // ---- Dispatch --------------------------------------------------------------------------

  predicate InStore(code: u16)
  {
    code == GET_NUM_OBJECTS || code == GET_OBJECT_HANDLES || code == DELETE_OBJECT || code == INITIATE_CAPTURE
    || code == GET_PARTIAL_OBJECT
  }

  function StoreReply(s: ObjectStore.Store, code: u16, params: seq<u32>): Reply
    requires InStore(code)
  {
    if code == GET_NUM_OBJECTS then Listings.NumObjects(s.list, params)
    else if code == GET_OBJECT_HANDLES then Listings.ObjectHandles(s.list, params)
    else if code == DELETE_OBJECT then Catalog.DeleteReply(s, params)
    else if code == INITIATE_CAPTURE then Catalog.InitiateCaptureReply(s, params)
    else Downloads.StandardReply(s, params)
  }

  function StoreAfter(s: ObjectStore.Store, code: u16, params: seq<u32>): ObjectStore.Store
    requires InStore(code)
  {
    if code == DELETE_OBJECT then Catalog.AfterDelete(s, params)
    else if code == INITIATE_CAPTURE then Catalog.AfterInitiateCapture(s, params)
    else s
  }

  /** The handlers that change nothing and answer with a description. */
  predicate Describes(code: u16)
  {
    code == GET_DEVICE_INFO || code == GET_STORAGE_IDS || code == GET_STORAGE_INFO || code == GET_OBJECT_INFO
    || code == GET_OBJECT || code == GET_THUMB || code == GET_PROP_DESC
  }

  function Description(c: Camera, req: Request): Reply
  {
    c.around.describe(c.store, c.props, req.code, req.params)
  }

  /** The standard opcodes. */
  predicate Known(code: u16)
  {
    code == OPEN_SESSION || code == CLOSE_SESSION || code == GET_PROP_VALUE || code == SET_PROP_VALUE || code == VUSB
    || InStore(code) || Describes(code)
  }

  predicate TakesData(code: u16)
  {
    code == SET_PROP_VALUE || code == VUSB
  }

  /** The command handlers. */
  function Handle(c: Camera, req: Request): Camera
    requires Known(req.code)
  {
    if req.code == OPEN_SESSION then OpenSession(c, req)
    else if req.code == CLOSE_SESSION then CloseSession(c, req)
    else if req.code == SET_PROP_VALUE then SetPropCommand(c, req)
    else if req.code == GET_DEVICE_INFO then Answer(c, req.code, Description(c, req))
    else if c.session == 0 then Refuse(c, RC_SESSION_NOT_OPEN)
    else if req.code == VUSB then c
    else if req.code == GET_PROP_VALUE then Answer(c, req.code, PropReply(c.props, req.params))
    else if Describes(req.code) then Answer(c, req.code, Description(c, req))
    else Answer(c.(store := StoreAfter(c.store, req.code, req.params)), req.code, StoreReply(c.store, req.code, req.params))
  }

  /** A command container; the request is kept for a data phase to come. */
  function Command(c: Camera, req: Request): Camera
  {
    if Known(req.code) then Handle(c, req).(cmd := req) else Refuse(c, RC_OPERATION_NOT_SUPPORTED)
  }

  /** A data container. */
  function DataPhase(c: Camera, code: u16, data: seq<byte>): Camera
  {
    if !Known(code) then Refuse(c, RC_OPERATION_NOT_SUPPORTED)
    else if code == SET_PROP_VALUE then SetPropData(c, data)
    else if code == VUSB then VusbData(c, data)
    else Refuse(c, RC_GENERAL_ERROR)
  }

  // ---- Whole transactions ----------------------------------------------------------------

  /** What a client does for one transaction; its containers carry the id it counts itself. */
  datatype Txn = Txn(code: u16, params: seq<u32>, data: Option<seq<byte>>)

  function Transact(c: Camera, t: Txn, tid: u32): Camera
  {
    var c1 := Command(c, Request(t.code, tid, t.params));
    if t.data.Some? then DataPhase(c1, t.code, t.data.value) else c1
  }

  /** A client that sends data exactly where the operation takes it, and the right parameters. */
  predicate Fits(t: Txn)
  {
    && (t.data.Some? <==> TakesData(t.code))
    && (t.code == SET_PROP_VALUE ==> |t.params| == 1)
    && t.code != CLOSE_SESSION
  }

  /** At most one data container, then exactly one response, all under the client's id. */
  ghost predicate AnsweredOnce(before: seq<Container>, after: seq<Container>, tid: u32)
  {
    && before <= after
    && var got := after[|before|..];
    && 1 <= |got| <= 2
    && got[|got| - 1].kind == RESPONSE
    && (|got| == 2 ==> got[0].kind == DATA)
    && forall i :: 0 <= i < |got| ==> got[i].tid == tid
  }

  lemma RespondOnce(c: Camera, c0: Camera, rc: u16, params: seq<u32>)
    requires c0.sent == c.sent
    ensures AnsweredOnce(c.sent, Respond(c0, rc, params).sent, c0.seqnr)
  {
    assert Respond(c0, rc, params).sent[|c.sent|..] == [Container(RESPONSE, rc, c0.seqnr, Words(params))];
  }

  lemma AnswerOnce(c: Camera, c0: Camera, code: u16, r: Reply)
    requires c0.sent == c.sent
    ensures AnsweredOnce(c.sent, Answer(c0, code, r).sent, c0.seqnr)
  {
    var response := Container(RESPONSE, r.rc, c0.seqnr, Words(r.params));
    if r.data.Some? {
      assert Answer(c0, code, r).sent[|c.sent|..] == [Container(DATA, code, c0.seqnr, r.data.value), response];
    } else {
      assert Answer(c0, code, r).sent[|c.sent|..] == [response];
    }
  }

  lemma HandleOnce(c: Camera, req: Request)
    requires Known(req.code) && !TakesData(req.code) && req.code != OPEN_SESSION && req.code != CLOSE_SESSION
    ensures var c' := Handle(c, req);
            AnsweredOnce(c.sent, c'.sent, c.seqnr) && c'.seqnr == (c.seqnr + 1) % WRAP && c'.session == c.session
  {
    hide AnsweredOnce, StoreReply, StoreAfter, PropReply, Description, Respond, Answer;
    AnswerMoves(c, req.code, Description(c, req));
    AnswerMoves(c, req.code, PropReply(c.props, req.params));
    RefuseMoves(c, RC_SESSION_NOT_OPEN);
    if Describes(req.code) && (c.session != 0 || req.code == GET_DEVICE_INFO) {
      AnswerOnce(c, c, req.code, Description(c, req));
    } else if c.session == 0 {
      RespondOnce(c, c, RC_SESSION_NOT_OPEN, []);
    } else if req.code == GET_PROP_VALUE {
      AnswerOnce(c, c, req.code, PropReply(c.props, req.params));
    } else {
      AnswerOnce(c, c.(store := StoreAfter(c.store, req.code, req.params)), req.code,
                 StoreReply(c.store, req.code, req.params));
      AnswerMoves(c.(store := StoreAfter(c.store, req.code, req.params)), req.code,
                  StoreReply(c.store, req.code, req.params));
    }
  }

  lemma AnswerMoves(c: Camera, code: u16, r: Reply)
    ensures var c' := Answer(c, code, r); c'.seqnr == (c.seqnr + 1) % WRAP && c'.session == c.session
  {
  }

  lemma RefuseMoves(c: Camera, rc: u16)
    ensures var c' := Refuse(c, rc); c'.seqnr == (c.seqnr + 1) % WRAP && c'.session == c.session
  {
  }

  lemma OpenOnce(c: Camera, req: Request)
    requires req.code == OPEN_SESSION
    ensures var c' := OpenSession(c, req);
            && AnsweredOnce(c.sent, c'.sent, if |req.params| == 1 && req.params[0] != 0 then req.tid else c.seqnr)
            && c'.session == (if c.session == 0 && |req.params| == 1 then req.params[0] else c.session)
            && c'.seqnr == ((if |req.params| == 1 && req.params[0] != 0 then req.tid else c.seqnr) + 1) % WRAP
  {
    if |req.params| != 1 {
      RespondOnce(c, c, RC_GENERAL_ERROR, []);
    } else if req.params[0] == 0 {
      RespondOnce(c, c, RC_INVALID_PARAMETER, []);
    } else if c.session != 0 {
      RespondOnce(c, c.(seqnr := req.tid), RC_SESSION_ALREADY_OPENED, []);
    } else {
      RespondOnce(c, c.(seqnr := req.tid, session := req.params[0]), RC_OK, []);
    }
    hide AnsweredOnce;
  }

  lemma SetPropOnce(c: Camera, req: Request, data: seq<byte>)
    requires c.session != 0 && req.code == SET_PROP_VALUE && |req.params| == 1
    ensures var c' := SetPropData(SetPropCommand(c, req).(cmd := req), data);
            AnsweredOnce(c.sent, c'.sent, c.seqnr) && c'.seqnr == (c.seqnr + 1) % WRAP && c'.session == c.session
  {
    var i := FindProp(c.props, req.params[0]);
    var c1 := c.(cmd := req);
    if i == |c.props| {
      RespondOnce(c, c, RC_DEVICE_PROP_NOT_SUPPORTED, []);
    } else if c.props[i].invisible {
      RespondOnce(c, c1, RC_OK, []);
    } else if data == [] {
      RespondOnce(c, c1, RC_GENERAL_ERROR, []);
    } else {
      var (p, rc) := Stored(c.props[i], data);
      RespondOnce(c, c1.(props := c.props[i := p]), SetterCode(rc), []);
    }
    hide AnsweredOnce, Stored, FindProp, SetterCode;
  }

  lemma VusbOnce(c: Camera, data: seq<byte>)
    ensures var c' := VusbData(c, data);
            AnsweredOnce(c.sent, c'.sent, c.seqnr) && c'.seqnr == (c.seqnr + 1) % WRAP && c'.session == c.session
  {
    RespondOnce(c, c, RC_GENERAL_ERROR, []);
    RespondOnce(c, c, RC_OK, []);
  }

  /** While the camera's count and the client's agree, one transaction keeps them agreeing. */
  lemma TransactionIsAnswered(c: Camera, t: Txn)
    requires c.session != 0 && Fits(t)
    ensures var c' := Transact(c, t, c.seqnr);
            && AnsweredOnce(c.sent, c'.sent, c.seqnr)
            && c'.session == c.session && c'.seqnr == Id(c.seqnr, 1)
  {
    hide SetPropCommand, SetPropData, VusbData, OpenSession, AnsweredOnce, FindProp, PropReply, StoreReply, StoreAfter;
    var req := Request(t.code, c.seqnr, t.params);
    if !Known(t.code) {
      RespondOnce(c, c, RC_OPERATION_NOT_SUPPORTED, []);
    } else if t.code == SET_PROP_VALUE {
      SetPropOnce(c, req, t.data.value);
    } else if t.code == VUSB {
      VusbOnce(c.(cmd := req), t.data.value);
    } else if t.code == OPEN_SESSION {
      OpenOnce(c, req);
    } else {
      HandleOnce(c, req);
    }
  }

  /** The id of the client's i-th transaction from `tid` on. */
  function Id(tid: u32, i: nat): u32
  {
    (tid + i) % WRAP
  }

  /** A session's transactions, numbered by the client from `tid`. */
  function RunFrom(c: Camera, tid: u32, ts: seq<Txn>): Camera
  {
    if ts == [] then c
    else Transact(RunFrom(c, tid, ts[..|ts| - 1]), ts[|ts| - 1], Id(tid, |ts| - 1))
  }

  /** One answer for each transaction, in order, under ids counted from `tid`. */
  ghost predicate AnsweredAll(c: Camera, tid: u32, ts: seq<Txn>)
  {
    forall i :: 0 <= i < |ts| ==> AnsweredOnce(RunFrom(c, tid, ts[..i]).sent, RunFrom(c, tid, ts[..i + 1]).sent, Id(tid, i))
  }

  lemma PrefixOfPrefix<T>(ts: seq<T>, n: nat, i: nat)
    requires i <= n <= |ts|
    ensures ts[..n][..i] == ts[..i]
  {
  }

  lemma AnsweredAt(c: Camera, tid: u32, ts: seq<Txn>, n: nat, i: nat)
    requires i < n <= |ts| && AnsweredAll(c, tid, ts[..n])
    ensures AnsweredOnce(RunFrom(c, tid, ts[..i]).sent, RunFrom(c, tid, ts[..i + 1]).sent, Id(tid, i))
  {
    hide AnsweredOnce, RunFrom, Id;
    PrefixOfPrefix(ts, n, i);
    PrefixOfPrefix(ts, n, i + 1);
  }

  lemma AnsweredSnoc(c: Camera, tid: u32, ts: seq<Txn>)
    requires ts != [] && AnsweredAll(c, tid, ts[..|ts| - 1])
    requires AnsweredOnce(RunFrom(c, tid, ts[..|ts| - 1]).sent, RunFrom(c, tid, ts).sent, Id(tid, |ts| - 1))
    ensures AnsweredAll(c, tid, ts)
  {
    hide *;
    forall i | 0 <= i < |ts|
      ensures AnsweredOnce(RunFrom(c, tid, ts[..i]).sent, RunFrom(c, tid, ts[..i + 1]).sent, Id(tid, i))
    {
      if i < |ts| - 1 {
        AnsweredAt(c, tid, ts, |ts| - 1, i);
      } else {
        assert ts[..i + 1] == ts;
      }
    }
    AllFromEach(c, tid, ts);
  }

  lemma AllFromEach(c: Camera, tid: u32, ts: seq<Txn>)
    requires forall i :: 0 <= i < |ts| ==>
               AnsweredOnce(RunFrom(c, tid, ts[..i]).sent, RunFrom(c, tid, ts[..i + 1]).sent, Id(tid, i))
    ensures AnsweredAll(c, tid, ts)
  {
    hide AnsweredOnce, RunFrom, Id;
  }

  lemma RunOneMore(c: Camera, tid: u32, ts: seq<Txn>)
    requires ts != []
    ensures var n := |ts| - 1; RunFrom(c, tid, ts) == Transact(RunFrom(c, tid, ts[..n]), ts[n], Id(tid, n))
  {
    hide Transact, Id;
  }

  lemma NothingToAnswer(c: Camera)
    ensures RunFrom(c, c.seqnr, []) == c && Id(c.seqnr, 0) == c.seqnr && AnsweredAll(c, c.seqnr, [])
  {
  }

  lemma {:induction false} RunStaysInStep(c: Camera, ts: seq<Txn>)
    requires c.session != 0 && forall i :: 0 <= i < |ts| ==> Fits(ts[i])
    ensures AnsweredAll(c, c.seqnr, ts)
    ensures var c' := RunFrom(c, c.seqnr, ts); c'.session == c.session && c'.seqnr == Id(c.seqnr, |ts|)
  {
    hide *;
    if ts == [] {
      NothingToAnswer(c);
      assert ts == [];
    } else {
      var n := |ts| - 1;
      RunStaysInStep(c, ts[..n]);
      RunOneMore(c, c.seqnr, ts);
      TransactionIsAnswered(RunFrom(c, c.seqnr, ts[..n]), ts[n]);
      NextId(c.seqnr, n, 1);
      AnsweredSnoc(c, c.seqnr, ts);
    }
  }

  lemma NextId(tid: u32, m: nat, n: nat)
    ensures Id(Id(tid, m), n) == Id(tid, m + n)
  {
  }

  /**
   A whole session: whatever id the client opens it with and whatever it does in between,
   each of its transactions, the opening and the closing included, gets at most one data
   container and then exactly one response, all under the id the client gave it.
   */
  lemma SessionIsAnswered(c: Camera, tid: u32, id: u32, ts: seq<Txn>)
    requires c.session == 0 && id != 0 && forall i :: 0 <= i < |ts| ==> Fits(ts[i])
    ensures var open := Transact(c, Txn(OPEN_SESSION, [id], None), tid);
            var done := RunFrom(open, Id(tid, 1), ts);
            var closed := Transact(done, Txn(CLOSE_SESSION, [], None), Id(tid, 1 + |ts|));
            && AnsweredOnce(c.sent, open.sent, tid)
            && AnsweredAll(open, Id(tid, 1), ts)
            && AnsweredOnce(done.sent, closed.sent, Id(tid, 1 + |ts|))
            && closed.session == 0
  {
    hide *;
    var open := Transact(c, Txn(OPEN_SESSION, [id], None), tid);
    OpenAnswers(c, tid, id);
    RunStaysInStep(open, ts);
    NextId(tid, 1, |ts|);
    CloseAnswers(RunFrom(open, Id(tid, 1), ts), Id(tid, 1 + |ts|));
  }

  lemma OpenAnswers(c: Camera, tid: u32, id: u32)
    requires c.session == 0 && id != 0
    ensures var open := Transact(c, Txn(OPEN_SESSION, [id], None), tid);
            AnsweredOnce(c.sent, open.sent, tid) && open.session == id && open.seqnr == Id(tid, 1)
  {
    OpenOnce(c, Request(OPEN_SESSION, tid, [id]));
    hide AnsweredOnce;
  }

  lemma CloseAnswers(c: Camera, tid: u32)
    requires c.session != 0
    ensures var closed := Transact(c, Txn(CLOSE_SESSION, [], None), tid);
            AnsweredOnce(c.sent, closed.sent, c.seqnr) && closed.session == 0
  {
    RespondOnce(c, c.(session := 0), RC_OK, []);
    hide AnsweredOnce;
  }

  // ---- Exactly when a transaction gets exactly one response ---------------------------------

  function Responses(cs: seq<Container>): nat
  {
    if cs == [] then 0 else Responses(cs[..|cs| - 1]) + if cs[|cs| - 1].kind == RESPONSE then 1 else 0
  }

  lemma ResponsesSnoc(cs: seq<Container>, k: Container)
    ensures Responses(cs + [k]) == Responses(cs) + if k.kind == RESPONSE then 1 else 0
  {
    assert (cs + [k])[..|cs|] == cs;
  }

  lemma RespondCounts(c: Camera, rc: u16, params: seq<u32>)
    ensures Responses(Respond(c, rc, params).sent) == Responses(c.sent) + 1
  {
    ResponsesSnoc(c.sent, Container(RESPONSE, rc, c.seqnr, Words(params)));
  }

  lemma AnswerCounts(c: Camera, code: u16, r: Reply)
    ensures Responses(Answer(c, code, r).sent) == Responses(c.sent) + 1
  {
    if r.data.Some? {
      RespondCounts(Send(c, code, r.data.value), r.rc, r.params);
      ResponsesSnoc(c.sent, Container(DATA, code, c.seqnr, r.data.value));
    } else {
      RespondCounts(c, r.rc, r.params);
    }
    hide Responses;
  }

  lemma SessionCounts(c: Camera, req: Request)
    ensures Responses(OpenSession(c, req).sent) == Responses(c.sent) + 1
    ensures Responses(CloseSession(c, req).sent) == Responses(c.sent) + 1
  {
    hide Responses, Respond;
    RespondCounts(c, RC_GENERAL_ERROR, []);
    RespondCounts(c, RC_INVALID_PARAMETER, []);
    RespondCounts(c.(seqnr := req.tid), RC_SESSION_ALREADY_OPENED, []);
    RespondCounts(c, RC_SESSION_ALREADY_OPENED, []);
    if |req.params| == 1 {
      RespondCounts(c.(seqnr := req.tid).(session := req.params[0]), RC_OK, []);
    }
    RespondCounts(c.(session := 0), RC_OK, []);
  }

  lemma CommandCounts(c: Camera, req: Request)
    ensures Responses(Command(c, req).sent) == Responses(c.sent) + if SilentCommand(c, req) then 0 else 1
    ensures !SilentCommand(c, req) || (Command(c, req).session == c.session && Command(c, req).props == c.props)
  {
    hide Respond, Answer, Responses, StoreReply, StoreAfter, PropReply, FindProp, OpenSession, CloseSession;
    SessionCounts(c, req);
    RespondCounts(c, RC_OPERATION_NOT_SUPPORTED, []);
    RespondCounts(c, RC_SESSION_NOT_OPEN, []);
    RespondCounts(c, RC_GENERAL_ERROR, []);
    RespondCounts(c, RC_DEVICE_PROP_NOT_SUPPORTED, []);
    AnswerCounts(c, req.code, PropReply(c.props, req.params));
    AnswerCounts(c, req.code, Description(c, req));
    if InStore(req.code) {
      AnswerCounts(c.(store := StoreAfter(c.store, req.code, req.params)), req.code,
                   StoreReply(c.store, req.code, req.params));
    }
  }

  /** The commands that say nothing and wait for their data. */
  predicate SilentCommand(c: Camera, req: Request)
  {
    && c.session != 0
    && (req.code == VUSB
        || (req.code == SET_PROP_VALUE && |req.params| == 1 && FindProp(c.props, req.params[0]) < |c.props|))
  }

  /** The data phases that leave it at what the command phase said. */
  predicate SilentData(c: Camera, code: u16)
  {
    code == SET_PROP_VALUE && c.session != 0 && |c.cmd.params| == 1 && FindProp(c.props, c.cmd.params[0]) == |c.props|
  }

  lemma DataCounts(c: Camera, code: u16, data: seq<byte>)
    ensures Responses(DataPhase(c, code, data).sent) == Responses(c.sent) + if SilentData(c, code) then 0 else 1
  {
    hide Respond, Responses, Stored, Checksum, FindProp, SetterCode;
    RespondCounts(c, RC_OPERATION_NOT_SUPPORTED, []);
    RespondCounts(c, RC_SESSION_NOT_OPEN, []);
    RespondCounts(c, RC_GENERAL_ERROR, []);
    RespondCounts(c, RC_OK, []);
    if |c.cmd.params| == 1 && FindProp(c.props, c.cmd.params[0]) < |c.props| {
      var i := FindProp(c.props, c.cmd.params[0]);
      var (p, rc) := Stored(c.props[i], data);
      RespondCounts(c.(props := c.props[i := p]), SetterCode(rc), []);
    }
  }

  /**
   Any client, any state: a transaction gets exactly one response if and only if its data
   phase comes just where one is expected, or is missing just where the command already
   answered. With a session open and one parameter a write always qualifies; with the
   session closed, or the wrong number of parameters, both phases answer.
   */
  lemma OneResponseIff(c: Camera, t: Txn, tid: u32)
    ensures Responses(Transact(c, t, tid).sent) == Responses(c.sent) + 1 <==>
            if t.data.Some? then
              c.session != 0 && (t.code == VUSB || (t.code == SET_PROP_VALUE && |t.params| == 1))
            else
              !SilentCommand(c, Request(t.code, tid, t.params))
  {
    var req := Request(t.code, tid, t.params);
    CommandCounts(c, req);
    if t.data.Some? {
      DataCounts(Command(c, req), t.code, t.data.value);
      if TakesData(t.code) {
        CommandKeeps(c, req);
      }
    }
    hide DataPhase, Responses, FindProp, Handle;
  }

  lemma CommandKeeps(c: Camera, req: Request)
    requires req.code != OPEN_SESSION && req.code != CLOSE_SESSION
    ensures var c' := Command(c, req);
            && c'.session == c.session && c'.props == c.props
            && (TakesData(req.code) ==> c'.cmd == req)
  {
    hide StoreReply, StoreAfter, PropReply, FindProp;
  }

  // ---- Writing and reading back -----------------------------------------------------------

  /**
   A visible property without a setter of its own: reading it after a write answers with
   the written bytes exactly when they are as long as their type makes them, or, for
   untyped values, as long as the value registered first.
   */
  lemma WriteThenRead(c: Camera, code: u32, data: seq<byte>, tid: u32)
    requires c.session != 0 && data != []
    requires var i := FindProp(c.props, code); i < |c.props| && !c.props[i].invisible && c.props[i].setter == Stores
    ensures var c' := Transact(c, Txn(SET_PROP_VALUE, [code], Some(data)), tid);
            var p := c.props[FindProp(c.props, code)];
            PropReply(c'.props, [code]) == Reply(Some(data), RC_OK, []) <==>
            if p.kind == UNDEF then p.valueLength == |data| else SelfSized(data, p.kind)
  {
    var i := FindProp(c.props, code);
    var p := c.props[i].(value := Some(data));
    FindPropKeeps(c.props, code, p);
    var req := Request(SET_PROP_VALUE, tid, [code]);
    assert Command(c, req) == c.(cmd := req);
    assert Transact(c, Txn(SET_PROP_VALUE, [code], Some(data)), tid).props == c.props[i := p];
    hide PropSize, FindProp, Transact;
    var size := if p.kind == UNDEF then Some(p.valueLength) else PropSize(data, p.kind);
    if size.Some? && size.value <= |data| && data[..size.value] == data {
      assert size.value == |data|;
    }
  }

  lemma {:induction false} FindPropKeeps(props: seq<Prop>, code: u32, p: Prop)
    requires FindProp(props, code) < |props| && p.code == code
    ensures FindProp(props[FindProp(props, code) := p], code) == FindProp(props, code)
  {
    var i := FindProp(props, code);
    var props' := props[i := p];
    var j := FindProp(props', code);
    assert props'[i].code == code;
    assert forall k :: 0 <= k < |props| && k != i ==> props'[k] == props[k];
  }
}
