/**
 The camera object: its two bulk buffers, its session, its properties and its object list,
 driven by what the host writes (`src/vcamera.c`, `src/ops.c`).
 */
module Responder {
  import opened Bytes
  import opened BulkPipe
  import opened Containers
  import opened Framing
  import opened PropTypes
  import opened Replies
  import opened Transactions
  import Catalog
  import Downloads
  import Listings
  import ObjectStore

  /** At most five parameters, and a length field that stays a non-negative C `int`. */
  predicate Fitting(r: Reply)
  {
    |r.params| <= 5 && (r.data.Some? ==> 12 + |r.data.value| <= INT_MAX)
  }

  /** Answers that fit. */
  ghost predicate Bounded(c: Camera)
  {
    && (forall s, props, code, params :: Fitting(c.around.describe(s, props, code, params)))
    && |c.store.list| <= 0x1000_0000
    && forall i :: 0 <= i < |c.props| && c.props[i].value.Some? ==> |c.props[i].value.value| <= 0x4000_0000
  }

  lemma StoreReplyFits(c: Camera, code: u16, params: seq<u32>)
    requires Bounded(c) && InStore(code)
    ensures Fitting(StoreReply(c.store, code, params))
  {
    assert |Listings.Handles(c.store.list, Listings.Mode(params))| <= |c.store.list|;
  }

  lemma PropReplyFits(c: Camera, params: seq<u32>)
    requires Bounded(c)
    ensures Fitting(PropReply(c.props, params))
  {
    hide FindProp;
  }

  /** Until the object counter wraps, no write leaves the object list unsound. */
  lemma WriteKeepsStore(w: Wire, data: seq<byte>)
    requires ObjectStore.Inv(w.cam.store) && w.cam.store.objectid + 2 < WRAP
    ensures ObjectStore.Inv(Write(w, data).cam.store)
  {
    var ob := w.outbulk + data;
    hide ObjectStore.Inv, Get32, Get16, GetWords, Command, DataPhase;
    if 4 <= |ob| && 4 <= Get32(ob) <= |ob| {
      var d := ob[..Get32(ob)];
      if !Malformed(d) && Get16(d[4..]) == COMMAND {
        CommandKeepsStore(w.cam, Request(Get16(d[6..]), Get32(d[8..]), GetWords(d[12..])));
      } else if !Malformed(d) {
        DataKeepsStore(w.cam, Get16(d[6..]), d[12..]);
      }
    }
  }

  lemma CommandKeepsStore(c: Camera, req: Request)
    requires ObjectStore.Inv(c.store) && c.store.objectid + 2 < WRAP
    ensures ObjectStore.Inv(Command(c, req).store)
  {
    hide *;
    StoreOf(c, req);
    if InStore(req.code) {
      DeletedKeeps(c.store, req.params);
      CapturedKeeps(c.store, req.params);
      AfterIs(c.store, req.code, req.params);
    }
  }

  /** A command's effect on the object list is the handler's, if it reaches a handler at all. */
  lemma StoreOf(c: Camera, req: Request)
    ensures var s := Command(c, req).store;
            s == c.store || (InStore(req.code) && s == StoreAfter(c.store, req.code, req.params))
    ensures Command(c, req).props == c.props && Command(c, req).around == c.around
  {
    hide StoreReply, StoreAfter, PropReply, FindProp, Description;
  }

  lemma AfterIs(s: ObjectStore.Store, code: u16, params: seq<u32>)
    requires InStore(code)
    ensures StoreAfter(s, code, params) in {s, Catalog.AfterDelete(s, params), Catalog.AfterInitiateCapture(s, params)}
  {
    hide Catalog.AfterDelete, Catalog.AfterInitiateCapture;
  }

  lemma DeletedKeeps(s: ObjectStore.Store, params: seq<u32>)
    requires ObjectStore.Inv(s)
    ensures var s' := Catalog.AfterDelete(s, params);
            ObjectStore.Inv(s') && |s'.list| <= |s.list| && s'.objectid == s.objectid
  {
    DeletedIs(s, params);
    DeletesFew(s, params);
    hide ObjectStore.Delete, Catalog.AfterDelete;
    if |params| > 0 {
      ObjectStore.DeleteKeeps(s, params[0]);
    }
  }

  lemma DeletedIs(s: ObjectStore.Store, params: seq<u32>)
    ensures var s' := Catalog.AfterDelete(s, params);
            s' == s || s' == ObjectStore.DeleteAll(s) || (|params| > 0 && s' == ObjectStore.Delete(s, params[0]))
  {
    hide ObjectStore.Delete, ObjectStore.Find;
  }

  lemma DeletesFew(s: ObjectStore.Store, params: seq<u32>)
    ensures var s' := Catalog.AfterDelete(s, params); |s'.list| <= |s.list| && s'.objectid == s.objectid
  {
    DeletedIs(s, params);
    hide Catalog.AfterDelete, ObjectStore.Find;
  }

  lemma CapturedKeeps(s: ObjectStore.Store, params: seq<u32>)
    requires ObjectStore.Inv(s) && s.objectid + 2 < WRAP
    ensures ObjectStore.Inv(Catalog.AfterInitiateCapture(s, params))
  {
    hide ObjectStore.Inv, ObjectStore.Capture, Catalog.AfterInitiateCapture;
    CapturedIs(s, params);
    ObjectStore.CaptureStays(s, ObjectStore.GPHOT, Catalog.CAPTURE_NAME);
  }

  lemma CapturedIs(s: ObjectStore.Store, params: seq<u32>)
    ensures var s' := Catalog.AfterInitiateCapture(s, params);
            s' == s || s' == ObjectStore.Capture(s, ObjectStore.GPHOT, Catalog.CAPTURE_NAME)
    ensures ObjectStore.GPHOT in {ObjectStore.GPHOT, ObjectStore.NIKON}
  {
    hide ObjectStore.Capture, ObjectStore.FirstJpg;
  }

  lemma CapturesFew(s: ObjectStore.Store, params: seq<u32>)
    ensures var s' := Catalog.AfterInitiateCapture(s, params);
            |s'.list| <= |s.list| + 2 && (s.objectid + 2 < WRAP ==> s'.objectid <= s.objectid + 2)
  {
    CapturedIs(s, params);
    hide Catalog.AfterInitiateCapture, ObjectStore.FirstJpg, ObjectStore.LastDcim, ObjectStore.FindFolder;
  }

  lemma DataKeepsStore(c: Camera, code: u16, data: seq<byte>)
    ensures DataPhase(c, code, data).store == c.store
  {
  }

  // ---- Room for a whole run ----------------------------------------------------------------

  const LIMIT: nat := 0x4000_0000

  ghost predicate PropFits(p: Prop)
  {
    && (p.value.Some? ==> |p.value.value| <= LIMIT)
    && (p.setter.Custom? ==> forall d :: p.setter.after(d).Some? ==> |p.setter.after(d).value| <= LIMIT)
  }

  /** No number overflows within `writes` more writes of `bytes` bytes in all. */
  ghost predicate RoomFor(w: Wire, writes: nat, bytes: nat)
  {
    && (forall s, props, code, params :: Fitting(w.cam.around.describe(s, props, code, params)))
    && (forall i :: 0 <= i < |w.cam.props| ==> PropFits(w.cam.props[i]))
    && ObjectStore.Inv(w.cam.store)
    && |w.cam.store.list| + 2 * writes <= 0x1000_0000 && w.cam.store.objectid + 2 * writes + 2 < WRAP
    && |w.outbulk| + bytes <= LIMIT
  }

  lemma RoomIsBounded(w: Wire, writes: nat, bytes: nat)
    requires RoomFor(w, writes, bytes)
    ensures Bounded(w.cam) && ObjectStore.Inv(w.cam.store)
  {
    hide ObjectStore.Inv, Fitting;
    assert forall i :: 0 <= i < |w.cam.props| ==> PropFits(w.cam.props[i]);
  }

  lemma CommandGrows(c: Camera, req: Request)
    ensures var c' := Command(c, req);
            && c'.props == c.props && c'.around == c.around
            && |c'.store.list| <= |c.store.list| + 2
            && (c.store.objectid + 2 < WRAP ==> c'.store.objectid <= c.store.objectid + 2)
  {
    hide *;
    StoreOf(c, req);
    if InStore(req.code) {
      AfterIs(c.store, req.code, req.params);
      DeletesFew(c.store, req.params);
      CapturesFew(c.store, req.params);
    }
  }

  lemma DataGrows(c: Camera, code: u16, data: seq<byte>)
    requires |data| <= LIMIT && forall i :: 0 <= i < |c.props| ==> PropFits(c.props[i])
    ensures var c' := DataPhase(c, code, data);
            && c'.store == c.store && c'.around == c.around
            && forall i :: 0 <= i < |c'.props| ==> PropFits(c'.props[i])
  {
    hide FindProp, Checksum, SetterCode;
  }

  /** What one write may use up. */
  lemma ReceiveGrows(c: Camera, d: seq<byte>)
    requires 4 <= |d| <= LIMIT && forall i :: 0 <= i < |c.props| ==> PropFits(c.props[i])
    ensures var c' := Receive(c, d);
            && c'.around == c.around
            && |c'.store.list| <= |c.store.list| + 2
            && (c.store.objectid + 2 < WRAP ==> c'.store.objectid <= c.store.objectid + 2)
            && forall i :: 0 <= i < |c'.props| ==> PropFits(c'.props[i])
  {
    hide Command, DataPhase, PropFits, Get16, Get32, GetWords;
    if |d| >= 12 {
      CommandGrows(c, Request(Get16(d[6..]), Get32(d[8..]), GetWords(d[12..])));
      DataGrows(c, Get16(d[6..]), d[12..]);
    }
  }

  lemma WriteKeepsRoom(w: Wire, data: seq<byte>, writes: nat, bytes: nat)
    requires RoomFor(w, writes + 1, bytes + |data|)
    ensures RoomFor(Write(w, data), writes, bytes)
  {
    WriteKeepsStore(w, data);
    hide Receive, PropFits, Fitting, ObjectStore.Inv, Malformed, Get32;
    var ob := w.outbulk + data;
    if 4 <= |ob| && 4 <= Get32(ob) <= |ob| {
      ReceiveGrows(w.cam, ob[..Get32(ob)]);
    }
  }

  lemma OneMoreWrite(w: Wire, chunks: seq<seq<byte>>, i: nat)
    requires i < |chunks| && RoomFor(w, |chunks| - i, |Flatten(chunks[i..])|)
    ensures Bounded(w.cam) && ObjectStore.Inv(w.cam.store)
    ensures Feed(w, chunks[i..]) == Feed(Write(w, chunks[i]), chunks[i + 1..])
    ensures RoomFor(Write(w, chunks[i]), |chunks| - (i + 1), |Flatten(chunks[i + 1..])|)
  {
    hide ObjectStore.Inv, Bounded, RoomFor, Write;
    assert chunks[i..][0] == chunks[i] && chunks[i..][1..] == chunks[i + 1..];
    RoomIsBounded(w, |chunks| - i, |Flatten(chunks[i..])|);
    WriteKeepsRoom(w, chunks[i], |chunks| - (i + 1), |Flatten(chunks[i + 1..])|);
  }

  lemma NextWord(d: seq<byte>, i: nat)
    requires 4 * i + 4 <= |d|
    ensures forall ps: seq<u32> :: ps + GetWords(d[4 * i..]) == ps + [Get32(d[4 * i..])] + GetWords(d[4 * (i + 1)..])
  {
    hide Get32;
    var e := d[4 * i..];
    assert e[4..] == d[4 * (i + 1)..];
  }

  lemma NoMoreWords(d: seq<byte>)
    requires |d| % 4 == 0
    ensures forall ps: seq<u32> :: ps + GetWords(d[4 * (|d| / 4)..]) == ps
  {
    assert d[4 * (|d| / 4)..] == [];
  }

  class VirtualCamera {
    const bulk: BulkIn
    const catalog: Catalog.Camera
    const around: Surroundings
    var outbulk: seq<byte>
    var session: u32
    var cmd: Request
    var props: seq<Prop>

    ghost predicate Valid()
      reads this, bulk
    {
      bulk.Valid()
    }

    ghost function View(): Camera
      reads this, bulk, catalog
    {
      Camera(session, bulk.seqnr, cmd, props, catalog.State(), bulk.sent, around)
    }

    constructor (bulk: BulkIn, catalog: Catalog.Camera, props: seq<Prop>, around: Surroundings)
      requires bulk.Valid()
      ensures this.bulk == bulk && this.catalog == catalog && this.around == around && Valid() && outbulk == [] && session == 0
      ensures this.props == props
    {
      this.bulk, this.catalog, this.props, this.around := bulk, catalog, props, around;
      outbulk, session, cmd := [], 0, Request(0, 0, []);
    }

    method Response(rc: u16, params: seq<u32>)
      requires Valid() && |params| <= 1
      modifies bulk
      ensures Valid() && View() == Respond(old(View()), rc, params)
    {
      bulk.Response(rc, params);
    }

    method Reply(code: u16, r: Replies.Reply)
      requires Valid() && Fitting(r)
      modifies bulk
      ensures Valid() && View() == Answer(old(View()), code, r)
    {
      if r.data.Some? {
        bulk.SendData(code, r.data.value);
      }
      bulk.Response(r.rc, r.params);
    }

    method OpenSessionWrite(req: Request)
      requires Valid()
      modifies this, bulk
      ensures Valid() && View() == OpenSession(old(View()), req) && outbulk == old(outbulk)
    {
      if |req.params| != 1 {
        Response(RC_GENERAL_ERROR, []);
      } else if req.params[0] == 0 {
        Response(RC_INVALID_PARAMETER, []);
      } else {
        bulk.seqnr := req.tid;
        if session != 0 {
          Response(RC_SESSION_ALREADY_OPENED, []);
        } else {
          session := req.params[0];
          Response(RC_OK, []);
        }
      }
    }

    method CloseSessionWrite(req: Request)
      requires Valid()
      modifies this, bulk
      ensures Valid() && View() == CloseSession(old(View()), req) && outbulk == old(outbulk)
    {
      if |req.params| != 0 {
        Response(RC_GENERAL_ERROR, []);
      } else if session == 0 {
        Response(RC_SESSION_ALREADY_OPENED, []);
      } else {
        session := 0;
        Response(RC_OK, []);
        bulk.seqnr := 1;
      }
    }

    method PropIndex(code: u32) returns (i: nat)
      ensures i == FindProp(props, code)
    {
      i := 0;
      while i < |props| && props[i].code != code
        invariant i <= |props| && forall k :: 0 <= k < i ==> props[k].code != code
      {
        i := i + 1;
      }
      var j := FindProp(props, code);
      assert !(j < i);
    }

    method GetDevicePropValueWrite(req: Request)
      requires Valid() && Bounded(View()) && session != 0
      modifies bulk
      ensures Valid() && View() == Answer(old(View()), GET_PROP_VALUE, PropReply(old(View()).props, req.params))
    {
      PropReplyFits(View(), req.params);
      hide Answer, PropSize;
      if |req.params| != 1 {
        Reply(GET_PROP_VALUE, Just(RC_GENERAL_ERROR));
        return;
      }
      var i := PropIndex(req.params[0]);
      if i == |props| || props[i].invisible {
        Reply(GET_PROP_VALUE, Just(RC_DEVICE_PROP_NOT_SUPPORTED));
        return;
      }
      var v := ValueBytes(props[i]);
      if v.None? {
        Reply(GET_PROP_VALUE, Just(RC_DEVICE_PROP_NOT_SUPPORTED));
      } else {
        Reply(GET_PROP_VALUE, Replies.Reply(v, RC_OK, []));
      }
    }

    method SetDevicePropValueWrite(req: Request)
      requires Valid()
      modifies bulk
      ensures Valid() && View() == SetPropCommand(old(View()), req)
    {
      if session == 0 {
        Response(RC_SESSION_NOT_OPEN, []);
        return;
      }
      if |req.params| != 1 {
        Response(RC_GENERAL_ERROR, []);
        return;
      }
      var i := PropIndex(req.params[0]);
      if i == |props| {
        Response(RC_DEVICE_PROP_NOT_SUPPORTED, []);
      }
    }

    method SetDevicePropValueWriteData(data: seq<byte>)
      requires Valid()
      modifies this, bulk
      ensures Valid() && View() == SetPropData(old(View()), data) && outbulk == old(outbulk)
    {
      if session == 0 {
        Response(RC_SESSION_NOT_OPEN, []);
        return;
      }
      if |cmd.params| != 1 {
        Response(RC_GENERAL_ERROR, []);
        return;
      }
      var i := PropIndex(cmd.params[0]);
      if i < |props| {
        hide FindProp;
        StoreProp(i, data);
      }
    }

    method StoreProp(i: nat, data: seq<byte>)
      requires Valid() && i < |props|
      modifies this, bulk
      ensures Valid() && outbulk == old(outbulk)
      ensures var c := old(View());
              View() == if c.props[i].invisible then Refuse(c, RC_OK)
                        else if data == [] then Refuse(c, RC_GENERAL_ERROR)
                        else Refuse(c.(props := c.props[i := Stored(c.props[i], data).0]), SetterCode(Stored(c.props[i], data).1))
    {
      if props[i].invisible {
        Response(RC_OK, []);
        return;
      }
      if data == [] {
        Response(RC_GENERAL_ERROR, []);
        return;
      }
      var (p, rc) := Stored(props[i], data);
      props := props[i := p];
      Response(SetterCode(rc), []);
    }

    method VusbWriteData(data: seq<byte>)
      requires Valid()
      modifies bulk
      ensures Valid() && View() == VusbData(old(View()), data)
    {
      var checksum := 0;
      for i := 0 to |data|
        invariant checksum == Checksum(data[..i])
      {
        assert data[..i + 1][..i] == data[..i];
        checksum := checksum + data[i];
      }
      assert data[..|data|] == data;
      var expected := if cmd.params == [] then around.junk(cmd) else cmd.params[0];
      Response(if checksum % WRAP != expected then RC_GENERAL_ERROR else RC_OK, []);
    }

    /** The handlers over the object list. */
    method StoreWrite(req: Request)
      requires Valid() && InStore(req.code) && Bounded(View()) && ObjectStore.Inv(catalog.State())
      modifies bulk, catalog
      ensures Valid()
      ensures var c := old(View());
              View() == Answer(c.(store := StoreAfter(c.store, req.code, req.params)), req.code,
                               StoreReply(c.store, req.code, req.params))
    {
      StoreReplyFits(View(), req.code, req.params);
      var r := AskStore(req);
      hide Answer, StoreReply, StoreAfter;
      Reply(req.code, r);
    }

    method AskStore(req: Request) returns (r: Replies.Reply)
      requires InStore(req.code) && ObjectStore.Inv(catalog.State())
      modifies catalog
      ensures r == StoreReply(old(catalog.State()), req.code, req.params)
      ensures catalog.State() == StoreAfter(old(catalog.State()), req.code, req.params)
    {
      if req.code == GET_NUM_OBJECTS {
        r := catalog.GetNumObjects(req.params);
      } else if req.code == GET_OBJECT_HANDLES {
        r := catalog.GetObjectHandles(req.params);
      } else if req.code == DELETE_OBJECT {
        r := catalog.DeleteObject(req.params);
      } else if req.code == INITIATE_CAPTURE {
        r := catalog.InitiateCapture(req.params);
      } else {
        r := Downloads.GetPartialObject(catalog.State(), req.params);
      }
    }

    /** The opcode table for commands, and the copy kept for a data phase. */
    method CommandWrite(req: Request)
      requires Valid() && Bounded(View()) && ObjectStore.Inv(catalog.State())
      modifies this, bulk, catalog
      ensures Valid() && View() == Command(old(View()), req) && outbulk == old(outbulk)
    {
      if !Known(req.code) {
        Response(RC_OPERATION_NOT_SUPPORTED, []);
        return;
      }
      HandleWrite(req);
      hide Handle, Known;
      cmd := req;
    }

    /** The handlers that send a description of the camera, an object or a property. */
    method DescribeWrite(req: Request)
      requires Valid() && Bounded(View())
      modifies bulk
      ensures Valid() && View() == Answer(old(View()), req.code, Description(old(View()), req))
    {
      Reply(req.code, around.describe(catalog.State(), props, req.code, req.params));
    }

    method HandleWrite(req: Request)
      requires Valid() && Bounded(View()) && ObjectStore.Inv(catalog.State()) && Known(req.code)
      modifies this, bulk, catalog
      ensures Valid() && View() == Handle(old(View()), req) && outbulk == old(outbulk)
    {
      hide ObjectStore.Inv, Bounded, Answer, OpenSession, CloseSession, SetPropCommand, StoreReply, StoreAfter, PropReply;
      if req.code == OPEN_SESSION {
        OpenSessionWrite(req);
      } else if req.code == CLOSE_SESSION {
        CloseSessionWrite(req);
      } else if req.code == SET_PROP_VALUE {
        SetDevicePropValueWrite(req);
      } else if req.code == GET_DEVICE_INFO {
        DescribeWrite(req);
      } else if session == 0 {
        Response(RC_SESSION_NOT_OPEN, []);
      } else if req.code == GET_PROP_VALUE {
        GetDevicePropValueWrite(req);
      } else if Describes(req.code) {
        DescribeWrite(req);
      } else if req.code != VUSB {
        StoreWrite(req);
      }
    }

    method DataWrite(code: u16, data: seq<byte>)
      requires Valid()
      modifies this, bulk
      ensures Valid() && View() == DataPhase(old(View()), code, data) && outbulk == old(outbulk)
    {
      hide SetPropData, VusbData;
      if !Known(code) {
        Response(RC_OPERATION_NOT_SUPPORTED, []);
      } else if code == SET_PROP_VALUE {
        SetDevicePropValueWriteData(data);
      } else if code == VUSB {
        VusbWriteData(data);
      } else {
        Response(RC_GENERAL_ERROR, []);
      }
    }

    method ReadParams(d: seq<byte>) returns (params: seq<u32>)
      requires |d| % 4 == 0
      ensures params == GetWords(d)
    {
      hide Get32, GetWords;
      params := [];
      assert d[4 * 0..] == d;
      for i := 0 to |d| / 4
        invariant params + GetWords(d[4 * i..]) == GetWords(d)
      {
        NextWord(d, i);
        params := params + [Get32(d[4 * i..])];
      }
      NoMoreWords(d);
    }

    /** Takes a complete container of `size` bytes off the buffer and acts on it. */
    method TakeContainer(size: nat)
      requires Valid() && Bounded(View()) && ObjectStore.Inv(catalog.State())
      requires 4 <= size <= |outbulk|
      modifies this, bulk, catalog
      ensures Valid() && View() == Receive(old(View()), old(outbulk[..size]))
      ensures outbulk == old(if Malformed(outbulk[..size]) then outbulk[size..] else outbulk[..|outbulk| - size])
    {
      hide Handle, Command, DataPhase, GetWords, Get32, Get16, ObjectStore.Inv, Bounded;
      var d := outbulk[..size];
      if Malformed(d) {
        Response(RC_GENERAL_ERROR, []);
        outbulk := outbulk[size..];
        return;
      }
      outbulk := outbulk[..|outbulk| - size];
      if Get16(d[4..]) == COMMAND {
        var params := ReadParams(d[12..]);
        CommandWrite(Request(Get16(d[6..]), Get32(d[8..]), params));
      } else {
        DataWrite(Get16(d[6..]), d[12..]);
      }
    }

    /** vcam_process_output */
    method ProcessOutput()
      requires Valid() && Bounded(View()) && ObjectStore.Inv(catalog.State())
      modifies this, bulk, catalog
      ensures Valid() && Wire(outbulk, View()) == Framing.ProcessOutput(old(Wire(outbulk, View())))
    {
      hide Receive, Malformed, Get32, ObjectStore.Inv, Bounded;
      if |outbulk| < 4 {
        return;
      }
      var size := Get32(outbulk);
      if size > |outbulk| {
        return;
      }
      if size < 4 {
        Response(RC_GENERAL_ERROR, []);
        outbulk := outbulk[size..];
        return;
      }
      TakeContainer(size);
    }

    method VcamWrite(data: seq<byte>) returns (n: nat)
      requires Valid() && Bounded(View()) && ObjectStore.Inv(catalog.State())
      modifies this, bulk, catalog
      ensures Valid() && n == |data| && Wire(outbulk, View()) == Write(old(Wire(outbulk, View())), data)
      ensures old(catalog.objectid) + 2 < WRAP ==> ObjectStore.Inv(catalog.State())
    {
      if catalog.objectid + 2 < WRAP {
        WriteKeepsStore(Wire(outbulk, View()), data);
      }
      hide Framing.ProcessOutput, ObjectStore.Inv, Bounded;
      outbulk := outbulk + data;
      ProcessOutput();
      n := |data|;
    }

    /** A host that writes again and again: the camera ends where the specified run leads. */
    method WriteAll(chunks: seq<seq<byte>>)
      requires Valid() && RoomFor(Wire(outbulk, View()), |chunks|, |Flatten(chunks)|)
      modifies this, bulk, catalog
      ensures Valid() && Wire(outbulk, View()) == Feed(old(Wire(outbulk, View())), chunks)
      ensures ObjectStore.Inv(catalog.State())
    {
      hide ObjectStore.Inv, Bounded, RoomFor, Write, Flatten;
      assert chunks[0..] == chunks;
      for i := 0 to |chunks|
        invariant Valid() && RoomFor(Wire(outbulk, View()), |chunks| - i, |Flatten(chunks[i..])|)
        invariant Feed(Wire(outbulk, View()), chunks[i..]) == Feed(old(Wire(outbulk, View())), chunks)
      {
        OneMoreWrite(Wire(outbulk, View()), chunks, i);
        var _ := VcamWrite(chunks[i]);
      }
      RoomIsBounded(Wire(outbulk, View()), 0, |Flatten(chunks[|chunks|..])|);
    }

    /** One bulk-IN transfer to the host. */
    method ReadBulk(buf: array<byte>, len: nat) returns (n: nat)
      requires Valid() && len <= buf.Length && bulk.inbulk != [] && (bulk.lastLength == 0 ==> len >= 4)
      modifies bulk, buf
      ensures Valid() && View() == old(View())
      ensures MayServe(old(bulk.State()), len) && n == Size(old(bulk.State()), len)
      ensures bulk.State() == Serve(old(bulk.State()), len)
      ensures buf[..] == Written(old(buf[..]), 0, Chunk(old(bulk.State()), len))
    {
      n := bulk.UrbSplitter(buf, len);
    }
  }
}
