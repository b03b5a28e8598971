/**
 Partial downloads (section 10.4.27 of PIMA 15740:2000): the standard operation, the EOS
 one and Nikon's with 64-bit offsets, each with its own cap and its own order of looking
 a handle up (`src/ops.c`, `src/canon/objects.c`, `src/nikon/ops.c`, `src/fuji/fuji.c`).
 */
module Downloads {
  import opened Bytes
  import opened Replies
  import opened ObjectStore

  const STANDARD_CAP: int := 0x100_0000
  const EOS_CAP: int := 0x8_0000
  const NIKON_CAP: int := 0xA0_0000

  /** Up to `n` bytes of an object from `offset` on. */
  function Slice(content: seq<byte>, offset: nat, n: nat): (part: seq<byte>)
    ensures |part| == if offset < |content| then Min(n, |content| - offset) else 0
  {
    if offset < |content| then content[offset..offset + Min(n, |content| - offset)] else []
  }

  // ---- Which object a handle names -----------------------------------------------------

  /** What there is to read behind a handle: its announced size, and the bytes a read gives. */
  datatype Object = Object(opens: bool, size: nat, content: seq<byte>)

  function Stored(d: Dirent): Object
  {
    Object(!d.virtual, d.size, d.content)
  }

  function Remembered(m: Sdram): Object
  {
    Object(true, |m.data|, m.data)
  }

  /** The standard operation looks at the list first, then asks the vendor's memory. */
  function FilesFirst(s: Store, h: u32): Option<Object>
  {
    var i := Find(s.list, h);
    if i < |s.list| then Some(Stored(s.list[i]))
    else if s.sdram.Some? && s.sdram.value.handle == h then Some(Remembered(s.sdram.value))
    else None
  }

  /** The EOS operation asks memory first, and so does Nikon's, whose memory handle is 0xFFFF0001. */
  function MemoryFirst(s: Store, h: u32): Option<Object>
  {
    if s.sdram.Some? && s.sdram.value.handle == h then Some(Remembered(s.sdram.value))
    else
      var i := Find(s.list, h);
      if i < |s.list| then Some(Stored(s.list[i])) else None
  }

  /** In every reachable store both orders find the same object. */
  lemma LookupsAgree(s: Store, h: u32)
    requires Inv(s)
    ensures FilesFirst(s, h) == MemoryFirst(s, h)
  {
  }

  /** In every reachable store what can be opened has no more bytes than its size announces. */
  lemma FoundFits(s: Store, h: u32)
    requires Inv(s) && MemoryFirst(s, h).Some?
    ensures var o := MemoryFirst(s, h).value; |o.content| <= o.size && (o.size == |o.content| || o.content == [])
  {
  }

  // ---- The three operations ------------------------------------------------------------

  /** `fread` at `offset` of at most `n` bytes, none of them beyond the announced size. */
  function Got(o: Object, offset: nat, n: nat): (part: seq<byte>)
    ensures |part| <= n
  {
    if offset < o.size then Slice(o.content, offset, Min(n, o.size - offset)) else []
  }

  function Part(found: Option<Object>, offset: nat, n: nat): Reply
  {
    match found
    case None => Just(RC_INVALID_OBJECT_HANDLE)
    case Some(o) =>
      if !o.opens then Just(RC_GENERAL_ERROR)
      else
        var part := Got(o, offset, n);
        Reply(Some(part), RC_OK, [|part| % WRAP])
  }

  function StandardReply(s: Store, params: seq<u32>): Reply
  {
    if |params| != 3 then Just(RC_GENERAL_ERROR)
    else Part(FilesFirst(s, params[0]), params[1], Min(params[2], STANDARD_CAP))
  }

  function EosReply(s: Store, params: seq<u32>): Reply
  {
    if |params| != 3 then Just(RC_GENERAL_ERROR)
    else Part(MemoryFirst(s, params[0]), params[1], Min(params[2], EOS_CAP))
  }

  /** `fopen`, `fseek` and `fread` on an object: None if it cannot be opened. */
  method ReadObject(o: Object, offset: nat, n: nat) returns (bytes: Option<seq<byte>>)
    ensures bytes == if o.opens then Some(Slice(o.content, offset, n)) else None
  {
    if !o.opens {
      return None;
    }
    var from := if offset < |o.content| then offset else |o.content|;
    var count := if n < |o.content| - from then n else |o.content| - from;
    assert o.content[from..from + count] == Slice(o.content, offset, n);
    bytes := Some(o.content[from..from + count]);
  }

  /** The copy out of memory: what is left behind a clamped offset. */
  lemma MemoryPart(m: Sdram, offset: nat, n: nat)
    ensures var from := Min(offset, |m.data|);
            var count := Min(n, |m.data| - from);
            && 0 <= count <= n
            && Part(Some(Remembered(m)), offset, n) == Reply(Some(m.data[from..][..count]), RC_OK, [count % WRAP])
  {
    var from := Min(offset, |m.data|);
    var count := Min(n, |m.data| - from);
    assert m.data[from..][..count] == m.data[from..from + count];
  }

  lemma NoPart(offset: nat, n: nat)
    ensures Part(None, offset, n) == Just(RC_INVALID_OBJECT_HANDLE)
  {
  }

  lemma FilePart(o: Object, offset: nat, n: nat)
    ensures Part(Some(o), offset, n) ==
            if o.opens then
              var part := Slice(o.content, offset, if offset < o.size then Min(n, o.size - offset) else 0);
              Reply(Some(part), RC_OK, [|part| % WRAP])
            else
              Just(RC_GENERAL_ERROR)
  {
    assert Slice(o.content, offset, 0) == [];
  }

  method GetPartialObject(s: Store, params: seq<u32>) returns (r: Reply)
    ensures r == StandardReply(s, params)
  {
    hide Find, Slice, Got, Part, Remembered, Stored;
    if |params| != 3 {
      return Just(RC_GENERAL_ERROR);
    }
    var i := FindEntry(s.list, params[0]);
    if i == |s.list| {
      if s.sdram.Some? && s.sdram.value.handle == params[0] {
        var vdata := s.sdram.value.data;
        var start, requested := params[1], params[2];
        if requested > STANDARD_CAP { requested := STANDARD_CAP; }
        MemoryPart(s.sdram.value, start, requested);
        var from: int := start;
        if from > |vdata| { from := |vdata|; }
        var avail := |vdata| - from;
        var tocopy := if requested < avail then requested else avail;
        return Reply(Some(vdata[from..][..tocopy]), RC_OK, [tocopy % WRAP]);
      }
      NoPart(params[1], Min(params[2], STANDARD_CAP));
      return Just(RC_INVALID_OBJECT_HANDLE);
    }
    var start, requested := params[1], params[2];
    if requested > STANDARD_CAP { requested := STANDARD_CAP; }
    r := ReadFile(s.list[i], start, requested);
  }

  /** The file behind an entry: no further than its announced size. */
  method ReadFile(d: Dirent, start: nat, requested: nat) returns (r: Reply)
    ensures r == Part(Some(Stored(d)), start, requested)
  {
    hide Slice, Got, Part;
    FilePart(Stored(d), start, requested);
    var size, objectSize := 0, d.size;
    if start < objectSize {
      var remaining := objectSize - start;
      size := if requested < remaining then requested else remaining;
    }
    var buffer := ReadObject(Stored(d), start, size);
    if buffer.None? {
      return Just(RC_GENERAL_ERROR);
    }
    return Reply(buffer, RC_OK, [|buffer.value| % WRAP]);
  }

  method EosServePartial(s: Store, params: seq<u32>) returns (r: Reply)
    ensures r == EosReply(s, params)
  {
    hide Find, Slice, Got, Part, Remembered, Stored;
    if |params| != 3 {
      return Just(RC_GENERAL_ERROR);
    }
    var offset: int, reqsize: int := params[1], params[2];
    if reqsize > EOS_CAP { reqsize := EOS_CAP; }
    if s.sdram.Some? && s.sdram.value.handle == params[0] {
      var vdata := s.sdram.value.data;
      MemoryPart(s.sdram.value, offset, reqsize);
      if offset > |vdata| { offset := |vdata|; }
      var avail := |vdata| - offset;
      var tocopy := if reqsize < avail then reqsize else avail;
      return Reply(Some(vdata[offset..][..tocopy]), RC_OK, [tocopy % WRAP]);
    }
    var i := FindEntry(s.list, params[0]);
    if i == |s.list| {
      NoPart(params[1], reqsize);
      return Just(RC_INVALID_OBJECT_HANDLE);
    }
    r := ReadFile(s.list[i], offset, reqsize);
  }

  /**
   The two operations answer alike for every handle, offset and size, except that the EOS
   answer stops at its smaller cap.
   */
  lemma EosIsCappedStandard(s: Store, params: seq<u32>)
    requires Inv(s)
    ensures var e, t := EosReply(s, params), StandardReply(s, params);
            && e.rc == t.rc && (e.data.Some? <==> t.data.Some?)
            && (e.data.Some? ==> e.data.value == t.data.value[..Min(|t.data.value|, EOS_CAP)])
            && (|params| == 3 && params[2] <= EOS_CAP ==> e == t)
  {
    hide Inv, FilesFirst, MemoryFirst, Slice, Got;
    if |params| == 3 {
      LookupsAgree(s, params[0]);
      var found := FilesFirst(s, params[0]);
      if found.Some? {
        GotCapped(found.value, params[1], params[2]);
      }
    }
  }

  lemma GotCapped(o: Object, offset: nat, n: nat)
    ensures var t := Got(o, offset, Min(n, STANDARD_CAP));
            Got(o, offset, Min(n, EOS_CAP)) == t[..Min(|t|, EOS_CAP)]
    ensures n <= EOS_CAP ==> Min(n, EOS_CAP) == Min(n, STANDARD_CAP)
  {
    var t := Got(o, offset, Min(n, STANDARD_CAP));
    assert t[..Min(|t|, EOS_CAP)] == Got(o, offset, Min(n, EOS_CAP));
  }

  /** Nikon's offset and length come in two halves each. */
  function Wide(lo: u32, hi: u32): u64
  {
    var l: int, h: int := lo, hi;
    l + h * WRAP
  }

  /** An offset beyond the end is answered unopened; a read that falls short is an error. */
  function WidePart(o: Object, offset: nat, n: nat): Reply
    requires n <= NIKON_CAP
  {
    if offset >= o.size then Reply(Some([]), RC_OK, [0, 0])
    else
      var part := Got(o, offset, n);
      if !o.opens || |part| != Min(n, o.size - offset) then Just(RC_GENERAL_ERROR)
      else Reply(Some(part), RC_OK, [|part|, 0])
  }

  function NikonReply(s: Store, params: seq<u32>): Reply
  {
    if |params| != 5 then Just(RC_GENERAL_ERROR)
    else
      match MemoryFirst(s, params[0])
      case None => Just(RC_INVALID_OBJECT_HANDLE)
      case Some(o) => WidePart(o, Wide(params[1], params[2]), Min(Wide(params[3], params[4]), NIKON_CAP))
  }

  method NikonGetPartialObjectEx(s: Store, params: seq<u32>) returns (r: Reply)
    ensures r == NikonReply(s, params)
  {
    hide Find, Slice, Wide;
    if |params| != 5 {
      return Just(RC_GENERAL_ERROR);
    }
    var offset := Wide(params[1], params[2]);
    var maxreq := Wide(params[3], params[4]);
    if maxreq > NIKON_CAP { maxreq := NIKON_CAP; }
    var o: Object;
    if s.sdram.Some? && s.sdram.value.handle == params[0] {
      o := Remembered(s.sdram.value);
    } else {
      var i := FindEntry(s.list, params[0]);
      if i == |s.list| {
        return Just(RC_INVALID_OBJECT_HANDLE);
      }
      o := Stored(s.list[i]);
    }
    if offset >= o.size {
      return Reply(Some([]), RC_OK, [0, 0]);
    }
    var avail := o.size - offset;
    var tocopy := if maxreq < avail then maxreq else avail;
    var buffer := ReadObject(o, offset, tocopy);
    if buffer.None? || |buffer.value| != tocopy {
      return Just(RC_GENERAL_ERROR);
    }
    OneWord(tocopy);
    return Reply(buffer, RC_OK, [tocopy % WRAP, tocopy / WRAP]);
  }

  // ---- A client that loops -------------------------------------------------------------

  /** The count a response carries: one word, or Nikon's two. */
  function Returned(r: Reply): nat
  {
    if |r.params| == 1 then r.params[0]
    else if |r.params| == 2 then Wide(r.params[0], r.params[1])
    else 0
  }

  datatype Fetched = Fetched(bytes: seq<byte>, ended: bool, calls: nat)

  /**
   A client that asks from `offset` on, moves on by the count each response returns, and is
   done with the first count of zero. It gives up on a refusal, and when the next offset is
   beyond `limit`, which is what the request has room for.
   */
  function Loop(ask: nat -> Reply, limit: nat, offset: nat): Fetched
    decreases limit - offset
  {
    if offset >= limit then
      Fetched([], false, 0)
    else
      var r := ask(offset);
      if r.rc != RC_OK || r.data.None? then
        Fetched([], false, 1)
      else if Returned(r) == 0 then
        Fetched(r.data.value, true, 1)
      else
        var rest := Loop(ask, limit, offset + Returned(r));
        Fetched(r.data.value + rest.bytes, rest.ended, rest.calls + 1)
  }

  /** Every offset the request has room for is answered with the next `step` bytes and their count. */
  ghost predicate Serves(ask: nat -> Reply, content: seq<byte>, step: nat, limit: nat)
  {
    forall offset: nat :: offset < limit ==>
                            var r := ask(offset);
                            && r.rc == RC_OK && r.data == Some(Slice(content, offset, step))
                            && Returned(r) == |Slice(content, offset, step)|
  }

  /**
   The client has the whole object from `offset` on after ceil(size / step) calls and an
   empty one; or the object is so long that the offset runs out of room first.
   */
  ghost predicate Rebuilt(f: Fetched, content: seq<byte>, offset: nat, step: nat, limit: nat)
    requires offset <= |content|
  {
    && (f.ended <==> |content| < limit)
    && f.bytes <= content[offset..]
    && (f.ended ==> f.bytes == content[offset..] && (f.calls - 2) * step < |content| - offset <= (f.calls - 1) * step)
    && (!f.ended ==> offset + |f.bytes| >= limit)
  }

  lemma {:induction false} LoopRebuilds(ask: nat -> Reply, content: seq<byte>, step: nat, limit: nat, offset: nat)
    requires step > 0 && Serves(ask, content, step, limit) && offset <= |content|
    ensures Rebuilt(Loop(ask, limit, offset), content, offset, step, limit)
    decreases |content| - offset
  {
    hide Serves;
    if offset >= limit {
      assert Loop(ask, limit, offset) == Fetched([], false, 0);
    } else {
      ServesAt(ask, content, step, limit, offset);
      var part := Slice(content, offset, step);
      if part == [] {
        assert offset == |content|;
      } else {
        LoopRebuilds(ask, content, step, limit, offset + |part|);
        OneMoreCall(part, Loop(ask, limit, offset + |part|), content, offset, step, limit);
      }
    }
  }

  lemma ServesAt(ask: nat -> Reply, content: seq<byte>, step: nat, limit: nat, offset: nat)
    requires Serves(ask, content, step, limit) && offset < limit
    ensures var r := ask(offset);
            && r.rc == RC_OK && r.data == Some(Slice(content, offset, step))
            && Returned(r) == |Slice(content, offset, step)|
  {
  }

  lemma OneMoreCall(part: seq<byte>, rest: Fetched, content: seq<byte>, offset: nat, step: nat, limit: nat)
    requires part == Slice(content, offset, step) != [] && offset + |part| <= |content|
    requires Rebuilt(rest, content, offset + |part|, step, limit)
    ensures Rebuilt(Fetched(part + rest.bytes, rest.ended, rest.calls + 1), content, offset, step, limit)
  {
    assert content[offset..] == part + content[offset + |part|..];
    assert (rest.calls - 1) * step == (rest.calls - 2) * step + step;
    assert rest.calls * step == (rest.calls - 1) * step + step;
    if |part| < step && rest.ended {
      FewCalls(rest.calls - 1, step);
    }
  }

  lemma FewCalls(n: int, step: nat)
    requires (n - 1) * step < 0 <= n * step && step > 0
    ensures n == 0
  {
  }

  /** The standard operation as such a client uses it: a 32-bit offset. */
  function AskStandard(s: Store, h: u32, request: u32): nat -> Reply
  {
    offset => StandardReply(s, [h, offset % WRAP, request])
  }

  function AskEos(s: Store, h: u32, request: u32): nat -> Reply
  {
    offset => EosReply(s, [h, offset % WRAP, request])
  }

  /** Nikon's with offset and request split in two halves. */
  function AskNikon(s: Store, h: u32, request: u64): nat -> Reply
  {
    offset => NikonReply(s, [h, offset % WRAP, offset / WRAP % WRAP, request % WRAP, request / WRAP])
  }

  lemma AskedStandard(s: Store, h: u32, request: u32)
    ensures forall offset: nat :: offset < WRAP ==>
              AskStandard(s, h, request)(offset) == Part(FilesFirst(s, h), offset, Min(request, STANDARD_CAP))
  {
    hide FilesFirst, Part, StandardReply;
    forall offset: nat | offset < WRAP
      ensures AskStandard(s, h, request)(offset) == Part(FilesFirst(s, h), offset, Min(request, STANDARD_CAP))
    {
      StandardIs(s, h, offset, request);
      assert offset % WRAP == offset;
    }
  }

  lemma StandardIs(s: Store, h: u32, offset: u32, request: u32)
    ensures StandardReply(s, [h, offset, request]) == Part(FilesFirst(s, h), offset, Min(request, STANDARD_CAP))
    ensures EosReply(s, [h, offset, request]) == Part(MemoryFirst(s, h), offset, Min(request, EOS_CAP))
  {
    hide FilesFirst, MemoryFirst, Part;
  }

  lemma AskedEos(s: Store, h: u32, request: u32)
    ensures forall offset: nat :: offset < WRAP ==>
              AskEos(s, h, request)(offset) == Part(MemoryFirst(s, h), offset, Min(request, EOS_CAP))
  {
    hide MemoryFirst, Part, EosReply;
    forall offset: nat | offset < WRAP
      ensures AskEos(s, h, request)(offset) == Part(MemoryFirst(s, h), offset, Min(request, EOS_CAP))
    {
      StandardIs(s, h, offset, request);
      assert offset % WRAP == offset;
    }
  }

  /** Within the announced size the operation answers with the slice and its length. */
  lemma PartServes(ask: nat -> Reply, found: Option<Object>, step: nat)
    requires forall offset: nat :: offset < WRAP ==> ask(offset) == Part(found, offset, step)
    requires found.Some? && found.value.opens && |found.value.content| <= found.value.size && step <= STANDARD_CAP
    ensures Serves(ask, found.value.content, step, WRAP)
  {
    var o := found.value;
    forall offset: nat | offset < WRAP
      ensures var r := ask(offset);
              && r.rc == RC_OK && r.data == Some(Slice(o.content, offset, step))
              && Returned(r) == |Slice(o.content, offset, step)|
    {
      assert Got(o, offset, step) == Slice(o.content, offset, step);
    }
  }

  /**
   In every reachable store, for every handle that can be opened and any positive request:
   looping over the standard operation rebuilds the object byte for byte exactly if it is
   shorter than 4 GiB; of a longer one every answer brings bytes until the offset overflows.
   */
  lemma StandardLoopRebuilds(s: Store, h: u32, request: u32)
    requires Inv(s) && request > 0 && FilesFirst(s, h).Some? && FilesFirst(s, h).value.opens
    ensures Rebuilt(Loop(AskStandard(s, h, request), WRAP, 0), FilesFirst(s, h).value.content, 0,
                    Min(request, STANDARD_CAP), WRAP)
  {
    hide Inv, FilesFirst, MemoryFirst, AskStandard, Serves, Loop, Rebuilt;
    LookupsAgree(s, h);
    FoundFits(s, h);
    AskedStandard(s, h, request);
    PartServes(AskStandard(s, h, request), FilesFirst(s, h), Min(request, STANDARD_CAP));
    LoopRebuilds(AskStandard(s, h, request), FilesFirst(s, h).value.content, Min(request, STANDARD_CAP), WRAP, 0);
  }

  lemma EosLoopRebuilds(s: Store, h: u32, request: u32)
    requires Inv(s) && request > 0 && MemoryFirst(s, h).Some? && MemoryFirst(s, h).value.opens
    ensures Rebuilt(Loop(AskEos(s, h, request), WRAP, 0), MemoryFirst(s, h).value.content, 0, Min(request, EOS_CAP), WRAP)
  {
    hide Inv, MemoryFirst, AskEos, Serves, Loop, Rebuilt;
    FoundFits(s, h);
    AskedEos(s, h, request);
    PartServes(AskEos(s, h, request), MemoryFirst(s, h), Min(request, EOS_CAP));
    LoopRebuilds(AskEos(s, h, request), MemoryFirst(s, h).value.content, Min(request, EOS_CAP), WRAP, 0);
  }

  /** With 64-bit offsets there is no such bound below 2^64; a directory is refused. */
  lemma NikonLoopRebuilds(s: Store, h: u32, request: u64)
    requires request > 0 && MemoryFirst(s, h).Some?
    requires var o := MemoryFirst(s, h).value; o.opens && o.size == |o.content|
    ensures Rebuilt(Loop(AskNikon(s, h, request), WRAP * WRAP, 0), MemoryFirst(s, h).value.content, 0,
                    Min(request, NIKON_CAP), WRAP * WRAP)
  {
    hide Loop, Rebuilt, Find, MemoryFirst, Wide;
    var ask, o := AskNikon(s, h, request), MemoryFirst(s, h).value;
    forall offset: nat | offset < WRAP * WRAP
      ensures var r := ask(offset);
              && r.rc == RC_OK && r.data == Some(Slice(o.content, offset, Min(request, NIKON_CAP)))
              && Returned(r) == |Slice(o.content, offset, Min(request, NIKON_CAP))|
    {
      HalvesJoin(offset);
      HalvesJoin(request);
      OneHalf(|Slice(o.content, offset, Min(request, NIKON_CAP))|);
    }
    LoopRebuilds(ask, o.content, Min(request, NIKON_CAP), WRAP * WRAP, 0);
  }

  lemma HalvesJoin(v: nat)
    requires v < WRAP * WRAP
    ensures v / WRAP < WRAP && v / WRAP % WRAP == v / WRAP && Wide(v % WRAP, v / WRAP) == v
  {
  }

  lemma OneWord(n: nat)
    ensures n < WRAP ==> n % WRAP == n && n / WRAP == 0
  {
  }

  lemma OneHalf(n: u32)
    ensures Wide(n, 0) == n
  {
  }

  // ---- In terms of the store alone -------------------------------------------------------

  /** OK, with the bytes from `offset` on, at most `n` of them. */
  ghost predicate Copies(r: Reply, content: seq<byte>, offset: nat, n: nat)
  {
    var from := if offset < |content| then offset else |content|;
    var to := if n < |content| - from then from + n else |content|;
    r.data == Some(content[from..to]) && r.rc == 0x2001
  }

  /** And with their count, in one word or in Nikon's two. */
  ghost predicate Brings(r: Reply, content: seq<byte>, offset: nat, n: nat)
  {
    Copies(r, content, offset, n) && |r.params| == 1 && r.params[0] == |r.data.value|
  }

  ghost predicate BringsWide(r: Reply, content: seq<byte>, offset: nat, n: nat)
  {
    Copies(r, content, offset, n) && |r.params| == 2 && r.params[0] == |r.data.value| && r.params[1] == 0
  }

  /** Nothing but a code. */
  ghost predicate Fails(r: Reply, rc: u16)
  {
    r.data == None && r.rc == rc && r.params == []
  }

  /** No object, listed or in memory, has the handle. */
  ghost predicate Nobody(s: Store, h: u32)
  {
    (forall i :: 0 <= i < |s.list| ==> s.list[i].id != h) && (s.sdram.Some? ==> s.sdram.value.handle != h)
  }

  /** What an answer to the standard or the EOS operation brings, by what its handle names. */
  ghost predicate PartOf(r: Reply, s: Store, h: u32, offset: u32, n: u32)
  {
    && (forall i :: 0 <= i < |s.list| && s.list[i].id == h ==>
          if s.list[i].virtual then Fails(r, 0x2002) else Brings(r, s.list[i].content, offset, n))
    && (s.sdram.Some? && s.sdram.value.handle == h ==> Brings(r, s.sdram.value.data, offset, n))
    && (Nobody(s, h) ==> Fails(r, 0x2009))
  }

  lemma FoundListed(s: Store, i: nat)
    requires Inv(s) && i < |s.list|
    ensures var d := s.list[i];
            && FilesFirst(s, d.id) == MemoryFirst(s, d.id) == Some(Object(!d.virtual, d.size, d.content))
            && (if d.isDir then d.content == [] else d.size == |d.content| && !d.virtual)
  {
    assert Rooted(s.list);
    FindIs(s.list, i);
    assert FileSized(s.list[i]);
    hide Rooted, Find, HasParent, NameOk, LastDcim;
  }

  lemma FoundInMemory(s: Store)
    requires Inv(s) && s.sdram.Some?
    ensures var m := s.sdram.value;
            FilesFirst(s, m.handle) == MemoryFirst(s, m.handle) == Some(Object(true, |m.data|, m.data))
  {
    hide Rooted, Bounded, LastDcim;
  }

  lemma FoundNowhere(s: Store, h: u32)
    requires Nobody(s, h)
    ensures FilesFirst(s, h) == MemoryFirst(s, h) == None
  {
  }

  lemma PartBrings(o: Object, offset: nat, n: u32)
    requires o.content == [] || o.size == |o.content|
    ensures if o.opens then Brings(Part(Some(o), offset, n), o.content, offset, n) else Fails(Part(Some(o), offset, n), 0x2002)
    ensures Fails(Part(None, offset, n), 0x2009)
  {
  }

  lemma PartIs(s: Store, h: u32, offset: u32, n: u32)
    requires Inv(s)
    ensures PartOf(Part(FilesFirst(s, h), offset, n), s, h, offset, n)
    ensures PartOf(Part(MemoryFirst(s, h), offset, n), s, h, offset, n)
  {
    hide *;
    PartBrings(Object(true, 0, []), offset, n);
    forall i | 0 <= i < |s.list| && s.list[i].id == h
      ensures FilesFirst(s, h) == MemoryFirst(s, h)
      ensures var r := Part(FilesFirst(s, h), offset, n);
              if s.list[i].virtual then Fails(r, 0x2002) else Brings(r, s.list[i].content, offset, n)
    {
      var d := s.list[i];
      FoundListed(s, i);
      PartBrings(Object(!d.virtual, d.size, d.content), offset, n);
    }
    if s.sdram.Some? && s.sdram.value.handle == h {
      FoundInMemory(s);
      PartBrings(Object(true, |s.sdram.value.data|, s.sdram.value.data), offset, n);
    }
    if Nobody(s, h) {
      FoundNowhere(s, h);
    }
    PartOfEach(Part(FilesFirst(s, h), offset, n), s, h, offset, n);
    LookupsAgree(s, h);
  }

  lemma PartOfEach(r: Reply, s: Store, h: u32, offset: u32, n: u32)
    requires forall i :: 0 <= i < |s.list| && s.list[i].id == h ==>
               if s.list[i].virtual then Fails(r, 0x2002) else Brings(r, s.list[i].content, offset, n)
    requires s.sdram.Some? && s.sdram.value.handle == h ==> Brings(r, s.sdram.value.data, offset, n)
    requires Nobody(s, h) ==> Fails(r, 0x2009)
    ensures PartOf(r, s, h, offset, n)
  {
    hide Fails, Brings, Nobody;
  }

  /**
   In every reachable store, for every handle, offset and size: the bytes of the file or of
   the picture in memory from the offset on, up to 16 MiB or 512 KiB of them, with their
   count. A capture folder cannot be opened, and an unknown handle is refused.
   */
  lemma PartialAnswers(s: Store, params: seq<u32>)
    requires Inv(s)
    ensures |params| != 3 ==> Fails(StandardReply(s, params), 0x2002) && Fails(EosReply(s, params), 0x2002)
    ensures |params| == 3 ==>
              && PartOf(StandardReply(s, params), s, params[0], params[1], if params[2] < 0x100_0000 then params[2] else 0x100_0000)
              && PartOf(EosReply(s, params), s, params[0], params[1], if params[2] < 0x8_0000 then params[2] else 0x8_0000)
  {
    if |params| == 3 {
      PartIs(s, params[0], params[1], Min(params[2], 0x100_0000));
      PartIs(s, params[0], params[1], Min(params[2], 0x8_0000));
    }
    hide Inv, PartOf, Part, FilesFirst, MemoryFirst;
  }

  /** Nikon's answer, by what the handle names; a directory below its announced size is not read. */
  ghost predicate WidePartOf(r: Reply, s: Store, h: u32, offset: nat, n: nat)
  {
    && (forall i :: 0 <= i < |s.list| && s.list[i].id == h ==>
          if s.list[i].isDir && offset < s.list[i].size && (n > 0 || s.list[i].virtual) then Fails(r, 0x2002)
          else BringsWide(r, s.list[i].content, offset, n))
    && (s.sdram.Some? && s.sdram.value.handle == h ==> BringsWide(r, s.sdram.value.data, offset, n))
    && (Nobody(s, h) ==> Fails(r, 0x2009))
  }

  lemma WidePartBrings(o: Object, offset: nat, n: nat)
    requires n <= NIKON_CAP
    ensures o.opens && o.size == |o.content| ==> BringsWide(WidePart(o, offset, n), o.content, offset, n)
    ensures o.content == [] ==>
              if offset < o.size && (n > 0 || !o.opens) then Fails(WidePart(o, offset, n), 0x2002)
              else BringsWide(WidePart(o, offset, n), [], offset, n)
  {
    assert o.content[|o.content|..|o.content|] == [];
  }

  lemma WideAnswers(s: Store, params: seq<u32>)
    requires Inv(s)
    ensures |params| != 5 ==> Fails(NikonReply(s, params), 0x2002)
    ensures |params| == 5 ==>
              var n := params[3] + 0x1_0000_0000 * params[4] as int;
              WidePartOf(NikonReply(s, params), s, params[0], params[1] + 0x1_0000_0000 * params[2] as int,
                         if n < 0xA0_0000 then n else 0xA0_0000)
  {
    hide *;
    NikonIs(s, params);
    if |params| == 5 {
      var h, r := params[0], NikonReply(s, params);
      var offset, m := params[1] + 0x1_0000_0000 * params[2] as int, params[3] + 0x1_0000_0000 * params[4] as int;
      var n: nat := if m < 0xA0_0000 then m else 0xA0_0000;
      forall i | 0 <= i < |s.list| && s.list[i].id == h
        ensures if s.list[i].isDir && offset < s.list[i].size && (n > 0 || s.list[i].virtual) then Fails(r, 0x2002)
                else BringsWide(r, s.list[i].content, offset, n)
      {
        var d := s.list[i];
        FoundListed(s, i);
        WidePartBrings(Object(!d.virtual, d.size, d.content), offset, n);
      }
      if s.sdram.Some? && s.sdram.value.handle == h {
        FoundInMemory(s);
        WidePartBrings(Object(true, |s.sdram.value.data|, s.sdram.value.data), offset, n);
      }
      if Nobody(s, h) {
        FoundNowhere(s, h);
      }
      WidePartOfEach(r, s, h, offset, n);
    }
  }

  lemma NikonIs(s: Store, params: seq<u32>)
    ensures NIKON_CAP == 0xA0_0000
    ensures |params| != 5 ==> Fails(NikonReply(s, params), 0x2002)
    ensures |params| == 5 ==>
              var offset, m := params[1] + 0x1_0000_0000 * params[2] as int, params[3] + 0x1_0000_0000 * params[4] as int;
              var n := if m < 0xA0_0000 then m else 0xA0_0000;
              var found := MemoryFirst(s, params[0]);
              && (found.Some? ==> NikonReply(s, params) == WidePart(found.value, offset, n))
              && (found.None? ==> Fails(NikonReply(s, params), 0x2009))
  {
    hide MemoryFirst, WidePart;
  }

  lemma WidePartOfEach(r: Reply, s: Store, h: u32, offset: nat, n: nat)
    requires forall i :: 0 <= i < |s.list| && s.list[i].id == h ==>
               if s.list[i].isDir && offset < s.list[i].size && (n > 0 || s.list[i].virtual) then Fails(r, 0x2002)
               else BringsWide(r, s.list[i].content, offset, n)
    requires s.sdram.Some? && s.sdram.value.handle == h ==> BringsWide(r, s.sdram.value.data, offset, n)
    requires Nobody(s, h) ==> Fails(r, 0x2009)
    ensures WidePartOf(r, s, h, offset, n)
  {
    hide Fails, BringsWide, Nobody;
  }

  /** What a looping client has in the end: all of it, or as much as its offsets reach. */
  ghost predicate HasAll(f: Fetched, content: seq<byte>, limit: nat)
  {
    (f.ended <==> |content| < limit) && (f.ended ==> f.bytes == content) && f.bytes <= content
  }

  /**
   In every reachable store, whatever is asked for at a time: the standard loop and the EOS
   loop give the client every listed file shorter than 4 GiB byte for byte, and the
   picture in memory.
   */
  lemma ClientHasTheFile(s: Store, i: nat, request: u32)
    requires Inv(s) && request > 0 && i < |s.list| && !s.list[i].virtual
    ensures HasAll(Loop(AskStandard(s, s.list[i].id, request), 0x1_0000_0000, 0), s.list[i].content, 0x1_0000_0000)
    ensures HasAll(Loop(AskEos(s, s.list[i].id, request), 0x1_0000_0000, 0), s.list[i].content, 0x1_0000_0000)
  {
    hide *;
    FoundListed(s, i);
    BothRebuild(s, s.list[i].id, Object(true, s.list[i].size, s.list[i].content), request);
  }

  lemma ClientHasThePicture(s: Store, request: u32)
    requires Inv(s) && request > 0 && s.sdram.Some?
    ensures var m := s.sdram.value;
            && HasAll(Loop(AskStandard(s, m.handle, request), 0x1_0000_0000, 0), m.data, 0x1_0000_0000)
            && HasAll(Loop(AskEos(s, m.handle, request), 0x1_0000_0000, 0), m.data, 0x1_0000_0000)
  {
    hide *;
    FoundInMemory(s);
    BothRebuild(s, s.sdram.value.handle, Object(true, |s.sdram.value.data|, s.sdram.value.data), request);
  }

  lemma BothRebuild(s: Store, h: u32, o: Object, request: u32)
    requires Inv(s) && request > 0 && o.opens && FilesFirst(s, h) == MemoryFirst(s, h) == Some(o)
    ensures HasAll(Loop(AskStandard(s, h, request), 0x1_0000_0000, 0), o.content, 0x1_0000_0000)
    ensures HasAll(Loop(AskEos(s, h, request), 0x1_0000_0000, 0), o.content, 0x1_0000_0000)
  {
    hide Inv, FilesFirst, MemoryFirst, Loop, AskStandard, AskEos, Rebuilt, HasAll;
    StandardLoopRebuilds(s, h, request);
    EosLoopRebuilds(s, h, request);
    RebuiltHasAll(Loop(AskStandard(s, h, request), WRAP, 0), o.content, Min(request, STANDARD_CAP), WRAP);
    RebuiltHasAll(Loop(AskEos(s, h, request), WRAP, 0), o.content, Min(request, EOS_CAP), WRAP);
  }

  lemma RebuiltHasAll(f: Fetched, content: seq<byte>, step: nat, limit: nat)
    requires Rebuilt(f, content, 0, step, limit)
    ensures HasAll(f, content, limit)
  {
    assert content[0..] == content;
  }

  /** Nikon's loop goes on below 2^64, for files and for the picture in memory. */
  lemma NikonClientHasTheFile(s: Store, h: u32, content: seq<byte>, request: u64)
    requires Inv(s) && request > 0
    requires (s.sdram.Some? && s.sdram.value == Sdram(h, content))
             || exists i :: 0 <= i < |s.list| && s.list[i].id == h && !s.list[i].isDir && s.list[i].content == content
    ensures HasAll(Loop(AskNikon(s, h, request), 0x1_0000_0000_0000_0000, 0), content, 0x1_0000_0000_0000_0000)
  {
    hide *;
    if s.sdram.Some? && s.sdram.value == Sdram(h, content) {
      FoundInMemory(s);
    } else {
      var i :| 0 <= i < |s.list| && s.list[i].id == h && !s.list[i].isDir && s.list[i].content == content;
      FoundListed(s, i);
    }
    NikonRebuilds(s, h, Object(true, |content|, content), request);
  }

  lemma NikonRebuilds(s: Store, h: u32, o: Object, request: u64)
    requires request > 0 && o.opens && o.size == |o.content| && MemoryFirst(s, h) == Some(o)
    ensures HasAll(Loop(AskNikon(s, h, request), 0x1_0000_0000_0000_0000, 0), o.content, 0x1_0000_0000_0000_0000)
  {
    hide MemoryFirst, Loop, AskNikon, Rebuilt, HasAll;
    NikonLoopRebuilds(s, h, request);
    RebuiltHasAll(Loop(AskNikon(s, h, request), WRAP * WRAP, 0), o.content, Min(request, NIKON_CAP), WRAP * WRAP);
  }

  // ---- Fuji's completion test ----------------------------------------------------------

  /** Computed from the request as it came, before the standard operation caps it. */
  method Completed(content: seq<byte>, offset: u32, requested: u32) returns (completed: bool)
    ensures completed <==> offset >= |content| || requested >= |content| - offset
  {
    var returned := 0;
    if offset < |content| {
      var remaining := |content| - offset;
      returned := if requested < remaining then requested else remaining;
    }
    completed := offset >= |content| || offset + returned >= |content|;
  }

  predicate ReachesEnd(content: seq<byte>, offset: nat, requested: nat)
  {
    offset + |Slice(content, offset, Min(requested, STANDARD_CAP))| >= |content|
  }

  /**
   The test is true on every call that reaches the end of the object, and on no other
   unless the whole rest was asked for and is more than the cap lets through.
   */
  lemma CompletionIsExact(content: seq<byte>, offset: u32, requested: u32)
    ensures var completed := offset >= |content| || requested >= |content| - offset;
            && (ReachesEnd(content, offset, requested) ==> completed)
            && (completed && !ReachesEnd(content, offset, requested) <==>
                  offset < |content| && |content| - offset > STANDARD_CAP && requested >= |content| - offset)
            && (requested <= STANDARD_CAP ==> (completed <==> ReachesEnd(content, offset, requested)))
  {
  }
}
