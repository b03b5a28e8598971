/**
 The camera's object list in operation: the card scan, captures, deletes and listings as
 the handlers run them (`src/vcamera.c`, `src/ops.c`, `src/canon/canon.c`,
 `src/canon/objects.c`, `src/nikon/ops.c`).
 */
module Catalog {
  import opened Bytes
  import opened Replies
  import opened ObjectStore
  import opened Listings

  const CAPTURE_NAME: string := "GPH_0099.JPG"
  const TO_SDRAM: u32 := 4

  // ---- What the handlers answer and leave behind -----------------------------------------

  function InitiateCaptureReply(s: Store, params: seq<u32>): Reply
  {
    if |params| != 2 then Just(RC_GENERAL_ERROR)
    else if params[0] != 0 && params[0] != MAIN_STORAGE_ID then Just(RC_STORE_NOT_AVAILABLE)
    else if params[1] != 0 && params[1] != 0x3801 then Just(RC_INVALID_OBJECT_FORMAT_CODE)
    else if FirstJpg(s.list) == |s.list| then Just(RC_STORE_NOT_AVAILABLE)
    else Just(RC_OK)
  }

  function AfterInitiateCapture(s: Store, params: seq<u32>): Store
  {
    if InitiateCaptureReply(s, params).rc == RC_OK then Capture(s, GPHOT, CAPTURE_NAME) else s
  }

  function DeleteReply(s: Store, params: seq<u32>): Reply
  {
    if |params| < 1 then Just(RC_INVALID_PARAMETER)
    else if params[0] == 0xffff_ffff then Just(RC_OK)
    else if |params| == 2 && params[1] != 0 then Just(RC_INVALID_PARAMETER)
    else
      var i := Find(s.list, params[0]);
      if i == |s.list| then Just(RC_INVALID_OBJECT_HANDLE)
      else if s.list[i].isDir then Just(RC_OBJECT_WRITE_PROTECTED)
      else Just(RC_OK)
  }

  function AfterDelete(s: Store, params: seq<u32>): Store
  {
    if DeleteReply(s, params).rc != RC_OK then s
    else if params[0] == 0xffff_ffff then DeleteAll(s)
    else Delete(s, params[0])
  }

  /** Canon's full press: to memory or to the card, as CaptureDestination says. */
  function AfterTrigger(s: Store, destination: u32): Store
  {
    if destination == TO_SDRAM then CaptureSdram(s) else Capture(s, GPHOT, CAPTURE_NAME)
  }

  /** A delete that answers OK removes exactly the named object; any other changes nothing. */
  lemma DeleteIsExact(s: Store, params: seq<u32>, h: u32)
    requires Inv(s) && |params| >= 1 && params[0] != 0xffff_ffff
    ensures var rc, s' := DeleteReply(s, params).rc, AfterDelete(s, params);
            && s'.objectid == s.objectid && s'.sdram == s.sdram
            && (rc != RC_OK ==> s' == s)
            && (rc == RC_OK ==>
                  (HasHandle(s'.list, h) <==> HasHandle(s.list, h) && h != params[0]) && |s'.list| == |s.list| - 1)
  {
    assert s.list != [] ==> Distinct(s.list);
    hide Inv, HasHandle, Distinct;
    if DeleteReply(s, params).rc == RC_OK {
      RemovedHandle(s.list, Find(s.list, params[0]), h);
    }
  }

  lemma RemovedHandle(l: seq<Dirent>, i: nat, h: u32)
    requires Distinct(l) && i < |l|
    ensures HasHandle(l[..i] + l[i + 1..], h) <==> HasHandle(l, h) && h != l[i].id
  {
    var m := l[..i] + l[i + 1..];
    if HasHandle(m, h) {
      var k :| 0 <= k < |m| && m[k].id == h;
      assert l[if k < i then k else k + 1].id == h;
    }
    if HasHandle(l, h) && h != l[i].id {
      var k :| 0 <= k < |l| && l[k].id == h;
      assert m[if k < i then k else k - 1].id == h;
    }
  }

  /** The new object in front of `l'`, and the folder it is in. */
  ghost predicate Captured(l: seq<Dirent>, l': seq<Dirent>, f: nat)
    requires 0 <= LastDcim(l)
  {
    && 1 <= f < |l'| && l'[0].parent == Some(l'[f].id)
    && l'[f].isDir && l'[f].name == GPHOT
    && l'[f].parent == Some(l[LastDcim(l)].id)
  }

  /**
   A capture that answers OK leaves one new object in front whose bytes are the first
   JPEG's, below a folder of DCIM, and keeps every object there was.
   */
  lemma CaptureIsExact(s: Store, params: seq<u32>)
    requires Inv(s) && s.objectid + 2 < WRAP && InitiateCaptureReply(s, params).rc == RC_OK
    ensures var s' := AfterInitiateCapture(s, params);
            var n := |s'.list| - |s.list|;
            && 1 <= n <= 2 && s'.list[n..] == s.list && s'.objectid == s.objectid + n
            && s'.list[0].id == s'.objectid && s'.list[0].content == s.list[FirstJpg(s.list)].content
            && LastDcim(s.list) >= 0 && exists f: nat :: Captured(s.list, s'.list, f)
  {
    DirsAreDirs(s, GPHOT);
    assert s.list != [] && LastDcim(s.list) >= 0;
    hide Inv, FirstJpg, LastDcim, FindFolder;
    if FindFolder(s.list, GPHOT, s.list[LastDcim(s.list)].id) < |s.list| {
      CaptureBeside(s);
    } else {
      CaptureBelow(s);
    }
  }

  lemma CaptureBeside(s: Store)
    requires FirstJpg(s.list) < |s.list| && LastDcim(s.list) >= 0 && s.objectid + 2 < WRAP
    requires var f := FindFolder(s.list, GPHOT, s.list[LastDcim(s.list)].id); f < |s.list| && s.list[f].isDir
    ensures var s' := Capture(s, GPHOT, CAPTURE_NAME);
            && s'.list != [] && s'.list[1..] == s.list && s'.objectid == s.objectid + 1 && s'.list[0].id == s'.objectid
            && s'.list[0].content == s.list[FirstJpg(s.list)].content
            && Captured(s.list, s'.list, FindFolder(s.list, GPHOT, s.list[LastDcim(s.list)].id) + 1)
  {
    hide FirstJpg, LastDcim;
  }

  lemma CaptureBelow(s: Store)
    requires FirstJpg(s.list) < |s.list| && LastDcim(s.list) >= 0 && s.objectid + 2 < WRAP
    requires s.list[LastDcim(s.list)].isDir && FindFolder(s.list, GPHOT, s.list[LastDcim(s.list)].id) == |s.list|
    ensures var s' := Capture(s, GPHOT, CAPTURE_NAME);
            && |s'.list| >= 2 && s'.list[2..] == s.list && s'.objectid == s.objectid + 2 && s'.list[0].id == s'.objectid
            && s'.list[0].content == s.list[FirstJpg(s.list)].content
            && Captured(s.list, s'.list, 1)
  {
    hide FirstJpg, LastDcim, FindFolder;
  }

  class Camera {
    var list: seq<Dirent>
    var objectid: u32
    var sdram: Option<Sdram>

    function State(): Store
      reads this
    {
      Store(list, objectid, sdram)
    }

    constructor (size: nat, mtime: u32, nodes: seq<Node>)
      ensures State() == ReadTree(size, mtime, nodes)
    {
      list, objectid, sdram := [Root(size, mtime)], 1, None;
      new;
      ReadDirectories(nodes, 0);
      var dcim := FindDcim();
      if dcim < 0 {
        list := [Dirent(objectid, DCIM, true, size, [], mtime, Some(0), false)] + list;
        objectid := Next(objectid);
      }
    }

    method ReadDirectories(nodes: seq<Node>, parent: u32)
      modifies this
      ensures (list, objectid) == Scan(nodes, parent, old(list), old(objectid)) && sdram == old(sdram)
      decreases nodes
    {
      var i := 0;
      while i < |nodes|
        invariant i <= |nodes| && sdram == old(sdram)
        invariant Scan(nodes, parent, old(list), old(objectid)) == Scan(nodes[i..], parent, list, objectid)
      {
        ghost var l, n := list, objectid;
        var id := objectid;
        list := [Entry(nodes[i], id, parent)] + list;
        objectid := Next(objectid);
        if nodes[i].Folder? {
          ReadDirectories(nodes[i].children, id);
        }
        ScanUnfolds(nodes[i..], parent, l, n, list, objectid);
        assert nodes[i..][1..] == nodes[i + 1..];
        i := i + 1;
      }
    }

    method FindDcim() returns (c: int)
      ensures c == LastDcim(list)
    {
      c := -1;
      var i := 0;
      while i < |list|
        invariant 0 <= i <= |list| && c == LastDcim(list[..i])
      {
        assert list[..i + 1][..i] == list[..i];
        if list[i].name == DCIM && list[i].parent == Some(0) {
          c := i;
        }
        i := i + 1;
      }
      assert list[..i] == list;
    }

    method FindJpg() returns (j: nat)
      ensures j == FirstJpg(list)
    {
      j := 0;
      while j < |list| && !(Contains(list[j].name, ".jpg") || Contains(list[j].name, ".JPG"))
        invariant j <= |list| && FirstJpg(list) == j + FirstJpg(list[j..])
      {
        assert list[j..][1..] == list[j + 1..];
        j := j + 1;
      }
    }

    /** Finds or creates the capture folder and puts a copy of entry `j` in it. */
    method CaptureInto(j: nat, c: nat, folder: string, file: string)
      requires j == FirstJpg(list) < |list| && c == LastDcim(list)
      modifies this
      ensures State() == Capture(old(State()), folder, file)
    {
      hide FindFolder, FirstJpg, LastDcim;
      var src, dcim := list[j], list[c];
      var f := 0;
      while f < |list| && !(list[f].name == folder && list[f].parent == Some(dcim.id))
        invariant f <= |list| && forall k :: 0 <= k < f ==> !(list[k].name == folder && list[k].parent == Some(dcim.id))
      {
        f := f + 1;
      }
      assert f == FindFolder(list, folder, dcim.id);
      var dir: u32;
      if f == |list| {
        objectid := Next(objectid);
        list := [Dirent(objectid, folder, dcim.isDir, dcim.size, [], dcim.mtime, Some(dcim.id), true)] + list;
        dir := objectid;
      } else {
        dir := list[f].id;
      }
      objectid := Next(objectid);
      list := [src.(id := objectid, name := file, parent := Some(dir))] + list;
    }

    method InitiateCapture(params: seq<u32>) returns (r: Reply)
      requires Inv(State())
      modifies this
      ensures r == InitiateCaptureReply(old(State()), params)
      ensures State() == AfterInitiateCapture(old(State()), params)
    {
      if |params| != 2 {
        return Just(RC_GENERAL_ERROR);
      }
      if params[0] != 0 && params[0] != MAIN_STORAGE_ID {
        return Just(RC_STORE_NOT_AVAILABLE);
      }
      if params[1] != 0 && params[1] != 0x3801 {
        return Just(RC_INVALID_OBJECT_FORMAT_CODE);
      }
      var j := FindJpg();
      if j == |list| {
        return Just(RC_STORE_NOT_AVAILABLE);
      }
      var c := FindDcim();
      CaptureInto(j, c, GPHOT, CAPTURE_NAME);
      return Just(RC_OK);
    }

    /** eos_capture_trigger, for what it does to the store. */
    method CaptureTrigger(destination: u32)
      requires Inv(State())
      modifies this
      ensures State() == AfterTrigger(old(State()), destination)
    {
      var j := FindJpg();
      if j == |list| {
        return;
      }
      if destination == TO_SDRAM {
        if list[j].content == [] {
          return;
        }
        objectid := Next(objectid);
        sdram := Some(Sdram(objectid, Kept(list[j].content)));
      } else {
        var c := FindDcim();
        if c < 0 {
          return;
        }
        CaptureInto(j, c, GPHOT, CAPTURE_NAME);
      }
    }

    /** nikon_capture_card, under the file name the capture counter gives. */
    method NikonCaptureCard(file: string) returns (r: Reply)
      modifies this
      ensures State() == Capture(old(State()), NIKON, file)
      ensures r == Just(if State() == old(State()) then RC_STORE_NOT_AVAILABLE else RC_OK)
    {
      hide FirstJpg, LastDcim, FindFolder;
      var j := FindJpg();
      if j == |list| {
        return Just(RC_STORE_NOT_AVAILABLE);
      }
      var c := FindDcim();
      if c < 0 {
        return Just(RC_STORE_NOT_AVAILABLE);
      }
      ghost var was := State();
      CaptureInto(j, c, NIKON, file);
      CaptureLengthens(was, NIKON, file);
      return Just(RC_OK);
    }

    /** eos_transfercomplete: the picture in memory is dropped once it was downloaded. */
    method TransferCompleted(h: u32)
      modifies this
      ensures State() == TransferComplete(old(State()), h)
    {
      if sdram.Some? && sdram.value.handle == h {
        sdram := None;
      }
    }

    method DeleteObject(params: seq<u32>) returns (r: Reply)
      modifies this
      ensures r == DeleteReply(old(State()), params)
      ensures State() == AfterDelete(old(State()), params)
    {
      if |params| < 1 {
        return Just(RC_INVALID_PARAMETER);
      }
      if params[0] == 0xffff_ffff {
        list := [];
        return Just(RC_OK);
      }
      if |params| == 2 && params[1] != 0 {
        return Just(RC_INVALID_PARAMETER);
      }
      var i := FindEntry(list, params[0]);
      if i == |list| {
        return Just(RC_INVALID_OBJECT_HANDLE);
      }
      if list[i].isDir {
        return Just(RC_OBJECT_WRITE_PROTECTED);
      }
      list := list[..i] + list[i + 1..];
      return Just(RC_OK);
    }

    /** The checks the two listing operations share. */
    method CheckListing(params: seq<u32>) returns (error: Option<u16>)
      ensures error == ListingError(list, params)
    {
      if |params| < 1 {
        return Some(RC_INVALID_PARAMETER);
      }
      if params[0] != 0xffff_ffff && params[0] != MAIN_STORAGE_ID {
        return Some(RC_INVALID_STORAGE_ID);
      }
      if |params| >= 2 && params[1] != 0 {
        return Some(RC_SPEC_BY_FORMAT_UNSUPPORTED);
      }
      if |params| >= 3 && params[2] != 0 && params[2] != ROOT_ONLY {
        var i := FindEntry(list, params[2]);
        if i == |list| {
          return Some(RC_INVALID_OBJECT_HANDLE);
        }
        if !list[i].isDir {
          return Some(RC_INVALID_PARENT_OBJECT);
        }
      }
      return None;
    }

    method CountObjects(mode: u32) returns (cnt: nat)
      ensures cnt == |Handles(list, mode)|
    {
      cnt := 0;
      for i := 0 to |list|
        invariant cnt == |Handles(list[..i], mode)|
      {
        assert list[..i + 1][..i] == list[..i];
        if Selected(list[i], mode) {
          cnt := cnt + 1;
        }
      }
      assert list[..|list|] == list;
    }

    method GetNumObjects(params: seq<u32>) returns (r: Reply)
      ensures r == NumObjects(list, params)
    {
      var error := CheckListing(params);
      if error.Some? {
        return Just(error.value);
      }
      var cnt := CountObjects(Mode(params));
      return Reply(None, RC_OK, [cnt % WRAP]);
    }

    /** Counts, allocates, and fills the buffer to the last byte. */
    method GetObjectHandles(params: seq<u32>) returns (r: Reply)
      ensures r == ObjectHandles(list, params)
    {
      var error := CheckListing(params);
      if error.Some? {
        return Just(error.value);
      }
      var mode := Mode(params);
      var cnt := CountObjects(mode);
      var data := new byte[4 + 4 * cnt];
      FillHandles(data, mode, cnt % WRAP);
      return Reply(Some(data[..]), RC_OK, []);
    }

    /** eos_getobjectinfoex, behind its parameter count check. */
    method GetObjectInfoEx(storage: u32, parent: u32) returns (r: Reply)
      ensures r == EosListing(list, storage, parent)
    {
      hide EosEntries, EosSelected;
      if storage != MAIN_STORAGE_ID && storage != 0xffff_ffff {
        return Just(RC_INVALID_STORAGE_ID);
      }
      if parent != ROOT_ONLY {
        var p := FindEntry(list, parent);
        if p == |list| || !list[p].isDir {
          return Just(RC_INVALID_PARENT_OBJECT);
        }
      }
      var cnt := CountEntries(parent);
      var data := new byte[4 + 56 * cnt];
      FillEntries(data, parent, cnt % WRAP);
      return Reply(Some(data[..]), RC_OK, []);
    }

    method CountEntries(parent: u32) returns (cnt: nat)
      ensures |EosEntries(list, parent)| == 56 * cnt
    {
      hide EosEntry;
      cnt := 0;
      for i := 0 to |list|
        invariant |EosEntries(list[..i], parent)| == 56 * cnt
      {
        assert list[..i + 1][..i] == list[..i];
        if EosSelected(list[i], parent) {
          cnt := cnt + 1;
        }
      }
      assert list[..|list|] == list;
    }

    method FillEntries(data: array<byte>, parent: u32, cnt: u32)
      requires data.Length == 4 + |EosEntries(list, parent)|
      modifies data
      ensures data[..] == Le32(cnt) + EosEntries(list, parent)
    {
      hide EosEntries, EosEntry, Le32;
      NoEntries(list, parent);
      var x := Put32(data, 0, cnt);
      for i := 0 to |list|
        invariant x == 4 + |EosEntries(list[..i], parent)| && x <= data.Length
        invariant data[..x] == Le32(cnt) + EosEntries(list[..i], parent)
      {
        MoreEntries(list, i, parent);
        if EosSelected(list[i], parent) {
          x := PutEntry(data, x, list[i]);
        }
      }
      assert list[..|list|] == list;
      assert data[..x] == data[..];
    }

    static method PutEntry(data: array<byte>, at: nat, d: Dirent) returns (x: nat)
      requires at + 56 <= data.Length
      modifies data
      ensures x == at + 56 && data[..x] == old(data[..at]) + EosEntry(d)
    {
      hide EntryHead, EntryTail;
      x := PutEntryHead(data, at, d);
      x := PutEntryTail(data, x, d);
    }

    static method PutEntryHead(data: array<byte>, at: nat, d: Dirent) returns (x: nat)
      requires at + 24 <= data.Length
      modifies data
      ensures x == at + 24 && data[..x] == old(data[..at]) + EntryHead(d)
    {
      hide Le32, Le16, EosFormat;
      x := Put32(data, at, ENTRY_SIZE);
      x := Put32(data, x, d.id);
      x := Put32(data, x, MAIN_STORAGE_ID);
      x := Put16(data, x, EosFormat(d));
      x := Put16(data, x, 0);
      x := Put32(data, x, 0);
      x := Put32(data, x, 0);
    }

    static method PutEntryTail(data: array<byte>, at: nat, d: Dirent) returns (x: nat)
      requires at + 32 <= data.Length
      modifies data
      ensures x == at + 32 && data[..x] == old(data[..at]) + EntryTail(d)
    {
      hide Le32, NameField;
      x := Put32(data, at, d.size % WRAP);
      x := Put32(data, x, 0);
      x := Put32(data, x, 0);
      WrittenAtEnd(data[..], x, NameField(d.name));
      ghost var was := data[..x];
      var n := PutBytes(data, x, NameField(d.name));
      x := x + n;
      assert data[..x] == was + NameField(d.name);
      x := Put32(data, x, d.mtime);
    }

    method FillHandles(data: array<byte>, mode: u32, cnt: u32)
      requires data.Length == 4 + 4 * |Handles(list, mode)|
      modifies data
      ensures data[..] == Le32(cnt) + Words(Handles(list, mode))
    {
      hide Handles, Words, Written, Le32;
      ghost var head := Le32(cnt);
      WrittenAtEnd(data[..], 0, head);
      var x := PutU32(data, 0, cnt);
      NoHandles(list, mode);
      for i := 0 to |list|
        invariant x == 4 + 4 * |Handles(list[..i], mode)| && x <= data.Length
        invariant data[..x] == head + Words(Handles(list[..i], mode))
      {
        MoreHandles(list, i, mode);
        if Selected(list[i], mode) {
          WrittenAtEnd(data[..], x, Le32(list[i].id));
          var n := PutU32(data, x, list[i].id);
          x := x + n;
        }
      }
      assert list[..|list|] == list;
      assert data[..x] == data[..];
    }
  }

  lemma CaptureLengthens(s: Store, folder: string, file: string)
    requires FirstJpg(s.list) < |s.list| && LastDcim(s.list) >= 0
    ensures |Capture(s, folder, file).list| > |s.list|
  {
    hide FirstJpg, LastDcim, FindFolder;
  }

  lemma NoEntries(l: seq<Dirent>, parent: u32)
    ensures EosEntries(l[..0], parent) == []
  {
  }

  lemma MoreEntries(l: seq<Dirent>, i: nat, parent: u32)
    requires i < |l|
    ensures EosEntries(l[..i + 1], parent) ==
            EosEntries(l[..i], parent) + if EosSelected(l[i], parent) then EosEntry(l[i]) else []
    ensures |EosEntries(l[..i + 1], parent)| <= |EosEntries(l, parent)|
  {
    assert l[..i + 1][..i] == l[..i];
    EntriesGrow(l, i + 1, parent);
  }

  lemma {:induction false} EntriesGrow(l: seq<Dirent>, i: nat, parent: u32)
    requires i <= |l|
    ensures |EosEntries(l[..i], parent)| <= |EosEntries(l, parent)|
    decreases |l|
  {
    hide EosEntry;
    if i == |l| {
      assert l[..i] == l;
    } else {
      EntriesGrow(l[..|l| - 1], i, parent);
      assert l[..|l| - 1][..i] == l[..i];
    }
  }

  lemma NoHandles(l: seq<Dirent>, mode: u32)
    ensures Handles(l[..0], mode) == [] && Words(Handles(l[..0], mode)) == []
  {
  }

  lemma MoreHandles(l: seq<Dirent>, i: nat, mode: u32)
    requires i < |l|
    ensures Selected(l[i], mode) ==>
              && Handles(l[..i + 1], mode) == Handles(l[..i], mode) + [l[i].id]
              && Words(Handles(l[..i + 1], mode)) == Words(Handles(l[..i], mode)) + Le32(l[i].id)
              && |Handles(l[..i], mode)| + 1 <= |Handles(l, mode)|
    ensures !Selected(l[i], mode) ==> Handles(l[..i + 1], mode) == Handles(l[..i], mode)
  {
    assert l[..i + 1][..i] == l[..i];
    HandlesGrow(l, i + 1, mode);
    if Selected(l[i], mode) {
      var hs := Handles(l[..i], mode);
      assert (hs + [l[i].id])[..|hs|] == hs;
    }
  }

  lemma {:induction false} HandlesGrow(l: seq<Dirent>, i: nat, mode: u32)
    requires i <= |l|
    ensures |Handles(l[..i], mode)| <= |Handles(l, mode)|
    decreases |l|
  {
    if i == |l| {
      assert l[..i] == l;
    } else {
      HandlesGrow(l[..|l| - 1], i, mode);
      assert l[..|l| - 1][..i] == l[..i];
    }
  }
}
