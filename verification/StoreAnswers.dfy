/**
 What the object operations answer and leave behind, in terms of the entries alone: which
 picture a capture copies and where to, what a delete takes, and which handles are listed
 (`src/vcamera.c`, `src/ops.c`, `src/canon/canon.c`, `src/canon/objects.c`).
 */
module StoreAnswers {
  import opened Bytes
  import opened Replies
  import opened ObjectStore
  import opened Listings
  import opened Catalog

  // ---- Pictures and folders ----------------------------------------------------------------

  /** One of two spellings of an extension stands at `i`. */
  ghost predicate Spelled(name: string, i: nat, lower: string, upper: string)
    requires |lower| == |upper|
  {
    i + |lower| <= |name| && (name[i..i + |lower|] == lower || name[i..i + |lower|] == upper)
  }

  ghost predicate Pictured(d: Dirent)
  {
    exists i: nat :: Spelled(d.name, i, ".jpg", ".JPG")
  }

  ghost predicate Filmed(d: Dirent)
  {
    exists i: nat :: Spelled(d.name, i, ".mov", ".MOV")
  }

  ghost predicate FirstPicture(l: seq<Dirent>, j: nat)
  {
    j < |l| && Pictured(l[j]) && forall k :: 0 <= k < j ==> !Pictured(l[k])
  }

  ghost predicate NoPicture(l: seq<Dirent>)
  {
    forall k :: 0 <= k < |l| ==> !Pictured(l[k])
  }

  ghost predicate IsNamed(d: Dirent, name: string, parent: u32)
  {
    d.name == name && d.parent == Some(parent)
  }

  ghost predicate LastNamedDcim(l: seq<Dirent>, c: nat)
  {
    c < |l| && IsNamed(l[c], "DCIM", 0) && forall k :: c < k < |l| ==> !IsNamed(l[k], "DCIM", 0)
  }

  ghost predicate NoDcim(l: seq<Dirent>)
  {
    forall k :: 0 <= k < |l| ==> !IsNamed(l[k], "DCIM", 0)
  }

  lemma SpelledIs(name: string, lower: string, upper: string)
    requires |lower| == |upper|
    ensures Contains(name, lower) || Contains(name, upper) <==> exists i: nat :: Spelled(name, i, lower, upper)
  {
    if Contains(name, lower) {
      var i :| 0 <= i <= |name| && StandsAt(name, lower, i);
      assert Spelled(name, i, lower, upper);
    } else if Contains(name, upper) {
      var i :| 0 <= i <= |name| && StandsAt(name, upper, i);
      assert Spelled(name, i, lower, upper);
    }
    if i: nat :| Spelled(name, i, lower, upper) {
      assert StandsAt(name, lower, i) || StandsAt(name, upper, i);
    }
  }

  lemma PicturedIs(d: Dirent)
    ensures IsJpg(d) <==> Pictured(d)
  {
    SpelledIs(d.name, ".jpg", ".JPG");
    hide Contains, Spelled;
  }

  lemma FirstPictureIs(l: seq<Dirent>)
    ensures if FirstJpg(l) == |l| then NoPicture(l) else FirstPicture(l, FirstJpg(l))
    ensures forall j: nat :: FirstPicture(l, j) ==> FirstJpg(l) == j
  {
    hide IsJpg, Pictured, FirstJpg;
    forall k | 0 <= k < |l|
      ensures IsJpg(l[k]) <==> Pictured(l[k])
    {
      PicturedIs(l[k]);
    }
  }

  lemma LastDcimIs(l: seq<Dirent>)
    ensures if LastDcim(l) < 0 then NoDcim(l) else LastNamedDcim(l, LastDcim(l))
    ensures forall c: nat :: LastNamedDcim(l, c) ==> LastDcim(l) == c
  {
    hide LastDcim;
    assert forall d: Dirent :: IsRootDcim(d) <==> IsNamed(d, "DCIM", 0);
  }

  // ---- Captures ----------------------------------------------------------------------------

  /** The picture `j` once more, under a new handle and name, in front of everything. */
  ghost predicate CopiedInto(s: Store, s': Store, j: nat, handle: u32, file: string, folder: u32)
    requires j < |s.list|
  {
    && s'.list != [] && s'.sdram == s.sdram && s'.objectid == handle
    && var d := s'.list[0];
    && d.id == handle && d.name == file && d.parent == Some(folder)
    && d.isDir == s.list[j].isDir && d.size == s.list[j].size && d.content == s.list[j].content
    && d.mtime == s.list[j].mtime && d.virtual == s.list[j].virtual
  }

  /** A capture folder below entry `c`: not on the card. */
  ghost predicate FolderBelow(d: Dirent, dcim: Dirent, handle: u32, folder: string)
  {
    && d.id == handle && d.name == folder && d.parent == Some(dcim.id) && d.isDir == dcim.isDir && d.size == dcim.size
    && d.content == [] && d.mtime == dcim.mtime && d.virtual
  }

  ghost predicate FirstNamed(l: seq<Dirent>, f: nat, name: string, parent: u32)
  {
    f < |l| && IsNamed(l[f], name, parent) && forall k :: 0 <= k < f ==> !IsNamed(l[k], name, parent)
  }

  ghost predicate NoneNamed(l: seq<Dirent>, name: string, parent: u32)
  {
    forall k :: 0 <= k < |l| ==> !IsNamed(l[k], name, parent)
  }

  /** What a capture of picture `j` below DCIM `c` does; handles count up in 32 bits. */
  ghost predicate CapturesInto(s: Store, s': Store, folder: string, file: string, j: nat, c: nat)
    requires j < |s.list| && c < |s.list|
  {
    var h1: u32 := if s.objectid == 0xffff_ffff then 0 else s.objectid + 1;
    var h2: u32 := if h1 == 0xffff_ffff then 0 else h1 + 1;
    && (forall f: nat :: FirstNamed(s.list, f, folder, s.list[c].id) ==>
                           CopiedInto(s, s', j, h1, file, s.list[f].id) && s'.list[1..] == s.list)
    && (NoneNamed(s.list, folder, s.list[c].id) ==>
          |s'.list| >= 2 && CopiedInto(s, s', j, h2, file, h1) && FolderBelow(s'.list[1], s.list[c], h1, folder)
          && s'.list[2..] == s.list)
  }

  lemma FolderIs(l: seq<Dirent>, name: string, parent: u32)
    ensures var i := FindFolder(l, name, parent); i < |l| ==> FirstNamed(l, i, name, parent)
    ensures NoneNamed(l, name, parent) ==> FindFolder(l, name, parent) == |l|
    ensures forall f: nat :: FirstNamed(l, f, name, parent) ==> FindFolder(l, name, parent) == f
  {
    hide FindFolder;
  }

  lemma NextIs(h: u32)
    ensures Next(h) == if h == 0xffff_ffff then 0 else h + 1
  {
  }

  lemma CaptureIs(s: Store, folder: string, file: string, j: nat, c: nat)
    requires FirstPicture(s.list, j) && LastNamedDcim(s.list, c)
    ensures j < |s.list| && c < |s.list|
    ensures CapturesInto(s, Capture(s, folder, file), folder, file, j, c)
  {
    FirstPictureIs(s.list);
    LastDcimIs(s.list);
    PictureAt(s.list, j, c);
    hide FirstPicture, LastNamedDcim, FirstJpg, LastDcim, FindFolder, FirstNamed, NoneNamed, IsNamed, Next;
    NextIs(s.objectid);
    NextIs(Next(s.objectid));
    FolderIs(s.list, folder, s.list[c].id);
  }

  lemma PictureAt(l: seq<Dirent>, j: nat, c: nat)
    ensures FirstPicture(l, j) ==> j < |l|
    ensures LastNamedDcim(l, c) ==> c < |l|
    ensures forall f: nat, name: string, parent: u32 :: FirstNamed(l, f, name, parent) ==> f < |l|
  {
  }

  /**
   A capture copies the first picture of the list to the first folder of the name below the
   last DCIM of the root, or to a new one; without a picture or a DCIM it does nothing.
   */
  lemma CapturesAre(s: Store, folder: string, file: string)
    ensures NoPicture(s.list) || NoDcim(s.list) ==> Capture(s, folder, file) == s
    ensures forall j: nat, c: nat :: FirstPicture(s.list, j) && LastNamedDcim(s.list, c) ==>
                                       CapturesInto(s, Capture(s, folder, file), folder, file, j, c)
    ensures NoPicture(s.list) || exists j: nat :: FirstPicture(s.list, j)
    ensures NoDcim(s.list) || exists c: nat :: LastNamedDcim(s.list, c)
  {
    FirstPictureIs(s.list);
    LastDcimIs(s.list);
    if NoPicture(s.list) || NoDcim(s.list) {
      NothingToCapture(s, folder, file);
    }
    forall j: nat, c: nat | FirstPicture(s.list, j) && LastNamedDcim(s.list, c)
      ensures CapturesInto(s, Capture(s, folder, file), folder, file, j, c)
    {
      CaptureIs(s, folder, file, j, c);
    }
    hide *;
  }

  lemma NothingToCapture(s: Store, folder: string, file: string)
    requires NoPicture(s.list) || NoDcim(s.list)
    ensures Capture(s, folder, file) == s
  {
    FirstPictureIs(s.list);
    LastDcimIs(s.list);
    hide IsJpg, FirstJpg, LastDcim, Pictured, IsNamed, FindFolder;
  }

  /** Nothing but a code. */
  ghost predicate Says(r: Reply, rc: u16)
  {
    r.data == None && r.rc == rc && r.params == []
  }

  /**
   InitiateCapture: the parameter count, the storage, the format and the picture are checked
   in this order, and OK is answered exactly when the capture is made.
   */
  lemma InitiateCaptureAnswers(s: Store, params: seq<u32>)
    ensures var r, s' := InitiateCaptureReply(s, params), AfterInitiateCapture(s, params);
            && Says(r, r.rc)
            && (|params| != 2 ==> r.rc == 0x2002)
            && (|params| == 2 && params[0] != 0 && params[0] != 0x10001 ==> r.rc == 0x2013)
            && (|params| == 2 && (params[0] == 0 || params[0] == 0x10001) ==>
                  && (params[1] != 0 && params[1] != 0x3801 ==> r.rc == 0x200B)
                  && (params[1] == 0 || params[1] == 0x3801 ==> r.rc == if NoPicture(s.list) then 0x2013 else 0x2001))
            && (r.rc != 0x2001 ==> s' == s)
            && (r.rc == 0x2001 ==>
                  forall j: nat, c: nat :: FirstPicture(s.list, j) && LastNamedDcim(s.list, c) ==>
                                             CapturesInto(s, s', "100GPHOT", "GPH_0099.JPG", j, c))
  {
    FirstPictureIs(s.list);
    CapturesAre(s, "100GPHOT", "GPH_0099.JPG");
    NotBoth(s.list);
    hide NoPicture, FirstPicture, LastNamedDcim, NoDcim, CapturesInto, FirstJpg, Capture;
  }

  lemma NotBoth(l: seq<Dirent>)
    ensures forall j: nat :: FirstPicture(l, j) ==> !NoPicture(l)
  {
  }

  /** The new picture in memory under handle `h`: all of a first picture below 4 GiB. */
  ghost predicate Remembers(s: Store, s': Store, j: nat)
    requires j < |s.list|
  {
    && s'.list == s.list && s'.objectid == (if s.objectid == 0xffff_ffff then 0 else s.objectid + 1)
    && s'.sdram.Some? && s'.sdram.value.handle == s'.objectid
    && s'.sdram.value.data <= s.list[j].content
    && (|s.list[j].content| < 0x1_0000_0000 ==> s'.sdram.value.data == s.list[j].content)
    && |s'.sdram.value.data| == |s.list[j].content| % 0x1_0000_0000
  }

  lemma MemoryCaptureIs(s: Store)
    ensures NoPicture(s.list) ==> CaptureSdram(s) == s
    ensures forall j: nat :: FirstPicture(s.list, j) ==>
                               if s.list[j].content == [] then CaptureSdram(s) == s else Remembers(s, CaptureSdram(s), j)
  {
    FirstPictureIs(s.list);
    NotBoth(s.list);
    NextIs(s.objectid);
    assert forall j: nat :: FirstPicture(s.list, j) ==> j < |s.list|;
    hide NoPicture, FirstPicture, FirstJpg, Next;
    if !NoPicture(s.list) {
      KeptIs(s.list[FirstJpg(s.list)].content);
    }
    hide Kept;
  }

  lemma KeptIs(content: seq<byte>)
    ensures Kept(content) <= content && |Kept(content)| == |content| % 0x1_0000_0000
    ensures |content| < 0x1_0000_0000 ==> Kept(content) == content
  {
  }

  /** Canon's full press captures to memory for destination 4 and to the card for any other. */
  lemma TriggerIs(s: Store, destination: u32)
    ensures var s' := AfterTrigger(s, destination);
            && (NoPicture(s.list) ==> s' == s)
            && (destination != 4 && NoDcim(s.list) ==> s' == s)
            && forall j: nat, c: nat :: FirstPicture(s.list, j) ==>
                 if destination == 4 then
                   if s.list[j].content == [] then s' == s else Remembers(s, s', j)
                 else
                   LastNamedDcim(s.list, c) ==> CapturesInto(s, s', "100GPHOT", "GPH_0099.JPG", j, c)
  {
    MemoryCaptureIs(s);
    CapturesAre(s, "100GPHOT", "GPH_0099.JPG");
    assert forall j: nat :: FirstPicture(s.list, j) ==> j < |s.list|;
    assert forall c: nat :: LastNamedDcim(s.list, c) ==> c < |s.list|;
    hide NoPicture, NoDcim, FirstPicture, LastNamedDcim, CapturesInto, Remembers, Capture, CaptureSdram;
  }

  /** The operations of a run, in the words of this module. */
  lemma OperationsAre(s: Store, file: string, h: u32)
    ensures var s' := Apply(s, StandardCapture(file));
            && Apply(s, CanonCard(file)) == s'
            && (NoPicture(s.list) || NoDcim(s.list) ==> s' == s)
            && forall j: nat, c: nat :: FirstPicture(s.list, j) && LastNamedDcim(s.list, c) ==>
                                          CapturesInto(s, s', "100GPHOT", file, j, c)
    ensures var s' := Apply(s, NikonCard(file));
            && (NoPicture(s.list) || NoDcim(s.list) ==> s' == s)
            && forall j: nat, c: nat :: FirstPicture(s.list, j) && LastNamedDcim(s.list, c) ==>
                                          CapturesInto(s, s', "100NIKON", file, j, c)
    ensures Apply(s, CanonSdram) == CaptureSdram(s)
    ensures Apply(s, DeleteEverything).list == [] && Apply(s, DeleteEverything) == s.(list := [])
    ensures var s' := Apply(s, Complete(h));
            s' == if s.sdram.Some? && s.sdram.value.handle == h then s.(sdram := None) else s
    ensures Apply(s, DeleteOne(h)) == Delete(s, h)
  {
    CapturesAre(s, "100GPHOT", file);
    CapturesAre(s, "100NIKON", file);
    hide NoPicture, NoDcim, FirstPicture, LastNamedDcim, CapturesInto, Capture, CaptureSdram, Delete;
  }

  // ---- Deletes -----------------------------------------------------------------------------

  /** `i` is where a search for `h` stops. */
  ghost predicate FirstWith(l: seq<Dirent>, i: nat, h: u32)
  {
    i < |l| && l[i].id == h && forall k :: 0 <= k < i ==> l[k].id != h
  }

  ghost predicate NoneWith(l: seq<Dirent>, h: u32)
  {
    forall k :: 0 <= k < |l| ==> l[k].id != h
  }

  lemma FindIsFirst(l: seq<Dirent>, h: u32)
    ensures NoneWith(l, h) <==> Find(l, h) == |l|
    ensures forall i: nat :: FirstWith(l, i, h) <==> i == Find(l, h) < |l|
  {
    hide Find;
  }

  /** `m` is `l` without the entry at `i`. */
  ghost predicate TakenFrom(l: seq<Dirent>, i: nat, m: seq<Dirent>)
    requires i < |l|
  {
    |m| == |l| - 1 && m[..i] == l[..i] && m[i..] == l[i + 1..]
  }

  /** DeleteOne takes the first entry with the handle out, if it is a file, and nothing else. */
  lemma DeleteTakes(s: Store, h: u32)
    ensures var s' := Delete(s, h);
            && s'.objectid == s.objectid && s'.sdram == s.sdram
            && (NoneWith(s.list, h) ==> s' == s)
            && forall i: nat :: FirstWith(s.list, i, h) ==>
                 if s.list[i].isDir then s' == s
                 else TakenFrom(s.list, i, s'.list)
  {
    hide FirstWith, NoneWith, Find, TakenFrom;
    FindIsFirst(s.list, h);
    WithInside(s.list, h);
    if Find(s.list, h) < |s.list| {
      TakenApart(s.list, Find(s.list, h));
    }
  }

  lemma WithInside(l: seq<Dirent>, h: u32)
    ensures forall i: nat :: FirstWith(l, i, h) ==> i < |l|
  {
  }

  lemma TakenApart(l: seq<Dirent>, i: nat)
    requires i < |l|
    ensures TakenFrom(l, i, l[..i] + l[i + 1..])
  {
  }

  lemma DeleteAnswers(s: Store, params: seq<u32>)
    ensures var r, s' := DeleteReply(s, params), AfterDelete(s, params);
            && Says(r, r.rc)
            && (r.rc != 0x2001 ==> s' == s)
            && (|params| == 0 ==> r.rc == 0x201D)
            && (|params| > 0 && params[0] == 0xffff_ffff ==> r.rc == 0x2001 && s' == s.(list := []))
            && (|params| == 2 && params[0] != 0xffff_ffff && params[1] != 0 ==> r.rc == 0x201D)
            && (|params| > 0 && params[0] != 0xffff_ffff && (|params| == 2 ==> params[1] == 0) ==>
                  && (NoneWith(s.list, params[0]) ==> r.rc == 0x2009)
                  && (forall i: nat :: FirstWith(s.list, i, params[0]) ==> r.rc == if s.list[i].isDir then 0x200D else 0x2001)
                  && (r.rc == 0x2001 ==> s' == Delete(s, params[0])))
  {
    hide FirstWith, NoneWith, Find, Delete;
    if |params| > 0 {
      FindIsFirst(s.list, params[0]);
      WithInside(s.list, params[0]);
    }
  }
}
