/**
 Object listings: GetNumObjects and GetObjectHandles (sections 10.4.6 and 10.4.7 of
 PIMA 15740:2000) and the EOS folder listing, over the object store's list
 (`src/ops.c`, `src/canon/objects.c`).
 */
module Listings {
  import opened Bytes
  import opened Replies
  import opened ObjectStore

  /** Mode 0 lists everything, this one the root directory, any other handle one directory. */
  const ROOT_ONLY: u32 := 0xffff_ffff

  predicate Selected(d: Dirent, mode: u32)
  {
    d.id != 0
    && (mode == 0
        || (mode == ROOT_ONLY && d.parent == Some(0))
        || (mode != ROOT_ONLY && d.parent == Some(mode)))
  }

  function Handles(l: seq<Dirent>, mode: u32): (hs: seq<u32>)
    ensures |hs| <= |l|
  {
    if l == [] then []
    else Handles(l[..|l| - 1], mode) + if Selected(l[|l| - 1], mode) then [l[|l| - 1].id] else []
  }

  /** The directories of the store other than the root. */
  function Folders(l: seq<Dirent>): (hs: seq<u32>)
  {
    if l == [] then []
    else Folders(l[..|l| - 1]) + if l[|l| - 1].isDir && l[|l| - 1].id != 0 then [l[|l| - 1].id] else []
  }

  /** The error both operations answer bad parameters with. */
  function ListingError(l: seq<Dirent>, params: seq<u32>): Option<u16>
  {
    if |params| < 1 then Some(RC_INVALID_PARAMETER)
    else if params[0] != 0xffff_ffff && params[0] != MAIN_STORAGE_ID then Some(RC_INVALID_STORAGE_ID)
    else if |params| >= 2 && params[1] != 0 then Some(RC_SPEC_BY_FORMAT_UNSUPPORTED)
    else if |params| >= 3 && params[2] != 0 && params[2] != ROOT_ONLY then
      var i := Find(l, params[2]);
      if i == |l| then Some(RC_INVALID_OBJECT_HANDLE)
      else if !l[i].isDir then Some(RC_INVALID_PARENT_OBJECT)
      else None
    else None
  }

  function Mode(params: seq<u32>): u32
  {
    if |params| >= 3 then params[2] else 0
  }

  function NumObjects(l: seq<Dirent>, params: seq<u32>): Reply
  {
    match ListingError(l, params)
    case Some(rc) => Just(rc)
    case None => Reply(None, RC_OK, [|Handles(l, Mode(params))| % WRAP])
  }

  function ObjectHandles(l: seq<Dirent>, params: seq<u32>): Reply
  {
    match ListingError(l, params)
    case Some(rc) => Just(rc)
    case None =>
      var hs := Handles(l, Mode(params));
      Reply(Some(Le32(|hs| % WRAP) + Words(hs)), RC_OK, [])
  }

  /**
   The two operations agree: they refuse the same parameters with the same code, and
   otherwise the count is the number of handles in the array, which it also leads.
   */
  lemma CountMatchesHandles(l: seq<Dirent>, params: seq<u32>)
    requires |l| < WRAP
    ensures var n, h := NumObjects(l, params), ObjectHandles(l, params);
            && n.rc == h.rc && (h.data.Some? <==> h.rc == RC_OK)
            && (n.rc == RC_OK ==>
                  |n.params| == 1 && |h.data.value| >= 4 && Get32(h.data.value) == n.params[0]
                  && var bytes: int := |h.data.value| - 4; bytes / 4 == n.params[0] && bytes % 4 == 0)
  {
    ErrorIsNotOk(l, params);
    hide Handles, Words, Get32, Le32, ListingError, Mode;
    if ListingError(l, params) == None {
      var hs := Handles(l, Mode(params));
      Get32At([], |hs|, Words(hs));
      assert [] + Le32(|hs|) + Words(hs) == Le32(|hs|) + Words(hs);
    }
  }

  // ---- The recursive listing is the union of the one-level listings ----------------------

  /** The listing an entry shows up in. */
  function Shelf(d: Dirent): u32
    requires d.parent.Some?
  {
    if d.parent.value == 0 then ROOT_ONLY else d.parent.value
  }

  /** How often handle `x` is listed, over all the listings of `modes`. */
  ghost function Listed(l: seq<Dirent>, modes: seq<u32>, x: u32): nat
  {
    if modes == [] then 0 else Listed(l, modes[..|modes| - 1], x) + multiset(Handles(l, modes[|modes| - 1]))[x]
  }

  lemma ErrorIsNotOk(l: seq<Dirent>, params: seq<u32>)
    ensures ListingError(l, params).Some? ==> ListingError(l, params).value != RC_OK
  {
  }

  lemma HandlesSnoc(l: seq<Dirent>, d: Dirent, mode: u32, x: u32)
    ensures multiset(Handles(l + [d], mode))[x] ==
            multiset(Handles(l, mode))[x] + if Selected(d, mode) && d.id == x then 1 else 0
  {
    assert (l + [d])[..|l|] == l;
  }

  lemma CountSnoc(modes: seq<u32>, m: u32, y: u32)
    ensures multiset(modes + [m])[y] == multiset(modes)[y] + if m == y then 1 else 0
  {
  }

  /** How many of the listings an entry shows up in. */
  ghost function Hits(d: Dirent, modes: seq<u32>): nat
  {
    if modes == [] then 0 else Hits(d, modes[..|modes| - 1]) + if Selected(d, modes[|modes| - 1]) then 1 else 0
  }

  lemma {:induction false} HitsAre(d: Dirent, modes: seq<u32>)
    requires 0 !in modes && (d.id != 0 ==> d.parent.Some? && d.parent.value != ROOT_ONLY)
    ensures Hits(d, modes) == if d.id != 0 then multiset(modes)[Shelf(d)] else 0
  {
    if modes == [] {
    } else {
      var n := |modes| - 1;
      HitsAre(d, modes[..n]);
      assert modes == modes[..n] + [modes[n]];
      assert Selected(d, modes[n]) <==> d.id != 0 && modes[n] == Shelf(d);
      if d.id != 0 {
        CountSnoc(modes[..n], modes[n], Shelf(d));
      }
    }
  }

  lemma {:induction false} ListedSnoc(l: seq<Dirent>, d: Dirent, modes: seq<u32>, x: u32)
    ensures Listed(l + [d], modes, x) == Listed(l, modes, x) + if d.id == x then Hits(d, modes) else 0
  {
    if modes == [] {
    } else {
      hide Handles, Selected;
      var n := |modes| - 1;
      ListedSnoc(l, d, modes[..n], x);
      HandlesSnoc(l, d, modes[n], x);
    }
  }

  ghost predicate Shelved(l: seq<Dirent>, modes: seq<u32>)
  {
    forall i :: 0 <= i < |l| && l[i].id != 0 ==>
                  l[i].parent.Some? && l[i].parent.value != ROOT_ONLY && multiset(modes)[Shelf(l[i])] == 1
  }

  lemma SelectedAll(d: Dirent)
    ensures Selected(d, 0) <==> d.id != 0
  {
  }

  lemma ShelvedParts(l: seq<Dirent>, modes: seq<u32>)
    requires l != [] && Shelved(l, modes)
    ensures Shelved(l[..|l| - 1], modes)
    ensures var d := l[|l| - 1];
            d.id != 0 ==> d.parent.Some? && d.parent.value != ROOT_ONLY && multiset(modes)[Shelf(d)] == 1
  {
  }

  lemma {:induction false} UnionOfShelves(l: seq<Dirent>, modes: seq<u32>, x: u32)
    requires 0 !in modes && Shelved(l, modes)
    ensures multiset(Handles(l, 0))[x] == Listed(l, modes, x)
  {
    if l == [] {
      NothingListed(modes, x);
    } else {
      hide *;
      var n := |l| - 1;
      SelectedAll(l[n]);
      ShelvedParts(l, modes);
      UnionOfShelves(l[..n], modes, x);
      ListedSnoc(l[..n], l[n], modes, x);
      HitsAre(l[n], modes);
      HandlesSnoc(l[..n], l[n], 0, x);
      LastApart(l);
    }
  }

  lemma {:induction false} NothingListed(modes: seq<u32>, x: u32)
    ensures Listed([], modes, x) == 0
  {
    if modes == [] {
    } else {
      NothingListed(modes[..|modes| - 1], x);
    }
  }

  ghost predicate IsFolder(l: seq<Dirent>, h: u32)
  {
    h != 0 && exists i :: 0 <= i < |l| && l[i].id == h && l[i].isDir
  }

  lemma {:induction false} FoldersAre(l: seq<Dirent>, h: u32)
    requires Distinct(l)
    ensures multiset(Folders(l))[h] == if IsFolder(l, h) then 1 else 0
  {
    if l == [] {
    } else {
      var n := |l| - 1;
      FoldersAre(l[..n], h);
      assert l == l[..n] + [l[n]];
      IsFolderSnoc(l[..n], l[n], h);
      hide IsFolder;
    }
  }

  lemma IsFolderSnoc(l: seq<Dirent>, d: Dirent, h: u32)
    ensures IsFolder(l + [d], h) <==> IsFolder(l, h) || (h != 0 && d.id == h && d.isDir)
    ensures Distinct(l + [d]) && IsFolder(l, h) ==> d.id != h
  {
    var m := l + [d];
    if IsFolder(l, h) {
      var i :| 0 <= i < |l| && l[i].id == h && l[i].isDir;
      assert m[i].id == h && m[|l|] == d;
    }
    assert m[|l|] == d;
  }

  /**
   The recursive listing is the disjoint union of the root listing and every directory's
   one-level listing: each handle is in it exactly as often as in all of those together,
   and that is once.
   */
  lemma RecursiveIsDisjointUnion(l: seq<Dirent>, x: u32)
    requires Rooted(l) && Bounded(l, ROOT_ONLY - 1)
    ensures multiset(Handles(l, 0))[x] == Listed(l, [ROOT_ONLY] + Folders(l), x)
    ensures multiset(Handles(l, 0))[x] == if HasHandle(l, x) then 1 else 0
  {
    var modes: seq<u32> := [ROOT_ONLY] + Folders(l);
    forall h: u32
      ensures multiset(modes)[h] == (if h == ROOT_ONLY then 1 else 0) + if IsFolder(l, h) then 1 else 0
    {
      FoldersAre(l, h);
      assert multiset(modes) == multiset{ROOT_ONLY} + multiset(Folders(l));
    }
    ShelvesExist(l, modes);
    assert multiset(modes)[0] == 0;
    UnionOfShelves(l, modes, x);
    AllHandles(l, x);
  }

  lemma ShelvesExist(l: seq<Dirent>, modes: seq<u32>)
    requires Rooted(l) && Bounded(l, ROOT_ONLY - 1)
    requires forall h: u32 :: multiset(modes)[h] == (if h == ROOT_ONLY then 1 else 0) + if IsFolder(l, h) then 1 else 0
    ensures Shelved(l, modes)
  {
    forall i | 0 <= i < |l| && l[i].id != 0
      ensures l[i].parent.Some? && l[i].parent.value != ROOT_ONLY && multiset(modes)[Shelf(l[i])] == 1
    {
      assert HasParent(l, i);
      var j :| i < j < |l| && l[j].id == l[i].parent.value && l[j].isDir;
      assert IsFolder(l, l[j].id) || l[j].id == 0;
      if IsFolder(l, ROOT_ONLY) {
        assert false;
      }
    }
  }

  ghost predicate HasHandle(l: seq<Dirent>, x: u32)
  {
    x != 0 && exists i :: 0 <= i < |l| && l[i].id == x
  }

  lemma HasHandleSnoc(l: seq<Dirent>, d: Dirent, x: u32)
    ensures HasHandle(l + [d], x) <==> HasHandle(l, x) || (x != 0 && d.id == x)
    ensures Distinct(l + [d]) && HasHandle(l, x) ==> d.id != x
  {
    var m := l + [d];
    if HasHandle(l, x) {
      var i :| 0 <= i < |l| && l[i].id == x;
      assert m[i].id == x && m[|l|] == d;
    }
    assert m[|l|] == d;
  }

  lemma {:induction false} AllHandles(l: seq<Dirent>, x: u32)
    requires Distinct(l)
    ensures multiset(Handles(l, 0))[x] == if HasHandle(l, x) then 1 else 0
  {
    if l == [] {
    } else {
      assert Distinct(l[..|l| - 1]);
      hide *;
      var n := |l| - 1;
      SelectedAll(l[n]);
      AllHandles(l[..n], x);
      HandlesSnoc(l[..n], l[n], 0, x);
      HasHandleSnoc(l[..n], l[n], x);
      assert l == l[..n] + [l[n]];
    }
  }

  // ---- EOS folder listing --------------------------------------------------------------

  const ENTRY_SIZE: nat := 56

  predicate EosSelected(d: Dirent, parent: u32)
  {
    d.id != 0 && d.parent.Some? && if parent == ROOT_ONLY then d.parent.value == 0 else d.parent.value == parent
  }

  function EosFormat(d: Dirent): u16
  {
    if d.isDir then 0x3001
    else if Contains(d.name, ".jpg") || Contains(d.name, ".JPG") then 0x3801
    else if Contains(d.name, ".mov") || Contains(d.name, ".MOV") then 0x300a
    else 0x3800
  }

  /** The first twelve characters of the name in a zeroed field of sixteen bytes. */
  function NameField(name: string): (d: seq<byte>)
    ensures |d| == 16
  {
    seq(16, i requires 0 <= i < 16 => if i < 12 && i < |name| then name[i] as int % 0x100 else 0)
  }

  function EntryHead(d: Dirent): (e: seq<byte>)
    ensures |e| == 24
  {
    Le32(ENTRY_SIZE) + Le32(d.id) + Le32(MAIN_STORAGE_ID) + Le16(EosFormat(d)) + Le16(0) + Le32(0) + Le32(0)
  }

  function EntryTail(d: Dirent): (e: seq<byte>)
    ensures |e| == 32
  {
    Le32(d.size % WRAP) + Le32(0) + Le32(0) + NameField(d.name) + Le32(d.mtime)
  }

  function EosEntry(d: Dirent): (e: seq<byte>)
    ensures |e| == ENTRY_SIZE
  {
    EntryHead(d) + EntryTail(d)
  }

  function EosEntries(l: seq<Dirent>, parent: u32): seq<byte>
  {
    if l == [] then []
    else EosEntries(l[..|l| - 1], parent) + if EosSelected(l[|l| - 1], parent) then EosEntry(l[|l| - 1]) else []
  }

  function EosListing(l: seq<Dirent>, storage: u32, parent: u32): Reply
  {
    if storage != MAIN_STORAGE_ID && storage != 0xffff_ffff then Just(RC_INVALID_STORAGE_ID)
    else if parent != ROOT_ONLY && (Find(l, parent) == |l| || !l[Find(l, parent)].isDir) then Just(RC_INVALID_PARENT_OBJECT)
    else
      var es := EosEntries(l, parent);
      Reply(Some(Le32(|es| / ENTRY_SIZE % WRAP) + es), RC_OK, [])
  }

  /** The handles a client finds by stepping through the entries. */
  function EntryHandles(d: seq<byte>): (hs: seq<u32>)
    ensures |hs| == |d| / ENTRY_SIZE
  {
    if |d| < ENTRY_SIZE then [] else EntryHandles(d[..|d| - ENTRY_SIZE]) + [Get32(d[|d| - ENTRY_SIZE + 4..])]
  }

  /** Every field of an entry stands where the client looks for it. */
  lemma EosEntryFields(d: Dirent)
    ensures var e := EosEntry(d);
            && Get32(e) == ENTRY_SIZE && Get32(e[4..]) == d.id && Get32(e[8..]) == MAIN_STORAGE_ID
            && Get16(e[12..]) == EosFormat(d) && Get32(e[24..]) == d.size % WRAP
            && e[36..52] == NameField(d.name) && Get32(e[52..]) == d.mtime
  {
    hide Le32, Le16, Get32, Get16, NameField, EosFormat;
    var e := EosEntry(d);
    EntryHeadFields(d, EntryTail(d));
    assert Le32(ENTRY_SIZE)[0..] == Le32(ENTRY_SIZE);
    Get32At(EntryHead(d), d.size % WRAP, e[28..]);
    assert e == EntryHead(d) + Le32(d.size % WRAP) + e[28..];
    Get32At(e[..52], d.mtime, []);
    assert e == e[..52] + Le32(d.mtime) + [];
    assert EntryTail(d)[12..28] == NameField(d.name);
  }

  lemma EntryHeadFields(d: Dirent, rest: seq<byte>)
    ensures var e := EntryHead(d) + rest;
            && Get32(e) == ENTRY_SIZE && Get32(e[4..]) == d.id && Get32(e[8..]) == MAIN_STORAGE_ID
            && Get16(e[12..]) == EosFormat(d)
  {
    hide Le32, Le16, Get32, Get16, EosFormat;
    var e := EntryHead(d) + rest;
    Get32At([], ENTRY_SIZE, e[4..]);
    assert e == [] + Le32(ENTRY_SIZE) + e[4..] && e[0..] == e;
    Get32At(Le32(ENTRY_SIZE), d.id, e[8..]);
    assert e == Le32(ENTRY_SIZE) + Le32(d.id) + e[8..];
    Get32At(Le32(ENTRY_SIZE) + Le32(d.id), MAIN_STORAGE_ID, e[12..]);
    assert e == Le32(ENTRY_SIZE) + Le32(d.id) + Le32(MAIN_STORAGE_ID) + e[12..];
    Get16At(Le32(ENTRY_SIZE) + Le32(d.id) + Le32(MAIN_STORAGE_ID), EosFormat(d), e[14..]);
    assert e == Le32(ENTRY_SIZE) + Le32(d.id) + Le32(MAIN_STORAGE_ID) + Le16(EosFormat(d)) + e[14..];
  }

  lemma LastEntry(a: seq<byte>, e: seq<byte>)
    requires |e| == ENTRY_SIZE
    ensures EntryHandles(a + e) == EntryHandles(a) + [Get32(e[4..])]
  {
    assert (a + e)[..|a|] == a && (a + e)[|a| + 4..] == e[4..];
  }

  /** EOS lists exactly the children the standard operation lists, 56 bytes each. */
  lemma {:induction false} EosListsTheSame(l: seq<Dirent>, parent: u32)
    requires forall i :: 0 <= i < |l| && l[i].id != 0 ==> l[i].parent.Some?
    ensures EntryHandles(EosEntries(l, parent)) == Handles(l, if parent == 0 then ROOT_ONLY else parent)
    ensures |EosEntries(l, parent)| == 56 * |Handles(l, if parent == 0 then ROOT_ONLY else parent)|
  {
    if l == [] {
    } else {
      hide EosEntry, EntryHandles;
      var n := |l| - 1;
      assert EosSelected(l[n], parent) <==> Selected(l[n], if parent == 0 then ROOT_ONLY else parent);
      hide EosSelected, Selected;
      EosListsTheSame(l[..n], parent);
      if EosSelected(l[n], parent) {
        EosEntryFields(l[n]);
        LastEntry(EosEntries(l[..n], parent), EosEntry(l[n]));
      } else {
        assert EosEntries(l, parent) == EosEntries(l[..n], parent);
      }
    }
  }
}
