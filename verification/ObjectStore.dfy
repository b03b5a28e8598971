/**
 The object store: a directory tree held in one list, newest entry first, with handles
 from a 32-bit counter and one capture that lives only in memory beside the list
 (`src/vcamera.c`, `src/ops.c`, `src/canon/canon.c`, `src/nikon/ops.c`).

 An entry's parent pointer is modelled by the parent's handle: handles are distinct and
 an entry keeps the one it was created with.
 */
module ObjectStore {
  import opened Bytes

  const WRAP: int := 0x1_0000_0000

  const DCIM: string := "DCIM"
  const GPHOT: string := "100GPHOT"
  const NIKON: string := "100NIKON"

  /**
   `size` is `st_size`; `content` is what reading the file gives, nothing for a directory.
   A capture folder exists in the list only: its file name "virtual" cannot be opened.
   */
  datatype Dirent = Dirent(id: u32, name: string, isDir: bool, size: nat, content: seq<byte>, mtime: u32,
                           parent: Option<u32>, virtual: bool)

  datatype Sdram = Sdram(handle: u32, data: seq<byte>)

  datatype Store = Store(list: seq<Dirent>, objectid: u32, sdram: Option<Sdram>)

  function Next(id: u32): u32
  {
    (id + 1) % WRAP
  }

  // ---- Lookups -------------------------------------------------------------------------

  predicate Contains(name: string, part: string)
  {
    exists i :: 0 <= i <= |name| && StandsAt(name, part, i)
  }

  predicate StandsAt(name: string, part: string, i: nat)
  {
    i + |part| <= |name| && name[i..i + |part|] == part
  }

  predicate IsJpg(d: Dirent)
  {
    Contains(d.name, ".jpg") || Contains(d.name, ".JPG")
  }

  predicate IsRootDcim(d: Dirent)
  {
    d.name == DCIM && d.parent == Some(0)
  }

  function Find(l: seq<Dirent>, h: u32): (i: nat)
    ensures i <= |l|
    ensures forall k :: 0 <= k < i ==> l[k].id != h
    ensures i < |l| ==> l[i].id == h
  {
    if l == [] || l[0].id == h then 0 else 1 + Find(l[1..], h)
  }

  /** The loop every handler looks an object up with. */
  method FindEntry(l: seq<Dirent>, h: u32) returns (i: nat)
    ensures i == Find(l, h)
  {
    i := 0;
    while i < |l| && l[i].id != h
      invariant i <= |l| && forall k :: 0 <= k < i ==> l[k].id != h
    {
      i := i + 1;
    }
  }

  function FirstJpg(l: seq<Dirent>): (i: nat)
    ensures i <= |l|
    ensures forall k :: 0 <= k < i ==> !IsJpg(l[k])
    ensures i < |l| ==> IsJpg(l[i])
  {
    if l == [] || IsJpg(l[0]) then 0 else 1 + FirstJpg(l[1..])
  }

  /** The search for DCIM does not stop at the first hit, so the last one counts. */
  function LastDcim(l: seq<Dirent>): (i: int)
    ensures -1 <= i < |l|
    ensures i >= 0 ==> IsRootDcim(l[i])
    ensures forall k :: i < k < |l| ==> !IsRootDcim(l[k])
  {
    if l == [] then -1
    else if IsRootDcim(l[|l| - 1]) then |l| - 1
    else LastDcim(l[..|l| - 1])
  }

  function FindFolder(l: seq<Dirent>, name: string, parent: u32): (i: nat)
    ensures i <= |l|
    ensures forall k :: 0 <= k < i ==> !(l[k].name == name && l[k].parent == Some(parent))
    ensures i < |l| ==> l[i].name == name && l[i].parent == Some(parent)
  {
    if l == [] || (l[0].name == name && l[0].parent == Some(parent)) then 0
    else 1 + FindFolder(l[1..], name, parent)
  }

  // ---- Scanning the card ---------------------------------------------------------------

  datatype Node =
    | File(name: string, content: seq<byte>, mtime: u32)
    | Folder(name: string, size: nat, mtime: u32, children: seq<Node>)

  function Count(nodes: seq<Node>): nat
  {
    if nodes == [] then 0
    else 1 + (if nodes[0].Folder? then Count(nodes[0].children) else 0) + Count(nodes[1..])
  }

  function Entry(n: Node, id: u32, parent: u32): Dirent
  {
    match n
    case File(name, content, mtime) => Dirent(id, name, false, |content|, content, mtime, Some(parent), false)
    case Folder(name, size, mtime, _) => Dirent(id, name, true, size, [], mtime, Some(parent), false)
  }

  /** read_directories: every entry is put in front, a directory before what is in it. */
  function Scan(nodes: seq<Node>, parent: u32, l: seq<Dirent>, next: u32): (seq<Dirent>, u32)
  {
    if nodes == [] then
      (l, next)
    else
      var d := Entry(nodes[0], next, parent);
      var (l1, next1) := if nodes[0].Folder? then Scan(nodes[0].children, next, [d] + l, Next(next)) else ([d] + l, Next(next));
      Scan(nodes[1..], parent, l1, next1)
  }

  function Root(size: nat, mtime: u32): Dirent
  {
    Dirent(0, "", true, size, [], mtime, None, false)
  }

  /** read_tree: the scan below the root, and a DCIM directory if there is none. */
  function ReadTree(size: nat, mtime: u32, nodes: seq<Node>): Store
  {
    var (l, next) := Scan(nodes, 0, [Root(size, mtime)], 1);
    if LastDcim(l) >= 0 then
      Store(l, next, None)
    else
      Store([Dirent(next, DCIM, true, size, [], mtime, Some(0), false)] + l, Next(next), None)
  }

  // ---- Captures and deletes ------------------------------------------------------------

  function Add(s: Store, d: Dirent): Store
  {
    s.(list := [d.(id := Next(s.objectid))] + s.list, objectid := Next(s.objectid))
  }

  /**
   The capture that InitiateCapture, Canon and Nikon share: a copy of the first JPEG, in a
   folder below DCIM that is created when missing. Without a JPEG nothing happens.
   */
  function Capture(s: Store, folder: string, file: string): Store
  {
    var j, c := FirstJpg(s.list), LastDcim(s.list);
    if j == |s.list| || c < 0 then
      s
    else
      var src, dcim := s.list[j], s.list[c];
      var f := FindFolder(s.list, folder, dcim.id);
      if f < |s.list| then
        Add(s, src.(name := file, parent := Some(s.list[f].id)))
      else
        var s1 := Add(s, Dirent(0, folder, dcim.isDir, dcim.size, [], dcim.mtime, Some(dcim.id), true));
        Add(s1, src.(name := file, parent := Some(s1.objectid)))
  }

  /** How many handles a capture uses up. */
  function Needs(s: Store, folder: string): nat
  {
    if FirstJpg(s.list) == |s.list| || LastDcim(s.list) < 0 then 0
    else if FindFolder(s.list, folder, s.list[LastDcim(s.list)].id) < |s.list| then 1
    else 2
  }

  function Kept(content: seq<byte>): seq<byte>
  {
    content[..|content| % WRAP]
  }

  /** Canon's capture to memory: the first JPEG's bytes, as its 32-bit size counts them, under a handle of their own. */
  function CaptureSdram(s: Store): Store
  {
    var j := FirstJpg(s.list);
    if j == |s.list| || s.list[j].content == [] then s
    else s.(objectid := Next(s.objectid), sdram := Some(Sdram(Next(s.objectid), Kept(s.list[j].content))))
  }

  function TransferComplete(s: Store, h: u32): Store
  {
    if s.sdram.Some? && s.sdram.value.handle == h then s.(sdram := None) else s
  }

  /** DeleteObject with one handle: directories and unknown handles are refused. */
  function Delete(s: Store, h: u32): Store
  {
    var i := Find(s.list, h);
    if i == |s.list| || s.list[i].isDir then s
    else s.(list := s.list[..i] + s.list[i + 1..])
  }

  function DeleteAll(s: Store): Store
  {
    s.(list := [])
  }

  // ---- The invariant -------------------------------------------------------------------

  ghost predicate Distinct(l: seq<Dirent>)
  {
    forall i, j :: 0 <= i < j < |l| ==> l[i].id != l[j].id
  }

  /** The parent of entry `i` is a directory that comes later in the list. */
  ghost predicate HasParent(l: seq<Dirent>, i: nat)
    requires i < |l|
  {
    l[i].parent.Some? && exists j :: i < j < |l| && l[j].id == l[i].parent.value && l[j].isDir
  }

  /** DCIM and the capture folders below it, where they exist, are directories. */
  ghost predicate NameOk(l: seq<Dirent>, i: nat)
    requires i < |l|
  {
    && (IsRootDcim(l[i]) ==> l[i].isDir)
    && (l[i].name in {GPHOT, NIKON} && (exists j :: 0 <= j < |l| && l[i].parent == Some(l[j].id) && IsRootDcim(l[j])) ==>
          l[i].isDir)
  }

  ghost predicate IsRoot(d: Dirent)
  {
    d.id == 0 && d.isDir && d.parent == None && d.name != DCIM
  }

  ghost predicate FileSized(d: Dirent)
  {
    if d.isDir then d.content == [] else d.size == |d.content| && !d.virtual
  }

  ghost predicate Rooted(l: seq<Dirent>)
  {
    && l != [] && IsRoot(l[|l| - 1]) && Distinct(l)
    && (forall i :: 0 <= i < |l| - 1 ==> l[i].id != 0)
    && (forall i {:trigger HasParent(l, i)} :: 0 <= i < |l| - 1 ==> HasParent(l, i))
    && (forall i {:trigger NameOk(l, i)} :: 0 <= i < |l| ==> NameOk(l, i))
    && (forall i :: 0 <= i < |l| ==> FileSized(l[i]))
  }

  ghost predicate Bounded(l: seq<Dirent>, n: int)
  {
    forall i :: 0 <= i < |l| ==> l[i].id <= n
  }

  ghost predicate Inv(s: Store)
  {
    && Bounded(s.list, s.objectid)
    && (s.list != [] ==> Rooted(s.list) && LastDcim(s.list) >= 0)
    && (s.sdram.Some? ==>
          0 < s.sdram.value.handle <= s.objectid
          && forall i :: 0 <= i < |s.list| ==> s.list[i].id != s.sdram.value.handle)
  }

  // ---- Keeping it ----------------------------------------------------------------------

  lemma DistinctPrepend(l: seq<Dirent>, d: Dirent)
    requires Distinct(l) && forall k :: 0 <= k < |l| ==> l[k].id != d.id
    ensures Distinct([d] + l)
  {
  }

  lemma ParentsPrepend(l: seq<Dirent>, d: Dirent, p: nat)
    requires l != [] && p < |l| && l[p].isDir && d.parent == Some(l[p].id)
    requires forall i {:trigger HasParent(l, i)} :: 0 <= i < |l| - 1 ==> HasParent(l, i)
    ensures forall i {:trigger HasParent([d] + l, i)} :: 0 <= i < |l| ==> HasParent([d] + l, i)
  {
    var m := [d] + l;
    forall i | 0 <= i < |l|
      ensures HasParent(m, i)
    {
      if i == 0 {
        assert m[p + 1].id == d.parent.value;
      } else {
        assert HasParent(l, i - 1);
        var j :| i - 1 < j < |l| && l[j].id == l[i - 1].parent.value && l[j].isDir;
        assert m[j + 1].id == m[i].parent.value;
      }
    }
  }

  lemma NamesPrepend(l: seq<Dirent>, d: Dirent, p: nat)
    requires Rooted(l) && p < |l| && d.parent == Some(l[p].id) && d.id != 0
    requires forall k :: 0 <= k < |l| ==> l[k].id != d.id
    requires (d.name == DCIM && l[p].id == 0) || (d.name in {GPHOT, NIKON} && IsRootDcim(l[p])) ==> d.isDir
    ensures forall i {:trigger NameOk([d] + l, i)} :: 0 <= i < |l| + 1 ==> NameOk([d] + l, i)
  {
    var m := [d] + l;
    forall i | 0 <= i < |m|
      ensures NameOk(m, i)
    {
      if i > 0 {
        assert NameOk(l, i - 1);
        if i < |l| {
          assert HasParent(l, i - 1);
        }
      }
      forall j | 0 <= j < |m| && m[i].parent == Some(m[j].id) && IsRootDcim(m[j]) && m[i].name in {GPHOT, NIKON}
        ensures m[i].isDir
      {
        if i == 0 {
          if j > 0 && j - 1 != p {
            assert l[j - 1].id != l[p].id;
          }
        } else {
          assert j > 0;
          assert l[i - 1].parent == Some(l[j - 1].id);
        }
      }
    }
  }

  /** A new entry below a listed directory, under a fresh handle, keeps the tree. */
  lemma PrependKeeps(l: seq<Dirent>, d: Dirent, p: nat)
    requires Rooted(l) && p < |l| && l[p].isDir && d.parent == Some(l[p].id) && d.id != 0 && FileSized(d)
    requires forall k :: 0 <= k < |l| ==> l[k].id != d.id
    requires (d.name == DCIM && l[p].id == 0) || (d.name in {GPHOT, NIKON} && IsRootDcim(l[p])) ==> d.isDir
    ensures Rooted([d] + l)
  {
    DistinctPrepend(l, d);
    ParentsPrepend(l, d, p);
    NamesPrepend(l, d, p);
    hide NameOk, HasParent, Distinct;
    var m := [d] + l;
    assert forall i :: 0 < i < |m| ==> m[i] == l[i - 1];
  }

  lemma DcimPrepend(l: seq<Dirent>, d: Dirent)
    ensures LastDcim(l) >= 0 ==> LastDcim([d] + l) == LastDcim(l) + 1
    ensures LastDcim(l) < 0 ==> LastDcim([d] + l) == if IsRootDcim(d) then 0 else -1
  {
    var m := [d] + l;
    var i, j := LastDcim(l), LastDcim(m);
    assert forall k :: 0 < k < |m| ==> m[k] == l[k - 1];
    if i >= 0 {
      assert IsRootDcim(m[i + 1]);
      assert !(j > i + 1);
    } else {
      assert m[0] == d;
      assert !(j > 0);
    }
  }

  // ---- The scanned card ----------------------------------------------------------------

  datatype Place = InRoot | InDcim | Elsewhere

  function Inside(n: Node, place: Place): Place
  {
    if place == InRoot && n.name == DCIM then InDcim else Elsewhere
  }

  /** No plain file has the name of a directory the captures look for, where they look. */
  predicate Clean(nodes: seq<Node>, place: Place)
  {
    nodes == []
    || (&& (nodes[0].File? ==> !(place == InRoot && nodes[0].name == DCIM) && !(place == InDcim && nodes[0].name in {GPHOT, NIKON}))
        && (nodes[0].Folder? ==> Clean(nodes[0].children, Inside(nodes[0], place)))
        && Clean(nodes[1..], place))
  }

  function PlaceOf(d: Dirent): Place
  {
    if d.id == 0 then InRoot else if IsRootDcim(d) then InDcim else Elsewhere
  }

  /** Where a scan that has reached handle `next` leaves the list. */
  ghost predicate Scanned(l: seq<Dirent>, next: u32, l': seq<Dirent>, next': u32, n: nat)
  {
    && Rooted(l') && next' == next + n && Bounded(l', next' - 1)
    && |l'| == |l| + n && l'[n..] == l
  }

  lemma {:induction false} ScanKeeps(nodes: seq<Node>, p: nat, l: seq<Dirent>, next: u32)
    requires Rooted(l) && Bounded(l, next - 1) && p < |l| && l[p].isDir
    requires Clean(nodes, PlaceOf(l[p])) && next + Count(nodes) < WRAP
    ensures Scanned(l, next, Scan(nodes, l[p].id, l, next).0, Scan(nodes, l[p].id, l, next).1, Count(nodes))
    decreases nodes, 1
  {
    if nodes == [] {
      assert l[0..] == l;
    } else {
      hide *;
      var n, parent := nodes[0], l[p].id;
      var d := Entry(n, next, parent);
      var m := [d] + l;
      ScanParts(nodes, p, l, next);
      if n.Folder? {
        var (l1, next1) := Scan(n.children, next, m, next + 1);
        ScanKeeps(n.children, 0, m, next + 1);
        ScanRest(nodes, p, l, next, l1, next1, Count(n.children));
      } else {
        ScannedNone(m, next + 1);
        ScanRest(nodes, p, l, next, m, next + 1, 0);
      }
    }
  }

  /** What the scan of a first node needs, and what it leaves to do. */
  lemma ScanParts(nodes: seq<Node>, p: nat, l: seq<Dirent>, next: u32)
    requires Rooted(l) && Bounded(l, next - 1) && p < |l| && l[p].isDir && nodes != []
    requires Clean(nodes, PlaceOf(l[p])) && next + Count(nodes) < WRAP
    ensures var n := nodes[0];
            var d := Entry(n, next, l[p].id);
            && next + 1 < WRAP && Next(next) == next + 1 && d.id == next && d.isDir == n.Folder?
            && Rooted([d] + l) && Bounded([d] + l, next)
            && Clean(nodes[1..], PlaceOf(l[p]))
            && Count(nodes) == 1 + (if n.Folder? then Count(n.children) else 0) + Count(nodes[1..])
            && (n.Folder? ==> Clean(n.children, PlaceOf(d)) && [d] + l != [] && ([d] + l)[0] == d)
  {
    var d := Entry(nodes[0], next, l[p].id);
    ScanOne(nodes[0], p, l, next, PlaceOf(l[p]), nodes);
    CleanParts(nodes, l[p], d);
    hide Rooted, Bounded, Clean, PlaceOf;
  }

  lemma ScannedNone(l: seq<Dirent>, next: u32)
    requires Rooted(l) && Bounded(l, next - 1)
    ensures Scanned(l, next, l, next, 0)
  {
    hide Rooted, Bounded;
    assert l[0..] == l;
  }

  /** The first node is in, `n` entries below it; now the others. */
  lemma ScanRest(nodes: seq<Node>, p: nat, l: seq<Dirent>, next: u32, l1: seq<Dirent>, next1: u32, n: nat)
    requires Rooted(l) && Bounded(l, next - 1) && p < |l| && l[p].isDir && nodes != []
    requires Clean(nodes, PlaceOf(l[p])) && next + Count(nodes) < WRAP
    requires n == if nodes[0].Folder? then Count(nodes[0].children) else 0
    requires var d := Entry(nodes[0], next, l[p].id);
             && Scanned([d] + l, next + 1, l1, next1, n)
             && (l1, next1) == if nodes[0].Folder? then Scan(nodes[0].children, next, [d] + l, next + 1) else ([d] + l, next + 1)
    ensures Scanned(l, next, Scan(nodes, l[p].id, l, next).0, Scan(nodes, l[p].id, l, next).1, Count(nodes))
    decreases nodes, 0
  {
    hide *;
    ScanParts(nodes, p, l, next);
    var d := Entry(nodes[0], next, l[p].id);
    ScanUnfolds(nodes, l[p].id, l, next, l1, next1);
    ScannedBelow(l, d, p, next, l1, next1, n);
    ScanKeeps(nodes[1..], n + 1 + p, l1, next1);
    var r := Scan(nodes, l[p].id, l, next);
    ScannedTwice(l, d, next, l1, next1, n, r.0, r.1, Count(nodes[1..]));
  }

  lemma ScannedBelow(l: seq<Dirent>, d: Dirent, p: nat, next: u32, l1: seq<Dirent>, next1: u32, n: nat)
    requires p < |l| && next + 1 < WRAP && Scanned([d] + l, next + 1, l1, next1, n)
    ensures Rooted(l1) && Bounded(l1, next1 - 1) && next1 == next + 1 + n
    ensures n + 1 + p < |l1| && l1[n + 1 + p] == l[p]
  {
    assert l1[n..][1 + p] == ([d] + l)[1 + p];
  }

  lemma ScannedTwice(l: seq<Dirent>, d: Dirent, next: u32, l1: seq<Dirent>, next1: u32, a: nat, l2: seq<Dirent>,
                     next2: u32, b: nat)
    requires next + 1 < WRAP && Scanned([d] + l, next + 1, l1, next1, a) && Scanned(l1, next1, l2, next2, b)
    ensures Scanned(l, next, l2, next2, 1 + a + b)
  {
    hide Rooted, Bounded;
    assert l2[b..][a..] == l2[b + a..] && l2[b + a..][1..] == l2[b + a + 1..];
    assert ([d] + l)[1..] == l;
  }

  lemma ScanOne(n: Node, p: nat, l: seq<Dirent>, next: u32, place: Place, nodes: seq<Node>)
    requires Rooted(l) && Bounded(l, next - 1) && p < |l| && l[p].isDir && place == PlaceOf(l[p])
    requires nodes != [] && n == nodes[0] && Clean(nodes, place) && next + 1 < WRAP
    ensures var d := Entry(n, next, l[p].id);
            && Rooted([d] + l) && Bounded([d] + l, next) && next > 0 && d.id != 0
            && d.id == next && d.name == n.name && d.parent == Some(l[p].id) && d.isDir == n.Folder? && Next(next) == next + 1
  {
    assert l[|l| - 1].id == 0;
    PrependKeeps(l, Entry(n, next, l[p].id), p);
  }

  lemma CleanParts(nodes: seq<Node>, parent: Dirent, d: Dirent)
    requires nodes != [] && Clean(nodes, PlaceOf(parent)) && d.id != 0
    requires d.name == nodes[0].name && d.parent == Some(parent.id)
    ensures Clean(nodes[1..], PlaceOf(parent))
    ensures nodes[0].Folder? ==> Clean(nodes[0].children, PlaceOf(d))
  {
  }

  lemma ScanUnfolds(nodes: seq<Node>, parent: u32, l: seq<Dirent>, next: u32, l1: seq<Dirent>, next1: u32)
    requires nodes != []
    requires (l1, next1) == var m := [Entry(nodes[0], next, parent)] + l;
                            if nodes[0].Folder? then Scan(nodes[0].children, next, m, Next(next)) else (m, Next(next))
    ensures Scan(nodes, parent, l, next) == Scan(nodes[1..], parent, l1, next1)
  {
  }

  /** What the scan leaves is a well-formed store, whatever the card holds. */
  lemma ReadTreeEstablishes(size: nat, mtime: u32, nodes: seq<Node>)
    requires Clean(nodes, InRoot) && Count(nodes) + 2 < WRAP
    ensures var s := ReadTree(size, mtime, nodes);
            Inv(s) && s.list != [] && s.objectid <= Count(nodes) + 2
  {
    hide Rooted, Bounded, Scan, LastDcim, Clean, Count, PlaceOf;
    var l0 := [Root(size, mtime)];
    RootAlone(size, mtime);
    ScanKeeps(nodes, 0, l0, 1);
    var (l, next) := Scan(nodes, 0, l0, 1);
    assert l[Count(nodes)..][0] == l[|l| - 1];
    if LastDcim(l) < 0 {
      var d := Dirent(next, DCIM, true, size, [], mtime, Some(0), false);
      DcimAdded(l, next, d);
      BoundedMore([d] + l, next + 1);
    } else {
      BoundedMore(l, next);
    }
  }

  lemma RootAlone(size: nat, mtime: u32)
    ensures Rooted([Root(size, mtime)]) && Bounded([Root(size, mtime)], 0) && PlaceOf([Root(size, mtime)][0]) == InRoot
  {
  }

  lemma BoundedMore(l: seq<Dirent>, n: nat)
    requires Bounded(l, n - 1)
    ensures Bounded(l, n)
  {
  }

  lemma DcimAdded(l: seq<Dirent>, next: u32, d: Dirent)
    requires Rooted(l) && Bounded(l, next - 1) && next > 0 && LastDcim(l) < 0 && l[|l| - 1].isDir && l[|l| - 1].id == 0
    requires d.id == next && d.name == DCIM && d.isDir && d.content == [] && d.parent == Some(0)
    ensures Rooted([d] + l) && LastDcim([d] + l) >= 0 && Bounded([d] + l, next)
  {
    PrependKeeps(l, d, |l| - 1);
    DcimPrepend(l, d);
    hide Rooted, LastDcim;
  }

  // ---- Every operation keeps the invariant ---------------------------------------------

  /**
   A capture keeps the invariant exactly as long as the 32-bit handle counter does not
   wrap, and with a JPEG in the store it always finds a DCIM directory to capture below.
   */
  lemma CaptureKeeps(s: Store, folder: string, file: string)
    requires Inv(s) && folder in {GPHOT, NIKON}
    ensures FirstJpg(s.list) < |s.list| ==> LastDcim(s.list) >= 0 && s.list[LastDcim(s.list)].isDir
    ensures Inv(Capture(s, folder, file)) <==> s.objectid + Needs(s, folder) < WRAP
  {
    var j, c := FirstJpg(s.list), LastDcim(s.list);
    if j < |s.list| {
      DirsAreDirs(s, folder);
      var src, dcim := s.list[j], s.list[c];
      var f := FindFolder(s.list, folder, dcim.id);
      if f < |s.list| {
        AddKeeps(s, src.(name := file, parent := Some(s.list[f].id)), f);
        hide Inv;
      } else {
        var d := Dirent(0, folder, dcim.isDir, dcim.size, [], dcim.mtime, Some(dcim.id), true);
        AddTwoKeeps(s, d, c, src.(name := file, parent := Some(Next(s.objectid))));
        hide Inv;
      }
    }
  }

  lemma AddTwoKeeps(s: Store, d: Dirent, p: nat, e: Dirent)
    requires Inv(s) && p < |s.list| && s.list[p].isDir && s.list[p].id != 0
    requires d.parent == Some(s.list[p].id) && FileSized(d)
    requires d.isDir && d.name in {GPHOT, NIKON} && FileSized(e) && e.parent == Some(Next(s.objectid))
    ensures Inv(Add(Add(s, d), e)) <==> s.objectid + 2 < WRAP
  {
    hide Inv, FileSized, IsRootDcim, IsRoot, Rooted;
    AddKeeps(s, d, p);
    var s1 := Add(s, d);
    assert s1.list[0] == d.(id := Next(s.objectid));
    NewFolder(s1.list, s.objectid, d, p);
    if s.objectid + 1 < WRAP {
      AddKeeps(s1, e, 0);
    } else {
      EndsInRoot(s);
      WrapBreaks(s, d, e);
    }
  }

  lemma EndsInRoot(s: Store)
    requires Inv(s) && s.list != []
    ensures IsRoot(s.list[|s.list| - 1])
  {
  }

  /** A capture folder is not a DCIM of its own. */
  lemma NewFolder(l: seq<Dirent>, objectid: u32, d: Dirent, p: nat)
    requires l != [] && l[0] == d.(id := Next(objectid)) && d.name in {GPHOT, NIKON}
    ensures !IsRootDcim(l[0]) && (objectid + 1 < WRAP ==> l[0].id == objectid + 1 != 0)
  {
  }

  /** What a capture looks up is there, below the root, and a directory. */
  lemma DirsAreDirs(s: Store, folder: string)
    requires Inv(s) && folder in {GPHOT, NIKON} && FirstJpg(s.list) < |s.list|
    ensures var c := LastDcim(s.list);
            && c >= 0 && s.list[c].isDir && s.list[c].id != 0 && IsRoot(s.list[|s.list| - 1])
            && FileSized(s.list[FirstJpg(s.list)])
            && var f := FindFolder(s.list, folder, s.list[c].id);
            f < |s.list| ==> s.list[f].isDir && s.list[f].id != 0 && !IsRootDcim(s.list[f])
  {
    var c := LastDcim(s.list);
    assert NameOk(s.list, c);
    var f := FindFolder(s.list, folder, s.list[c].id);
    if f < |s.list| {
      assert NameOk(s.list, f);
    }
  }

  /** Adding below a directory that is not the root keeps the invariant unless the counter wraps. */
  lemma AddKeeps(s: Store, d: Dirent, p: nat)
    requires Inv(s) && p < |s.list| && s.list[p].isDir && s.list[p].id != 0
    requires d.parent == Some(s.list[p].id) && FileSized(d)
    requires d.name in {GPHOT, NIKON} && IsRootDcim(s.list[p]) ==> d.isDir
    ensures Inv(Add(s, d)) <==> s.objectid + 1 < WRAP
  {
    var e := d.(id := Next(s.objectid));
    assert FileSized(e);
    if s.objectid + 1 < WRAP {
      AddBelow(s, d, p);
    } else {
      RootedParts(s.list);
      TwoRoots(s.list, e);
    }
    hide Rooted, Bounded, IsRootDcim, FileSized, LastDcim, IsRoot;
  }

  lemma AddBelow(s: Store, d: Dirent, p: nat)
    requires Inv(s) && p < |s.list| && s.list[p].isDir && s.list[p].id != 0 && d.parent == Some(s.list[p].id)
    requires s.objectid + 1 < WRAP && FileSized(d.(id := s.objectid + 1))
    requires d.name in {GPHOT, NIKON} && IsRootDcim(s.list[p]) ==> d.isDir
    ensures Inv(Add(s, d))
  {
    hide Rooted, Bounded, IsRootDcim, FileSized, LastDcim;
    var e := d.(id := s.objectid + 1);
    BoundedPrepend(s.list, e, s.objectid);
    PrependKeeps(s.list, e, p);
    DcimPrepend(s.list, e);
  }

  lemma BoundedPrepend(l: seq<Dirent>, d: Dirent, n: int)
    requires Bounded(l, n) && d.id == n + 1
    ensures Bounded([d] + l, n + 1)
    ensures forall k :: 0 <= k < |l| ==> l[k].id != d.id && l[k].id <= n
  {
  }

  lemma TwoRoots(l: seq<Dirent>, d: Dirent)
    requires l != [] && IsRoot(l[|l| - 1]) && d.id == 0
    ensures !Rooted([d] + l)
  {
    assert ([d] + l)[0].id == 0 == ([d] + l)[|l|].id;
  }

  lemma RootedParts(l: seq<Dirent>)
    requires Rooted(l)
    ensures IsRoot(l[|l| - 1])
  {
  }

  lemma WrapBreaks(s: Store, d: Dirent, e: Dirent)
    requires s.list != [] && IsRoot(s.list[|s.list| - 1]) && Next(s.objectid) == 0
    ensures !Inv(Add(Add(s, d), e))
  {
    var l := Add(Add(s, d), e).list;
    assert l[1].id == 0 && l[|l| - 1] == s.list[|s.list| - 1];
  }

  lemma DeleteKeeps(s: Store, h: u32)
    requires Inv(s)
    ensures Inv(Delete(s, h))
  {
    hide Rooted, LastDcim, Find;
    var i := Find(s.list, h);
    if i < |s.list| && !s.list[i].isDir {
      Without(s.list, i);
      RemoveKeepsRooted(s.list, i);
    }
  }

  lemma RemoveKeepsRooted(l: seq<Dirent>, i: nat)
    requires Rooted(l) && i < |l| && !l[i].isDir && LastDcim(l) >= 0
    ensures var m := l[..i] + l[i + 1..]; Rooted(m) && LastDcim(m) >= 0
  {
    hide HasParent, LastDcim, Distinct;
    Without(l, i);
    RemoveKeepsDistinct(l, i);
    DeleteKeepsParents(l, i);
    DeleteKeepsNames(l, i);
    assert NameOk(l, LastDcim(l));
    DeleteKeepsDcim(l, i);
    hide NameOk;
  }

  lemma RemoveKeepsDistinct(l: seq<Dirent>, i: nat)
    requires Distinct(l) && i < |l|
    ensures Distinct(l[..i] + l[i + 1..])
  {
    Without(l, i);
  }

  lemma Without(l: seq<Dirent>, i: nat)
    requires i < |l|
    ensures var m := l[..i] + l[i + 1..];
            |m| == |l| - 1 && forall k :: 0 <= k < |m| ==> m[k] == if k < i then l[k] else l[k + 1]
  {
  }

  lemma DeleteKeepsParents(l: seq<Dirent>, i: nat)
    requires i < |l| - 1 && !l[i].isDir
    requires forall k {:trigger HasParent(l, k)} :: 0 <= k < |l| - 1 ==> HasParent(l, k)
    ensures var m := l[..i] + l[i + 1..];
            forall k {:trigger HasParent(m, k)} :: 0 <= k < |m| - 1 ==> HasParent(m, k)
  {
    var m := l[..i] + l[i + 1..];
    Without(l, i);
    forall k | 0 <= k < |m| - 1
      ensures HasParent(m, k)
    {
      var k' := if k < i then k else k + 1;
      assert HasParent(l, k');
      var j :| k' < j < |l| && l[j].id == l[k'].parent.value && l[j].isDir;
      assert m[if j < i then j else j - 1] == l[j];
    }
  }

  lemma DeleteKeepsNames(l: seq<Dirent>, i: nat)
    requires i < |l|
    requires forall k {:trigger NameOk(l, k)} :: 0 <= k < |l| ==> NameOk(l, k)
    ensures var m := l[..i] + l[i + 1..];
            forall k {:trigger NameOk(m, k)} :: 0 <= k < |m| ==> NameOk(m, k)
  {
    var m := l[..i] + l[i + 1..];
    Without(l, i);
    forall k | 0 <= k < |m|
      ensures NameOk(m, k)
    {
      assert NameOk(l, if k < i then k else k + 1);
      forall j | 0 <= j < |m| && m[k].parent == Some(m[j].id) && IsRootDcim(m[j]) && m[k].name in {GPHOT, NIKON}
        ensures m[k].isDir
      {
        assert m[j] == l[if j < i then j else j + 1];
      }
    }
  }

  lemma HasDcim(l: seq<Dirent>, k: nat)
    requires k < |l| && IsRootDcim(l[k])
    ensures LastDcim(l) >= 0
  {
  }

  lemma DeleteKeepsDcim(l: seq<Dirent>, i: nat)
    requires i < |l| && LastDcim(l) >= 0 && i != LastDcim(l)
    ensures LastDcim(l[..i] + l[i + 1..]) >= 0
  {
    hide *;
    var c := LastDcim(l);
    Without(l, i);
    HasDcim(l[..i] + l[i + 1..], if c < i then c else c - 1);
  }

  lemma SdramKeeps(s: Store)
    requires Inv(s)
    ensures s.objectid + 1 < WRAP ==> Inv(CaptureSdram(s))
  {
    hide Rooted, LastDcim, FirstJpg, Kept;
    assert Bounded(s.list, s.objectid + 1);
  }

  // ---- Whole runs ----------------------------------------------------------------------

  datatype Op =
    | StandardCapture(file: string)
    | CanonCard(file: string)
    | CanonSdram
    | NikonCard(file: string)
    | DeleteOne(h: u32)
    | DeleteEverything
    | Complete(h: u32)

  function Apply(s: Store, op: Op): Store
  {
    match op
    case StandardCapture(file) => Capture(s, GPHOT, file)
    case CanonCard(file) => Capture(s, GPHOT, file)
    case CanonSdram => CaptureSdram(s)
    case NikonCard(file) => Capture(s, NIKON, file)
    case DeleteOne(h) => Delete(s, h)
    case DeleteEverything => DeleteAll(s)
    case Complete(h) => TransferComplete(s, h)
  }

  function Run(s: Store, ops: seq<Op>): Store
  {
    if ops == [] then s else Apply(Run(s, ops[..|ops| - 1]), ops[|ops| - 1])
  }

  /**
   In every state reachable from a scanned card by captures and deletes, handles are
   distinct and bounded by the counter, every parent is a directory later in the list, a
   non-empty list has the root and a DCIM below it, and Canon's memory capture has a
   handle that no listed object has.
   */
  lemma {:induction false} RunKeepsInv(size: nat, mtime: u32, nodes: seq<Node>, ops: seq<Op>)
    requires Clean(nodes, InRoot) && Count(nodes) + 2 + 2 * |ops| < WRAP
    ensures Inv(Run(ReadTree(size, mtime, nodes), ops))
    ensures Run(ReadTree(size, mtime, nodes), ops).objectid <= Count(nodes) + 2 + 2 * |ops|
  {
    var s0 := ReadTree(size, mtime, nodes);
    if ops == [] {
      ReadTreeEstablishes(size, mtime, nodes);
    } else {
      var n := |ops| - 1;
      RunKeepsInv(size, mtime, nodes, ops[..n]);
      hide ReadTree, Inv;
      ApplyKeeps(Run(s0, ops[..n]), ops[n]);
    }
  }

  lemma ApplyKeeps(s: Store, op: Op)
    requires Inv(s) && s.objectid + 2 < WRAP
    ensures Inv(Apply(s, op)) && Apply(s, op).objectid <= s.objectid + 2
  {
    match op
    case StandardCapture(file) => CaptureStays(s, GPHOT, file); hide *;
    case CanonCard(file) => CaptureStays(s, GPHOT, file); hide *;
    case NikonCard(file) => CaptureStays(s, NIKON, file); hide *;
    case CanonSdram => SdramStays(s); hide *;
    case Complete(h) => EndKeeps(s, h); hide *;
    case DeleteOne(h) => DeleteStays(s, h); hide *;
    case DeleteEverything => EndKeeps(s, 0); hide *;
  }

  lemma SdramStays(s: Store)
    requires Inv(s) && s.objectid + 2 < WRAP
    ensures Inv(CaptureSdram(s)) && CaptureSdram(s).objectid <= s.objectid + 1
  {
    hide Inv, FirstJpg, Kept;
    SdramKeeps(s);
  }

  lemma EndKeeps(s: Store, h: u32)
    requires Inv(s)
    ensures Inv(TransferComplete(s, h)) && TransferComplete(s, h).objectid == s.objectid
    ensures Inv(DeleteAll(s)) && DeleteAll(s).objectid == s.objectid
  {
    hide Rooted, LastDcim;
  }

  lemma DeleteStays(s: Store, h: u32)
    requires Inv(s)
    ensures Inv(Delete(s, h)) && Delete(s, h).objectid == s.objectid
  {
    hide Inv, Find;
    DeleteKeeps(s, h);
  }

  lemma CaptureStays(s: Store, folder: string, file: string)
    requires Inv(s) && s.objectid + 2 < WRAP && folder in {GPHOT, NIKON}
    ensures Inv(Capture(s, folder, file)) && Capture(s, folder, file).objectid <= s.objectid + 2
  {
    hide *;
    CaptureCounts(s, folder);
    CaptureKeeps(s, folder, file);
  }

  lemma CaptureCounts(s: Store, folder: string)
    requires s.objectid + 2 < WRAP
    ensures Needs(s, folder) <= 2
    ensures forall file :: Capture(s, folder, file).objectid == s.objectid + Needs(s, folder)
  {
  }

  // ---- Walking up ----------------------------------------------------------------------

  /** The positions on the way from entry `i` to the root, as the parent pointers give them. */
  function PathUp(l: seq<Dirent>, i: nat, steps: nat): seq<nat>
    decreases steps
  {
    if i >= |l| then []
    else if steps == 0 || l[i].parent == None then [i]
    else [i] + PathUp(l, Find(l, l[i].parent.value), steps - 1)
  }

  lemma FindIs(l: seq<Dirent>, j: nat)
    requires Distinct(l) && j < |l|
    ensures Find(l, l[j].id) == j
  {
    var k := Find(l, l[j].id);
    assert k <= j;
  }

  lemma ParentIsLater(l: seq<Dirent>, i: nat)
    requires Rooted(l) && i < |l|
    ensures l[i].parent == None <==> i == |l| - 1
    ensures i < |l| - 1 ==>
              var j := Find(l, l[i].parent.value);
              i < j < |l| && l[j].isDir
  {
    assert i < |l| - 1 ==> HasParent(l, i);
    hide NameOk, FileSized, Find;
    if i < |l| - 1 {
      var j :| i < j < |l| && l[j].id == l[i].parent.value && l[j].isDir;
      FindIs(l, j);
    }
  }

  ghost predicate LeadsUp(l: seq<Dirent>, i: nat, path: seq<nat>)
  {
    && path != [] && path[0] == i && path[|path| - 1] == |l| - 1
    && (forall k :: 0 <= k < |path| ==> path[k] < |l|)
    && (forall a, b :: 0 <= a < b < |path| ==> path[a] < path[b])
    && (forall k :: 0 < k < |path| ==> l[path[k]].isDir)
    && (forall k :: 0 < k < |path| ==> l[path[k - 1]].parent == Some(l[path[k]].id))
  }

  lemma LeadsUpFrom(l: seq<Dirent>, i: nat, j: nat, rest: seq<nat>)
    requires LeadsUp(l, j, rest) && i < j < |l| && l[j].isDir && l[i].parent == Some(l[j].id)
    ensures LeadsUp(l, i, [i] + rest)
  {
    assert forall k :: 0 <= k < |rest| ==> rest[k] >= j;
    var path := [i] + rest;
    forall k | 0 < k < |path|
      ensures l[path[k - 1]].parent == Some(l[path[k]].id)
    {
      assert path[k] == rest[k - 1];
      if k > 1 {
        assert path[k - 1] == rest[k - 2];
      }
    }
  }

  /** Every walk up ends at the root, through directories further and further back. */
  lemma {:induction false} WalkReachesRoot(l: seq<Dirent>, i: nat, steps: nat)
    requires Rooted(l) && i < |l| && steps >= |l| - 1 - i
    ensures LeadsUp(l, i, PathUp(l, i, steps))
    decreases steps
  {
    ParentIsLater(l, i);
    hide Rooted;
    if i == |l| - 1 {
    } else {
      var j := Find(l, l[i].parent.value);
      WalkReachesRoot(l, j, steps - 1);
      assert PathUp(l, i, steps) == [i] + PathUp(l, j, steps - 1);
      LeadsUpFrom(l, i, j, PathUp(l, j, steps - 1));
    }
  }
}
