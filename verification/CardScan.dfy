/**
 What the camera's list is after the card was scanned: every file and directory of the tree
 once, in the order the scan meets them (`src/vcamera.c`).
 */
module CardScan {
  import opened Bytes
  import opened ObjectStore

  /** Handles count up as entries are put in front, so a handle says where its entry is. */
  ghost predicate Holds(l: seq<Dirent>, h: nat, n: Node, parent: nat)
  {
    && h < |l|
    && var d := l[|l| - 1 - h];
    && d.id == h && d.name == n.name && d.parent.Some? && d.parent.value == parent && !d.virtual && d.mtime == n.mtime
    && (if n.File? then !d.isDir && d.size == |n.content| && d.content == n.content
        else d.isDir && d.size == n.size && d.content == [])
  }

  /** The number of files and directories in and below the nodes. */
  ghost function Size(nodes: seq<Node>): nat
  {
    if nodes == [] then 0 else SizeOf(nodes[0]) + Size(nodes[1..])
  }

  ghost function SizeOf(n: Node): nat
  {
    match n
    case File(_, _, _) => 1
    case Folder(_, _, _, children) => 1 + Size(children)
  }

  /** The nodes stand in the list from handle `h` on, a directory before what is in it. */
  ghost predicate Shows(l: seq<Dirent>, nodes: seq<Node>, parent: nat, h: nat)
    decreases nodes
  {
    nodes == []
    || (&& Holds(l, h, nodes[0], parent)
        && (nodes[0].Folder? ==> Shows(l, nodes[0].children, h, h + 1))
        && Shows(l, nodes[1..], parent, h + SizeOf(nodes[0])))
  }

  /** Entries put in front change nothing of it. */
  lemma {:induction false} ShowsBehind(l: seq<Dirent>, more: seq<Dirent>, nodes: seq<Node>, parent: nat, h: nat)
    requires Shows(l, nodes, parent, h)
    ensures Shows(more + l, nodes, parent, h)
    decreases nodes
  {
    if nodes != [] {
      HoldsBehind(l, more, h, nodes[0], parent);
      hide Holds;
      if nodes[0].Folder? {
        ShowsBehind(l, more, nodes[0].children, h, h + 1);
      }
      ShowsBehind(l, more, nodes[1..], parent, h + SizeOf(nodes[0]));
    }
  }

  lemma HoldsBehind(l: seq<Dirent>, more: seq<Dirent>, h: nat, n: Node, parent: nat)
    requires Holds(l, h, n, parent)
    ensures Holds(more + l, h, n, parent)
  {
    assert (more + l)[|more + l| - 1 - h] == l[|l| - 1 - h];
  }

  /** `l'` is `l` with `n` more entries in front. */
  ghost predicate Grown(l: seq<Dirent>, l': seq<Dirent>, n: nat)
  {
    |l'| == |l| + n && l'[n..] == l
  }

  lemma GrownMore(l: seq<Dirent>, l1: seq<Dirent>, l2: seq<Dirent>, m: nat, n: nat)
    requires Grown(l, l1, m) && Grown(l1, l2, n)
    ensures Grown(l, l2, m + n)
  {
    assert l2[m + n..] == l2[n..][m..];
  }

  lemma ShowsLater(l: seq<Dirent>, l': seq<Dirent>, n: nat, nodes: seq<Node>, parent: nat, h: nat)
    requires Grown(l, l', n) && Shows(l, nodes, parent, h)
    ensures Shows(l', nodes, parent, h)
  {
    hide Shows;
    assert l' == l'[..n] + l;
    ShowsBehind(l, l'[..n], nodes, parent, h);
  }

  lemma {:induction false} ScanShows(nodes: seq<Node>, parent: u32, l: seq<Dirent>, next: u32)
    requires |l| == next && next + Size(nodes) < 0x1_0000_0000
    ensures var (l', next') := Scan(nodes, parent, l, next);
            Grown(l, l', Size(nodes)) && next' == next + Size(nodes) && Shows(l', nodes, parent, next)
    decreases nodes
  {
    if nodes == [] {
      assert l[0..] == l;
    } else {
      hide *;
      var n := nodes[0];
      var (l1, next1) := First(n, parent, l, next);
      ScanUnfolds(nodes, parent, l, next);
      SizeUnfolds(nodes);
      FirstShows(n, parent, l, next);
      var (l', next') := Scan(nodes[1..], parent, l1, next1);
      ScanShows(nodes[1..], parent, l1, next1);
      GrownMore(l, l1, l', SizeOf(n), Size(nodes[1..]));
      ShowsLater(l1, l', Size(nodes[1..]), [n], parent, next);
      ShowsBoth(l', nodes, parent, next);
    }
  }

  /** What scanning one node does. */
  ghost function First(n: Node, parent: u32, l: seq<Dirent>, next: u32): (seq<Dirent>, u32)
  {
    var d := Entry(n, next, parent);
    if n.Folder? then Scan(n.children, next, [d] + l, Next(next)) else ([d] + l, Next(next))
  }

  lemma ScanUnfolds(nodes: seq<Node>, parent: u32, l: seq<Dirent>, next: u32)
    requires nodes != []
    ensures Scan(nodes, parent, l, next) ==
            Scan(nodes[1..], parent, First(nodes[0], parent, l, next).0, First(nodes[0], parent, l, next).1)
  {
  }

  lemma SizeUnfolds(nodes: seq<Node>)
    requires nodes != []
    ensures Size(nodes) == SizeOf(nodes[0]) + Size(nodes[1..])
  {
  }

  lemma {:induction false} FirstShows(n: Node, parent: u32, l: seq<Dirent>, next: u32)
    requires |l| == next && next + SizeOf(n) < 0x1_0000_0000
    ensures var (l1, next1) := First(n, parent, l, next);
            Grown(l, l1, SizeOf(n)) && |l1| == next1 == next + SizeOf(n) && Shows(l1, [n], parent, next)
    decreases n, 0
  {
    hide Shows, Scan, Size, Grown, Holds;
    var d := Entry(n, next, parent);
    var m := [d] + l;
    EntryHolds(n, parent, l, next);
    if n.Folder? {
      ScanShows(n.children, next, m, next + 1);
      var (l1, next1) := Scan(n.children, next, m, next + 1);
      GrownMore(l, m, l1, 1, Size(n.children));
      GrownIs(l, l1, 1 + Size(n.children));
      FolderShows(l1, m, n, parent, next);
    } else {
      GrownIs(l, m, 1);
      FileShows(m, n, parent, next);
    }
  }

  lemma GrownIs(l: seq<Dirent>, m: seq<Dirent>, n: nat)
    requires Grown(l, m, n)
    ensures |m| == |l| + n
  {
  }

  lemma EntryHolds(n: Node, parent: u32, l: seq<Dirent>, next: u32)
    requires |l| == next < 0xffff_ffff
    ensures var m := [Entry(n, next, parent)] + l;
            Grown(l, m, 1) && Next(next) == next + 1 && |m| == next + 1 && Holds(m, next, n, parent)
  {
  }

  lemma FileShows(m: seq<Dirent>, n: Node, parent: nat, h: nat)
    requires n.File? && Holds(m, h, n, parent)
    ensures Shows(m, [n], parent, h)
  {
    hide Holds;
    assert Shows(m, [n][1..], parent, h + 1);
  }

  lemma FolderShows(l: seq<Dirent>, m: seq<Dirent>, n: Node, parent: nat, h: nat)
    requires n.Folder? && Holds(m, h, n, parent) && Grown(m, l, Size(n.children)) && Shows(l, n.children, h, h + 1)
    ensures Shows(l, [n], parent, h)
  {
    hide *;
    GrownFront(m, l, Size(n.children));
    HoldsBehind(m, l[..Size(n.children)], h, n, parent);
    OneFolder(l, n, parent, h);
  }

  lemma GrownFront(l: seq<Dirent>, m: seq<Dirent>, n: nat)
    requires Grown(l, m, n)
    ensures n <= |m| && m == m[..n] + l
  {
  }

  lemma OneFolder(l: seq<Dirent>, n: Node, parent: nat, h: nat)
    requires n.Folder? && Holds(l, h, n, parent) && Shows(l, n.children, h, h + 1)
    ensures Shows(l, [n], parent, h)
  {
    hide Holds, SizeOf;
    assert Shows(l, [n][1..], parent, h + SizeOf(n));
  }

  lemma ShowsBoth(l: seq<Dirent>, nodes: seq<Node>, parent: nat, h: nat)
    requires nodes != [] && Shows(l, [nodes[0]], parent, h) && Shows(l, nodes[1..], parent, h + SizeOf(nodes[0]))
    ensures Shows(l, nodes, parent, h)
  {
    hide Holds;
  }

  /** The root, under handle 0. */
  ghost predicate IsCardRoot(d: Dirent, size: nat, mtime: u32)
  {
    d.id == 0 && d.name == "" && d.isDir && d.size == size && d.content == [] && d.mtime == mtime && d.parent == None && !d.virtual
  }

  /** No directory or file "DCIM" right below the root. */
  ghost predicate NoneIs(l: seq<Dirent>)
  {
    forall k :: 0 <= k < |l| ==> !(l[k].name == "DCIM" && l[k].parent == Some(0))
  }

  lemma NoDcimIs(l: seq<Dirent>)
    ensures LastDcim(l) < 0 <==> NoneIs(l)
  {
  }

  /** An entry in front of the scanned card. */
  ghost predicate MadeDcim(d: Dirent, h: nat, size: nat, mtime: u32)
  {
    && d.id == h && d.name == "DCIM" && d.parent == Some(0) && d.isDir && d.size == size && d.content == []
    && d.mtime == mtime && !d.virtual
  }

  /**
   The card after read_tree, for every tree the handles suffice for: the root under handle 0;
   every node under the handle that numbers it in scan order, with its name, size, bytes and
   time, below its directory; nothing else but a DCIM in front exactly if no entry was
   one.
   */
  lemma CardIsListed(size: nat, mtime: u32, nodes: seq<Node>)
    requires Size(nodes) + 2 < 0x1_0000_0000
    ensures var s, n := ReadTree(size, mtime, nodes), Size(nodes);
            && s.sdram == None && s.objectid == |s.list|
            && |s.list| >= n + 1 && IsCardRoot(s.list[|s.list| - 1], size, mtime)
            && Shows(s.list, nodes, 0, 1)
            && (if NoneIs(s.list[|s.list| - 1 - n..]) then |s.list| == n + 2 && MadeDcim(s.list[0], n + 1, size, mtime)
                else |s.list| == n + 1)
  {
    hide *;
    var l0 := [Root(size, mtime)];
    RootIs(size, mtime);
    ScanShows(nodes, 0, l0, 1);
    var (l, next) := Scan(nodes, 0, l0, 1);
    GrownIs(l0, l, Size(nodes));
    GrownEnd(l0, l, Size(nodes));
    NoDcimIs(l);
    ReadTreeIs(size, mtime, nodes);
    var s := ReadTree(size, mtime, nodes);
    if LastDcim(l) < 0 {
      ShowsBehind(l, s.list[..1], nodes, 0, 1);
      assert s.list == s.list[..1] + l && s.list[1..] == l;
    } else {
      assert l[0..] == l;
    }
  }

  lemma GrownEnd(l: seq<Dirent>, m: seq<Dirent>, n: nat)
    requires Grown(l, m, n) && l != []
    ensures |m| == |l| + n && m[|m| - 1] == l[|l| - 1]
  {
    assert m[n..][|l| - 1] == m[|m| - 1];
  }

  lemma RootIs(size: nat, mtime: u32)
    ensures IsCardRoot(Root(size, mtime), size, mtime)
  {
  }

  lemma ReadTreeIs(size: nat, mtime: u32, nodes: seq<Node>)
    ensures var (l, next) := Scan(nodes, 0, [Root(size, mtime)], 1);
            var s := ReadTree(size, mtime, nodes);
            && s.sdram == None
            && (LastDcim(l) >= 0 ==> s.list == l && s.objectid == next)
            && (LastDcim(l) < 0 ==>
                  && |s.list| == |l| + 1 && s.list[1..] == l && MadeDcim(s.list[0], next, size, mtime)
                  && s.objectid == if next == 0xffff_ffff then 0 else next + 1)
  {
    hide Scan, LastDcim, Root;
  }
}
