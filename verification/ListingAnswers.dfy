/**
 What the listing operations answer, entry by entry: which handles, in which order, in which
 bytes, or which refusal (`src/ops.c`, `src/canon/objects.c`).
 */
module ListingAnswers {
  import opened Bytes
  import opened Replies
  import opened ObjectStore
  import opened Listings
  import opened StoreAnswers

  /** All objects, those in the root, or those in one directory; never the root itself. */
  ghost predicate Wanted(d: Dirent, mode: u32)
  {
    d.id != 0 && (mode == 0 || d.parent == Some(if mode == 0xffff_ffff then 0 else mode))
  }

  /** How many entries before position `i` are wanted. */
  ghost function Rank(l: seq<Dirent>, mode: u32, i: nat): nat
    requires i <= |l|
  {
    |set k | 0 <= k < i && Wanted(l[k], mode)|
  }

  lemma RankSnoc(l: seq<Dirent>, mode: u32, i: nat)
    requires i < |l|
    ensures Rank(l, mode, i + 1) == Rank(l, mode, i) + if Wanted(l[i], mode) then 1 else 0
  {
    var a, b := set k | 0 <= k < i && Wanted(l[k], mode), set k | 0 <= k < i + 1 && Wanted(l[k], mode);
    if Wanted(l[i], mode) {
      assert b == a + {i};
    } else {
      assert b == a;
    }
  }

  lemma NoneRank(l: seq<Dirent>, mode: u32, i: nat)
    requires i <= |l|
    ensures i == 0 ==> Rank(l, mode, i) == 0
  {
    var none := set k | 0 <= k < i && Wanted(l[k], mode);
    if i == 0 {
      assert forall k :: k !in none;
    }
  }

  lemma WantedIs(d: Dirent, mode: u32)
    ensures Selected(d, mode) <==> Wanted(d, mode)
  {
  }

  lemma HandlesOf(l: seq<Dirent>, mode: u32, n: nat)
    requires n < |l|
    ensures Handles(l[..n + 1], mode) == Handles(l[..n], mode) + if Wanted(l[n], mode) then [l[n].id] else []
  {
    WantedIs(l[n], mode);
    assert l[..n + 1][..n] == l[..n];
  }

  lemma {:induction false} HandlesTo(l: seq<Dirent>, mode: u32, n: nat)
    requires n <= |l|
    ensures |Handles(l[..n], mode)| == Rank(l, mode, n)
  {
    hide *;
    if n == 0 {
      NoneRank(l, mode, n);
      NoHandles(l, mode);
    } else {
      HandlesTo(l, mode, n - 1);
      HandlesOf(l, mode, n - 1);
      RankSnoc(l, mode, n - 1);
    }
  }

  lemma NoHandles(l: seq<Dirent>, mode: u32)
    ensures Handles(l[..0], mode) == []
  {
  }

  /** The handle of a wanted entry stands behind those of the wanted entries before it. */
  lemma {:induction false} HandleAt(l: seq<Dirent>, mode: u32, i: nat, n: nat)
    requires i < n <= |l| && Wanted(l[i], mode)
    ensures Rank(l, mode, i) < |Handles(l[..n], mode)| && Handles(l[..n], mode)[Rank(l, mode, i)] == l[i].id
    decreases n
  {
    hide *;
    HandlesOf(l, mode, n - 1);
    if i < n - 1 {
      HandleAt(l, mode, i, n - 1);
    } else {
      HandlesTo(l, mode, i);
    }
  }

  /** Exactly the wanted entries, in list order. */
  ghost predicate ListsWanted(hs: seq<u32>, l: seq<Dirent>, mode: u32)
  {
    && |hs| == Rank(l, mode, |l|)
    && forall i :: 0 <= i < |l| && Wanted(l[i], mode) ==> Rank(l, mode, i) < |hs| && hs[Rank(l, mode, i)] == l[i].id
  }

  lemma HandlesAreWanted(l: seq<Dirent>, mode: u32)
    ensures ListsWanted(Handles(l, mode), l, mode)
  {
    hide Rank, Handles, Wanted;
    assert l[..|l|] == l;
    HandlesTo(l, mode, |l|);
    forall i | 0 <= i < |l| && Wanted(l[i], mode)
      ensures Rank(l, mode, i) < |Handles(l, mode)| && Handles(l, mode)[Rank(l, mode, i)] == l[i].id
    {
      HandleAt(l, mode, i, |l|);
    }
  }

  // ---- GetNumObjects and GetObjectHandles ---------------------------------------------------

  /** The refusals in the order they are found; None when the listing is made. */
  ghost predicate RefusedWith(l: seq<Dirent>, params: seq<u32>, rc: u16)
  {
    if |params| == 0 then rc == 0x201D
    else if params[0] != 0xffff_ffff && params[0] != 0x10001 then rc == 0x2008
    else if |params| > 1 && params[1] != 0 then rc == 0x2014
    else
      |params| > 2 && params[2] != 0 && params[2] != 0xffff_ffff
      && ((NoneWith(l, params[2]) && rc == 0x2009)
          || exists i: nat :: FirstWith(l, i, params[2]) && !l[i].isDir && rc == 0x201A)
  }

  lemma ErrorIs(l: seq<Dirent>, params: seq<u32>)
    ensures var e := ListingError(l, params); e.Some? ==> RefusedWith(l, params, e.value)
    ensures ListingError(l, params).None? ==> forall rc: u16 :: !RefusedWith(l, params, rc)
  {
    if |params| > 2 {
      FindIsFirst(l, params[2]);
      assert forall i: nat :: FirstWith(l, i, params[2]) ==> i < |l|;
    }
    hide FirstWith, NoneWith, Find;
  }

  /**
   The two listings in full: refused with one code that belongs to the parameters, or the
   number of wanted objects, and an array of their handles in list order behind that number.
   */
  lemma ListingAnswersAre(l: seq<Dirent>, params: seq<u32>)
    requires |l| < 0x1_0000_0000
    ensures var n, h := NumObjects(l, params), ObjectHandles(l, params);
            if exists rc: u16 :: RefusedWith(l, params, rc) then
              RefusedWith(l, params, n.rc) && Says(n, n.rc) && Says(h, n.rc)
            else
              var mode := if |params| > 2 then params[2] else 0;
              && n.rc == 0x2001 == h.rc && n.data == None && h.data.Some? && h.params == []
              && n.params == [Rank(l, mode, |l|)]
              && |h.data.value| == 4 + 4 * Rank(l, mode, |l|) && Get32(h.data.value) == Rank(l, mode, |l|)
              && ListsWanted(GetWords(h.data.value[4..]), l, mode)
  {
    hide *;
    ErrorIs(l, params);
    ErrorIsNotOk(l, params);
    RepliesAre(l, params);
    var mode := if |params| > 2 then params[2] else 0;
    var hs := Handles(l, mode);
    HandlesAreWanted(l, mode);
    WantedCount(hs, l, mode);
    GetWordsOfWords(hs);
    ArrayOf(hs);
  }

  lemma WantedCount(hs: seq<u32>, l: seq<Dirent>, mode: u32)
    requires ListsWanted(hs, l, mode)
    ensures |hs| == Rank(l, mode, |l|)
  {
    hide Rank;
  }

  lemma ArrayOf(hs: seq<u32>)
    requires |hs| < 0x1_0000_0000
    ensures var d := Le32(|hs|) + Words(hs); |d| == 4 + 4 * |hs| && Get32(d) == |hs| && d[4..] == Words(hs)
  {
    hide Get32, Le32, Words;
    Get32At([], |hs|, Words(hs));
    assert [] + Le32(|hs|) + Words(hs) == Le32(|hs|) + Words(hs);
    assert (Le32(|hs|) + Words(hs))[0..] == Le32(|hs|) + Words(hs);
  }

  lemma RepliesAre(l: seq<Dirent>, params: seq<u32>)
    requires |l| < 0x1_0000_0000
    ensures var e := ListingError(l, params);
            var hs := Handles(l, if |params| > 2 then params[2] else 0);
            && |hs| < 0x1_0000_0000
            && (e.Some? ==>
                  NumObjects(l, params).rc == e.value
                  && Says(NumObjects(l, params), e.value) && Says(ObjectHandles(l, params), e.value))
            && (e.None? ==>
                  && NumObjects(l, params) == Reply(None, 0x2001, [|hs|])
                  && ObjectHandles(l, params) == Reply(Some(Le32(|hs|) + Words(hs)), 0x2001, []))
  {
    hide Handles, Words, Le32, ListingError;
  }

  // ---- EOS folder listing --------------------------------------------------------------------

  /** The children of a directory, or those of the root. */
  ghost predicate Child(d: Dirent, parent: u32)
  {
    d.id != 0 && d.parent == Some(if parent == 0xffff_ffff then 0 else parent)
  }

  ghost function ChildRank(l: seq<Dirent>, parent: u32, i: nat): nat
    requires i <= |l|
  {
    |set k | 0 <= k < i && Child(l[k], parent)|
  }

  ghost predicate FormatIs(d: Dirent, format: u16)
  {
    format == if d.isDir then 0x3001 else if Pictured(d) then 0x3801 else if Filmed(d) then 0x300a else 0x3800
  }

  /** The 56 bytes of an entry, field by field. */
  ghost predicate Describes(e: seq<byte>, d: Dirent)
  {
    && |e| == 56 && Get32(e) == 56 && Get32(e[4..]) == d.id && Get32(e[8..]) == 0x10001 && FormatIs(d, Get16(e[12..]))
    && (forall i :: 14 <= i < 24 ==> e[i] == 0)
    && Get32(e[24..]) == d.size % 0x1_0000_0000
    && (forall i :: 28 <= i < 36 ==> e[i] == 0)
    && (forall i :: 36 <= i < 52 ==> e[i] == if i < 48 && i - 36 < |d.name| then d.name[i - 36] as int % 0x100 else 0)
    && Get32(e[52..]) == d.mtime
  }

  lemma FormatIsThis(d: Dirent)
    ensures FormatIs(d, EosFormat(d))
  {
    SpelledIs(d.name, ".jpg", ".JPG");
    SpelledIs(d.name, ".mov", ".MOV");
    hide Contains, Spelled;
  }

  lemma NameBytes(name: string, i: nat)
    requires i < 16
    ensures NameField(name)[i] == if i < 12 && i < |name| then name[i] as int % 0x100 else 0
  {
  }

  lemma EntryDescribes(d: Dirent)
    ensures Describes(EosEntry(d), d)
  {
    EosEntryFields(d);
    FormatIsThis(d);
    EntryGaps(d);
    hide EosEntry, Get32, Get16, NameField, FormatIs, EosFormat;
    var e := EosEntry(d);
    forall i | 36 <= i < 52
      ensures e[i] == if i < 48 && i - 36 < |d.name| then d.name[i - 36] as int % 0x100 else 0
    {
      NameBytes(d.name, i - 36);
      assert e[i] == e[36..52][i - 36];
    }
  }

  lemma EntryGaps(d: Dirent)
    ensures var e := EosEntry(d);
            (forall i :: 14 <= i < 24 ==> e[i] == 0) && forall i :: 28 <= i < 36 ==> e[i] == 0
  {
    hide Le32, Le16, NameField, EosFormat;
    var e := EosEntry(d);
    ZeroWords();
    assert e[14..24] == Le16(0) + Le32(0) + Le32(0);
    assert e[28..36] == Le32(0) + Le32(0);
    forall i | 14 <= i < 24
      ensures e[i] == 0
    {
      assert e[i] == e[14..24][i - 14];
    }
    forall i | 28 <= i < 36
      ensures e[i] == 0
    {
      assert e[i] == e[28..36][i - 28];
    }
  }

  lemma ZeroWords()
    ensures Le16(0) == [0, 0] && Le32(0) == [0, 0, 0, 0]
  {
  }

  lemma ChildIs(d: Dirent, parent: u32)
    ensures EosSelected(d, parent) <==> Child(d, parent)
  {
  }

  lemma ChildRankSnoc(l: seq<Dirent>, parent: u32, i: nat)
    requires i < |l|
    ensures ChildRank(l, parent, i + 1) == ChildRank(l, parent, i) + if Child(l[i], parent) then 1 else 0
  {
    var a, b := set k | 0 <= k < i && Child(l[k], parent), set k | 0 <= k < i + 1 && Child(l[k], parent);
    if Child(l[i], parent) {
      assert b == a + {i};
    } else {
      assert b == a;
    }
  }

  lemma NoneChildRank(l: seq<Dirent>, parent: u32, i: nat)
    requires i <= |l|
    ensures i == 0 ==> ChildRank(l, parent, i) == 0
  {
    var none := set k | 0 <= k < i && Child(l[k], parent);
    if i == 0 {
      assert forall k :: k !in none;
    }
  }

  lemma EntriesOf(l: seq<Dirent>, parent: u32, n: nat)
    requires n < |l|
    ensures EosEntries(l[..n + 1], parent) ==
            EosEntries(l[..n], parent) + if Child(l[n], parent) then EosEntry(l[n]) else []
    ensures EosEntries(l[..0], parent) == []
  {
    hide EosEntry;
    ChildIs(l[n], parent);
    assert l[..n + 1][..n] == l[..n];
  }

  lemma NoEntries(l: seq<Dirent>, parent: u32)
    ensures EosEntries(l[..0], parent) == []
  {
  }

  lemma {:induction false} EntriesTo(l: seq<Dirent>, parent: u32, n: nat)
    requires n <= |l|
    ensures |EosEntries(l[..n], parent)| == 56 * ChildRank(l, parent, n)
  {
    hide EosEntries, ChildRank, Child;
    if n == 0 {
      NoneChildRank(l, parent, n);
      NoEntries(l, parent);
    } else {
      EntriesTo(l, parent, n - 1);
      EntriesOf(l, parent, n - 1);
      ChildRankSnoc(l, parent, n - 1);
    }
  }

  lemma {:induction false} EntryAt(l: seq<Dirent>, parent: u32, i: nat, n: nat)
    requires i < n <= |l| && Child(l[i], parent)
    ensures var at := 56 * ChildRank(l, parent, i);
            at + 56 <= |EosEntries(l[..n], parent)| && EosEntries(l[..n], parent)[at..at + 56] == EosEntry(l[i])
    decreases n
  {
    hide EosEntries, EosEntry, ChildRank, Child;
    EntriesOf(l, parent, n - 1);
    if i < n - 1 {
      EntryAt(l, parent, i, n - 1);
    } else {
      EntriesTo(l, parent, i);
    }
  }

  /**
   The EOS listing in full: refused for a storage or a directory that is not there, or the
   children's number and 56 bytes for each of them, in list order.
   */
  lemma FolderAnswersAre(l: seq<Dirent>, storage: u32, parent: u32)
    requires |l| < 0x1_0000_0000
    ensures var r := EosListing(l, storage, parent);
            if storage != 0x10001 && storage != 0xffff_ffff then Says(r, 0x2008)
            else if parent != 0xffff_ffff && (forall i: nat :: FirstWith(l, i, parent) ==> !l[i].isDir) then Says(r, 0x201A)
            else
              && r.rc == 0x2001 && r.params == [] && r.data.Some?
              && |r.data.value| == 4 + 56 * ChildRank(l, parent, |l|)
              && Get32(r.data.value) == ChildRank(l, parent, |l|)
              && forall i :: 0 <= i < |l| && Child(l[i], parent) ==>
                               var at := 4 + 56 * ChildRank(l, parent, i);
                               at + 56 <= |r.data.value| && Describes(r.data.value[at..at + 56], l[i])
  {
    hide *;
    FindIsFirst(l, parent);
    ListingIs(l, storage, parent);
    EntriesTo(l, parent, |l|);
    assert l[..|l|] == l;
    var es := EosEntries(l, parent);
    CountInFront(l, parent, es);
    forall i | 0 <= i < |l| && Child(l[i], parent)
      ensures var at := 4 + 56 * ChildRank(l, parent, i);
              at + 56 <= 4 + |es| && Describes((Le32(|es| / 56 % 0x1_0000_0000) + es)[at..at + 56], l[i])
    {
      EntryAt(l, parent, i, |l|);
      EntryDescribes(l[i]);
      Behind(Le32(|es| / 56 % 0x1_0000_0000), es, 56 * ChildRank(l, parent, i), 56);
    }
  }

  lemma Behind(head: seq<byte>, es: seq<byte>, at: nat, n: nat)
    requires |head| == 4 && at + n <= |es|
    ensures (head + es)[4 + at..4 + at + n] == es[at..at + n]
  {
  }

  lemma CountInFront(l: seq<Dirent>, parent: u32, es: seq<byte>)
    requires |l| < 0x1_0000_0000 && |es| == 56 * ChildRank(l, parent, |l|)
    ensures var d := Le32(|es| / 56 % 0x1_0000_0000) + es;
            |d| == 4 + |es| && Get32(d) == ChildRank(l, parent, |l|)
  {
    ChildrenFit(l, parent);
    hide ChildRank, Get32, Le32;
    var n := |es| / 56;
    assert n == ChildRank(l, parent, |l|);
    Get32At([], n, es);
    assert [] + Le32(n) + es == Le32(n) + es && (Le32(n) + es)[0..] == Le32(n) + es;
  }

  lemma {:induction false} ChildrenFitTo(l: seq<Dirent>, parent: u32, n: nat)
    requires n <= |l|
    ensures ChildRank(l, parent, n) <= n
  {
    hide ChildRank, Child;
    if n == 0 {
      NoneChildRank(l, parent, n);
    } else {
      ChildrenFitTo(l, parent, n - 1);
      ChildRankSnoc(l, parent, n - 1);
    }
  }

  lemma ChildrenFit(l: seq<Dirent>, parent: u32)
    ensures ChildRank(l, parent, |l|) <= |l|
  {
    ChildrenFitTo(l, parent, |l|);
  }

  lemma ListingIs(l: seq<Dirent>, storage: u32, parent: u32)
    ensures var r, es := EosListing(l, storage, parent), EosEntries(l, parent);
            if storage != 0x10001 && storage != 0xffff_ffff then Says(r, 0x2008)
            else if parent != 0xffff_ffff && (forall i: nat :: FirstWith(l, i, parent) ==> !l[i].isDir) then Says(r, 0x201A)
            else r == Reply(Some(Le32(|es| / 56 % 0x1_0000_0000) + es), 0x2001, [])
  {
    FindIsFirst(l, parent);
    assert forall i: nat :: FirstWith(l, i, parent) ==> i < |l|;
    hide FirstWith, EosEntries, Le32, Find;
  }
}
