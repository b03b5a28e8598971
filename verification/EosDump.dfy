/**
 What a client finds in Canon's first answer, entry by entry and field by field
 (`src/canon/canon.c`, `bin/eos/dec_events.c`).
 */
module EosDump {
  import opened Bytes
  import opened EosEvents
  import opened PropTypes

  /** An entry of `kind` with its own size in front. */
  ghost predicate Reads(e: seq<byte>, size: nat, kind: u32)
  {
    |e| == size >= 8 && Get32(e) == size && Get32(e[4..]) == kind
  }

  /** The value of a property: whole, or as long as the one registered first under its code. */
  ghost predicate ReadsValue(e: seq<byte>, props: seq<Prop>, i: nat)
    requires i < |props|
  {
    && |e| >= 12 && Reads(e, |e|, 0xC189) && Get32(e[8..]) == props[i].code
    && e[12..] <= props[i].value
    && forall k :: 0 <= k <= i && props[k].code == props[i].code && (forall j :: 0 <= j < k ==> props[j].code != props[k].code) ==>
                     |e| - 12 == if |props[k].value| < |props[i].value| then |props[k].value| else |props[i].value|
  }

  /** The value list of an enumerated property. */
  ghost predicate ReadsList(e: seq<byte>, p: Prop)
  {
    && |e| >= 20 && Reads(e, |e|, 0xC18A) && Get32(e[8..]) == p.code && Get32(e[12..]) == 3 && Get32(e[16..]) == |p.avail|
    && e[20..] == Flatten(p.avail)
  }

  ghost predicate ReadsMarker(e: seq<byte>)
  {
    Reads(e, 12, 0xC1A4) && Get32(e[8..]) == 0x20001
  }

  lemma TypedReads(size: u32, kind: u32, rest: seq<byte>)
    requires size == 8 + |rest|
    ensures Reads(Le32(size) + Le32(kind) + rest, size, kind)
  {
    hide Get32;
    var e := Le32(size) + Le32(kind) + rest;
    Get32At([], size, Le32(kind) + rest);
    assert e == [] + Le32(size) + (Le32(kind) + rest) && e[0..] == e;
    Get32At(Le32(size), kind, rest);
  }

  lemma FirstUnderIs(props: seq<Prop>, i: nat, k: nat)
    requires k <= i < |props| && props[k].code == props[i].code
    requires forall j :: 0 <= j < k ==> props[j].code != props[k].code
    ensures FirstUnder(props, props[i].code) == k
  {
  }

  lemma CopiedIs(props: seq<Prop>, i: nat)
    requires i < |props|
    ensures Copied(props, props[i]) <= props[i].value
    ensures forall k :: 0 <= k <= i && props[k].code == props[i].code && (forall j :: 0 <= j < k ==> props[j].code != props[k].code) ==>
                          |Copied(props, props[i])| ==
                          if |props[k].value| < |props[i].value| then |props[k].value| else |props[i].value|
  {
    forall k | 0 <= k <= i && props[k].code == props[i].code && (forall j :: 0 <= j < k ==> props[j].code != props[k].code)
      ensures |Copied(props, props[i])| == if |props[k].value| < |props[i].value| then |props[k].value| else |props[i].value|
    {
      FirstUnderIs(props, i, k);
    }
  }

  lemma ValueReads(props: seq<Prop>, i: nat)
    requires i < |props| && 12 + |props[i].value| < 0x1_0000_0000
    ensures ReadsValue(ValueEntry(props[i], Copied(props, props[i])), props, i)
  {
    hide Get32, Le32, Copied;
    var p, v := props[i], Copied(props, props[i]);
    CopiedIs(props, i);
    TypedReads(12 + |v|, 0xC189, Le32(p.code) + v);
    var e := ValueEntry(p, v);
    assert e == Le32(12 + |v|) + Le32(0xC189) + (Le32(p.code) + v);
    Get32At(Le32(12 + |v|) + Le32(0xC189), p.code, v);
    assert e == Le32(12 + |v|) + Le32(0xC189) + Le32(p.code) + v;
  }

  lemma ListReads(p: Prop)
    requires 20 + |Flatten(p.avail)| < 0x1_0000_0000 && |p.avail| < 0x1_0000_0000
    ensures ReadsList(ListEntry(p), p)
  {
    hide Get32, Le32, Flatten;
    var n, f := |p.avail|, Flatten(p.avail);
    var h := Le32(20 + |f|) + Le32(0xC18A);
    var e := ListEntry(p);
    TypedReads(20 + |f|, 0xC18A, Le32(p.code) + Le32(3) + Le32(n) + f);
    assert e == h + (Le32(p.code) + Le32(3) + Le32(n) + f);
    Get32At(h, p.code, Le32(3) + Le32(n) + f);
    assert e == h + Le32(p.code) + (Le32(3) + Le32(n) + f);
    Get32At(h + Le32(p.code), 3, Le32(n) + f);
    assert e == h + Le32(p.code) + Le32(3) + (Le32(n) + f);
    Get32At(h + Le32(p.code) + Le32(3), n, f);
    assert e == h + Le32(p.code) + Le32(3) + Le32(n) + f;
  }

  lemma MarkerReads()
    ensures ReadsMarker(MARKER)
  {
    hide Get32, Le32;
    TypedReads(12, 0xC1A4, Le32(0x20001));
    Get32At(Le32(12) + Le32(0xC1A4), 0x20001, []);
    assert MARKER == Le32(12) + Le32(0xC1A4) + Le32(0x20001) + [];
  }

  lemma {:induction false} ValuesAt(all: seq<Prop>, props: seq<Prop>, i: nat)
    requires (forall k :: 0 <= k < |props| ==> 12 + |props[k].value| < 0x1_0000_0000) && i < |props|
    ensures Values(all, props)[i] == ValueEntry(props[i], Copied(all, props[i]))
    decreases |props|
  {
    hide ValueEntry, Copied;
    if i < |props| - 1 {
      ValuesAt(all, props[..|props| - 1], i);
    }
  }

  /** The enumerated properties before position `i`. */
  lemma RankSnoc(props: seq<Prop>, i: nat)
    requires i < |props|
    ensures |set j | 0 <= j < i + 1 && props[j].enumerated| ==
            |set j | 0 <= j < i && props[j].enumerated| + if props[i].enumerated then 1 else 0
  {
    var a, b := set j | 0 <= j < i && props[j].enumerated, set j | 0 <= j < i + 1 && props[j].enumerated;
    if props[i].enumerated {
      assert b == a + {i};
    } else {
      assert b == a;
    }
  }

  lemma {:induction false} ListsTo(props: seq<Prop>, n: nat)
    requires TableOk(props) && n <= |props|
    ensures TableOk(props[..n])
    ensures |Lists(props[..n])| == |set j | 0 <= j < n && props[j].enumerated|
    decreases n
  {
    hide WellTyped, ListEntry;
    var before := set j | 0 <= j < n && props[j].enumerated;
    if n == 0 {
      assert forall j :: j !in before;
    } else {
      ListsTo(props, n - 1);
      RankSnoc(props, n - 1);
      assert props[..n][..n - 1] == props[..n - 1];
    }
  }

  lemma {:induction false} ListsAt(props: seq<Prop>, i: nat, n: nat)
    requires TableOk(props) && i < n <= |props| && props[i].enumerated
    ensures TableOk(props[..n]) && WellTyped(props[i])
    ensures var r := |set j | 0 <= j < i && props[j].enumerated|;
            r < |Lists(props[..n])| && Lists(props[..n])[r] == ListEntry(props[i])
    decreases n
  {
    ListsTo(props, i);
    hide WellTyped, ListEntry;
    assert props[..n][..n - 1] == props[..n - 1];
    if i < n - 1 {
      ListsAt(props, i, n - 1);
    }
  }

  lemma PartsOf(a: seq<seq<byte>>, m: seq<byte>, b: seq<seq<byte>>, i: nat)
    ensures var d := a + [m] + b + [m];
            && |d| == |a| + |b| + 2 && d[|a|] == m == d[|d| - 1]
            && (i < |a| ==> d[i] == a[i])
            && (i < |b| ==> d[|a| + 1 + i] == b[i])
  {
  }

  /**
   For every property table: walking the packed dump yields, in registration order, each
   property's code and value; a marker; in the same order the value list of each enumerated
   property; and the marker again. Nothing else is in it.
   */
  lemma DumpReads(props: seq<Prop>)
    requires TableOk(props)
    ensures Walk(DumpBytes(props)).Some?
    ensures var es := Walk(DumpBytes(props)).value;
            && |es| == |props| + 2 + |set j | 0 <= j < |props| && props[j].enumerated|
            && (forall i :: 0 <= i < |props| ==> ReadsValue(es[i], props, i))
            && ReadsMarker(es[|props|])
            && (forall i :: 0 <= i < |props| && props[i].enumerated ==>
                  var at := |props| + 1 + |set j | 0 <= j < i && props[j].enumerated|;
                  at < |es| - 1 && ReadsList(es[at], props[i]))
            && ReadsMarker(es[|es| - 1])
  {
    hide *;
    DumpBytesAre(props);
    DumpWalksBack(props);
    DumpIs(props);
    MarkerReads();
    var v, l := Values(props, props), Lists(props);
    ListsTo(props, |props|);
    assert props[..|props|] == props;
    PartsOf(v, MARKER, l, 0);
    forall i | 0 <= i < |props|
      ensures ReadsValue(Dump(props)[i], props, i)
    {
      PartsOf(v, MARKER, l, i);
      ValuesAt(props, props, i);
      ValueReads(props, i);
    }
    forall i | 0 <= i < |props| && props[i].enumerated
      ensures var at := |props| + 1 + |set j | 0 <= j < i && props[j].enumerated|;
              at < |Dump(props)| - 1 && ReadsList(Dump(props)[at], props[i])
    {
      ListsAt(props, i, |props|);
      PartsOf(v, MARKER, l, |set j | 0 <= j < i && props[j].enumerated|);
      Listed(props[i]);
      ListReads(props[i]);
    }
  }

  lemma Listed(p: Prop)
    requires WellTyped(p) && p.enumerated
    ensures 20 + |Flatten(p.avail)| < 0x1_0000_0000 && |p.avail| < 0x1_0000_0000
  {
  }

  lemma DumpIs(props: seq<Prop>)
    requires TableOk(props)
    ensures forall i :: 0 <= i < |props| ==> 12 + |props[i].value| < 0x1_0000_0000
    ensures |Values(props, props)| == |props|
    ensures Dump(props) == Values(props, props) + [MARKER] + Lists(props) + [MARKER]
  {
  }

  // ---- The notices that follow -----------------------------------------------------------

  lemma EndIs()
    ensures END == [8, 0, 0, 0, 0, 0, 0, 0, 0, 0, 0, 0]
  {
    assert Le32(8) == [8, 0, 0, 0] && Le32(0) == [0, 0, 0, 0];
  }

  /** A property change carries a value of four bytes, or four zeros for any other. */
  lemma PropChangedReads(dpc: u32, value: seq<byte>)
    ensures var e := PropChanged(dpc, value);
            && Reads(e, 16, 0xC189) && Get32(e[8..]) == dpc
            && e[12..] == if |value| == 4 then value else [0, 0, 0, 0]
  {
    hide Get32, Le32;
    var v := if |value| == 4 then value else Zeros(4);
    TypedReads(16, 0xC189, Le32(dpc) + v);
    var e := PropChanged(dpc, value);
    assert e == Le32(16) + Le32(0xC189) + (Le32(dpc) + v);
    Get32At(Le32(16) + Le32(0xC189), dpc, v);
    assert e == Le32(16) + Le32(0xC189) + Le32(dpc) + v;
    assert Zeros(4) == [0, 0, 0, 0];
  }

  lemma InfoCheckReads(marker: u32)
    ensures var e := InfoCheck(marker); Reads(e, 12, 0xC1A4) && Get32(e[8..]) == marker
  {
    hide Get32, Le32;
    TypedReads(12, 0xC1A4, Le32(marker));
    Get32At(Le32(12) + Le32(0xC1A4), marker, []);
    assert InfoCheck(marker) == Le32(12) + Le32(0xC1A4) + Le32(marker) + [];
  }

  lemma ButtonReads(button: u16)
    ensures var e := OlcButton(button);
            && Reads(e, 18, 0xC1A5) && Get32(e[8..]) == 10 && Get16(e[12..]) == 1 && Get16(e[14..]) == 0
            && Get16(e[16..]) == button
  {
    hide Get32, Get16, Le32, Le16;
    var e := OlcButton(button);
    var h := Le32(18) + Le32(0xC1A5);
    TypedReads(18, 0xC1A5, Le32(10) + Le16(1) + Le16(0) + Le16(button));
    assert e == h + (Le32(10) + Le16(1) + Le16(0) + Le16(button));
    Get32At(h, 10, Le16(1) + Le16(0) + Le16(button));
    assert e == h + Le32(10) + (Le16(1) + Le16(0) + Le16(button));
    Get16At(h + Le32(10), 1, Le16(0) + Le16(button));
    assert e == h + Le32(10) + Le16(1) + (Le16(0) + Le16(button));
    Get16At(h + Le32(10) + Le16(1), 0, Le16(button));
    assert e == h + Le32(10) + Le16(1) + Le16(0) + Le16(button);
    Get16At(h + Le32(10) + Le16(1) + Le16(0), button, []);
    assert e == h + Le32(10) + Le16(1) + Le16(0) + Le16(button) + [];
  }

  /** The bytes of a new object and of a transfer request: the fields, and zeros between them. */
  lemma ObjectNoticesRead(handle: u32, storage: u32, parent: u32, ofc: u16, size: u32, name: seq<byte>)
    requires |name| < 64
    ensures var e := ObjectAdded(handle, storage, parent, ofc, size, name);
            && Reads(e, 41 + |name|, 0xC181)
            && (forall i :: 18 <= i < 28 ==> e[i] == 0) && forall i :: 36 <= i < 40 ==> e[i] == 0
    ensures var e := RequestTransfer(handle, ofc, size, name);
            && Reads(e, 29 + |name|, 0xC186)
            && (forall i :: 14 <= i < 20 ==> e[i] == 0) && forall i :: 24 <= i < 28 ==> e[i] == 0
  {
    ObjectAddedFields(handle, storage, parent, ofc, size, name);
    RequestTransferFields(handle, ofc, size, name);
    hide Get32, Get16, Le32, Le16, Zeros;
    var a, r := ObjectAdded(handle, storage, parent, ofc, size, name), RequestTransfer(handle, ofc, size, name);
    ZerosFrom(a, a[..18], Zeros(10), a[28..]);
    ZerosFrom(a, a[..36], Zeros(4), a[40..]);
    ZerosFrom(r, r[..14], Zeros(6), r[20..]);
    ZerosFrom(r, r[..24], Zeros(4), r[28..]);
  }

  lemma ZerosFrom(e: seq<byte>, pre: seq<byte>, gap: seq<byte>, post: seq<byte>)
    requires e == pre + gap + post && forall i :: 0 <= i < |gap| ==> gap[i] == 0
    ensures forall i :: |pre| <= i < |pre| + |gap| ==> e[i] == 0
  {
    forall i | |pre| <= i < |pre| + |gap|
      ensures e[i] == 0
    {
      assert e[i] == gap[i - |pre|];
    }
  }

  // ---- The walk ----------------------------------------------------------------------------

  /** The end of a stream: no byte more, or a header whose type is 0. */
  ghost predicate Ends(d: seq<byte>)
  {
    d == [] || (|d| >= 8 && Get32(d[4..]) == 0)
  }

  /** What a walk yields is what the stream starts with, entry after entry, up to its end. */
  lemma {:induction false} WalkOnlyReads(d: seq<byte>)
    requires Walk(d).Some?
    ensures var es := Walk(d).value;
            && (forall i :: 0 <= i < |es| ==> |es[i]| >= 8 && Get32(es[i]) == |es[i]| && Get32(es[i][4..]) != 0)
            && Flatten(es) <= d && Ends(d[|Flatten(es)|..])
    decreases |d|
  {
    hide Get32;
    if d != [] && Get32(d[4..]) != 0 {
      var n := Get32(d);
      WalkOnlyReads(d[n..]);
      HeadAndRest(d, n, Walk(d[n..]).value);
    } else {
      assert d[0..] == d;
    }
  }

  lemma HeadAndRest(d: seq<byte>, n: nat, rest: seq<seq<byte>>)
    requires 8 <= n <= |d| && Flatten(rest) <= d[n..]
    ensures var es := [d[..n]] + rest; Flatten(es) <= d && d[|Flatten(es)|..] == d[n..][|Flatten(rest)|..]
    ensures Get32(d[..n]) == Get32(d) && d[..n][4..8] == d[4..8] && Get32(d[..n][4..]) == Get32(d[4..])
  {
    Get32Prefix(d, n);
    assert d[..n][4..] == d[4..][..n - 4];
    Get32Prefix(d[4..], n - 4);
    FlattenAppend([d[..n]], rest);
    assert Flatten([d[..n]]) == d[..n];
    assert d == d[..n] + d[n..];
    hide Flatten, Get32;
  }
}
