/**
 Canon's event stream: entries that start with their own size and a type, packed into the
 initial property dump and into every GetEvent answer, and the client-side walk that reads
 them back (`src/canon/canon.c`, `src/data.c`, `bin/eos/dec_events.c`).
 */
module EosEvents {
  import opened Bytes
  import opened Clock
  import opened EventQueue
  import opened PropTypes
  import opened Replies

  const PROP_VALUE_CHANGED: u32 := 0xC189
  const AVAIL_LIST_CHANGED: u32 := 0xC18A
  const INFO_CHECK_COMPLETE: u32 := 0xC1A4
  const OBJECT_ADDED_EX: u32 := 0xC181
  const REQUEST_OBJECT_TRANSFER: u32 := 0xC186
  const OLC_INFO_CHANGED: u32 := 0xC1A5

  /** What the program allocates for an answer. */
  const EVENT_BUFFER: nat := 10000

  // ---- Entries and the walk over them ----------------------------------------------------

  /** What every consumer of the stream relies on. */
  ghost predicate IsEntry(e: seq<byte>)
  {
    |e| >= 8 && Get32(e) == |e| && Get32(e[4..]) != 0
  }

  const END: seq<byte> := Le32(8) + Le32(0) + Le32(0)

  /**
   events(): from size field to size field until type 0 or the end of the data; None when
   a header is cut off or a size field leads nowhere.
   */
  function Walk(d: seq<byte>): Option<seq<seq<byte>>>
  {
    if d == [] then Some([])
    else if |d| < 8 then None
    else if Get32(d[4..]) == 0 then Some([])
    else if Get32(d) < 8 || Get32(d) > |d| then None
    else
      match Walk(d[Get32(d)..])
      case None => None
      case Some(es) => Some([d[..Get32(d)]] + es)
  }

  /** The client's first pass: how many entries there are. */
  method CountEvents(data: seq<byte>) returns (length: nat)
    requires Walk(data).Some?
    ensures length == |Walk(data).value|
  {
    var dp: nat := 0;
    length := 0;
    while dp < |data|
      invariant dp <= |data| && Walk(data[dp..]).Some?
      invariant length + |Walk(data[dp..]).value| == |Walk(data).value|
    {
      ghost var d := data[dp..];
      var size, kind := Get32(data[dp..]), Get32(data[dp..][4..]);
      dp := dp + size;
      if kind == 0 {
        return;
      }
      assert data[dp..] == d[size..];
      length := length + 1;
    }
  }

  lemma HeaderOf(e: seq<byte>, rest: seq<byte>)
    requires |e| >= 8
    ensures Get32(e + rest) == Get32(e) && Get32((e + rest)[4..]) == Get32(e[4..])
  {
  }

  lemma WalkFirst(e: seq<byte>, rest: seq<byte>)
    requires IsEntry(e)
    ensures Walk(e + rest) == if Walk(rest).None? then None else Some([e] + Walk(rest).value)
  {
    HeaderOf(e, rest);
    var d := e + rest;
    assert d[|e|..] == rest && d[..|e|] == e;
  }

  lemma WalkEnd()
    ensures Walk(END) == Some([])
  {
    Get32At(Le32(8), 0, Le32(0));
    assert Le32(8) + Le32(0) + Le32(0) == END;
  }

  /** Walking a stream of entries and the end marker yields those entries, in order. */
  lemma {:induction false} WalkReadsBack(es: seq<seq<byte>>)
    requires forall i :: 0 <= i < |es| ==> IsEntry(es[i])
    ensures Walk(Flatten(es) + END) == Some(es)
  {
    hide *;
    if es == [] {
      WalkEnd();
      NoneThenEnd(es);
    } else {
      WalkReadsBack(es[1..]);
      WalkFirst(es[0], Flatten(es[1..]) + END);
      FirstThenRest(es, END);
    }
  }

  lemma NoneThenEnd(es: seq<seq<byte>>)
    requires es == []
    ensures Flatten(es) + END == END
  {
    hide END;
  }

  lemma FirstThenRest(es: seq<seq<byte>>, end: seq<byte>)
    requires es != []
    ensures Flatten(es) + end == es[0] + (Flatten(es[1..]) + end) && [es[0]] + es[1..] == es
  {
  }

  // ---- The property dump -----------------------------------------------------------------

  /** A registered property; `avail` is its value list where it is enumerated. */
  datatype Prop = Prop(code: u32, kind: u16, value: seq<byte>, enumerated: bool, avail: seq<seq<byte>>)

  ghost predicate WellTyped(p: Prop)
  {
    && (p.kind != UNDEF ==> SelfSized(p.value, p.kind))
    && 12 + |p.value| < 0x1_0000_0000
    && (p.enumerated ==>
          20 + |Flatten(p.avail)| < 0x1_0000_0000 && |p.avail| < 0x1_0000_0000
          && forall i :: 0 <= i < |p.avail| ==> SelfSized(p.avail[i], p.kind))
  }

  function FirstUnder(props: seq<Prop>, code: u32): (i: nat)
    ensures i <= |props|
    ensures i < |props| ==> props[i].code == code
    ensures forall k :: 0 <= k < i ==> props[k].code != code
  {
    if props == [] || props[0].code == code then 0 else 1 + FirstUnder(props[1..], code)
  }

  /**
   The part of a value that is packed: as long as the value registered first under its code,
   but not beyond the end.
   */
  function Copied(props: seq<Prop>, p: Prop): (v: seq<byte>)
    ensures |v| <= |p.value|
  {
    var i := FirstUnder(props, p.code);
    if i < |props| && |props[i].value| <= |p.value| then p.value[..|props[i].value|] else p.value
  }

  /** Where no code is registered twice that is the whole value. */
  lemma WholeValuesAreCopied(props: seq<Prop>, i: nat)
    requires i < |props|
    ensures Copied(props, props[i]) == props[i].value <==>
            var k := FirstUnder(props, props[i].code); |props[k].value| >= |props[i].value|
    ensures (forall j :: 0 <= j < |props| && j != i ==> props[j].code != props[i].code) ==>
              FirstUnder(props, props[i].code) == i
  {
  }

  function ValueEntry(p: Prop, v: seq<byte>): seq<byte>
    requires 12 + |v| < 0x1_0000_0000
  {
    Le32(12 + |v|) + Le32(PROP_VALUE_CHANGED) + Le32(p.code) + v
  }

  function ListEntry(p: Prop): seq<byte>
    requires 20 + |Flatten(p.avail)| < 0x1_0000_0000 && |p.avail| < 0x1_0000_0000
  {
    Le32(20 + |Flatten(p.avail)|) + Le32(AVAIL_LIST_CHANGED) + Le32(p.code) + Le32(3) + Le32(|p.avail|) + Flatten(p.avail)
  }

  const MARKER: seq<byte> := Le32(12) + Le32(INFO_CHECK_COMPLETE) + Le32(0x20001)

  lemma TypedIsEntry(size: u32, kind: u32, rest: seq<byte>)
    requires size == 8 + |rest| && kind != 0
    ensures IsEntry(Le32(size) + Le32(kind) + rest)
  {
    var e := Le32(size) + Le32(kind) + rest;
    Get32At([], size, Le32(kind) + rest);
    assert e == [] + Le32(size) + (Le32(kind) + rest) && e[0..] == e;
    Get32At(Le32(size), kind, rest);
  }

  lemma ValueIsEntry(p: Prop, v: seq<byte>)
    requires 12 + |v| < 0x1_0000_0000
    ensures IsEntry(ValueEntry(p, v))
  {
    TypedIsEntry(12 + |v|, PROP_VALUE_CHANGED, Le32(p.code) + v);
    assert ValueEntry(p, v) == Le32(12 + |v|) + Le32(PROP_VALUE_CHANGED) + (Le32(p.code) + v);
  }

  lemma ListIsEntry(p: Prop)
    requires 20 + |Flatten(p.avail)| < 0x1_0000_0000 && |p.avail| < 0x1_0000_0000
    ensures IsEntry(ListEntry(p))
  {
    var rest := Le32(p.code) + Le32(3) + Le32(|p.avail|) + Flatten(p.avail);
    TypedIsEntry(20 + |Flatten(p.avail)|, AVAIL_LIST_CHANGED, rest);
    assert ListEntry(p) == Le32(20 + |Flatten(p.avail)|) + Le32(AVAIL_LIST_CHANGED) + rest;
  }

  lemma MarkerIsEntry()
    ensures IsEntry(MARKER)
  {
    TypedIsEntry(12, INFO_CHECK_COMPLETE, Le32(0x20001));
    assert MARKER == Le32(12) + Le32(INFO_CHECK_COMPLETE) + Le32(0x20001);
  }

  ghost predicate TableOk(props: seq<Prop>)
  {
    forall i :: 0 <= i < |props| ==> WellTyped(props[i])
  }

  /** One value entry for each property. */
  function Values(all: seq<Prop>, props: seq<Prop>): (es: seq<seq<byte>>)
    requires forall i :: 0 <= i < |props| ==> 12 + |props[i].value| < 0x1_0000_0000
    ensures |es| == |props|
  {
    if props == [] then []
    else
      var p := props[|props| - 1];
      Values(all, props[..|props| - 1]) + [ValueEntry(p, Copied(all, p))]
  }

  /** One list entry for each enumerated property. */
  ghost function Lists(props: seq<Prop>): (es: seq<seq<byte>>)
    requires TableOk(props)
  {
    if props == [] then []
    else
      var p := props[|props| - 1];
      Lists(props[..|props| - 1]) + if p.enumerated then [ListEntry(p)] else []
  }

  ghost function Dump(props: seq<Prop>): seq<seq<byte>>
    requires TableOk(props)
  {
    Values(props, props) + [MARKER] + Lists(props) + [MARKER]
  }

  lemma {:induction false} ValuesAreEntries(all: seq<Prop>, props: seq<Prop>)
    requires TableOk(props)
    ensures forall i :: 0 <= i < |props| ==> IsEntry(Values(all, props)[i])
  {
    if props == [] {
    } else {
      ValuesAreEntries(all, props[..|props| - 1]);
      ValueIsEntry(props[|props| - 1], Copied(all, props[|props| - 1]));
      hide IsEntry, ValueEntry, Copied;
    }
  }

  lemma {:induction false} ListsAreEntries(props: seq<Prop>)
    requires TableOk(props)
    ensures forall i :: 0 <= i < |Lists(props)| ==> IsEntry(Lists(props)[i])
    ensures |Lists(props)| == |Enumerated(props)|
  {
    if props == [] {
    } else {
      ListsAreEntries(props[..|props| - 1]);
      if props[|props| - 1].enumerated {
        ListIsEntry(props[|props| - 1]);
      }
      hide IsEntry, ListEntry;
    }
  }

  function Enumerated(props: seq<Prop>): seq<Prop>
  {
    if props == [] then []
    else Enumerated(props[..|props| - 1]) + if props[|props| - 1].enumerated then [props[|props| - 1]] else []
  }

  /**
   For every property table, walking the dump yields one value entry for each property, a
   marker, one list entry for each enumerated property, a marker, and then the end.
   */
  lemma DumpWalksBack(props: seq<Prop>)
    requires TableOk(props)
    ensures Walk(Flatten(Dump(props)) + END) == Some(Dump(props))
    ensures |Dump(props)| == |props| + 1 + |Enumerated(props)| + 1
  {
    ValuesAreEntries(props, props);
    ListsAreEntries(props);
    MarkerIsEntry();
    hide IsEntry, Walk, TableOk, MARKER, END;
    WalkReadsBack(Dump(props));
  }

  lemma ValuesSnoc(all: seq<Prop>, props: seq<Prop>, i: nat)
    requires TableOk(props) && i < |props|
    ensures 12 + |Copied(all, props[i])| < 0x1_0000_0000
    ensures Flatten(Values(all, props[..i + 1])) ==
            Flatten(Values(all, props[..i])) + ValueEntry(props[i], Copied(all, props[i]))
  {
    hide Copied, ValueEntry;
    assert props[..i + 1][..i] == props[..i];
    FlattenSnoc(Values(all, props[..i]), ValueEntry(props[i], Copied(all, props[i])));
  }

  lemma ListsSnoc(props: seq<Prop>, i: nat)
    requires TableOk(props) && i < |props|
    ensures Flatten(Lists(props[..i + 1])) ==
            if props[i].enumerated then Flatten(Lists(props[..i])) + ListEntry(props[i]) else Flatten(Lists(props[..i]))
  {
    assert props[..i + 1][..i] == props[..i];
    if props[i].enumerated {
      FlattenSnoc(Lists(props[..i]), ListEntry(props[i]));
    } else {
      assert Lists(props[..i]) + [] == Lists(props[..i]);
    }
  }

  /** The bytes of the dump. */
  ghost function DumpBytes(props: seq<Prop>): seq<byte>
    requires TableOk(props)
  {
    Flatten(Values(props, props)) + MARKER + Flatten(Lists(props)) + MARKER + END
  }

  lemma DumpBytesAre(props: seq<Prop>)
    requires TableOk(props)
    ensures DumpBytes(props) == Flatten(Dump(props)) + END
  {
    var v, l := Values(props, props), Lists(props);
    FlattenSnoc(v + [MARKER] + l, MARKER);
    FlattenAppend(v + [MARKER], l);
    FlattenSnoc(v, MARKER);
  }

  function Total(values: seq<seq<byte>>): nat
  {
    if values == [] then 0 else Total(values[..|values| - 1]) + |values[|values| - 1]|
  }

  /** What the table takes, property by property: a caller can work it out before packing. */
  function DumpSize(all: seq<Prop>, props: seq<Prop>): nat
  {
    if props == [] then 36
    else
      var p := props[|props| - 1];
      DumpSize(all, props[..|props| - 1]) + 12 + |Copied(all, p)| + if p.enumerated then 20 + Total(p.avail) else 0
  }

  lemma {:induction false} TotalIs(values: seq<seq<byte>>)
    ensures Total(values) == |Flatten(values)|
    decreases |values|
  {
    if values == [] {
    } else {
      var n := |values| - 1;
      TotalIs(values[..n]);
      FlattenSnoc(values[..n], values[n]);
      LastApart(values);
    }
    hide Flatten;
  }

  lemma {:induction false} PartsTake(all: seq<Prop>, props: seq<Prop>)
    requires TableOk(props)
    ensures |Flatten(Values(all, props))| + |Flatten(Lists(props))| + 36 == DumpSize(all, props)
    decreases |props|
  {
    if props == [] {
    } else {
      hide Flatten, Values, Lists, TableOk, SelfSized, Copied;
      var n := |props| - 1;
      Registered(props, n);
      PartsTake(all, props[..n]);
      ValuesSnoc(all, props, n);
      ListsSnoc(props, n);
      TotalIs(props[n].avail);
      assert props[..n + 1] == props;
    }
  }

  /** The dump is as long as the table says. */
  lemma DumpTakes(props: seq<Prop>)
    requires TableOk(props)
    ensures |DumpBytes(props)| == DumpSize(props, props)
  {
    PartsTake(props, props);
    hide Flatten, Values, Lists, TableOk;
  }

  /**
   eos_pack_all_props, appending where the program advances `cnt` over a buffer of
   EVENT_BUFFER bytes. A client walks back what was registered; the program's buffer is
   overrun exactly if the table takes more than it has.
   */
  method PackAllProps(props: seq<Prop>) returns (buf: seq<byte>)
    requires TableOk(props)
    ensures buf == DumpBytes(props)
    ensures Walk(buf) == Some(Dump(props))
    ensures |buf| == DumpSize(props, props)
  {
    hide *;
    var values := PackValues(props);
    var lists := PackLists(props);
    buf := values + MARKER + lists + MARKER + END;
    DumpPartsAre(props);
    DumpBytesAre(props);
    DumpWalksBack(props);
    DumpTakes(props);
  }

  lemma DumpPartsAre(props: seq<Prop>)
    requires TableOk(props)
    ensures DumpBytes(props) == Flatten(Values(props, props)) + MARKER + Flatten(Lists(props)) + MARKER + END
    ensures forall i :: 0 <= i < |props| ==> 12 + |props[i].value| < 0x1_0000_0000
  {
  }

  lemma Registered(props: seq<Prop>, i: nat)
    requires TableOk(props) && i < |props|
    ensures WellTyped(props[i]) && TableOk(props[..i]) && TableOk(props[..i + 1])
  {
  }

  lemma NothingPacked(props: seq<Prop>)
    requires TableOk(props)
    ensures TableOk(props[..0]) && (forall i :: 0 <= i <= |props| ==> TableOk(props[..i])) && props[..|props|] == props
    ensures (forall i :: 0 <= i < |props| ==> 12 + |props[i].value| < 0x1_0000_0000)
    ensures Flatten(Values(props, props[..0])) == [] && Flatten(Lists(props[..0])) == []
  {
  }

  /** vcam_get_prop_size: the size of the value registered first under the code. */
  method GetPropSize(props: seq<Prop>, code: u32) returns (size: nat)
    requires exists k :: 0 <= k < |props| && props[k].code == code
    ensures FirstUnder(props, code) < |props| && size == |props[FirstUnder(props, code)].value|
  {
    var i := 0;
    while props[i].code != code
      invariant i <= FirstUnder(props, code) < |props|
      decreases |props| - i
    {
      i := i + 1;
    }
    size := |props[i].value|;
  }

  /** The first loop: every property with its current value. */
  method PackValues(props: seq<Prop>) returns (buf: seq<byte>)
    requires TableOk(props)
    ensures buf == Flatten(Values(props, props))
  {
    hide Flatten, Values, TableOk, SelfSized, FirstUnder;
    buf := [];
    NothingPacked(props);
    for i := 0 to |props|
      invariant buf == Flatten(Values(props, props[..i]))
    {
      ValuesSnoc(props, props, i);
      Registered(props, i);
      var size := GetPropSize(props, props[i].code);
      if size > |props[i].value| { size := |props[i].value|; }
      buf := buf + Le32(12 + size);
      buf := buf + Le32(PROP_VALUE_CHANGED);
      buf := buf + Le32(props[i].code);
      buf := buf + props[i].value[..size];
    }
    assert props[..|props|] == props;
  }

  /** The second loop: the value lists of the enumerated ones. */
  method PackLists(props: seq<Prop>) returns (buf: seq<byte>)
    requires TableOk(props)
    ensures buf == Flatten(Lists(props))
  {
    hide Flatten, Lists, TableOk, SelfSized, Le32;
    buf := [];
    NothingPacked(props);
    for i := 0 to |props|
      invariant buf == Flatten(Lists(props[..i]))
    {
      ListsSnoc(props, i);
      Registered(props, i);
      if props[i].enumerated {
        var availSize := PropListSize(props[i].avail, props[i].kind);
        var entry := Le32(20 + availSize) + Le32(AVAIL_LIST_CHANGED) + Le32(props[i].code) + Le32(3)
                     + Le32(|props[i].avail|) + Flatten(props[i].avail);
        buf := buf + entry;
      }
    }
    assert props[..|props|] == props;
  }

  // ---- The entries the camera queues -----------------------------------------------------

  /** eos_notify_prop_changed: a value that is not four bytes long is sent as zero. */
  function PropChanged(dpc: u32, value: seq<byte>): seq<byte>
  {
    Le32(16) + Le32(PROP_VALUE_CHANGED) + Le32(dpc) + if |value| == 4 then value else Zeros(4)
  }

  function InfoCheck(marker: u32): seq<byte>
  {
    Le32(12) + Le32(INFO_CHECK_COMPLETE) + Le32(marker)
  }

  function OlcButton(button: u16): seq<byte>
  {
    Le32(18) + Le32(OLC_INFO_CHANGED) + Le32(10) + Le16(1) + Le16(0) + Le16(button)
  }

  function ObjectAdded(handle: u32, storage: u32, parent: u32, ofc: u16, size: u32, name: seq<byte>): seq<byte>
    requires |name| < 64
  {
    Le32(41 + |name|) + Le32(OBJECT_ADDED_EX) + Le32(handle) + Le32(storage) + Le16(ofc) + Zeros(10) + Le32(size)
    + Le32(parent) + Zeros(4) + name + [0]
  }

  function RequestTransfer(handle: u32, ofc: u16, size: u32, name: seq<byte>): seq<byte>
    requires |name| < 64
  {
    Le32(29 + |name|) + Le32(REQUEST_OBJECT_TRANSFER) + Le32(handle) + Le16(ofc) + Zeros(6) + Le32(size) + Zeros(4)
    + name + [0]
  }

  function Zeros(n: nat): (z: seq<byte>)
    ensures |z| == n && forall i :: 0 <= i < n ==> z[i] == 0
  {
    seq(n, _ => 0)
  }

  /** Clients find every field of a new object where gphoto2 looks for it. */
  lemma ObjectAddedFields(handle: u32, storage: u32, parent: u32, ofc: u16, size: u32, name: seq<byte>)
    requires |name| < 64
    ensures var e := ObjectAdded(handle, storage, parent, ofc, size, name);
            && IsEntry(e) && Get32(e[4..]) == OBJECT_ADDED_EX
            && Get32(e[8..]) == handle && Get32(e[12..]) == storage && Get16(e[16..]) == ofc
            && Get32(e[28..]) == size && Get32(e[32..]) == parent && e[40..] == name + [0]
  {
    hide Le32, Le16, Get32, Get16, IsEntry, Zeros;
    var h := Le32(41 + |name|) + Le32(OBJECT_ADDED_EX);
    var rest := Le32(size) + Le32(parent) + Zeros(4) + name + [0];
    var e := ObjectAdded(handle, storage, parent, ofc, size, name);
    assert e == h + (Le32(handle) + Le32(storage) + (Le16(ofc) + Zeros(10) + rest));
    ObjectAddedFront(h, handle, storage, ofc, Zeros(10) + rest);
    assert Le32(handle) + Le32(storage) + (Le16(ofc) + (Zeros(10) + rest))
        == Le32(handle) + Le32(storage) + (Le16(ofc) + Zeros(10) + rest);
    assert rest == Le32(size) + Le32(parent) + (Zeros(4) + name + [0]);
    var pre := h + Le32(handle) + Le32(storage) + Le16(ofc) + Zeros(10);
    ObjectAddedBack(pre, size, parent, Zeros(4), name + [0]);
    assert Zeros(4) + (name + [0]) == Zeros(4) + name + [0];
    assert e == pre + rest;
    TypedIsEntry(41 + |name|, OBJECT_ADDED_EX, e[8..]);
    assert e == Le32(41 + |name|) + Le32(OBJECT_ADDED_EX) + e[8..];
    Get32At(Le32(41 + |name|), OBJECT_ADDED_EX, e[8..]);
  }

  lemma ObjectAddedFront(h: seq<byte>, handle: u32, storage: u32, ofc: u16, rest: seq<byte>)
    requires |h| == 8
    ensures var e := h + (Le32(handle) + Le32(storage) + (Le16(ofc) + rest));
            Get32(e[8..]) == handle && Get32(e[12..]) == storage && Get16(e[16..]) == ofc
  {
    hide *;
    var e := h + (Le32(handle) + Le32(storage) + (Le16(ofc) + rest));
    Get32At(h, handle, Le32(storage) + (Le16(ofc) + rest));
    assert e == h + Le32(handle) + (Le32(storage) + (Le16(ofc) + rest));
    Get32At(h + Le32(handle), storage, Le16(ofc) + rest);
    assert e == h + Le32(handle) + Le32(storage) + (Le16(ofc) + rest);
    Get16At(h + Le32(handle) + Le32(storage), ofc, rest);
    assert e == h + Le32(handle) + Le32(storage) + Le16(ofc) + rest;
  }

  lemma ObjectAddedBack(pre: seq<byte>, size: u32, parent: u32, gap: seq<byte>, name: seq<byte>)
    requires |pre| == 28 && |gap| == 4
    ensures var e := pre + (Le32(size) + Le32(parent) + (gap + name));
            Get32(e[28..]) == size && Get32(e[32..]) == parent && e[40..] == name
  {
    hide *;
    var e := pre + (Le32(size) + Le32(parent) + (gap + name));
    Get32At(pre, size, Le32(parent) + (gap + name));
    assert e == pre + Le32(size) + (Le32(parent) + (gap + name));
    Get32At(pre + Le32(size), parent, gap + name);
    assert e == pre + Le32(size) + Le32(parent) + (gap + name);
  }

  lemma RequestTransferFields(handle: u32, ofc: u16, size: u32, name: seq<byte>)
    requires |name| < 64
    ensures var e := RequestTransfer(handle, ofc, size, name);
            && IsEntry(e) && Get32(e[4..]) == REQUEST_OBJECT_TRANSFER
            && Get32(e[8..]) == handle && Get16(e[12..]) == ofc && Get32(e[20..]) == size && e[28..] == name + [0]
  {
    hide Le32, Le16, Get32, Get16, IsEntry, Zeros;
    var h, tail := Le32(29 + |name|) + Le32(REQUEST_OBJECT_TRANSFER), Zeros(4) + name + [0];
    var e := RequestTransfer(handle, ofc, size, name);
    assert e == h + (Le32(handle) + (Le16(ofc) + (Zeros(6) + (Le32(size) + tail))));
    RequestFields(h, handle, ofc, Zeros(6), size, tail);
    assert e[28..] == tail[4..] == name + [0];
    Get32At(Le32(29 + |name|), REQUEST_OBJECT_TRANSFER, e[8..]);
    assert e == Le32(29 + |name|) + Le32(REQUEST_OBJECT_TRANSFER) + e[8..];
    TypedIsEntry(29 + |name|, REQUEST_OBJECT_TRANSFER, e[8..]);
  }

  lemma RequestFields(h: seq<byte>, handle: u32, ofc: u16, gap: seq<byte>, size: u32, tail: seq<byte>)
    requires |h| == 8 && |gap| == 6 && |tail| >= 4
    ensures var e := h + (Le32(handle) + (Le16(ofc) + (gap + (Le32(size) + tail))));
            Get32(e[8..]) == handle && Get16(e[12..]) == ofc && Get32(e[20..]) == size && e[28..] == tail[4..]
  {
    hide *;
    var e := h + (Le32(handle) + (Le16(ofc) + (gap + (Le32(size) + tail))));
    Get32At(h, handle, Le16(ofc) + (gap + (Le32(size) + tail)));
    assert e == h + Le32(handle) + (Le16(ofc) + (gap + (Le32(size) + tail)));
    Get16At(h + Le32(handle), ofc, gap + (Le32(size) + tail));
    assert e == h + Le32(handle) + Le16(ofc) + (gap + (Le32(size) + tail));
    Get32At(h + Le32(handle) + Le16(ofc) + gap, size, tail);
    assert e == h + Le32(handle) + Le16(ofc) + gap + Le32(size) + tail;
  }

  lemma FixedSizesAreEntries(dpc: u32, value: seq<byte>, marker: u32, button: u16)
    ensures IsEntry(PropChanged(dpc, value)) && IsEntry(InfoCheck(marker)) && IsEntry(OlcButton(button))
    ensures Get32(PropChanged(dpc, value)[8..]) == dpc && Get16(OlcButton(button)[16..]) == button
  {
    var v := if |value| == 4 then value else Zeros(4);
    TypedIsEntry(16, PROP_VALUE_CHANGED, Le32(dpc) + v);
    assert PropChanged(dpc, value) == Le32(16) + Le32(PROP_VALUE_CHANGED) + (Le32(dpc) + v);
    Get32At(Le32(16) + Le32(PROP_VALUE_CHANGED), dpc, v);
    TypedIsEntry(12, INFO_CHECK_COMPLETE, Le32(marker));
    var b := Le32(10) + Le16(1) + Le16(0);
    TypedIsEntry(18, OLC_INFO_CHANGED, b + Le16(button));
    assert OlcButton(button) == Le32(18) + Le32(OLC_INFO_CHANGED) + (b + Le16(button));
    Get16At(Le32(18) + Le32(OLC_INFO_CHANGED) + b, button, []);
    assert OlcButton(button) == Le32(18) + Le32(OLC_INFO_CHANGED) + b + Le16(button) + [];
  }

  /** A zeroed buffer of which `done` has been written. */
  ghost predicate Filled(buf: seq<byte>, done: seq<byte>)
  {
    |done| <= |buf| && buf == done + Zeros(|buf| - |done|)
  }

  lemma FillOn(buf: seq<byte>, done: seq<byte>, data: seq<byte>)
    requires Filled(buf, done) && |done| + |data| <= |buf|
    ensures Filled(Written(buf, |done|, data), done + data)
  {
  }

  lemma FillGap(buf: seq<byte>, done: seq<byte>, gap: nat)
    requires Filled(buf, done) && |done| + gap <= |buf|
    ensures Filled(buf, done + Zeros(gap))
  {
  }

  /** eos_notify_object_added: an entry that would not fit its buffer is not sent. */
  method NotifyObjectAdded(interrupts: InterruptList, now: TimeVal, handle: u32, storage: u32, parent: u32, ofc: u32,
                           size: u32, name: seq<byte>, ms: nat)
    requires interrupts.Valid() && Reading(now)
    modifies interrupts, interrupts.nodes
    ensures interrupts.Valid()
    ensures interrupts.View() ==
            if |name| < 64 then
              Insert(old(interrupts.View()),
                     Entry(AddMs(now, ms), Eos, ObjectAdded(handle, storage, parent, ofc % 0x1_0000, size, name)))
            else
              old(interrupts.View())
  {
    hide *;
    var entrySize := 0x28 + |name| + 1;
    if entrySize > 0x28 + 64 {
      return;
    }
    var entry := new byte[0x28 + 64](_ => 0);
    FillObjectAdded(entry, entrySize, handle, storage, parent, ofc, size, name);
    interrupts.InjectEventData(now, ms, Eos, entry[..entrySize]);
  }

  method FillObjectAdded(entry: array<byte>, entrySize: nat, handle: u32, storage: u32, parent: u32, ofc: u32,
                         size: u32,
                         name: seq<byte>)
    requires entry.Length == 104 && |name| < 64 && entrySize == 41 + |name|
    requires forall i :: 0 <= i < 104 ==> entry[i] == 0
    modifies entry
    ensures entry[..entrySize] == ObjectAdded(handle, storage, parent, ofc % 0x1_0000, size, name)
  {
    assert Filled(entry[..], []);
    hide *;
    ghost var done := FillU32(entry, 0, entrySize, []);
    done := FillU32(entry, 4, OBJECT_ADDED_EX, done);
    done := FillU32(entry, 8, handle, done);
    done := FillU32(entry, 12, storage, done);
    done := FillU16(entry, 16, ofc % 0x1_0000, done);
    FillGap(entry[..], done, 10);
    done := FillU32(entry, 28, size, done + Zeros(10));
    done := FillU32(entry, 32, parent, done);
    FillGap(entry[..], done, 4);
    done := done + Zeros(4);
    FillOn(entry[..], done, name + [0]);
    var _ := PutBytes(entry, 40, name + [0]);
    FilledPart(entry[..], done + (name + [0]));
    ObjectAddedIs(handle, storage, parent, ofc % 0x1_0000, size, name);
    assert done + (name + [0]) == done + name + [0];
  }

  lemma ObjectAddedIs(handle: u32, storage: u32, parent: u32, ofc: u16, size: u32, name: seq<byte>)
    requires |name| < 64
    ensures ObjectAdded(handle, storage, parent, ofc, size, name) ==
            [] + Le32(41 + |name|) + Le32(OBJECT_ADDED_EX) + Le32(handle) + Le32(storage) + Le16(ofc) + Zeros(10)
            + Le32(size) + Le32(parent) + Zeros(4) + name + [0]
  {
    hide Le32, Le16, Zeros;
    assert [] + Le32(41 + |name|) == Le32(41 + |name|);
  }

  method FillU32(entry: array<byte>, of: nat, x: u32, ghost done: seq<byte>) returns (ghost now: seq<byte>)
    requires Filled(entry[..], done) && of == |done| && of + 4 <= entry.Length
    modifies entry
    ensures now == done + Le32(x) && Filled(entry[..], now)
  {
    hide *;
    FillOn(entry[..], done, Le32(x));
    var _ := PutU32(entry, of, x);
    now := done + Le32(x);
  }

  method FillU16(entry: array<byte>, of: nat, x: u16, ghost done: seq<byte>) returns (ghost now: seq<byte>)
    requires Filled(entry[..], done) && of == |done| && of + 2 <= entry.Length
    modifies entry
    ensures now == done + Le16(x) && Filled(entry[..], now)
  {
    hide *;
    FillOn(entry[..], done, Le16(x));
    var _ := PutU16(entry, of, x);
    now := done + Le16(x);
  }

  lemma FilledPart(buf: seq<byte>, done: seq<byte>)
    requires Filled(buf, done)
    ensures |done| <= |buf| && buf[..|done|] == done
  {
  }

  // ---- GetEvent --------------------------------------------------------------------------

  /** What one drain sends, the entry it loses, and the queue it leaves. */
  datatype Drained = Drained(sent: seq<seq<byte>>, lost: Option<seq<byte>>, queue: seq<Entry>)

  /** Pop number `k` reads the clock at `clock(k)`; `size` bytes are filled already. */
  function Drain(q: seq<Entry>, clock: nat -> TimeVal, k: nat, size: nat): Drained
    decreases |q|
  {
    var i := PopEosAt(q, clock(k));
    if i >= |q| then Drained([], None, q)
    else if size + |q[i].data| + 12 > EVENT_BUFFER then Drained([], Some(q[i].data), Remove(q, i))
    else
      var r := Drain(Remove(q, i), clock, k + 1, size + |q[i].data|);
      r.(sent := [q[i].data] + r.sent)
  }

  function Lost(d: Drained): seq<seq<byte>>
  {
    if d.lost.Some? then [d.lost.value] else []
  }

  /** Where the EOS pop finds nothing there is nothing due. */
  lemma NothingMeansNoneDue(q: seq<Entry>, now: TimeVal)
    requires Sorted(q) && PopEosAt(q, now) == |q|
    ensures NoneDue(q, Eos, now)
  {
    var i := FirstOf(q, {Eos});
    if i < |q| {
      forall k | 0 <= k < |q| && q[k].channel == Eos
        ensures Before(now, q[k].trig)
      {
        assert k >= i;
        assert k == i || !Before(q[k].trig, q[i].trig);
      }
    }
  }

  /**
   The EOS entries went out in queue order and the other channels were left alone. No more
   than the buffer was filled; an entry was lost exactly if it was due and the bytes before
   it left no room, and then only that one; otherwise no EOS entry that is left was due.
   */
  ghost predicate DrainedFrom(q: seq<Entry>, d: Drained, size: nat, now: TimeVal)
  {
    && DataOf(q, Eos) == d.sent + (Lost(d) + DataOf(d.queue, Eos))
    && Others(d.queue, Eos) == Others(q, Eos) && Sorted(d.queue)
    && size + |Flatten(d.sent)| + 12 <= EVENT_BUFFER
    && (d.lost.Some? ==> size + |Flatten(d.sent)| + |d.lost.value| + 12 > EVENT_BUFFER)
    && (d.lost.None? ==> NoneDue(d.queue, Eos, now))
  }

  /** Every drain is such a drain. */
  lemma {:induction false} DrainTakesInOrder(q: seq<Entry>, clock: nat -> TimeVal, k: nat, size: nat)
    requires Sorted(q) && size + 12 <= EVENT_BUFFER
    ensures var d := Drain(q, clock, k, size); DrainedFrom(q, d, size, clock(k + |d.sent|))
    decreases |q|
  {
    hide *;
    var i := PopEosAt(q, clock(k));
    DrainStep(q, clock, k, size);
    if i >= |q| {
      NothingMeansNoneDue(q, clock(k));
      DrainsNothing(q, size, clock(k));
    } else {
      RemoveKeepsSorted(q, i);
      if size + |q[i].data| + 12 > EVENT_BUFFER {
        DrainLoses(q, size, clock(k));
      } else {
        DrainTakesInOrder(Remove(q, i), clock, k + 1, size + |q[i].data|);
        var r := Drain(Remove(q, i), clock, k + 1, size + |q[i].data|);
        DrainContinues(q, r, size, clock(k + 1 + |r.sent|));
      }
    }
  }

  lemma DrainsNothing(q: seq<Entry>, size: nat, now: TimeVal)
    requires Sorted(q) && size + 12 <= EVENT_BUFFER && NoneDue(q, Eos, now)
    ensures DrainedFrom(q, Drained([], None, q), size, now)
  {
    hide NoneDue, Sorted, Others;
    assert [] + ([] + DataOf(q, Eos)) == DataOf(q, Eos);
    assert |Flatten<byte>([])| == 0;
  }

  lemma DrainLoses(q: seq<Entry>, size: nat, now: TimeVal)
    requires var i := FirstOf(q, {Eos});
             i < |q| && Sorted(Remove(q, i)) && size + 12 <= EVENT_BUFFER < size + |q[i].data| + 12
    ensures var i := FirstOf(q, {Eos}); DrainedFrom(q, Drained([], Some(q[i].data), Remove(q, i)), size, now)
  {
    var i := FirstOf(q, {Eos});
    FirstInChannel(q, Eos);
    hide NoneDue, Sorted, Others, DataOf, Remove, FirstOf;
    assert [] + ([q[i].data] + DataOf(Remove(q, i), Eos)) == [q[i].data] + DataOf(Remove(q, i), Eos);
    assert |Flatten<byte>([])| == 0;
  }

  lemma DrainContinues(q: seq<Entry>, r: Drained, size: nat, now: TimeVal)
    requires var i := FirstOf(q, {Eos}); i < |q| && DrainedFrom(Remove(q, i), r, size + |q[i].data|, now)
    ensures var i := FirstOf(q, {Eos}); DrainedFrom(q, Drained([q[i].data] + r.sent, r.lost, r.queue), size, now)
  {
    var i := FirstOf(q, {Eos});
    var ev := q[i].data;
    FirstInChannel(q, Eos);
    hide NoneDue, Sorted, Others, DataOf, Remove, FirstOf;
    assert [ev] + (r.sent + (Lost(r) + DataOf(r.queue, Eos))) == [ev] + r.sent + (Lost(r) + DataOf(r.queue, Eos));
    FlattenAppend([ev], r.sent);
    assert Flatten([ev]) == ev;
  }

  lemma DrainStep(q: seq<Entry>, clock: nat -> TimeVal, k: nat, size: nat)
    ensures var i, d := PopEosAt(q, clock(k)), Drain(q, clock, k, size);
            && i <= |q|
            && (i == |q| ==> d == Drained([], None, q))
            && (i < |q| ==>
                  && i == FirstOf(q, {Eos})
                  && (size + |q[i].data| + 12 > EVENT_BUFFER ==> d == Drained([], Some(q[i].data), Remove(q, i)))
                  && (size + |q[i].data| + 12 <= EVENT_BUFFER ==>
                        var r := Drain(Remove(q, i), clock, k + 1, size + |q[i].data|);
                        d == Drained([q[i].data] + r.sent, r.lost, r.queue)))
  {
  }

  /** Everything the camera ever queues for EOS clients is an entry. */
  ghost predicate EosWellFormed(q: seq<Entry>)
  {
    forall d :: d in DataOf(q, Eos) ==> IsEntry(d)
  }

  /** The client's walk finds in an answer exactly the entries that were popped for it. */
  lemma AnswerWalksBack(q: seq<Entry>, clock: nat -> TimeVal)
    requires Sorted(q) && EosWellFormed(q)
    ensures var d := Drain(q, clock, 0, 0);
            && Walk(Flatten(d.sent) + END) == Some(d.sent)
            && d.sent <= DataOf(q, Eos)
            && 12 <= |Flatten(d.sent) + END| <= EVENT_BUFFER
            && EosWellFormed(d.queue)
  {
    hide IsEntry, Walk, Drain, DataOf, Lost, Others, Sorted, NoneDue, Flatten;
    var d := Drain(q, clock, 0, 0);
    DrainTakesInOrder(q, clock, 0, 0);
    PartsAreEntries(d.sent, Lost(d), DataOf(d.queue, Eos));
    WalkReadsBack(d.sent);
  }

  lemma PartsAreEntries(a: seq<seq<byte>>, b: seq<seq<byte>>, c: seq<seq<byte>>)
    requires forall d :: d in a + (b + c) ==> IsEntry(d)
    ensures (forall i :: 0 <= i < |a| ==> IsEntry(a[i])) && (forall d :: d in c ==> IsEntry(d)) && a <= a + (b + c)
  {
    hide IsEntry;
    assert forall d :: d in a || d in c ==> d in a + (b + c);
  }

  class EosChannel {
    const interrupts: InterruptList
    var firstEvents: bool

    constructor (interrupts: InterruptList)
      ensures this.interrupts == interrupts && !firstEvents
    {
      this.interrupts, firstEvents := interrupts, false;
    }

    /** SetRemoteMode and SetEventMode: the next GetEvent sends the dump. */
    method SetMode(params: seq<u32>) returns (r: Reply)
      modifies this
      ensures firstEvents == (old(firstEvents) || |params| == 1)
      ensures r == Just(if |params| == 1 then RC_OK else RC_GENERAL_ERROR)
    {
      if |params| != 1 {
        return Just(RC_GENERAL_ERROR);
      }
      firstEvents := true;
      r := Just(RC_OK);
    }

    /** GetEvent: refused with parameters; else the dump where a mode was set, or whatever is due. */
    method GetEvent(props: seq<Prop>, params: seq<u32>, clock: nat -> TimeVal) returns (r: Reply)
      requires TableOk(props) && interrupts.Valid()
      modifies this, interrupts, interrupts.nodes
      ensures interrupts.Valid()
      ensures firstEvents == (old(firstEvents) && params != [])
      ensures if params != [] then
                r == Just(RC_GENERAL_ERROR) && interrupts.View() == old(interrupts.View())
              else if old(firstEvents) then
                r == Reply(Some(DumpBytes(props)), RC_OK, []) && interrupts.View() == old(interrupts.View())
              else
                var d := Drain(old(interrupts.View()), clock, 0, 0);
                r == Reply(Some(Flatten(d.sent) + END), RC_OK, []) && interrupts.View() == d.queue
    {
      if |params| != 0 {
        return Just(RC_GENERAL_ERROR);
      }
      var data;
      if firstEvents {
        data := PackAllProps(props);
        firstEvents := false;
      } else {
        data := DrainEvents(interrupts, clock);
      }
      r := Reply(Some(data), RC_OK, []);
    }
  }

  method DrainEvents(interrupts: InterruptList, clock: nat -> TimeVal) returns (data: seq<byte>)
    requires interrupts.Valid()
    modifies interrupts, interrupts.nodes
    ensures interrupts.Valid()
    ensures var d := Drain(old(interrupts.View()), clock, 0, 0);
            data == Flatten(d.sent) + END && interrupts.View() == d.queue
  {
    hide InterruptList.Valid, InterruptList.View, END, Flatten, Remove, FirstOf, Drain, PopEosAt;
    var buffer: seq<byte>, k := [], 0;
    ghost var d := Drain(interrupts.View(), clock, 0, 0);
    ghost var sent: seq<seq<byte>>, rest := [], d;
    FlattenNone(sent);
    NothingBefore(rest.sent);
    while true
      invariant interrupts.Valid() && Among(interrupts.nodes, old(interrupts.nodes))
      invariant rest == Drain(interrupts.View(), clock, k, |buffer|)
      invariant d.sent == sent + rest.sent && d.queue == rest.queue && buffer == Flatten(sent)
      decreases |interrupts.View()|
    {
      ghost var q := interrupts.View();
      DrainStep(q, clock, k, |buffer|);
      var ev := interrupts.PopEosEvent(clock(k));
      if ev.None? || |buffer| + |ev.value.data| + 12 > EVENT_BUFFER {
        NothingBehind(sent);
        break;
      }
      rest := Drain(interrupts.View(), clock, k + 1, |buffer| + |ev.value.data|);
      FlattenSnoc(sent, ev.value.data);
      OneMoreSent(sent, ev.value.data, rest.sent);
      buffer, sent, k := buffer + ev.value.data, sent + [ev.value.data], k + 1;
    }
    data := buffer + END;
  }

  lemma NothingBefore(rest: seq<seq<byte>>)
    ensures [] + rest == rest
  {
  }

  lemma NothingBehind(sent: seq<seq<byte>>)
    ensures sent + [] == sent
  {
  }

  lemma OneMoreSent(sent: seq<seq<byte>>, e: seq<byte>, rest: seq<seq<byte>>)
    ensures sent + ([e] + rest) == sent + [e] + rest
  {
  }
}
