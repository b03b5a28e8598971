/**
 Nikon's polled events: GetEvent and GetEventEx drain the Nikon channel into counted
 records, at most 64 at a time (`src/nikon/ops.c`).
 */
module NikonEvents {
  import opened Bytes
  import opened Clock
  import opened EventQueue

  const MAX_EVENTS: nat := 64
  const CAPTURE_COMPLETE: u16 := 0x400D
  const CAPTURE_COMPLETE_IN_SDRAM: u16 := 0xC102

  /** An event as the pop hands it out. */
  datatype Event = Event(code: u16, value: u32)

  /** The 16 bytes that are queued: a PTP event container with one parameter. */
  function Notice(e: Event, tid: u32): (d: seq<byte>)
    ensures |d| == 16
  {
    Le32(16) + Le16(4) + Le16(e.code) + Le32(tid) + Le32(e.value)
  }

  function EventOf(d: seq<byte>): Event
    requires |d| >= 16
  {
    Event(Get16(d[6..]), Get32(d[12..]))
  }

  /** The pop reads back what was notified. */
  lemma NoticeReadsBack(e: Event, tid: u32)
    ensures EventOf(Notice(e, tid)) == e
  {
    hide Le32, Le16, Get32, Get16;
    var d := Notice(e, tid);
    Get16At(Le32(16) + Le16(4), e.code, Le32(tid) + Le32(e.value));
    assert d == Le32(16) + Le16(4) + Le16(e.code) + (Le32(tid) + Le32(e.value));
    Get32At(Le32(16) + Le16(4) + Le16(e.code) + Le32(tid), e.value, []);
    assert d == Le32(16) + Le16(4) + Le16(e.code) + Le32(tid) + Le32(e.value) + [];
  }

  /** Every field of the container stands where USB clients look for it. */
  lemma NoticeFields(e: Event, tid: u32)
    ensures var d := Notice(e, tid);
            && |d| == 16 == Get32(d) && Get16(d[4..]) == 4 && Get16(d[6..]) == e.code && Get32(d[8..]) == tid
            && Get32(d[12..]) == e.value
  {
    hide Le32, Le16, Get32, Get16;
    NoticeReadsBack(e, tid);
    EventFields(Notice(e, tid));
    var d := Notice(e, tid);
    Get32At([], 16, Le16(4) + Le16(e.code) + Le32(tid) + Le32(e.value));
    assert d == [] + Le32(16) + (Le16(4) + Le16(e.code) + Le32(tid) + Le32(e.value)) && d[0..] == d;
    Get16At(Le32(16), 4, Le16(e.code) + Le32(tid) + Le32(e.value));
    assert d == Le32(16) + Le16(4) + (Le16(e.code) + Le32(tid) + Le32(e.value));
    Get32At(Le32(16) + Le16(4) + Le16(e.code), tid, Le32(e.value));
    assert d == Le32(16) + Le16(4) + Le16(e.code) + Le32(tid) + Le32(e.value);
  }

  /** What the pop takes for the event. */
  lemma EventFields(d: seq<byte>)
    requires |d| >= 16
    ensures EventOf(d).code == Get16(d[6..]) && EventOf(d).value == Get32(d[12..])
  {
  }

  // ---- The drain --------------------------------------------------------------------------

  datatype Drained = Drained(sent: seq<seq<byte>>, queue: seq<Entry>)

  /** Pops until nothing is due or `room` events are out; pop number `k` reads `clock(k)`. */
  function Drain(q: seq<Entry>, clock: nat -> TimeVal, k: nat, room: nat): Drained
  {
    var i := PopNikonAt(q, clock(k));
    if room == 0 || i >= |q| then Drained([], q)
    else
      var r := Drain(Remove(q, i), clock, k + 1, room - 1);
      Drained([q[i].data] + r.sent, r.queue)
  }

  /**
   The Nikon entries went out in queue order, none of them is lost, and the other channels
   were left alone; short of a full answer, nothing that is left was due.
   */
  ghost predicate DrainedFrom(q: seq<Entry>, d: Drained, room: nat, now: TimeVal)
  {
    && DataOf(q, Nikon) == d.sent + DataOf(d.queue, Nikon)
    && Others(d.queue, Nikon) == Others(q, Nikon) && Sorted(d.queue)
    && |d.sent| <= room
    && (|d.sent| < room ==> NoneDue(d.queue, Nikon, now))
  }

  lemma {:induction false} DrainTakesInOrder(q: seq<Entry>, clock: nat -> TimeVal, k: nat, room: nat)
    requires Sorted(q)
    ensures var d := Drain(q, clock, k, room); DrainedFrom(q, d, room, clock(k + |d.sent|))
    decreases room
  {
    hide *;
    DrainStep(q, clock, k, room);
    var i := PopNikonAt(q, clock(k));
    if room == 0 || i >= |q| {
      NothingTaken(q, room, clock(k));
    } else {
      PopIsFirst(q, clock(k));
      RemoveKeepsSorted(q, i);
      DrainTakesInOrder(Remove(q, i), clock, k + 1, room - 1);
      var r := Drain(Remove(q, i), clock, k + 1, room - 1);
      OneTaken(q, r, room, clock(k + 1 + |r.sent|));
    }
  }

  lemma DrainStep(q: seq<Entry>, clock: nat -> TimeVal, k: nat, room: nat)
    ensures var i, d := PopNikonAt(q, clock(k)), Drain(q, clock, k, room);
            && i <= |q|
            && (room == 0 || i >= |q| ==> d == Drained([], q))
            && (room > 0 && i < |q| ==>
                  var r := Drain(Remove(q, i), clock, k + 1, room - 1);
                  d == Drained([q[i].data] + r.sent, r.queue))
  {
  }

  /** The first due entry is the first of its channel. */
  lemma PopIsFirst(q: seq<Entry>, now: TimeVal)
    requires Sorted(q) && PopNikonAt(q, now) < |q|
    ensures PopNikonAt(q, now) == FirstOf(q, {Nikon})
  {
    FirstOrNothing(q, {Nikon}, now);
    hide FirstOf, FirstDue, Sorted;
  }

  lemma NothingTaken(q: seq<Entry>, room: nat, now: TimeVal)
    requires Sorted(q) && (room == 0 || PopNikonAt(q, now) >= |q|)
    ensures DrainedFrom(q, Drained([], q), room, now)
  {
    FirstOrNothing(q, {Nikon}, now);
    hide FirstOf, FirstDue, Sorted, DataOf, Others;
    assert [] + DataOf(q, Nikon) == DataOf(q, Nikon);
  }

  lemma OneTaken(q: seq<Entry>, r: Drained, room: nat, now: TimeVal)
    requires room > 0 && FirstOf(q, {Nikon}) < |q| && DrainedFrom(Remove(q, FirstOf(q, {Nikon})), r, room - 1, now)
    ensures DrainedFrom(q, Drained([q[FirstOf(q, {Nikon})].data] + r.sent, r.queue), room, now)
  {
    hide NoneDue, Sorted, Others, DataOf, Remove, FirstOf;
    var ev := q[FirstOf(q, {Nikon})].data;
    FirstInChannel(q, Nikon);
    assert [ev] + (r.sent + DataOf(r.queue, Nikon)) == [ev] + r.sent + DataOf(r.queue, Nikon);
  }

  // ---- The records ------------------------------------------------------------------------

  /** Completion events carry no parameter in the extended form. */
  predicate Bare(code: u16)
  {
    code == CAPTURE_COMPLETE || code == CAPTURE_COMPLETE_IN_SDRAM
  }

  function Record(e: Event, ex: bool): (d: seq<byte>)
    ensures |d| >= 4
  {
    if !ex then Le16(e.code) + Le32(e.value)
    else if Bare(e.code) then Le16(e.code) + Le16(0)
    else Le16(e.code) + Le16(1) + Le32(e.value)
  }

  function Records(es: seq<Event>, ex: bool): seq<byte>
  {
    if es == [] then [] else Records(es[..|es| - 1], ex) + Record(es[|es| - 1], ex)
  }

  /** The bytes of a record, and of several. */
  lemma RecordFields(e: Event, ex: bool, es: seq<Event>)
    ensures var d := Record(e, ex);
            && Get16(d) == e.code
            && (!ex ==> |d| == 6 && Get32(d[2..]) == e.value)
            && (ex && e.code in {0x400D, 0xC102} ==> |d| == 4 && Get16(d[2..]) == 0)
            && (ex && e.code !in {0x400D, 0xC102} ==> |d| == 8 && Get16(d[2..]) == 1 && Get32(d[4..]) == e.value)
    ensures Records([], ex) == [] && Records(es + [e], ex) == Records(es, ex) + Record(e, ex)
  {
    assert (es + [e])[..|es|] == es;
    hide Le32, Le16, Get32, Get16, Records;
    var d := Record(e, ex);
    Get16At([], e.code, d[2..]);
    assert d == [] + Le16(e.code) + d[2..] && d[0..] == d;
    if !ex {
      Get32At(Le16(e.code), e.value, []);
      assert d == Le16(e.code) + Le32(e.value) + [];
    } else if Bare(e.code) {
      Get16At(Le16(e.code), 0, []);
      assert d == Le16(e.code) + Le16(0) + [];
    } else {
      Get16At(Le16(e.code), 1, Le32(e.value));
      assert d == Le16(e.code) + Le16(1) + Le32(e.value);
      Get32At(Le16(e.code) + Le16(1), e.value, []);
      assert d == Le16(e.code) + Le16(1) + Le32(e.value) + [];
    }
  }

  /** The answer: the number of events first, then, in the extended form, two bytes never set. */
  lemma AnswerFields(es: seq<Event>, ex: bool, pad: u16)
    requires |es| <= 0xffff
    ensures var d := Answer(es, ex, pad);
            |d| >= 2 && Get16(d) == |es| && d[if ex then 4 else 2..] == Records(es, ex) && |d| == (if ex then 4 else 2) + |Records(es, ex)|
  {
    hide Le16, Get16, Records;
    var d := Answer(es, ex, pad);
    var head := if ex then Le16(pad) else [];
    Get16At([], |es|, head + Records(es, ex));
    assert d == [] + Le16(|es|) + (head + Records(es, ex)) && d[0..] == d;
  }

  /** The answer; the two padding bytes of the extended form are never written. */
  function Answer(es: seq<Event>, ex: bool, pad: u16): seq<byte>
  {
    Le16(|es| % 0x1_0000) + (if ex then Le16(pad) else []) + Records(es, ex)
  }

  /** A client's reader, record by record; a record without a parameter reads as value 0. */
  function ReadRecords(d: seq<byte>, n: nat, ex: bool): Option<seq<Event>>
  {
    if n == 0 then Some([])
    else if |d| < 4 then None
    else
      var params := if ex then Get16(d[2..]) else 1;
      var at := if ex then 4 else 2;
      if |d| < at + 4 * params then None
      else
        var e := Event(Get16(d), if params == 0 then 0 else Get32(d[at..]));
        match ReadRecords(d[at + 4 * params..], n - 1, ex)
        case None => None
        case Some(es) => Some([e] + es)
  }

  function Read(d: seq<byte>, ex: bool): Option<seq<Event>>
  {
    var at := if ex then 4 else 2;
    if |d| < at then None else ReadRecords(d[at..], Get16(d), ex)
  }

  /** What survives of an event. */
  function Kept(e: Event, ex: bool): Event
  {
    if ex && Bare(e.code) then Event(e.code, 0) else e
  }

  function KeptAll(es: seq<Event>, ex: bool): (ks: seq<Event>)
    ensures |ks| == |es| && forall i :: 0 <= i < |es| ==> ks[i] == Kept(es[i], ex)
  {
    seq(|es|, i requires 0 <= i < |es| => Kept(es[i], ex))
  }

  lemma FirstRecord(e: Event, ex: bool, rest: seq<byte>, n: nat)
    ensures ReadRecords(Record(e, ex) + rest, n + 1, ex) ==
            match ReadRecords(rest, n, ex)
            case None => None
            case Some(es) => Some([Kept(e, ex)] + es)
  {
    hide Le32, Le16, Get32, Get16;
    var d := Record(e, ex) + rest;
    if !ex {
      assert d == [] + Le16(e.code) + (Le32(e.value) + rest) == Le16(e.code) + Le32(e.value) + rest;
      Get16At([], e.code, Le32(e.value) + rest);
      Get32At(Le16(e.code), e.value, rest);
      assert d[0..] == d && d[6..] == rest;
    } else if Bare(e.code) {
      assert d == [] + Le16(e.code) + (Le16(0) + rest) == Le16(e.code) + Le16(0) + rest;
      Get16At([], e.code, Le16(0) + rest);
      Get16At(Le16(e.code), 0, rest);
      assert d[0..] == d && d[4..] == rest;
    } else {
      assert d == [] + Le16(e.code) + (Le16(1) + Le32(e.value) + rest) == Le16(e.code) + Le16(1) + (Le32(e.value) + rest);
      assert d == Le16(e.code) + Le16(1) + Le32(e.value) + rest;
      Get16At([], e.code, Le16(1) + Le32(e.value) + rest);
      Get16At(Le16(e.code), 1, Le32(e.value) + rest);
      Get32At(Le16(e.code) + Le16(1), e.value, rest);
      assert d[0..] == d && d[8..] == rest;
    }
  }

  lemma {:induction false} RecordsFirst(es: seq<Event>, ex: bool)
    requires es != []
    ensures Records(es, ex) == Record(es[0], ex) + Records(es[1..], ex)
    decreases |es|
  {
    hide Record;
    var n := |es| - 1;
    if n == 0 {
      assert es[..0] == [] && es[1..] == [];
    } else {
      RecordsFirst(es[..n], ex);
      assert es[..n][1..] == es[1..][..n - 1] && es[1..][n - 1] == es[n];
    }
  }

  lemma {:induction false} RecordsReadBack(es: seq<Event>, ex: bool)
    ensures ReadRecords(Records(es, ex), |es|, ex) == Some(KeptAll(es, ex))
    decreases |es|
  {
    hide Record, Records, Kept;
    if es == [] {
      assert KeptAll(es, ex) == [];
    } else {
      RecordsFirst(es, ex);
      RecordsReadBack(es[1..], ex);
      FirstRecord(es[0], ex, Records(es[1..], ex), |es| - 1);
      assert KeptAll(es, ex) == [Kept(es[0], ex)] + KeptAll(es[1..], ex);
    }
  }

  lemma ReadsBack(es: seq<Event>, ex: bool, pad: u16)
    requires |es| <= MAX_EVENTS
    ensures Read(Answer(es, ex, pad), ex) == Some(KeptAll(es, ex))
  {
    hide Le16, Get16, Records, ReadRecords, Bare;
    var d := Answer(es, ex, pad);
    var head := if ex then Le16(pad) else [];
    Get16At([], |es|, head + Records(es, ex));
    assert d == [] + Le16(|es|) + (head + Records(es, ex)) && d[0..] == d;
    assert d[if ex then 4 else 2..] == Records(es, ex);
    RecordsReadBack(es, ex);
  }

  lemma KeptIs(e: Event, ex: bool)
    ensures Kept(e, ex) == e <==> !(ex && e.code in {0x400D, 0xC102}) || e.value == 0
  {
  }

  /**
   Clients read back the events that were popped. The extended form drops the value of the
   completion events, so there it is exact exactly if those carry none.
   */
  lemma AnswerReadsBackIff(es: seq<Event>, ex: bool, pad: u16)
    requires |es| <= MAX_EVENTS
    ensures Read(Answer(es, ex, pad), ex).Some?
    ensures Read(Answer(es, ex, pad), ex) == Some(es) <==>
            forall i :: 0 <= i < |es| && ex && es[i].code in {0x400D, 0xC102} ==> es[i].value == 0
  {
    ReadsBack(es, ex, pad);
    hide Read, Answer, Kept;
    forall i | 0 <= i < |es|
      ensures KeptAll(es, ex)[i] == es[i] <==> !(ex && es[i].code in {0x400D, 0xC102}) || es[i].value == 0
    {
      KeptIs(es[i], ex);
    }
    if forall i :: 0 <= i < |es| && ex && es[i].code in {0x400D, 0xC102} ==> es[i].value == 0 {
      assert KeptAll(es, ex) == es;
    }
  }

  lemma {:induction false} RecordsFit(es: seq<Event>, ex: bool)
    ensures |Records(es, ex)| <= |es| * if ex then 8 else 6
  {
    if es == [] {
    } else {
      RecordsFit(es[..|es| - 1], ex);
    }
  }

  // ---- The loop ---------------------------------------------------------------------------

  function EventsOf(ds: seq<seq<byte>>): (es: seq<Event>)
    requires forall i :: 0 <= i < |ds| ==> |ds[i]| >= 16
    ensures |es| == |ds| && forall i :: 0 <= i < |ds| ==> es[i] == EventOf(ds[i])
  {
    seq(|ds|, i requires 0 <= i < |ds| => EventOf(ds[i]))
  }

  /** Every Nikon entry is an event container. */
  ghost predicate NikonWellFormed(q: seq<Entry>)
  {
    forall k :: 0 <= k < |q| && q[k].channel == Nikon ==> |q[k].data| >= 16
  }

  lemma {:induction false} DrainedAreNotices(q: seq<Entry>, clock: nat -> TimeVal, k: nat, room: nat)
    requires NikonWellFormed(q)
    ensures forall i :: 0 <= i < |Drain(q, clock, k, room).sent| ==> |Drain(q, clock, k, room).sent[i]| >= 16
    decreases room
  {
    DrainStep(q, clock, k, room);
    var i := PopNikonAt(q, clock(k));
    hide Drain, FirstDue, Remove;
    if room > 0 && i < |q| {
      StillWellFormed(q, i);
      DrainedAreNotices(Remove(q, i), clock, k + 1, room - 1);
    }
  }

  lemma StillWellFormed(q: seq<Entry>, i: nat)
    requires NikonWellFormed(q) && i < |q|
    ensures NikonWellFormed(Remove(q, i))
  {
    var r := Remove(q, i);
    assert forall k :: 0 <= k < |r| ==> r[k] == if k < i then q[k] else q[k + 1];
  }

  /** Where the records start, and the size the program allocates for an answer. */
  function HeadSize(ex: bool): nat
  {
    if ex then 4 else 2
  }

  function AnswerRoom(ex: bool): nat
  {
    HeadSize(ex) + MAX_EVENTS * if ex then 8 else 6
  }

  /** One record behind what is filled. */
  method PutRecord(data: array<byte>, x: nat, e: Event, ex: bool) returns (next: nat)
    requires x + (if ex then 8 else 6) <= data.Length
    modifies data
    ensures next <= data.Length && data[..next] == old(data[..x]) + Record(e, ex)
  {
    hide Le16, Le32;
    ghost var was := data[..x];
    next := Put16(data, x, e.code);
    if ex {
      var nparam: u16 := if e.code == CAPTURE_COMPLETE || e.code == CAPTURE_COMPLETE_IN_SDRAM then 0 else 1;
      next := Put16(data, next, nparam);
      if nparam != 0 {
        next := Put32(data, next, e.value);
        assert was + Le16(e.code) + Le16(1) + Le32(e.value) == was + Record(e, ex);
      } else {
        assert was + Le16(e.code) + Le16(0) == was + Record(e, ex);
      }
    } else {
      next := Put32(data, next, e.value);
      assert was + Le16(e.code) + Le32(e.value) == was + Record(e, ex);
    }
  }

  lemma RoomForOne(es: seq<Event>, ex: bool, x: nat)
    requires x == HeadSize(ex) + |Records(es, ex)| && |es| < MAX_EVENTS
    ensures x + (if ex then 8 else 6) <= AnswerRoom(ex)
  {
    RecordsFit(es, ex);
  }

  /** The count goes to the front last; what stands between it and the records stays. */
  lemma CountInFront(buf: seq<byte>, x: nat, n: nat, head: seq<byte>, es: seq<Event>, ex: bool)
    requires n == |es| <= MAX_EVENTS && HeadSize(ex) <= x <= |buf| && head == buf[..HeadSize(ex)]
    requires buf[..x] == head + Records(es, ex)
    ensures Written(buf, 0, Le16(n))[..x] == Answer(es, ex, if ex then Get16(head[2..]) else 0)
  {
    hide Records;
    assert buf[..x][2..] == head[2..] + Records(es, ex);
    assert Written(buf, 0, Le16(n))[..x] == Le16(n) + buf[..x][2..];
    if ex {
      assert head[2..] == Le16(Get16(head[2..]));
    } else {
      assert head[2..] == [];
      assert Le16(n) + ([] + Records(es, ex)) == Le16(n) + [] + Records(es, ex);
    }
    assert Le16(n) + (head[2..] + Records(es, ex)) == Le16(n) + head[2..] + Records(es, ex);
  }

  /** nikon_pop_events: the whole answer, in a buffer of the program's size. */
  method PopEvents(interrupts: InterruptList, clock: nat -> TimeVal, ex: bool, data: array<byte>) returns (x: nat)
    requires interrupts.Valid() && NikonWellFormed(interrupts.View()) && data.Length == AnswerRoom(ex)
    modifies interrupts, interrupts.nodes, data
    ensures interrupts.Valid()
    ensures var d := Drain(old(interrupts.View()), clock, 0, 64);
            && interrupts.View() == d.queue && x <= data.Length
            && (forall i :: 0 <= i < |d.sent| ==> |d.sent[i]| >= 16)
            && data[..x] == Answer(EventsOf(d.sent), ex, if ex then Get16(old(data[..])[2..]) else 0)
  {
    hide InterruptList.Valid, InterruptList.View, Drain, Records, Record, EventOf, NikonWellFormed, FirstDue, Remove,
         Answer, Get16, Le16, Written;
    x := if ex then 4 else 2;
    var n: nat := 0;
    ghost var head := data[..x];
    HeadOf(data[..], x);
    ghost var d := Drain(interrupts.View(), clock, 0, MAX_EVENTS);
    DrainedAreNotices(interrupts.View(), clock, 0, MAX_EVENTS);
    NoRecords(d.sent, ex, head);
    while n < MAX_EVENTS
      invariant n <= MAX_EVENTS && n <= |d.sent|
      invariant interrupts.Valid() && Among(interrupts.nodes, old(interrupts.nodes))
      invariant NikonWellFormed(interrupts.View())
      invariant var r := Drain(interrupts.View(), clock, n, MAX_EVENTS - n); d.sent[n..] == r.sent && d.queue == r.queue
      invariant x <= data.Length && data[..x] == head + Records(EventsOf(d.sent[..n]), ex)
    {
      ghost var q := interrupts.View();
      DrainStep(q, clock, n, MAX_EVENTS - n);
      var ev := interrupts.PopNikonEvent(clock(n));
      if ev.None? {
        break;
      }
      StillWellFormed(q, PopNikonAt(q, clock(n)));
      OneMoreRecord(d.sent, n, ev.value.data, ex, head);
      RoomForOne(EventsOf(d.sent[..n]), ex, x);
      x := PutRecord(data, x, EventOf(ev.value.data), ex);
      n := n + 1;
    }
    DrainStep(interrupts.View(), clock, n, MAX_EVENTS - n);
    assert d.sent[..n] == d.sent;
    FrontOf(data[..], x, head, Records(EventsOf(d.sent), ex));
    CountInFront(data[..], x, n, head, EventsOf(d.sent), ex);
    var _ := PutU16(data, 0, n);
  }

  lemma HeadOf(buf: seq<byte>, x: nat)
    requires x <= |buf|
    ensures x == 4 ==> buf[..x][2..] == buf[2..][..2] && Get16(buf[..x][2..]) == Get16(buf[2..])
  {
  }

  lemma FrontOf(buf: seq<byte>, x: nat, head: seq<byte>, rest: seq<byte>)
    requires x <= |buf| && buf[..x] == head + rest
    ensures |head| <= x && buf[..|head|] == head
  {
    assert buf[..x][..|head|] == head;
  }

  lemma NoRecords(ds: seq<seq<byte>>, ex: bool, head: seq<byte>)
    requires forall i :: 0 <= i < |ds| ==> |ds[i]| >= 16
    ensures head + Records(EventsOf(ds[..0]), ex) == head
    ensures ds[0..] == ds
  {
  }

  lemma OneMoreRecord(ds: seq<seq<byte>>, n: nat, data: seq<byte>, ex: bool, head: seq<byte>)
    requires forall i :: 0 <= i < |ds| ==> |ds[i]| >= 16
    requires n < |ds| && ds[n..][0] == data
    ensures |data| >= 16
    ensures head + Records(EventsOf(ds[..n + 1]), ex) == head + Records(EventsOf(ds[..n]), ex) + Record(EventOf(data), ex)
    ensures ds[n..][1..] == ds[n + 1..]
  {
    hide Record, EventOf;
    assert EventsOf(ds[..n + 1])[..n] == EventsOf(ds[..n]);
  }
}
