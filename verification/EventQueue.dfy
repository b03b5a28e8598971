/**
 The camera's one list of timed events, sorted by trigger time and shared by three
 client-facing channels and four consumers (`src/vcamera.c`).
 */
module EventQueue {
  import opened Bytes
  import opened Clock

  datatype Channel = Classic | Eos | Nikon

  datatype Entry = Entry(trig: TimeVal, channel: Channel, data: seq<byte>)

  // ---- The list as a value -------------------------------------------------------------

  ghost predicate Sorted(q: seq<Entry>)
  {
    forall i, j :: 0 <= i < j < |q| ==> !Before(q[j].trig, q[i].trig)
  }

  /** Where a new entry goes: in front of the first that does not trigger earlier. */
  function InsertAt(q: seq<Entry>, trig: TimeVal): (i: nat)
    ensures i <= |q|
    ensures forall k :: 0 <= k < i ==> Before(q[k].trig, trig)
    ensures i < |q| ==> !Before(q[i].trig, trig)
  {
    if q == [] || !Before(q[0].trig, trig) then 0 else 1 + InsertAt(q[1..], trig)
  }

  function Insert(q: seq<Entry>, e: Entry): seq<Entry>
  {
    var i := InsertAt(q, e.trig);
    q[..i] + [e] + q[i..]
  }

  function Remove(q: seq<Entry>, i: nat): (r: seq<Entry>)
    requires i < |q|
    ensures |r| == |q| - 1
  {
    q[..i] + q[i + 1..]
  }

  /** The first entry of one of the channels; the length of the list when there is none. */
  function FirstOf(q: seq<Entry>, cs: set<Channel>): (i: nat)
    ensures i <= |q|
    ensures forall k :: 0 <= k < i ==> q[k].channel !in cs
    ensures i < |q| ==> q[i].channel in cs
  {
    if q == [] || q[0].channel in cs then 0 else 1 + FirstOf(q[1..], cs)
  }

  /** The first entry of one of the channels that is due. */
  function FirstDue(q: seq<Entry>, cs: set<Channel>, now: TimeVal): (i: nat)
    ensures i <= |q|
    ensures forall k :: 0 <= k < i ==> !(q[k].channel in cs && !Before(now, q[k].trig))
    ensures i < |q| ==> q[i].channel in cs && !Before(now, q[i].trig)
  {
    if q == [] || (q[0].channel in cs && !Before(now, q[0].trig)) then 0 else 1 + FirstDue(q[1..], cs, now)
  }

  lemma InsertKeepsSorted(q: seq<Entry>, e: Entry)
    requires Sorted(q)
    ensures Sorted(Insert(q, e))
  {
    hide InsertAt;
    var i, r := InsertAt(q, e.trig), Insert(q, e);
    assert forall k :: i < k < |r| ==> r[k] == q[k - 1];
  }

  lemma RemoveKeepsSorted(q: seq<Entry>, i: nat)
    requires Sorted(q) && i < |q|
    ensures Sorted(Remove(q, i))
  {
    var r := Remove(q, i);
    assert forall k :: 0 <= k < |r| ==> r[k] == if k < i then q[k] else q[k + 1];
  }

  /** A new entry goes behind exactly those that trigger before it: in front of its equals. */
  lemma TiesAreNewestFirst(q: seq<Entry>, e: Entry, k: nat)
    requires Sorted(q) && k < |q|
    ensures k < InsertAt(q, e.trig) <==> Before(q[k].trig, e.trig)
  {
    hide InsertAt;
    var i := InsertAt(q, e.trig);
    if i <= k {
      NoEarlier(q, i, k);
      NotLater(e.trig, q[i].trig, q[k].trig);
    }
  }

  lemma NoEarlier(q: seq<Entry>, i: nat, k: nat)
    requires Sorted(q) && i <= k < |q|
    ensures !Before(q[k].trig, q[i].trig)
  {
  }

  lemma NotLater(a: TimeVal, b: TimeVal, c: TimeVal)
    requires !Before(b, a) && !Before(c, b)
    ensures !Before(c, a)
  {
  }

  /**
   What the sort order buys: if the first entry of the channels is not due then none is,
   so the due-search finds the first entry of its channels or nothing.
   */
  lemma FirstOrNothing(q: seq<Entry>, cs: set<Channel>, now: TimeVal)
    requires Sorted(q)
    ensures var i := FirstOf(q, cs);
            if i < |q| && !Before(now, q[i].trig) then
              FirstDue(q, cs, now) == i
            else
              FirstDue(q, cs, now) == |q|
    ensures FirstDue(q, cs, now) == |q| <==>
            forall k :: 0 <= k < |q| && q[k].channel in cs ==> Before(now, q[k].trig)
  {
    var i, d := FirstOf(q, cs), FirstDue(q, cs, now);
    assert i < d < |q| ==> !Before(q[d].trig, q[i].trig);
  }

  /** The data of one channel's entries, in queue order. */
  function DataOf(q: seq<Entry>, c: Channel): seq<seq<byte>>
  {
    if q == [] then [] else (if q[0].channel == c then [q[0].data] else []) + DataOf(q[1..], c)
  }

  function Others(q: seq<Entry>, c: Channel): seq<Entry>
  {
    if q == [] then [] else (if q[0].channel != c then [q[0]] else []) + Others(q[1..], c)
  }

  /** Taking the first entry of a channel takes its first data and leaves the other channels. */
  lemma {:induction false} FirstInChannel(q: seq<Entry>, c: Channel)
    requires FirstOf(q, {c}) < |q|
    ensures var i := FirstOf(q, {c});
            && DataOf(q, c) == [q[i].data] + DataOf(Remove(q, i), c)
            && Others(Remove(q, i), c) == Others(q, c)
  {
    var i := FirstOf(q, {c});
    if q[0].channel == c {
      assert Remove(q, 0) == q[1..];
    } else {
      FirstInChannel(q[1..], c);
      RemoveBehindHead(q, i);
      TailInChannel(q, c);
      TailInChannel(Remove(q, i), c);
      hide DataOf, Others, Remove;
    }
  }

  lemma RemoveBehindHead(q: seq<Entry>, i: nat)
    requires 0 < i < |q|
    ensures Remove(q, i)[0] == q[0] && Remove(q, i)[1..] == Remove(q[1..], i - 1)
  {
  }

  lemma TailInChannel(q: seq<Entry>, c: Channel)
    requires q != [] && q[0].channel != c
    ensures DataOf(q, c) == DataOf(q[1..], c) && Others(q, c) == [q[0]] + Others(q[1..], c)
  {
    assert [] + DataOf(q[1..], c) == DataOf(q[1..], c);
  }

  /** No entry of the channel is due. */
  ghost predicate NoneDue(q: seq<Entry>, c: Channel, now: TimeVal)
  {
    forall k :: 0 <= k < |q| && q[k].channel == c ==> Before(now, q[k].trig)
  }

  // ---- The four consumers --------------------------------------------------------------

  /** Fuji's event opcodes: the first classic entry, due or not. */
  function PopClassicAt(q: seq<Entry>): nat
  {
    FirstOf(q, {Classic})
  }

  /** EOS GetEvent: the first EOS entry, provided it is due. */
  function PopEosAt(q: seq<Entry>, now: TimeVal): nat
  {
    var i := FirstOf(q, {Eos});
    if i < |q| && Before(now, q[i].trig) then |q| else i
  }

  /** Nikon GetEvent: the first due Nikon entry. */
  function PopNikonAt(q: seq<Entry>, now: TimeVal): nat
  {
    FirstDue(q, {Nikon}, now)
  }

  /**
   The USB interrupt endpoint: the first due classic or Nikon entry, then tested again
   against a second clock reading plus the caller's timeout.
   */
  function ReadIntAt(q: seq<Entry>, now: TimeVal, later: TimeVal, timeout: nat): nat
  {
    var i := FirstDue(q, {Classic, Nikon}, now);
    if i < |q| && Before(AddMs(later, timeout), q[i].trig) then |q| else i
  }

  /** The second test never fails: `timeout` has no effect, an event is served iff one is due. */
  lemma TimeoutIsIdle(q: seq<Entry>, now: TimeVal, later: TimeVal, timeout: nat)
    requires Sorted(q) && Reading(now) && Reading(later) && !Before(later, now)
    ensures ReadIntAt(q, now, later, timeout) == FirstDue(q, {Classic, Nikon}, now)
    ensures ReadIntAt(q, now, later, timeout) < |q| <==>
            exists k :: 0 <= k < |q| && q[k].channel in {Classic, Nikon} && !Before(now, q[k].trig)
  {
    AddMsIsExact(later, timeout);
    FirstOrNothing(q, {Classic, Nikon}, now);
  }

  // ---- Whole runs ----------------------------------------------------------------------

  datatype Consumer = ClassicPop | EosPop | NikonPop | Interrupt

  datatype Op =
    | Inject(now: TimeVal, ms: nat, channel: Channel, data: seq<byte>)
    | PopClassic(now: TimeVal)
    | PopEos(now: TimeVal)
    | PopNikon(now: TimeVal)
    | ReadInt(now: TimeVal, later: TimeVal, timeout: nat)

  datatype Delivery = Delivery(entry: Entry, via: Consumer, at: TimeVal)

  datatype History = History(queue: seq<Entry>, clock: TimeVal, injected: seq<Entry>, delivered: seq<Delivery>)

  function Injected(op: Op): Entry
    requires op.Inject?
  {
    Entry(AddMs(op.now, op.ms), op.channel, op.data)
  }

  /** The position an operation takes an entry from; the length of the list for none. */
  function TakenAt(q: seq<Entry>, op: Op): (i: nat)
    ensures i <= |q|
  {
    match op
    case Inject(_, _, _, _) => |q|
    case PopClassic(_) => PopClassicAt(q)
    case PopEos(now) => PopEosAt(q, now)
    case PopNikon(now) => PopNikonAt(q, now)
    case ReadInt(now, later, timeout) => ReadIntAt(q, now, later, timeout)
  }

  function By(op: Op): Consumer
    requires !op.Inject?
  {
    match op
    case PopClassic(_) => ClassicPop
    case PopEos(_) => EosPop
    case PopNikon(_) => NikonPop
    case ReadInt(_, _, _) => Interrupt
  }

  /** The clock's readings never go back. */
  predicate InTime(clock: TimeVal, op: Op)
  {
    Reading(op.now) && !Before(op.now, clock)
    && (op.ReadInt? ==> Reading(op.later) && !Before(op.later, op.now))
  }

  function Step(h: History, op: Op): History
  {
    var clock := if op.ReadInt? then op.later else op.now;
    if op.Inject? then
      h.(queue := Insert(h.queue, Injected(op)), clock := clock, injected := h.injected + [Injected(op)])
    else
      var i := TakenAt(h.queue, op);
      if i == |h.queue| then
        h.(clock := clock)
      else
        h.(queue := Remove(h.queue, i), clock := clock, delivered := h.delivered + [Delivery(h.queue[i], By(op), op.now)])
  }

  /** Runs from the empty list; None once the clock has gone back. */
  function Run(start: TimeVal, ops: seq<Op>): Option<History>
  {
    if ops == [] then
      Some(History([], start, [], []))
    else
      match Run(start, ops[..|ops| - 1])
      case None => None
      case Some(h) => if InTime(h.clock, ops[|ops| - 1]) then Some(Step(h, ops[|ops| - 1])) else None
  }

  function Entries(ds: seq<Delivery>): (es: seq<Entry>)
    ensures |es| == |ds| && forall i :: 0 <= i < |ds| ==> es[i] == ds[i].entry
  {
    if ds == [] then [] else Entries(ds[..|ds| - 1]) + [ds[|ds| - 1].entry]
  }

  /** Every injected entry is queued or was delivered, once. */
  ghost predicate Conserved(h: History)
  {
    multiset(h.injected) == multiset(h.queue) + multiset(Entries(h.delivered))
  }

  /** No consumer is ever given another channel's entry. */
  ghost predicate Separated(h: History)
  {
    forall d :: d in h.delivered ==>
                  match d.via
                  case ClassicPop => d.entry.channel == Classic
                  case EosPop => d.entry.channel == Eos
                  case NikonPop => d.entry.channel == Nikon
                  case Interrupt => d.entry.channel != Eos
  }

  /** Every delivery of the channel respected the trigger time. */
  ghost predicate Punctual(h: History, c: Channel)
  {
    forall d :: d in h.delivered && d.entry.channel == c ==> !Before(d.at, d.entry.trig)
  }

  /** What was delivered of a channel was due, and came no later than what is still queued. */
  ghost predicate InOrder(h: History, c: Channel)
  {
    && (forall i, j :: 0 <= i < j < |h.delivered| && h.delivered[i].entry.channel == c == h.delivered[j].entry.channel ==>
          !Before(h.delivered[j].entry.trig, h.delivered[i].entry.trig))
    && (forall d, e :: d in h.delivered && e in h.queue && d.entry.channel == c == e.channel ==>
          !Before(e.trig, d.entry.trig))
    && (forall d :: d in h.delivered && d.entry.channel == c ==> !Before(h.clock, d.entry.trig))
  }

  ghost predicate Inv(h: History)
  {
    && Sorted(h.queue)
    && Reading(h.clock)
    && Conserved(h)
    && Separated(h)
    && (forall d :: d in h.delivered && d.via != ClassicPop ==> !Before(d.at, d.entry.trig))
    && forall c :: Punctual(h, c) ==> InOrder(h, c)
  }

  /**
   Over every run with a clock that does not go back: the list stays sorted, nothing is
   lost or duplicated, no entry leaves on another channel, and every channel whose entries
   were delivered when due was delivered in trigger order over the whole run. Only the
   classic pop can deliver an entry before it is due.
   */
  lemma {:induction false} RunKeepsOrder(start: TimeVal, ops: seq<Op>)
    requires Reading(start) && Run(start, ops).Some?
    ensures Inv(Run(start, ops).value)
  {
    if ops == [] {
      assert Conserved(Run(start, ops).value);
    } else {
      var n := |ops| - 1;
      RunKeepsOrder(start, ops[..n]);
      StepKeepsOrder(Run(start, ops[..n]).value, ops[n]);
    }
  }

  lemma StepKeepsOrder(h: History, op: Op)
    requires Inv(h) && InTime(h.clock, op)
    ensures Inv(Step(h, op))
  {
    hide Conserved, Separated, Sorted, Punctual, InOrder, Step, TakenAt;
    StepConserves(h, op);
    StepSeparates(h, op);
    forall c | Punctual(Step(h, op), c)
      ensures InOrder(Step(h, op), c)
    {
      PunctualBefore(h, op, c);
      StepKeepsChannel(h, op, c);
    }
    StepKeepsSorted(h, op);
    StepIsDue(h, op);
  }

  lemma StepKeepsSorted(h: History, op: Op)
    requires Sorted(h.queue) && InTime(h.clock, op)
    ensures Sorted(Step(h, op).queue) && Reading(Step(h, op).clock)
  {
    hide Sorted, TakenAt, Insert, Remove;
    if op.Inject? {
      InsertKeepsSorted(h.queue, Injected(op));
    } else if TakenAt(h.queue, op) < |h.queue| {
      RemoveKeepsSorted(h.queue, TakenAt(h.queue, op));
    }
  }

  /** Only the classic pop hands out what is not due. */
  lemma StepIsDue(h: History, op: Op)
    requires Sorted(h.queue) && InTime(h.clock, op)
    requires forall d :: d in h.delivered && d.via != ClassicPop ==> !Before(d.at, d.entry.trig)
    ensures forall d :: d in Step(h, op).delivered && d.via != ClassicPop ==> !Before(d.at, d.entry.trig)
  {
    hide Sorted, TakenAt, Insert, Remove;
    if !op.Inject? && TakenAt(h.queue, op) < |h.queue| {
      TakenIsFirst(h.queue, op);
    }
  }

  lemma StepConserves(h: History, op: Op)
    requires Conserved(h)
    ensures Conserved(Step(h, op))
  {
    hide Insert, Remove, TakenAt, Injected, Entries;
    if op.Inject? {
      InsertCounts(h.queue, Injected(op));
      OneMoreCounts(h.injected, Injected(op));
    } else if TakenAt(h.queue, op) < |h.queue| {
      var i := TakenAt(h.queue, op);
      CountRemove(h.queue, i);
      EntriesSnoc(h.delivered, Delivery(h.queue[i], By(op), op.now));
      OneMoreCounts(Entries(h.delivered), h.queue[i]);
      MovedOver(multiset(Remove(h.queue, i)), multiset{h.queue[i]}, multiset(Entries(h.delivered)));
    } else {
    }
  }

  lemma InsertCounts(q: seq<Entry>, e: Entry)
    ensures multiset(Insert(q, e)) == multiset(q) + multiset{e}
  {
    hide InsertAt;
    CountInsert(q, InsertAt(q, e.trig), e);
  }

  lemma OneMoreCounts(es: seq<Entry>, e: Entry)
    ensures multiset(es + [e]) == multiset(es) + multiset{e}
    ensures forall q: multiset<Entry>, d: multiset<Entry> ::
              multiset(es) == q + d ==> multiset(es) + multiset{e} == q + multiset{e} + d
  {
  }

  lemma MovedOver(a: multiset<Entry>, b: multiset<Entry>, c: multiset<Entry>)
    ensures a + b + c == a + (c + b)
  {
  }

  lemma CountInsert(q: seq<Entry>, i: nat, e: Entry)
    requires i <= |q|
    ensures multiset(q[..i] + [e] + q[i..]) == multiset(q) + multiset{e}
  {
    assert q == q[..i] + q[i..];
  }

  lemma CountRemove(q: seq<Entry>, i: nat)
    requires i < |q|
    ensures multiset(q) == multiset(Remove(q, i)) + multiset{q[i]}
  {
    assert q == q[..i] + [q[i]] + q[i + 1..];
  }

  lemma EntriesSnoc(ds: seq<Delivery>, d: Delivery)
    ensures Entries(ds + [d]) == Entries(ds) + [d.entry]
  {
    assert (ds + [d])[..|ds|] == ds;
  }

  lemma StepSeparates(h: History, op: Op)
    requires Separated(h)
    ensures Separated(Step(h, op))
  {
  }

  lemma PunctualBefore(h: History, op: Op, c: Channel)
    requires Punctual(Step(h, op), c)
    ensures Punctual(h, c)
    ensures !op.Inject? && TakenAt(h.queue, op) < |h.queue| && h.queue[TakenAt(h.queue, op)].channel == c ==>
              !Before(op.now, h.queue[TakenAt(h.queue, op)].trig)
  {
    var h' := Step(h, op);
    assert forall d :: d in h.delivered ==> d in h'.delivered;
    if !op.Inject? && TakenAt(h.queue, op) < |h.queue| {
      assert h'.delivered[|h.delivered|] in h'.delivered;
    }
  }

  lemma StepKeepsChannel(h: History, op: Op, c: Channel)
    requires Sorted(h.queue) && Reading(h.clock) && InOrder(h, c) && InTime(h.clock, op)
    requires !op.Inject? && TakenAt(h.queue, op) < |h.queue| && h.queue[TakenAt(h.queue, op)].channel == c ==>
               !Before(op.now, h.queue[TakenAt(h.queue, op)].trig)
    ensures InOrder(Step(h, op), c)
  {
    if op.Inject? {
      InjectKeepsChannel(h, op, c);
    } else if TakenAt(h.queue, op) < |h.queue| {
      TakeKeepsChannel(h, op, c);
    }
  }

  lemma InjectKeepsChannel(h: History, op: Op, c: Channel)
    requires InOrder(h, c) && InTime(h.clock, op) && op.Inject?
    ensures InOrder(Step(h, op), c)
  {
    var e, h' := Injected(op), Step(h, op);
    assert forall x :: x in h'.queue ==> x == e || x in h.queue;
    AddMsIsExact(op.now, op.ms);
  }

  /** A consumer takes the first entry of the entry's own channel, and only when due. */
  lemma TakenIsFirst(q: seq<Entry>, op: Op)
    requires Sorted(q) && Reading(op.now) && !op.Inject? && TakenAt(q, op) < |q|
    requires op.ReadInt? ==> Reading(op.later) && !Before(op.later, op.now)
    ensures var i := TakenAt(q, op);
            && (forall k :: 0 <= k < i ==> q[k].channel != q[i].channel)
            && (!op.PopClassic? ==> !Before(op.now, q[i].trig))
  {
    if op.PopNikon? {
      FirstOrNothing(q, {Nikon}, op.now);
    } else if op.ReadInt? {
      TimeoutIsIdle(q, op.now, op.later, op.timeout);
      FirstOrNothing(q, {Classic, Nikon}, op.now);
    }
  }

  lemma RemovedAre(q: seq<Entry>, i: nat)
    requires Sorted(q) && i < |q| && forall k :: 0 <= k < i ==> q[k].channel != q[i].channel
    ensures q[i] in q
    ensures forall x :: x in Remove(q, i) ==> x in q && (x.channel == q[i].channel ==> !Before(x.trig, q[i].trig))
  {
    var r := Remove(q, i);
    assert forall k :: 0 <= k < |r| ==> r[k] == if k < i then q[k] else q[k + 1];
  }

  /** Handing out the first entry of its channel, once due, keeps the channel in order. */
  lemma DeliveredInOrder(h: History, c: Channel, d: Delivery, q: seq<Entry>, clock: TimeVal)
    requires InOrder(h, c) && Reading(h.clock) && !Before(clock, h.clock) && d.entry in h.queue
    requires d.entry.channel == c ==> !Before(clock, d.entry.trig)
    requires forall x :: x in q ==> x in h.queue && (x.channel == d.entry.channel ==> !Before(x.trig, d.entry.trig))
    ensures InOrder(h.(queue := q, delivered := h.delivered + [d], clock := clock), c)
  {
    hide Before, Reading;
    var ds := h.delivered + [d];
    forall i, j | 0 <= i < j < |ds| && ds[i].entry.channel == c == ds[j].entry.channel
      ensures !Before(ds[j].entry.trig, ds[i].entry.trig)
    {
      assert ds[i] == h.delivered[i] && ds[i] in h.delivered;
      assert j < |h.delivered| ==> ds[j] == h.delivered[j];
    }
    forall x, e | x in ds && e in q && x.entry.channel == c == e.channel
      ensures !Before(e.trig, x.entry.trig)
    {
      assert e in h.queue && (x in h.delivered || x == d);
    }
    forall x | x in ds && x.entry.channel == c
      ensures !Before(clock, x.entry.trig)
    {
      assert x in h.delivered || x == d;
      Later(h.clock, clock, x.entry.trig);
    }
  }

  lemma Later(a: TimeVal, b: TimeVal, t: TimeVal)
    requires !Before(b, a)
    ensures !Before(a, t) ==> !Before(b, t)
  {
  }

  lemma TakeKeepsChannel(h: History, op: Op, c: Channel)
    requires Sorted(h.queue) && Reading(h.clock) && InOrder(h, c) && InTime(h.clock, op) && !op.Inject?
    requires TakenAt(h.queue, op) < |h.queue|
    requires h.queue[TakenAt(h.queue, op)].channel == c ==> !Before(op.now, h.queue[TakenAt(h.queue, op)].trig)
    ensures InOrder(Step(h, op), c)
  {
    hide TakenAt, Remove;
    var i := TakenAt(h.queue, op);
    var d := Delivery(h.queue[i], By(op), op.now);
    TakenIsFirst(h.queue, op);
    RemovedAre(h.queue, i);
    hide Sorted, By;
    DeliveredInOrder(h, c, d, Remove(h.queue, i), if op.ReadInt? then op.later else op.now);
  }

  /** EOS and Nikon entries are delivered in trigger order in every run. */
  lemma VendorChannelsAreOrdered(start: TimeVal, ops: seq<Op>, c: Channel)
    requires Reading(start) && Run(start, ops).Some? && c != Classic
    ensures InOrder(Run(start, ops).value, c)
  {
    RunKeepsOrder(start, ops);
    assert Punctual(Run(start, ops).value, c);
  }

  lemma InsertedIsFirst(q: seq<Entry>, i: nat, r: seq<Entry>, n: Entry)
    requires Sorted(q) && i < |q| && FirstOf(q, {Classic}) == i && r == Remove(q, i)
    requires n.channel == Classic && Before(n.trig, q[i].trig)
    ensures InsertAt(r, n.trig) <= i
    ensures FirstOf(Insert(r, n), {Classic}) == InsertAt(r, n.trig)
  {
    hide InsertAt, FirstOf;
    var p := InsertAt(r, n.trig);
    assert forall k :: 0 <= k < |r| ==> r[k] == if k < i then q[k] else q[k + 1];
    assert i < |r| ==> r[i] == q[i + 1] && !Before(q[i + 1].trig, q[i].trig);
    assert p > i ==> Before(r[i].trig, n.trig);
    FirstOfIs(Insert(r, n), {Classic}, p);
  }

  /**
   The classic pop keeps the order exactly as long as it takes due entries: an event raised
   at the moment of a pop is handed out next behind one that triggers later if, and only
   if, that pop took its entry early.
   */
  lemma EarlyPopBreaksOrder(h: History, now: TimeVal, data: seq<byte>)
    requires Inv(h) && InTime(h.clock, PopClassic(now)) && PopClassicAt(h.queue) < |h.queue|
    ensures var h' := Step(Step(Step(h, PopClassic(now)), Inject(now, 0, Classic, data)), PopClassic(now));
            var ds, m := h'.delivered, |h.delivered|;
            && |ds| == m + 2 && ds[..m] == h.delivered
            && ds[m].entry.channel == Classic == ds[m + 1].entry.channel
            && (Before(ds[m + 1].entry.trig, ds[m].entry.trig) <==> Before(now, h.queue[PopClassicAt(h.queue)].trig))
  {
    hide *;
    var i, n := PopClassicAt(h.queue), Entry(now, Classic, data);
    NoTimeAdded(h.clock, now);
    var h1 := Step(h, PopClassic(now));
    PopTakes(h, now);
    var h2 := Step(h1, Inject(now, 0, Classic, data));
    InjectPuts(h1, now, data);
    QueueIsSorted(h);
    SecondIsEarlierIff(h.queue, i, h1.queue, n);
    PopTakes(h2, now);
  }

  lemma NoTimeAdded(clock: TimeVal, now: TimeVal)
    requires InTime(clock, PopClassic(now))
    ensures AddMs(now, 0) == now
  {
  }

  /** With its first classic entry gone, an earlier new one is next; else a later old one is. */
  lemma SecondIsEarlierIff(q: seq<Entry>, i: nat, r: seq<Entry>, n: Entry)
    requires Sorted(q) && i < |q| && FirstOf(q, {Classic}) == i && r == Remove(q, i) && n.channel == Classic
    ensures var k := FirstOf(Insert(r, n), {Classic});
            && k < |Insert(r, n)|
            && (Before(Insert(r, n)[k].trig, q[i].trig) <==> Before(n.trig, q[i].trig))
  {
    hide FirstOf, Insert, Remove, Sorted, Before;
    var k := FirstOf(Insert(r, n), {Classic});
    NewIsThere(r, n);
    RemovedAre(q, i);
    if Before(n.trig, q[i].trig) {
      InsertedIsFirst(q, i, r, n);
    } else {
      assert Insert(r, n)[k] in Insert(r, n);
    }
  }

  lemma NewIsThere(r: seq<Entry>, n: Entry)
    requires n.channel == Classic
    ensures FirstOf(Insert(r, n), {Classic}) < |Insert(r, n)|
    ensures forall x :: x in Insert(r, n) ==> x in r || x == n
    ensures Insert(r, n)[InsertAt(r, n.trig)] == n
  {
    hide FirstOf;
    assert Insert(r, n)[InsertAt(r, n.trig)] == n;
  }

  lemma QueueIsSorted(h: History)
    requires Inv(h)
    ensures Sorted(h.queue)
  {
  }

  lemma PopTakes(h: History, now: TimeVal)
    ensures var i, h' := PopClassicAt(h.queue), Step(h, PopClassic(now));
            && i == FirstOf(h.queue, {Classic})
            && (i < |h.queue| ==>
                  && h.queue[i].channel == Classic && h'.queue == Remove(h.queue, i)
                  && h'.delivered == h.delivered + [Delivery(h.queue[i], ClassicPop, now)])
  {
  }

  lemma InjectPuts(h: History, now: TimeVal, data: seq<byte>)
    ensures var e, h' := Entry(AddMs(now, 0), Classic, data), Step(h, Inject(now, 0, Classic, data));
            h'.queue == Insert(h.queue, e) && h'.delivered == h.delivered
    ensures var e, q := Entry(AddMs(now, 0), Classic, data), h.queue;
            |Insert(q, e)| == |q| + 1 && Insert(q, e)[InsertAt(q, e.trig)] == e
  {
  }

  lemma WhereInjectedWent(h: History, e: Entry)
    requires Conserved(h) && e in h.injected
    ensures e in h.queue || exists i :: 0 <= i < |h.delivered| && h.delivered[i].entry == e
  {
    assert e in multiset(h.injected);
    if e !in h.queue {
      assert e in Entries(h.delivered);
    }
  }

  /** When an entry has been delivered, every earlier one of its channel was, before it. */
  lemma EarlierIsDeliveredFirst(h: History, early: Entry, late: Entry, j: nat)
    requires Inv(h) && Punctual(h, late.channel)
    requires early.channel == late.channel && Before(early.trig, late.trig) && early in h.injected
    requires j < |h.delivered| && h.delivered[j].entry == late
    ensures early !in h.queue
    ensures exists i :: 0 <= i < j && h.delivered[i].entry == early
    ensures forall i :: 0 <= i < |h.delivered| && h.delivered[i].entry == early ==> i < j
  {
    assert InOrder(h, late.channel);
    WhereInjectedWent(h, early);
    hide Inv, Punctual;
    assert h.delivered[j] in h.delivered;
  }

  lemma RunParts(start: TimeVal, ops: seq<Op>)
    requires Run(start, ops).Some? && ops != []
    ensures var n := |ops| - 1;
            && Run(start, ops[..n]).Some?
            && Run(start, ops).value == Step(Run(start, ops[..n]).value, ops[n])
            && Reading(ops[n].now) && !Before(ops[n].now, Run(start, ops[..n]).value.clock)
            && InTime(Run(start, ops[..n]).value.clock, ops[n])
  {
  }

  lemma {:induction false} InjectedStays(start: TimeVal, ops: seq<Op>, i: nat)
    requires Run(start, ops).Some? && i < |ops| && ops[i].Inject?
    ensures Injected(ops[i]) in Run(start, ops).value.injected
  {
    hide *;
    var n := |ops| - 1;
    RunParts(start, ops);
    StepOnlyAdds(Run(start, ops[..n]).value, ops[n]);
    if i == n {
    } else {
      InjectedStays(start, ops[..n], i);
    }
  }

  lemma {:induction false} ClockOnlyMovesOn(start: TimeVal, ops: seq<Op>, i: nat, k: nat)
    requires Run(start, ops).Some? && i <= k < |ops|
    ensures Reading(ops[i].now) && Reading(ops[k].now) && !Before(ops[k].now, ops[i].now)
    ensures !Before(Run(start, ops).value.clock, ops[k].now)
    decreases |ops|, k
  {
    hide Run, Step, InTime, Injected;
    var n := |ops| - 1;
    RunParts(start, ops);
    StepOnlyAdds(Run(start, ops[..n]).value, ops[n]);
    if k < n {
      ClockOnlyMovesOn(start, ops[..n], i, k);
    } else if i < n {
      ClockOnlyMovesOn(start, ops[..n], i, i);
    }
  }

  lemma StepOnlyAdds(h: History, op: Op)
    requires InTime(h.clock, op)
    ensures Reading(op.now) && !Before(op.now, h.clock)
    ensures !Before(Step(h, op).clock, op.now) && !Before(Step(h, op).clock, h.clock)
    ensures forall e :: e in h.injected ==> e in Step(h, op).injected
    ensures op.Inject? ==> Injected(op) in Step(h, op).injected
  {
  }

  /**
   A full-press release queues the button report for +100 ms and then the object for
   +500 ms: no client sees the object before the button, however slow the camera is
   between the two calls and whenever the client polls.
   */
  lemma ButtonBeforeObject(start: TimeVal, ops: seq<Op>, b: nat, o: nat, j: nat)
    requires Reading(start) && Run(start, ops).Some? && b < o < |ops|
    requires ops[b].Inject? && ops[b].ms == 100 && ops[b].channel == Eos
    requires ops[o].Inject? && ops[o].ms == 500 && ops[o].channel == Eos
    requires var h := Run(start, ops).value; j < |h.delivered| && h.delivered[j].entry == Injected(ops[o])
    ensures var h := Run(start, ops).value;
            && (exists i :: 0 <= i < j && h.delivered[i].entry == Injected(ops[b]))
            && (forall i :: 0 <= i < |h.delivered| && h.delivered[i].entry == Injected(ops[b]) ==> i < j)
  {
    InjectedStays(start, ops, b);
    InjectedStays(start, ops, o);
    ClockOnlyMovesOn(start, ops, b, o);
    AddMsIsExact(ops[b].now, 100);
    AddMsIsExact(ops[o].now, 500);
    OrderAgrees(Injected(ops[b]).trig, Injected(ops[o]).trig);
    RunKeepsOrder(start, ops);
    EarlierIsDeliveredFirst(Run(start, ops).value, Injected(ops[b]), Injected(ops[o]), j);
  }

  // ---- The list in memory --------------------------------------------------------------

  class Node {
    const entry: Entry
    var next: Node?

    constructor (entry: Entry)
      ensures this.entry == entry && next == null
    {
      this.entry, next := entry, null;
    }
  }

  ghost function NodeAt(nodes: seq<Node>, i: nat): Node?
  {
    if i < |nodes| then nodes[i] else null
  }

  ghost predicate Linked(first: Node?, nodes: seq<Node>)
    reads nodes
  {
    && first == NodeAt(nodes, 0)
    && (forall i :: 0 <= i < |nodes| ==> nodes[i].next == NodeAt(nodes, i + 1))
    && Distinct(nodes)
  }

  ghost predicate Among(some: seq<Node>, all: seq<Node>)
  {
    forall i :: 0 <= i < |some| ==> some[i] in all
  }

  ghost predicate Distinct(nodes: seq<Node>)
  {
    forall i, j :: 0 <= i < j < |nodes| ==> nodes[i] != nodes[j]
  }

  lemma SplicedNodes(nodes: seq<Node>, i: nat, x: Node)
    requires Distinct(nodes) && i <= |nodes| && x !in nodes
    ensures var r := nodes[..i] + [x] + nodes[i..];
            && Distinct(r)
            && Content(r) == Content(nodes)[..i] + [x.entry] + Content(nodes)[i..]
            && (forall k :: 0 <= k < i ==> r[k] == nodes[k])
            && r[i] == x
            && (forall k :: i < k < |r| ==> r[k] == nodes[k - 1])
  {
  }

  lemma DistinctFrom(nodes: seq<Node>, i: nat)
    requires Distinct(nodes)
    ensures forall k :: 0 <= k < |nodes| && k != i && i < |nodes| ==> nodes[k] != nodes[i]
    ensures forall k :: 0 <= k < |nodes| && 0 < i <= |nodes| && k != i - 1 ==> nodes[k] != nodes[i - 1]
  {
  }

  lemma UnlinkedNodes(nodes: seq<Node>, i: nat)
    requires Distinct(nodes) && i < |nodes|
    ensures var r := nodes[..i] + nodes[i + 1..];
            && Distinct(r)
            && Content(r) == Remove(Content(nodes), i)
            && (forall k :: 0 <= k < i ==> r[k] == nodes[k])
            && (forall k :: i <= k < |r| ==> r[k] == nodes[k + 1])
            && nodes[i] !in r
  {
  }

  ghost function Content(nodes: seq<Node>): (q: seq<Entry>)
    ensures |q| == |nodes| && forall i :: 0 <= i < |q| ==> q[i] == nodes[i].entry
  {
    seq(|nodes|, i requires 0 <= i < |nodes| => nodes[i].entry)
  }

  lemma InsertIs(q: seq<Entry>, e: Entry)
    ensures Insert(q, e) == q[..InsertAt(q, e.trig)] + [e] + q[InsertAt(q, e.trig)..]
  {
  }

  lemma SplicedAre(nodes: seq<Node>, i: nat, x: Node)
    requires i <= |nodes|
    ensures forall n :: n in nodes[..i] + [x] + nodes[i..] ==> n in nodes || n == x
  {
  }

  class InterruptList {
    var first: Node?
    ghost var nodes: seq<Node>

    ghost predicate Valid()
      reads this, nodes
    {
      Linked(first, nodes)
    }

    ghost function View(): seq<Entry>
      reads this
    {
      Content(nodes)
    }

    constructor ()
      ensures Valid() && View() == [] && fresh(this)
    {
      first, nodes := null, [];
    }

    /** What the walk finds at position `i`. */
    lemma At(i: nat)
      requires Valid() && i <= |nodes|
      ensures |View()| == |nodes| && (i == 0 ==> first == NodeAt(nodes, i))
      ensures NodeAt(nodes, i) == null <==> i == |nodes|
      ensures i < |nodes| ==>
                NodeAt(nodes, i) == nodes[i] && View()[i] == nodes[i].entry && nodes[i].next == NodeAt(nodes, i + 1)
    {
      hide Distinct;
    }

    static method TriggerTime(now: TimeVal, ms: nat) returns (t: TimeVal)
      ensures t == AddMs(now, ms)
    {
      var usec := now.usec + ms % 1000 * 1000;
      var sec := now.sec + ms / 1000;
      if usec > 1000000 {
        usec, sec := usec - 1000000, sec + 1;
      }
      t := TimeVal(sec, usec);
    }

    /** Queues an event for `ms` milliseconds from now, next triggering one first. */
    method InjectEventData(now: TimeVal, ms: nat, channel: Channel, data: seq<byte>)
      requires Valid() && Reading(now)
      modifies this, nodes
      ensures Valid() && forall n :: n in nodes ==> n in old(nodes) || fresh(n)
      ensures View() == Insert(old(View()), Entry(AddMs(now, ms), channel, data))
    {
      hide *;
      var trig := TriggerTime(now, ms);
      var interrupt := new Node(Entry(trig, channel, data));
      var prev, cur; ghost var i;
      prev, cur, i := FindPlace(trig);
      InsertIs(View(), interrupt.entry);
      SplicedAre(nodes, i, interrupt);
      Splice(prev, interrupt, cur, i);
    }

    /** Walks past everything that triggers earlier. */
    method FindPlace(now: TimeVal) returns (prev: Node?, cur: Node?, ghost i: nat)
      requires Valid()
      ensures i == InsertAt(View(), now) && i <= |nodes|
      ensures cur == NodeAt(nodes, i) && prev == if i == 0 then null else nodes[i - 1]
    {
      hide Linked, Distinct, InterruptList.Valid, InterruptList.View, NodeAt, Content, FirstOf, FirstDue, InsertAt;
      At(0);
      prev, cur, i := null, first, 0;
      while cur != null
        invariant i <= |nodes| && cur == NodeAt(nodes, i)
        invariant prev == if i == 0 then null else nodes[i - 1]
        invariant forall k :: 0 <= k < i ==> Before(View()[k].trig, now)
        decreases |nodes| - i
      {
        At(i);
        At(i + 1);
        if now.sec > cur.entry.trig.sec || (now.sec == cur.entry.trig.sec && now.usec > cur.entry.trig.usec) {
          prev, cur, i := cur, cur.next, i + 1;
        } else {
          break;
        }
      }
      At(i);
      InsertAtIs(View(), now, i);
    }

    /** `interrupt->next = *pint; *pint = interrupt`. */
    method Splice(prev: Node?, interrupt: Node, cur: Node?, ghost i: nat)
      requires Valid() && i <= |nodes| && interrupt !in nodes
      requires cur == NodeAt(nodes, i) && prev == if i == 0 then null else nodes[i - 1]
      modifies this, nodes, interrupt
      ensures Valid() && nodes == old(nodes[..i] + [interrupt] + nodes[i..])
      ensures View() == old(View()[..i] + [interrupt.entry] + View()[i..])
    {
      hide Content, Distinct;
      DistinctFrom(nodes, i);
      SplicedNodes(nodes, i, interrupt);
      ghost var r := nodes[..i] + [interrupt] + nodes[i..];
      interrupt.next := cur;
      if prev == null {
        first := interrupt;
      } else {
        prev.next := interrupt;
      }
      nodes := r;
    }

    /** `*pp = (*pp)->next`. */
    method Unlink(prev: Node?, cur: Node, ghost i: nat)
      requires Valid() && i < |nodes|
      requires cur == nodes[i] && prev == if i == 0 then null else nodes[i - 1]
      modifies this, nodes
      ensures Valid() && nodes == old(nodes[..i] + nodes[i + 1..])
      ensures View() == Remove(old(View()), i)
    {
      hide Content, Remove, Distinct;
      DistinctFrom(nodes, i);
      UnlinkedNodes(nodes, i);
      ghost var r := nodes[..i] + nodes[i + 1..];
      if prev == null {
        first := cur.next;
      } else {
        prev.next := cur.next;
      }
      nodes := r;
    }

    method FindChannelEntry(channel: Channel) returns (prev: Node?, cur: Node?, ghost i: nat)
      requires Valid()
      ensures i == FirstOf(View(), {channel})
      ensures cur == NodeAt(nodes, i) && prev == if i == 0 then null else nodes[i - 1]
    {
      hide Linked, Distinct, InterruptList.Valid, InterruptList.View, NodeAt, Content, FirstOf, FirstDue, InsertAt;
      At(0);
      prev, cur, i := null, first, 0;
      while cur != null && cur.entry.channel != channel
        invariant i <= |nodes| && cur == NodeAt(nodes, i)
        invariant prev == if i == 0 then null else nodes[i - 1]
        invariant forall k :: 0 <= k < i ==> View()[k].channel != channel
        decreases |nodes| - i
      {
        At(i);
        At(i + 1);
        prev, cur, i := cur, cur.next, i + 1;
      }
      At(i);
      FirstOfIs(View(), {channel}, i);
    }

    method FindDueEntry(now: TimeVal, serveClassic: bool, serveNikon: bool)
      returns (prev: Node?, cur: Node?, ghost i: nat)
      requires Valid()
      ensures i == FirstDue(View(), Served(serveClassic, serveNikon), now)
      ensures cur == NodeAt(nodes, i) && prev == if i == 0 then null else nodes[i - 1]
    {
      hide Linked, Distinct, InterruptList.Valid, InterruptList.View, NodeAt, Content, FirstOf, FirstDue, InsertAt;
      At(0);
      prev, cur, i := null, first, 0;
      while cur != null
        invariant i <= |nodes| && cur == NodeAt(nodes, i)
        invariant prev == if i == 0 then null else nodes[i - 1]
        invariant forall k :: 0 <= k < i ==>
                    !(View()[k].channel in Served(serveClassic, serveNikon) && !Before(now, View()[k].trig))
        decreases |nodes| - i
      {
        At(i);
        At(i + 1);
        if (cur.entry.channel == Classic && serveClassic) || (cur.entry.channel == Nikon && serveNikon) {
          if cur.entry.trig.sec < now.sec || (cur.entry.trig.sec == now.sec && cur.entry.trig.usec <= now.usec) {
            break;
          }
        }
        prev, cur, i := cur, cur.next, i + 1;
      }
      At(i);
      FirstDueIs(View(), Served(serveClassic, serveNikon), now, i);
    }

    /** ptp_pop_event */
    method PopEvent() returns (e: Option<Entry>)
      requires Valid()
      modifies this, nodes
      ensures Valid() && Among(nodes, old(nodes))
      ensures Popped(old(View()), PopClassicAt(old(View())), View(), e)
    {
      hide Linked, Content, Remove, FirstOf, FirstDue;
      var prev, cur; ghost var i;
      prev, cur, i := FindChannelEntry(Classic);
      if cur == null {
        return None;
      }
      e := Some(cur.entry);
      Unlink(prev, cur, i);
    }

    /** ptp_pop_eos_event */
    method PopEosEvent(now: TimeVal) returns (e: Option<Entry>)
      requires Valid()
      modifies this, nodes
      ensures Valid() && Among(nodes, old(nodes))
      ensures Popped(old(View()), PopEosAt(old(View()), now), View(), e)
    {
      hide Linked, Content, Remove, FirstOf, FirstDue;
      var prev, cur; ghost var i;
      prev, cur, i := FindChannelEntry(Eos);
      if cur == null {
        return None;
      }
      if cur.entry.trig.sec > now.sec {
        return None;
      }
      if cur.entry.trig.sec == now.sec && cur.entry.trig.usec > now.usec {
        return None;
      }
      e := Some(cur.entry);
      Unlink(prev, cur, i);
    }

    /** ptp_pop_nikon_event */
    method PopNikonEvent(now: TimeVal) returns (e: Option<Entry>)
      requires Valid()
      modifies this, nodes
      ensures Valid() && Among(nodes, old(nodes))
      ensures Popped(old(View()), PopNikonAt(old(View()), now), View(), e)
    {
      hide Linked, Content, Remove, FirstOf, FirstDue;
      var prev, cur; ghost var i;
      prev, cur, i := FindDueEntry(now, false, true);
      if cur == null {
        return None;
      }
      e := Some(cur.entry);
      Unlink(prev, cur, i);
    }

    /** vcam_readint: the data copied out, at most `bytes` of it, or None for a timeout. */
    method ReadInterrupt(now: TimeVal, later: TimeVal, timeout: nat, bytes: nat) returns (data: Option<seq<byte>>)
      requires Valid() && Reading(now) && Reading(later)
      modifies this, nodes
      ensures Valid() && Among(nodes, old(nodes))
      ensures var q, i := old(View()), ReadIntAt(old(View()), now, later, timeout);
              if i < |q| then
                View() == Remove(q, i) && data == Some(q[i].data[..Min(|q[i].data|, bytes)])
              else
                View() == q && data == None
    {
      hide Linked, Content, Remove, FirstDue;
      var prev, cur; ghost var i;
      prev, cur, i := FindDueEntry(now, true, true);
      if cur == null {
        return None;
      }
      var end := AddMs(later, timeout);
      if cur.entry.trig.sec > end.sec {
        return None;
      }
      if cur.entry.trig.sec == end.sec && cur.entry.trig.usec > end.usec {
        return None;
      }
      data := Some(cur.entry.data[..Min(|cur.entry.data|, bytes)]);
      Unlink(prev, cur, i);
    }
  }

  function Served(classic: bool, nikon: bool): set<Channel>
  {
    (if classic then {Classic} else {}) + (if nikon then {Nikon} else {})
  }

  /** Entry `i`, if there is one, was handed out and nothing else changed. */
  ghost predicate Popped(q: seq<Entry>, i: nat, q': seq<Entry>, e: Option<Entry>)
    requires i <= |q|
  {
    if i < |q| then q' == Remove(q, i) && e == Some(q[i]) else q' == q && e == None
  }

  lemma {:induction false} InsertAtIs(q: seq<Entry>, trig: TimeVal, i: nat)
    requires i <= |q| && (forall k :: 0 <= k < i ==> Before(q[k].trig, trig))
    requires i < |q| ==> !Before(q[i].trig, trig)
    ensures InsertAt(q, trig) == i
  {
    var j := InsertAt(q, trig);
    assert !(j < i);
  }

  lemma FirstOfIs(q: seq<Entry>, cs: set<Channel>, i: nat)
    requires i <= |q| && (forall k :: 0 <= k < i ==> q[k].channel !in cs)
    requires i < |q| ==> q[i].channel in cs
    ensures FirstOf(q, cs) == i
  {
    var j := FirstOf(q, cs);
    assert !(j < i);
  }

  lemma FirstDueIs(q: seq<Entry>, cs: set<Channel>, now: TimeVal, i: nat)
    requires i <= |q| && (forall k :: 0 <= k < i ==> !(q[k].channel in cs && !Before(now, q[k].trig)))
    requires i < |q| ==> q[i].channel in cs && !Before(now, q[i].trig)
    ensures FirstDue(q, cs, now) == i
  {
    var j := FirstDue(q, cs, now);
    assert !(j < i);
  }
}
