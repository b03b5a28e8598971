/**
 Whole runs of a Canon camera's event stream: whatever the camera queues and other clients
 take, and the GetEvent calls that drain the EOS channel into answers of bounded size
 (`src/canon/canon.c`, `src/vcamera.c`).
 */
module EosRuns {
  import opened Bytes
  import opened Clock
  import opened EventQueue
  import opened EosEvents

  /** An entry that a GetEvent popped, and how many bytes of the answer were filled by then. */
  datatype Out = Out(entry: Entry, filled: nat)

  /** It went into the answer; else there was no room, it is lost, and the answer was closed. */
  predicate Sent(o: Out)
  {
    o.filled + |o.entry.data| + 12 <= EVENT_BUFFER
  }

  datatype Act =
    | Other(op: Op)
    | Arm(params: seq<u32>)
    | Poll(params: seq<u32>, clock: nat -> TimeVal)

  /**
   `first` asks for the dump in the next answer; `answers` are the entries of every other
   answer, and `out` is everything popped for them.
   */
  datatype Feed = Feed(h: History, first: bool, out: seq<Out>, answers: seq<seq<seq<byte>>>)

  /** The pops of one GetEvent, on the history of the event list. */
  function Pops(h: History, out: seq<Out>, clock: nat -> TimeVal, k: nat, size: nat): (History, seq<Out>)
    decreases |h.queue|
  {
    var i, h' := PopEosAt(h.queue, clock(k)), Step(h, PopEos(clock(k)));
    if i >= |h.queue| then (h', out)
    else
      var o := Out(h.queue[i], size);
      if !Sent(o) then (h', out + [o])
      else Pops(h', out + [o], clock, k + 1, size + |o.entry.data|)
  }

  /** Readings from `start` on that do not go back. */
  ghost predicate Ticks(start: TimeVal, clock: nat -> TimeVal, k: nat)
  {
    && !Before(clock(k), start)
    && (forall j :: k <= j ==> Reading(clock(j)))
    && (forall j :: k <= j ==> !Before(clock(j + 1), clock(j)))
  }

  ghost predicate Possible(f: Feed, act: Act)
  {
    match act
    case Other(op) => !op.PopEos? && InTime(f.h.clock, op)
    case Arm(_) => true
    case Poll(_, clock) => Ticks(f.h.clock, clock, 0)
  }

  /** Where a mode was set GetEvent answers with the property dump once; else it drains the channel. */
  function Next(f: Feed, act: Act): Feed
  {
    match act
    case Other(op) => f.(h := Step(f.h, op))
    case Arm(params) => if |params| == 1 then f.(first := true) else f
    case Poll(params, clock) =>
      if params != [] then f
      else if f.first then f.(first := false)
      else
        var (h, out) := Pops(f.h, f.out, clock, 0, 0);
        f.(h := h, out := out, answers := f.answers + [Drain(f.h.queue, clock, 0, 0).sent])
  }

  ghost function Serve(start: TimeVal, acts: seq<Act>): Option<Feed>
  {
    if acts == [] then
      Some(Feed(History([], start, [], []), false, [], []))
    else
      match Serve(start, acts[..|acts| - 1])
      case None => None
      case Some(f) => if Possible(f, acts[|acts| - 1]) then Some(Next(f, acts[|acts| - 1])) else None
  }

  // ---- What a run keeps ------------------------------------------------------------------

  function Popped(out: seq<Out>): (es: seq<Entry>)
    ensures |es| == |out| && forall i :: 0 <= i < |out| ==> es[i] == out[i].entry
  {
    seq(|out|, i requires 0 <= i < |out| => out[i].entry)
  }

  function EosOf(es: seq<Entry>): seq<Entry>
  {
    if es == [] then []
    else EosOf(es[..|es| - 1]) + if es[|es| - 1].channel == Eos then [es[|es| - 1]] else []
  }

  /** What clients have been sent, over all answers. */
  function Seen(out: seq<Out>): seq<seq<byte>>
  {
    if out == [] then []
    else Seen(out[..|out| - 1]) + if Sent(out[|out| - 1]) then [out[|out| - 1].entry.data] else []
  }

  ghost predicate InTriggerOrder(out: seq<Out>)
  {
    forall i, j :: 0 <= i < j < |out| ==> !Before(out[j].entry.trig, out[i].entry.trig)
  }

  /** Only GetEvent takes EOS entries, in trigger order. */
  ghost predicate OutInv(h: History, out: seq<Out>)
  {
    Inv(h) && Popped(out) == EosOf(Entries(h.delivered)) && InTriggerOrder(out)
  }

  ghost predicate FeedInv(f: Feed)
  {
    OutInv(f.h, f.out) && Flatten(f.answers) == Seen(f.out)
  }

  lemma EosOfSnoc(es: seq<Entry>, e: Entry)
    ensures EosOf(es + [e]) == EosOf(es) + if e.channel == Eos then [e] else []
  {
    assert (es + [e])[..|es|] == es;
  }

  lemma {:induction false} InEosOf(es: seq<Entry>, e: Entry)
    ensures e in EosOf(es) <==> e in es && e.channel == Eos
    decreases |es|
  {
    if es == [] {
    } else {
      LastApart(es);
      InEosOf(es[..|es| - 1], e);
    }
  }

  lemma SeenSnoc(out: seq<Out>, o: Out)
    ensures Seen(out + [o]) == Seen(out) + if Sent(o) then [o.entry.data] else []
  {
    assert (out + [o])[..|out|] == out;
  }

  /** EOS deliveries were due, in order, and no later than what is queued. */
  lemma EosIsOrdered(h: History)
    requires Inv(h)
    ensures Sorted(h.queue) && Reading(h.clock) && EventQueue.InOrder(h, Eos)
  {
    assert Punctual(h, Eos);
  }

  /** What a step that finds nothing, or takes another channel's entry, does for EOS. */
  lemma OtherKeeps(h: History, out: seq<Out>, op: Op)
    requires OutInv(h, out) && InTime(h.clock, op)
    requires op.PopEos? ==> TakenAt(h.queue, op) >= |h.queue|
    ensures OutInv(Step(h, op), out)
  {
    hide *;
    OutParts(h, out);
    StepKeepsOrder(h, op);
    OtherTakes(h, op);
    OutWhole(Step(h, op), out);
  }

  lemma OutParts(h: History, out: seq<Out>)
    requires OutInv(h, out)
    ensures Inv(h) && Popped(out) == EosOf(Entries(h.delivered)) && InTriggerOrder(out)
  {
  }

  lemma OutWhole(h: History, out: seq<Out>)
    requires Inv(h) && Popped(out) == EosOf(Entries(h.delivered)) && InTriggerOrder(out)
    ensures OutInv(h, out)
  {
  }

  lemma OtherTakes(h: History, op: Op)
    requires op.PopEos? ==> TakenAt(h.queue, op) >= |h.queue|
    ensures EosOf(Entries(Step(h, op).delivered)) == EosOf(Entries(h.delivered))
  {
    hide *;
    StepDelivers(h, op);
    if Step(h, op).delivered != h.delivered {
      var d := Step(h, op).delivered[|h.delivered|];
      EntriesSnoc(h.delivered, d);
      EosOfSnoc(Entries(h.delivered), d.entry);
      NothingMore(EosOf(Entries(h.delivered)));
    }
  }

  /** A step delivers at most one entry, and one of the EOS channel only to a pop of that channel. */
  lemma StepDelivers(h: History, op: Op)
    ensures var ds := Step(h, op).delivered;
            ds == h.delivered
            || (|ds| == |h.delivered| + 1 && ds == h.delivered + [ds[|h.delivered|]]
                && (!op.PopEos? || TakenAt(h.queue, op) >= |h.queue| ==> ds[|h.delivered|].entry.channel != Eos))
  {
    hide Insert, Remove;
  }

  lemma NothingMore(es: seq<Entry>)
    ensures es + [] == es
  {
  }

  /** One pop of the drain. */
  lemma PopKeeps(h: History, out: seq<Out>, now: TimeVal, size: nat)
    requires OutInv(h, out) && InTime(h.clock, PopEos(now)) && PopEosAt(h.queue, now) < |h.queue|
    ensures OutInv(Step(h, PopEos(now)), out + [Out(h.queue[PopEosAt(h.queue, now)], size)])
  {
    hide *;
    var e := h.queue[PopEosAt(h.queue, now)];
    OutParts(h, out);
    StepKeepsOrder(h, PopEos(now));
    PopIs(h, now);
    EntriesSnoc(h.delivered, Delivery(e, EosPop, now));
    EosOfSnoc(Entries(h.delivered), e);
    PoppedSnoc(out, Out(e, size));
    OrderSnoc(h, out, e, size);
    OutWhole(Step(h, PopEos(now)), out + [Out(e, size)]);
  }

  lemma PopIs(h: History, now: TimeVal)
    ensures var i, h' := PopEosAt(h.queue, now), Step(h, PopEos(now));
            && i <= |h.queue|
            && (i < |h.queue| ==>
                  && h.queue[i].channel == Eos && h.queue[i] in h.queue && h'.queue == Remove(h.queue, i)
                  && |h'.queue| < |h.queue| && h'.clock == now && h'.injected == h.injected
                  && h'.delivered == h.delivered + [Delivery(h.queue[i], EosPop, now)])
            && (i == |h.queue| ==> h' == h.(clock := now))
  {
  }

  lemma PoppedSnoc(out: seq<Out>, o: Out)
    ensures Popped(out + [o]) == Popped(out) + [o.entry]
  {
  }

  lemma OrderSnoc(h: History, out: seq<Out>, e: Entry, size: nat)
    requires OutInv(h, out) && e in h.queue && e.channel == Eos
    ensures InTriggerOrder(out + [Out(e, size)])
  {
    EosIsOrdered(h);
    hide Inv, Sorted, Before;
    forall i | 0 <= i < |out|
      ensures !Before(e.trig, out[i].entry.trig)
    {
      assert Popped(out)[i] in EosOf(Entries(h.delivered));
      InEosOf(Entries(h.delivered), out[i].entry);
      var k :| 0 <= k < |h.delivered| && Entries(h.delivered)[k] == out[i].entry;
      assert h.delivered[k] in h.delivered;
    }
  }

  /** A drain keeps the invariant, whatever the answer has room for. */
  lemma {:induction false} PopsKeep(h: History, out: seq<Out>, clock: nat -> TimeVal, k: nat, size: nat)
    requires OutInv(h, out) && Ticks(h.clock, clock, k)
    ensures var (h', out') := Pops(h, out, clock, k, size); OutInv(h', out')
    decreases |h.queue|
  {
    hide OutInv, Step, PopEosAt, Remove;
    PopIs(h, clock(k));
    TickInTime(h, clock, k);
    if PopEosAt(h.queue, clock(k)) >= |h.queue| {
      OtherKeeps(h, out, PopEos(clock(k)));
    } else {
      PopKeeps(h, out, clock(k), size);
      var o := Out(h.queue[PopEosAt(h.queue, clock(k))], size);
      if Sent(o) {
        PopsKeep(Step(h, PopEos(clock(k))), out + [o], clock, k + 1, size + |o.entry.data|);
      }
    }
  }

  lemma TickInTime(h: History, clock: nat -> TimeVal, k: nat)
    requires Ticks(h.clock, clock, k)
    ensures InTime(h.clock, PopEos(clock(k))) && Ticks(clock(k), clock, k + 1)
    ensures TakenAt(h.queue, PopEos(clock(k))) == PopEosAt(h.queue, clock(k))
  {
    hide PopEosAt;
  }

  /** The pops of the history are the drain of the queue, entry by entry. */
  lemma {:induction false} PopsAreDrain(h: History, out: seq<Out>, clock: nat -> TimeVal, k: nat, size: nat)
    ensures var (h', out') := Pops(h, out, clock, k, size);
            var d := Drain(h.queue, clock, k, size);
            h'.queue == d.queue && Seen(out') == Seen(out) + d.sent && h'.injected == h.injected
    decreases |h.queue|
  {
    hide Step, PopEosAt, Remove, Seen, Drain;
    PopIs(h, clock(k));
    DrainStep(h.queue, clock, k, size);
    if PopEosAt(h.queue, clock(k)) >= |h.queue| {
      assert Seen(out) + [] == Seen(out);
    } else {
      var e := h.queue[PopEosAt(h.queue, clock(k))];
      SeenSnoc(out, Out(e, size));
      if Sent(Out(e, size)) {
        PopsAreDrain(Step(h, PopEos(clock(k))), out + [Out(e, size)], clock, k + 1, size + |e.data|);
        var r := Drain(Remove(h.queue, PopEosAt(h.queue, clock(k))), clock, k + 1, size + |e.data|);
        assert Seen(out) + [e.data] + r.sent == Seen(out) + ([e.data] + r.sent);
      } else {
        assert Seen(out) + [] == Seen(out);
      }
    }
  }

  /**
   A GetEvent of a run answers as the channel does: not with parameters, with the dump once
   after a mode was set, and else with what a drain of the list gives, which leaves it.
   */
  lemma PollIsGetEvent(f: Feed, params: seq<u32>, clock: nat -> TimeVal)
    ensures var f', d := Next(f, Poll(params, clock)), Drain(f.h.queue, clock, 0, 0);
            && f'.first == (f.first && params != [])
            && (params != [] || f.first ==> f'.h == f.h && f'.out == f.out && f'.answers == f.answers)
            && (params == [] && !f.first ==>
                  f'.h.queue == d.queue && f'.h.injected == f.h.injected && f'.answers == f.answers + [d.sent]
                  && Seen(f'.out) == Seen(f.out) + d.sent)
    ensures Next(f, Arm(params)) == f.(first := f.first || |params| == 1)
  {
    PopsAreDrain(f.h, f.out, clock, 0, 0);
    hide Pops, Drain, Seen;
  }

  lemma NextKeeps(f: Feed, act: Act)
    requires FeedInv(f) && Possible(f, act)
    ensures FeedInv(Next(f, act))
  {
    hide OutInv, Step, TakenAt, Drain, Seen, Flatten, InTime;
    match act
    case Other(op) =>
      OtherKeeps(f.h, f.out, op);
    case Arm(params) =>
    case Poll(params, clock) =>
      if params == [] && !f.first {
        PopsKeep(f.h, f.out, clock, 0, 0);
        PopsAreDrain(f.h, f.out, clock, 0, 0);
        FlattenSnoc(f.answers, Drain(f.h.queue, clock, 0, 0).sent);
      }
  }

  /**
   Over every run: the event list keeps its invariant, GetEvent is the only one to take EOS
   entries and takes each of them once, in trigger order, and the answers put together are
   what it took except for what did not fit.
   */
  lemma {:induction false} RunFeedsInOrder(start: TimeVal, acts: seq<Act>)
    requires Reading(start) && Serve(start, acts).Some?
    ensures FeedInv(Serve(start, acts).value)
  {
    if acts == [] {
      RunKeepsOrder(start, []);
      assert Flatten<seq<byte>>([]) == [];
    } else {
      var n := |acts| - 1;
      RunFeedsInOrder(start, acts[..n]);
      hide FeedInv, Possible;
      NextKeeps(Serve(start, acts[..n]).value, acts[n]);
    }
  }

  // ---- Well-formed answers ---------------------------------------------------------------

  /** Every EOS notification that was queued is an entry. */
  ghost predicate EntriesOnly(h: History)
  {
    forall e :: e in h.injected && e.channel == Eos ==> IsEntry(e.data)
  }

  lemma {:induction false} InDataOf(q: seq<Entry>, d: seq<byte>)
    requires d in DataOf(q, Eos)
    ensures exists e :: e in q && e.channel == Eos && e.data == d
  {
    if q == [] {
    } else if q[0].channel == Eos && q[0].data == d {
    } else {
      assert DataOf(q, Eos) == (if q[0].channel == Eos then [q[0].data] else []) + DataOf(q[1..], Eos);
      InDataOf(q[1..], d);
    }
  }

  /**
   If every EOS notification of a run was an entry, each GetEvent answer walks back to
   exactly the entries it was given, within the answer's buffer.
   */
  lemma EveryAnswerWalksBack(start: TimeVal, acts: seq<Act>, clock: nat -> TimeVal)
    requires Reading(start) && Serve(start, acts).Some? && EntriesOnly(Serve(start, acts).value.h)
    ensures var f := Serve(start, acts).value;
            var d := Drain(f.h.queue, clock, 0, 0);
            && EosWellFormed(f.h.queue)
            && Walk(Flatten(d.sent) + END) == Some(d.sent)
            && |Flatten(d.sent) + END| <= EVENT_BUFFER
  {
    hide *;
    var h := Serve(start, acts).value.h;
    RunFeedsInOrder(start, acts);
    QueuedWasInjected(Serve(start, acts).value);
    forall d | d in DataOf(h.queue, Eos)
      ensures IsEntry(d)
    {
      InDataOf(h.queue, d);
      InjectedIsEntry(h, d);
    }
    AllWellFormed(h.queue);
    AnswerWalksBack(h.queue, clock);
  }

  lemma InjectedIsEntry(h: History, d: seq<byte>)
    requires EntriesOnly(h) && exists e :: e in h.injected && e.channel == Eos && e.data == d
    ensures IsEntry(d)
  {
  }

  lemma AllWellFormed(q: seq<Entry>)
    requires forall d :: d in DataOf(q, Eos) ==> IsEntry(d)
    ensures EosWellFormed(q)
  {
  }

  lemma QueuedWasInjected(f: Feed)
    requires FeedInv(f)
    ensures Sorted(f.h.queue) && forall e :: e in f.h.queue ==> e in f.h.injected
  {
    assert Conserved(f.h);
    forall e | e in f.h.queue
      ensures e in f.h.injected
    {
      assert e in multiset(f.h.queue);
      assert e in multiset(f.h.injected);
    }
  }

  // ---- The button and the object ---------------------------------------------------------

  /** Where a popped entry stands in the answers put together. */
  function Place(out: seq<Out>, i: nat): nat
    requires i <= |out|
  {
    |Seen(out[..i])|
  }

  lemma {:induction false} SeenAt(out: seq<Out>, i: nat, j: nat)
    requires i < j <= |out|
    ensures Seen(out[..j]) <= Seen(out)
    ensures Place(out, i) <= Place(out, j)
    ensures Sent(out[i]) ==> Place(out, i) < Place(out, j) && Seen(out)[Place(out, i)] == out[i].entry.data
    decreases |out|
  {
    var n := |out| - 1;
    LastApart(out);
    SeenSnoc(out[..n], out[n]);
    hide Seen, Sent;
    if j == |out| {
      assert out[..j] == out;
      if i < n {
        SeenAt(out[..n], i, n);
        assert out[..n][..i] == out[..i] && out[..n][..n] == out[..n];
      }
    } else {
      SeenAt(out[..n], i, j);
      assert out[..n][..i] == out[..i] && out[..n][..j] == out[..j];
    }
  }

  lemma ServeParts(start: TimeVal, acts: seq<Act>)
    requires Serve(start, acts).Some? && acts != []
    ensures var n := |acts| - 1;
            && Serve(start, acts[..n]).Some?
            && Serve(start, acts).value == Next(Serve(start, acts[..n]).value, acts[n])
            && Possible(Serve(start, acts[..n]).value, acts[n])
  {
  }

  /** The clock does not go back, and nothing that was queued is forgotten. */
  lemma NextOnlyAdds(f: Feed, act: Act)
    requires Possible(f, act)
    ensures !Before(Next(f, act).h.clock, f.h.clock)
    ensures forall e :: e in f.h.injected ==> e in Next(f, act).h.injected
    ensures act.Other? && act.op.Inject? ==>
              && Reading(act.op.now) && !Before(act.op.now, f.h.clock) && Next(f, act).h.clock == act.op.now
              && Injected(act.op) in Next(f, act).h.injected
  {
    match act
    case Other(op) => StepOnlyAdds(f.h, op);
    case Arm(params) =>
    case Poll(params, clock) =>
      PopsAreDrain(f.h, f.out, clock, 0, 0);
      PopsTick(f.h, f.out, clock, 0, 0);
      hide Pops, Drain, Seen;
  }

  lemma {:induction false} PopsTick(h: History, out: seq<Out>, clock: nat -> TimeVal, k: nat, size: nat)
    requires Ticks(h.clock, clock, k)
    ensures !Before(Pops(h, out, clock, k, size).0.clock, h.clock)
    decreases |h.queue|
  {
    hide Step, PopEosAt, Remove;
    PopIs(h, clock(k));
    TickInTime(h, clock, k);
    if PopEosAt(h.queue, clock(k)) < |h.queue| {
      var o := Out(h.queue[PopEosAt(h.queue, clock(k))], size);
      if Sent(o) {
        PopsTick(Step(h, PopEos(clock(k))), out + [o], clock, k + 1, size + |o.entry.data|);
      }
    }
  }

  ghost predicate Queues(act: Act, ms: nat)
  {
    act.Other? && act.op.Inject? && act.op.ms == ms && act.op.channel == Eos
  }

  lemma {:induction false} QueuedStays(start: TimeVal, acts: seq<Act>, i: nat, ms: nat)
    requires Serve(start, acts).Some? && i < |acts| && Queues(acts[i], ms)
    ensures var h := Serve(start, acts).value.h;
            Injected(acts[i].op) in h.injected && Reading(acts[i].op.now) && !Before(h.clock, acts[i].op.now)
    decreases |acts|
  {
    hide Serve, Next, Possible, Injected;
    var n := |acts| - 1;
    ServeParts(start, acts);
    NextOnlyAdds(Serve(start, acts[..n]).value, acts[n]);
    if i == n {
    } else {
      QueuedStays(start, acts[..n], i, ms);
    }
  }

  lemma {:induction false} QueuedLater(start: TimeVal, acts: seq<Act>, b: nat, o: nat, ms: nat, later: nat)
    requires Serve(start, acts).Some? && b < o < |acts| && Queues(acts[b], ms) && Queues(acts[o], later)
    ensures Reading(acts[b].op.now) && Reading(acts[o].op.now) && !Before(acts[o].op.now, acts[b].op.now)
    decreases |acts|
  {
    hide Serve, Next, Possible, Injected;
    var n := |acts| - 1;
    ServeParts(start, acts);
    if o == n {
      QueuedStays(start, acts[..n], b, ms);
      NextOnlyAdds(Serve(start, acts[..n]).value, acts[n]);
    } else {
      QueuedLater(start, acts[..n], b, o, ms, later);
    }
  }

  /**
   The earlier entry of two is not left behind: when the later one has been popped for an
   answer, the earlier one has been popped before it.
   */
  lemma EarlierIsOut(f: Feed, early: Entry, late: Entry, j: nat)
    requires FeedInv(f) && early.channel == Eos == late.channel && Before(early.trig, late.trig)
    requires early in f.h.injected && j < |f.out| && f.out[j].entry == late
    ensures exists i :: 0 <= i < j && f.out[i].entry == early
    ensures forall i :: 0 <= i < |f.out| && f.out[i].entry == early ==> i < j
  {
    hide *;
    FeedParts(f);
    var m := OutIsDelivered(f, j);
    NotQueuedBehind(f.h, early, late, m);
    WhereInjectedWent(f.h, early);
    DeliveredIsOut(f, early);
    OutOrder(f, early, late, j);
  }

  lemma FeedParts(f: Feed)
    requires FeedInv(f)
    ensures Inv(f.h) && Conserved(f.h)
  {
  }

  lemma OutIsDelivered(f: Feed, j: nat) returns (m: nat)
    requires FeedInv(f) && j < |f.out|
    ensures m < |f.h.delivered| && f.h.delivered[m].entry == f.out[j].entry
  {
    hide Inv, EosOf, Seen, InTriggerOrder;
    var es := Entries(f.h.delivered);
    assert Popped(f.out)[j] in EosOf(es);
    InEosOf(es, f.out[j].entry);
    m :| 0 <= m < |f.h.delivered| && es[m] == f.out[j].entry;
  }

  lemma DeliveredIsOut(f: Feed, e: Entry)
    requires FeedInv(f) && e.channel == Eos
    ensures (exists k :: 0 <= k < |f.h.delivered| && f.h.delivered[k].entry == e) ==>
              exists i :: 0 <= i < |f.out| && f.out[i].entry == e
  {
    hide Inv, EosOf, Seen, InTriggerOrder;
    var es := Entries(f.h.delivered);
    InEosOf(es, e);
    if k :| 0 <= k < |f.h.delivered| && f.h.delivered[k].entry == e {
      assert es[k] == e && e in es;
      assert e in Popped(f.out);
    }
  }

  lemma NotQueuedBehind(h: History, early: Entry, late: Entry, m: nat)
    requires Inv(h) && early.channel == Eos == late.channel && Before(early.trig, late.trig)
    requires m < |h.delivered| && h.delivered[m].entry == late
    ensures early !in h.queue
  {
    EosIsOrdered(h);
    hide Inv, Sorted;
    assert h.delivered[m] in h.delivered;
  }

  lemma OutOrder(f: Feed, early: Entry, late: Entry, j: nat)
    requires FeedInv(f) && Before(early.trig, late.trig) && j < |f.out| && f.out[j].entry == late
    ensures forall i :: 0 <= i < |f.out| && f.out[i].entry == early ==> i < j
  {
    hide Inv, EosOf, Seen;
  }

  /**
   A full press queues the button report for +100 ms and then the object for +500 ms. In
   every run of the camera and its clients: when a client has been sent the object, the
   button report was popped for it before. It stands at an earlier place of the answers,
   unless it found its answer too full: then it is the one entry that answer lost.
   */
  lemma ButtonReachesFirst(start: TimeVal, acts: seq<Act>, b: nat, o: nat, j: nat)
    requires Reading(start) && Serve(start, acts).Some? && b < o < |acts|
    requires Queues(acts[b], 100) && Queues(acts[o], 500)
    requires var f := Serve(start, acts).value; j < |f.out| && f.out[j].entry == Injected(acts[o].op) && Sent(f.out[j])
    ensures var f, seen := Serve(start, acts).value, Flatten(Serve(start, acts).value.answers);
            && Place(f.out, j) < |seen| && seen[Place(f.out, j)] == acts[o].op.data
            && (exists i :: 0 <= i < j && f.out[i].entry == Injected(acts[b].op))
            && forall i :: 0 <= i < |f.out| && f.out[i].entry == Injected(acts[b].op) ==>
                             && i < j
                             && (Sent(f.out[i]) ==> Place(f.out, i) < Place(f.out, j) && seen[Place(f.out, i)] == acts[b].op.data)
                             && (!Sent(f.out[i]) ==> f.out[i].filled + |acts[b].op.data| + 12 > EVENT_BUFFER)
  {
    var f := Serve(start, acts).value;
    hide Serve, Inv, FeedInv, Seen;
    RunFeedsInOrder(start, acts);
    AnswersAre(f);
    SeenAt(f.out, j, |f.out|);
    assert f.out[..|f.out|] == f.out;
    QueuedStays(start, acts, b, 100);
    QueuedLater(start, acts, b, o, 100, 500);
    AddMsIsExact(acts[b].op.now, 100);
    AddMsIsExact(acts[o].op.now, 500);
    OrderAgrees(Injected(acts[b].op).trig, Injected(acts[o].op).trig);
    EarlierIsOut(f, Injected(acts[b].op), Injected(acts[o].op), j);
    forall i | 0 <= i < |f.out| && f.out[i].entry == Injected(acts[b].op)
      ensures Sent(f.out[i]) ==> Place(f.out, i) < Place(f.out, j) && Seen(f.out)[Place(f.out, i)] == acts[b].op.data
    {
      SeenAt(f.out, i, j);
    }
  }

  lemma AnswersAre(f: Feed)
    requires FeedInv(f)
    ensures Flatten(f.answers) == Seen(f.out)
  {
  }
}
