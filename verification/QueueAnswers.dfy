/**
 What one operation on the event list does, in terms of the entries and the clock alone:
 where an injected entry goes, and which entry each of the consumers is given
 (`src/vcamera.c`).
 */
module QueueAnswers {
  import opened Bytes
  import opened Clock
  import opened EventQueue

  ghost predicate Due(e: Entry, now: TimeVal)
  {
    e.trig.sec < now.sec || (e.trig.sec == now.sec && e.trig.usec <= now.usec)
  }

  /** `i` is the first place with one of the two channels. */
  ghost predicate FirstIn(q: seq<Entry>, i: nat, c: Channel, d: Channel)
  {
    && i < |q| && (q[i].channel == c || q[i].channel == d)
    && forall k :: 0 <= k < i ==> q[k].channel != c && q[k].channel != d
  }

  ghost predicate NoneIn(q: seq<Entry>, c: Channel, d: Channel)
  {
    forall k :: 0 <= k < |q| ==> q[k].channel != c && q[k].channel != d
  }

  ghost predicate NoneDueIn(q: seq<Entry>, c: Channel, d: Channel, now: TimeVal)
  {
    forall k :: 0 <= k < |q| && (q[k].channel == c || q[k].channel == d) ==> !Due(q[k], now)
  }

  /** The entry at `i` left the list for the consumer; all else is as it was. */
  ghost predicate Leaves(h: History, h': History, i: nat, via: Consumer, at: TimeVal)
    requires i < |h.queue|
  {
    && h'.queue == h.queue[..i] + h.queue[i + 1..] && h'.injected == h.injected
    && h'.delivered == h.delivered + [Delivery(h.queue[i], via, at)]
  }

  ghost predicate Unmoved(h: History, h': History)
  {
    h'.queue == h.queue && h'.injected == h.injected && h'.delivered == h.delivered
  }

  /** An injected entry triggers its milliseconds later, and goes in front of all that do not trigger before it. */
  lemma InjectionIs(h: History, now: TimeVal, ms: nat, channel: Channel, data: seq<byte>)
    requires Sorted(h.queue) && Reading(now)
    ensures var h' := Step(h, Inject(now, ms, channel, data));
            && h'.delivered == h.delivered && h'.clock == now
            && |h'.injected| == |h.injected| + 1 && h'.injected[..|h.injected|] == h.injected
            && var e := h'.injected[|h.injected|];
               && e.channel == channel && e.data == data
               && e.trig.sec * 1000000 + e.trig.usec == now.sec * 1000000 + now.usec + 1000 * ms && 0 <= e.trig.usec <= 1000000
               && |h'.queue| == |h.queue| + 1
               && exists i :: 0 <= i <= |h.queue| && PlacedAt(h.queue, h'.queue, i, e)
  {
    var h', e := Step(h, Inject(now, ms, channel, data)), Injected(Inject(now, ms, channel, data));
    AddMsIsExact(now, ms);
    Placed(h.queue, e);
    hide Insert, InsertAt, Sorted, AddMs, PlacedAt;
  }

  ghost predicate PlacedAt(q: seq<Entry>, q': seq<Entry>, i: nat, e: Entry)
    requires i <= |q|
  {
    && q' == q[..i] + [e] + q[i..]
    && (forall k :: 0 <= k < i ==> Earlier(q[k], e)) && forall k :: i <= k < |q| ==> !Earlier(q[k], e)
  }

  ghost predicate Earlier(a: Entry, b: Entry)
  {
    a.trig.sec < b.trig.sec || (a.trig.sec == b.trig.sec && a.trig.usec < b.trig.usec)
  }

  lemma Placed(q: seq<Entry>, e: Entry)
    requires Sorted(q)
    ensures exists i :: 0 <= i <= |q| && PlacedAt(q, Insert(q, e), i, e)
  {
    var i := InsertAt(q, e.trig);
    forall k | 0 <= k < |q|
      ensures k < i <==> Earlier(q[k], e)
    {
      TiesAreNewestFirst(q, e, k);
    }
    hide InsertAt, Sorted, Before;
    assert PlacedAt(q, Insert(q, e), i, e);
  }

  /** The first entry of the channels, if it is due: that is what a search for a due one finds. */
  lemma DueSearch(q: seq<Entry>, c: Channel, d: Channel, now: TimeVal, i: nat)
    requires Sorted(q) && Reading(now)
    ensures FirstIn(q, i, c, d) ==> i < |q| && FirstDue(q, {c, d}, now) == if Due(q[i], now) then i else |q|
    ensures NoneDueIn(q, c, d, now) <==> FirstDue(q, {c, d}, now) == |q|
  {
    hide *;
    FirstOrNothing(q, {c, d}, now);
    FirstSearch(q, c, d, i);
    NoneSearch(q, c, d, now);
    if i < |q| {
      DueIs(q[i], now);
    }
  }

  lemma DueIs(e: Entry, now: TimeVal)
    ensures Due(e, now) <==> !Before(now, e.trig)
  {
  }

  lemma FirstSearch(q: seq<Entry>, c: Channel, d: Channel, i: nat)
    ensures FirstIn(q, i, c, d) ==> i < |q| && FirstOf(q, {c, d}) == i
    ensures NoneIn(q, c, d) ==> FirstOf(q, {c, d}) == |q|
  {
    hide FirstOf;
    if FirstIn(q, i, c, d) {
      FirstOfIs(q, {c, d}, i);
    }
  }

  lemma NoneSearch(q: seq<Entry>, c: Channel, d: Channel, now: TimeVal)
    ensures NoneDueIn(q, c, d, now) <==>
            forall k :: 0 <= k < |q| && q[k].channel in {c, d} ==> Before(now, q[k].trig)
  {
    hide Before, Due;
    forall k | 0 <= k < |q|
      ensures Due(q[k], now) <==> !Before(now, q[k].trig)
    {
      DueIs(q[k], now);
    }
  }

  /**
   The four consumers. Fuji's pop takes the first classic entry, due or not; Canon's and
   Nikon's the first of their channel, if it is due; the interrupt endpoint the first of the
   classic and Nikon ones, if it is due. Else nothing moves.
   */
  lemma ConsumersTake(h: History, now: TimeVal, later: TimeVal, timeout: nat)
    requires Sorted(h.queue) && Reading(now) && Reading(later) && !Before(later, now)
    ensures var h' := Step(h, PopClassic(now));
            && (NoneIn(h.queue, Classic, Classic) ==> Unmoved(h, h'))
            && forall i: nat :: FirstIn(h.queue, i, Classic, Classic) ==> Leaves(h, h', i, ClassicPop, now)
    ensures var h' := Step(h, PopEos(now));
            && (NoneDueIn(h.queue, Eos, Eos, now) ==> Unmoved(h, h'))
            && forall i: nat :: FirstIn(h.queue, i, Eos, Eos) && Due(h.queue[i], now) ==> Leaves(h, h', i, EosPop, now)
    ensures var h' := Step(h, PopNikon(now));
            && (NoneDueIn(h.queue, Nikon, Nikon, now) ==> Unmoved(h, h'))
            && forall i: nat :: FirstIn(h.queue, i, Nikon, Nikon) && Due(h.queue[i], now) ==> Leaves(h, h', i, NikonPop, now)
    ensures var h' := Step(h, ReadInt(now, later, timeout));
            && (NoneDueIn(h.queue, Classic, Nikon, now) ==> Unmoved(h, h'))
            && forall i: nat :: FirstIn(h.queue, i, Classic, Nikon) && Due(h.queue[i], now) ==> Leaves(h, h', i, Interrupt, now)
  {
    hide *;
    StepTakes(h, now, later, timeout);
    TimeoutIsIdle(h.queue, now, later, timeout);
    OneChannel();
    var q := h.queue;
    ClassicTakes(h, now);
    EosTakes(h, now);
    forall i: nat
      ensures NoneDueIn(q, Nikon, Nikon, now) <==> FirstDue(q, {Nikon}, now) == |q|
      ensures NoneDueIn(q, Classic, Nikon, now) <==> FirstDue(q, {Classic, Nikon}, now) == |q|
      ensures FirstIn(q, i, Nikon, Nikon) ==> i < |q| && (Due(q[i], now) ==> FirstDue(q, {Nikon}, now) == i)
      ensures FirstIn(q, i, Classic, Nikon) ==> i < |q| && (Due(q[i], now) ==> FirstDue(q, {Classic, Nikon}, now) == i)
    {
      DueSearch(q, Nikon, Nikon, now, i);
      DueSearch(q, Classic, Nikon, now, i);
      Inside(q, i);
    }
  }

  lemma OneChannel()
    ensures {Eos, Eos} == {Eos} && {Nikon, Nikon} == {Nikon} && {Classic, Classic} == {Classic}
  {
  }

  lemma Inside(q: seq<Entry>, i: nat)
    ensures forall c, d :: FirstIn(q, i, c, d) ==> i < |q|
  {
  }

  lemma ClassicTakes(h: History, now: TimeVal)
    ensures NoneIn(h.queue, Classic, Classic) ==> Unmoved(h, Step(h, PopClassic(now)))
    ensures forall i: nat :: FirstIn(h.queue, i, Classic, Classic) ==>
                               i < |h.queue| && Leaves(h, Step(h, PopClassic(now)), i, ClassicPop, now)
  {
  }

  lemma EosTakes(h: History, now: TimeVal)
    requires Sorted(h.queue) && Reading(now)
    ensures NoneDueIn(h.queue, Eos, Eos, now) ==> Unmoved(h, Step(h, PopEos(now)))
    ensures forall i: nat :: FirstIn(h.queue, i, Eos, Eos) ==>
                               i < |h.queue| && (Due(h.queue[i], now) ==> Leaves(h, Step(h, PopEos(now)), i, EosPop, now))
  {
    hide FirstOf, Due, Before, Sorted, FirstIn;
    var i := FirstOf(h.queue, {Eos});
    OneChannel();
    if i < |h.queue| {
      DueIs(h.queue[i], now);
    }
    forall k: nat
      ensures FirstIn(h.queue, k, Eos, Eos) ==> k < |h.queue| && i == k
    {
      FirstSearch(h.queue, Eos, Eos, k);
    }
  }

  /** An operation takes what its search finds. */
  lemma StepTakes(h: History, now: TimeVal, later: TimeVal, timeout: nat)
    ensures var i, h' := FirstDue(h.queue, {Nikon}, now), Step(h, PopNikon(now));
            i <= |h.queue| && if i < |h.queue| then Leaves(h, h', i, NikonPop, now) else Unmoved(h, h')
    ensures var i, h' := ReadIntAt(h.queue, now, later, timeout), Step(h, ReadInt(now, later, timeout));
            i <= |h.queue| && if i < |h.queue| then Leaves(h, h', i, Interrupt, now) else Unmoved(h, h')
  {
    hide FirstDue;
  }
}
