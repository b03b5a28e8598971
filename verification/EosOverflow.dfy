/**
 What a GetEvent answer has no room for: exactly which entry is lost, and a run in which a
 client is sent a picture and never the button report that comes before it
 (`src/canon/canon.c`).
 */
module EosOverflow {
  import opened Bytes
  import opened Clock
  import opened EventQueue
  import opened EosEvents
  import opened EosRuns

  /** Every EOS entry of the list is due at every reading. */
  ghost predicate AllDue(q: seq<Entry>, clock: nat -> TimeVal)
  {
    forall e, k: nat :: e in q && e.channel == Eos ==> !Before(clock(k), e.trig)
  }

  /** Entry `j` is the one the answer loses: all before it fit, it does not. */
  ghost predicate LosesAt(d: Drained, data: seq<seq<byte>>, j: nat)
    requires j < |data|
  {
    d.lost == Some(data[j]) && |d.sent| == j
  }

  lemma DuePops(q: seq<Entry>, clock: nat -> TimeVal, k: nat)
    requires AllDue(q, clock)
    ensures PopEosAt(q, clock(k)) == FirstOf(q, {Eos})
    ensures FirstOf(q, {Eos}) < |q| ==> AllDue(Remove(q, FirstOf(q, {Eos})), clock)
    ensures DataOf(q, Eos) != [] ==> FirstOf(q, {Eos}) < |q|
  {
    var i := FirstOf(q, {Eos});
    if i < |q| {
      assert q[i] in q;
      assert forall e :: e in Remove(q, i) ==> e in q;
    } else if DataOf(q, Eos) != [] {
      InDataOf(q, DataOf(q, Eos)[0]);
    }
  }

  /** With `size` bytes filled, exactly the first entry that does not fit any more is lost. */
  lemma {:induction false} LostIff(q: seq<Entry>, clock: nat -> TimeVal, k: nat, size: nat, j: nat)
    requires AllDue(q, clock) && size + 12 <= EVENT_BUFFER && j < |DataOf(q, Eos)|
    ensures var data := DataOf(q, Eos);
            var filled := size + |Flatten(data[..j])| + 12;
            LosesAt(Drain(q, clock, k, size), data, j) <==> filled <= EVENT_BUFFER < filled + |data[j]|
    decreases j
  {
    hide *;
    var i, data := FirstOf(q, {Eos}), DataOf(q, Eos);
    DuePops(q, clock, k);
    DrainStep(q, clock, k, size);
    FirstInChannel(q, Eos);
    var rest := DataOf(Remove(q, i), Eos);
    Heads(data[0], rest, j);
    LosesIs(Drain(q, clock, k, size), data, j);
    if size + |q[i].data| + 12 > EVENT_BUFFER {
    } else if j == 0 {
    } else {
      LostIff(Remove(q, i), clock, k + 1, size + |q[i].data|, j - 1);
      LosesIs(Drain(Remove(q, i), clock, k + 1, size + |q[i].data|), rest, j - 1);
    }
  }

  lemma LosesIs(d: Drained, data: seq<seq<byte>>, j: nat)
    requires j < |data|
    ensures LosesAt(d, data, j) <==> d.lost == Some(data[j]) && |d.sent| == j
  {
  }

  lemma Heads(d: seq<byte>, rest: seq<seq<byte>>, j: nat)
    requires j <= |rest|
    ensures |Flatten(([d] + rest)[..j])| == if j == 0 then 0 else |d| + |Flatten(rest[..j - 1])|
    ensures j > 0 ==> ([d] + rest)[j] == rest[j - 1]
  {
    if j > 0 {
      assert ([d] + rest)[..j] == [d] + rest[..j - 1];
    }
  }

  /**
   When everything queued for a client is due, its answer loses the button report that
   stands at place `j` exactly if 9971 to 9988 bytes stand before it.
   */
  lemma ButtonIsLostIff(q: seq<Entry>, clock: nat -> TimeVal, j: nat, button: u16)
    requires AllDue(q, clock) && j < |DataOf(q, Eos)| && DataOf(q, Eos)[j] == OlcButton(button)
    ensures LosesAt(Drain(q, clock, 0, 0), DataOf(q, Eos), j) <==> 9970 < |Flatten(DataOf(q, Eos)[..j])| <= 9988
  {
    LostIff(q, clock, 0, 0, j);
    assert |OlcButton(button)| == 18;
    hide Drain, DataOf, Flatten, LosesAt, OlcButton;
  }

  // ---- A run that loses it -----------------------------------------------------------------

  const NOTICES: nat := 620

  function Queue(start: TimeVal, ms: nat, data: seq<byte>): Act
  {
    Other(Inject(start, ms, Eos, data))
  }

  function Queued(start: TimeVal, ms: nat, data: seq<byte>): Entry
  {
    Entry(AddMs(start, ms), Eos, data)
  }

  /** Property changes that nobody asked for yet. */
  function Changes(start: TimeVal, notice: seq<byte>, n: nat): (acts: seq<Act>)
    ensures |acts| == n
  {
    if n == 0 then [] else Changes(start, notice, n - 1) + [Queue(start, 0, notice)]
  }

  function Copies<T>(x: T, n: nat): (s: seq<T>)
    ensures |s| == n && forall i :: 0 <= i < n ==> s[i] == x
  {
    seq(n, _ => x)
  }

  /** The notifications of a full press, in the order the camera queues them. */
  function Press(start: TimeVal, picture: seq<byte>): seq<Act>
  {
    [Queue(start, 0, PropChanged(0xD103, [])), Queue(start, 0, PropChanged(0xD102, [])),
     Queue(start, 0, PropChanged(0xD101, [])), Queue(start, 100, PropChanged(0xD11B, [])),
     Queue(start, 50, InfoCheck(0x20001)), Queue(start, 100, OlcButton(4)), Queue(start, 500, picture)]
  }

  /** A second later, for as long as it takes. */
  function SecondLater(start: TimeVal): nat -> TimeVal
  {
    _ => AddMs(start, 1000)
  }

  /** The changes, the full press and two calls of GetEvent. */
  function LosingRun(start: TimeVal, picture: seq<byte>): seq<Act>
  {
    Changes(start, PropChanged(0xD103, []), NOTICES) + Press(start, picture)
    + [Poll([], SecondLater(start)), Poll([], SecondLater(start))]
  }

  ghost predicate Waiting(f: Feed, q: seq<Entry>, start: TimeVal)
  {
    f.h.queue == q && f.h.clock == start && !f.first && f.out == [] && f.answers == []
  }

  lemma ServeSnoc(start: TimeVal, acts: seq<Act>, act: Act)
    requires Serve(start, acts).Some? && Possible(Serve(start, acts).value, act)
    ensures Serve(start, acts + [act]) == Some(Next(Serve(start, acts).value, act))
  {
    assert (acts + [act])[..|acts|] == acts;
    hide Next, Possible;
  }

  ghost predicate AllBefore(q: seq<Entry>, t: TimeVal)
  {
    forall k :: 0 <= k < |q| ==> Before(q[k].trig, t)
  }

  lemma BeforeSnoc(q: seq<Entry>, e: Entry, t: TimeVal)
    ensures AllBefore(q + [e], t) <==> AllBefore(q, t) && Before(e.trig, t)
    ensures AllBefore([], t)
  {
    assert (q + [e])[|q|] == e;
    assert forall k :: 0 <= k < |q| ==> (q + [e])[k] == q[k];
  }

  /** One more notification at the same moment, between those that trigger before it and the others. */
  lemma QueueOne(start: TimeVal, acts: seq<Act>, a: seq<Entry>, b: seq<Entry>, ms: nat, data: seq<byte>)
    requires Reading(start) && Serve(start, acts).Some? && Waiting(Serve(start, acts).value, a + b, start)
    requires AllBefore(a, AddMs(start, ms)) && (b != [] ==> !Before(b[0].trig, AddMs(start, ms)))
    ensures Serve(start, acts + [Queue(start, ms, data)]).Some?
    ensures Waiting(Serve(start, acts + [Queue(start, ms, data)]).value, a + [Queued(start, ms, data)] + b, start)
  {
    hide Serve, InsertAt, AddMs;
    ServeSnoc(start, acts, Queue(start, ms, data));
    InsertAtIs(a + b, AddMs(start, ms), |a|);
    assert (a + b)[..|a|] == a && (a + b)[|a|..] == b;
  }

  lemma {:induction false} ChangesQueue(start: TimeVal, notice: seq<byte>, n: nat)
    requires Reading(start)
    ensures Serve(start, Changes(start, notice, n)).Some?
    ensures Waiting(Serve(start, Changes(start, notice, n)).value, Copies(Queued(start, 0, notice), n), start)
  {
    if n == 0 {
    } else {
      hide Serve, Waiting;
      ChangesQueue(start, notice, n - 1);
      var e := Queued(start, 0, notice);
      assert [] + Copies(e, n - 1) == Copies(e, n - 1);
      QueueOne(start, Changes(start, notice, n - 1), [], Copies(e, n - 1), 0, notice);
      assert [] + [e] + Copies(e, n - 1) == Copies(e, n);
    }
  }

  lemma Times(start: TimeVal)
    requires Reading(start)
    ensures AddMs(start, 0) == start && Reading(AddMs(start, 1000)) && !Before(AddMs(start, 1000), start)
    ensures Before(start, AddMs(start, 50)) && Before(AddMs(start, 50), AddMs(start, 100))
    ensures Before(start, AddMs(start, 100)) && Before(AddMs(start, 100), AddMs(start, 500))
    ensures !Before(start, start) && !Before(AddMs(start, 100), AddMs(start, 50)) && !Before(AddMs(start, 100), AddMs(start, 100))
    ensures Before(start, AddMs(start, 500)) && Before(AddMs(start, 50), AddMs(start, 500))
    ensures forall ms :: ms in {0, 50, 100, 500} ==> !Before(AddMs(start, 1000), AddMs(start, ms))
  {
  }

  /** What the press leaves in front of the button report, and behind it. */
  function InFront(start: TimeVal): seq<Entry>
  {
    Changed(start) + [Queued(start, 50, InfoCheck(0x20001))]
  }

  function Changed(start: TimeVal): seq<Entry>
  {
    [Queued(start, 0, PropChanged(0xD101, []))] + ([Queued(start, 0, PropChanged(0xD102, []))]
                                                   + Copies(Queued(start, 0, PropChanged(0xD103, [])), NOTICES + 1))
  }

  function Behind(start: TimeVal, picture: seq<byte>): seq<Entry>
  {
    [Queued(start, 100, PropChanged(0xD11B, [])), Queued(start, 500, picture)]
  }

  function Pressed(start: TimeVal, picture: seq<byte>): seq<Entry>
  {
    InFront(start) + [Queued(start, 100, OlcButton(4))] + Behind(start, picture)
  }

  /** The three changes a press makes at once go to the front. */
  lemma ChangesInFront(start: TimeVal)
    requires Reading(start)
    ensures var acts := Changes(start, PropChanged(0xD103, []), NOTICES + 1)
                        + [Queue(start, 0, PropChanged(0xD102, []))] + [Queue(start, 0, PropChanged(0xD101, []))];
            Serve(start, acts).Some? && Waiting(Serve(start, acts).value, Changed(start), start)
  {
    hide Serve, Waiting, Changes, PropChanged, AddMs, Before, Reading, Copies;
    Times(start);
    var iso, shutter, aperture := PropChanged(0xD103, []), PropChanged(0xD102, []), PropChanged(0xD101, []);
    var a, q := Changes(start, iso, NOTICES + 1), Copies(Queued(start, 0, iso), NOTICES + 1);
    ChangesQueue(start, iso, NOTICES + 1);
    NothingInFront(q);
    QueueOne(start, a, [], q, 0, shutter);
    NothingInFront([Queued(start, 0, shutter)] + q);
    NothingInFront([Queued(start, 0, shutter)]);
    QueueOne(start, a + [Queue(start, 0, shutter)], [], [Queued(start, 0, shutter)] + q, 0, aperture);
    NothingInFront([Queued(start, 0, aperture)]);
  }

  lemma NothingInFront<T>(q: seq<T>)
    ensures [] + q == q && q + [] == q
  {
  }

  lemma ChangedAreNow(start: TimeVal)
    requires Reading(start)
    ensures AllBefore(Changed(start), AddMs(start, 50)) && AllBefore(Changed(start), AddMs(start, 100))
    ensures AllBefore(Changed(start), AddMs(start, 500))
  {
    hide PropChanged, AddMs, Before, Reading;
    Times(start);
  }

  lemma PressQueues(start: TimeVal, picture: seq<byte>)
    requires Reading(start)
    ensures var acts := Changes(start, PropChanged(0xD103, []), NOTICES) + Press(start, picture);
            Serve(start, acts).Some? && Waiting(Serve(start, acts).value, Pressed(start, picture), start)
  {
    hide Serve, Waiting, Changes, PropChanged, InfoCheck, OlcButton, AddMs, Before, Reading, Changed, AllBefore;
    Times(start);
    ChangesInFront(start);
    ChangedAreNow(start);
    var shots, info, button := PropChanged(0xD11B, []), InfoCheck(0x20001), OlcButton(4);
    var c, i := Changed(start), Queued(start, 50, info);
    var b, v := Queued(start, 100, button), Queued(start, 100, shots);
    var a := Changes(start, PropChanged(0xD103, []), NOTICES + 1)
             + [Queue(start, 0, PropChanged(0xD102, []))] + [Queue(start, 0, PropChanged(0xD101, []))];
    NothingInFront(c);
    QueueOne(start, a, c, [], 100, shots);
    NothingInFront(c + [v]);
    var a1 := a + [Queue(start, 100, shots)];
    QueueOne(start, a1, c, [v], 50, info);
    var a2 := a1 + [Queue(start, 50, info)];
    BeforeSnoc(c, i, AddMs(start, 100));
    QueueOne(start, a2, c + [i], [v], 100, button);
    var a3 := a2 + [Queue(start, 100, button)];
    BeforeSnoc(c, i, AddMs(start, 500));
    BeforeSnoc(c + [i], b, AddMs(start, 500));
    BeforeSnoc(c + [i] + [b], v, AddMs(start, 500));
    NothingInFront(c + [i] + [b] + [v]);
    QueueOne(start, a3, c + [i] + [b] + [v], [], 500, picture);
    NothingInFront(c + [i] + [b] + [v] + [Queued(start, 500, picture)]);
    assert c + [i] + [b] + [v] + [Queued(start, 500, picture)] == Pressed(start, picture);
    ActsAre(start, picture);
  }

  lemma ActsAre(start: TimeVal, picture: seq<byte>)
    ensures Changes(start, PropChanged(0xD103, []), NOTICES + 1)
            + [Queue(start, 0, PropChanged(0xD102, []))] + [Queue(start, 0, PropChanged(0xD101, []))]
            + [Queue(start, 100, PropChanged(0xD11B, []))] + [Queue(start, 50, InfoCheck(0x20001))]
            + [Queue(start, 100, OlcButton(4))] + [Queue(start, 500, picture)]
         == Changes(start, PropChanged(0xD103, []), NOTICES) + Press(start, picture)
  {
    hide PropChanged, InfoCheck, OlcButton;
  }

  // ---- The two answers ---------------------------------------------------------------------

  function Datas(q: seq<Entry>): (ds: seq<seq<byte>>)
    ensures |ds| == |q| && forall i :: 0 <= i < |q| ==> ds[i] == q[i].data
  {
    seq(|q|, i requires 0 <= i < |q| => q[i].data)
  }

  lemma {:induction false} DataOfEos(q: seq<Entry>)
    requires forall i :: 0 <= i < |q| ==> q[i].channel == Eos
    ensures DataOf(q, Eos) == Datas(q)
  {
    if q == [] {
    } else {
      DataOfEos(q[1..]);
      assert Datas(q) == [q[0].data] + Datas(q[1..]);
    }
  }

  lemma {:induction false} EqualSizes(ds: seq<seq<byte>>, n: nat)
    requires forall i :: 0 <= i < |ds| ==> |ds[i]| == n
    ensures |Flatten(ds)| == n * |ds|
  {
    if ds == [] {
    } else {
      EqualSizes(ds[1..], n);
    }
  }

  /** The 624 entries in front of the button report take 9980 bytes, and none of them is it. */
  lemma FrontSize(start: TimeVal)
    ensures |InFront(start)| == 624 && |Flatten(Datas(InFront(start)))| == 9980
    ensures OlcButton(4) !in Datas(InFront(start))
    ensures forall i :: 0 <= i < |InFront(start)| ==> InFront(start)[i].channel == Eos && |InFront(start)[i].data| < 18
  {
    assert forall dpc :: |PropChanged(dpc, [])| == 16;
    hide PropChanged, AddMs;
    var c, ds := Changed(start), Datas(InFront(start));
    assert ds == Datas(c) + [InfoCheck(0x20001)];
    EqualSizes(Datas(c), 16);
    FlattenSnoc(Datas(c), InfoCheck(0x20001));
    assert |InfoCheck(0x20001)| == 12 && |OlcButton(4)| == 18;
  }

  lemma PressedData(start: TimeVal, picture: seq<byte>)
    ensures DataOf(Pressed(start, picture), Eos) ==
            Datas(InFront(start)) + ([OlcButton(4)] + [PropChanged(0xD11B, []), picture])
  {
    FrontSize(start);
    hide InFront, PropChanged, OlcButton, AddMs;
    DataOfEos(Pressed(start, picture));
  }

  lemma PressedIsDue(start: TimeVal, picture: seq<byte>)
    requires Reading(start)
    ensures AllDue(Pressed(start, picture), SecondLater(start))
  {
    hide PropChanged, InfoCheck, OlcButton, AddMs, Before, Reading;
    Times(start);
    var later := AddMs(start, 1000);
    var q := Pressed(start, picture);
    assert forall i :: 0 <= i < |q| ==> q[i].trig in {AddMs(start, 0), AddMs(start, 50), AddMs(start, 100), AddMs(start, 500)};
    forall e, k: nat | e in q && e.channel == Eos
      ensures !Before(SecondLater(start)(k), e.trig)
    {
    }
  }

  lemma {:induction false} DrainLeavesSome(q: seq<Entry>, clock: nat -> TimeVal, k: nat, size: nat)
    requires Sorted(q)
    ensures forall e :: e in Drain(q, clock, k, size).queue ==> e in q
    decreases |q|
  {
    hide Drain, PopEosAt;
    DrainStep(q, clock, k, size);
    var i := PopEosAt(q, clock(k));
    if i < |q| {
      RemoveKeepsSorted(q, i);
      assert forall e :: e in Remove(q, i) ==> e in q;
      hide Remove, Sorted;
      if size + |q[i].data| + 12 <= EVENT_BUFFER {
        DrainLeavesSome(Remove(q, i), clock, k + 1, size + |q[i].data|);
      }
    }
  }

  lemma NoneDueIsNone(q: seq<Entry>, clock: nat -> TimeVal, k: nat)
    requires AllDue(q, clock) && NoneDue(q, Eos, clock(k))
    ensures DataOf(q, Eos) == []
  {
    hide DataOf;
    if DataOf(q, Eos) != [] {
      InDataOf(q, DataOf(q, Eos)[0]);
    }
  }

  lemma PartsOf(sent: seq<seq<byte>>, lost: seq<seq<byte>>, rest: seq<seq<byte>>)
    ensures |Flatten(sent + (lost + rest))| == |Flatten(sent)| + |Flatten(lost)| + |Flatten(rest)|
    ensures |lost| == 1 ==> |Flatten(lost)| == |lost[0]|
    ensures lost == [] && rest == [] ==> sent + (lost + rest) == sent
  {
    FlattenAppend(sent, lost + rest);
    FlattenAppend(lost, rest);
    if |lost| == 1 {
      assert lost == [] + [lost[0]];
      FlattenSnoc([], lost[0]);
      FlattenNone<byte>([]);
    }
    hide Flatten;
  }

  /** A small list of due entries goes out in one answer. */
  lemma SmallGoesOut(q: seq<Entry>, clock: nat -> TimeVal)
    requires Sorted(q) && AllDue(q, clock) && |Flatten(DataOf(q, Eos))| + 12 <= EVENT_BUFFER
    ensures Drain(q, clock, 0, 0).sent == DataOf(q, Eos) && DataOf(Drain(q, clock, 0, 0).queue, Eos) == []
  {
    hide Drain, DataOf, Sorted, Others, AllDue, NoneDue, Flatten;
    var d := Drain(q, clock, 0, 0);
    DrainTakesInOrder(q, clock, 0, 0);
    DrainLeavesSome(q, clock, 0, 0);
    DueAmong(q, d.queue, clock);
    PartsOf(d.sent, Lost(d), DataOf(d.queue, Eos));
    if d.lost.None? {
      NoneDueIsNone(d.queue, clock, 0 + |d.sent|);
    }
  }

  /** The first answer stops at the button report and leaves what stands behind it. */
  lemma FirstAnswer(start: TimeVal, picture: seq<byte>)
    requires Reading(start) && Sorted(Pressed(start, picture))
    ensures var d := Drain(Pressed(start, picture), SecondLater(start), 0, 0);
            && d.sent == Datas(InFront(start)) && d.lost == Some(OlcButton(4)) && Sorted(d.queue)
            && DataOf(d.queue, Eos) == [PropChanged(0xD11B, []), picture]
            && AllDue(d.queue, SecondLater(start))
  {
    hide Drain, DataOf, Sorted, Others, AllDue, NoneDue, Flatten, Datas, Pressed, InFront, PropChanged, OlcButton, LosesAt,
         DrainedFrom, SecondLater, Reading;
    var q, clock, front := Pressed(start, picture), SecondLater(start), Datas(InFront(start));
    PressedData(start, picture);
    PressedIsDue(start, picture);
    FrontSize(start);
    var behind: seq<seq<byte>> := [PropChanged(0xD11B, []), picture];
    AtTheButton(front, OlcButton(4), behind);
    ButtonIsLostIff(q, clock, |front|, 4);
    LosesIs(Drain(q, clock, 0, 0), DataOf(q, Eos), |front|);
    DrainTakesInOrder(q, clock, 0, 0);
    DrainLeavesSome(q, clock, 0, 0);
    DrainedParts(q, Drain(q, clock, 0, 0), clock(0 + |Drain(q, clock, 0, 0).sent|));
    SplitAt(Drain(q, clock, 0, 0).sent, front, OlcButton(4), DataOf(Drain(q, clock, 0, 0).queue, Eos), behind);
    DueAmong(q, Drain(q, clock, 0, 0).queue, clock);
  }

  lemma AtTheButton(front: seq<seq<byte>>, button: seq<byte>, behind: seq<seq<byte>>)
    ensures var ds := front + ([button] + behind); ds[|front|] == button && ds[..|front|] == front && |front| < |ds|
  {
  }

  lemma DrainedParts(q: seq<Entry>, d: Drained, now: TimeVal)
    requires DrainedFrom(q, d, 0, now)
    ensures Sorted(d.queue)
    ensures d.lost.Some? ==> DataOf(q, Eos) == d.sent + ([d.lost.value] + DataOf(d.queue, Eos))
  {
  }

  lemma SplitAt(sent: seq<seq<byte>>, front: seq<seq<byte>>, x: seq<byte>, rest: seq<seq<byte>>, behind: seq<seq<byte>>)
    requires sent + ([x] + rest) == front + ([x] + behind) && |sent| == |front|
    ensures sent == front && rest == behind
  {
    var l, r := sent + ([x] + rest), front + ([x] + behind);
    assert l[..|sent|] == sent && r[..|front|] == front;
    assert l[|sent| + 1..] == rest && r[|front| + 1..] == behind;
  }

  lemma DueAmong(q: seq<Entry>, r: seq<Entry>, clock: nat -> TimeVal)
    requires AllDue(q, clock) && forall e :: e in r ==> e in q
    ensures AllDue(r, clock)
  {
  }

  lemma PollOne(start: TimeVal, acts: seq<Act>)
    requires Reading(start) && Serve(start, acts).Some? && !Serve(start, acts).value.first
    requires !Before(AddMs(start, 1000), Serve(start, acts).value.h.clock)
    ensures var f, g := Serve(start, acts).value, Serve(start, acts + [Poll([], SecondLater(start))]);
            var d := Drain(f.h.queue, SecondLater(start), 0, 0);
            && g.Some? && !g.value.first && g.value.h.queue == d.queue && g.value.answers == f.answers + [d.sent]
            && !Before(AddMs(start, 1000), g.value.h.clock)
  {
    hide Serve, Drain, Pops, AddMs, Seen;
    Times(start);
    var f, clock := Serve(start, acts).value, SecondLater(start);
    assert Ticks(f.h.clock, clock, 0);
    ServeSnoc(start, acts, Poll([], clock));
    PopsAreDrain(f.h, f.out, clock, 0, 0);
    StillThen(f.h, f.out, start, 0, 0);
  }

  lemma {:induction false} StillThen(h: History, out: seq<Out>, start: TimeVal, k: nat, size: nat)
    ensures Pops(h, out, SecondLater(start), k, size).0.clock == AddMs(start, 1000)
    decreases |h.queue|
  {
    hide Step, PopEosAt, Remove, AddMs;
    var now := AddMs(start, 1000);
    PopIs(h, now);
    if PopEosAt(h.queue, now) < |h.queue| {
      var o := Out(h.queue[PopEosAt(h.queue, now)], size);
      if Sent(o) {
        StillThen(Step(h, PopEos(now)), out + [o], start, k + 1, size + |o.entry.data|);
      }
    }
  }

  /**
   A client that did not ask for events through 620 property changes and a full press is
   sent every entry but the button report in two calls, the picture among them: its place
   in front of the picture stays empty for good.
   */
  lemma ButtonIsLost(start: TimeVal, picture: seq<byte>)
    requires Reading(start) && |picture| <= 104 && |picture| != 18
    ensures var f := Serve(start, LosingRun(start, picture));
            && f.Some? && Flatten(f.value.answers) == Datas(InFront(start)) + [PropChanged(0xD11B, []), picture]
            && picture in Flatten(f.value.answers) && OlcButton(4) !in Flatten(f.value.answers)
            && DataOf(f.value.h.queue, Eos) == []
  {
    hide Serve, Drain, DataOf, Sorted, AllDue, Flatten, Datas, Pressed, InFront, PropChanged, OlcButton, AddMs, Changes, Press,
         Reading, FeedInv, Inv, SecondLater;
    var a0, poll := Changes(start, PropChanged(0xD103, []), NOTICES) + Press(start, picture), Poll([], SecondLater(start));
    PressQueues(start, picture);
    Times(start);
    RunFeedsInOrder(start, a0);
    QueuedWasInjected(Serve(start, a0).value);
    FirstAnswer(start, picture);
    PollOne(start, a0);
    var d1 := Drain(Pressed(start, picture), SecondLater(start), 0, 0);
    BehindIsSmall(picture);
    SmallGoesOut(d1.queue, SecondLater(start));
    PollOne(start, a0 + [poll]);
    NothingInFront<seq<seq<byte>>>([d1.sent]);
    var behind: seq<seq<byte>> := [PropChanged(0xD11B, []), picture];
    TwoAnswers(d1.sent, behind);
    assert a0 + [poll] + [poll] == LosingRun(start, picture);
    FrontSize(start);
    NotTheButton(Datas(InFront(start)), picture);
  }

  lemma BehindIsSmall(picture: seq<byte>)
    requires |picture| <= 104
    ensures |Flatten([PropChanged(0xD11B, []), picture])| + 12 <= EVENT_BUFFER
  {
    assert |PropChanged(0xD11B, [])| == 16;
    hide PropChanged;
    FlattenSnoc([PropChanged(0xD11B, [])], picture);
    FlattenSnoc([], PropChanged(0xD11B, []));
    assert [] + [PropChanged(0xD11B, [])] == [PropChanged(0xD11B, [])];
    assert [PropChanged(0xD11B, [])] + [picture] == [PropChanged(0xD11B, []), picture];
  }

  lemma TwoAnswers(a: seq<seq<byte>>, b: seq<seq<byte>>)
    ensures Flatten([a] + [b]) == a + b
  {
    FlattenSnoc([a], b);
    FlattenSnoc([], a);
    assert [] + [a] == [a];
    FlattenNone<seq<byte>>([]);
  }

  lemma NotTheButton(front: seq<seq<byte>>, picture: seq<byte>)
    requires OlcButton(4) !in front && |picture| != 18
    ensures var seen := front + [PropChanged(0xD11B, []), picture]; picture in seen && OlcButton(4) !in seen
  {
    assert |OlcButton(4)| == 18 && |PropChanged(0xD11B, [])| == 16;
    hide OlcButton, PropChanged;
    var seen := front + [PropChanged(0xD11B, []), picture];
    assert seen[|front| + 1] == picture;
  }
}
