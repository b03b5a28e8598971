/**
 The stand-in for libusb's asynchronous transfers: one list of pending transfers, walked
 with a pointer to the link under inspection while callbacks put transfers back in front
 of it (`src/usb/libusb.c`).
 */
module UsbTransfers {
  import opened Bytes
  import opened Clock
  import opened EventQueue

  datatype Kind = InterruptIn | InterruptOut | Bulk | Unsupported

  /** `resubmits` says what the callback does: submit the same transfer again, or nothing. */
  datatype Transfer = Transfer(id: nat, kind: Kind, timeout: nat, length: nat, resubmits: bool)

  /** `since` is when the transfer was submitted; the program keeps only the deadline. */
  datatype Pending = Pending(t: Transfer, deadline: TimeVal, since: TimeVal)

  datatype Status = Completed(actual: nat) | TimedOut | NoDevice | Overflow | Failed | Cancelled

  /** One call of a transfer's callback, with the camera event copied to its buffer if any. */
  datatype Callback = Callback(p: Pending, status: Status, event: Option<Entry>, at: TimeVal)

  /**
   The pending list, the walk's position in it, the camera's event list, and what happened
   so far: submits, callbacks, events queued and events taken off the camera's list.
   */
  datatype Bus = Bus(pending: seq<Pending>, pp: nat, queue: seq<Entry>, submitted: seq<Transfer>,
                     callbacks: seq<Callback>, injected: seq<Entry>, taken: seq<Entry>)

  const GP_ERROR_TIMEOUT: int := -20

  function StatusOf(rc: int): Status
  {
    if rc >= 0 then Completed(rc)
    else if rc == -7 then TimedOut
    else if rc == -4 then NoDevice
    else if rc == -8 then Overflow
    else Failed
  }

  function NewPending(t: Transfer, now: TimeVal): Pending
  {
    Pending(t, if t.timeout > 0 then AddMs(now, t.timeout) else TimeVal(0, 0), now)
  }

  function Submitted(b: Bus, t: Transfer, now: TimeVal): Bus
  {
    b.(pending := [NewPending(t, now)] + b.pending, submitted := b.submitted + [t])
  }

  function Without(ps: seq<Pending>, i: nat): (r: seq<Pending>)
    requires i < |ps|
    ensures |r| == |ps| - 1
  {
    ps[..i] + ps[i + 1..]
  }

  /**
   finish_entry at the walk's position: unlinked first, called back then. A resubmitted
   transfer goes to the front of the list, which is where the walk stands only if it had
   not moved yet.
   */
  function Finish(b: Bus, status: Status, event: Option<Entry>, at: TimeVal, again: TimeVal): Bus
    requires b.pp < |b.pending|
  {
    var p := b.pending[b.pp];
    var done := b.(pending := Without(b.pending, b.pp), callbacks := b.callbacks + [Callback(p, status, event, at)]);
    if p.t.resubmits then
      Submitted(done, p.t, again).(pp := if b.pp == 0 then 0 else b.pp + 1)
    else
      done
  }

  /** What became of the transfer under inspection; Waiting leaves it where it is. */
  datatype Outcome = Waiting | Done(status: Status)

  predicate Expired(p: Pending, now: TimeVal)
  {
    p.t.timeout > 0 && !Before(now, p.deadline)
  }

  /**
   One turn of the inner loop; past the end it begins the next round. `rc` is what the bulk
   endpoints answer.
   */
  function Visit(b: Bus, at: TimeVal, later: TimeVal, again: TimeVal, rc: int): Bus
  {
    if b.pp >= |b.pending| then
      b.(pp := 0)
    else
      var p := b.pending[b.pp];
      if Expired(p, at) then
        Finish(b, TimedOut, None, at, again)
      else if p.t.kind == InterruptOut then
        Finish(b, Completed(0), None, at, again)
      else if p.t.kind == InterruptIn then
        var i := ReadIntAt(b.queue, at, later, 0);
        if i < |b.queue| then
          var e := b.queue[i];
          Finish(b.(queue := Remove(b.queue, i), taken := b.taken + [e]),
                 Completed(Min(|e.data|, p.t.length)), Some(e), at, again)
        else
          b.(pp := b.pp + 1)
      else if rc == GP_ERROR_TIMEOUT then
        b.(pp := b.pp + 1)
      else
        Finish(b, StatusOf(rc), None, at, again)
  }

  function FindPending(ps: seq<Pending>, t: Transfer): (i: nat)
    ensures i <= |ps|
    ensures i < |ps| ==> ps[i].t == t
    ensures forall k :: 0 <= k < i ==> ps[k].t != t
  {
    if ps == [] || ps[0].t == t then 0 else 1 + FindPending(ps[1..], t)
  }

  /** libusb_cancel_transfer: the callback runs before it returns. */
  function CancelAt(b: Bus, i: nat, now: TimeVal): Bus
    requires i < |b.pending|
  {
    Finish(b.(pp := i), Cancelled, None, now, now).(pp := 0)
  }

  // ---- Whole runs ------------------------------------------------------------------------

  datatype Op =
    | Inject(e: Entry)
    | Submit(t: Transfer, now: TimeVal)
    | Cancel(t: Transfer, now: TimeVal)
    | Turn(at: TimeVal, later: TimeVal, again: TimeVal, rc: int)

  predicate Clocked(op: Op)
  {
    match op
    case Inject(_) => true
    case Submit(_, now) => Reading(now)
    case Cancel(_, now) => Reading(now)
    case Turn(at, later, again, _) =>
      Reading(at) && Reading(later) && Reading(again) && !Before(later, at) && !Before(again, later)
  }

  function Apply(b: Bus, op: Op): Bus
  {
    match op
    case Inject(e) => b.(queue := Insert(b.queue, e), injected := b.injected + [e])
    case Submit(t, now) => if t.kind == Unsupported then b else Submitted(b, t, now).(pp := 0)
    case Cancel(t, now) =>
      var i := FindPending(b.pending, t);
      if i == |b.pending| then b else CancelAt(b, i, now)
    case Turn(at, later, again, rc) => Visit(b, at, later, again, rc)
  }

  const IDLE := Bus([], 0, [], [], [], [], [])

  function Run(ops: seq<Op>): Bus
  {
    if ops == [] then IDLE else Apply(Run(ops[..|ops| - 1]), ops[|ops| - 1])
  }

  function Walk(b: Bus, turns: seq<Op>): Bus
  {
    if turns == [] then b else Apply(Walk(b, turns[..|turns| - 1]), turns[|turns| - 1])
  }

  function Transfers(ps: seq<Pending>): (ts: seq<Transfer>)
    ensures |ts| == |ps| && forall i :: 0 <= i < |ps| ==> ts[i] == ps[i].t
  {
    seq(|ps|, i requires 0 <= i < |ps| => ps[i].t)
  }

  function CalledBack(cs: seq<Callback>): (ts: seq<Transfer>)
    ensures |ts| == |cs| && forall i :: 0 <= i < |cs| ==> ts[i] == cs[i].p.t
  {
    seq(|cs|, i requires 0 <= i < |cs| => cs[i].p.t)
  }

  /** The events handed to clients, in the order of the callbacks that carried them. */
  function Carried(cs: seq<Callback>): seq<Entry>
  {
    if cs == [] then []
    else Carried(cs[..|cs| - 1]) + if cs[|cs| - 1].event.Some? then [cs[|cs| - 1].event.value] else []
  }

  /** Every submit was called back once or is still pending. */
  ghost predicate Balanced(b: Bus)
  {
    multiset(b.submitted) == multiset(CalledBack(b.callbacks)) + multiset(Transfers(b.pending))
  }

  /** Every event that left the camera's list completed exactly one transfer. */
  ghost predicate EventsAccounted(b: Bus)
  {
    Carried(b.callbacks) == b.taken && multiset(b.injected) == multiset(b.queue) + multiset(b.taken)
  }

  ghost predicate Timely(p: Pending)
  {
    && Reading(p.since) && (p.t.timeout > 0 ==> p.deadline == AddMs(p.since, p.t.timeout))
    && p.t.kind != Unsupported
  }

  /** What a callback may truthfully say. */
  ghost predicate Truthful(c: Callback)
  {
    && Timely(c.p) && Reading(c.at)
    && (c.event.Some? ==>
          && c.p.t.kind == InterruptIn && c.event.value.channel != Eos && !Before(c.at, c.event.value.trig)
          && c.status == Completed(Min(|c.event.value.data|, c.p.t.length)))
    && (c.p.t.kind == InterruptIn && c.status.Completed? ==> c.event.Some?)
    && (c.p.t.kind != Bulk ==> c.status.Completed? || c.status == TimedOut || c.status == Cancelled)
    && (c.p.t.kind != Bulk && c.status == TimedOut ==>
          c.p.t.timeout > 0 && Micros(c.at) >= Micros(c.p.since) + 1000 * c.p.t.timeout)
  }

  ghost predicate Inv(b: Bus)
  {
    && b.pp <= |b.pending| && Sorted(b.queue)
    && Balanced(b) && EventsAccounted(b)
    && (forall i :: 0 <= i < |b.pending| ==> Timely(b.pending[i]))
    && (forall i :: 0 <= i < |b.callbacks| ==> Truthful(b.callbacks[i]))
  }

  lemma WithoutCounts(ps: seq<Pending>, i: nat)
    requires i < |ps|
    ensures multiset(Transfers(ps)) == multiset(Transfers(Without(ps, i))) + multiset{ps[i].t}
  {
    var ts := Transfers(ps);
    assert ts == ts[..i] + [ts[i]] + ts[i + 1..];
    assert Transfers(Without(ps, i)) == ts[..i] + ts[i + 1..];
  }

  lemma SubmitCounts(ps: seq<Pending>, p: Pending)
    ensures multiset(Transfers([p] + ps)) == multiset{p.t} + multiset(Transfers(ps))
  {
    assert Transfers([p] + ps) == [p.t] + Transfers(ps);
  }

  lemma CallbackCounts(cs: seq<Callback>, c: Callback)
    ensures multiset(CalledBack(cs + [c])) == multiset(CalledBack(cs)) + multiset{c.p.t}
    ensures Carried(cs + [c]) == Carried(cs) + if c.event.Some? then [c.event.value] else []
  {
    assert CalledBack(cs + [c]) == CalledBack(cs) + [c.p.t];
    assert (cs + [c])[..|cs|] == cs;
  }

  lemma TimelyIsNew(t: Transfer, now: TimeVal)
    requires Reading(now) && t.kind != Unsupported
    ensures Timely(NewPending(t, now))
  {
  }

  /** finish_entry moves one transfer from the list to the callbacks, and perhaps back. */
  lemma FinishBalances(b: Bus, status: Status, event: Option<Entry>, at: TimeVal, again: TimeVal)
    requires Balanced(b) && b.pp < |b.pending|
    ensures Balanced(Finish(b, status, event, at, again))
  {
    var p := b.pending[b.pp];
    WithoutCounts(b.pending, b.pp);
    CallbackCounts(b.callbacks, Callback(p, status, event, at));
    SubmitCounts(Without(b.pending, b.pp), NewPending(p.t, again));
    hide Transfers, CalledBack, Carried, Without;
  }

  lemma FinishKeepsTruth(b: Bus, status: Status, event: Option<Entry>, at: TimeVal, again: TimeVal)
    requires b.pp < |b.pending| && Reading(again)
    requires forall i :: 0 <= i < |b.pending| ==> Timely(b.pending[i])
    requires forall i :: 0 <= i < |b.callbacks| ==> Truthful(b.callbacks[i])
    requires Truthful(Callback(b.pending[b.pp], status, event, at))
    ensures var r := Finish(b, status, event, at, again);
            && r.pp <= |r.pending|
            && (forall i :: 0 <= i < |r.pending| ==> Timely(r.pending[i]))
            && (forall i :: 0 <= i < |r.callbacks| ==> Truthful(r.callbacks[i]))
  {
    var p := b.pending[b.pp];
    assert Timely(p);
    TimelyIsNew(p.t, again);
    hide Truthful, Timely;
    assert forall i :: 0 <= i < |b.pending| - 1 ==> Timely(Without(b.pending, b.pp)[i]);
  }

  lemma ExpiredIsLate(p: Pending, at: TimeVal)
    requires Timely(p) && Reading(at) && Expired(p, at)
    ensures Truthful(Callback(p, TimedOut, None, at))
  {
    AddMsIsExact(p.since, p.t.timeout);
    DueAgrees(p.deadline, at);
  }

  lemma TakenIsTruthful(p: Pending, q: seq<Entry>, at: TimeVal, later: TimeVal)
    requires Timely(p) && p.t.kind == InterruptIn && Sorted(q) && Reading(at) && Reading(later) && !Before(later, at)
    requires ReadIntAt(q, at, later, 0) < |q|
    ensures var e := q[ReadIntAt(q, at, later, 0)];
            Truthful(Callback(p, Completed(Min(|e.data|, p.t.length)), Some(e), at))
  {
    TimeoutIsIdle(q, at, later, 0);
  }

  lemma VisitKeeps(b: Bus, at: TimeVal, later: TimeVal, again: TimeVal, rc: int)
    requires Inv(b) && Reading(at) && Reading(later) && Reading(again) && !Before(later, at)
    ensures Inv(Visit(b, at, later, again, rc))
  {
    if b.pp < |b.pending| {
      var p := b.pending[b.pp];
      var i := ReadIntAt(b.queue, at, later, 0);
      if Expired(p, at) {
        ExpiredIsLate(p, at);
        FinishKeeps(b, TimedOut, None, at, again);
      } else if p.t.kind == InterruptOut {
        FinishKeeps(b, Completed(0), None, at, again);
      } else if p.t.kind == InterruptIn && i < |b.queue| {
        TakeKeeps(b, at, later, again);
      } else if p.t.kind == Bulk && rc != GP_ERROR_TIMEOUT {
        FinishKeeps(b, StatusOf(rc), None, at, again);
      }
    }
    hide Balanced, EventsAccounted, Truthful, Timely, Finish, ReadIntAt, Sorted, Remove;
  }

  lemma FinishKeeps(b: Bus, status: Status, event: Option<Entry>, at: TimeVal, again: TimeVal)
    requires Inv(b) && b.pp < |b.pending| && Reading(again) && event.None?
    requires Truthful(Callback(b.pending[b.pp], status, event, at))
    ensures Inv(Finish(b, status, event, at, again))
  {
    hide Balanced, Truthful, Timely, Sorted, Carried;
    FinishBalances(b, status, event, at, again);
    FinishKeepsTruth(b, status, event, at, again);
    CallbackCounts(b.callbacks, Callback(b.pending[b.pp], status, event, at));
    assert Carried(b.callbacks) + [] == Carried(b.callbacks);
    hide Without, NewPending;
  }

  lemma TakeAccounts(b: Bus, i: nat, c: Callback)
    requires EventsAccounted(b) && i < |b.queue| && c.event == Some(b.queue[i])
    ensures forall r: Bus ::
              (r.callbacks == b.callbacks + [c] && r.taken == b.taken + [b.queue[i]]
               && r.queue == Remove(b.queue, i) && r.injected == b.injected) ==> EventsAccounted(r)
  {
    CallbackCounts(b.callbacks, c);
    CountRemove(b.queue, i);
    hide Carried, Remove;
    assert multiset(b.taken + [b.queue[i]]) == multiset(b.taken) + multiset{b.queue[i]};
  }

  lemma SameBalance(b: Bus, b': Bus)
    requires Balanced(b) && b'.submitted == b.submitted && b'.callbacks == b.callbacks && b'.pending == b.pending
    ensures Balanced(b')
  {
  }

  lemma TakeKeeps(b: Bus, at: TimeVal, later: TimeVal, again: TimeVal)
    requires Inv(b) && b.pp < |b.pending| && Reading(at) && Reading(later) && Reading(again) && !Before(later, at)
    requires b.pending[b.pp].t.kind == InterruptIn && ReadIntAt(b.queue, at, later, 0) < |b.queue|
    requires !Expired(b.pending[b.pp], at)
    ensures Inv(Visit(b, at, later, again, 0))
  {
    hide Truthful, Timely, Balanced, EventsAccounted, Sorted, Remove, ReadIntAt, Finish;
    var i := ReadIntAt(b.queue, at, later, 0);
    TakenIsTruthful(b.pending[b.pp], b.queue, at, later);
    RemoveKeepsSorted(b.queue, i);
    SameBalance(b, b.(queue := Remove(b.queue, i), taken := b.taken + [b.queue[i]]));
    FinishTaken(b, i, Completed(Min(|b.queue[i].data|, b.pending[b.pp].t.length)), at, again);
  }

  lemma FinishTaken(b: Bus, i: nat, status: Status, at: TimeVal, again: TimeVal)
    requires b.pp < |b.pending| && i < |b.queue| && Reading(again)
    requires var taken := b.(queue := Remove(b.queue, i), taken := b.taken + [b.queue[i]]);
             Balanced(taken) && EventsAccounted(b) && Sorted(taken.queue)
    requires forall k :: 0 <= k < |b.pending| ==> Timely(b.pending[k])
    requires forall k :: 0 <= k < |b.callbacks| ==> Truthful(b.callbacks[k])
    requires Truthful(Callback(b.pending[b.pp], status, Some(b.queue[i]), at))
    ensures Inv(Finish(b.(queue := Remove(b.queue, i), taken := b.taken + [b.queue[i]]), status, Some(b.queue[i]), at, again))
  {
    hide Truthful, Timely, Balanced, EventsAccounted, Sorted, Remove;
    var taken := b.(queue := Remove(b.queue, i), taken := b.taken + [b.queue[i]]);
    FinishBalances(taken, status, Some(b.queue[i]), at, again);
    FinishKeepsTruth(taken, status, Some(b.queue[i]), at, again);
    TakeAccounts(b, i, Callback(b.pending[b.pp], status, Some(b.queue[i]), at));
    hide Without, NewPending;
  }

  lemma InjectKeeps(b: Bus, e: Entry)
    requires Inv(b)
    ensures Inv(Apply(b, Op.Inject(e)))
  {
    InsertKeepsSorted(b.queue, e);
    CountInsert(b.queue, InsertAt(b.queue, e.trig), e);
    assert multiset(b.injected + [e]) == multiset(b.injected) + multiset{e};
    hide Balanced, Truthful, Timely, Carried, Sorted, InsertAt;
  }

  lemma SubmitKeeps(b: Bus, t: Transfer, now: TimeVal)
    requires Inv(b) && Reading(now) && t.kind != Unsupported
    ensures Inv(Submitted(b, t, now).(pp := 0))
  {
    TimelyIsNew(t, now);
    SubmitCounts(b.pending, NewPending(t, now));
    assert multiset(b.submitted + [t]) == multiset(b.submitted) + multiset{t};
    hide Truthful, Timely, Sorted, Transfers, CalledBack, EventsAccounted, NewPending;
  }

  lemma ApplyKeeps(b: Bus, op: Op)
    requires Inv(b) && Clocked(op)
    ensures Inv(Apply(b, op))
  {
    match op
    case Inject(e) =>
      InjectKeeps(b, e);
    case Submit(t, now) =>
      if t.kind != Unsupported {
        SubmitKeeps(b, t, now);
      }
    case Cancel(t, now) =>
      CancelKeeps(b, t, now);
    case Turn(at, later, again, rc) =>
      VisitKeeps(b, at, later, again, rc);
      hide *;
  }

  lemma CancelIsTruthful(p: Pending, now: TimeVal)
    requires Timely(p) && Reading(now)
    ensures Truthful(Callback(p, Cancelled, None, now))
  {
  }

  lemma AnyPosition(b: Bus, pp: nat)
    requires Inv(b) && pp <= |b.pending|
    ensures Inv(b.(pp := pp))
  {
    hide Sorted, Timely, Truthful;
  }

  lemma CancelKeeps(b: Bus, t: Transfer, now: TimeVal)
    requires Inv(b) && Reading(now)
    ensures Inv(Apply(b, Cancel(t, now)))
  {
    hide Balanced, EventsAccounted, Truthful, Timely, Sorted, Finish, FindPending;
    var i := FindPending(b.pending, t);
    if i < |b.pending| {
      CancelIsTruthful(b.pending[i], now);
      AnyPosition(b, i);
      FinishKeeps(b.(pp := i), Cancelled, None, now, now);
      AnyPosition(Finish(b.(pp := i), Cancelled, None, now, now), 0);
    }
  }

  /**
   In every run of submits, cancels and turns of the walk, whatever the callbacks resubmit:
   each submit is called back exactly once or still pending, each event that left the
   camera's list completed exactly one transfer, in order, and every callback is truthful.
   */
  lemma {:induction false} RunKeeps(ops: seq<Op>)
    requires forall i :: 0 <= i < |ops| ==> Clocked(ops[i])
    ensures Inv(Run(ops))
  {
    if ops == [] {
    } else {
      RunKeeps(ops[..|ops| - 1]);
      ApplyKeeps(Run(ops[..|ops| - 1]), ops[|ops| - 1]);
    }
  }

  /** For one transfer: submits = callbacks + pending, at all times. */
  lemma SubmitsAreCallbacksAndPending(ops: seq<Op>, t: Transfer)
    requires forall i :: 0 <= i < |ops| ==> Clocked(ops[i])
    ensures var b := Run(ops);
            multiset(b.submitted)[t] == multiset(CalledBack(b.callbacks))[t] + multiset(Transfers(b.pending))[t]
    ensures var b := Run(ops); |b.submitted| == |b.callbacks| + |b.pending|
  {
    RunKeeps(ops);
    var b := Run(ops);
    assert |multiset(b.submitted)| == |multiset(CalledBack(b.callbacks)) + multiset(Transfers(b.pending))|;
  }

  // ---- Who is called back -------------------------------------------------------------------

  /** Entry `i` left the list, every other one kept its order, behind a resubmission if there was one. */
  ghost predicate Left(ps: seq<Pending>, i: nat, ps': seq<Pending>)
    requires i < |ps|
  {
    if ps[i].t.resubmits then
      |ps'| == |ps| && ps'[0].t == ps[i].t && ps'[1..] == ps[..i] + ps[i + 1..]
    else
      ps' == ps[..i] + ps[i + 1..]
  }

  /**
   libusb_cancel_transfer calls back the transfer it is given, once, as cancelled and without
   an event: the first entry that carries it goes. One that is not pending changes nothing.
   */
  lemma CancelIsExact(b: Bus, t: Transfer, now: TimeVal)
    ensures var b' := Apply(b, Cancel(t, now));
            if exists k :: 0 <= k < |b.pending| && b.pending[k].t == t then
              && |b'.callbacks| == |b.callbacks| + 1 && b'.callbacks[..|b.callbacks|] == b.callbacks
              && (var c := b'.callbacks[|b.callbacks|];
                  c.p.t == t && c.p in b.pending && c.status == Cancelled && c.event == None && c.at == now)
              && (exists i :: 0 <= i < |b.pending| && b.pending[i].t == t
                              && (forall k :: 0 <= k < i ==> b.pending[k].t != t) && Left(b.pending, i, b'.pending))
              && b'.queue == b.queue && b'.taken == b.taken
            else
              b' == b
  {
    var i := FindPending(b.pending, t);
    if i < |b.pending| {
      assert b.pending[i] in b.pending;
      CancelLeaves(b, i, now);
    }
    hide FindPending, CancelAt;
  }

  lemma CancelLeaves(b: Bus, i: nat, now: TimeVal)
    requires i < |b.pending|
    ensures var b' := CancelAt(b, i, now);
            && Left(b.pending, i, b'.pending) && b'.queue == b.queue && b'.taken == b.taken
            && b'.callbacks == b.callbacks + [Callback(b.pending[i], Cancelled, None, now)]
  {
  }

  /** The callbacks of a transfer with one status, counted. */
  function CalledAs(cs: seq<Callback>, t: Transfer, status: Status): nat
  {
    if cs == [] then 0
    else CalledAs(cs[..|cs| - 1], t, status) + if cs[|cs| - 1].p.t == t && cs[|cs| - 1].status == status then 1 else 0
  }

  /** The cancels of a transfer that found it pending, counted. */
  ghost function CancelsFound(ops: seq<Op>, t: Transfer): nat
  {
    if ops == [] then 0
    else
      var n := |ops| - 1;
      CancelsFound(ops[..n], t)
      + if ops[n].Cancel? && ops[n].t == t && (exists k :: 0 <= k < |Run(ops[..n]).pending| && Run(ops[..n]).pending[k].t == t)
        then 1 else 0
  }

  lemma CalledAsSnoc(cs: seq<Callback>, c: Callback, t: Transfer, status: Status)
    ensures CalledAs(cs + [c], t, status) == CalledAs(cs, t, status) + if c.p.t == t && c.status == status then 1 else 0
  {
    assert (cs + [c])[..|cs|] == cs;
  }

  /** A turn calls nobody back as cancelled. */
  lemma TurnCancelsNone(b: Bus, at: TimeVal, later: TimeVal, again: TimeVal, rc: int)
    ensures var cs := Visit(b, at, later, again, rc).callbacks;
            cs == b.callbacks || (|cs| == |b.callbacks| + 1 && cs == b.callbacks + [cs[|b.callbacks|]]
                                  && cs[|b.callbacks|].status != Cancelled)
  {
    hide ReadIntAt, Remove, Without, NewPending, Expired;
  }

  /** Over every run a transfer is called back as cancelled as often as a cancel found it pending. */
  lemma {:induction false} CancelsAreCallbacks(ops: seq<Op>, t: Transfer)
    ensures CalledAs(Run(ops).callbacks, t, Cancelled) == CancelsFound(ops, t)
  {
    if ops == [] {
    } else {
      var n := |ops| - 1;
      CancelsAreCallbacks(ops[..n], t);
      OneOpCancels(Run(ops[..n]), ops[n], t);
      hide Apply;
    }
  }

  lemma OneOpCancels(b: Bus, op: Op, t: Transfer)
    ensures CalledAs(Apply(b, op).callbacks, t, Cancelled) ==
            CalledAs(b.callbacks, t, Cancelled)
            + if op.Cancel? && op.t == t && (exists k :: 0 <= k < |b.pending| && b.pending[k].t == t) then 1 else 0
  {
    match op
    case Inject(e) =>
    case Submit(u, now) =>
    case Cancel(u, now) => OneCancel(b, u, now, t); hide *;
    case Turn(at, later, again, rc) =>
      TurnCancelsNone(b, at, later, again, rc);
      var cs := Visit(b, at, later, again, rc).callbacks;
      if cs != b.callbacks {
        CalledAsSnoc(b.callbacks, cs[|b.callbacks|], t, Cancelled);
      }
      hide Visit, CalledAs;
  }

  lemma OneCancel(b: Bus, u: Transfer, now: TimeVal, t: Transfer)
    ensures CalledAs(Apply(b, Cancel(u, now)).callbacks, t, Cancelled) ==
            CalledAs(b.callbacks, t, Cancelled)
            + if u == t && (exists k :: 0 <= k < |b.pending| && b.pending[k].t == t) then 1 else 0
  {
    hide *;
    CancelAdds(b, u, now);
    var cs := Apply(b, Cancel(u, now)).callbacks;
    if exists k :: 0 <= k < |b.pending| && b.pending[k].t == u {
      CalledAsSnoc(b.callbacks, cs[|b.callbacks|], t, Cancelled);
    }
  }

  lemma CancelAdds(b: Bus, u: Transfer, now: TimeVal)
    ensures var cs, n := Apply(b, Cancel(u, now)).callbacks, |b.callbacks|;
            if exists k :: 0 <= k < |b.pending| && b.pending[k].t == u then
              |cs| == n + 1 && cs == b.callbacks + [cs[n]] && cs[n].p.t == u && cs[n].status == Cancelled
            else
              cs == b.callbacks
  {
    hide *;
    CancelIsExact(b, u, now);
  }

  /**
   What a turn says to the transfer under the link, and when it says nothing: -20 is "nothing
   yet" from a bulk endpoint, -7 a timeout, -4 no device, -8 an overflow.
   */
  lemma TurnIsExact(b: Bus, at: TimeVal, later: TimeVal, again: TimeVal, rc: int)
    requires Inv(b) && b.pp < |b.pending| && Reading(at) && Reading(later) && !Before(later, at)
    ensures var b', p, n := Visit(b, at, later, again, rc), b.pending[b.pp], |b.callbacks|;
            var late := p.t.timeout > 0 && Micros(at) >= Micros(p.since) + 1000 * p.t.timeout;
            var due := exists k :: 0 <= k < |b.queue| && b.queue[k].channel != Eos && !Before(at, b.queue[k].trig);
            var waits := !late && ((p.t.kind == InterruptIn && !due) || (p.t.kind == Bulk && rc == -20));
            if waits then
              b' == b.(pp := b.pp + 1)
            else
              && |b'.callbacks| == n + 1 && b'.callbacks[..n] == b.callbacks && b'.callbacks[n].p == p && b'.callbacks[n].at == at
              && Left(b.pending, b.pp, b'.pending)
              && (b'.callbacks[n].event.Some? <==> !late && p.t.kind == InterruptIn)
              && b'.callbacks[n].status ==
                 if late then TimedOut
                 else if p.t.kind == InterruptOut then Completed(0)
                 else if p.t.kind == InterruptIn then Completed(Min(|b'.callbacks[n].event.value.data|, p.t.length))
                 else if rc >= 0 then Completed(rc)
                 else if rc == -7 then TimedOut
                 else if rc == -4 then NoDevice
                 else if rc == -8 then Overflow
                 else Failed
  {
    hide *;
    var p := b.pending[b.pp];
    SortedOf(b);
    LateIsExpired(p, at);
    TurnIs(b, at, later, again, rc);
    AllDone(b, at, again);
    Heard(b, at, later);
  }

  /** And the event it brings: the first of the list that is not Canon's, which leaves the list. */
  lemma TurnHears(b: Bus, at: TimeVal, later: TimeVal, again: TimeVal, rc: int, k: nat)
    requires Inv(b) && b.pp < |b.pending| && Reading(at) && Reading(later) && !Before(later, at)
    requires k < |b.queue| && b.queue[k].channel != Eos && forall j :: 0 <= j < k ==> b.queue[j].channel == Eos
    ensures var b', p, n := Visit(b, at, later, again, rc), b.pending[b.pp], |b.callbacks|;
            var late := p.t.timeout > 0 && Micros(at) >= Micros(p.since) + 1000 * p.t.timeout;
            if p.t.kind == InterruptIn && !late && !Before(at, b.queue[k].trig) then
              && |b'.callbacks| == n + 1 && b'.callbacks[n].event == Some(b.queue[k])
              && b'.queue == b.queue[..k] + b.queue[k + 1..] && b'.taken == b.taken + [b.queue[k]]
            else
              b'.queue == b.queue && b'.taken == b.taken
  {
    hide *;
    var p := b.pending[b.pp];
    SortedOf(b);
    LateIsExpired(p, at);
    TurnIs(b, at, later, again, rc);
    AllDone(b, at, again);
    FirstHeard(b, at, later, k);
  }

  lemma FirstHeard(b: Bus, at: TimeVal, later: TimeVal, k: nat)
    requires Sorted(b.queue) && Reading(at) && Reading(later) && !Before(later, at)
    requires k < |b.queue| && b.queue[k].channel != Eos && forall j :: 0 <= j < k ==> b.queue[j].channel == Eos
    ensures ReadIntAt(b.queue, at, later, 0) == if Before(at, b.queue[k].trig) then |b.queue| else k
    ensures Remove(b.queue, k) == b.queue[..k] + b.queue[k + 1..]
  {
    hide ReadIntAt, FirstDue, Sorted, Before, FirstOf;
    assert forall e: Entry :: e.channel in {Classic, Nikon} <==> e.channel != Eos;
    FirstOfIs(b.queue, {Classic, Nikon}, k);
    FirstOrNothing(b.queue, {Classic, Nikon}, at);
    TimeoutIsIdle(b.queue, at, later, 0);
  }

  /** What `Finish` leaves, whatever the status. */
  lemma AllDone(b: Bus, at: TimeVal, again: TimeVal)
    requires b.pp < |b.pending|
    ensures forall queue: seq<Entry>, taken: seq<Entry>, status: Status, event: Option<Entry> ::
              var b' := Finish(b.(queue := queue, taken := taken), status, event, at, again);
              && b'.callbacks == b.callbacks + [Callback(b.pending[b.pp], status, event, at)]
              && Left(b.pending, b.pp, b'.pending) && b'.queue == queue && b'.taken == taken
  {
  }

  /** Something to hear is something due that is not Canon's. */
  lemma Heard(b: Bus, at: TimeVal, later: TimeVal)
    requires Sorted(b.queue) && Reading(at) && Reading(later) && !Before(later, at)
    ensures ReadIntAt(b.queue, at, later, 0) < |b.queue| <==>
            exists k :: 0 <= k < |b.queue| && b.queue[k].channel != Eos && !Before(at, b.queue[k].trig)
  {
    TimeoutIsIdle(b.queue, at, later, 0);
    hide ReadIntAt, FirstDue, Sorted, Before;
    assert forall e: Entry :: e.channel in {Classic, Nikon} <==> e.channel != Eos;
  }

  /** The turn, case by case. */
  lemma TurnIs(b: Bus, at: TimeVal, later: TimeVal, again: TimeVal, rc: int)
    requires b.pp < |b.pending|
    ensures var b', p, i := Visit(b, at, later, again, rc), b.pending[b.pp], ReadIntAt(b.queue, at, later, 0);
            var same := b.(queue := b.queue, taken := b.taken);
            if Expired(p, at) then b' == Finish(same, TimedOut, None, at, again)
            else if p.t.kind == InterruptOut then b' == Finish(same, Completed(0), None, at, again)
            else if p.t.kind == InterruptIn then
              if i < |b.queue| then
                b' == Finish(b.(queue := Remove(b.queue, i), taken := b.taken + [b.queue[i]]),
                             Completed(Min(|b.queue[i].data|, p.t.length)), Some(b.queue[i]), at, again)
              else b' == b.(pp := b.pp + 1)
            else if rc == -20 then b' == b.(pp := b.pp + 1)
            else
              && (rc >= 0 ==> b' == Finish(same, Completed(rc), None, at, again))
              && (rc == -7 ==> b' == Finish(same, TimedOut, None, at, again))
              && (rc == -4 ==> b' == Finish(same, NoDevice, None, at, again))
              && (rc == -8 ==> b' == Finish(same, Overflow, None, at, again))
              && (rc < 0 && rc != -7 && rc != -4 && rc != -8 ==> b' == Finish(same, Failed, None, at, again))
  {
    hide Finish, ReadIntAt, Expired, Remove;
  }

  lemma SortedOf(b: Bus)
    requires Inv(b)
    ensures Sorted(b.queue) && (b.pp < |b.pending| ==> Timely(b.pending[b.pp]))
  {
  }

  /** Due to time out by the fields is due in microseconds since the submit. */
  lemma LateIsExpired(p: Pending, at: TimeVal)
    requires Timely(p) && Reading(at)
    ensures Expired(p, at) <==> p.t.timeout > 0 && Micros(at) >= Micros(p.since) + 1000 * p.t.timeout
  {
    AddMsIsExact(p.since, p.t.timeout);
    if p.t.timeout > 0 {
      DueAgrees(p.deadline, at);
    }
  }

  /** A submit goes to the front of the list, due as many milliseconds from now as it says. */
  lemma SubmitIsExact(b: Bus, t: Transfer, now: TimeVal)
    requires Reading(now)
    ensures var b' := Apply(b, Submit(t, now));
            if t.kind == Unsupported then b' == b
            else
              && |b'.pending| == |b.pending| + 1 && b'.pending[1..] == b.pending && b'.pending[0].t == t
              && (t.timeout > 0 ==> Micros(b'.pending[0].deadline) == Micros(now) + 1000 * t.timeout)
              && b'.callbacks == b.callbacks && b'.queue == b.queue && b'.submitted == b.submitted + [t]
  {
    AddMsIsExact(now, t.timeout);
  }

  // ---- One round against a quiet clock ---------------------------------------------------

  /** Interrupt-IN transfers without timeouts: the pool gphoto2 keeps submitted. */
  ghost predicate Listening(b: Bus)
  {
    forall i :: 0 <= i < |b.pending| ==> b.pending[i].t.kind == InterruptIn && b.pending[i].t.timeout == 0
  }

  /** The classic and Nikon entries that are due, in list order. */
  function DueOf(q: seq<Entry>, now: TimeVal): seq<Entry>
  {
    if q == [] then []
    else (if q[0].channel in {Classic, Nikon} && !Before(now, q[0].trig) then [q[0]] else []) + DueOf(q[1..], now)
  }

  lemma {:induction false} FirstDueIsHead(q: seq<Entry>, now: TimeVal)
    ensures var i := FirstDue(q, {Classic, Nikon}, now);
            if i < |q| then DueOf(q, now) == [q[i]] + DueOf(Remove(q, i), now) else DueOf(q, now) == []
    decreases |q|
  {
    hide *;
    var i := FirstDue(q, {Classic, Nikon}, now);
    HeadIsDue(q, now);
    if q != [] && i > 0 {
      FirstDueOfTail(q, now);
      FirstDueIsHead(q[1..], now);
      if i < |q| {
        BehindHead(q, i, now);
      }
    }
  }

  lemma HeadIsDue(q: seq<Entry>, now: TimeVal)
    ensures q == [] ==> FirstDue(q, {Classic, Nikon}, now) == 0 && DueOf(q, now) == []
    ensures q != [] && FirstDue(q, {Classic, Nikon}, now) == 0 ==> DueOf(q, now) == [q[0]] + DueOf(Remove(q, 0), now)
  {
    if q != [] {
      assert Remove(q, 0) == q[1..];
    }
  }

  lemma BehindHead(q: seq<Entry>, i: nat, now: TimeVal)
    requires 0 < i < |q| && !(q[0].channel in {Classic, Nikon} && !Before(now, q[0].trig))
    ensures q[1..][i - 1] == q[i] && DueOf(Remove(q, i), now) == DueOf(Remove(q[1..], i - 1), now)
  {
    hide DueOf, Before;
    RemoveBehindHead(q, i);
    hide Remove;
    assert Remove(q, i) == [q[0]] + Remove(q[1..], i - 1);
    FirstNotDue(q[0], Remove(q[1..], i - 1), now);
  }

  /** A head that is not due changes nothing. */
  lemma FirstDueOfTail(q: seq<Entry>, now: TimeVal)
    requires q != [] && FirstDue(q, {Classic, Nikon}, now) > 0
    ensures FirstDue(q, {Classic, Nikon}, now) == 1 + FirstDue(q[1..], {Classic, Nikon}, now)
    ensures !(q[0].channel in {Classic, Nikon} && !Before(now, q[0].trig))
    ensures DueOf(q, now) == DueOf(q[1..], now)
  {
    assert [] + DueOf(q[1..], now) == DueOf(q[1..], now);
  }

  lemma FirstNotDue(e: Entry, q: seq<Entry>, now: TimeVal)
    requires !(e.channel in {Classic, Nikon} && !Before(now, e.trig))
    ensures DueOf([e] + q, now) == DueOf(q, now)
  {
    assert ([e] + q)[1..] == q && [] + DueOf(q, now) == DueOf(q, now);
  }

  /** The first pending transfer whose callback submits it again. */
  function FirstResubmitting(ps: seq<Pending>): (m: nat)
    ensures m <= |ps|
    ensures m < |ps| ==> ps[m].t.resubmits
    ensures forall k :: 0 <= k < m ==> !ps[k].t.resubmits
  {
    if ps == [] || ps[0].t.resubmits then 0 else 1 + FirstResubmitting(ps[1..])
  }

  ghost predicate Supported(b: Bus)
  {
    forall i :: 0 <= i < |b.pending| ==> b.pending[i].t.kind != Unsupported
  }

  /** One turn while the clock shows `now` and each bulk endpoint keeps its answer. */
  function Turned(b: Bus, now: TimeVal, bulk: Transfer -> int): Bus
  {
    Visit(b, now, now, now, if b.pp < |b.pending| then bulk(b.pending[b.pp].t) else 0)
  }

  /** Transfers that complete whenever the walk gets to them. */
  predicate Completes(t: Transfer, bulk: Transfer -> int)
  {
    t.kind == InterruptOut || (t.kind == Bulk && bulk(t) != GP_ERROR_TIMEOUT)
  }

  /** A bulk transfer whose endpoint has nothing to say yet. */
  predicate Stalls(p: Pending, now: TimeVal, bulk: Transfer -> int)
  {
    p.t.kind == Bulk && !Expired(p, now) && bulk(p.t) == GP_ERROR_TIMEOUT
  }

  /** The first transfer the walk cannot leave behind for good: it resubmits itself, or stalls. */
  function FirstStay(ps: seq<Pending>, now: TimeVal, bulk: Transfer -> int): (m: nat)
    ensures m <= |ps|
    ensures m < |ps| ==> ps[m].t.resubmits || Stalls(ps[m], now, bulk)
    ensures forall k :: 0 <= k < m ==> !ps[k].t.resubmits && !Stalls(ps[k], now, bulk)
  {
    if ps == [] || ps[0].t.resubmits || Stalls(ps[0], now, bulk) then 0 else 1 + FirstStay(ps[1..], now, bulk)
  }

  /** The transfers that wait for an event: interrupt-IN and not yet due to time out. */
  function Listeners(ps: seq<Pending>, now: TimeVal): nat
  {
    if ps == [] then 0
    else (if ps[0].t.kind == InterruptIn && !Expired(ps[0], now) then 1 else 0) + Listeners(ps[1..], now)
  }

  /**
   The first transfer that stays is one that completes and resubmits itself, and each of those
   that listen in front of it finds a due event: then the walk reaches it at the head of the list.
   */
  predicate Trapped(ps: seq<Pending>, due: nat, now: TimeVal, bulk: Transfer -> int)
  {
    var m := FirstStay(ps, now, bulk);
    m < |ps| && ps[m].t.resubmits && Completes(ps[m].t, bulk) && Listeners(ps[..m], now) <= due
  }

  predicate Ends(b: Bus, now: TimeVal, bulk: Transfer -> int)
  {
    b.pp == 0 ==> !Trapped(b.pending, |DueOf(b.queue, now)|, now, bulk)
  }

  function ExpiredOnes(ps: seq<Pending>, now: TimeVal): nat
  {
    if ps == [] then 0 else (if Expired(ps[0], now) then 1 else 0) + ExpiredOnes(ps[1..], now)
  }

  /** A round as long as the clock shows `now` and the bulk endpoints keep their answers. */
  function Round(b: Bus, now: TimeVal, bulk: Transfer -> int): Bus
    requires Supported(b) && Reading(now) && Ends(b, now, bulk)
    decreases |b.queue|, ExpiredOnes(b.pending, now), |b.pending| - b.pp
  {
    if b.pp >= |b.pending| then b
    else
      VisitAdvances(b, now, bulk);
      Round(Turned(b, now, bulk), now, bulk)
  }

  // ---- When a round ends -------------------------------------------------------------------

  /** What a turn does to the list. */
  datatype Effect = Moves | Drops | Renews

  /** The link moves on, or the transfer under it goes, or comes back at the front. */
  function EffectOf(b: Bus, now: TimeVal, bulk: Transfer -> int): Effect
    requires b.pp < |b.pending|
  {
    var p := b.pending[b.pp];
    if Stalls(p, now, bulk) then Moves
    else if p.t.kind == InterruptIn && !Expired(p, now) && FirstDue(b.queue, {Classic, Nikon}, now) == |b.queue| then Moves
    else if p.t.resubmits then Renews
    else Drops
  }

  lemma TurnOf(b: Bus, now: TimeVal, bulk: Transfer -> int)
    requires Supported(b) && Reading(now) && b.pp < |b.pending|
    ensures var r, p, f := Turned(b, now, bulk), b.pending[b.pp], FirstDue(b.queue, {Classic, Nikon}, now);
            && (r.pending, r.pp) ==
               (match EffectOf(b, now, bulk)
                case Moves => (b.pending, b.pp + 1)
                case Drops => (Without(b.pending, b.pp), b.pp)
                case Renews => ([NewPending(p.t, now)] + Without(b.pending, b.pp), if b.pp == 0 then 0 else b.pp + 1))
            && r.queue == (if p.t.kind == InterruptIn && !Expired(p, now) && f < |b.queue| then Remove(b.queue, f) else b.queue)
            && |r.callbacks| == |b.callbacks| + if EffectOf(b, now, bulk) == Moves then 0 else 1
  {
    hide FirstDue, Remove, Without, NewPending, Expired, ReadIntAt;
    ReadsWhatIsDue(b.queue, now);
  }

  lemma FreshIsNotExpired(t: Transfer, now: TimeVal)
    requires Reading(now)
    ensures !Expired(NewPending(t, now), now)
  {
    AddMsIsExact(now, t.timeout);
    if t.timeout > 0 {
      DueAgrees(AddMs(now, t.timeout), now);
    }
  }

  lemma {:induction false} ExpiredWithout(ps: seq<Pending>, i: nat, now: TimeVal)
    requires i < |ps|
    ensures ExpiredOnes(ps, now) == ExpiredOnes(Without(ps, i), now) + if Expired(ps[i], now) then 1 else 0
  {
    hide Expired;
    if i == 0 {
      assert Without(ps, 0) == ps[1..];
    } else {
      ExpiredWithout(ps[1..], i - 1, now);
      assert Without(ps, i)[0] == ps[0] && Without(ps, i)[1..] == Without(ps[1..], i - 1);
    }
  }

  lemma ExpiredInFront(p: Pending, ps: seq<Pending>, now: TimeVal)
    ensures ExpiredOnes([p] + ps, now) == ExpiredOnes(ps, now) + if Expired(p, now) then 1 else 0
  {
    assert ([p] + ps)[1..] == ps;
  }

  lemma WithoutKind(b: Bus, now: TimeVal)
    requires Supported(b) && b.pp < |b.pending|
    ensures var r := Without(b.pending, b.pp);
            && Supported(b.(pending := r))
            && Supported(b.(pending := [NewPending(b.pending[b.pp].t, now)] + r))
  {
  }

  lemma DueIsOneLess(q: seq<Entry>, now: TimeVal)
    ensures var i := FirstDue(q, {Classic, Nikon}, now);
            && (i < |q| <==> DueOf(q, now) != [])
            && (i < |q| ==> |DueOf(Remove(q, i), now)| == |DueOf(q, now)| - 1 && |Remove(q, i)| < |q|)
  {
    FirstDueIsHead(q, now);
  }

  /** How the trap looks from one transfer further on. */
  lemma TrappedStep(ps: seq<Pending>, due: nat, now: TimeVal, bulk: Transfer -> int)
    requires ps != []
    ensures ps[0].t.resubmits ==> (Trapped(ps, due, now, bulk) <==> Completes(ps[0].t, bulk))
    ensures !ps[0].t.resubmits && Stalls(ps[0], now, bulk) ==> !Trapped(ps, due, now, bulk)
    ensures !ps[0].t.resubmits && !Stalls(ps[0], now, bulk) ==>
              var one := if ps[0].t.kind == InterruptIn && !Expired(ps[0], now) then 1 else 0;
              (Trapped(ps, due, now, bulk) <==> due >= one && Trapped(ps[1..], due - one, now, bulk))
  {
    FirstStayIs(ps, now, bulk);
    var m := FirstStay(ps, now, bulk);
    if !ps[0].t.resubmits && m < |ps| && m > 0 {
      assert ps[..m][0] == ps[0] && ps[..m][1..] == ps[1..][..m - 1];
    }
    hide FirstStay, Expired, Completes, Stalls;
  }

  lemma FirstStayIs(ps: seq<Pending>, now: TimeVal, bulk: Transfer -> int)
    requires ps != []
    ensures FirstStay(ps, now, bulk) ==
            if ps[0].t.resubmits || Stalls(ps[0], now, bulk) then 0 else 1 + FirstStay(ps[1..], now, bulk)
  {
  }

  /** From a turn at the head of the list the trap is the same as before it. */
  lemma TrapStays(b: Bus, now: TimeVal, bulk: Transfer -> int)
    requires Supported(b) && Reading(now) && b.pp == 0 < |b.pending|
    ensures var b' := Turned(b, now, bulk);
            && (Trapped(b.pending, |DueOf(b.queue, now)|, now, bulk) ==> b'.pp == 0 && EffectOf(b, now, bulk) != Moves)
            && (b'.pp == 0 ==>
                  (Trapped(b.pending, |DueOf(b.queue, now)|, now, bulk) <==> Trapped(b'.pending, |DueOf(b'.queue, now)|, now, bulk)))
  {
    hide *;
    KindsDiffer(b.pending[0], now, bulk);
    TurnOf(b, now, bulk);
    DueIsOneLess(b.queue, now);
    TrappedStep(b.pending, |DueOf(b.queue, now)|, now, bulk);
    HeadKind(b);
    EffectIs(b, now, bulk);
    WithoutFirst(b.pending);
    var renewed := NewPending(b.pending[0].t, now);
    NewKeeps(b.pending[0].t, now);
    FreshInFront(renewed, b.pending[1..]);
    TrappedStep([renewed] + b.pending[1..], |DueOf(Turned(b, now, bulk).queue, now)|, now, bulk);
    NeverTrappedEmpty(b.pending[1..], |DueOf(Turned(b, now, bulk).queue, now)|, now, bulk);
  }

  lemma HeadKind(b: Bus)
    requires Supported(b) && b.pp < |b.pending|
    ensures b.pending[b.pp].t.kind in {InterruptIn, InterruptOut, Bulk}
  {
  }

  lemma KindsDiffer(p: Pending, now: TimeVal, bulk: Transfer -> int)
    ensures Completes(p.t, bulk) ==> p.t.kind != InterruptIn && !Stalls(p, now, bulk)
    ensures Stalls(p, now, bulk) ==> p.t.kind == Bulk && !Expired(p, now) && bulk(p.t) == GP_ERROR_TIMEOUT
    ensures p.t.kind in {InterruptIn, InterruptOut, Bulk} ==>
              p.t.kind == InterruptIn || Completes(p.t, bulk) || Stalls(p, now, bulk) || Expired(p, now)
  {
  }

  lemma EffectIs(b: Bus, now: TimeVal, bulk: Transfer -> int)
    requires Supported(b) && b.pp < |b.pending|
    ensures var p := b.pending[b.pp];
            && (EffectOf(b, now, bulk) == Moves <==>
                Stalls(p, now, bulk)
                || (p.t.kind == InterruptIn && !Expired(p, now) && FirstDue(b.queue, {Classic, Nikon}, now) == |b.queue|))
            && (EffectOf(b, now, bulk) == Renews ==> p.t.resubmits)
            && (EffectOf(b, now, bulk) == Drops ==> !p.t.resubmits)
  {
  }

  lemma WithoutFirst(ps: seq<Pending>)
    requires ps != []
    ensures Without(ps, 0) == ps[1..]
  {
  }

  lemma NewKeeps(t: Transfer, now: TimeVal)
    ensures NewPending(t, now).t == t
  {
  }

  lemma FreshInFront(p: Pending, ps: seq<Pending>)
    ensures ([p] + ps)[0] == p && ([p] + ps)[1..] == ps && |[p] + ps| == |ps| + 1
  {
  }

  lemma NeverTrappedEmpty(ps: seq<Pending>, due: nat, now: TimeVal, bulk: Transfer -> int)
    ensures Trapped(ps, due, now, bulk) ==> ps != []
  {
  }

  /** Every turn of a round that ends brings its end nearer. */
  lemma VisitAdvances(b: Bus, now: TimeVal, bulk: Transfer -> int)
    requires Supported(b) && Reading(now) && Ends(b, now, bulk) && b.pp < |b.pending|
    ensures var r := Turned(b, now, bulk);
            && Supported(r) && Ends(r, now, bulk) && r.pp <= |r.pending|
            && (|r.queue| < |b.queue|
                || (r.queue == b.queue
                    && (ExpiredOnes(r.pending, now) < ExpiredOnes(b.pending, now)
                        || (ExpiredOnes(r.pending, now) == ExpiredOnes(b.pending, now)
                            && |r.pending| - r.pp < |b.pending| - b.pp))))
  {
    hide *;
    KindsDiffer(b.pending[b.pp], now, bulk);
    TurnOf(b, now, bulk);
    EffectIs(b, now, bulk);
    HeadKind(b);
    WithoutKind(b, now);
    StillSupported(b, Turned(b, now, bulk), now);
    DueIsOneLess(b.queue, now);
    ExpiredWithout(b.pending, b.pp, now);
    FreshIsNotExpired(b.pending[b.pp].t, now);
    ExpiredInFront(NewPending(b.pending[b.pp].t, now), Without(b.pending, b.pp), now);
    EndsIs(b, now, bulk);
    EndsIs(Turned(b, now, bulk), now, bulk);
    if b.pp == 0 {
      TrapStays(b, now, bulk);
      TrappedStep(b.pending, |DueOf(b.queue, now)|, now, bulk);
    }
  }

  lemma StillSupported(b: Bus, r: Bus, now: TimeVal)
    requires Supported(b) && b.pp < |b.pending|
    requires r.pending in {b.pending, Without(b.pending, b.pp), [NewPending(b.pending[b.pp].t, now)] + Without(b.pending, b.pp)}
    ensures Supported(r)
  {
    WithoutKind(b, now);
  }

  lemma EndsIs(b: Bus, now: TimeVal, bulk: Transfer -> int)
    ensures Ends(b, now, bulk) <==> (b.pp == 0 ==> !Trapped(b.pending, |DueOf(b.queue, now)|, now, bulk))
  {
  }

  /** `n` turns, all of them while the clock shows `now`. */
  function Turns(b: Bus, n: nat, now: TimeVal, bulk: Transfer -> int): Bus
  {
    if n == 0 then b else Turned(Turns(b, n - 1, now, bulk), now, bulk)
  }

  lemma {:induction false} TurnsFirst(b: Bus, n: nat, now: TimeVal, bulk: Transfer -> int)
    ensures Turns(b, n + 1, now, bulk) == Turns(Turned(b, now, bulk), n, now, bulk)
  {
    hide Turned;
    if n == 0 {
      assert Turns(b, 0, now, bulk) == b;
    } else {
      TurnsFirst(b, n - 1, now, bulk);
    }
  }

  lemma {:induction false} RoundIsReached(b: Bus, now: TimeVal, bulk: Transfer -> int) returns (n: nat)
    requires Supported(b) && Reading(now) && Ends(b, now, bulk)
    ensures Turns(b, n, now, bulk) == Round(b, now, bulk) && Round(b, now, bulk).pp >= |Round(b, now, bulk).pending|
    decreases |b.queue|, ExpiredOnes(b.pending, now), |b.pending| - b.pp
  {
    hide Turned, Supported, Reading, Ends, ExpiredOnes;
    if b.pp >= |b.pending| {
      n := 0;
    } else {
      VisitAdvances(b, now, bulk);
      n := RoundIsReached(Turned(b, now, bulk), now, bulk);
      TurnsFirst(b, n, now, bulk);
      n := n + 1;
    }
  }

  /** In the trap every turn calls somebody back and none gets the walk any further. */
  lemma {:induction false} TrappedForGood(b: Bus, n: nat, now: TimeVal, bulk: Transfer -> int)
    requires Supported(b) && Reading(now) && b.pp == 0 && Trapped(b.pending, |DueOf(b.queue, now)|, now, bulk)
    ensures Turns(b, n, now, bulk).pp == 0 < |Turns(b, n, now, bulk).pending|
    ensures |Turns(b, n, now, bulk).callbacks| == |b.callbacks| + n
    decreases n
  {
    hide Turned, Supported, Reading, Trapped, DueOf;
    NeverTrappedEmpty(b.pending, |DueOf(b.queue, now)|, now, bulk);
    if n == 0 {
      assert Turns(b, 0, now, bulk) == b;
    } else {
      TrapStays(b, now, bulk);
      TurnOf(b, now, bulk);
      StaySupported(b, now, bulk);
      TrappedForGood(Turned(b, now, bulk), n - 1, now, bulk);
      TurnsFirst(b, n - 1, now, bulk);
    }
  }

  lemma StaySupported(b: Bus, now: TimeVal, bulk: Transfer -> int)
    requires Supported(b) && Reading(now) && b.pp < |b.pending|
    ensures Supported(Turned(b, now, bulk))
  {
    hide *;
    TurnOf(b, now, bulk);
    StillSupported(b, Turned(b, now, bulk), now);
  }

  /**
   When the inner loop comes to the end of the list, over every pool of transfers, with
   timeouts or without: always, unless the first transfer that stays is one that completes
   and resubmits itself, and every transfer that listens in front of it has an event to take.
   */
  lemma RoundEndsIff(b: Bus, now: TimeVal, bulk: Transfer -> int)
    requires Supported(b) && Reading(now) && b.pp == 0
    ensures (exists n: nat :: Turns(b, n, now, bulk).pp >= |Turns(b, n, now, bulk).pending|)
            <==> !Trapped(b.pending, |DueOf(b.queue, now)|, now, bulk)
  {
    hide *;
    EndsIs(b, now, bulk);
    if Trapped(b.pending, |DueOf(b.queue, now)|, now, bulk) {
      forall n: nat
        ensures Turns(b, n, now, bulk).pp < |Turns(b, n, now, bulk).pending|
      {
        TrappedForGood(b, n, now, bulk);
      }
    } else {
      var n := RoundIsReached(b, now, bulk);
      assert Turns(b, n, now, bulk).pp >= |Turns(b, n, now, bulk).pending|;
    }
  }

  lemma ListeningEnds(b: Bus, now: TimeVal, bulk: Transfer -> int)
    requires Listening(b)
    ensures Supported(b) && Ends(b, now, bulk)
  {
  }

  // ---- What a round of listening transfers is worth ----------------------------------------

  lemma RoundStep(b: Bus, now: TimeVal, bulk: Transfer -> int)
    requires Supported(b) && Reading(now) && Ends(b, now, bulk) && b.pp < |b.pending|
    ensures var r := Turned(b, now, bulk);
            Supported(r) && Ends(r, now, bulk) && r.pp <= |r.pending| && Round(b, now, bulk) == Round(r, now, bulk)
  {
    hide Turned, Supported, Ends, ExpiredOnes;
    VisitAdvances(b, now, bulk);
  }

  lemma StillListening(b: Bus, r: Bus, now: TimeVal)
    requires Listening(b) && b.pp < |b.pending|
    requires r.pending in {b.pending, Without(b.pending, b.pp), [NewPending(b.pending[b.pp].t, now)] + Without(b.pending, b.pp)}
    ensures Listening(r)
  {
  }

  lemma VisitListens(b: Bus, now: TimeVal, bulk: Transfer -> int)
    requires Listening(b) && Reading(now) && b.pp < |b.pending|
    ensures var r := Turned(b, now, bulk);
            Listening(r) && r.pp <= |r.pending| && Ends(r, now, bulk) && Round(b, now, bulk) == Round(r, now, bulk)
  {
    hide *;
    ListeningEnds(b, now, bulk);
    RoundStep(b, now, bulk);
    TurnOf(b, now, bulk);
    StillListening(b, Turned(b, now, bulk), now);
    ListeningEnds(Turned(b, now, bulk), now, bulk);
  }

  lemma QuietRound(b: Bus, now: TimeVal, bulk: Transfer -> int)
    requires Listening(b) && Reading(now) && b.pp <= |b.pending|
    requires FirstDue(b.queue, {Classic, Nikon}, now) == |b.queue|
    ensures Round(b, now, bulk) == b.(pp := |b.pending|)
    decreases |b.pending| - b.pp
  {
    if b.pp < |b.pending| {
      ReadsWhatIsDue(b.queue, now);
      assert Turned(b, now, bulk) == b.(pp := b.pp + 1);
      QuietRound(b.(pp := b.pp + 1), now, bulk);
    }
  }

  lemma BusyTurn(b: Bus, now: TimeVal, bulk: Transfer -> int)
    requires Listening(b) && Reading(now) && b.pp == 0 < |b.pending|
    requires FirstDue(b.queue, {Classic, Nikon}, now) < |b.queue|
    ensures var i, b', t := FirstDue(b.queue, {Classic, Nikon}, now), Turned(b, now, bulk), b.pending[0].t;
            && Listening(b') && b'.pp == 0
            && b'.pending == (if t.resubmits then [NewPending(t, now)] else []) + b.pending[1..]
            && b'.queue == Remove(b.queue, i) && b'.taken == b.taken + [b.queue[i]]
            && CalledBack(b'.callbacks) == CalledBack(b.callbacks) + [t]
            && Round(b, now, bulk) == Round(b', now, bulk)
  {
    hide *;
    var p, e := b.pending[0], b.queue[FirstDue(b.queue, {Classic, Nikon}, now)];
    VisitListens(b, now, bulk);
    BusyVisit(b, now, bulk);
    CallbackCounts(b.callbacks, Callback(p, Completed(Min(|e.data|, p.t.length)), Some(e), now));
  }

  lemma ReadsWhatIsDue(q: seq<Entry>, now: TimeVal)
    requires Reading(now)
    ensures ReadIntAt(q, now, now, 0) == FirstDue(q, {Classic, Nikon}, now)
  {
    hide FirstDue;
    assert AddMs(now, 0) == now;
  }

  lemma BusyVisit(b: Bus, now: TimeVal, bulk: Transfer -> int)
    requires Listening(b) && Reading(now) && b.pp == 0 < |b.pending|
    requires FirstDue(b.queue, {Classic, Nikon}, now) < |b.queue|
    ensures var i, b', t := FirstDue(b.queue, {Classic, Nikon}, now), Turned(b, now, bulk), b.pending[0].t;
            var e := b.queue[i];
            && b'.pp == 0
            && b'.pending == (if t.resubmits then [NewPending(t, now)] else []) + b.pending[1..]
            && b'.queue == Remove(b.queue, i) && b'.taken == b.taken + [e]
            && b'.callbacks == b.callbacks + [Callback(b.pending[0], Completed(Min(|e.data|, t.length)), Some(e), now)]
  {
    ReadsWhatIsDue(b.queue, now);
    hide Remove, FirstDue, ReadIntAt, NewPending;
    assert Without(b.pending, 0) == b.pending[1..];
  }

  lemma FirstResubmittingIs(ps: seq<Pending>)
    requires ps != []
    ensures FirstResubmitting(ps) == if ps[0].t.resubmits then 0 else 1 + FirstResubmitting(ps[1..])
  {
  }

  /** How many events a round hands out when `due` of them are due. */
  function Worth(ps: seq<Pending>, due: nat): (n: nat)
    ensures n <= due
  {
    if FirstResubmitting(ps) < |ps| then due else Min(due, |ps|)
  }

  /** `n` more callbacks went from `cs` to `cs'`, the i-th to transfer i, at most to number m. */
  ghost predicate CalledInTurn(cs: seq<Transfer>, cs': seq<Transfer>, ps: seq<Pending>, n: nat, m: nat)
  {
    && cs <= cs' && |cs'| == |cs| + n
    && (forall i :: 0 <= i < n ==> Min(i, m) < |ps| && cs'[|cs| + i] == ps[Min(i, m)].t)
  }

  lemma OneMoreCall(cs: seq<Transfer>, cs': seq<Transfer>, p: Pending, ps: seq<Pending>, n: nat, m: nat)
    requires CalledInTurn(cs + [p.t], cs', ps, n, m)
    requires p.t.resubmits ==> ps != [] && ps[0].t == p.t && m == 0
    ensures CalledInTurn(cs, cs', [p] + if p.t.resubmits then ps[1..] else ps, n + 1, if p.t.resubmits then 0 else m + 1)
  {
    assert cs + [p.t] <= cs' && (cs + [p.t])[|cs|] == p.t;
    var all, k := [p] + if p.t.resubmits then ps[1..] else ps, if p.t.resubmits then 0 else m + 1;
    forall i | 0 <= i < n + 1
      ensures Min(i, k) < |all| && cs'[|cs| + i] == all[Min(i, k)].t
    {
      if i > 0 {
        assert Min(i - 1, m) < |ps| && cs'[|cs + [p.t]| + (i - 1)] == ps[Min(i - 1, m)].t;
      }
    }
  }

  /**
   What a round is worth. If some transfer of the pool resubmits itself, one round hands out
   every event that is due; otherwise one event for each transfer. Events go out in list
   order, to the transfers in list order, and the first resubmitting one gets all the rest.
   */
  lemma {:induction false} RoundDelivers(b: Bus, now: TimeVal, bulk: Transfer -> int)
    requires Listening(b) && Reading(now) && b.pp == 0
    ensures var d, r := DueOf(b.queue, now), Round(b, now, bulk);
            var n := Worth(b.pending, |d|);
            && r.taken == b.taken + d[..n]
            && DueOf(r.queue, now) == d[n..]
            && CalledInTurn(CalledBack(b.callbacks), CalledBack(r.callbacks), b.pending, n, FirstResubmitting(b.pending))
    decreases |b.queue|
  {
    hide *;
    var d := DueOf(b.queue, now);
    var i := FirstDue(b.queue, {Classic, Nikon}, now);
    FirstDueIsHead(b.queue, now);
    if b.pending == [] || i == |b.queue| {
      IdleRoundDelivers(b, now, bulk);
    } else {
      ListeningEnds(b, now, bulk);
      BusyTurn(b, now, bulk);
      var b' := Turned(b, now, bulk);
      RoundDelivers(b', now, bulk);
      WorthStep(b.pending, b'.pending, |d|, now);
      var n := Worth(b'.pending, |d| - 1);
      RestOf(d, DueOf(b'.queue, now));
      FirstOfMany(b.taken, d, n);
      OneMoreCall(CalledBack(b.callbacks), CalledBack(Round(b, now, bulk).callbacks), b.pending[0], b'.pending, n,
                  FirstResubmitting(b'.pending));
      HeadAndRest(b.pending);
    }
  }

  lemma RestOf<T>(d: seq<T>, rest: seq<T>)
    ensures d != [] && d == [d[0]] + rest ==> d[1..] == rest && |rest| == |d| - 1
  {
  }

  lemma HeadAndRest<T>(s: seq<T>)
    requires s != []
    ensures s == [s[0]] + s[1..]
  {
  }

  lemma FirstOfMany<T>(before: seq<T>, d: seq<T>, n: nat)
    requires n < |d|
    ensures before + [d[0]] + d[1..][..n] == before + d[..n + 1] && d[n + 1..] == d[1..][n..]
  {
    assert d[..n + 1] == [d[0]] + d[1..][..n];
  }

  lemma IdleRoundDelivers(b: Bus, now: TimeVal, bulk: Transfer -> int)
    requires Listening(b) && Reading(now) && b.pp == 0
    requires b.pending == [] || FirstDue(b.queue, {Classic, Nikon}, now) == |b.queue|
    ensures var d, r := DueOf(b.queue, now), Round(b, now, bulk);
            var n := Worth(b.pending, |d|);
            && r.taken == b.taken + d[..n]
            && DueOf(r.queue, now) == d[n..]
            && CalledInTurn(CalledBack(b.callbacks), CalledBack(r.callbacks), b.pending, n, FirstResubmitting(b.pending))
  {
    FirstDueIsHead(b.queue, now);
    if b.pending != [] {
      QuietRound(b, now, bulk);
    }
    hide DueOf, FirstDue, Remove, CalledBack;
  }

  lemma WorthStep(ps: seq<Pending>, ps': seq<Pending>, due: nat, now: TimeVal)
    requires ps != [] && due > 0
    requires ps' == (if ps[0].t.resubmits then [NewPending(ps[0].t, now)] else []) + ps[1..]
    ensures Worth(ps, due) == Worth(ps', due - 1) + 1
    ensures ps[0].t.resubmits ==> ps' != [] && ps'[0].t == ps[0].t && ps'[1..] == ps[1..]
    ensures !ps[0].t.resubmits ==> ps' == ps[1..]
    ensures FirstResubmitting(ps) == if ps[0].t.resubmits then 0 else FirstResubmitting(ps') + 1
    ensures ps[0].t.resubmits ==> FirstResubmitting(ps') == 0
  {
    FirstResubmittingIs(ps);
    if ps[0].t.resubmits {
      FirstResubmittingIs(ps');
    } else {
      assert ps' == ps[1..];
    }
    hide FirstResubmitting;
  }

  /**
   A turn that finishes a transfer moves the walk past it, whether or not it is submitted
   again, except at the head of the list: there a resubmitted transfer is next in line again.
   */
  lemma FinishMovesOn(b: Bus, status: Status, event: Option<Entry>, at: TimeVal, again: TimeVal)
    requires b.pp < |b.pending|
    ensures var r := Finish(b, status, event, at, again);
            if b.pp == 0 && b.pending[0].t.resubmits then
              r.pp == 0 && r.pending == [NewPending(b.pending[0].t, again)] + b.pending[1..]
            else
              r.pp <= |r.pending| && r.pending[r.pp..] == b.pending[b.pp + 1..]
  {
  }

  /** An OUT transfer that resubmits itself from the head of the list traps the walk for good. */
  lemma {:induction false} OutTransferTraps(b: Bus, n: nat, now: TimeVal, bulk: Transfer -> int)
    requires b.pp == 0 < |b.pending|
    requires var t := b.pending[0].t; t.kind == InterruptOut && t.resubmits && t.timeout == 0
    ensures var r := Turns(b, n, now, bulk);
            && r.pp == 0 < |r.pending| && r.pending[0].t == b.pending[0].t && r.pending[1..] == b.pending[1..]
            && |r.callbacks| == |b.callbacks| + n && r.taken == b.taken
  {
    if n == 0 {
    } else {
      OutTransferTraps(b, n - 1, now, bulk);
      FinishMovesOn(Turns(b, n - 1, now, bulk), Completed(0), None, now, now);
    }
  }

  // ---- The list the program keeps ----------------------------------------------------------

  class Context {
    var pending: seq<Pending>
    const interrupts: InterruptList

    ghost var submitted: seq<Transfer>
    ghost var callbacks: seq<Callback>
    ghost var injected: seq<Entry>
    ghost var taken: seq<Entry>

    constructor (interrupts: InterruptList)
      requires interrupts.Valid() && interrupts.View() == []
      ensures this.interrupts == interrupts && interrupts.Valid() && View(0) == IDLE
    {
      this.interrupts := interrupts;
      pending, submitted, callbacks, injected, taken := [], [], [], [], [];
    }

    ghost function View(pp: nat): Bus
      reads this, interrupts
    {
      Bus(pending, pp, interrupts.View(), submitted, callbacks, injected, taken)
    }

    /** libusb_submit_transfer: false for the kinds it does not support. */
    method SubmitTransfer(t: Transfer, now: TimeVal) returns (ok: bool)
      modifies this
      ensures ok <==> t.kind != Unsupported
      ensures View(0) == Apply(old(View(0)), Submit(t, now))
    {
      if t.kind != InterruptIn && t.kind != InterruptOut && t.kind != Bulk {
        return false;
      }
      var deadline := TimeVal(0, 0);
      if t.timeout > 0 {
        deadline := InterruptList.TriggerTime(now, t.timeout);
      }
      pending := [Pending(t, deadline, now)] + pending;
      submitted := submitted + [t];
      ok := true;
    }

    /** finish_entry; returns where the walk's link pointer is afterwards. */
    method FinishEntry(pp: nat, status: Status, ghost event: Option<Entry>, ghost at: TimeVal, again: TimeVal)
      returns (next: nat)
      requires pp < |pending| && (forall i :: 0 <= i < |pending| ==> pending[i].t.kind != Unsupported)
      modifies this
      ensures View(next) == Finish(old(View(pp)), status, event, at, again)
    {
      var e := pending[pp];
      pending := pending[..pp] + pending[pp + 1..];
      callbacks := callbacks + [Callback(e, status, event, at)];
      next := pp;
      if e.t.resubmits {
        var _ := SubmitTransfer(e.t, again);
        next := if pp == 0 then 0 else pp + 1;
      }
    }

    /** libusb_cancel_transfer: false when the transfer is not pending. */
    method CancelTransfer(t: Transfer, now: TimeVal) returns (found: bool)
      requires forall i :: 0 <= i < |pending| ==> pending[i].t.kind != Unsupported
      modifies this
      ensures found <==> exists k :: 0 <= k < |old(pending)| && old(pending)[k].t == t
      ensures View(0) == Apply(old(View(0)), Cancel(t, now))
      ensures !found ==> pending == old(pending) && callbacks == old(callbacks)
      ensures found ==>
                && |callbacks| == |old(callbacks)| + 1 && old(callbacks) <= callbacks
                && callbacks[|old(callbacks)|].p.t == t && callbacks[|old(callbacks)|].status == Cancelled
                && callbacks[|old(callbacks)|].event == None
    {
      CancelIsExact(View(0), t, now);
      var pp := 0;
      while pp < |pending| && pending[pp].t != t
        invariant pp <= |pending| && forall k :: 0 <= k < pp ==> pending[k].t != t
      {
        pp := pp + 1;
      }
      assert FindPending(pending, t) == pp;
      if pp == |pending| {
        return false;
      }
      var _ := FinishEntry(pp, Cancelled, None, now, now);
      found := true;
    }

    /** One turn of the inner loop of handle_events_impl. */
    method TurnAt(pp: nat, at: TimeVal, later: TimeVal, again: TimeVal, rc: int) returns (next: nat)
      requires interrupts.Valid() && pp < |pending| && Reading(at) && Reading(later)
      requires forall i :: 0 <= i < |pending| ==> pending[i].t.kind != Unsupported
      modifies this, interrupts, interrupts.nodes
      ensures interrupts.Valid() && Among(interrupts.nodes, old(interrupts.nodes))
      ensures View(next) == Visit(old(View(pp)), at, later, again, rc)
    {
      hide InterruptList.Valid, InterruptList.View, ReadIntAt, Remove;
      var t := pending[pp].t;
      if t.timeout > 0 && !Before(at, pending[pp].deadline) {
        next := FinishEntry(pp, TimedOut, None, at, again);
      } else if t.kind == InterruptOut {
        next := FinishEntry(pp, Completed(0), None, at, again);
      } else if t.kind == InterruptIn {
        ghost var q := interrupts.View();
        var data := interrupts.ReadInterrupt(at, later, 0, t.length);
        if data.None? {
          return pp + 1;
        }
        ghost var e := q[ReadIntAt(q, at, later, 0)];
        taken := taken + [e];
        next := FinishEntry(pp, Completed(|data.value|), Some(e), at, again);
      } else if rc == GP_ERROR_TIMEOUT {
        next := pp + 1;
      } else {
        next := FinishEntry(pp, StatusOf(rc), None, at, again);
      }
    }

    /**
     Any number of turns of the two loops of handle_events_impl, whatever the clock and the
     bulk endpoints say at each; a round that came to its end is followed by the next.
     */
    method HandleTurns(turns: seq<Op>) returns (pp: nat)
      requires interrupts.Valid() && Supported(View(0))
      requires forall i :: 0 <= i < |turns| ==> turns[i].Turn? && Clocked(turns[i])
      modifies this, interrupts, interrupts.nodes
      ensures interrupts.Valid() && View(pp) == Walk(old(View(0)), turns)
    {
      hide InterruptList.Valid, InterruptList.View, Visit;
      pp := 0;
      for i := 0 to |turns|
        invariant interrupts.Valid() && Among(interrupts.nodes, old(interrupts.nodes))
        invariant Supported(View(pp)) && View(pp) == Walk(old(View(0)), turns[..i])
      {
        assert turns[..i + 1][..i] == turns[..i];
        ghost var b := View(pp);
        VisitSupports(b, turns[i]);
        PastTheEnd(b, turns[i]);
        if pp < |pending| {
          pp := TurnAt(pp, turns[i].at, turns[i].later, turns[i].again, turns[i].rc);
        } else {
          pp := 0;
        }
      }
      assert turns[..|turns|] == turns;
    }

    /** A round of the inner loop over any pool of transfers it can come to the end of. */
    method HandleRound(now: TimeVal, bulk: Transfer -> int)
      requires interrupts.Valid() && Supported(View(0)) && Reading(now) && Ends(View(0), now, bulk)
      modifies this, interrupts, interrupts.nodes
      ensures interrupts.Valid() && View(|pending|) == Round(old(View(0)), now, bulk)
    {
      hide InterruptList.Valid, InterruptList.View, Visit, Ends;
      var pp: nat := 0;
      while pp < |pending|
        invariant interrupts.Valid() && Among(interrupts.nodes, old(interrupts.nodes))
        invariant pp <= |pending| && Supported(View(pp)) && Ends(View(pp), now, bulk)
        invariant Round(View(pp), now, bulk) == Round(old(View(0)), now, bulk)
        decreases |interrupts.View()|, ExpiredOnes(pending, now), |pending| - pp
      {
        ghost var b := View(pp);
        VisitAdvances(b, now, bulk);
        pp := TurnAt(pp, now, now, now, bulk(pending[pp].t));
      }
    }
  }

  lemma PastTheEnd(b: Bus, op: Op)
    requires op.Turn?
    ensures Apply(b, op) == Visit(b, op.at, op.later, op.again, op.rc)
    ensures b.pp >= |b.pending| ==> Apply(b, op) == b.(pp := 0)
  {
  }

  lemma FinishSupports(b: Bus, again: TimeVal)
    requires Supported(b) && b.pp < |b.pending|
    ensures forall status, event, at :: Supported(Finish(b, status, event, at, again))
  {
    WithoutKind(b, again);
    hide Without, NewPending;
  }

  lemma SamePending(b: Bus, r: Bus)
    requires r.pending == b.pending && r.pp == b.pp
    ensures Supported(r) <==> Supported(b)
  {
  }

  lemma VisitSupports(b: Bus, op: Op)
    requires Supported(b) && op.Turn?
    ensures Supported(Apply(b, op))
  {
    hide ReadIntAt, Remove, Finish, Supported, Expired, StatusOf;
    SameList(b);
    if b.pp < |b.pending| {
      FinishSupports(b, op.again);
      var i := ReadIntAt(b.queue, op.at, op.later, 0);
      if i < |b.queue| {
        var taken := b.(queue := Remove(b.queue, i), taken := b.taken + [b.queue[i]]);
        SamePending(b, taken);
        FinishSupports(taken, op.again);
      }
    }
  }

  lemma SameList(b: Bus)
    ensures forall pp: nat :: Supported(b.(pp := pp)) <==> Supported(b)
  {
  }
}
