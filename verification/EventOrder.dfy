/**
 The order in which the entries of a channel leave the event list, over whole runs: first in,
 first out but for the trigger times (`src/vcamera.c`, `src/vcam.h`).

 Entries are told apart by the number of the injection that queued them.
 */
module EventOrder {
  import opened Bytes
  import opened Clock
  import opened EventQueue

  datatype Named = Named(entry: Entry, id: nat)

  /** The list and what left it; `next` is the number of injections so far. */
  datatype Ledger = Ledger(queue: seq<Named>, taken: seq<Named>, next: nat)

  function Plain(q: seq<Named>): (es: seq<Entry>)
    ensures |es| == |q| && forall i :: 0 <= i < |q| ==> es[i] == q[i].entry
  {
    seq(|q|, i requires 0 <= i < |q| => q[i].entry)
  }

  function Follow(g: Ledger, op: Op): Ledger
  {
    if op.Inject? then
      var i := InsertAt(Plain(g.queue), Injected(op).trig);
      g.(queue := g.queue[..i] + [Named(Injected(op), g.next)] + g.queue[i..], next := g.next + 1)
    else
      var i := TakenAt(Plain(g.queue), op);
      if i == |g.queue| then g
      else g.(queue := g.queue[..i] + g.queue[i + 1..], taken := g.taken + [g.queue[i]])
  }

  function Kept(ops: seq<Op>): Ledger
  {
    if ops == [] then Ledger([], [], 0) else Follow(Kept(ops[..|ops| - 1]), ops[|ops| - 1])
  }

  /** Without the numbers it is the run of the event list. */
  lemma {:induction false} LedgerIsRun(start: TimeVal, ops: seq<Op>)
    requires Run(start, ops).Some?
    ensures Plain(Kept(ops).queue) == Run(start, ops).value.queue
    ensures Plain(Kept(ops).taken) == Entries(Run(start, ops).value.delivered)
  {
    if ops == [] {
    } else {
      hide *;
      var n := |ops| - 1;
      RunParts(start, ops);
      LedgerIsRun(start, ops[..n]);
      KeptParts(ops);
      FollowIsStep(Kept(ops[..n]), Run(start, ops[..n]).value, ops[n]);
    }
  }

  lemma KeptParts(ops: seq<Op>)
    requires ops != []
    ensures Kept(ops) == Follow(Kept(ops[..|ops| - 1]), ops[|ops| - 1])
  {
    hide Follow;
  }

  lemma FollowIsStep(g: Ledger, h: History, op: Op)
    requires Plain(g.queue) == h.queue && Plain(g.taken) == Entries(h.delivered)
    ensures Plain(Follow(g, op).queue) == Step(h, op).queue
    ensures Plain(Follow(g, op).taken) == Entries(Step(h, op).delivered)
  {
    hide InsertAt, TakenAt, Entries;
    if op.Inject? {
      var i := InsertAt(h.queue, Injected(op).trig);
      PlainParts(g.queue[..i] + [Named(Injected(op), g.next)], g.queue[i..]);
      PlainParts(g.queue[..i], [Named(Injected(op), g.next)]);
      PlainSlices(g.queue, i);
    } else {
      var i := TakenAt(h.queue, op);
      if i < |h.queue| {
        PlainParts(g.queue[..i], g.queue[i + 1..]);
        PlainSlices(g.queue, i);
        PlainSlices(g.queue, i + 1);
        PlainParts(g.taken, [g.queue[i]]);
        EntriesSnoc(h.delivered, Delivery(h.queue[i], By(op), op.now));
      }
    }
  }

  lemma PlainParts(a: seq<Named>, b: seq<Named>)
    ensures Plain(a + b) == Plain(a) + Plain(b)
    ensures |b| == 1 ==> Plain(b) == [b[0].entry]
  {
  }

  lemma PlainSlices(q: seq<Named>, i: nat)
    requires i <= |q|
    ensures Plain(q[..i]) == Plain(q)[..i] && Plain(q[i..]) == Plain(q)[i..]
  {
  }

  // ---- One line ------------------------------------------------------------------------------

  /** What left, in the order it left, and then what waits. */
  function Line(g: Ledger): seq<Named>
  {
    g.taken + g.queue
  }

  ghost predicate Numbered(g: Ledger)
  {
    && (forall i :: 0 <= i < |Line(g)| ==> Line(g)[i].id < g.next)
    && (forall i, j :: 0 <= i < j < |Line(g)| ==> Line(g)[i].id != Line(g)[j].id)
  }

  ghost predicate Stands(l: seq<Named>, i: int, x: Named)
  {
    0 <= i < |l| && l[i] == x
  }

  ghost predicate Precedes(l: seq<Named>, x: Named, y: Named)
  {
    exists i, j :: i < j && Stands(l, i, x) && Stands(l, j, y)
  }

  /** Where the elements of a line are once the one at `m + i` has gone forward to `m`. */
  lemma MovedUp(taken: seq<Named>, q: seq<Named>, i: nat)
    requires i < |q|
    ensures var l, l' := taken + q, (taken + [q[i]]) + (q[..i] + q[i + 1..]);
            && |l'| == |l| && l'[|taken|] == q[i]
            && (forall p :: 0 <= p < |taken| ==> l'[p] == l[p])
            && (forall p :: |taken| <= p < |taken| + i ==> l'[p + 1] == l[p])
            && (forall p :: |taken| + i < p < |l| ==> l'[p] == l[p])
            && (forall p :: |taken| < p <= |taken| + i ==> l'[p] == l[p - 1])
  {
  }

  lemma PutIn(taken: seq<Named>, q: seq<Named>, i: nat, x: Named)
    requires i <= |q|
    ensures var l, l' := taken + q, taken + (q[..i] + [x] + q[i..]);
            && |l'| == |l| + 1 && l'[|taken| + i] == x
            && (forall p :: 0 <= p < |taken| + i ==> l'[p] == l[p])
            && (forall p :: |taken| + i <= p < |l| ==> l'[p + 1] == l[p])
            && (forall p :: |taken| + i < p < |l'| ==> l'[p] == l[p - 1])
  {
  }

  /** Nobody is taken while another of the channel waits in front of it: two of a channel stay in order. */
  lemma FollowKeepsOrder(g: Ledger, op: Op, x: Named, y: Named)
    requires Precedes(Line(g), x, y) && x.entry.channel == y.entry.channel
    requires !op.Inject? && TakenAt(Plain(g.queue), op) < |g.queue| ==>
               var i := TakenAt(Plain(g.queue), op);
               forall k :: 0 <= k < i ==> g.queue[k].entry.channel != g.queue[i].entry.channel
    ensures Precedes(Line(Follow(g, op)), x, y)
  {
    hide InsertAt, TakenAt, Plain, Precedes;
    if op.Inject? {
      PutKeepsOrder(g.taken, g.queue, InsertAt(Plain(g.queue), Injected(op).trig), Named(Injected(op), g.next), x, y);
    } else if TakenAt(Plain(g.queue), op) < |g.queue| {
      MoveKeepsOrder(g.taken, g.queue, TakenAt(Plain(g.queue), op), x, y);
    }
  }

  lemma PutKeepsOrder(taken: seq<Named>, q: seq<Named>, i: nat, z: Named, x: Named, y: Named)
    requires i <= |q| && Precedes(taken + q, x, y)
    ensures Precedes(taken + (q[..i] + [z] + q[i..]), x, y)
  {
    var s, t :| s < t && Stands(taken + q, s, x) && Stands(taken + q, t, y);
    var m := |taken|;
    PutIn(taken, q, i, z);
    var l' := taken + (q[..i] + [z] + q[i..]);
    assert Stands(l', if s < m + i then s else s + 1, x) && Stands(l', if t < m + i then t else t + 1, y);
  }

  lemma MoveKeepsOrder(taken: seq<Named>, q: seq<Named>, i: nat, x: Named, y: Named)
    requires i < |q| && Precedes(taken + q, x, y) && x.entry.channel == y.entry.channel
    requires forall k :: 0 <= k < i ==> q[k].entry.channel != q[i].entry.channel
    ensures Precedes((taken + [q[i]]) + (q[..i] + q[i + 1..]), x, y)
  {
    var s, t :| s < t && Stands(taken + q, s, x) && Stands(taken + q, t, y);
    var m := |taken|;
    MovedUp(taken, q, i);
    assert m <= s < m + i ==> x == q[s - m];
    assert t == m + i ==> s < m;
    var l' := (taken + [q[i]]) + (q[..i] + q[i + 1..]);
    var s' := if s == m + i then m else if m <= s < m + i then s + 1 else s;
    var t' := if t == m + i then m else if m <= t < m + i then t + 1 else t;
    assert s' < t' && Stands(l', s', x) && Stands(l', t', y);
  }

  lemma FollowNumbers(g: Ledger, op: Op)
    requires Numbered(g)
    ensures Numbered(Follow(g, op))
  {
    hide InsertAt, TakenAt, Plain;
    if op.Inject? {
      PutKeepsNumbers(g.taken, g.queue, InsertAt(Plain(g.queue), Injected(op).trig), Injected(op), g.next);
    } else if TakenAt(Plain(g.queue), op) < |g.queue| {
      MoveKeepsNumbers(g.taken, g.queue, TakenAt(Plain(g.queue), op), g.next);
    }
  }

  lemma PutKeepsNumbers(taken: seq<Named>, q: seq<Named>, i: nat, e: Entry, next: nat)
    requires i <= |q| && Numbered(Ledger(q, taken, next))
    ensures Numbered(Ledger(q[..i] + [Named(e, next)] + q[i..], taken, next + 1))
  {
    PutIn(taken, q, i, Named(e, next));
    var l, l', m := taken + q, taken + (q[..i] + [Named(e, next)] + q[i..]), |taken| + i;
    assert Line(Ledger(q, taken, next)) == l;
    assert Line(Ledger(q[..i] + [Named(e, next)] + q[i..], taken, next + 1)) == l';
    assert l'[m].id == next;
    forall j | 0 <= j < |l'| && j != m
      ensures l'[j].id < next && l'[j] == l[if j < m then j else j - 1]
    {
    }
    forall j, k | 0 <= j < k < |l'|
      ensures l'[j].id != l'[k].id
    {
      if j != m && k != m {
        assert (if j < m then j else j - 1) < (if k < m then k else k - 1);
      }
    }
  }

  lemma MoveKeepsNumbers(taken: seq<Named>, q: seq<Named>, i: nat, next: nat)
    requires i < |q| && Numbered(Ledger(q, taken, next))
    ensures Numbered(Ledger(q[..i] + q[i + 1..], taken + [q[i]], next))
  {
    var l, l', m := taken + q, (taken + [q[i]]) + (q[..i] + q[i + 1..]), |taken|;
    MovedFrom(taken, q, i);
    LineIs(Ledger(q, taken, next));
    LineIs(Ledger(q[..i] + q[i + 1..], taken + [q[i]], next));
    Places(|l|, m, i);
    hide Line, From;
    forall j, k | 0 <= j < k < |l'|
      ensures l'[j].id != l'[k].id
    {
      assert l'[j] == l[From(j, m, i)] && l'[k] == l[From(k, m, i)];
      assert From(j, m, i) != From(k, m, i);
    }
  }

  lemma LineIs(g: Ledger)
    ensures Line(g) == g.taken + g.queue
  {
  }

  lemma MovedFrom(taken: seq<Named>, q: seq<Named>, i: nat)
    requires i < |q|
    ensures var l, l' := taken + q, (taken + [q[i]]) + (q[..i] + q[i + 1..]);
            |l'| == |l| && forall p :: 0 <= p < |l'| ==> From(p, |taken|, i) < |l| && l'[p] == l[From(p, |taken|, i)]
  {
    MovedUp(taken, q, i);
  }

  lemma Places(n: nat, m: nat, i: nat)
    requires m + i < n
    ensures forall p, r :: 0 <= p < r < n ==> From(p, m, i) != From(r, m, i)
  {
  }

  /** Where the element at `p` was before the one at `m + i` went forward to `m`. */
  function From(p: nat, m: nat, i: nat): nat
  {
    if p == m then m + i else if m < p <= m + i then p - 1 else p
  }

  lemma {:induction false} AlwaysNumbered(ops: seq<Op>)
    ensures Numbered(Kept(ops))
  {
    if ops == [] {
    } else {
      AlwaysNumbered(ops[..|ops| - 1]);
      FollowNumbers(Kept(ops[..|ops| - 1]), ops[|ops| - 1]);
      hide Numbered, Follow;
    }
  }

  lemma Shorter<T>(s: seq<T>, m: nat, n: nat)
    requires n <= m <= |s|
    ensures s[..m][..n] == s[..n]
  {
  }

  /** Once two entries of a channel are queued their order is settled. */
  lemma {:induction false} OrderStays(start: TimeVal, ops: seq<Op>, n: nat, x: Named, y: Named)
    requires Reading(start) && Run(start, ops).Some? && n <= |ops| && x.entry.channel == y.entry.channel
    requires Precedes(Line(Kept(ops[..n])), x, y)
    ensures Precedes(Line(Kept(ops)), x, y)
    decreases |ops|
  {
    if n == |ops| {
      assert ops[..n] == ops;
      hide *;
    } else {
      hide *;
      var m := |ops| - 1;
      RunParts(start, ops);
      Shorter(ops, m, n);
      OrderStays(start, ops[..m], n, x, y);
      KeptParts(ops);
      TakesTheFirst(start, ops);
      FollowKeepsOrder(Kept(ops[..m]), ops[m], x, y);
    }
  }

  lemma TakesTheFirst(start: TimeVal, ops: seq<Op>)
    requires Reading(start) && Run(start, ops).Some? && ops != []
    ensures var g, op := Kept(ops[..|ops| - 1]), ops[|ops| - 1];
            !op.Inject? && TakenAt(Plain(g.queue), op) < |g.queue| ==>
              var i := TakenAt(Plain(g.queue), op);
              forall k :: 0 <= k < i ==> g.queue[k].entry.channel != g.queue[i].entry.channel
  {
    hide Run, Kept, TakenAt, Inv, Plain, Sorted;
    var n := |ops| - 1;
    RunParts(start, ops);
    RunKeepsOrder(start, ops[..n]);
    QueueIsSorted(Run(start, ops[..n]).value);
    LedgerIsRun(start, ops[..n]);
    var q := Plain(Kept(ops[..n]).queue);
    if !ops[n].Inject? && TakenAt(q, ops[n]) < |q| {
      TakenIsFirst(q, ops[n]);
    }
  }

  /** Where an injection puts its entry, among those that left and those that wait. */
  lemma InjectionPlaces(g: Ledger, op: Op, s: nat)
    requires op.Inject? && Sorted(Plain(g.queue)) && s < |Line(g)|
    ensures var x, y := Line(g)[s], Named(Injected(op), g.next);
            var l := Line(Follow(g, op));
            if s < |g.taken| || Before(x.entry.trig, y.entry.trig) then Precedes(l, x, y) else Precedes(l, y, x)
  {
    var x, y := Line(g)[s], Named(Injected(op), g.next);
    var i, m, l := InsertAt(Plain(g.queue), Injected(op).trig), |g.taken|, Line(Follow(g, op));
    if s >= m {
      TiesAreNewestFirst(Plain(g.queue), Injected(op), s - m);
    }
    hide InsertAt, Sorted, Plain;
    PutIn(g.taken, g.queue, i, y);
    assert Stands(l, m + i, y) && Stands(l, if s < m + i then s else s + 1, x);
  }

  lemma OneOrder(g: Ledger, x: nat, y: nat)
    requires Numbered(g) && x < |g.taken| && y < |g.taken|
    ensures Precedes(Line(g), g.taken[x], g.taken[y]) ==> x < y
  {
    var l := Line(g);
    assert l[x] == g.taken[x] && l[y] == g.taken[y];
    if Precedes(l, g.taken[x], g.taken[y]) {
      var i, j :| i < j && Stands(l, i, g.taken[x]) && Stands(l, j, g.taken[y]);
      assert i == x && j == y;
    }
  }

  /**
   Over every run, pops that take an entry before it is due included: of two entries of one
   channel the one that was injected first leaves first exactly if it had left when the
   other was injected, or triggers strictly before it. With equal trigger times the later
   injection leaves first.
   */
  lemma FirstInFirstOutIff(start: TimeVal, ops: seq<Op>, n: nat, s: nat, x: nat, y: nat)
    requires Reading(start) && Run(start, ops).Some? && n < |ops| && ops[n].Inject?
    requires s < |Line(Kept(ops[..n]))| && Line(Kept(ops[..n]))[s].entry.channel == ops[n].channel
    requires x < |Kept(ops).taken| && Kept(ops).taken[x] == Line(Kept(ops[..n]))[s]
    requires y < |Kept(ops).taken| && Kept(ops).taken[y] == Named(Injected(ops[n]), Kept(ops[..n]).next)
    ensures var g := Kept(ops[..n]);
            x < y <==> s < |g.taken| || Before(Line(g)[s].entry.trig, Injected(ops[n]).trig)
    ensures Plain(Kept(ops).taken) == Entries(Run(start, ops).value.delivered)
  {
    hide Run, Kept, Line, Precedes, Numbered, Sorted, Inv, Before, Plain;
    var g := Kept(ops[..n]);
    var a, b := Line(g)[s], Named(Injected(ops[n]), g.next);
    PrefixRuns(start, ops, n);
    RunKeepsOrder(start, ops[..n]);
    QueueIsSorted(Run(start, ops[..n]).value);
    LedgerIsRun(start, ops[..n]);
    LedgerIsRun(start, ops);
    InjectionPlaces(g, ops[n], s);
    assert ops[..n + 1][..n] == ops[..n];
    KeptParts(ops[..n + 1]);
    if s < |g.taken| || Before(a.entry.trig, b.entry.trig) {
      OrderStays(start, ops, n + 1, a, b);
    } else {
      OrderStays(start, ops, n + 1, b, a);
    }
    AlwaysNumbered(ops);
    OneOrder(Kept(ops), x, y);
    OneOrder(Kept(ops), y, x);
  }

  lemma {:induction false} PrefixRuns(start: TimeVal, ops: seq<Op>, n: nat)
    requires Run(start, ops).Some? && n <= |ops|
    ensures Run(start, ops[..n]).Some?
    decreases |ops|
  {
    if n == |ops| {
      assert ops[..n] == ops;
    } else {
      hide *;
      RunParts(start, ops);
      PrefixRuns(start, ops[..|ops| - 1], n);
      Shorter(ops, |ops| - 1, n);
    }
  }
}
