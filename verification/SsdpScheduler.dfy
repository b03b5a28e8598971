/**
 Canon's SSDP responder: a table of timer slots and a ring of outgoing multicast messages
 that leave at least 120 ms apart (`src/canon/ssdp.c`).

 Sockets and message text are outside the model: a queued message is an alive or a byebye
 notification, a search is the values of its headers, its answer the delay it was given.
 */
module SsdpScheduler {
  import opened Bytes

  const MAX_TIMERS: int := 256
  const MSGQ_SIZE: int := 128
  const MSG_DELAY_MS: int := 120
  const ANNOUNCE_COUNT: int := 3
  const REANNOUNCE_MS: int := 599000

  datatype Msg = Alive | Byebye

  datatype Callback = MsgqTick | ReannounceTick | DelayedResponse

  datatype Timer = Timer(deadline: int, fn: Callback, active: bool)

  /** A message that left the queue, and when. */
  datatype Send = Send(msg: Msg, at: int)

  /** The headers a search is judged by, where it has them. */
  datatype Headers = Headers(man: Option<string>, mx: Option<string>, st: Option<string>)

  /** What a round of the main loop finds on the socket, and the random number drawn for it. */
  datatype Input = Search(search: Headers, random: nat) | Nothing

  // ---- Searches ------------------------------------------------------------------------

  const DISCOVER: string := "\"ssdp:discover\""

  function Digits(s: string, n: nat): nat
  {
    if s == [] || !('0' <= s[0] <= '9') then n else Digits(s[1..], 10 * n + (s[0] - '0') as int)
  }

  /** The number in front of a text, behind blanks and a sign; 0 where there is none. */
  function Atoi(s: string): int
  {
    if s == [] then 0
    else if s[0] == ' ' || '\t' <= s[0] <= '\r' then Atoi(s[1..])
    else if s[0] == '-' then -(Digits(s[1..], 0) as int)
    else if s[0] == '+' then Digits(s[1..], 0)
    else Digits(s, 0)
  }

  predicate IsSearch(search: Headers)
  {
    && search.man == Some(DISCOVER)
    && search.mx.Some? && Atoi(search.mx.value) > 0
    && search.st.Some?
  }

  ghost predicate AllDigits(s: string)
  {
    forall i :: 0 <= i < |s| ==> '0' <= s[i] <= '9'
  }

  ghost predicate AllBlank(s: string)
  {
    forall i :: 0 <= i < |s| ==> s[i] == ' ' || 9 <= s[i] as int <= 13
  }

  /** The number that digits write. */
  ghost function Decimal(digits: string): nat
    requires AllDigits(digits)
  {
    if digits == [] then 0 else 10 * Decimal(digits[..|digits| - 1]) + (digits[|digits| - 1] as int - 0x30)
  }

  lemma {:induction false} DigitsFrom(digits: string, rest: string, n: nat)
    requires AllDigits(digits) && n <= |digits|
    ensures Digits(digits + rest, 0) == Digits(digits[n..] + rest, Decimal(digits[..n]))
    decreases n
  {
    if n == 0 {
      assert digits[0..] == digits && digits[..0] == [];
    } else {
      DigitsFrom(digits, rest, n - 1);
      OneDigit(digits, rest, n);
    }
  }

  lemma DigitsAre(digits: string, rest: string)
    requires AllDigits(digits) && (rest != [] ==> !('0' <= rest[0] <= '9'))
    ensures Digits(digits + rest, 0) == Decimal(digits)
  {
    var n := |digits|;
    DigitsFrom(digits, rest, n);
    assert digits[n..] + rest == rest && digits[..n] == digits;
  }

  lemma OneDigit(digits: string, rest: string, n: nat)
    requires AllDigits(digits) && 0 < n <= |digits|
    ensures Digits(digits[n - 1..] + rest, Decimal(digits[..n - 1])) == Digits(digits[n..] + rest, Decimal(digits[..n]))
  {
    var s := digits[n - 1..] + rest;
    assert s[1..] == digits[n..] + rest && s[0] == digits[n - 1];
    assert digits[..n][..n - 1] == digits[..n - 1] && digits[..n][n - 1] == digits[n - 1];
  }

  lemma {:induction false} BlanksGo(blanks: string, s: string)
    requires AllBlank(blanks)
    ensures Atoi(blanks + s) == Atoi(s)
    decreases |blanks|
  {
    if blanks == [] {
      assert blanks + s == s;
    } else {
      BlanksGo(blanks[1..], s);
      assert (blanks + s)[1..] == blanks[1..] + s && (blanks + s)[0] == blanks[0];
    }
  }

  /** A text that begins with blanks, perhaps a sign, and digits, as far as these go, has their number. */
  lemma AtoiReads(blanks: string, sign: string, digits: string, rest: string)
    requires AllBlank(blanks) && AllDigits(digits) && (rest != [] ==> !('0' <= rest[0] <= '9'))
    requires sign == "-" || sign == "+" || (sign == "" && (digits == [] && rest != [] ==> rest[0] !in "-+" && !AllBlank(rest[..1])))
    ensures Atoi(blanks + (sign + (digits + rest))) == if sign == "-" then 0 - Decimal(digits) else Decimal(digits)
  {
    var s := digits + rest;
    BlanksGo(blanks, sign + s);
    DigitsAre(digits, rest);
    if sign == "" {
      assert sign + s == s;
    } else {
      assert (sign + s)[0] == sign[0] && (sign + s)[1..] == s;
    }
  }

  /** The searches that are answered: the one method, a positive MX, and a target of any kind. */
  lemma SearchesAre(search: Headers)
    ensures IsSearch(search) <==>
            search.man == Some("\"ssdp:discover\"") && search.mx.Some? && Atoi(search.mx.value) >= 1 && search.st.Some?
  {
  }

  // ---- Pacing -----  // ---- Pacing --------------------------------------------------------------------------

  /** Neighbouring sends are at least 120 ms apart. */
  ghost predicate Paced(sent: seq<Send>)
  {
    forall i :: 0 <= i < |sent| - 1 ==> sent[i + 1].at >= sent[i].at + 120
  }

  ghost function Msgs(sent: seq<Send>): (ms: seq<Msg>)
    ensures |ms| == |sent| && forall i :: 0 <= i < |ms| ==> ms[i] == sent[i].msg
  {
    seq(|sent|, i requires 0 <= i < |sent| => sent[i].msg)
  }

  /** So no stretch of time sees more sends than one per 120 ms, and one. */
  lemma {:induction false} PacedSpan(sent: seq<Send>, i: nat, j: nat)
    requires Paced(sent) && i <= j < |sent|
    ensures sent[j].at - sent[i].at >= 120 * (j - i)
    decreases j - i
  {
    if i < j {
      PacedSpan(sent, i, j - 1);
      assert sent[j - 1 + 1].at >= sent[j - 1].at + 120;
    }
  }

  lemma PacedSnoc(sent: seq<Send>, s: Send)
    requires Paced(sent) && (sent != [] ==> s.at >= sent[|sent| - 1].at + 120)
    ensures Paced(sent + [s]) && Msgs(sent + [s]) == Msgs(sent) + [s.msg]
  {
  }

  lemma OneSent(accepted: seq<Msg>, sent: seq<Send>, s: Send, rest: seq<Msg>)
    requires accepted == Msgs(sent) + ([s.msg] + rest) && Paced(sent)
    requires sent != [] ==> s.at >= sent[|sent| - 1].at + 120
    ensures accepted == Msgs(sent + [s]) + rest && Paced(sent + [s])
  {
    PacedSnoc(sent, s);
    hide Paced, Msgs;
    assert Msgs(sent) + ([s.msg] + rest) == Msgs(sent) + [s.msg] + rest;
  }

  // ---- The table of timers ---------------------------------------------------------------

  /** Every active timer of `now` was there before, or is armed for 120 ms or more after `since`. */
  ghost predicate OldOrLater(was: seq<Timer>, now: seq<Timer>, since: int)
  {
    |now| == |was| && forall k :: 0 <= k < |now| && now[k].active ==> now[k] == was[k] || now[k].deadline >= since + 120
  }

  /** Slot `slot` was free and holds a timer now, nothing else changed; nothing at all where there is no such slot. */
  ghost predicate Takes(was: seq<Timer>, now: seq<Timer>, slot: int, fn: Callback)
  {
    && |now| == |was| && slot < |was|
    && (if slot < 0 then now == was
        else !was[slot].active && now[slot].active && now[slot].fn == fn && now == was[slot := now[slot]])
  }

  function Free(ts: seq<Timer>): (n: nat)
    ensures n <= |ts|
  {
    if ts == [] then 0 else Free(ts[..|ts| - 1]) + if ts[|ts| - 1].active then 0 else 1
  }

  /** The deadlines of the search answers that wait. */
  function Pending(ts: seq<Timer>): multiset<int>
  {
    if ts == [] then multiset{}
    else
      Pending(ts[..|ts| - 1]) + Waits(ts[|ts| - 1])
  }

  lemma {:induction false} SlotChanges(ts: seq<Timer>, i: nat, t: Timer)
    requires i < |ts|
    ensures Free(ts[i := t]) + (if ts[i].active then 0 else 1) == Free(ts) + if t.active then 0 else 1
    ensures Pending(ts[i := t]) + Waits(ts[i]) == Pending(ts) + Waits(t)
    decreases |ts|
  {
    hide *;
    var n := |ts| - 1;
    var us := ts[i := t];
    LastSlot(ts);
    LastSlot(us);
    if i == n {
      assert us[..n] == ts[..n];
    } else {
      SlotChanges(ts[..n], i, t);
      assert us[..n] == ts[..n][i := t];
      BesideLast(Pending(us[..n]), Waits(ts[i]), Pending(ts[..n]), Waits(t), Waits(ts[n]));
    }
  }

  lemma BesideLast(a: multiset<int>, b: multiset<int>, c: multiset<int>, d: multiset<int>, last: multiset<int>)
    requires a + b == c + d
    ensures a + last + b == c + last + d
  {
    assert a + last + b == a + b + last;
    assert c + last + d == c + d + last;
  }

  lemma LastSlot(ts: seq<Timer>)
    requires ts != []
    ensures var n := |ts| - 1;
            && Free(ts) == Free(ts[..n]) + (if ts[n].active then 0 else 1)
            && Pending(ts) == Pending(ts[..n]) + Waits(ts[n])
  {
  }

  function Waits(t: Timer): multiset<int>
  {
    if t.active && t.fn == DelayedResponse then multiset{t.deadline} else multiset{}
  }

  /** A new timer uses up one free slot; only search answers change what waits. */
  lemma TakesOne(was: seq<Timer>, now: seq<Timer>, slot: int, fn: Callback)
    requires Takes(was, now, slot, fn)
    ensures Free(now) == Free(was) - if slot < 0 then 0 else 1
    ensures if slot < 0 || fn != DelayedResponse then Pending(now) == Pending(was)
            else Pending(now) == Pending(was) + multiset{now[slot].deadline}
  {
    hide Free, Pending;
    if slot >= 0 {
      SlotChanges(was, slot, now[slot]);
      assert Pending(now) + multiset{} == Pending(now) && Pending(was) + multiset{} == Pending(was);
    }
  }

  /** A timer that is run gives its slot back. */
  lemma GivesBack(ts: seq<Timer>, i: nat)
    requires i < |ts| && ts[i].active
    ensures Free(ts[i := ts[i].(active := false)]) == Free(ts) + 1
    ensures var us := ts[i := ts[i].(active := false)];
            if ts[i].fn == DelayedResponse then Pending(ts) == Pending(us) + multiset{ts[i].deadline} else Pending(us) == Pending(ts)
  {
    hide Free, Pending;
    var us := ts[i := ts[i].(active := false)];
    SlotChanges(ts, i, ts[i].(active := false));
    assert Pending(us) + multiset{} == Pending(us) && Pending(ts) + multiset{} == Pending(ts);
  }

  lemma {:induction false} NoneFree(ts: seq<Timer>)
    ensures Free(ts) == 0 <==> forall k :: 0 <= k < |ts| ==> ts[k].active
  {
    if ts == [] {
    } else {
      var n := |ts| - 1;
      NoneFree(ts[..n]);
      assert forall k :: 0 <= k < n ==> ts[..n][k] == ts[k];
    }
  }

  lemma {:induction false} AllFree(ts: seq<Timer>)
    requires forall k :: 0 <= k < |ts| ==> !ts[k].active
    ensures Free(ts) == |ts| && Pending(ts) == multiset{}
  {
    if ts == [] {
    } else {
      AllFree(ts[..|ts| - 1]);
    }
  }

  lemma {:induction false} PendingAreActive(ts: seq<Timer>, d: int)
    requires d in Pending(ts)
    ensures exists k :: 0 <= k < |ts| && ts[k].active && ts[k].deadline == d
  {
    var n := |ts| - 1;
    if ts[n].active && ts[n].deadline == d {
    } else {
      PendingAreActive(ts[..n], d);
      var k :| 0 <= k < n && ts[..n][k].active && ts[..n][k].deadline == d;
      assert ts[k] == ts[..n][k];
    }
  }

  /** Where the one timer with callback `fn` is; -1 for none. */
  ghost predicate Only(ts: seq<Timer>, fn: Callback, slot: int)
  {
    && -1 <= slot < |ts|
    && forall i :: 0 <= i < |ts| ==> (ts[i].active && ts[i].fn == fn <==> i == slot)
  }

  lemma TakesOnly(was: seq<Timer>, now: seq<Timer>, slot: int, fn: Callback)
    requires Takes(was, now, slot, fn) && Only(was, fn, -1)
    ensures Only(now, fn, if slot < 0 then -1 else slot)
  {
  }

  lemma SameTable(ts: seq<Timer>)
    ensures (forall fn :: Takes(ts, ts, -1, fn)) && forall since :: OldOrLater(ts, ts, since)
  {
  }

  lemma OthersStay(was: seq<Timer>, now: seq<Timer>, slot: int, fn: Callback, other: Callback, at: int)
    requires Takes(was, now, slot, fn) && fn != other
    ensures Only(was, other, at) ==> Only(now, other, at) && (at >= 0 ==> now[at] == was[at])
  {
  }

  lemma LaterStill(was: seq<Timer>, mid: seq<Timer>, now: seq<Timer>, slot: int, fn: Callback, since: int)
    requires OldOrLater(was, mid, since) && Takes(mid, now, slot, fn) && (slot >= 0 ==> now[slot].deadline >= since + 120)
    ensures OldOrLater(was, now, since)
  {
  }

  /** What pushing messages does to the table, seen from the other timers. */
  lemma AlivesTake(was: seq<Timer>, mid: seq<Timer>, tick: int, paced: bool, since: int)
    requires if paced then mid == was else Takes(was, mid, tick, MsgqTick)
    requires !paced && 0 <= tick < |mid| ==> mid[tick].deadline >= since + 120
    ensures Pending(mid) == Pending(was)
    ensures Free(mid) == Free(was) - if paced || tick < 0 then 0 else 1
    ensures OldOrLater(was, mid, since)
    ensures Only(was, ReannounceTick, -1) ==> Only(mid, ReannounceTick, -1)
  {
    hide Free, Pending, Only, OldOrLater;
    SameTable(was);
    if !paced {
      TakesOne(was, mid, tick, MsgqTick);
      OthersStay(was, mid, tick, MsgqTick, ReannounceTick, -1);
      LaterStill(was, was, mid, tick, MsgqTick, since);
    }
  }

  lemma RoundTakes(was: seq<Timer>, mid: seq<Timer>, now: seq<Timer>, slot: int, tick: int, since: int)
    requires OldOrLater(was, mid, since) && Takes(mid, now, slot, ReannounceTick)
    requires 0 <= slot < |now| ==> now[slot].deadline >= since + 120
    ensures Pending(now) == Pending(mid) && Free(now) == Free(mid) - (if slot < 0 then 0 else 1) && OldOrLater(was, now, since)
    ensures Only(mid, ReannounceTick, -1) ==> Only(now, ReannounceTick, if slot < 0 then -1 else slot)
    ensures Only(mid, MsgqTick, tick) ==> Only(now, MsgqTick, tick) && (0 <= tick < |now| == |mid| ==> now[tick] == mid[tick])
  {
    hide Free, Pending, Only, OldOrLater;
    TakesOne(mid, now, slot, ReannounceTick);
    if Only(mid, ReannounceTick, -1) {
      TakesOnly(mid, now, slot, ReannounceTick);
    }
    OthersStay(mid, now, slot, ReannounceTick, MsgqTick, tick);
    LaterStill(was, mid, now, slot, ReannounceTick, since);
  }

  lemma TickTakes(mid: seq<Timer>, now: seq<Timer>, tick: int, round: int, since: int)
    requires Takes(mid, now, tick, MsgqTick) && (0 <= tick < |now| ==> now[tick].deadline >= since + 120)
    ensures Pending(now) == Pending(mid) && OldOrLater(mid, now, since)
    ensures Only(mid, ReannounceTick, round) ==>
              Only(now, ReannounceTick, round) && (0 <= round < |now| == |mid| ==> now[round] == mid[round])
  {
    hide Free, Pending, Only, OldOrLater;
    SameTable(mid);
    TakesOne(mid, now, tick, MsgqTick);
    OthersStay(mid, now, tick, MsgqTick, ReannounceTick, round);
    LaterStill(mid, mid, now, tick, MsgqTick, since);
  }

  lemma SearchTakes(was: seq<Timer>, now: seq<Timer>, slot: int, tick: int, round: int)
    requires Takes(was, now, slot, DelayedResponse)
    ensures if slot < 0 then Pending(now) == Pending(was)
            else slot < |now| && Pending(now) == Pending(was) + multiset{now[slot].deadline}
    ensures Free(now) == Free(was) - if slot < 0 then 0 else 1
    ensures Only(was, ReannounceTick, round) ==>
              Only(now, ReannounceTick, round) && (0 <= round < |now| == |was| ==> now[round] == was[round])
    ensures Only(was, MsgqTick, tick) ==> Only(now, MsgqTick, tick) && (0 <= tick < |now| == |was| ==> now[tick] == was[tick])
  {
    hide Free, Pending, Only;
    TakesOne(was, now, slot, DelayedResponse);
    OthersStay(was, now, slot, DelayedResponse, ReannounceTick, round);
    OthersStay(was, now, slot, DelayedResponse, MsgqTick, tick);
  }

  lemma AtOrLater(was: seq<Timer>, now: seq<Timer>, since: int)
    requires OldOrLater(was, now, since)
    ensures |now| == |was|
    ensures forall k :: 0 <= k < |now| && now[k].active && now[k] != was[k] ==> now[k].deadline >= since + 120
  {
  }

  /** A timer that stops leaves the place of each kind of timer as it was, but its own. */
  lemma TimerStops(ts: seq<Timer>, i: nat, fn: Callback, at: int)
    requires i < |ts| && ts[i].active && Only(ts, fn, at)
    ensures var us := ts[i := ts[i].(active := false)];
            && (ts[i].fn == fn <==> i == at)
            && Only(us, fn, if i == at then -1 else at)
            && (i != at && at >= 0 ==> us[at] == ts[at])
            && OldOrLater(us, us, us[i].deadline)
            && forall since :: OldOrLater(us, us, since)
  {
  }

  lemma NoneWaits(ts: seq<Timer>, now: int)
    requires forall k :: 0 <= k < |ts| && ts[k].active ==> ts[k].deadline > now
    ensures forall d :: d in Pending(ts) ==> d > now
  {
    forall d | d in Pending(ts)
      ensures d > now
    {
      PendingAreActive(ts, d);
    }
  }

  // ---- The re-announcements ----------------------------------------------------------------

  /** A round of announcements: when it began, in what state, and with how many free slots. */
  datatype Announcement = Announcement(at: int, pacing: bool, free: nat)

  /** It leaves the timer of the next one behind: where no tick is armed its messages need a slot too. */
  predicate Rearms(a: Announcement)
  {
    a.free >= if a.pacing then 1 else 2
  }

  /** 599 seconds and more apart, and each but the last armed the next. */
  ghost predicate Recurring(rounds: seq<Announcement>)
  {
    forall i :: 0 <= i < |rounds| - 1 ==> Rearms(rounds[i]) && rounds[i + 1].at >= rounds[i].at + 599000
  }

  lemma RecurringSnoc(rounds: seq<Announcement>, a: Announcement)
    requires Recurring(rounds)
    requires rounds != [] ==> Rearms(rounds[|rounds| - 1]) && a.at >= rounds[|rounds| - 1].at + 599000
    ensures Recurring(rounds + [a])
  {
  }

  // ---- The search answers ------------------------------------------------------------------

  /** An answer that went out: when it was due, and when it left. */
  datatype Reply = Reply(deadline: int, at: int)

  ghost function Deadlines(ss: seq<Reply>): (ds: seq<int>)
    ensures |ds| == |ss| && forall i :: 0 <= i < |ds| ==> ds[i] == ss[i].deadline
  {
    seq(|ss|, i requires 0 <= i < |ss| => ss[i].deadline)
  }

  /** Each answer that was armed waits or went out, once, and none before it was due. */
  ghost predicate Accounted(armed: seq<int>, answered: seq<Reply>, waiting: multiset<int>)
  {
    && multiset(armed) == multiset(Deadlines(answered)) + waiting
    && forall i :: 0 <= i < |answered| ==> answered[i].at >= answered[i].deadline
  }

  lemma ArmsOne(armed: seq<int>, answered: seq<Reply>, waiting: multiset<int>, d: int)
    requires Accounted(armed, answered, waiting)
    ensures Accounted(armed + [d], answered, waiting + multiset{d})
  {
  }

  lemma AnswersOne(armed: seq<int>, answered: seq<Reply>, was: multiset<int>, d: int, at: int)
    requires Accounted(armed, answered, was + multiset{d}) && at >= d
    ensures Accounted(armed, answered + [Reply(d, at)], was)
  {
    assert Deadlines(answered + [Reply(d, at)]) == Deadlines(answered) + [d];
  }

  // ---- The ring ------------------------------------------------------------------------

  /** What lies between head and tail. */
  ghost function Ring(msgs: seq<Msg>, head: nat, tail: nat): (q: seq<Msg>)
    requires |msgs| == MSGQ_SIZE && head < MSGQ_SIZE && tail < MSGQ_SIZE
    ensures |q| == if head <= tail then tail - head else 128 - head + tail
  {
    if head <= tail then msgs[head..tail] else msgs[head..] + msgs[..tail]
  }

  lemma RingPush(msgs: seq<Msg>, head: nat, tail: nat, m: Msg)
    requires |msgs| == MSGQ_SIZE && head < MSGQ_SIZE && tail < MSGQ_SIZE
    ensures (tail + 1) % MSGQ_SIZE == head <==> |Ring(msgs, head, tail)| == 127
    ensures (tail + 1) % MSGQ_SIZE != head ==>
              Ring(msgs[tail := m], head, (tail + 1) % MSGQ_SIZE) == Ring(msgs, head, tail) + [m]
  {
    assert (tail + 1) % MSGQ_SIZE == if tail == 127 then 0 else tail + 1;
    var ns := msgs[tail := m];
    assert ns[..tail] == msgs[..tail];
    if head <= tail {
      assert ns[head..tail] == msgs[head..tail] && ns[head..tail] + [m] == ns[head..tail + 1];
      if tail == 127 && head != 0 {
        assert ns[head..] == ns[head..tail + 1] && ns[head..] + ns[..0] == ns[head..];
      }
    } else if tail + 1 != head {
      assert ns[head..] == msgs[head..] && ns[..tail + 1] == ns[..tail] + [m];
      assert msgs[head..] + (msgs[..tail] + [m]) == msgs[head..] + msgs[..tail] + [m];
    }
  }

  lemma RingPop(msgs: seq<Msg>, head: nat, tail: nat)
    requires |msgs| == MSGQ_SIZE && head < MSGQ_SIZE && tail < MSGQ_SIZE && head != tail
    ensures Ring(msgs, head, tail) == [msgs[head]] + Ring(msgs, (head + 1) % MSGQ_SIZE, tail)
  {
    assert (head + 1) % MSGQ_SIZE == if head == 127 then 0 else head + 1;
    if head < tail {
      assert msgs[head..tail] == [msgs[head]] + msgs[head + 1..tail];
    } else if head == 127 {
      assert msgs[127..] == [msgs[127]] && msgs[0..tail] == msgs[..tail];
    } else {
      assert msgs[head..] == [msgs[head]] + msgs[head + 1..];
      assert [msgs[head]] + (msgs[head + 1..] + msgs[..tail]) == [msgs[head]] + msgs[head + 1..] + msgs[..tail];
    }
  }

  /** The valid searches among the inputs, counted. */
  ghost function Valids(inputs: seq<Input>): nat
  {
    if inputs == [] then 0
    else
      var n := |inputs| - 1;
      Valids(inputs[..n]) + if inputs[n].Search? && IsSearch(inputs[n].search) then 1 else 0
  }

  lemma OneInput(input: Input)
    ensures Valids([input]) == if input.Search? && IsSearch(input.search) then 1 else 0
  {
    assert [input][..0] == [];
  }

  lemma ValidsSnoc(inputs: seq<Input>, k: nat)
    requires k < |inputs|
    ensures Valids(inputs[..k + 1]) == Valids(inputs[..k]) + Valids([inputs[k]])
    ensures inputs[..|inputs|] == inputs && Valids(inputs[..0]) == 0
  {
    OneInput(inputs[k]);
    assert inputs[..k + 1][..k] == inputs[..k];
  }

  /** A deadline that lies the search's random delay behind some moment between the two readings. */
  ghost predicate ArmedFor(deadline: int, input: Input, from: int, to: int)
  {
    && input.Search? && IsSearch(input.search)
    && var mx := Atoi(input.search.mx.value);
    && mx > 0 && from <= deadline - input.random % (1000 * mx) <= to
  }

  // ---- The scheduler -------------------------------------------------------------------

  class MonotonicClock {
    var now: int

    constructor (start: int)
      ensures now == start
    {
      now := start;
    }

    /** Time passes, as much as it likes. */
    method NowMs() returns (t: int)
      modifies this
      ensures t == now >= old(now)
    {
      var d: int := *;
      if d > 0 {
        now := now + d;
      }
      t := now;
    }
  }

  ghost predicate IsTick(t: Timer)
  {
    t.active && t.fn == MsgqTick
  }

  ghost predicate IsRound(t: Timer)
  {
    t.active && t.fn == ReannounceTick
  }

  class Ssdp {
    const clock: MonotonicClock
    const timers: array<Timer>
    const msgs: array<Msg>
    var head: nat
    var tail: nat
    var pacing: bool

    /** Every message the queue took in, every message that left it. */
    ghost var accepted: seq<Msg>
    ghost var sent: seq<Send>
    /** The slot of the active msgq_tick timer, -1 for none; `stuck` once arming it failed. */
    ghost var tickSlot: int
    ghost var stuck: bool
    /** The slot of the active reannounce_tick timer, -1 for none, and the rounds so far. */
    ghost var roundSlot: int
    ghost var rounds: seq<Announcement>
    /** The deadlines of all search answers that were armed, and the answers that went out. */
    ghost var armed: seq<int>
    /** The valid searches that found no slot free. */
    ghost var lost: nat
    ghost var answered: seq<Reply>

    ghost predicate Shape()
      reads this`head, this`tail
    {
      timers.Length == MAX_TIMERS && msgs.Length == MSGQ_SIZE && head < MSGQ_SIZE && tail < MSGQ_SIZE
    }

    ghost function Contents(): seq<Msg>
      requires Shape()
      reads this`head, this`tail, msgs
    {
      Ring(msgs[..], head, tail)
    }

    /** First in, first out, and never too fast. */
    ghost predicate Log()
      requires Shape()
      reads this`head, this`tail, this`accepted, this`sent, msgs
    {
      accepted == Msgs(sent) + Contents() && Paced(sent)
    }

    ghost predicate SentBefore()
      reads this`sent, clock
    {
      sent != [] ==> sent[|sent| - 1].at <= clock.now
    }

    ghost predicate Ticks()
      requires Shape()
      reads this`head, this`tail, this`tickSlot, this`sent, timers, clock
    {
      && -1 <= tickSlot < timers.Length && Only(timers[..], MsgqTick, tickSlot)
      && (tickSlot >= 0 ==>
            sent != [] && sent[|sent| - 1].at + 120 <= timers[tickSlot].deadline <= clock.now + 120)
    }

    /** The pacing interval since the last send is over. */
    ghost predicate Rested()
      reads this`sent, clock
    {
      sent != [] ==> sent[|sent| - 1].at + 120 <= clock.now
    }

    ghost predicate Valid()
      reads this`head, this`tail, this`pacing, this`accepted, this`sent, this`tickSlot, this`stuck, timers, msgs, clock
    {
      && Shape() && Log() && SentBefore() && Ticks()
      && (pacing <==> tickSlot >= 0 || stuck)
      && (stuck ==> tickSlot < 0)
      && (!pacing ==> Contents() == [] && Rested())
    }

    /** One timer waits for the next round, no earlier than 599 seconds after the last, which armed it. */
    ghost predicate Announcing()
      reads this`roundSlot, this`rounds, timers, clock
    {
      && -1 <= roundSlot < timers.Length && Only(timers[..], ReannounceTick, roundSlot)
      && Recurring(rounds) && rounds != []
      && var last := rounds[|rounds| - 1];
         && last.at <= clock.now
         && (roundSlot >= 0 <==> Rearms(last))
         && (roundSlot >= 0 ==> last.at + 599000 <= timers[roundSlot].deadline <= clock.now + 599000)
    }

    ghost predicate Answering()
      reads this`armed, this`answered, timers
    {
      Accounted(armed, answered, Pending(timers[..]))
    }

    /** No timer of its own waits, and the last round was long ago. */
    ghost predicate RoundIsDue()
      reads this`roundSlot, this`rounds, timers, clock
    {
      && Only(timers[..], ReannounceTick, -1) && roundSlot == -1 && Recurring(rounds)
      && (rounds != [] ==> Rearms(rounds[|rounds| - 1]) && clock.now >= rounds[|rounds| - 1].at + 599000)
    }

    ghost predicate HasFreeSlot()
      reads timers
    {
      Free(timers[..]) > 0
    }

    constructor (clock: MonotonicClock)
      ensures Valid() && this.clock == clock && fresh(timers) && fresh(msgs)
      ensures sent == [] && accepted == [] && !pacing && !stuck
      ensures RoundIsDue() && rounds == [] && Answering() && armed == [] && lost == 0
      ensures Free(timers[..]) == MAX_TIMERS
    {
      this.clock := clock;
      timers := new Timer[MAX_TIMERS](_ => Timer(0, MsgqTick, false));
      msgs := new Msg[MSGQ_SIZE](_ => Alive);
      head, tail, pacing := 0, 0, false;
      accepted, sent, tickSlot, stuck := [], [], -1, false;
      roundSlot, rounds, armed, answered, lost := -1, [], [], [], 0;
      new;
      AllFree(timers[..]);
    }

    /** Arms a timer in the first free slot; without one the timer is dropped. */
    method TimerAdd(delay: int, fn: Callback) returns (slot: int)
      requires Shape()
      modifies timers, clock
      ensures clock.now >= old(clock.now) && -1 <= slot < timers.Length
      ensures slot < 0 <==> !old(HasFreeSlot())
      ensures Takes(old(timers[..]), timers[..], slot, fn)
      ensures forall k :: 0 <= k < slot ==> old(timers[k].active)
      ensures slot >= 0 ==> old(clock.now) + delay <= timers[slot].deadline <= clock.now + delay
    {
      NoneFree(timers[..]);
      hide Free;
      slot := -1;
      var i := 0;
      while i < MAX_TIMERS
        invariant 0 <= i <= MAX_TIMERS && forall k :: 0 <= k < i ==> timers[k].active
        invariant timers[..] == old(timers[..]) && clock.now == old(clock.now) && slot == -1
      {
        if !timers[i].active {
          var now := clock.NowMs();
          timers[i] := Timer(now + delay, fn, true);
          return i;
        }
        i := i + 1;
      }
    }

    /** The message in front leaves the queue. */
    method SendNext()
      requires Shape() && Log() && Rested() && head != tail
      modifies this`head, this`sent, clock
      ensures Shape() && Log() && SentBefore() && clock.now >= old(clock.now)
      ensures |sent| == |old(sent)| + 1 && old(sent) <= sent && sent[|sent| - 1].at >= old(clock.now)
      ensures old(Contents()) == [sent[|sent| - 1].msg] + Contents()
    {
      hide Ring, Paced, Msgs;
      var msg := msgs[head];
      RingPop(msgs[..], head, tail);
      ghost var rest := Ring(msgs[..], (head + 1) % MSGQ_SIZE, tail);
      head := (head + 1) % MSGQ_SIZE;
      var at := clock.NowMs();
      OneSent(accepted, sent, Send(msg, at), rest);
      sent := sent + [Send(msg, at)];
    }

    /** Sends the next message and arms the next tick; an empty queue ends the pacing. */
    method Tick()
      requires Shape() && Log() && SentBefore() && Ticks() && Rested() && pacing && tickSlot < 0 && !stuck
      modifies this`head, this`pacing, this`sent, this`tickSlot, this`stuck, timers, clock
      ensures Valid() && clock.now >= old(clock.now) && old(sent) <= sent
      ensures pacing <==> old(Contents()) != []
      ensures |sent| == |old(sent)| + if old(Contents()) != [] then 1 else 0
      ensures stuck <==> !old(HasFreeSlot()) && old(Contents()) != []
      ensures |Contents()| <= |old(Contents())|
      ensures Takes(old(timers[..]), timers[..], tickSlot, MsgqTick)
      ensures tickSlot >= 0 ==> timers[tickSlot].deadline >= old(clock.now) + 120
    {
      hide Ring, Paced, Msgs, Free, Only, Takes, Log;
      QueueIsEmptyIff();
      ghost var was := timers[..];
      if head == tail {
        pacing := false;
        SameTable(was);
        return;
      }
      SendNext();
      var slot := TimerAdd(MSG_DELAY_MS, MsgqTick);
      TakesOnly(was, timers[..], slot, MsgqTick);
      tickSlot, stuck := slot, slot < 0;
    }

    lemma QueueIsEmptyIff()
      requires Shape()
      ensures Contents() == [] <==> head == tail
    {
    }

    /** The ring takes a message unless 127 are waiting. */
    method Enqueue(msg: Msg) returns (taken: bool)
      requires Shape() && Log()
      modifies this`tail, this`accepted, msgs
      ensures Shape() && Log() && (taken <==> |old(Contents())| != 127)
      ensures taken ==> accepted == old(accepted) + [msg] && Contents() == old(Contents()) + [msg]
      ensures !taken ==> accepted == old(accepted) && Contents() == old(Contents())
    {
      RingPush(msgs[..], head, tail, msg);
      if (tail + 1) % MSGQ_SIZE == head {
        return false;
      }
      ghost var was := msgs[..];
      msgs[tail] := msg;
      assert msgs[..] == was[tail := msg];
      hide Ring, Msgs, Paced;
      tail := (tail + 1) % MSGQ_SIZE;
      accepted := accepted + [msg];
      taken := true;
    }

    /** Only a push that finds 127 messages waiting is dropped. */
    method Push(msg: Msg)
      requires Valid()
      modifies this`head, this`tail, this`pacing, this`accepted, this`sent, this`tickSlot, this`stuck, msgs, timers, clock
      ensures Valid() && clock.now >= old(clock.now) && old(sent) <= sent && pacing
      ensures accepted == if |old(Contents())| == 127 then old(accepted) else old(accepted) + [msg]
      ensures stuck <==> old(stuck) || (!old(pacing) && !old(HasFreeSlot()))
      ensures |Contents()| <= |old(Contents())| + 1
      ensures if old(pacing) then timers[..] == old(timers[..]) else Takes(old(timers[..]), timers[..], tickSlot, MsgqTick)
      ensures !old(pacing) && tickSlot >= 0 ==> timers[tickSlot].deadline >= old(clock.now) + 120
      ensures old(pacing) ==> sent == old(sent) && tickSlot == old(tickSlot) && old(Contents()) <= Contents()
    {
      hide Ring, Paced, Msgs, Free, Only, Takes;
      var taken := Enqueue(msg);
      if taken && !pacing {
        pacing := true;
        Tick();
      }
    }

    /**
     Deactivates expired slots one after the other and runs their callbacks: no timer that
     was due is left. With a message waiting and its tick due, a message is sent; a search
     answer that was due went out; a round that was due was held.
     */
    method TimerRunExpired()
      requires Valid() && !stuck && Announcing() && Answering()
      modifies this, msgs, timers, clock
      ensures Valid() && !stuck && clock.now >= old(clock.now) && old(sent) <= sent && old(accepted) <= accepted
      ensures old(Contents()) != [] && old(timers[tickSlot].deadline) <= old(clock.now) ==> |sent| > |old(sent)|
      ensures forall k :: 0 <= k < timers.Length && timers[k].active ==> timers[k].deadline > old(clock.now)
      ensures Answering() && armed == old(armed) && lost == old(lost) && old(answered) <= answered
      ensures forall d :: d in Pending(timers[..]) ==> d > old(clock.now)
      ensures Announcing() && old(rounds) <= rounds
      ensures old(roundSlot >= 0 && timers[roundSlot].deadline <= clock.now) ==> |rounds| > |old(rounds)|
    {
      hide *;
      Slots();
      ghost var slot, due := tickSlot, Contents() != [] && timers[tickSlot].deadline <= clock.now;
      ghost var round, next := roundSlot, if roundSlot >= 0 then timers[roundSlot].deadline else 0;
      var now := ReadClock();
      var i := 0;
      while i < timers.Length
        invariant 0 <= i <= timers.Length && Shape() && Valid() && !stuck && Announcing() && Answering()
        invariant old(clock.now) <= now <= clock.now && old(sent) <= sent && old(accepted) <= accepted
        invariant armed == old(armed) && lost == old(lost) && old(answered) <= answered && old(rounds) <= rounds
        invariant forall k :: 0 <= k < i && timers[k].active ==> timers[k].deadline > old(clock.now)
        invariant due ==> |sent| > |old(sent)| ||
                          (i <= slot == tickSlot && timers[slot] == old(timers[tickSlot]) && Contents() != [])
        invariant |rounds| == |old(rounds)| ==> roundSlot == round && (round >= 0 ==> timers[round].deadline == next)
      {
        Slots();
        if timers[i].active && timers[i].deadline <= now {
          RunTimer(i, now);
          Slots();
        }
        i := i + 1;
      }
      NoneWaits(timers[..], old(clock.now));
      Slots();
    }

    /** Where the two recurring timers are. */
    lemma Slots()
      requires Valid() && Announcing() && !stuck
      ensures Shape() && timers.Length == MAX_TIMERS && tickSlot < timers.Length && (pacing <==> tickSlot >= 0)
      ensures (Contents() != [] ==> pacing) && (tickSlot >= 0 ==> IsTick(timers[tickSlot]) && timers[tickSlot].active)
      ensures -1 <= roundSlot < timers.Length && (roundSlot >= 0 ==> IsRound(timers[roundSlot]) && timers[roundSlot].active)
      ensures forall i :: 0 <= i < timers.Length ==> (IsTick(timers[i]) <==> i == tickSlot) && (IsRound(timers[i]) <==> i == roundSlot)
    {
      hide Recurring, Paced, Msgs;
      assert forall i :: 0 <= i < timers.Length ==> timers[..][i] == timers[i];
    }

    method ReadClock() returns (now: int)
      requires Valid() && !stuck && Announcing() && Answering()
      modifies clock
      ensures Valid() && Announcing() && Answering() && now == clock.now >= old(clock.now)
    {
      hide Ring, Paced, Msgs, Free, Pending, Only, Takes, Recurring, Accounted;
      now := clock.NowMs();
    }

    /** A tick run by its timer always finds a slot: its own has just been freed. */
    method RunTimer(i: nat, now: int)
      requires Valid() && !stuck && i < timers.Length && timers[i].active && timers[i].deadline <= now <= clock.now
      requires Announcing() && Answering()
      modifies this, msgs, timers, clock
      ensures Valid() && !stuck && clock.now >= old(clock.now) && old(sent) <= sent && old(accepted) <= accepted
      ensures old(timers[i].fn) == MsgqTick && old(Contents()) != [] ==> |sent| > |old(sent)|
      ensures forall k :: 0 <= k < timers.Length && timers[k].active && (k == i || timers[k] != old(timers[k])) ==>
                timers[k].deadline >= old(clock.now) + 120
      ensures old(timers[i].fn) == ReannounceTick && |old(Contents())| <= 124 ==>
                accepted == old(accepted) + [Alive, Alive, Alive]
      ensures old(timers[i].fn) != MsgqTick && old(pacing) ==>
                tickSlot == old(tickSlot) && timers[tickSlot] == old(timers[tickSlot]) && old(Contents()) <= Contents()
      ensures Announcing()
      ensures old(timers[i].fn) == ReannounceTick ==>
                rounds == old(rounds) + [Announcement(old(clock.now), old(pacing), old(Free(timers[..])) + 1)]
      ensures old(timers[i].fn) != ReannounceTick ==>
                rounds == old(rounds) && roundSlot == old(roundSlot)
                && (roundSlot >= 0 ==> timers[roundSlot] == old(timers[roundSlot]))
      ensures Answering() && armed == old(armed) && lost == old(lost)
      ensures answered == old(answered) + if old(timers[i].fn) != DelayedResponse then []
                                          else [Reply(old(timers[i].deadline), old(clock.now))]
    {
      hide *;
      ghost var free := Free(timers[..]);
      var timer := timers[i];
      Slots();
      Stop(i);
      ghost var mid := timers[..];
      match timer.fn
      case MsgqTick =>
        RunTick();
        AtOrLater(mid, timers[..], old(clock.now));
      case ReannounceTick =>
        var rearmed := Reannounce();
        AtOrLater(mid, timers[..], old(clock.now));
      case DelayedResponse =>
        Respond(timer.deadline);
    }

    /** The slot is given back before the callback runs. */
    method Stop(i: nat)
      requires Valid() && !stuck && i < timers.Length && timers[i].active && timers[i].deadline <= clock.now
      requires Announcing() && Answering()
      modifies this`tickSlot, this`roundSlot, timers
      ensures timers[..] == old(timers[..])[i := old(timers[i]).(active := false)]
      ensures Free(timers[..]) == old(Free(timers[..])) + 1 && HasFreeSlot()
      ensures old(timers[i].fn) == MsgqTick ==>
                Shape() && Log() && SentBefore() && Ticks() && Rested() && pacing && tickSlot < 0 && roundSlot == old(roundSlot)
      ensures old(timers[i].fn) != MsgqTick ==>
                Valid() && tickSlot == old(tickSlot) && (tickSlot >= 0 ==> timers[tickSlot] == old(timers[tickSlot]))
      ensures old(timers[i].fn) == ReannounceTick ==> RoundIsDue()
      ensures old(timers[i].fn) != ReannounceTick ==>
                Announcing() && roundSlot == old(roundSlot) && (roundSlot >= 0 ==> timers[roundSlot] == old(timers[roundSlot]))
      ensures old(timers[i].fn) != DelayedResponse ==> Answering()
      ensures old(timers[i].fn) == DelayedResponse ==>
                Accounted(armed, answered, Pending(timers[..]) + multiset{old(timers[i].deadline)})
    {
      hide Ring, Paced, Msgs, Free, Pending, Only, Takes, OldOrLater, Recurring, Accounted;
      ghost var was := timers[..];
      GivesBack(was, i);
      TimerStops(was, i, MsgqTick, tickSlot);
      TimerStops(was, i, ReannounceTick, roundSlot);
      tickSlot := if i == tickSlot then -1 else tickSlot;
      roundSlot := if i == roundSlot then -1 else roundSlot;
      timers[i] := timers[i].(active := false);
      assert timers[..] == was[i := was[i].(active := false)];
    }

    /** The answer goes out. */
    ghost method Respond(deadline: int)
      requires Accounted(armed, answered, Pending(timers[..]) + multiset{deadline}) && clock.now >= deadline
      modifies this`answered
      ensures Answering() && answered == old(answered) + [Reply(deadline, clock.now)]
    {
      AnswersOne(armed, answered, Pending(timers[..]), deadline, clock.now);
      answered := answered + [Reply(deadline, clock.now)];
    }

    /** The tick from its timer: the other timers stay. */
    method RunTick()
      requires Shape() && Log() && SentBefore() && Ticks() && Rested() && pacing && tickSlot < 0 && !stuck && HasFreeSlot()
      requires Announcing() && Answering()
      modifies this`head, this`pacing, this`sent, this`tickSlot, this`stuck, timers, clock
      ensures Valid() && !stuck && clock.now >= old(clock.now) && old(sent) <= sent
      ensures old(Contents()) != [] ==> |sent| > |old(sent)|
      ensures OldOrLater(old(timers[..]), timers[..], old(clock.now))
      ensures Announcing() && (roundSlot >= 0 ==> timers[roundSlot] == old(timers[roundSlot])) && Answering()
    {
      hide Ring, Paced, Msgs, Free, Pending, Only, Takes, OldOrLater, Recurring, Accounted;
      ghost var mid := timers[..];
      Tick();
      TickTakes(mid, timers[..], tickSlot, roundSlot, old(clock.now));
    }

    /** Three alive messages; the first of them arms the tick where none is armed. */
    method PushAlive()
      requires Valid() && !stuck && (pacing || HasFreeSlot())
      modifies this`head, this`tail, this`pacing, this`accepted, this`sent, this`tickSlot, this`stuck, msgs, timers, clock
      ensures Valid() && !stuck && clock.now >= old(clock.now) && old(sent) <= sent && old(accepted) <= accepted && pacing
      ensures |old(Contents())| <= 124 ==> accepted == old(accepted) + [Alive, Alive, Alive]
      ensures |Contents()| <= |old(Contents())| + 3
      ensures if old(pacing) then timers[..] == old(timers[..]) else Takes(old(timers[..]), timers[..], tickSlot, MsgqTick)
      ensures tickSlot >= 0 && (!old(pacing) ==> timers[tickSlot].deadline >= old(clock.now) + 120)
      ensures old(pacing) ==> sent == old(sent) && tickSlot == old(tickSlot) && old(Contents()) <= Contents()
    {
      hide Ring, Paced, Msgs, Free, Only, Takes, Log;
      ghost var paced, was, said := pacing, timers[..], Contents();
      for k := 0 to ANNOUNCE_COUNT
        invariant Valid() && !stuck && (k == 0 ==> pacing == paced) && (k > 0 ==> pacing)
        invariant clock.now >= old(clock.now) && old(sent) <= sent && old(accepted) <= accepted
        invariant |Contents()| <= |said| + k
        invariant |said| <= 124 ==> accepted == old(accepted) + [Alive, Alive, Alive][..k]
        invariant if paced || k == 0 then timers[..] == was else Takes(was, timers[..], tickSlot, MsgqTick)
        invariant !paced && k > 0 ==> tickSlot >= 0 && timers[tickSlot].deadline >= old(clock.now) + 120
        invariant paced ==> sent == old(sent) && tickSlot == old(tickSlot) && said <= Contents()
      {
        assert [Alive, Alive, Alive][..k + 1] == [Alive, Alive, Alive][..k] + [Alive];
        Push(Alive);
      }
      TickIsArmed();
    }

    lemma TickIsArmed()
      requires Valid() && !stuck && pacing
      ensures tickSlot >= 0
    {
    }

    /**
     Three more alive messages, and the timer of the next round: it finds a slot exactly if
     one is free, or two where no tick is armed yet.
     */
    method Reannounce() returns (rearmed: bool)
      requires Valid() && !stuck && (pacing || HasFreeSlot()) && RoundIsDue() && Answering()
      modifies this, msgs, timers, clock
      ensures Valid() && !stuck && clock.now >= old(clock.now) && old(sent) <= sent && old(accepted) <= accepted
      ensures |old(Contents())| <= 124 ==> accepted == old(accepted) + [Alive, Alive, Alive]
      ensures |Contents()| <= |old(Contents())| + 3
      ensures OldOrLater(old(timers[..]), timers[..], old(clock.now))
      ensures rearmed <==> old(Free(timers[..])) >= old(if pacing then 1 else 2)
      ensures rearmed <==> roundSlot >= 0
      ensures Announcing() && rounds == old(rounds) + [Announcement(old(clock.now), old(pacing), old(Free(timers[..])))]
      ensures Answering() && armed == old(armed) && lost == old(lost) && answered == old(answered)
      ensures old(pacing) ==>
                pacing && tickSlot == old(tickSlot) && timers[tickSlot] == old(timers[tickSlot]) && old(Contents()) <= Contents()
    {
      hide Ring, Paced, Msgs, Free, Pending, Only, Takes, OldOrLater, Recurring, Accounted;
      ghost var was, since, a := timers[..], clock.now, Announcement(clock.now, pacing, Free(timers[..]));
      PushAlive();
      AlivesTake(was, timers[..], tickSlot, a.pacing, since);
      rearmed := ArmRound(was, a);
    }

    /** The timer of the next round. */
    method ArmRound(ghost was: seq<Timer>, ghost a: Announcement) returns (rearmed: bool)
      requires Valid() && !stuck && pacing && RoundIsDue() && Answering()
      requires OldOrLater(was, timers[..], a.at) && a.at <= clock.now
      requires rounds != [] ==> a.at >= rounds[|rounds| - 1].at + 599000
      requires Rearms(a) <==> HasFreeSlot()
      modifies this`roundSlot, this`rounds, timers, clock
      ensures Valid() && clock.now >= old(clock.now)
      ensures OldOrLater(was, timers[..], a.at)
      ensures rearmed <==> roundSlot >= 0
      ensures Announcing() && rounds == old(rounds) + [a] && Answering()
      ensures timers[tickSlot] == old(timers[tickSlot])
    {
      hide Ring, Paced, Msgs, Free, Pending, Only, Takes, OldOrLater, Recurring, Accounted;
      ghost var mid := timers[..];
      RecurringSnoc(rounds, a);
      var slot := TimerAdd(REANNOUNCE_MS, ReannounceTick);
      RoundTakes(was, mid, timers[..], slot, tickSlot, a.at);
      rearmed := slot >= 0;
      roundSlot, rounds := slot, rounds + [a];
    }

    /** The byebye, the first three alive messages, and the timer of the next round. */
    method SendInitialAnnounce() returns (followed: bool)
      requires Valid() && !stuck && (pacing || HasFreeSlot()) && RoundIsDue() && rounds == [] && Answering()
      modifies this, msgs, timers, clock
      ensures Valid() && !stuck && clock.now >= old(clock.now) && old(sent) <= sent && old(accepted) <= accepted
      ensures |old(Contents())| <= 123 ==> accepted == old(accepted) + [Byebye, Alive, Alive, Alive]
      ensures followed <==> old(Free(timers[..])) >= old(if pacing then 1 else 2)
      ensures followed <==> roundSlot >= 0
      ensures Announcing() && |rounds| == 1
      ensures Answering() && armed == old(armed) && lost == old(lost) && answered == old(answered)
    {
      hide *;
      PushByebye();
      followed := Reannounce();
    }

    method PushByebye()
      requires Valid() && !stuck && (pacing || HasFreeSlot()) && RoundIsDue() && rounds == [] && Answering()
      modifies this`head, this`tail, this`pacing, this`accepted, this`sent, this`tickSlot, this`stuck, msgs, timers, clock
      ensures Valid() && !stuck && pacing && RoundIsDue() && Answering()
      ensures clock.now >= old(clock.now) && old(sent) <= sent && old(accepted) <= accepted
      ensures |old(Contents())| <= 123 ==> accepted == old(accepted) + [Byebye] && |Contents()| <= 124
      ensures Free(timers[..]) == old(Free(timers[..])) - if old(pacing) then 0 else 1
    {
      hide Ring, Paced, Msgs, Free, Pending, Only, Takes, OldOrLater, Recurring, Accounted;
      ghost var was, paced := timers[..], pacing;
      Push(Byebye);
      AlivesTake(was, timers[..], tickSlot, paced, old(clock.now));
    }

    /** How long the main loop may sleep: until the first deadline, -1 for ever. */
    method TimerNextTimeout(now: int) returns (wait: int)
      requires timers.Length == MAX_TIMERS
      ensures wait == -1 <==> forall i :: 0 <= i < timers.Length ==> !timers[i].active
      ensures wait >= -1
      ensures forall i :: 0 <= i < timers.Length && timers[i].active ==> now + wait <= timers[i].deadline || wait == 0
      ensures wait >= 0 ==> exists i :: 0 <= i < timers.Length && timers[i].active && timers[i].deadline <= now + wait
    {
      wait := -1;
      var i := 0;
      while i < MAX_TIMERS
        invariant 0 <= i <= MAX_TIMERS && wait >= -1
        invariant wait == -1 <==> forall k :: 0 <= k < i ==> !timers[k].active
        invariant forall k :: 0 <= k < i && timers[k].active ==> now + wait <= timers[k].deadline || wait == 0
        invariant wait >= 0 ==> exists k :: 0 <= k < i && timers[k].active && timers[k].deadline <= now + wait
      {
        if timers[i].active {
          var w := timers[i].deadline - now;
          if w < 0 { w := 0; }
          if wait < 0 || w < wait { wait := w; }
        }
        i := i + 1;
      }
    }

    /** What a valid, unstuck state says of the whole past and of the tick timer. */
    lemma Summary()
      requires Valid() && !stuck
      ensures Paced(sent) && Msgs(sent) <= accepted && |accepted| - |sent| <= 127
      ensures pacing <==> exists i :: 0 <= i < timers.Length && IsTick(timers[i])
      ensures forall i, j :: 0 <= i < j < timers.Length ==> !(IsTick(timers[i]) && IsTick(timers[j]))
    {
      assert tickSlot >= 0 ==> IsTick(timers[tickSlot]);
    }

    /** 255 searches at once. */
    method FillTable(round: nat)
      requires Valid() && !stuck && !pacing && Contents() == [] && accepted == [] && Announcing() && Answering() && armed == []
      requires Free(timers[..]) == 255 && roundSlot == round < timers.Length && timers[round].deadline <= clock.now
      modifies this`armed, this`lost, timers, clock
      ensures Valid() && Announcing() && Answering() && |armed| == 255 && Free(timers[..]) == 0
      ensures timers[round].deadline <= clock.now
    {
      hide Ring, Free, Pending, Takes, Only, Paced, Msgs, Atoi, Recurring, Accounted, IsSearch;
      NineSeconds();
      for k := 0 to 255
        invariant Valid() && Announcing() && Answering() && |armed| == k && Free(timers[..]) == 255 - k
        invariant timers[round].deadline <= clock.now
      {
        var slot := HandleSearch(Headers(Some(DISCOVER), Some("9"), Some("")), 8000);
      }
    }

    lemma RoundIsArmed()
      requires Shape() && Announcing()
      ensures roundSlot >= 0 ==> IsRound(timers[roundSlot])
    {
      hide Recurring;
      assert roundSlot >= 0 ==> timers[..][roundSlot] == timers[roundSlot];
    }

    /** And of the rounds: one timer for the next, exactly where the last could arm it. */
    lemma RoundSummary()
      requires Valid() && Announcing()
      ensures rounds != [] && Recurring(rounds)
      ensures Rearms(rounds[|rounds| - 1]) <==> exists i :: 0 <= i < timers.Length && IsRound(timers[i])
      ensures forall i, j :: 0 <= i < j < timers.Length ==> !(IsRound(timers[i]) && IsRound(timers[j]))
    {
      hide Recurring;
      assert forall i :: 0 <= i < timers.Length ==> timers[..][i] == timers[i];
      assert roundSlot >= 0 ==> IsRound(timers[roundSlot]);
    }

    /** A valid search is answered within MX seconds, if a slot is free to remember it. */
    method HandleSearch(search: Headers, random: nat) returns (slot: int)
      requires Valid() && !stuck && Answering()
      modifies this`armed, this`lost, timers, clock
      ensures Valid() && clock.now >= old(clock.now)
      ensures -1 <= slot < timers.Length && (slot >= 0 <==> IsSearch(search) && old(HasFreeSlot()))
      ensures Takes(old(timers[..]), timers[..], slot, DelayedResponse)
      ensures slot >= 0 ==>
                && old(clock.now) <= timers[slot].deadline < clock.now + 1000 * Atoi(search.mx.value)
                && timers[slot].deadline - clock.now <= random % (1000 * Atoi(search.mx.value))
                                                     <= timers[slot].deadline - old(clock.now)
      ensures Answering() && armed == old(armed) + if slot < 0 then [] else [timers[slot].deadline]
      ensures lost == old(lost) + if IsSearch(search) && !old(HasFreeSlot()) then 1 else 0
      ensures Free(timers[..]) == old(Free(timers[..])) - if slot < 0 then 0 else 1
      ensures old(Announcing()) ==> Announcing() && (roundSlot >= 0 ==> timers[roundSlot] == old(timers[roundSlot]))
    {
      hide Ring, Paced, Msgs, Atoi, Free, Pending, Only, Takes, Recurring, Accounted;
      ghost var was := timers[..];
      slot := -1;
      SameTable(timers[..]);
      if search.man.None? || search.man.value != DISCOVER {
        return;
      }
      if search.mx.None? {
        return;
      }
      var mx := Atoi(search.mx.value);
      if mx <= 0 || search.st.None? {
        return;
      }
      var delay := random % (mx * 1000);
      slot := TimerAdd(delay, DelayedResponse);
      SearchTakes(was, timers[..], slot, tickSlot, roundSlot);
      if slot >= 0 {
        ArmsOne(armed, answered, Pending(was), timers[slot].deadline);
        armed := armed + [timers[slot].deadline];
      } else {
        lost := lost + 1;
      }
    }

    /**
     One round of the main loop. Afterwards every search answer that was due at its start
     has gone out, and every round of announcements that was due has been held; a valid
     search on the socket is armed for its random delay, or lost to a full table.
     */
    method Round(input: Input)
      requires Valid() && !stuck && Announcing() && Answering()
      modifies this, msgs, timers, clock
      ensures Valid() && !stuck && clock.now >= old(clock.now) && old(sent) <= sent && old(accepted) <= accepted
      ensures Announcing() && old(rounds) <= rounds
      ensures old(roundSlot >= 0 && timers[roundSlot].deadline <= clock.now) ==> |rounds| > |old(rounds)|
      ensures Answering() && old(armed) <= armed && old(answered) <= answered
      ensures exists waiting :: Accounted(old(armed), answered, waiting) && forall d :: d in waiting ==> d > old(clock.now)
      ensures |armed| + lost == |old(armed)| + old(lost) + Valids([input])
      ensures lost > old(lost) ==> Free(timers[..]) == 0
      ensures |armed| == |old(armed)| || (|armed| == |old(armed)| + 1 && ArmedFor(armed[|old(armed)|], input, old(clock.now), clock.now))
    {
      hide Ring, Paced, Msgs, Free, Pending, Only, Takes, Recurring, Accounted;
      var now := clock.NowMs();
      var timeout := TimerNextTimeout(now);
      TimerRunExpired();
      assert Accounted(old(armed), answered, Pending(timers[..]));
      OneInput(input);
      NoneFree(timers[..]);
      match input
      case Search(search, random) =>
        var slot := HandleSearch(search, random);
      case Nothing =>
    }
  }

  /**
   Every run of the responder: two consecutive sends from the queue are at least 120 ms
   apart, messages leave in the order they were pushed, and pacing is on exactly while one
   tick timer is armed, whatever searches arrive and however long the loop sleeps. The
   rounds of announcements go on, 599 seconds and more apart, until one that begins with
   no tick armed in a full table; and every search answer that was armed waits or went out,
   once and not before it was due.
   */
  method Serve(start: int, inputs: seq<Input>) returns (ssdp: Ssdp)
    ensures ssdp.Valid() && !ssdp.stuck
    ensures Paced(ssdp.sent)
    ensures Msgs(ssdp.sent) <= ssdp.accepted
    ensures [Byebye, Alive, Alive, Alive] <= ssdp.accepted
    ensures ssdp.pacing <==> exists i :: 0 <= i < ssdp.timers.Length && IsTick(ssdp.timers[i])
    ensures forall i, j :: 0 <= i < j < ssdp.timers.Length ==> !(IsTick(ssdp.timers[i]) && IsTick(ssdp.timers[j]))
    ensures ssdp.rounds != [] && Recurring(ssdp.rounds)
    ensures Rearms(ssdp.rounds[|ssdp.rounds| - 1]) <==>
            exists i :: 0 <= i < ssdp.timers.Length && IsRound(ssdp.timers[i])
    ensures forall i, j :: 0 <= i < j < ssdp.timers.Length ==> !(IsRound(ssdp.timers[i]) && IsRound(ssdp.timers[j]))
    ensures Accounted(ssdp.armed, ssdp.answered, Pending(ssdp.timers[..]))
    ensures |ssdp.armed| + ssdp.lost == Valids(inputs)
  {
    hide Ring, Free, Pending, Takes, Only, Paced, Msgs, OldOrLater, Recurring, Accounted, Rearms, Deadlines, Ssdp.Valid, Ssdp.Announcing;
    var clock := new MonotonicClock(start);
    ssdp := new Ssdp(clock);
    var followed := ssdp.SendInitialAnnounce();
    for k := 0 to |inputs|
      invariant ssdp.Valid() && !ssdp.stuck && ssdp.clock == clock && ssdp.Announcing() && ssdp.Answering()
      invariant [Byebye, Alive, Alive, Alive] <= ssdp.accepted
      invariant |ssdp.armed| + ssdp.lost == Valids(inputs[..k])
    {
      ValidsSnoc(inputs, k);
      ssdp.Round(inputs[k]);
    }
    assert inputs[..|inputs|] == inputs;
    ssdp.Summary();
    ssdp.RoundSummary();
  }

  lemma NineSeconds()
    ensures Atoi("9") == 9 && IsSearch(Headers(Some(DISCOVER), Some("9"), Some("")))
  {
    assert Digits("9", 0) == Digits(""[0..], 9);
  }

  /**
   The round that is not followed by another: with no tick armed and 255 search answers
   waiting, its messages take the slot it gave back.
   */
  method FullTableEndsTheRounds(start: int) returns (ssdp: Ssdp)
    ensures ssdp.Valid() && !ssdp.stuck && |ssdp.armed| == 255 && ssdp.accepted == [Alive, Alive, Alive]
    ensures |ssdp.rounds| == 2 && Rearms(ssdp.rounds[0]) && !Rearms(ssdp.rounds[1])
    ensures forall i :: 0 <= i < ssdp.timers.Length ==> !IsRound(ssdp.timers[i])
  {
    hide Ring, Free, Pending, Takes, Only, Paced, Msgs, Atoi, OldOrLater, Recurring, Accounted;
    var round;
    ssdp, round := BetweenRounds(start);
    ssdp.FillTable(round);
    ssdp.RoundIsArmed();
    ssdp.RunTimer(round, ssdp.clock.now);
    ssdp.RoundSummary();
  }

  /** 599 seconds after a round: nothing left to send, and its timer due. */
  method BetweenRounds(start: int) returns (ssdp: Ssdp, round: nat)
    ensures fresh(ssdp) && fresh(ssdp.clock) && fresh(ssdp.timers) && fresh(ssdp.msgs)
    ensures ssdp.Valid() && !ssdp.stuck && !ssdp.pacing && ssdp.Contents() == [] && ssdp.accepted == []
    ensures ssdp.Announcing() && ssdp.Answering() && ssdp.armed == [] && |ssdp.rounds| == 1
    ensures Free(ssdp.timers[..]) == 255
    ensures ssdp.roundSlot == round < ssdp.timers.Length && ssdp.timers[round].deadline <= ssdp.clock.now
  {
    hide Ring, Free, Pending, Takes, Only, Paced, Msgs, OldOrLater, Accounted;
    var clock := new MonotonicClock(start);
    ssdp := new Ssdp(clock);
    ghost var was := ssdp.timers[..];
    round := ssdp.TimerAdd(0, ReannounceTick);
    SameTable(was);
    RoundTakes(was, was, ssdp.timers[..], round, -1, start - 1000);
    ssdp.roundSlot, ssdp.rounds := round, [Announcement(start - REANNOUNCE_MS, true, 256)];
  }
}
