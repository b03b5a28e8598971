/**
 Sony bodies change a setting by a signed number of steps: along the enumeration of an
 enumerated property, by multiples of the form step of a ranged one (`src/sony/ops.c`).
 */
module SonyStepping {
  import opened Bytes
  import opened PropTypes

  datatype Form =
    | NoForm
    | Enumeration(avail: seq<seq<byte>>)
    | Range(min: seq<byte>, max: seq<byte>, step: seq<byte>)

  /** The control value 0x01 is one up, 0xff one down. */
  function Delta(step: byte): (d: int)
  {
    if step <= 0x7f then step else step - 0x100
  }

  /** The control value is a signed byte. */
  lemma DeltaIsSigned(step: byte)
    ensures -0x80 <= Delta(step) < 0x80 && (Delta(step) - step) % 0x100 == 0
    ensures Delta(1) == 1 && Delta(0xff) == -1
  {
  }

  /** The control value for a step of `d`. */
  function StepOf(d: int): byte
    requires -128 <= d <= 127
  {
    if d < 0 then d + 0x100 else d
  }

  function Clamp(x: int, lo: int, hi: int): int
  {
    var y := if x < lo then lo else x;
    if y > hi then hi else y
  }

  // ---- Along an enumeration ---------------------------------------------------------------

  /** The first place of a value in the enumeration; -1 where it is not listed. */
  function Position(avail: seq<seq<byte>>, v: seq<byte>): (pos: int)
    ensures -1 <= pos < |avail|
    ensures pos >= 0 ==> avail[pos] == v && forall k :: 0 <= k < pos ==> avail[k] != v
    ensures pos < 0 ==> forall k :: 0 <= k < |avail| ==> avail[k] != v
  {
    if avail == [] then -1
    else if avail[0] == v then 0
    else
      var rest := Position(avail[1..], v);
      if rest < 0 then -1 else 1 + rest
  }

  /** Where a step leads; a value off the list goes to the end of the list it is sent towards. */
  function NewPosition(n: nat, pos: int, delta: int): int
  {
    if pos < 0 then (if delta > 0 then n - 1 else 0) else Clamp(pos + delta, 0, n - 1)
  }

  /** The new value, or None when the control does not apply. */
  function StepEnum(avail: seq<seq<byte>>, v: seq<byte>, delta: int): Option<seq<byte>>
    requires avail != []
  {
    var pos := Position(avail, v);
    var newpos := NewPosition(|avail|, pos, delta);
    if newpos == pos then None else Some(avail[newpos])
  }

  ghost predicate Distinct(avail: seq<seq<byte>>)
  {
    forall i, j :: 0 <= i < j < |avail| ==> avail[i] != avail[j]
  }

  /** A setting after a series of steps; one that does not apply leaves it alone. */
  function Controls(avail: seq<seq<byte>>, v: seq<byte>, deltas: seq<int>): seq<byte>
    requires avail != []
  {
    if deltas == [] then v
    else
      var u := Controls(avail, v, deltas[..|deltas| - 1]);
      match StepEnum(avail, u, deltas[|deltas| - 1])
      case None => u
      case Some(w) => w
  }

  /** On a list without repetitions a step of `d` moves position p to p + d, held within the list. */
  lemma StepMovesPosition(avail: seq<seq<byte>>, p: nat, d: int)
    requires Distinct(avail) && p < |avail|
    ensures Position(avail, avail[p]) == p
    ensures var q := if p + d < 0 then 0 else if p + d >= |avail| then |avail| - 1 else p + d;
            && q == Clamp(p + d, 0, |avail| - 1)
            && StepEnum(avail, avail[p], d) == (if q == p then None else Some(avail[q]))
            && Controls(avail, avail[p], [d]) == avail[q]
  {
    assert Controls(avail, avail[p], []) == avail[p];
    assert [d][..0] == [];
  }

  /** One control reaches any value up to 128 places down or 127 up. */
  lemma OneJumpReaches(avail: seq<seq<byte>>, p: nat, q: nat)
    requires Distinct(avail) && p < |avail| && q < |avail| && -128 <= q - p <= 127
    ensures Delta(StepOf(q - p)) == q - p
    ensures Controls(avail, avail[p], [Delta(StepOf(q - p))]) == avail[q]
    ensures p != q ==> StepEnum(avail, avail[p], Delta(StepOf(q - p))) == Some(avail[q])
  {
    hide Distinct, Position, StepEnum, Controls;
    StepMovesPosition(avail, p, q - p);
  }

  function Repeat(d: int, k: nat): (ds: seq<int>)
    ensures |ds| == k && forall i :: 0 <= i < k ==> ds[i] == d
  {
    seq(k, _ => d)
  }

  /** Where `k` unit steps lead on an endless list. */
  function Ahead(p: int, d: int, k: nat): int
  {
    if d > 0 then p + k else p - k
  }

  /** `k` equal unit steps: a client that steps one at a time needs exactly |q - p| controls. */
  lemma {:induction false} UnitSteps(avail: seq<seq<byte>>, p: nat, d: int, k: nat)
    requires Distinct(avail) && p < |avail| && (d == 1 || d == -1)
    ensures Controls(avail, avail[p], Repeat(d, k)) == avail[Clamp(Ahead(p, d, k), 0, |avail| - 1)]
  {
    hide *;
    NoControls(avail, avail[p]);
    NoRepeats(p, d, |avail| - 1);
    if k == 0 {
    } else {
      ClampAhead(p, d, k, |avail| - 1);
      UnitSteps(avail, p, d, k - 1);
      OneMoreControl(avail, avail[p], d, k);
      StepMovesPosition(avail, Clamp(Ahead(p, d, k - 1), 0, |avail| - 1), d);
    }
  }

  lemma NoControls(avail: seq<seq<byte>>, v: seq<byte>)
    requires avail != []
    ensures Controls(avail, v, []) == v
  {
  }

  lemma NoRepeats(p: nat, d: int, last: nat)
    ensures Repeat(d, 0) == []
    ensures p <= last ==> Clamp(Ahead(p, d, 0), 0, last) == p
  {
  }

  lemma ClampAhead(p: nat, d: int, k: nat, last: nat)
    requires p <= last && (d == 1 || d == -1) && k > 0
    ensures var q := Clamp(Ahead(p, d, k - 1), 0, last); 0 <= q <= last && Clamp(q + d, 0, last) == Clamp(Ahead(p, d, k), 0, last)
  {
  }

  lemma OneMoreControl(avail: seq<seq<byte>>, v: seq<byte>, d: int, k: nat)
    requires avail != [] && k > 0
    ensures Controls(avail, v, Repeat(d, k)) == Controls(avail, Controls(avail, v, Repeat(d, k - 1)), [d])
  {
    assert Repeat(d, k)[..k - 1] == Repeat(d, k - 1);
    var u := Controls(avail, v, Repeat(d, k - 1));
    assert [d][..0] == [] && Controls(avail, u, []) == u;
    hide StepEnum;
  }

  /** Unit steps take exactly |q - p| controls; no series of fewer, up and down mixed, leads there. */
  lemma ExactlyTheDistance(avail: seq<seq<byte>>, p: nat, q: nat, deltas: seq<int>)
    requires Distinct(avail) && p < |avail| && q < |avail|
    ensures var d := if q > p then 1 else -1;
            var dist := if q > p then q - p else p - q;
            && Controls(avail, avail[p], Repeat(d, dist)) == avail[q]
            && ((forall i :: 0 <= i < |deltas| ==> -1 <= deltas[i] <= 1) && Controls(avail, avail[p], deltas) == avail[q] ==>
                  |deltas| >= dist)
  {
    hide Controls, Distinct, Repeat, StepEnum, Position;
    var d, dist := if q > p then 1 else -1, if q > p then q - p else p - q;
    UnitSteps(avail, p, d, dist);
    StepMovesPosition(avail, q, 0);
    if forall i :: 0 <= i < |deltas| ==> -1 <= deltas[i] <= 1 {
      NoFasterWay(avail, p, deltas, 1);
    }
  }

  /** A value that is not listed is on the list after any control that is not zero. */
  lemma OffListLands(avail: seq<seq<byte>>, v: seq<byte>, d: int)
    requires avail != [] && v !in avail
    ensures StepEnum(avail, v, d) == Some(avail[if d > 0 then |avail| - 1 else 0])
  {
  }

  /** No series of controls of at most `most` places each gets further than `most` times its length. */
  lemma {:induction false} NoFasterWay(avail: seq<seq<byte>>, p: nat, deltas: seq<int>, most: int)
    requires Distinct(avail) && p < |avail| && forall i :: 0 <= i < |deltas| ==> -most <= deltas[i] <= most
    ensures var q := Position(avail, Controls(avail, avail[p], deltas));
            q >= 0 && -most * |deltas| <= q - p <= most * |deltas|
  {
    hide *;
    NoControls(avail, avail[p]);
    StepMovesPosition(avail, p, 0);
    if deltas == [] {
    } else {
      var n := |deltas| - 1;
      NoFasterWay(avail, p, deltas[..n], most);
      var r, d := Position(avail, Controls(avail, avail[p], deltas[..n])), deltas[n];
      LastControl(avail, avail[p], deltas);
      PositionIs(avail, Controls(avail, avail[p], deltas[..n]));
      StepMovesPosition(avail, r, d);
      ClampMoves(r, d, |avail| - 1, most);
      StepMovesPosition(avail, Clamp(r + d, 0, |avail| - 1), 0);
      OneMoreTime(most, n);
    }
  }

  lemma OneMoreTime(most: int, n: nat)
    ensures most * (n + 1) == most * n + most && -most * (n + 1) == -most * n - most
  {
  }

  lemma ClampMoves(p: nat, d: int, last: nat, most: int)
    requires p <= last && -most <= d <= most
    ensures var q := Clamp(p + d, 0, last); 0 <= q <= last && -most <= q - p <= most
  {
  }

  lemma PositionIs(avail: seq<seq<byte>>, v: seq<byte>)
    ensures Position(avail, v) < |avail| && (Position(avail, v) >= 0 ==> avail[Position(avail, v)] == v)
    ensures forall q :: 0 <= q < |avail| ==> Position(avail, avail[q]) <= q && avail[q] in avail
    ensures v in avail ==> Position(avail, v) >= 0
  {
    hide Position;
  }

  lemma LastControl(avail: seq<seq<byte>>, v: seq<byte>, deltas: seq<int>)
    requires avail != [] && deltas != []
    ensures var n := |deltas| - 1;
            Controls(avail, v, deltas) == Controls(avail, Controls(avail, v, deltas[..n]), [deltas[n]])
  {
    var u := Controls(avail, v, deltas[..|deltas| - 1]);
    assert [deltas[|deltas| - 1]][..0] == [] && Controls(avail, u, []) == u;
    hide StepEnum;
  }

  // ---- What repetitions in the list do ---------------------------------------------------

  /** Where a listed value stands after one more unit step, as the next control will find it. */
  lemma UnitStep(avail: seq<seq<byte>>, v: seq<byte>, d: int)
    requires v in avail && (d == 1 || d == -1)
    ensures var q, w := Clamp(Position(avail, v) + d, 0, |avail| - 1), Controls(avail, v, [d]);
            0 <= q < |avail| && w == avail[q] && w in avail && Position(avail, w) <= q
  {
    hide Position, Controls;
    PositionIs(avail, v);
    OneControl(avail, v, d);
  }

  lemma OneControl(avail: seq<seq<byte>>, v: seq<byte>, d: int)
    requires avail != []
    ensures Controls(avail, v, [d]) == match StepEnum(avail, v, d) case None => v case Some(w) => w
  {
    hide StepEnum;
    assert [d][..0] == [] && Controls(avail, v, []) == v;
  }

  /** The position after `k` unit steps from a listed value. */
  function PositionAfter(avail: seq<seq<byte>>, v: seq<byte>, d: int, k: nat): int
    requires avail != []
  {
    Position(avail, Controls(avail, v, Repeat(d, k)))
  }

  lemma {:induction false} StaysListed(avail: seq<seq<byte>>, v: seq<byte>, d: int, k: nat)
    requires v in avail && (d == 1 || d == -1)
    ensures Controls(avail, v, Repeat(d, k)) in avail
    ensures 0 <= PositionAfter(avail, v, d, k) < |avail|
    ensures k == 0 ==> PositionAfter(avail, v, d, k) == Position(avail, v)
    ensures k > 0 ==> var q := Clamp(PositionAfter(avail, v, d, k - 1) + d, 0, |avail| - 1);
                      && 0 <= q < |avail| && PositionAfter(avail, v, d, k) == Position(avail, avail[q]) <= q
  {
    hide *;
    NoControls(avail, v);
    NoRepeats(0, d, 0);
    PositionAfterIs(avail, v, d, k);
    if k == 0 {
    } else {
      StaysListed(avail, v, d, k - 1);
      PositionAfterIs(avail, v, d, k - 1);
      OneMoreControl(avail, v, d, k);
      UnitStep(avail, Controls(avail, v, Repeat(d, k - 1)), d);
    }
    PositionIs(avail, Controls(avail, v, Repeat(d, k)));
  }

  lemma PositionAfterIs(avail: seq<seq<byte>>, v: seq<byte>, d: int, k: nat)
    requires avail != []
    ensures PositionAfter(avail, v, d, k) == Position(avail, Controls(avail, v, Repeat(d, k)))
  {
  }

  /** The places `lo..hi` each hold a value the list does not have before. */
  ghost predicate FirstThere(avail: seq<seq<byte>>, lo: int, hi: int)
    requires 0 <= lo && hi < |avail|
  {
    forall j :: lo <= j <= hi ==> Position(avail, avail[j]) == j
  }

  /** No number of steps up gets past a value that the list has before. */
  lemma {:induction false} StaysBelow(avail: seq<seq<byte>>, p: nat, j: nat, k: nat)
    requires p < j < |avail| && Position(avail, avail[p]) == p && Position(avail, avail[j]) != j
    ensures PositionAfter(avail, avail[p], 1, k) < j
  {
    hide PositionAfter, Position;
    StaysListed(avail, avail[p], 1, k);
    PositionIs(avail, avail[j]);
    if k == 0 {
    } else {
      StaysBelow(avail, p, j, k - 1);
    }
  }

  lemma {:induction false} Climbs(avail: seq<seq<byte>>, p: nat, k: nat)
    requires p + k < |avail| && FirstThere(avail, p, p + k)
    ensures PositionAfter(avail, avail[p], 1, k) == p + k
  {
    hide PositionAfter, Position;
    StaysListed(avail, avail[p], 1, k);
    if k == 0 {
    } else {
      Climbs(avail, p, k - 1);
    }
  }

  /**
   With repetitions: single steps up from a value get to position q, sooner or later,
   exactly if none of the values on the way is listed before.
   */
  lemma UpReachesIff(avail: seq<seq<byte>>, p: nat, q: nat)
    requires p < q < |avail| && Position(avail, avail[p]) == p
    ensures (exists k: nat :: PositionAfter(avail, avail[p], 1, k) == q) <==> FirstThere(avail, p + 1, q)
  {
    hide PositionAfter, Position;
    if FirstThere(avail, p + 1, q) {
      Climbs(avail, p, q - p);
    } else {
      var j: nat :| p < j <= q && Position(avail, avail[j]) != j;
      forall k: nat
        ensures PositionAfter(avail, avail[p], 1, k) != q
      {
        StaysBelow(avail, p, j, k);
      }
    }
  }

  lemma {:induction false} Descends(avail: seq<seq<byte>>, p: nat, k: nat)
    requires p < |avail| && Position(avail, avail[p]) == p
    ensures PositionAfter(avail, avail[p], -1, k) <= if k < p then p - k else 0
  {
    hide PositionAfter, Position;
    StaysListed(avail, avail[p], -1, k);
    if k == 0 {
    } else {
      Descends(avail, p, k - 1);
    }
  }

  /** A value is found where it is listed first. */
  lemma NotThere(avail: seq<seq<byte>>, v: seq<byte>, j: nat)
    requires j < |avail| && Position(avail, avail[j]) != j
    ensures Position(avail, v) != j
  {
    hide Position;
    PositionIs(avail, v);
  }

  /**
   Downwards nothing traps: p steps lead to the first entry from anywhere. A repetition
   makes the walk jump instead: it visits every place from p to q, one a step, exactly if
   none of the values on the way is listed before.
   */
  lemma DownVisitsIff(avail: seq<seq<byte>>, p: nat, q: nat)
    requires q < p < |avail| && Position(avail, avail[p]) == p
    ensures PositionAfter(avail, avail[p], -1, p) == 0
    ensures (forall k: nat :: k <= p - q ==> PositionAfter(avail, avail[p], -1, k) == p - k) <==> FirstThere(avail, q, p - 1)
  {
    hide Position;
    Descends(avail, p, p);
    StaysListed(avail, avail[p], -1, p);
    if FirstThere(avail, q, p - 1) {
      forall k: nat | k <= p - q
        ensures PositionAfter(avail, avail[p], -1, k) == p - k
      {
        WalksDown(avail, p, q, k);
      }
    } else {
      var j: nat :| q <= j < p && Position(avail, avail[j]) != j;
      NotThere(avail, Controls(avail, avail[p], Repeat(-1, p - j)), j);
      assert PositionAfter(avail, avail[p], -1, p - j) != j;
    }
  }

  lemma {:induction false} WalksDown(avail: seq<seq<byte>>, p: nat, q: nat, k: nat)
    requires q < p < |avail| && k <= p - q && Position(avail, avail[p]) == p && FirstThere(avail, q, p - 1)
    ensures PositionAfter(avail, avail[p], -1, k) == p - k
  {
    hide PositionAfter, Position;
    StaysListed(avail, avail[p], -1, k);
    if k == 0 {
    } else {
      WalksDown(avail, p, q, k - 1);
    }
  }

  /**
   So downwards a place can be reached past repetitions: in the list a, b, a, b, c one step
   down from c is read back as position 1, the first b.
   */
  lemma DownCanJump(a: seq<byte>, b: seq<byte>, c: seq<byte>)
    requires a != b && b != c && a != c
    ensures var avail := [a, b, a, b, c];
            Position(avail, c) == 4 && PositionAfter(avail, c, -1, 1) == 1 && !FirstThere(avail, 1, 3)
  {
    var avail := [a, b, a, b, c];
    assert avail[0] == a && avail[1] == b && avail[2] == a && avail[3] == b && avail[4] == c;
    assert Position(avail, c) == 4 && Position(avail, b) == 1;
    StaysListed(avail, c, -1, 0);
    StaysListed(avail, c, -1, 1);
    hide *;
  }

  // ---- Along a range ----------------------------------------------------------------------

  predicate Width(width: nat)
  {
    width == 1 || width == 2 || width == 4
  }

  /** One and two byte values are taken as signed, four byte values as unsigned. */
  function Value(d: seq<byte>, width: nat): int
    requires Width(width) && |d| >= width
  {
    if width == 1 then (if d[0] >= 0x80 then d[0] - 0x100 else d[0])
    else if width == 2 then (if Get16(d) >= 0x8000 then Get16(d) - 0x1_0000 else Get16(d))
    else Get32(d)
  }

  /** The form step is taken as it stands, never as a negative number. */
  function StepSize(d: seq<byte>, width: nat): nat
    requires Width(width) && |d| >= width
  {
    if width == 1 then d[0] else if width == 2 then Get16(d) else Get32(d)
  }

  /** Values of one and two bytes are signed, those of four bytes and all steps are not; the low byte is first. */
  lemma ValuesAre(d: seq<byte>)
    ensures |d| >= 1 ==> -0x80 <= Value(d, 1) < 0x80 && (Value(d, 1) - d[0]) % 0x100 == 0 && StepSize(d, 1) == d[0]
    ensures |d| >= 2 ==>
              var w := d[0] as int + 0x100 * d[1] as int;
              -0x8000 <= Value(d, 2) < 0x8000 && (Value(d, 2) - w) % 0x1_0000 == 0 && StepSize(d, 2) == w
    ensures |d| >= 4 ==>
              var w := d[0] as int + 0x100 * d[1] as int + 0x1_0000 * d[2] as int + 0x100_0000 * d[3] as int;
              Value(d, 4) == w == StepSize(d, 4)
  {
  }

  /** The low `width` bytes of `(uint32_t)x`. */
  function LowBytes(x: int, width: nat): (d: seq<byte>)
    requires Width(width)
    ensures |d| == width
  {
    Le32(x % 0x1_0000_0000)[..width]
  }

  function StepRange(v: seq<byte>, form: Form, width: nat, delta: int): Option<seq<byte>>
    requires Width(width) && |v| >= width
    requires form.Range? && |form.min| >= width && |form.max| >= width && |form.step| >= width
  {
    var cur := Value(v, width);
    var next := Clamp(cur + delta * StepSize(form.step, width), Value(form.min, width), Value(form.max, width));
    if next == cur then None else Some(LowBytes(next, width))
  }

  lemma LowBytesRead(x: int, width: nat, min: seq<byte>, max: seq<byte>)
    requires Width(width) && |min| >= width && |max| >= width
    requires Value(min, width) <= x <= Value(max, width)
    ensures Value(LowBytes(x, width), width) == x
  {
    hide Le32, Get32, Get16;
    var u: u32 := x % 0x1_0000_0000;
    LowWordIs(u, x);
    if width == 1 {
      SignedBack(x, 0x80);
    } else if width == 2 {
      SignedBack(x, 0x8000);
    } else {
      assert 0 <= x < 0x1_0000_0000;
    }
  }

  /** Sign extension undoes the reduction of a value that fits. */
  lemma SignedBack(x: int, half: int)
    requires (half == 0x80 || half == 0x8000) && -half <= x < half
    ensures var r := x % (2 * half); x == if r >= half then r - 2 * half else r
  {
    if half == 0x80 {
      assert x % 0x100 == if x >= 0 then x else x + 0x100;
    } else {
      assert x % 0x1_0000 == if x >= 0 then x else x + 0x1_0000;
    }
  }

  /** The low one, two and four bytes of a word, read back. */
  lemma LowWordIs(u: u32, x: int)
    requires u == x % 0x1_0000_0000
    ensures Le32(u)[..1][0] == x % 0x100
    ensures Get16(Le32(u)[..2]) == x % 0x1_0000
    ensures Get32(Le32(u)[..4]) == u
  {
    hide Get32, Get16;
    LowParts(u, x);
    SixteenOf(u);
    assert Le32(u)[..1][0] == u % 0x100;
    assert Le32(u)[..4] == Le32(u);
    hide Le32;
    Get32At([], u, []);
    assert ([] + Le32(u) + [])[0..] == Le32(u);
  }

  lemma LowParts(u: u32, x: int)
    requires u == x % 0x1_0000_0000
    ensures u % 0x1_0000 == x % 0x1_0000 && u % 0x100 == x % 0x100
  {
    var q := x / 0x1_0000_0000;
    assert x == q * 0x1_0000_0000 + u;
    LowHalf(x, q * 0x1_0000 + u / 0x1_0000, u % 0x1_0000);
    LowByte(x, q * 0x100_0000 + u / 0x100, u % 0x100);
  }

  lemma LowHalf(x: int, a: int, b: int)
    requires x == a * 0x1_0000 + b && 0 <= b < 0x1_0000
    ensures x % 0x1_0000 == b
  {
  }

  lemma LowByte(x: int, a: int, b: int)
    requires x == a * 0x100 + b && 0 <= b < 0x100
    ensures x % 0x100 == b
  {
  }

  lemma SixteenOf(u: u32)
    ensures Get16(Le32(u)[..2]) == u % 0x1_0000
  {
    var q: int := u / 0x100;
    TwoLowBytes(u, q / 0x100, q % 0x100, u % 0x100);
  }

  lemma TwoLowBytes(x: int, a: int, b: int, c: int)
    requires x == (a * 0x100 + b) * 0x100 + c && 0 <= b < 0x100 && 0 <= c < 0x100
    ensures x % 0x1_0000 == b * 0x100 + c
  {
    assert x == a * 0x1_0000 + (b * 0x100 + c);
    LowHalf(x, a, b * 0x100 + c);
  }

  /**
   A step of `d` over a range leaves the value `cur + d * step`, held within the bounds, and
   the bytes stored decode to exactly that value, whatever the width.
   */
  lemma StepMovesValue(v: seq<byte>, form: Form, width: nat, d: int)
    requires Width(width) && |v| >= width
    requires form.Range? && |form.min| >= width && |form.max| >= width && |form.step| >= width
    ensures var lo, hi := Value(form.min, width), Value(form.max, width);
            var aim := Value(v, width) + d * StepSize(form.step, width);
            var next := if hi < aim || hi < lo then hi else if aim < lo then lo else aim;
            match StepRange(v, form, width, d)
            case None => next == Value(v, width)
            case Some(w) => |w| == width && Value(w, width) == next != Value(v, width)
  {
    var lo, hi := Value(form.min, width), Value(form.max, width);
    var next := Clamp(Value(v, width) + d * StepSize(form.step, width), lo, hi);
    if lo <= hi {
      LowBytesRead(next, width, form.min, form.max);
    } else {
      LowBytesRead(next, width, form.max, form.max);
    }
  }

  /** One control reaches every value of the range that lies up to 128 steps down or 127 up. */
  lemma OneJumpReachesValue(v: seq<byte>, form: Form, width: nat, k: int, target: int)
    requires Width(width) && |v| >= width
    requires form.Range? && |form.min| >= width && |form.max| >= width && |form.step| >= width
    requires -128 <= k <= 127 && target == Value(v, width) + k * StepSize(form.step, width) != Value(v, width)
    requires Value(form.min, width) <= target <= Value(form.max, width)
    ensures var r := StepRange(v, form, width, Delta(StepOf(k)));
            r.Some? && Value(r.value, width) == target
  {
    assert Delta(StepOf(k)) == k;
    StepMovesValue(v, form, width, k);
  }

  // ---- The handler ------------------------------------------------------------------------

  ghost predicate FormFits(form: Form, width: nat)
  {
    match form
    case NoForm => true
    case Enumeration(avail) => forall i :: 0 <= i < |avail| ==> |avail[i]| == width
    case Range(min, max, step) => |min| >= width && |max| >= width && |step| >= width
  }

  /** What one control makes of a value; None where it does not apply. */
  ghost function Applied(v: seq<byte>, kind: u16, form: Form, step: byte): Option<seq<byte>>
    requires |v| >= ScalarSize(kind) && FormFits(form, ScalarSize(kind))
  {
    var width := ScalarSize(kind);
    if width == 0 || width > 4 || Delta(step) == 0 then None
    else if form.Enumeration? && form.avail != [] then StepEnum(form.avail, v[..width], Delta(step))
    else if form.Range? then StepRange(v, form, width, Delta(step))
    else None
  }

  /** The types a control steps, and what it never applies to. */
  lemma AppliesTo(v: seq<byte>, kind: u16, form: Form, step: byte)
    requires |v| >= ScalarSize(kind) && FormFits(form, ScalarSize(kind))
    ensures var r, d := Applied(v, kind, form, step), if step < 0x80 then step else step - 0x100;
            && (!(1 <= kind <= 6) || step == 0 || form == NoForm || form == Enumeration([]) ==> r == None)
            && (1 <= kind <= 6 && step != 0 && form.Enumeration? && form.avail != [] ==>
                  var n := if kind <= 2 then 1 else if kind <= 4 then 2 else 4;
                  |v| >= n && r == StepEnum(form.avail, v[..n], d))
            && (1 <= kind <= 6 && step != 0 && form.Range? ==>
                  var n := if kind <= 2 then 1 else if kind <= 4 then 2 else 4;
                  && |v| >= n && |form.min| >= n && |form.max| >= n && |form.step| >= n
                  && r == StepRange(v, form, n, d))
  {
    hide StepEnum, StepRange;
  }

  class Setting {
    const kind: u16
    const form: Form
    const value: array<byte>

    ghost predicate Valid()
      reads this
    {
      value.Length == ScalarSize(kind) && FormFits(form, ScalarSize(kind))
    }

    constructor (kind: u16, form: Form, value: array<byte>)
      requires value.Length == ScalarSize(kind) && FormFits(form, ScalarSize(kind))
      ensures Valid() && this.kind == kind && this.form == form && this.value == value
    {
      this.kind, this.form, this.value := kind, form, value;
    }

    /** memcmp against each entry of the list. */
    method FindPosition(avail: seq<seq<byte>>) returns (pos: int)
      ensures pos == Position(avail, value[..])
    {
      pos := -1;
      var i := 0;
      while i < |avail|
        invariant 0 <= i <= |avail| && forall k :: 0 <= k < i ==> avail[k] != value[..]
      {
        if avail[i] == value[..] {
          return i;
        }
        i := i + 1;
      }
    }

    /** sony_apply_step: 0 when the value changed place. */
    method ApplyStep(step: byte) returns (rc: int)
      requires Valid()
      modifies value
      ensures var r := Applied(old(value[..]), kind, form, step);
              if r.Some? then rc == 0 && value[..] == r.value else rc == -1 && value[..] == old(value[..])
    {
      var width := ScalarSize(kind);
      if width == 0 || width > 4 {
        return -1;
      }
      assert value[..][..width] == value[..];
      var delta := if step <= 0x7f then step else step - 0x100;
      if delta == 0 {
        return -1;
      }
      match form {
        case Enumeration(avail) =>
          if avail == [] {
            return -1;
          }
          rc := StepAlongList(avail, delta);
        case Range(_, _, _) =>
          rc := StepAlongRange(width, delta);
        case NoForm =>
          rc := -1;
      }
    }

    method StepAlongList(avail: seq<seq<byte>>, delta: int) returns (rc: int)
      requires avail != [] && forall i :: 0 <= i < |avail| ==> |avail[i]| == value.Length
      modifies value
      ensures var r := StepEnum(avail, old(value[..]), delta);
              if r.Some? then rc == 0 && value[..] == r.value else rc == -1 && value[..] == old(value[..])
    {
      var pos := FindPosition(avail);
      var newpos: int;
      if pos < 0 {
        newpos := if delta > 0 then |avail| - 1 else 0;
      } else {
        newpos := pos + delta;
        if newpos < 0 {
          newpos := 0;
        }
        if newpos >= |avail| {
          newpos := |avail| - 1;
        }
      }
      if newpos == pos {
        return -1;
      }
      Overwrite(avail[newpos]);
      return 0;
    }

    method StepAlongRange(width: nat, delta: int) returns (rc: int)
      requires Width(width) && value.Length == width
      requires form.Range? && |form.min| >= width && |form.max| >= width && |form.step| >= width
      modifies value
      ensures var r := StepRange(old(value[..]), form, width, delta);
              if r.Some? then rc == 0 && value[..] == r.value else rc == -1 && value[..] == old(value[..])
    {
      var cur, lo, hi := Value(value[..], width), Value(form.min, width), Value(form.max, width);
      var newv := cur + delta * StepSize(form.step, width);
      if newv < lo {
        newv := lo;
      }
      if newv > hi {
        newv := hi;
      }
      if newv == cur {
        return -1;
      }
      Overwrite(LowBytes(newv, width));
      return 0;
    }

    /** `memcpy(desc->value, data, width)`. */
    method Overwrite(data: seq<byte>)
      requires |data| == value.Length
      modifies value
      ensures value[..] == data
    {
      var _ := PutBytes(value, 0, data);
    }
  }
}
