/**
 Little-endian integers in byte buffers: the put/get and write/read helpers every
 packet of the camera is built with (`src/data.c`, `src/data.h`).
 */
module Bytes {

  type byte = x: int | 0 <= x < 0x100
  type u16 = x: int | 0 <= x < 0x1_0000
  type u32 = x: int | 0 <= x < 0x1_0000_0000
  type u64 = x: int | 0 <= x < 0x1_0000_0000_0000_0000

  /** The largest value of a C `int` on the platforms the program runs on. */
  const INT_MAX: int := 0x7fff_ffff

  datatype Option<+T> = None | Some(value: T)

  function Min(a: int, b: int): (m: int)
    ensures m <= a && m <= b && (m == a || m == b)
  {
    if a < b then a else b
  }

  function Le16(x: u16): (d: seq<byte>)
    ensures |d| == 2
  {
    [x % 0x100, x / 0x100]
  }

  function Le32(x: u32): (d: seq<byte>)
    ensures |d| == 4
  {
    [x % 0x100, x / 0x100 % 0x100, x / 0x1_0000 % 0x100, x / 0x100_0000]
  }

  function Get16(d: seq<byte>): u16
    requires |d| >= 2
  {
    var lo: int, hi: int := d[0], d[1];
    lo + hi * 0x100
  }

  function Get32(d: seq<byte>): u32
    requires |d| >= 4
  {
    var b0: int, b1: int, b2: int, b3: int := d[0], d[1], d[2], d[3];
    b0 + b1 * 0x100 + b2 * 0x1_0000 + b3 * 0x100_0000
  }

  /** The first byte counts least, in what is written and in what is read. */
  lemma LittleEndian(x: u32, y: u16, d: seq<byte>)
    ensures var b := Le32(x); x == b[0] as int + 0x100 * b[1] as int + 0x1_0000 * b[2] as int + 0x100_0000 * b[3] as int
    ensures var b := Le16(y); y == b[0] as int + 0x100 * b[1] as int
    ensures |d| >= 4 ==> Get32(d) == d[0] as int + 0x100 * d[1] as int + 0x1_0000 * d[2] as int + 0x100_0000 * d[3] as int
    ensures |d| >= 2 ==> Get16(d) == d[0] as int + 0x100 * d[1] as int
  {
    Quotients(x);
  }

  /** What is written can be read back, wherever in a buffer it stands. */
  lemma Get16At(pre: seq<byte>, x: u16, post: seq<byte>)
    ensures Get16((pre + Le16(x) + post)[|pre|..]) == x
  {
    var d := (pre + Le16(x) + post)[|pre|..];
    assert d == Le16(x) + post;
  }

  lemma Get32At(pre: seq<byte>, x: u32, post: seq<byte>)
    ensures Get32((pre + Le32(x) + post)[|pre|..]) == x
  {
    var d := (pre + Le32(x) + post)[|pre|..];
    assert d == Le32(x) + post;
    var q := x / 0x100;
    var r := x / 0x1_0000;
    assert r == q / 0x100 && x / 0x100_0000 == r / 0x100;
  }

  lemma Get32Prefix(d: seq<byte>, n: nat)
    requires 4 <= n <= |d|
    ensures Get32(d[..n]) == Get32(d)
  {
  }

  /** Reading and writing back gives the same four bytes. */
  lemma Le32OfGet32(d: seq<byte>)
    requires |d| == 4
    ensures Le32(Get32(d)) == d
  {
    var x: int := Get32(d);
    var b0: int, b1: int, b2: int, b3: int := d[0], d[1], d[2], d[3];
    LowByteFirst(x, d[0], b1 + 0x100 * (b2 + 0x100 * b3));
    LowByteFirst(x / 0x100, d[1], b2 + 0x100 * b3);
    LowByteFirst(x / 0x100 / 0x100, d[2], b3);
    Quotients(x);
  }

  lemma LowByteFirst(x: nat, b: byte, rest: nat)
    requires x == b + 0x100 * rest
    ensures x % 0x100 == b && x / 0x100 == rest
  {
  }

  lemma Quotients(x: nat)
    ensures x / 0x1_0000 == x / 0x100 / 0x100 && x / 0x100_0000 == x / 0x100 / 0x100 / 0x100
  {
  }

  /** All the pieces one after the other. */
  function Flatten<T>(pieces: seq<seq<T>>): (all: seq<T>)
  {
    if pieces == [] then [] else pieces[0] + Flatten(pieces[1..])
  }

  lemma {:induction false} FlattenAppend<T>(a: seq<seq<T>>, b: seq<seq<T>>)
    ensures Flatten(a + b) == Flatten(a) + Flatten(b)
  {
    if a == [] {
      assert a + b == b;
    } else {
      hide Flatten;
      FlattenFirst(a);
      FlattenFirst(a + b);
      FlattenAppend(a[1..], b);
      assert (a + b)[1..] == a[1..] + b;
      InThree(a[0], Flatten(a[1..]), Flatten(b));
    }
  }

  lemma FlattenFirst<T>(a: seq<seq<T>>)
    requires a != []
    ensures Flatten(a) == a[0] + Flatten(a[1..])
  {
  }

  lemma InThree<T>(a: seq<T>, b: seq<T>, c: seq<T>)
    ensures a + b + c == a + (b + c)
  {
  }

  lemma FlattenSplit<T>(a: seq<seq<T>>, i: nat)
    requires i <= |a|
    ensures Flatten(a) == Flatten(a[..i]) + Flatten(a[i..])
  {
    FlattenAppend(a[..i], a[i..]);
    assert a[..i] + a[i..] == a;
  }

  lemma LastApart<T>(s: seq<T>)
    requires s != []
    ensures s == s[..|s| - 1] + [s[|s| - 1]]
  {
  }

  lemma FlattenNone<T>(a: seq<seq<T>>)
    ensures a == [] ==> Flatten(a) == []
  {
  }

  lemma FlattenSnoc<T>(a: seq<seq<T>>, x: seq<T>)
    ensures Flatten(a + [x]) == Flatten(a) + x
  {
    FlattenAppend(a, [x]);
    assert Flatten([x]) == x;
  }

  /** Consecutive 32-bit words: parameters, handle arrays. */
  function Words(ps: seq<u32>): (d: seq<byte>)
    ensures |d| == 4 * |ps|
  {
    if ps == [] then [] else Words(ps[..|ps| - 1]) + Le32(ps[|ps| - 1])
  }

  lemma WordsSnoc(ps: seq<u32>, p: u32)
    ensures Words(ps + [p]) == Words(ps) + Le32(p)
  {
    assert (ps + [p])[..|ps|] == ps;
  }

  function GetWords(d: seq<byte>): (ps: seq<u32>)
    ensures |ps| == |d| / 4
  {
    if |d| < 4 then [] else [Get32(d)] + GetWords(d[4..])
  }

  lemma {:induction false} WordAt(d: seq<byte>, k: nat)
    requires 4 * k + 4 <= |d|
    ensures GetWords(d)[k] == Get32(d[4 * k..])
    decreases k
  {
    if k > 0 {
      WordAt(d[4..], k - 1);
      assert d[4..][4 * (k - 1)..] == d[4 * k..];
    } else {
      assert d[0..] == d;
    }
  }

  lemma {:induction false} GetWordsSnoc(d: seq<byte>, x: u32)
    requires |d| % 4 == 0
    ensures GetWords(d + Le32(x)) == GetWords(d) + [x]
  {
    Get32At(d, x, []);
    assert d + Le32(x) + [] == d + Le32(x);
    if d == [] {
      assert d + Le32(x) == Le32(x);
      assert GetWords(Le32(x)[4..]) == [];
    } else {
      GetWordsSnoc(d[4..], x);
      assert (d + Le32(x))[4..] == d[4..] + Le32(x);
      assert Get32(d + Le32(x)) == Get32(d);
    }
  }

  lemma {:induction false} GetWordsOfWords(ps: seq<u32>)
    ensures GetWords(Words(ps)) == ps
  {
    if ps == [] {
    } else {
      var n := |ps| - 1;
      GetWordsOfWords(ps[..n]);
      GetWordsSnoc(Words(ps[..n]), ps[n]);
      assert ps == ps[..n] + [ps[n]];
    }
  }

  /** Writes `x` at `of` and touches nothing else; returns the bytes written. */
  method PutU32(buf: array<byte>, of: nat, x: u32) returns (n: nat)
    requires of + 4 <= buf.Length
    modifies buf
    ensures n == 4
    ensures buf[..] == Written(old(buf[..]), of, Le32(x))
  {
    buf[of] := x % 0x100;
    buf[of + 1] := x / 0x100 % 0x100;
    buf[of + 2] := x / 0x1_0000 % 0x100;
    buf[of + 3] := x / 0x100_0000;
    n := 4;
  }

  method PutU16(buf: array<byte>, of: nat, x: u16) returns (n: nat)
    requires of + 2 <= buf.Length
    modifies buf
    ensures n == 2
    ensures buf[..] == Written(old(buf[..]), of, Le16(x))
  {
    buf[of] := x % 0x100;
    buf[of + 1] := x / 0x100;
    n := 2;
  }

  /** A buffer after `data` has been written at `of`. */
  function Written(buf: seq<byte>, of: nat, data: seq<byte>): (r: seq<byte>)
    requires of + |data| <= |buf|
    ensures |r| == |buf|
  {
    buf[..of] + data + buf[of + |data|..]
  }

  lemma WrittenOnwards(buf: seq<byte>, of: nat, a: seq<byte>, b: seq<byte>)
    requires of + |a| + |b| <= |buf|
    ensures Written(Written(buf, of, a), of + |a|, b) == Written(buf, of, a + b)
  {
  }

  /** Writing at the end of what is filled makes the filled part longer. */
  lemma WrittenAtEnd(buf: seq<byte>, of: nat, a: seq<byte>)
    requires of + |a| <= |buf|
    ensures Written(buf, of, a)[..of + |a|] == buf[..of] + a
  {
  }

  lemma WrittenAtStart(buf: seq<byte>, a: seq<byte>)
    requires |a| <= |buf|
    ensures Written(buf, 0, a)[..|a|] == a
  {
  }

  /** `memcpy(buf + of, data, size)`. */
  method PutBytes(buf: array<byte>, of: nat, data: seq<byte>) returns (n: nat)
    requires of + |data| <= buf.Length
    modifies buf
    ensures n == |data|
    ensures buf[..] == Written(old(buf[..]), of, data)
  {
    hide Written;
    n := 0;
    ghost var was := buf[..];
    WrittenNone(was, of, data);
    while n < |data|
      invariant n <= |data|
      invariant buf[..] == Written(was, of, data[..n])
    {
      WrittenOne(was, of, data, n);
      buf[of + n] := data[n];
      n := n + 1;
    }
    assert data[..n] == data;
  }

  lemma WrittenNone(buf: seq<byte>, of: nat, data: seq<byte>)
    requires of <= |buf|
    ensures Written(buf, of, data[..0]) == buf
  {
  }

  lemma WrittenOne(buf: seq<byte>, of: nat, data: seq<byte>, n: nat)
    requires n < |data| && of + |data| <= |buf|
    ensures Written(buf, of, data[..n + 1]) == Written(buf, of, data[..n])[of + n := data[n]]
  {
  }

  /** Writes behind what is filled already; returns how much is filled then. */
  method Put32(buf: array<byte>, of: nat, x: u32) returns (n: nat)
    requires of + 4 <= buf.Length
    modifies buf
    ensures n == of + 4 && buf[..n] == old(buf[..of]) + Le32(x)
  {
    WrittenAtEnd(buf[..], of, Le32(x));
    ghost var was := buf[..];
    var _ := PutU32(buf, of, x);
    assert buf[..of + 4] == buf[..][..of + 4] && was[..of] == old(buf[..of]);
    n := of + 4;
  }

  method Put16(buf: array<byte>, of: nat, x: u16) returns (n: nat)
    requires of + 2 <= buf.Length
    modifies buf
    ensures n == of + 2 && buf[..n] == old(buf[..of]) + Le16(x)
  {
    WrittenAtEnd(buf[..], of, Le16(x));
    ghost var was := buf[..];
    var _ := PutU16(buf, of, x);
    assert buf[..of + 2] == buf[..][..of + 2] && was[..of] == old(buf[..of]);
    n := of + 2;
  }
}
