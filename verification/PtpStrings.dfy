/**
 Strings on the wire (section 3.1.1 of the MTP 1.1 specification): a character count that
 includes the terminator, then 16-bit characters (`src/data.c`).
 */
module PtpStrings {
  import opened Bytes
  import opened PropTypes

  /** A C string: its characters, without the terminator. */
  type CString = s: seq<byte> | forall i :: 0 <= i < |s| ==> s[i] != 0 witness []

  /** The characters as 16-bit units. */
  function Wide(s: seq<byte>): (d: seq<byte>)
    ensures |d| == 2 * |s|
  {
    if s == [] then [] else Wide(s[..|s| - 1]) + [s[|s| - 1], 0]
  }

  /** The length byte of a written string; it wraps. */
  function LengthByte(s: CString): byte
  {
    (|s| + 1) % 0x100
  }

  /** ptp_write_string */
  function WriteString(s: CString): (d: seq<byte>)
    ensures |d| == 1 + 2 * |s| + 2
  {
    [LengthByte(s)] + Wide(s) + [0, 0]
  }

  /** What becomes of a character on reading: control characters and anything above 128 are lost. */
  function Narrow(w: u16): byte
  {
    if w > 128 then 63 else if w != 0 && w < 32 then 32 else w
  }

  /** The first `n` characters at `d`, as the reader stores them. */
  function Chars(d: seq<byte>, n: nat): (s: seq<byte>)
    requires |d| >= 2 * n
    ensures |s| == n
  {
    if n == 0 then [] else Chars(d, n - 1) + [Narrow(Get16(d[2 * (n - 1)..]))]
  }

  /** How many characters the reader takes: it checks the room only after storing one. */
  function Taken(length: nat, max: nat): (n: nat)
    requires max > 0
  {
    Min(length, max)
  }

  /** What ptp_read_string stores, terminator included, and how many bytes it consumes. */
  datatype Read = Read(cells: seq<byte>, consumed: nat)

  function ReadString(d: seq<byte>, max: nat): (r: Option<Read>)
    requires max > 0
    ensures r.Some? ==> r.value.consumed <= |d| && |r.value.cells| <= max + 1
  {
    if |d| < 1 || |d| < 1 + 2 * Taken(d[0], max) then None
    else
      var n := Taken(d[0], max);
      Some(Read(Chars(d[1..], n) + [0], 1 + 2 * n))
  }

  predicate Printable(s: seq<byte>)
  {
    forall i :: 0 <= i < |s| ==> 32 <= s[i] <= 128
  }

  /** The stored cells hold the string `s`, terminator and all, within a buffer of `max` characters. */
  predicate Holds(cells: seq<byte>, s: CString, max: nat)
  {
    |s| < max && |s| < |cells| && cells[..|s|] == s && cells[|s|] == 0
  }

  lemma {:induction false} WideAt(s: seq<byte>, i: nat, rest: seq<byte>)
    requires i < |s|
    ensures Get16((Wide(s) + rest)[2 * i..]) == s[i]
    decreases |s|
  {
    var n := |s| - 1;
    var last := [s[n], 0];
    assert Wide(s) + rest == Wide(s[..n]) + (last + rest);
    if i < n {
      WideAt(s[..n], i, last + rest);
    } else {
      assert (Wide(s[..n]) + (last + rest))[2 * n..] == last + rest;
    }
  }

  lemma {:induction false} CharsOf(s: seq<byte>, n: nat, rest: seq<byte>)
    requires n <= |s|
    ensures forall i :: 0 <= i < n ==> Chars(Wide(s) + rest, n)[i] == Narrow(s[i])
  {
    if n == 0 {
    } else {
      CharsOf(s, n - 1, rest);
      WideAt(s, n - 1, rest);
    }
  }

  lemma ReadOfWrite(s: CString, max: nat, rest: seq<byte>)
    requires max > 0
    ensures ReadString(WriteString(s) + rest, max).Some?
    ensures var r := ReadString(WriteString(s) + rest, max).value;
            var n := Min(LengthByte(s), max);
            && r.consumed == 1 + 2 * n && |r.cells| == n + 1 && r.cells[n] == 0
            && (forall i :: 0 <= i < Min(n, |s|) ==> r.cells[i] == Narrow(s[i]))
            && (n > |s| ==> r.cells[|s|] == 0)
  {
    var d := WriteString(s) + rest;
    var n := Min(LengthByte(s), max);
    var t := s + [0];
    WidenTerminated(s);
    assert d[1..] == Wide(t) + rest;
    CharsOf(t, n, rest);
  }

  /**
   What is written is read back exactly if its characters are in 32..128 and it fits the
   buffer with its terminator. The reader adds a terminator of its own and checks the room
   too late for it: a string that just fits, or does not, makes it write one byte too many.
   */
  lemma StringSurvivesIff(s: CString, max: nat, rest: seq<byte>)
    requires max > 0
    ensures var r := ReadString(WriteString(s) + rest, max);
            && r.Some?
            && (Holds(r.value.cells, s, max) <==> Printable(s) && |s| < 255 && |s| + 1 <= max)
            && (r.value.consumed == |WriteString(s)| <==> |s| < 255 && |s| + 1 <= max)
            && (|r.value.cells| > max <==> LengthByte(s) >= max)
  {
    ReadOfWrite(s, max, rest);
    var r := ReadString(WriteString(s) + rest, max).value;
    hide ReadString, WriteString;
    if |s| < 255 && |s| + 1 <= max {
      if Printable(s) {
        assert r.cells[..|s|] == s;
      } else {
        var i :| 0 <= i < |s| && !(32 <= s[i] <= 128);
        assert r.cells[..|s|][i] == Narrow(s[i]) != s[i];
      }
    }
  }

  /** The size a string value gives itself is the number of bytes written. */
  lemma WrittenIsSelfSized(s: CString)
    ensures SelfSized(WriteString(s), STRING) <==> |s| < 255
  {
  }

  // ---- The second writer ------------------------------------------------------------------

  /** put_string: the characters are widened as signed ones. */
  function Widen(c: byte): u16
  {
    if c >= 0x80 then 0xff00 + c else c
  }

  function PutChars(s: seq<byte>): (d: seq<byte>)
    ensures |d| == 2 * |s|
  {
    if s == [] then [] else PutChars(s[..|s| - 1]) + Le16(Widen(s[|s| - 1]))
  }

  /** A missing string is a single zero byte. */
  function PutString(s: Option<CString>): (d: seq<byte>)
    requires s.Some? ==> |s.value| < 255
  {
    match s
    case None => [0]
    case Some(t) => [|t| + 1] + PutChars(t + [0])
  }

  lemma {:induction false} PutCharsAt(s: seq<byte>, i: nat)
    requires i < |s|
    ensures PutChars(s)[2 * i] == s[i] && PutChars(s)[2 * i + 1] == if s[i] >= 0x80 then 0xff else 0
    decreases |s|
  {
    if i == |s| - 1 {
    } else {
      PutCharsAt(s[..|s| - 1], i);
    }
  }

  lemma {:induction false} WideBytes(s: seq<byte>, i: nat)
    requires i < |s|
    ensures Wide(s)[2 * i] == s[i] && Wide(s)[2 * i + 1] == 0
    decreases |s|
  {
    if i == |s| - 1 {
    } else {
      WideBytes(s[..|s| - 1], i);
    }
  }

  /** The two writers agree exactly on 7-bit strings. */
  lemma WritersAgreeIff(s: CString)
    requires |s| < 255
    ensures PutString(Some(s)) == WriteString(s) <==> forall i :: 0 <= i < |s| ==> s[i] < 0x80
  {
    hide *;
    var t := s + [0];
    WholeOf(s);
    forall i | 0 <= i < |t|
      ensures PutChars(t)[2 * i] == Wide(t)[2 * i]
      ensures PutChars(t)[2 * i + 1] == Wide(t)[2 * i + 1] <==> t[i] < 0x80
    {
      PutCharsAt(t, i);
      WideBytes(t, i);
    }
    if forall i :: 0 <= i < |s| ==> s[i] < 0x80 {
      assert forall i :: 0 <= i < |t| ==> t[i] < 0x80;
      forall i | 0 <= i < |t|
        ensures PutChars(t)[2 * i] == Wide(t)[2 * i] && PutChars(t)[2 * i + 1] == Wide(t)[2 * i + 1]
      {
        assert t[i] < 0x80;
      }
      PairwiseEqual(PutChars(t), Wide(t), |t|);
    } else {
      var i :| 0 <= i < |s| && s[i] >= 0x80;
      assert t[i] == s[i] && PutChars(t)[2 * i + 1] != Wide(t)[2 * i + 1];
    }
  }

  lemma PairwiseEqual(a: seq<byte>, b: seq<byte>, n: nat)
    requires |a| == |b| == 2 * n && forall i :: 0 <= i < n ==> a[2 * i] == b[2 * i] && a[2 * i + 1] == b[2 * i + 1]
    ensures a == b
  {
    forall k | 0 <= k < |a|
      ensures a[k] == b[k]
    {
      assert k == 2 * (k / 2) || k == 2 * (k / 2) + 1;
    }
  }

  /** Both writers put the length in front of the characters and the terminator. */
  lemma WholeOf(s: CString)
    requires |s| < 255
    ensures WriteString(s) == [|s| + 1] + Wide(s + [0])
    ensures PutString(Some(s)) == [|s| + 1] + PutChars(s + [0])
    ensures PutString(Some(s)) == WriteString(s) <==> PutChars(s + [0]) == Wide(s + [0])
  {
    WidenTerminated(s);
    LengthFirst(s);
    LowByteIs(|s| + 1);
    EqualBehind(|s| + 1, PutChars(s + [0]), Wide(s + [0]));
  }

  lemma WidenTerminated(s: seq<byte>)
    ensures Wide(s + [0]) == Wide(s) + [0, 0]
  {
    assert (s + [0])[..|s|] == s;
  }

  lemma LengthFirst(s: CString)
    ensures WriteString(s) == [(|s| + 1) % 0x100] + (Wide(s) + [0, 0])
  {
  }

  lemma LowByteIs(n: byte)
    ensures [n % 0x100] == [n]
  {
  }

  lemma EqualBehind(x: byte, a: seq<byte>, b: seq<byte>)
    ensures [x] + a == [x] + b <==> a == b
  {
    assert ([x] + a)[1..] == a && ([x] + b)[1..] == b;
  }

  // ---- Byte by byte -----------------------------------------------------------------------

  /** The bytes of a written string: a count that wraps, each character and a zero, two zeros. */
  lemma WrittenBytes(s: CString)
    ensures var d := WriteString(s);
            && |d| == 3 + 2 * |s| && d[0] == (|s| + 1) % 0x100
            && (forall i :: 0 <= i < |s| ==> d[1 + 2 * i] == s[i] && d[2 + 2 * i] == 0)
            && d[1 + 2 * |s|] == 0 == d[2 + 2 * |s|]
  {
    forall i | 0 <= i < |s|
      ensures WriteString(s)[1 + 2 * i] == s[i] && WriteString(s)[2 + 2 * i] == 0
    {
      WideBytes(s, i);
    }
  }

  /** Those of the second writer, with the upper byte of a signed character. */
  lemma PutBytesAre(s: CString)
    requires |s| < 255
    ensures var d := PutString(Some(s));
            && |d| == 3 + 2 * |s| && d[0] == |s| + 1
            && (forall i :: 0 <= i < |s| ==> d[1 + 2 * i] == s[i] && d[2 + 2 * i] == if s[i] > 127 then 0xff else 0)
            && d[1 + 2 * |s|] == 0 == d[2 + 2 * |s|]
    ensures PutString(None) == [0]
  {
    var t := s + [0];
    forall i | 0 <= i < |t|
      ensures PutString(Some(s))[1 + 2 * i] == t[i] && PutString(Some(s))[2 + 2 * i] == if t[i] > 127 then 0xff else 0
    {
      PutCharsAt(t, i);
    }
    assert t[|s|] == 0;
  }

  lemma {:induction false} CharAt(d: seq<byte>, n: nat, i: nat)
    requires |d| >= 2 * n && i < n
    ensures Chars(d, n)[i] == Narrow(Get16(d[2 * i..]))
    decreases n
  {
    if i < n - 1 {
      CharAt(d, n - 1, i);
    }
  }

  /**
   The cells a read stores, whatever the bytes are: as many characters as are announced or
   fit, those above 128 as question marks, control characters as blanks, and a zero behind.
   */
  lemma StoredCells(d: seq<byte>, max: nat)
    requires max > 0
    ensures var r := ReadString(d, max);
            if d == [] || |d| < 1 + 2 * (if d[0] < max then d[0] else max) then r == None
            else
              var n := if d[0] < max then d[0] else max;
              && r.Some? && r.value.consumed == 1 + 2 * n && |r.value.cells| == n + 1 && r.value.cells[n] == 0
              && forall i :: 0 <= i < n ==>
                               var w := Get16(d[1 + 2 * i..]);
                               r.value.cells[i] == if w > 128 then '?' as int else if 0 < w < 32 then ' ' as int else w
  {
    hide Get16, Chars;
    if d != [] && |d| >= 1 + 2 * Min(d[0], max) {
      var n := Min(d[0], max);
      forall i | 0 <= i < n
        ensures var w := Get16(d[1 + 2 * i..]);
                (Chars(d[1..], n) + [0])[i] == if w > 128 then '?' as int else if 0 < w < 32 then ' ' as int else w
      {
        CharAt(d[1..], n, i);
        assert d[1..][2 * i..] == d[1 + 2 * i..];
      }
    }
  }

  // ---- The loops --------------------------------------------------------------------------

  lemma WideParts(s: seq<byte>)
    ensures Wide(s[..0]) == [] && s[..|s|] == s
    ensures forall i :: 0 <= i < |s| ==> Wide(s[..i + 1]) == Wide(s[..i]) + [s[i], 0]
  {
    forall i | 0 <= i < |s|
      ensures Wide(s[..i + 1]) == Wide(s[..i]) + [s[i], 0]
    {
      assert s[..i + 1][..i] == s[..i];
    }
  }

  method PtpWriteString(dat: array<byte>, at: nat, s: CString) returns (of: nat)
    requires at + 3 + 2 * |s| <= dat.Length
    modifies dat
    ensures of == at + 3 + 2 * |s|
    ensures dat[..of] == old(dat[..at]) + WriteString(s)
  {
    hide Wide;
    WideParts(s);
    ghost var was := dat[..at];
    ghost var head := [(|s| + 1) % 0x100];
    dat[at] := (|s| + 1) % 0x100;
    of := at + 1;
    assert dat[..of] == was + head + Wide(s[..0]);
    for i := 0 to |s|
      invariant of == at + 1 + 2 * i && dat[..of] == was + head + Wide(s[..i])
    {
      dat[of], dat[of + 1] := s[i], 0;
      of := of + 2;
      assert dat[..of] == was + head + (Wide(s[..i]) + [s[i], 0]);
    }
    dat[of], dat[of + 1] := 0, 0;
    of := of + 2;
    assert dat[..of] == was + (head + Wide(s) + [0, 0]);
  }

  /** `text` needs one cell more than `max` behind `at`: the reader may put a terminator too many. */
  method PtpReadString(d: seq<byte>, text: array<byte>, at: nat, max: nat) returns (of: nat)
    requires max > 0 && text.Length > at + max && ReadString(d, max).Some?
    modifies text
    ensures var r := ReadString(d, max).value;
            of == r.consumed && text[..] == Written(old(text[..]), at, r.cells)
  {
    hide Written;
    ghost var was := text[..];
    var length := d[0];
    of := 1;
    var i: nat := 0;
    WrittenSoFar(was, at, []);
    while i < length
      invariant i <= Taken(length, max) && of == 1 + 2 * i
      invariant text[..] == Written(was, at, Chars(d[1..], i))
      invariant i < length ==> i < max
    {
      assert d[of..] == d[1..][2 * i..];
      var wchr := Get16(d[of..]);
      of := of + 2;
      WrittenSnoc(was, at, Chars(d[1..], i), Narrow(wchr));
      text[at + i] := Narrow(wchr);
      i := i + 1;
      if i >= max {
        break;
      }
    }
    assert i == Taken(length, max);
    WrittenSnoc(was, at, Chars(d[1..], i), 0);
    text[at + i] := 0;
  }

  lemma WrittenSoFar(buf: seq<byte>, at: nat, none: seq<byte>)
    requires at <= |buf| && none == []
    ensures Written(buf, at, none) == buf
  {
  }

  lemma WrittenSnoc(buf: seq<byte>, at: nat, data: seq<byte>, x: byte)
    requires at + |data| < |buf|
    ensures Written(buf, at, data + [x]) == Written(buf, at, data)[at + |data| := x]
  {
  }
}
