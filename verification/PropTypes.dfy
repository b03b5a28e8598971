/**
 The sizes property values give themselves: fixed for the integer types, led by a count in
 the array types and by a character count in strings (`src/data.c`).
 */
module PropTypes {
  import opened Bytes

  const UNDEF: u16 := 0x0
  const STRING: u16 := 0xFFFF

  /** Bytes an element of the array types takes; 0 for the other types. */
  function ElementSize(kind: u16): nat
  {
    match kind
    case 0x4002 => 1
    case 0x4004 => 2
    case 0x4006 => 4
    case 0x4008 => 8
    case _ => 0
  }

  function ScalarSize(kind: u16): nat
  {
    if kind == 1 || kind == 2 then 1
    else if kind == 3 || kind == 4 then 2
    else if kind == 5 || kind == 6 then 4
    else if kind == 7 || kind == 8 then 8
    else 0
  }

  /** ptp_get_prop_size: None where it aborts or would read past the value. */
  function PropSize(d: seq<byte>, kind: u16): Option<nat>
  {
    if ScalarSize(kind) > 0 then Some(ScalarSize(kind))
    else if ElementSize(kind) > 0 then (if |d| < 4 then None else Some(4 + Get32(d) as int * ElementSize(kind)))
    else if kind == STRING then (if |d| < 1 then None else Some(1 + 2 * d[0] as int))
    else None
  }

  /** A value whose own length fields say how long it is. */
  ghost predicate SelfSized(v: seq<byte>, kind: u16)
  {
    PropSize(v, kind) == Some(|v|)
  }

  lemma SelfSizedPrefix(v: seq<byte>, kind: u16, rest: seq<byte>)
    requires SelfSized(v, kind)
    ensures PropSize(v + rest, kind) == Some(|v|)
  {
    if |v| >= 4 {
      assert Get32(v + rest) == Get32(v);
    }
  }

  /** ptp_get_prop_list_size: value after value, each by its own length. */
  method PropListSize(values: seq<seq<byte>>, kind: u16) returns (of: nat)
    requires forall i :: 0 <= i < |values| ==> SelfSized(values[i], kind)
    ensures of == |Flatten(values)|
  {
    var data := Flatten(values);
    of := 0;
    for i := 0 to |values|
      invariant of <= |data| && data[of..] == Flatten(values[i..])
    {
      SelfSizedPrefix(values[i], kind, Flatten(values[i + 1..]));
      assert values[i..][1..] == values[i + 1..] && values[i..][0] == values[i];
      assert data[of..] == values[i] + Flatten(values[i + 1..]);
      assert data[of..][|values[i]|..] == data[of + |values[i]|..];
      of := of + PropSize(data[of..], kind).value;
    }
    assert values[|values|..] == [];
  }
}
