/** Byte strings, and what it means for one to hold another at a position. */
module Bytes {

  type byte = x: int | 0 <= x < 256

  function Pow2(n: nat): nat {
    if n == 0 then 1 else 2 * Pow2(n - 1)
  }

  /** The data holds the part at the position. */
  predicate At(data: seq<byte>, pos: nat, part: seq<byte>)
    decreases |part|
  {
    if part == [] then pos <= |data|
    else pos < |data| && data[pos] == part[0] && At(data, pos + 1, part[1..])
  }

  /** `At` says that the part is a slice of the data. */
  lemma {:induction false} AtIsSlice(data: seq<byte>, pos: nat, part: seq<byte>)
    ensures At(data, pos, part) <==> pos + |part| <= |data| && data[pos..pos + |part|] == part
    decreases |part|
  {
    if part != [] {
      AtIsSlice(data, pos + 1, part[1..]);
      if pos + |part| <= |data| {
        assert data[pos..pos + |part|] == [data[pos]] + data[pos + 1..pos + |part|];
        assert part == [part[0]] + part[1..];
      }
    }
  }

  /** A concatenation stands at a position when its halves stand one after the other. */
  lemma {:induction false} AtConcat(data: seq<byte>, pos: nat, a: seq<byte>, b: seq<byte>)
    ensures At(data, pos, a + b) <==> At(data, pos, a) && At(data, pos + |a|, b)
    ensures At(data, pos, a) ==> pos + |a| <= |data|
    decreases |a|
  {
    if a == [] {
      assert a + b == b;
      AtIsSlice(data, pos, b);
    } else {
      AtConcat(data, pos + 1, a[1..], b);
      assert (a + b)[1..] == a[1..] + b;
    }
  }

  lemma {:induction false} AtIndex(data: seq<byte>, pos: nat, part: seq<byte>, i: nat)
    requires At(data, pos, part) && i < |part|
    ensures pos + i < |data| && data[pos + i] == part[i]
    decreases i
  {
    if i > 0 { AtIndex(data, pos + 1, part[1..], i - 1); }
  }

  /** One part after the other. */
  function Flat(parts: seq<seq<byte>>): seq<byte> {
    if parts == [] then [] else parts[0] + Flat(parts[1..])
  }

  lemma {:induction false} FlatConcat(a: seq<seq<byte>>, b: seq<seq<byte>>)
    ensures Flat(a + b) == Flat(a) + Flat(b)
  {
    if a == [] {
      assert a + b == b;
    } else {
      FlatConcat(a[1..], b);
      assert a + b == [a[0]] + (a[1..] + b);
    }
  }

  lemma AddPart(data: seq<byte>, pos: nat, part: seq<byte>, rest: seq<seq<byte>>)
    requires At(data, pos, part) && At(data, pos + |part|, Flat(rest))
    ensures At(data, pos, Flat([part] + rest)) && |Flat([part] + rest)| == |part| + |Flat(rest)|
  {
    AtConcat(data, pos, part, Flat(rest));
  }

  /** Big-endian 16-bit numbers, `struct` format `>H`. */
  function U16(data: seq<byte>, pos: nat): nat
    requires pos + 2 <= |data|
  {
    var high: int := data[pos];
    0x100 * high + data[pos + 1]
  }

  function PutU16(n: nat): seq<byte>
    requires n < 0x1_0000
  {
    [n / 256, n % 256]
  }

}
