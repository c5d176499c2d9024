/** Machine integers as bounded mathematical integers, and the bitwise operations on bytes. */
module Bytes {
  type Byte = x: int | 0 <= x < 0x100
  type U16 = x: int | 0 <= x < 0x1_0000
  type U32 = x: int | 0 <= x < 0x1_0000_0000

  /** Most and least significant byte of a 16-bit field, as the protocols put it on the wire. */
  function Hi(n: U16): Byte { n / 0x100 }

  function Lo(n: U16): Byte { n % 0x100 }

  function Join(hi: Byte, lo: Byte): U16 { hi * 0x100 + lo }

  function Zeros(n: nat): seq<Byte> { seq(n, _ => 0) }

  lemma ZerosAt(n: nat)
    ensures |Zeros(n)| == n && forall i :: 0 <= i < n ==> Zeros(n)[i] == 0
  {}

  /** `mem` with the bytes from `addr` on replaced by `data`: the effect of a memcpy. */
  function Splice(mem: seq<Byte>, addr: nat, data: seq<Byte>): seq<Byte>
    requires addr + |data| <= |mem|
  {
    mem[..addr] + data + mem[addr + |data|..]
  }

  lemma SpliceAt(mem: seq<Byte>, at: nat, data: seq<Byte>)
    requires at + |data| <= |mem|
    ensures |Splice(mem, at, data)| == |mem|
    ensures forall a :: 0 <= a < |mem| ==>
              Splice(mem, at, data)[a] == if at <= a < at + |data| then data[a - at] else mem[a]
  {}

  lemma SplicedIs(was: seq<Byte>, at: nat, bytes: seq<Byte>, now: seq<Byte>)
    requires at + |bytes| <= |was| == |now|
    requires forall k :: 0 <= k < at || at + |bytes| <= k < |was| ==> now[k] == was[k]
    requires forall k :: 0 <= k < |bytes| ==> now[at + k] == bytes[k]
    ensures now == Splice(was, at, bytes)
  {
    SpliceAt(was, at, bytes);
    hide Splice;
    assert forall k :: at <= k < at + |bytes| ==> now[k] == now[at + (k - at)];
  }

  function Flatten(parts: seq<seq<Byte>>): seq<Byte> {
    if parts == [] then [] else parts[0] + Flatten(parts[1..])
  }

  lemma FlattenSnoc(parts: seq<seq<Byte>>, last: seq<Byte>)
    ensures Flatten(parts + [last]) == Flatten(parts) + last
  {
    if parts == [] {
      assert parts + [last] == [last];
      assert Flatten([last]) == last + Flatten([]);
    } else {
      FlattenSnoc(parts[1..], last);
      assert (parts + [last])[1..] == parts[1..] + [last];
    }
  }

  /** The four operations behind the six operation codes. */
  datatype BitOp = And | Or | Xor | Clear

  predicate OnBits(op: BitOp, a: bool, b: bool) {
    match op
    case And => a && b
    case Or => a || b
    case Xor => a != b
    case Clear => a && !b
  }

  /** `a op b` on the low `width` bits, one bit at a time. */
  function OnWord(op: BitOp, a: nat, b: nat, width: nat): (r: nat)
    ensures r < Pow2(width)
  {
    if width == 0 then 0
    else 2 * OnWord(op, a / 2, b / 2, width - 1) + (if OnBits(op, a % 2 == 1, b % 2 == 1) then 1 else 0)
  }

  function Pow2(n: nat): nat { if n == 0 then 1 else 2 * Pow2(n - 1) }

  function OnByte(op: BitOp, a: Byte, b: Byte): Byte {
    assert Pow2(8) == 0x100;
    OnWord(op, a, b, 8)
  }

  function OnBytes(op: BitOp, data: seq<Byte>, mask: seq<Byte>): (r: seq<Byte>)
    requires |data| == |mask|
    ensures |r| == |data|
  {
    seq(|data|, i requires 0 <= i < |data| => OnByte(op, data[i], mask[i]))
  }

  lemma {:induction false} XorTwice(a: nat, b: nat, width: nat)
    requires a < Pow2(width)
    ensures OnWord(Xor, OnWord(Xor, a, b, width), b, width) == a
  {
    if width > 0 {
      XorTwice(a / 2, b / 2, width - 1);
    }
  }

  lemma {:induction false} XorZero(a: nat, width: nat)
    requires a < Pow2(width)
    ensures OnWord(Xor, a, 0, width) == a
  {
    if width > 0 {
      XorZero(a / 2, width - 1);
    }
  }

  lemma {:induction false} XorAssociative(a: nat, b: nat, c: nat, width: nat)
    ensures OnWord(Xor, OnWord(Xor, a, b, width), c, width) == OnWord(Xor, a, OnWord(Xor, b, c, width), width)
  {
    if width > 0 {
      XorAssociative(a / 2, b / 2, c / 2, width - 1);
    }
  }

  /** Toggling the same bits twice gives every byte back. */
  lemma XorBytesTwice(data: seq<Byte>, mask: seq<Byte>)
    requires |data| == |mask|
    ensures OnBytes(Xor, OnBytes(Xor, data, mask), mask) == data
  {
    assert Pow2(8) == 0x100;
    forall i | 0 <= i < |data|
      ensures OnByte(Xor, OnByte(Xor, data[i], mask[i]), mask[i]) == data[i]
    {
      XorTwice(data[i], mask[i], 8);
    }
  }

  lemma XorBytesZero(data: seq<Byte>)
    ensures OnBytes(Xor, data, Zeros(|data|)) == data
  {
    assert Pow2(8) == 0x100;
    forall i | 0 <= i < |data|
      ensures OnByte(Xor, data[i], 0) == data[i]
    {
      XorZero(data[i], 8);
    }
  }
}
