/** MD5 as md5.c computes it, piece by piece, against the one-shot digest of RFC 1321.
    The 64 steps on a decoded block are a parameter: every result holds for any such function. */
module Md5 {
  import opened Bytes

  datatype State = State(a: U32, b: U32, c: U32, d: U32)

  /** The steps of section 3.4 of RFC 1321: four state words and sixteen block words to a new state. */
  type Compress = (State, seq<U32>) -> State

  function InitState(): State { State(0x67452301, 0xefcdab89, 0x98badcfe, 0x10325476) }

  // ----- The one-shot definition -----

  function WordBytes(w: U32): seq<Byte> {
    [w % 0x100, w / 0x100 % 0x100, w / 0x1_0000 % 0x100, w / 0x100_0000 % 0x100]
  }

  function BytesWord(s: seq<Byte>): U32
    requires |s| == 4
  {
    s[0] as int + 0x100 * s[1] as int + 0x1_0000 * s[2] as int + 0x100_0000 * s[3] as int
  }

  function EncodeWords(ws: seq<U32>): (s: seq<Byte>)
    ensures |s| == 4 * |ws|
  {
    if ws == [] then [] else EncodeWords(ws[..|ws| - 1]) + WordBytes(ws[|ws| - 1])
  }

  function DecodeWords(s: seq<Byte>): (ws: seq<U32>)
    requires |s| % 4 == 0
    ensures |ws| == |s| / 4
  {
    if s == [] then [] else DecodeWords(s[..|s| - 4]) + [BytesWord(s[|s| - 4..])]
  }

  /** How many bytes bring a message of n bytes to 56 modulo 64, at least one. */
  function PadLength(n: nat): (p: nat)
    ensures 1 <= p <= 64 && (n + p) % 64 == 56
  {
    var p := 64 - (n + 8) % 64;
    assert (n + p) % 64 == 56 by {
      assert n + p == 64 * ((n + 8) / 64) + 56;
    }
    p
  }

  function Padding(n: nat): (s: seq<Byte>)
    ensures |s| == PadLength(n)
  {
    [0x80] + Zeros(PadLength(n) - 1)
  }

  /** The length in bits modulo 2^64, least significant byte first. */
  function LengthBytes(n: nat): (s: seq<Byte>)
    ensures |s| == 8
  {
    EncodeWords([8 * n % 0x1_0000_0000, 8 * n / 0x1_0000_0000 % 0x1_0000_0000])
  }

  /** The state after the complete 64-byte blocks of m; a shorter tail is not looked at. */
  function Absorb(f: Compress, s: State, m: seq<Byte>): State
    decreases |m|
  {
    if |m| < 64 then s else Absorb(f, f(s, DecodeWords(m[..64])), m[64..])
  }

  function StateBytes(s: State): seq<Byte> {
    EncodeWords([s.a, s.b, s.c, s.d])
  }

  /** The state after the complete blocks of a message. */
  function Absorbed(f: Compress, m: seq<Byte>): State { Absorb(f, InitState(), m) }

  /** Sections 3.1 to 3.5 of RFC 1321. */
  function Digest(f: Compress, m: seq<Byte>): seq<Byte> {
    StateBytes(Absorbed(f, m + Padding(|m|) + LengthBytes(|m|)))
  }

  function Tail(m: seq<Byte>): (t: seq<Byte>)
    ensures |t| == |m| % 64
  {
    m[|m| / 64 * 64..]
  }

  // ----- Facts about it -----

  lemma {:induction false} AbsorbConcat(f: Compress, s: State, x: seq<Byte>, y: seq<Byte>)
    requires |x| % 64 == 0
    ensures Absorb(f, s, x + y) == Absorb(f, Absorb(f, s, x), y)
    decreases |x|
  {
    if x == [] {
      assert x + y == y;
    } else {
      AbsorbConcat(f, f(s, DecodeWords(x[..64])), x[64..], y);
      assert (x + y)[..64] == x[..64] && (x + y)[64..] == x[64..] + y;
    }
  }

  lemma AbsorbOne(f: Compress, s: State, block: seq<Byte>)
    requires |block| == 64
    ensures Absorb(f, s, block) == f(s, DecodeWords(block))
  {
    assert block[..64] == block && block[64..] == [];
    assert Absorb(f, f(s, DecodeWords(block)), []) == f(s, DecodeWords(block));
  }

  /** Only the tail matters for what follows: absorbing m, then t after it. */
  lemma AbsorbTail(f: Compress, s: State, m: seq<Byte>, t: seq<Byte>)
    ensures Absorb(f, s, m + t) == Absorb(f, Absorb(f, s, m), Tail(m) + t)
  {
    var k := |m| / 64 * 64;
    AbsorbConcat(f, s, m[..k], m[k..]);
    AbsorbConcat(f, s, m[..k], m[k..] + t);
    assert m[..k] + m[k..] == m && m[..k] + (m[k..] + t) == m + t;
  }

  /** Encode and Decode undo each other. */
  lemma {:induction false} DecodeEncode(ws: seq<U32>)
    ensures DecodeWords(EncodeWords(ws)) == ws
  {
    if ws != [] {
      var s := EncodeWords(ws);
      DecodeEncode(ws[..|ws| - 1]);
      assert s[..|s| - 4] == EncodeWords(ws[..|ws| - 1]);
      assert s[|s| - 4..] == WordBytes(ws[|ws| - 1]);
      WordRoundTrip(ws[|ws| - 1]);
    }
  }

  lemma WordRoundTrip(w: U32)
    ensures BytesWord(WordBytes(w)) == w
  {
    var q1 := w / 0x100;
    var q2 := w / 0x1_0000;
    var q3 := w / 0x100_0000;
    assert w == 0x100 * q1 + w % 0x100;
    assert q2 == q1 / 0x100 && q3 == q2 / 0x100;
    assert q3 % 0x100 == q3;
  }

  // ----- The streaming implementation -----

  /** The word-to-byte loop of md5.c. */
  method Encode(output: array<Byte>, input: seq<U32>)
    requires output.Length >= 4 * |input|
    modifies output
    ensures output[..4 * |input|] == EncodeWords(input)
    ensures output[4 * |input|..] == old(output[4 * |input|..])
  {
    var i, j := 0, 0;
    while j < 4 * |input|
      invariant 0 <= i <= |input| && j == 4 * i
      invariant output[..j] == EncodeWords(input[..i])
      invariant output[4 * |input|..] == old(output[4 * |input|..])
    {
      assert input[..i + 1][..i] == input[..i];
      output[j] := input[i] % 0x100;
      output[j + 1] := input[i] / 0x100 % 0x100;
      output[j + 2] := input[i] / 0x1_0000 % 0x100;
      output[j + 3] := input[i] / 0x100_0000 % 0x100;
      assert output[..j + 4] == output[..j] + WordBytes(input[i]);
      i, j := i + 1, j + 4;
    }
    assert input[..i] == input;
  }

  lemma DecodeSnoc(input: seq<Byte>, j: nat)
    requires j % 4 == 0 && j + 4 <= |input|
    ensures DecodeWords(input[..j + 4]) == DecodeWords(input[..j]) + [BytesWord(input[j..j + 4])]
  {
    assert input[..j + 4][..j] == input[..j] && input[..j + 4][j..] == input[j..j + 4];
  }

  /** The byte-to-word loop of md5.c. */
  method Decode(output: array<U32>, input: seq<Byte>)
    requires |input| == 4 * output.Length
    modifies output
    ensures output[..] == DecodeWords(input)
  {
    hide DecodeWords;
    DecodeEmpty(input);
    var i, j := 0, 0;
    while j < |input|
      invariant 0 <= i <= output.Length && j == 4 * i
      invariant output[..i] == DecodeWords(input[..j])
    {
      DecodeSnoc(input, j);
      output[i] := input[j] as int + 0x100 * input[j + 1] as int + 0x1_0000 * input[j + 2] as int
        + 0x100_0000 * input[j + 3] as int;
      assert output[..i + 1] == output[..i] + [BytesWord(input[j..j + 4])];
      i, j := i + 1, j + 4;
    }
    assert output[..i] == output[..] && input[..j] == input;
  }

  lemma DecodeEmpty(input: seq<Byte>)
    ensures DecodeWords(input[..0]) == []
  {}

  /** The two counter words as one number, and what it has to be after n bytes. */
  function Counter(c0: U32, c1: U32): nat { c0 + 0x1_0000_0000 * c1 }

  function BitCount(n: nat): nat { 8 * n % 0x1_0000_0000_0000_0000 }

  class Context {
    const f: Compress
    var state: State
    var count0: U32
    var count1: U32
    const buffer: array<Byte>
    /** The bytes given to Update so far. */
    ghost var msg: seq<Byte>

    ghost predicate Valid()
      reads this, buffer
    {
      && buffer.Length == 64
      && state == Absorbed(f, msg)
      && Counter(count0, count1) == BitCount(|msg|)
      && buffer[..|msg| % 64] == Tail(msg)
    }

    constructor (f: Compress)
      ensures Valid() && msg == [] && this.f == f && fresh(buffer)
    {
      this.f := f;
      count0, count1 := 0, 0;
      state := InitState();
      buffer := new Byte[64](_ => 0);
      msg := [];
    }

    method Transform(block: seq<Byte>)
      requires |block| == 64
      modifies this`state
      ensures state == f(old(state), DecodeWords(block))
    {
      var x := new U32[16];
      Decode(x, block);
      state := f(state, x[..]);
    }

    /** The counter as a 64-bit number, and where it stands in the buffer. */
    method AddCount(inputLen: U32) returns (index: nat)
      requires Valid()
      modifies this`count0, this`count1
      ensures Counter(count0, count1) == BitCount(|msg| + inputLen)
      ensures index == |msg| % 64
    {
      hide Counter, BitCount;
      CountIndex(count0, count1, |msg|);
      index := count0 / 8 % 64;
      var shifted := inputLen * 8 % 0x1_0000_0000;
      CountCarry(count0, count1, |msg|, inputLen);
      count0 := (count0 + shifted) % 0x1_0000_0000;
      if count0 < shifted {
        count1 := (count1 + 1) % 0x1_0000_0000;
      }
      count1 := (count1 + inputLen / 0x2000_0000) % 0x1_0000_0000;
    }

    /** As many whole blocks as the input still holds from position `start` on. */
    method TransformBlocks(input: seq<Byte>, start: nat) returns (i: nat)
      requires start <= |input| && |input| + 63 < 0x1_0000_0000
      requires (|msg| + start) % 64 == 0
      requires state == Absorbed(f, msg + input[..start])
      modifies this`state
      ensures start <= i <= |input| < i + 64 && (|msg| + i) % 64 == 0
      ensures state == Absorbed(f, msg + input[..i])
    {
      i := start;
      while i + 63 < |input|
        invariant start <= i <= |input|
        invariant (|msg| + i) % 64 == 0
        invariant state == Absorbed(f, msg + input[..i])
      {
        AbsorbMore(f, InitState(), msg, input, i);
        Transform(input[i..i + 64]);
        i := i + 64;
      }
    }

    /** The memcpy into the buffer. */
    method Fill(index: nat, data: seq<Byte>)
      requires buffer.Length == 64 && index + |data| <= 64
      modifies buffer
      ensures buffer[..index + |data|] == old(buffer[..index]) + data
    {
      forall k | 0 <= k < |data| { buffer[index + k] := data[k]; }
    }

    /** The first branch of the update: the block begun in the buffer, then the whole blocks of
        the input. The bytes from `i` on are left to be buffered. */
    method TransformAll(input: seq<Byte>, index: nat) returns (i: nat)
      requires buffer.Length == 64 && index == |msg| % 64 && buffer[..index] == Tail(msg)
      requires state == Absorbed(f, msg)
      requires 64 - index <= |input| && |input| + 63 < 0x1_0000_0000
      modifies this`state, buffer
      ensures state == Absorbed(f, msg + input)
      ensures i <= |input| && input[i..] == Tail(msg + input)
    {
      var partLen := 64 - index;
      AbsorbFirst(f, InitState(), msg, input, partLen);
      Fill(index, input[..partLen]);
      assert buffer[..] == buffer[..64];
      Transform(buffer[..]);
      i := TransformBlocks(input, partLen);
      AbsorbEnd(f, InitState(), msg, input, i);
    }

    /** Any split of the message into calls leaves the same state as one call. The bound keeps
        `i + 63` within 32 bits. */
    method Update(input: seq<Byte>)
      requires Valid()
      requires |input| + 63 < 0x1_0000_0000
      modifies this, buffer
      ensures Valid() && msg == old(msg) + input
    {
      hide Counter, BitCount, Absorb, Tail;
      var i := 0;
      var index := AddCount(|input|);
      var partLen := 64 - index;
      if |input| >= partLen {
        i := TransformAll(input, index);
        index := 0;
      } else {
        AbsorbNone(f, InitState(), msg, input);
      }
      Fill(index, input[i..]);
      msg := msg + input;
    }

    /** Pads out to 56 modulo 64. */
    method Pad()
      requires Valid()
      modifies this, buffer
      ensures Valid() && msg == old(msg) + Padding(|old(msg)|)
    {
      hide Absorb, Tail, Counter, BitCount;
      CountIndex(count0, count1, |msg|);
      var index := count0 / 8 % 64;
      var padLen := if index < 56 then 56 - index else 120 - index;
      PadLengthIs(|msg|, padLen);
      var PADDING := [0x80] + Zeros(63);
      assert PADDING[..padLen] == Padding(|msg|);
      Update(PADDING[..padLen]);
    }

    /** Padding and length, then the digest; the context is wiped. */
    method Final(digest: array<Byte>)
      requires Valid() && digest.Length >= 16 && digest != buffer
      modifies this, buffer, digest
      ensures digest[..16] == Digest(f, old(msg))
      ensures digest[16..] == old(digest[16..])
      ensures state == State(0, 0, 0, 0) && count0 == count1 == 0 && buffer[..] == Zeros(64)
    {
      hide Absorb, Absorbed, EncodeWords, Tail, Counter, BitCount, PadLength, Padding;
      ghost var m := msg;
      CountWords(count0, count1, |m|);
      var bits := new Byte[8];
      Encode(bits, [count0, count1]);
      assert bits[..] == bits[..8];
      Pad();
      Update(bits[..]);
      Encode(digest, [state.a, state.b, state.c, state.d]);
      state, count0, count1 := State(0, 0, 0, 0), 0, 0;
      forall k | 0 <= k < buffer.Length { buffer[k] := 0; }
      assert buffer[..] == Zeros(64);
    }
  }

  lemma EightTimes(c0: int, n: int, k: int)
    requires c0 == 8 * (n - 0x2000_0000 * k)
    ensures c0 / 8 == n - 0x2000_0000 * k && c0 / 8 % 64 == n % 64
  {
    var r := n - 0x2000_0000 * k;
    assert n == 64 * (r / 64 + 0x80_0000 * k) + r % 64;
  }

  lemma CountIndex(c0: U32, c1: U32, n: nat)
    requires Counter(c0, c1) == BitCount(n)
    ensures c0 / 8 % 64 == n % 64
  {
    var q := 8 * n / 0x1_0000_0000_0000_0000;
    assert 8 * n == 0x1_0000_0000_0000_0000 * q + c0 + 0x1_0000_0000 * c1;
    EightTimes(c0, n, 0x1_0000_0000 * q + c1);
  }

  lemma CountWords(c0: U32, c1: U32, n: nat)
    requires Counter(c0, c1) == BitCount(n)
    ensures c0 == 8 * n % 0x1_0000_0000 && c1 == 8 * n / 0x1_0000_0000 % 0x1_0000_0000
  {
    var q := 8 * n / 0x1_0000_0000_0000_0000;
    assert 8 * n == c0 + 0x1_0000_0000 * (c1 + 0x1_0000_0000 * q);
    assert 8 * n / 0x1_0000_0000 == c1 + 0x1_0000_0000 * q;
  }

  lemma Split64(x: nat)
    ensures x == 0x1_0000_0000_0000_0000 * (x / 0x1_0000_0000_0000_0000) + x % 0x1_0000_0000_0000_0000
  {}

  lemma Reduce64(x: int, q: int, r: int)
    requires x == 0x1_0000_0000_0000_0000 * q + r && 0 <= r < 0x1_0000_0000_0000_0000
    ensures x % 0x1_0000_0000_0000_0000 == r
  {}

  lemma AddWords(a: U32, b: U32)
    ensures
      var d := (a + b) % 0x1_0000_0000;
      a + b == d + (if d < b then 0x1_0000_0000 else 0)
  {}

  lemma WrapWord(x: nat) returns (over: nat)
    requires x < 0x2_0000_0000
    ensures x == x % 0x1_0000_0000 + 0x1_0000_0000 * over
  {
    over := if x < 0x1_0000_0000 then 0 else 1;
  }

  /** Two words and two words, with the carry from the lower to the upper. */
  lemma Carries(c0: U32, c1: U32, a0: U32, a1: U32) returns (over: nat)
    requires a1 < 0x1000_0000
    ensures
      var d0 := (c0 + a0) % 0x1_0000_0000;
      var carried := if d0 < a0 then (c1 + 1) % 0x1_0000_0000 else c1;
      var d1 := (carried + a1) % 0x1_0000_0000;
      d0 + 0x1_0000_0000 * d1 + 0x1_0000_0000_0000_0000 * over == c0 + 0x1_0000_0000 * c1 + a0 + 0x1_0000_0000 * a1
  {
    AddWords(c0, a0);
    var carry := if (c0 + a0) % 0x1_0000_0000 < a0 then 1 else 0;
    var over0 := WrapWord(c1 + carry);
    var over1 := WrapWord((c1 + carry) % 0x1_0000_0000 + a1);
    over := over0 + over1;
  }

  lemma ShiftedWord(len: U32)
    ensures 8 * len == len * 8 % 0x1_0000_0000 + 0x1_0000_0000 * (len / 0x2000_0000)
    ensures len / 0x2000_0000 < 8
  {}

  /** The two-word addition with its carry is addition modulo 2^64. */
  lemma CountCarry(c0: U32, c1: U32, n: nat, len: U32)
    requires Counter(c0, c1) == BitCount(n)
    ensures
      var shifted := len * 8 % 0x1_0000_0000;
      var d0 := (c0 + shifted) % 0x1_0000_0000;
      var carried := if d0 < shifted then (c1 + 1) % 0x1_0000_0000 else c1;
      var d1 := (carried + len / 0x2000_0000) % 0x1_0000_0000;
      Counter(d0, d1) == BitCount(n + len)
  {
    ShiftedWord(len);
    var shifted, top := len * 8 % 0x1_0000_0000, len / 0x2000_0000;
    var over := Carries(c0, c1, shifted, top);
    var d0 := (c0 + shifted) % 0x1_0000_0000;
    var d1 := ((if d0 < shifted then (c1 + 1) % 0x1_0000_0000 else c1) + top) % 0x1_0000_0000;
    Split64(8 * n);
    Reduce64(8 * (n + len), 8 * n / 0x1_0000_0000_0000_0000 + over, d0 + 0x1_0000_0000 * d1);
  }

  lemma WholeBlocks(a: nat, b: nat)
    requires a % 64 == 0
    ensures (a + b) / 64 * 64 == a + b / 64 * 64 && (a + b) % 64 == b % 64
  {}

  lemma PadLengthIs(n: nat, p: nat)
    requires p == (if n % 64 < 56 then 56 - n % 64 else 120 - n % 64)
    ensures p == PadLength(n)
  {
    assert (n + 8) % 64 == if n % 64 < 56 then n % 64 + 8 else n % 64 - 56;
  }

  /** The block completed in the buffer. */
  lemma AbsorbFirst(f: Compress, s: State, m: seq<Byte>, t: seq<Byte>, p: nat)
    requires p <= |t| && p == 64 - |m| % 64
    ensures |Tail(m) + t[..p]| == 64 && (|m| + p) % 64 == 0
    ensures Absorb(f, s, m + t[..p]) == f(Absorb(f, s, m), DecodeWords(Tail(m) + t[..p]))
  {
    AbsorbTail(f, s, m, t[..p]);
    AbsorbOne(f, Absorb(f, s, m), Tail(m) + t[..p]);
    WholeBlocks(|m| / 64 * 64, 64);
  }

  /** One more block taken straight from the input. */
  lemma AbsorbMore(f: Compress, s: State, m: seq<Byte>, t: seq<Byte>, i: nat)
    requires i + 64 <= |t| && (|m| + i) % 64 == 0
    ensures Absorb(f, s, m + t[..i + 64]) == f(Absorb(f, s, m + t[..i]), DecodeWords(t[i..i + 64]))
    ensures (|m| + i + 64) % 64 == 0
  {
    var x, y := m + t[..i], t[i..i + 64];
    AbsorbConcat(f, s, x, y);
    AbsorbOne(f, Absorb(f, s, x), y);
    assert x + y == m + t[..i + 64];
    WholeBlocks(|m| + i, 64);
  }

  /** The rest of the input is the new tail. */
  lemma AbsorbEnd(f: Compress, s: State, m: seq<Byte>, t: seq<Byte>, i: nat)
    requires i <= |t| < i + 64 && (|m| + i) % 64 == 0
    ensures Absorb(f, s, m + t) == Absorb(f, s, m + t[..i])
    ensures Tail(m + t) == t[i..] && |m + t| % 64 == |t| - i
  {
    hide Absorb;
    AbsorbConcat(f, s, m + t[..i], t[i..]);
    AbsorbShort(f, Absorb(f, s, m + t[..i]), t[i..]);
    assert (m + t[..i]) + t[i..] == m + t;
    WholeBlocks(|m| + i, |t| - i);
    assert (m + t)[|m| + i..] == t[i..];
  }

  lemma AbsorbShort(f: Compress, s: State, m: seq<Byte>)
    requires |m| < 64
    ensures Absorb(f, s, m) == s
  {}

  lemma AbsorbNone(f: Compress, s: State, m: seq<Byte>, t: seq<Byte>)
    requires |t| < 64 - |m| % 64
    ensures Absorb(f, s, m + t) == Absorb(f, s, m)
    ensures Tail(m + t) == Tail(m) + t && |m + t| % 64 == |m| % 64 + |t|
  {
    hide Absorb;
    AbsorbTail(f, s, m, t);
    AbsorbShort(f, Absorb(f, s, m), Tail(m) + t);
    var k := |m| / 64 * 64;
    assert |m + t| == k + (|m| % 64 + |t|);
    WholeBlocks(k, |m| % 64 + |t|);
    assert (m + t)[k..] == m[k..] + t;
  }

  /** For every way of cutting a message into calls, the digest is the one-shot digest. */
  method DigestOfChunks(f: Compress, chunks: seq<seq<Byte>>) returns (digest: seq<Byte>)
    requires forall i :: 0 <= i < |chunks| ==> |chunks[i]| + 63 < 0x1_0000_0000
    ensures digest == Digest(f, Flatten(chunks))
  {
    var context := new Context(f);
    for i := 0 to |chunks|
      invariant context.Valid() && fresh(context) && fresh(context.buffer)
      invariant context.f == f && context.msg == Flatten(chunks[..i])
    {
      FlattenSnoc(chunks[..i], chunks[i]);
      assert chunks[..i + 1] == chunks[..i] + [chunks[i]];
      context.Update(chunks[i]);
    }
    assert chunks[..|chunks|] == chunks;
    var out := new Byte[16];
    context.Final(out);
    digest := out[..];
    assert out[..16] == out[..];
  }
}
