/** The buffered console: ring buffers in both directions, and the printing of numbers. */
module Uart {
  import opened Arithmetic
  import opened Bytes

  const CR: Byte := 13
  const LF: Byte := 10

  // ----- Ring buffers -----

  /** Advancing an index wraps at the end of the buffer. */
  lemma Advance(index: nat, size: nat)
    requires index < size
    ensures (index + 1) % size == if index + 1 < size then index + 1 else 0
  {}

  /** Where the k-th byte from `index` on is. */
  function At(index: nat, k: nat, size: nat): (i: nat)
    requires index < size && k < size
    ensures i < size
  {
    if index + k < size then index + k else index + k - size
  }

  class Ring {
    const data: array<Byte>
    var read: nat
    var write: nat

    ghost predicate Valid()
      reads this
    {
      read < data.Length && write < data.Length
    }

    constructor (size: nat)
      requires size > 0
      ensures Valid() && Contents() == [] && data.Length == size && fresh(data)
    {
      data := new Byte[size](_ => 0);
      read, write := 0, 0;
    }

    /** How many bytes there are, by the indices. */
    function Count(): (n: nat)
      requires Valid()
      reads this
      ensures n < data.Length
      ensures write == if read + n < data.Length then read + n else read + n - data.Length
    {
      if write >= read then write - read else data.Length - (read - write)
    }

    ghost function Contents(): (s: seq<Byte>)
      requires Valid()
      reads this, data
      ensures |s| == Count()
      ensures forall k :: 0 <= k < |s| ==> s[k] == data[At(read, k, data.Length)]
    {
      if read <= write then data[read..write] else data[read..] + data[..write]
    }

    predicate IsFull()
      requires Valid()
      reads this
      ensures IsFull() <==> Count() == data.Length - 1
    {
      Advance(write, data.Length);
      (write + 1) % data.Length == read
    }

    predicate IsEmpty()
      requires Valid()
      reads this
      ensures IsEmpty() <==> Count() == 0
    {
      write == read
    }

    method Put(c: Byte)
      requires Valid() && !IsFull()
      modifies this`write, data
      ensures Valid() && Contents() == old(Contents()) + [c]
    {
      Advance(write, data.Length);
      data[write] := c;
      write := (write + 1) % data.Length;
    }

    method Take() returns (c: Byte)
      requires Valid() && !IsEmpty()
      modifies this`read
      ensures Valid() && old(Contents()) == [c] + Contents()
    {
      Advance(read, data.Length);
      c := data[read];
      read := (read + 1) % data.Length;
    }

    /** Looks ahead for a byte without reading any. */
    method Peek(c: Byte) returns (i: int)
      requires Valid()
      ensures i == -1 ==> c !in Contents()
      ensures i != -1 ==> 0 <= i < |Contents()| && Contents()[i] == c && c !in Contents()[..i]
    {
      var avail := Count();
      var index := read;
      i := 0;
      while i < avail
        invariant 0 <= i <= avail && (i < avail ==> index == At(read, i, data.Length))
        invariant c !in Contents()[..i]
      {
        assert Contents()[i] == data[index];
        if data[index] == c { return; }
        Advance(index, data.Length);
        index := (index + 1) % data.Length;
        i := i + 1;
      }
      i := -1;
    }
  }

  // ----- Writing and transmitting -----

  /** Every line feed comes out with a carriage return before it. */
  function Expand(s: seq<Byte>): seq<Byte>
    decreases |s|
  {
    if s == [] then []
    else Expand(s[..|s| - 1]) + if s[|s| - 1] == LF then [CR, LF] else [s[|s| - 1]]
  }

  lemma ExpandNext(s: seq<Byte>, k: nat)
    requires k < |s|
    ensures Expand(s[..k + 1]) == Expand(s[..k]) + if s[k] == LF then [CR, LF] else [s[k]]
    ensures Expand(s[..0]) == []
  {
    assert s[..k + 1][..k] == s[..k];
  }

  lemma {:induction false} ExpandPrefix(s: seq<Byte>, k: nat)
    requires k <= |s|
    ensures Expand(s[..k]) <= Expand(s)
    decreases |s| - k
  {
    assert s[..|s|] == s;
    if k < |s| {
      ExpandNext(s, k);
      ExpandPrefix(s, k + 1);
      hide Expand;
      var one, two := Expand(s[..k]), Expand(s[..k + 1]);
      assert Expand(s)[..|two|] == two && two[..|one|] == one;
    }
  }

  /** What the k-th byte of the text becomes, and where in the expanded text. */
  lemma ExpandAt(s: seq<Byte>, k: nat)
    requires k < |s|
    ensures
      var all, p := Expand(s), |Expand(s[..k])|;
      if s[k] == LF then p + 1 < |all| && all[p] == CR && all[p + 1] == LF && |Expand(s[..k + 1])| == p + 2
      else p < |all| && all[p] == s[k] && |Expand(s[..k + 1])| == p + 1
  {
    ExpandNext(s, k);
    ExpandPrefix(s, k + 1);
    hide Expand;
    var all, next := Expand(s), Expand(s[..k + 1]);
    assert forall i :: 0 <= i < |next| ==> all[i] == next[i];
  }

  /** What was there, then the first n of the bytes, or all of them if they are fewer. */
  function Followed(was: seq<Byte>, bytes: seq<Byte>, n: nat): seq<Byte> { was + bytes[..Least(n, |bytes|)] }

  lemma FollowedNone(was: seq<Byte>, bytes: seq<Byte>)
    ensures Followed(was, bytes, 0) == was
  {}

  lemma FollowedNext(was: seq<Byte>, bytes: seq<Byte>, n: nat)
    requires n < |bytes|
    ensures Followed(was, bytes, n) + [bytes[n]] == Followed(was, bytes, n + 1)
  {}

  lemma FollowedAll(was: seq<Byte>, bytes: seq<Byte>, n: nat)
    requires n >= |bytes|
    ensures Followed(was, bytes, n) == Followed(was, bytes, |bytes|)
  {}

  class Console {
    const tx: Ring
    /** What has gone into the UART so far, and what all the writes so far have put in the buffer. */
    var sent: seq<Byte>
    ghost var accepted: seq<Byte>

    /** Nothing accepted is lost, doubled or reordered, and one slot of the ring stays free. */
    ghost predicate Valid()
      reads this, tx, tx.data
    {
      tx.Valid() && accepted == sent + tx.Contents() && |tx.Contents()| <= tx.data.Length - 1
    }

    constructor (size: nat)
      requires size > 0
      ensures Valid() && accepted == [] && tx.data.Length == size && fresh(tx) && fresh(tx.data)
    {
      tx := new Ring(size);
      sent, accepted := [], [];
    }

    /** As many bytes as the UART has room for go from the buffer into it. */
    method PrimeTransmit(space: nat)
      requires Valid()
      modifies this`sent, tx`read
      ensures Valid() && accepted == old(accepted)
      ensures |old(tx.Contents())| == |accepted| - |old(sent)|
      ensures |sent| == |old(sent)| + Least(space, |old(tx.Contents())|)
    {
      ghost var all := |tx.Contents()|;
      if !tx.IsEmpty() {
        var left := space;
        while left > 0 && !tx.IsEmpty()
          invariant Valid() && 0 <= left <= space && accepted == old(accepted)
          invariant |sent| == |old(sent)| + (space - left) && |tx.Contents()| == all - (space - left)
        {
          var c := tx.Take();
          Append(sent, c, tx.Contents());
          sent := sent + [c];
          left := left - 1;
        }
      }
    }

    lemma TxValid()
      requires Valid()
      ensures tx.Valid() && |tx.Contents()| <= tx.data.Length - 1
      ensures |accepted| == |sent| + |tx.Contents()|
    {}

    /** The free slots get the beginning of the expanded text; the rest is discarded. The text may
        hold null characters. */
    method Fill(buf: seq<Byte>) returns (count: nat)
      requires Valid()
      modifies this`accepted, tx`write, tx.data
      ensures Valid() && sent == old(sent)
      ensures
        var free: nat := tx.data.Length - 1 - |old(tx.Contents())|;
        var bytes := Expand(buf);
        && accepted == Followed(old(accepted), bytes, free)
        && count <= |buf| && |Expand(buf[..count])| <= free
        && (count < |buf| ==> |Expand(buf[..count + 1])| > free)
    {
      hide Valid, Ring.Contents, Expand, Followed;
      TxValid();
      ghost var used := |tx.Contents()|;
      ghost var bytes, was := Expand(buf), accepted;
      ExpandNone(buf[..0]);
      count := 0;
      ghost var put: nat := 0;
      FollowedNone(was, bytes);
      while count < |buf|
        invariant count <= |buf| && Valid() && tx.Valid() && sent == old(sent)
        invariant put == |Expand(buf[..count])| <= |bytes| && |tx.Contents()| == used + put
        invariant accepted == Followed(was, bytes, put)
      {
        ExpandAt(buf, count);
        if buf[count] == LF {
          var room := PutIfRoom(CR, was, bytes, put);
          if !room { return; }
          put := put + 1;
        }
        var room := PutIfRoom(buf[count], was, bytes, put);
        if !room { return; }
        put := put + 1;
        count := count + 1;
      }
      assert buf[..count] == buf;
      FollowedAll(was, bytes, tx.data.Length - 1 - used);
    }

    /** The next byte of the text into the buffer, unless that is full. */
    method PutIfRoom(c: Byte, ghost was: seq<Byte>, ghost bytes: seq<Byte>, ghost put: nat) returns (room: bool)
      requires Valid() && put < |bytes| && c == bytes[put] && accepted == Followed(was, bytes, put)
      modifies this`accepted, tx`write, tx.data
      ensures Valid() && tx.Valid() && sent == old(sent)
      ensures room ==> accepted == Followed(was, bytes, put + 1) && |tx.Contents()| == |old(tx.Contents())| + 1
      ensures !room ==> accepted == Followed(was, bytes, put)
      ensures !room ==> |tx.Contents()| == |old(tx.Contents())| == tx.data.Length - 1
    {
      if tx.IsFull() { return false; }
      tx.Put(c);
      FollowedNext(was, bytes, put);
      accepted := accepted + [c];
      room := true;
    }

    /** Fills the buffer, then starts transmitting. */
    method Write(buf: seq<Byte>, space: nat) returns (count: nat)
      requires Valid()
      modifies this, tx, tx.data
      ensures Valid()
      ensures |accepted| >= |old(sent)| && |sent| == |old(sent)| + Least(space, |accepted| - |old(sent)|)
      ensures
        var free: nat := tx.data.Length - 1 - |old(tx.Contents())|;
        var bytes := Expand(buf);
        && accepted == Followed(old(accepted), bytes, free)
        && count <= |buf| && |Expand(buf[..count])| <= free
        && (count < |buf| ==> |Expand(buf[..count + 1])| > free)
    {
      hide Ring.Contents, Expand, Followed;
      count := Fill(buf);
      TxValid();
      if !tx.IsEmpty() {
        PrimeTransmit(space);
      }
    }
  }

  lemma ExpandNone(s: seq<Byte>)
    requires s == []
    ensures Expand(s) == []
  {}

  lemma Append(s: seq<Byte>, c: Byte, t: seq<Byte>)
    ensures s + ([c] + t) == (s + [c]) + t
  {}

  // ----- Numbers -----

  const WORD := 0x1_0000_0000

  function Hex(d: nat): char
    requires d < 16
  {
    "0123456789abcdef"[d]
  }

  /** The digits of a number, most significant first. */
  function Numeral(value: nat, base: nat): (s: string)
    requires 2 <= base <= 16
    ensures |s| >= 1
  {
    if value < base then [Hex(value)] else Numeral(value / base, base) + [Hex(value % base)]
  }

  function DigitOf(c: char): nat {
    if '0' <= c <= '9' then c as nat - '0' as nat else if 'a' <= c <= 'f' then c as nat - 'a' as nat + 10 else 0
  }

  /** What a row of digits stands for. */
  function Eval(s: string, base: nat): nat
    decreases |s|
  {
    if s == [] then 0 else Eval(s[..|s| - 1], base) * base + DigitOf(s[|s| - 1])
  }

  lemma HexDigit(d: nat)
    requires d < 16
    ensures DigitOf(Hex(d)) == d && (d > 0 ==> Hex(d) != '0')
  {}

  lemma EvalNext(s: string, c: char, base: nat)
    ensures Eval(s + [c], base) == Eval(s, base) * base + DigitOf(c)
    ensures Eval([c], base) == DigitOf(c)
  {
    assert (s + [c])[..|s|] == s && [c][..0] == [];
  }

  lemma Smaller(value: nat, base: nat)
    requires 2 <= base
    ensures 0 <= value / base && 0 <= value % base < base && value / base * base + value % base == value
    ensures value < base ==> value % base == value
    ensures value >= base ==> 0 < value / base < value
  {
    Euclid(value, base);
    if value >= base {
      LargerProduct(value, base);
      DivBounds(value, base, 1, value);
    } else {
      Quotient(value, base, 0, value);
    }
  }

  lemma LargerProduct(value: nat, d: nat)
    requires value > 0 && d >= 2
    ensures value < d * value
  {
    Mono(value, 2, d);
  }

  lemma NumeralIs(value: nat, base: nat)
    requires 2 <= base <= 16
    ensures 0 <= value / base && 0 <= value % base < base && value / base * base + value % base == value
    ensures value < base ==> Numeral(value, base) == [Hex(value)] && value % base == value
    ensures value >= base ==> 0 < value / base < value
    ensures value >= base ==> Numeral(value, base) == Numeral(value / base, base) + [Hex(value % base)]
  {
    Smaller(value, base);
    hide Hex;
  }

  /** The digits stand for the number, and there is no leading zero. */
  lemma {:induction false} NumeralStandsFor(value: nat, base: nat)
    requires 2 <= base <= 16
    ensures Eval(Numeral(value, base), base) == value
    ensures value > 0 ==> Numeral(value, base)[0] != '0'
  {
    NumeralIs(value, base);
    hide Hex, DigitOf, Eval, Numeral;
    HexDigit(value % base);
    if value < base {
      EvalNext([], Hex(value), base);
    } else {
      NumeralStandsFor(value / base, base);
      EvalNext(Numeral(value / base, base), Hex(value % base), base);
    }
  }

  function Pow(base: nat, k: nat): nat { if k == 0 then 1 else Pow(base, k - 1) * base }

  lemma {:induction false} PowPositive(base: nat, k: nat)
    requires base > 0
    ensures Pow(base, k) > 0
  {
    if k > 0 {
      PowPositive(base, k - 1);
    }
  }

  /** A number between two neighbouring powers has that many digits. */
  lemma {:induction false} NumeralLength(value: nat, base: nat, k: nat)
    requires 2 <= base <= 16 && value < Pow(base, k + 1) && (k > 0 ==> Pow(base, k) <= value)
    ensures |Numeral(value, base)| == k + 1
  {
    if k == 0 {
      assert Pow(base, 1) == Pow(base, 0) * base == base;
    } else {
      PowPositive(base, k - 1);
      Quarter(value, base, k);
      NumeralLength(value / base, base, k - 1);
    }
  }

  lemma Quarter(value: nat, base: nat, k: nat)
    requires 2 <= base && k > 0 && Pow(base, k) <= value < Pow(base, k + 1)
    ensures base <= value && Pow(base, k - 1) <= value / base < Pow(base, k)
  {
    PowPositive(base, k - 1);
    var p, q := Pow(base, k - 1), Pow(base, k);
    assert q == p * base && Pow(base, k + 1) == q * base;
    hide Pow;
    Mono(base, 1, p);
    DivBounds(value, base, p, q);
  }

  /** The step of the search: multiplied in 32 bits and divided back, the test never takes a product
      that has wrapped for one that has not. */
  lemma WrappedIsSeen(idx: nat, base: nat, value: U32)
    requires 2 <= base <= 16 && 0 < idx < WORD
    ensures
      var product := idx * base % WORD;
      product <= value && product / base == idx <==> idx * base <= value
  {
    var full := idx * base;
    var q, product := full / WORD, full % WORD;
    Euclid(full, WORD);
    if q == 0 {
      Quotient(full, base, idx, 0);
    } else {
      Euclid(product, base);
      if product / base == idx {
        assert false;
      }
    }
  }

  /** How many fill characters go in: the width left after digits and sign, kept as an unsigned word
      by the code, which also ignores what is left when it is sixteen or more. */
  function PadOf(width: U32, digits: nat, neg: bool): nat {
    var left := (width - (digits - 1) - (if neg then 1 else 0)) % WORD;
    if 1 < left < 16 then left - 1 else 0
  }

  function Repeat(c: char, n: nat): (s: string)
    ensures |s| == n
  {
    seq(n, _ => c)
  }

  /** A number as printed. */
  function Render(value: U32, base: nat, neg: bool, width: U32, fill: char): string
    requires 2 <= base <= 16
  {
    var digits := Numeral(value, base);
    var pad := Repeat(fill, PadOf(width, |digits|, neg));
    if neg && fill == '0' then "-" + pad + digits else pad + (if neg then "-" else "") + digits
  }

  lemma {:induction false} NumeralShort(value: nat, base: nat, k: nat)
    requires 2 <= base <= 16 && value < Pow(base, k) && k > 0
    ensures |Numeral(value, base)| <= k
  {
    NumeralIs(value, base);
    PowNext(base, k);
    hide Numeral, Pow;
    if value >= base {
      PowPositive(base, k - 1);
      DivBounds(value, base, 0, Pow(base, k - 1));
      NumeralShort(value / base, base, k - 1);
    }
  }

  lemma PowNext(base: nat, k: nat)
    requires k > 0
    ensures Pow(base, k) == base * Pow(base, k - 1)
    ensures Pow(base, 0) == 1 && Pow(base, 1) == base
  {
    assert Pow(base, 1) == Pow(base, 0) * base;
  }

  lemma PowsOfTen()
    ensures Pow(10, 10) == 10_000_000_000 && Pow(16, 8) == WORD
  {
    assert Pow(10, 3) == 1000;
    assert Pow(10, 6) == 1_000_000;
    assert Pow(10, 8) == 100_000_000;
    assert Pow(16, 3) == 4096;
    assert Pow(16, 6) == 16_777_216;
  }

  /** The printed text is as wide as asked for, or as its digits and sign need, when it goes into the
      sixteen characters of the buffer. It goes in exactly when no more than sixteen were asked for
      or at least fifteen of them would be fill. */
  lemma RenderedLength(value: U32, base: nat, neg: bool, width: U32, fill: char)
    requires base == 10 || base == 16
    ensures
      var need := |Numeral(value, base)| + if neg then 1 else 0;
      var length := |Render(value, base, neg, width, fill)|;
      && need <= 11
      && (width <= 15 ==> length == if width < need then need else width)
      && (length <= 16 <==> width <= 16 || width - need >= 15)
  {
    PowsOfTen();
    NumeralShort(value, base, if base == 10 then 10 else 8);
    hide Numeral, Pow, PadOf;
    PadFills(width, |Numeral(value, base)|, neg);
  }

  /** A hundred asked for seventeen wide takes one character more than there is room for. */
  lemma HundredTooWide(fill: char)
    ensures |Render(100, 10, false, 17, fill)| == 17
  {
    assert |Numeral(1, 10)| == 1;
    assert |Numeral(10, 10)| == 2;
    assert |Numeral(100, 10)| == 3;
    PadFourteen();
    hide PadOf, Numeral;
  }

  lemma PadFourteen()
    ensures PadOf(17, 3, false) == 14
  {}

  lemma Wrap(x: int)
    requires -WORD <= x < WORD
    ensures x % WORD == if x < 0 then x + WORD else x
  {}

  lemma PadFills(width: U32, digits: nat, neg: bool)
    requires 1 <= digits <= 10
    ensures
      var need := digits + if neg then 1 else 0;
      var length := need + PadOf(width, digits, neg);
      && (width <= 15 ==> length == if width < need then need else width)
      && (length <= 16 <==> width <= 16 || width - need >= 15)
  {
    Wrap(width - (digits - 1) - (if neg then 1 else 0));
  }

  /** The search for the power of the base at the leading digit, counting the width down. */
  method LeadingPower(value: U32, base: nat, width: U32) returns (idx: nat, count: U32, ghost k: nat)
    requires base == 10 || base == 16
    ensures idx == Pow(base, k) < WORD && k + 1 == |Numeral(value, base)|
    ensures count == (width - k) % WORD
    ensures idx <= (if value == 0 then 1 else value) < idx * base
  {
    hide Numeral;
    idx, count, k := 1, width, 0;
    assert Pow(base, 0) == 1;
    WrappedIsSeen(idx, base, value);
    while idx * base % WORD <= value && idx * base % WORD / base == idx
      invariant 0 < idx == Pow(base, k) < WORD && count == (width - k) % WORD
      invariant idx <= value || (idx == 1 && k == 0)
      invariant idx * base % WORD <= value && idx * base % WORD / base == idx <==> idx * base <= value
      decreases value - idx
    {
      Down(width - k);
      idx, count := idx * base % WORD, (count - 1) % WORD;
      k := k + 1;
      WrappedIsSeen(idx, base, value);
    }
    assert Pow(base, k + 1) == idx * base;
    NumeralLength(value, base, k);
  }

  lemma Down(x: int)
    ensures (x % WORD - 1) % WORD == (x - 1) % WORD
  {}

  /** The digits from the leading power down. */
  method Digits(value: U32, base: nat, start: nat, ghost k: nat) returns (s: string)
    requires base == 10 || base == 16
    requires start == Pow(base, k) && k + 1 == |Numeral(value, base)|
    requires start <= (if value == 0 then 1 else value) < start * base
    ensures s == Numeral(value, base)
  {
    hide Pow, Numeral, Hex, DigitsDone;
    s := "";
    DigitsNone(value, base, start);
    var idx: nat := start;
    ghost var j := k;
    while idx > 0
      invariant idx > 0 ==> idx == Pow(base, j) && idx <= start && DigitsDone(s, value, base, idx, start)
      invariant idx == 0 ==> s == Numeral(value, base)
      decreases idx
    {
      DigitNext(s, value, base, idx, j, start);
      s := s + [Hex(value / idx % base)];
      idx := idx / base;
      if j > 0 { j := j - 1; }
    }
  }

  lemma DigitsNone(value: nat, base: nat, start: nat)
    requires 2 <= base <= 16 && start > 0
    ensures DigitsDone("", value, base, start, start)
  {}

  /** The digits above the power `idx` are there, none if it is the leading one. */
  predicate DigitsDone(s: string, value: nat, base: nat, idx: nat, start: nat)
    requires 2 <= base <= 16 && idx > 0
  {
    if idx == start then s == [] else 0 < idx * base <= value && s == Numeral(value / (idx * base), base)
  }

  lemma DigitNext(s: string, value: U32, base: nat, idx: nat, j: nat, start: nat)
    requires 2 <= base <= 16 && idx == Pow(base, j) > 0
    requires 0 < idx <= start <= (if value == 0 then 1 else value) < start * base
    requires DigitsDone(s, value, base, idx, start)
    ensures 0 <= value / idx % base < 16 && 0 <= idx / base
    ensures
      var s' := s + [Hex(value / idx % base)];
      && (j > 0 ==> 0 < idx / base == Pow(base, j - 1) < start && DigitsDone(s', value, base, idx / base, start))
      && (j == 0 ==> idx / base == 0 && s' == Numeral(value, base))
  {
    OneDigit(s, value, base, idx, start);
    hide Numeral, Hex;
    if j > 0 {
      PowPositive(base, j - 1);
      PowNext(base, j);
      hide Pow, DigitsDone;
      NextDone(s + [Hex(value / idx % base)], value, base, idx, Pow(base, j - 1), start);
    } else {
      Quotient(1, base, 0, 1);
      Quotient(value, 1, value, 0);
    }
  }

  lemma NextDone(s: string, value: U32, base: nat, idx: nat, next: nat, start: nat)
    requires 2 <= base <= 16 && 0 < next && idx == base * next
    requires idx <= start <= if value == 0 then 1 else value
    requires s == Numeral(value / idx, base)
    ensures idx / base == next < start && DigitsDone(s, value, base, next, start)
  {
    hide Numeral;
    Quotient(idx, base, next, 0);
    LargerProduct(next, base);
    assert next * base == idx;
  }

  lemma TimesNext(value: nat, idx: nat)
    requires idx > 0
    ensures value < idx * (value + 1)
  {
    Mono(value + 1, 1, idx);
  }

  lemma OneDigit(s: string, value: U32, base: nat, idx: nat, start: nat)
    requires 2 <= base <= 16 && 0 < idx <= start <= (if value == 0 then 1 else value) < start * base
    requires DigitsDone(s, value, base, idx, start)
    ensures 0 <= value / idx && 0 <= value / idx % base < base
    ensures s + [Hex(value / idx % base)] == Numeral(value / idx, base)
  {
    Euclid(value, idx);
    hide Numeral, Hex, DigitsDone;
    if idx == start {
      DivBounds(value, idx, 0, base);
      DigitsAt(s, value, base, idx, start);
      NumeralIs(value / idx, base);
    } else {
      TimesNext(value, idx);
      DigitsAt(s, value, base, idx, start);
      DivBounds(value, idx, base, value + 1);
      DivDiv(value, idx, base);
      NumeralIs(value / idx, base);
    }
  }

  lemma DigitsAt(s: string, value: nat, base: nat, idx: nat, start: nat)
    requires 2 <= base <= 16 && idx > 0 && DigitsDone(s, value, base, idx, start)
    ensures idx == start ==> s == []
    ensures idx != start ==> 0 < idx * base <= value && s == Numeral(value / (idx * base), base)
  {}

  lemma PadIs(width: U32, digits: nat, neg: bool, k: nat, count: U32)
    requires k + 1 == digits && count == ((width - k) % WORD - (if neg then 1 else 0)) % WORD
    ensures PadOf(width, digits, neg) == if 1 < count < 16 then count - 1 else 0
  {
    Down(width - k);
    Again(width - k);
  }

  lemma Again(x: int)
    ensures x % WORD % WORD == x % WORD
  {}

  /** The conversion at the heart of the printing, padding and sign included. */
  method Convert(value: U32, base: nat, neg: bool, width: U32, fill: char) returns (out: string)
    requires base == 10 || base == 16
    ensures out == Render(value, base, neg, width, fill)
  {
    hide Numeral, Pow, PadOf, Render, Repeat;
    var idx, count, k := LeadingPower(value, base, width);
    var sign := neg;
    if sign {
      count := (count - 1) % WORD;
    } else {
      Again(width - k);
    }
    PadIs(width, |Numeral(value, base)|, neg, k, count);
    ghost var pad, before := "", (if neg && fill == '0' then "-" else "");
    out := "";
    if sign && fill == '0' {
      out := "-";
      sign := false;
    }
    assert out == before + pad;
    if 1 < count < 16 {
      var padding := Padding(fill, count - 1);
      pad := padding;
      out := out + padding;
    }
    RepeatNone(fill);
    assert pad == Repeat(fill, PadOf(width, |Numeral(value, base)|, neg)) && out == before + pad;
    if sign {
      out := out + "-";
    }
    var digits := Digits(value, base, idx, k);
    out := out + digits;
    Rendered(value, base, neg, width, fill, pad);
  }

  lemma RepeatNone(c: char)
    ensures Repeat(c, 0) == ""
  {}

  lemma Rendered(value: U32, base: nat, neg: bool, width: U32, fill: char, pad: string)
    requires 2 <= base <= 16 && pad == Repeat(fill, PadOf(width, |Numeral(value, base)|, neg))
    ensures
      var before, after := if neg && fill == '0' then "-" else "", if neg && fill != '0' then "-" else "";
      Render(value, base, neg, width, fill) == before + pad + after + Numeral(value, base)
  {
    hide Numeral, PadOf;
    assert "" + pad == pad == pad + "" && "-" + pad + "" == "-" + pad;
  }

  method Padding(fill: char, count: nat) returns (s: string)
    ensures s == Repeat(fill, count)
  {
    s := "";
    var left := count;
    while left > 0
      invariant 0 <= left <= count && s == Repeat(fill, count - left)
    {
      s := s + [fill];
      left := left - 1;
    }
  }

  /** Printing a signed word: the magnitude with its sign. */
  method ConvertSigned(v: U32, width: U32, fill: char) returns (out: string)
    ensures
      var neg := v >= 0x8000_0000;
      var magnitude := if neg then WORD - v else v;
      magnitude < WORD && out == Render(magnitude, 10, neg, width, fill)
  {
    hide Render;
    var value, neg := v, false;
    if v >= 0x8000_0000 {
      value := (WORD - v) % WORD;
      neg := true;
    }
    out := Convert(value, 10, neg, width, fill);
  }
}
