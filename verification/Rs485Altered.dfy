/** Frames whose size field has been altered on the line: what the receiver makes of them. */
module Rs485Altered {
  import opened Arithmetic
  import opened Bytes
  import opened Rs485

  /** A frame altered in its size field that arrives in one interrupt hands nothing on either. The
      receiver is ready for the next frame exactly if the field now says too little, or more than the
      buffer holds; otherwise it keeps waiting, with the bytes it has. */
  lemma AlteredSizeIsDropped(ch: Channels, l: Line, address: Byte, packet: seq<Byte>, i: nat, b: Byte)
    requires PacketOk(packet) && IsIdle(l) && 2 <= i <= 3 && b != Frame(address, packet)[i]
    ensures
      var altered := Frame(address, packet)[i := b];
      var size := Join(altered[2], altered[3]);
      && Delivers(ch, l, altered) == []
      && (IsIdle(Interrupt(l, altered)) <==> size < |packet| - 2 || size > BUF_SIZE)
  {
    hide Frame, Sum, SizeField, Interrupt, Delivers, Framed, Clean;
    var frame := Frame(address, packet);
    FrameLength(address, packet);
    FrameSum(address, packet);
    AlteredSum(frame, i, b);
    BadWhole(ch, l, frame[i := b]);
  }

  lemma FrameLength(address: Byte, packet: seq<Byte>)
    requires PacketOk(packet)
    ensures 5 <= |Frame(address, packet)| == |packet| + 2 <= BUF_SIZE
  {}

  lemma BadWhole(ch: Channels, l: Line, chunk: seq<Byte>)
    requires IsIdle(l) && 4 <= |chunk| <= BUF_SIZE && Sum(chunk) % 0x100 != 0
    ensures Delivers(ch, l, chunk) == []
    ensures IsIdle(Interrupt(l, chunk)) <==>
              |chunk| > Join(chunk[2], chunk[3]) + 4 || Join(chunk[2], chunk[3]) > BUF_SIZE
  {
    hide Sum, Units, ToUnits, Feed, SizeField, Join;
    FeedWhole(l, chunk);
  }

  // ----- In any number of pieces -----

  /** A packet whose header announces a payload of s bytes. */
  predicate Announces(packet: seq<Byte>, s: nat) { |packet| == s + 3 && Join(packet[1], packet[2]) == s }

  /** A frame with another size field. */
  function Resized(frame: seq<Byte>, size: U16): seq<Byte>
    requires |frame| >= 4
  {
    frame[2 := Hi(size)][3 := Lo(size)]
  }

  /** Altering one byte of the field is a case of this. */
  lemma OneByteResizes(frame: seq<Byte>, i: nat, b: Byte)
    requires |frame| >= 4 && 2 <= i <= 3 && b != frame[i]
    ensures
      var size := Join(frame[i := b][2], frame[i := b][3]);
      frame[i := b] == Resized(frame, size) && size != Join(frame[2], frame[3])
  {
    var altered := frame[i := b];
    HiLo(altered[2], altered[3]);
    HiLo(frame[2], frame[3]);
    assert altered[2 := altered[2]][3 := altered[3]] == frame[2 := altered[2]][3 := altered[3]];
  }

  lemma HiLo(hi: Byte, lo: Byte)
    ensures Hi(Join(hi, lo)) == hi && Lo(Join(hi, lo)) == lo
  {}

  predicate DroppedAs(ch: Channels, l: Line, bytes: seq<Byte>, chunks: seq<seq<Byte>>)
    requires LineOk(l)
  {
    Flatten(chunks) == bytes ==> Received(ch, l, chunks) == []
  }

  /** Every frame to an address with a payload of s bytes, once its field says `size`, is dropped however
      it is cut up. */
  ghost predicate AllDropped(ch: Channels, l: Line, address: Byte, s: nat, size: U16)
    requires LineOk(l)
  {
    forall packet, chunks :: Announces(packet, s) ==> DroppedAs(ch, l, Resized(Frame(address, packet), size), chunks)
  }

  /** The size says more than is there. And either neither it nor its high byte over the old low one is
      beyond the buffer, so that the receiver waits; or, if it starts again in the middle, what is left is
      too short to pass for a frame, or is for nobody. */
  predicate Harmless(ch: Channels, l: Line, s: nat, size: U16)
    requires LineOk(l)
  {
    && s < size
    && ((size <= BUF_SIZE && Join(Hi(size), l.data[3]) <= BUF_SIZE) || s < 3 ||
        (s == 3 && (Join(Hi(size), l.data[3]) <= BUF_SIZE || Units(ch, Lo(size)) == [])))
  }

  /** For which sizes an altered size field does no harm, exactly. */
  lemma AlteredSizeExactly(ch: Channels, l: Line, address: Byte, s: nat, size: U16)
    requires IsIdle(l) && SizeField(l) <= BUF_SIZE && Units(ch, address) != []
    requires s + 5 <= BUF_SIZE && s != size
    ensures AllDropped(ch, l, address, s, size) <==> Harmless(ch, l, s, size)
  {
    hide Units, Frame, Resized, Received, Flatten, DroppedAs, SizeField, Join;
    if Harmless(ch, l, s, size) {
      forall packet, chunks | Announces(packet, s)
        ensures DroppedAs(ch, l, Resized(Frame(address, packet), size), chunks)
      {
        HarmlessDropped(ch, l, address, packet, s, size, chunks);
      }
    } else if size < s {
      HandedOnEarly(ch, l, address, s, size);
    } else if s > 3 {
      HandedOnLate(ch, l, address, s, size);
    } else {
      HandedOnFromThird(ch, l, address, s, size);
    }
  }

  // ----- Harmless sizes -----

  lemma ResizedParts(address: Byte, packet: seq<Byte>, s: nat, size: U16)
    requires Announces(packet, s)
    ensures
      var altered := Resized(Frame(address, packet), size);
      && |altered| == s + 5 && altered[2] == Hi(size) && altered[3] == Lo(size)
      && Join(altered[2], altered[3]) == size
  {}

  lemma HarmlessDropped(
      ch: Channels, l: Line, address: Byte, packet: seq<Byte>, s: nat, size: U16, chunks: seq<seq<Byte>>)
    requires IsIdle(l) && SizeField(l) <= BUF_SIZE && s + 5 <= BUF_SIZE
    requires Announces(packet, s) && Harmless(ch, l, s, size)
    ensures DroppedAs(ch, l, Resized(Frame(address, packet), size), chunks)
  {
    hide Units, Frame, Resized, Received, Flatten, Join, Hi, Lo, Sum;
    var altered := Resized(Frame(address, packet), size);
    if Flatten(chunks) == altered {
      ResizedParts(address, packet, s, size);
      PartlyNone(altered, l);
      assert altered[0..] == altered;
      if size <= BUF_SIZE && Join(Hi(size), l.data[3]) <= BUF_SIZE {
        NothingEarly(ch, altered, 0, l.data, l, chunks);
      } else {
        BriefDropped(ch, altered, 0, l.data, l, chunks);
      }
    }
  }

  lemma PartlyNone(bytes: seq<Byte>, l: Line)
    requires |bytes| <= BUF_SIZE && IsIdle(l)
    ensures Partly(bytes, 0, l.data, l)
  {}

  /** The bytes in the buffer and those still to come. */
  function Pending(l: Line, chunks: seq<seq<Byte>>): seq<Byte>
    requires LineOk(l)
  {
    l.data[..l.index] + Flatten(chunks)
  }

  /** Too little for a frame, which has five bytes at least. */
  predicate TooFew(ch: Channels, bytes: seq<Byte>) { |bytes| <= 5 && (|bytes| == 5 ==> Units(ch, bytes[0]) == []) }

  lemma {:induction false} TooFewDropped(ch: Channels, l: Line, chunks: seq<seq<Byte>>)
    requires LineOk(l) && TooFew(ch, Pending(l, chunks))
    ensures Received(ch, l, chunks) == []
    decreases |chunks|
  {
    hide Units, Sum;
    if chunks != [] {
      FewInterrupt(ch, l, chunks);
      TooFewDropped(ch, Interrupt(l, chunks[0]), chunks[1..]);
    }
  }

  lemma FewInterrupt(ch: Channels, l: Line, chunks: seq<seq<Byte>>)
    requires LineOk(l) && chunks != [] && TooFew(ch, Pending(l, chunks))
    ensures Delivers(ch, l, chunks[0]) == []
    ensures TooFew(ch, Pending(Interrupt(l, chunks[0]), chunks[1..]))
  {
    hide Units, Sum, Join;
    var chunk, rest := chunks[0], Flatten(chunks[1..]);
    var fed := Feed(l, chunk);
    assert chunk[..|chunk|] == chunk;
    assert fed.data[..fed.index] == l.data[..l.index] + chunk;
    assert Pending(l, chunks) == fed.data[..fed.index] + rest;
    if fed.index == 5 {
      assert Pending(l, chunks)[0] == fed.data[0];
    }
  }

  /** Up to eight bytes with a size field that says more than is there. */
  lemma {:induction false} BriefDropped(
      ch: Channels, bytes: seq<Byte>, k: nat, stale: seq<Byte>, l: Line, chunks: seq<seq<Byte>>)
    requires 5 <= |bytes| <= 8 && |stale| == BUF_SIZE && Partly(bytes, k, stale, l)
    requires |bytes| <= Join(bytes[2], bytes[3]) + 4 && Join(stale[2], stale[3]) <= BUF_SIZE
    requires |bytes| < 8 || Join(bytes[2], stale[3]) <= BUF_SIZE || Units(ch, bytes[3]) == []
    requires Flatten(chunks) == bytes[k..]
    ensures Received(ch, l, chunks) == []
    decreases |chunks|
  {
    hide Units, Sum, Join, Flatten, Interrupt, Delivers;
    if chunks != [] {
      var chunk, rest := chunks[0], chunks[1..];
      var n := k + |chunk|;
      Cut(bytes, k, chunks);
      BriefInterrupt(ch, bytes, k, stale, l, chunk);
      var l' := Interrupt(l, chunk);
      if l'.index == n {
        BriefDropped(ch, bytes, n, stale, l', rest);
      } else {
        assert Pending(l', rest) == bytes[n..];
        TooFewDropped(ch, l', rest);
      }
    }
  }

  /** One interrupt of those: the bytes come in, or with the third byte or later all is forgotten. */
  lemma BriefInterrupt(ch: Channels, bytes: seq<Byte>, k: nat, stale: seq<Byte>, l: Line, chunk: seq<Byte>)
    requires 5 <= |bytes| <= 8 && |stale| == BUF_SIZE && Partly(bytes, k, stale, l)
    requires |bytes| <= Join(bytes[2], bytes[3]) + 4 && Join(stale[2], stale[3]) <= BUF_SIZE
    requires |bytes| < 8 || Join(bytes[2], stale[3]) <= BUF_SIZE || Units(ch, bytes[3]) == []
    requires k + |chunk| <= |bytes| && chunk == bytes[k..k + |chunk|]
    ensures Delivers(ch, l, chunk) == []
    ensures
      var l', n := Interrupt(l, chunk), k + |chunk|;
      Partly(bytes, n, stale, l') || (n > 0 && l'.index == 0 && TooFew(ch, bytes[n..]))
  {
    hide Units, Sum, Join;
    var fed, n := Feed(l, chunk), k + |chunk|;
    FeedsOn(bytes, k, stale, l, chunk);
    assert n > 2 ==> fed.data[2] == bytes[..n][2];
    assert n > 3 ==> fed.data[3] == bytes[..n][3];
  }

  // ----- Harmful sizes -----

  function Neg(n: nat): Byte { (0x100 - n % 0x100) % 0x100 }

  /** The packet of s payload bytes that begins with the command chosen. */
  function Forged(command: Byte, s: U16, payload: seq<Byte>): seq<Byte> { [command, Hi(s), Lo(s)] + payload }

  function Check(address: Byte, command: Byte, s: U16, payload: seq<Byte>): Byte {
    Checksum([address] + Forged(command, s, payload))
  }

  lemma ForgedParts(address: Byte, command: Byte, s: U16, payload: seq<Byte>, size: U16)
    requires |payload| == s
    ensures Announces(Forged(command, s, payload), s)
    ensures
      var rest := payload + [Check(address, command, s, payload)];
      && Frame(address, Forged(command, s, payload)) == [address, command, Hi(s), Lo(s)] + rest
      && Resized(Frame(address, Forged(command, s, payload)), size) == [address, command, Hi(size), Lo(size)] + rest
  {
    hide Checksum;
    var packet := Forged(command, s, payload);
    var rest := payload + [Checksum([address] + packet)];
    assert Frame(address, packet) == [address, command, Hi(s), Lo(s)] + rest;
  }

  lemma SumFour(a: Byte, b: Byte, c: Byte, d: Byte, rest: seq<Byte>)
    ensures Sum([a, b, c, d] + rest) == a as int + b as int + c as int + d as int + Sum(rest)
  {
    hide Sum;
    var four := [a, b, c, d];
    assert four[..4] == four;
    SumNext(four, 3);
    SumNext(four, 2);
    SumNext(four, 1);
    SumNext(four, 0);
    SumConcat(four, rest);
  }

  lemma {:induction false} SumZeros(n: nat)
    ensures Sum(Zeros(n)) == 0
  {
    if n > 0 {
      assert Zeros(n)[..n - 1] == Zeros(n - 1);
      SumZeros(n - 1);
    }
  }

  /** What passes for a frame in one interrupt. */
  lemma Passes(ch: Channels, l: Line, chunk: seq<Byte>)
    requires IsIdle(l) && 5 <= |chunk| <= BUF_SIZE && |chunk| > Join(chunk[2], chunk[3]) + 4
    requires Sum(chunk) % 0x100 == 0 && Units(ch, chunk[0]) != []
    ensures Delivers(ch, l, chunk) != []
  {
    hide Units, Sum, Join, SizeField;
    FeedWhole(l, chunk);
    assert chunk[..|chunk|] == chunk && Feed(l, chunk).data[0] == chunk[0];
  }

  lemma Refutes(ch: Channels, l: Line, address: Byte, s: nat, size: U16, packet: seq<Byte>, chunks: seq<seq<Byte>>)
    requires LineOk(l) && Announces(packet, s)
    requires Flatten(chunks) == Resized(Frame(address, packet), size) && Received(ch, l, chunks) != []
    ensures !AllDropped(ch, l, address, s, size)
  {
    hide Frame, Resized, Received, Flatten;
    assert !DroppedAs(ch, l, Resized(Frame(address, packet), size), chunks);
  }

  /** A size that says too little: the beginning alone can pass for a frame. */
  lemma HandedOnEarly(ch: Channels, l: Line, address: Byte, s: U16, size: U16)
    requires IsIdle(l) && Units(ch, address) != [] && size < s && s + 5 <= BUF_SIZE
    ensures !AllDropped(ch, l, address, s, size)
  {
    hide Units, Frame, Resized, Received, Delivers, Interrupt, Flatten, Announces, Forged, Check, Sum;
    var command := Neg(address as int + Hi(size) as int + Lo(size) as int);
    var packet, chunks := EarlyCut(address, command, s, size);
    var head := chunks[0];
    EarlyHead(address, size, command, head);
    Passes(ch, l, head);
    ReceivedTwo(ch, l, head, chunks[1]);
    Refutes(ch, l, address, s, size, packet, chunks);
  }

  lemma EarlyCut(address: Byte, command: Byte, s: U16, size: U16) returns (packet: seq<Byte>, chunks: seq<seq<Byte>>)
    requires size < s
    ensures Announces(packet, s) && Flatten(chunks) == Resized(Frame(address, packet), size)
    ensures |chunks| == 2 && chunks == [chunks[0], chunks[1]]
    ensures chunks[0] == [address, command, Hi(size), Lo(size)] + Zeros(size + 1)
  {
    hide Frame, Resized, Flatten, Check, Announces, Forged;
    packet := Forged(command, s, Zeros(s));
    ForgedParts(address, command, s, Zeros(s), size);
    var altered := Resized(Frame(address, packet), size);
    var head, tail := altered[..size + 5], altered[size + 5..];
    assert head == [address, command, Hi(size), Lo(size)] + Zeros(size + 1);
    chunks := [head, tail];
    FlattenTwo(head, tail);
  }

  lemma EarlyHead(address: Byte, size: U16, command: Byte, head: seq<Byte>)
    requires command == Neg(address as int + Hi(size) as int + Lo(size) as int)
    requires head == [address, command, Hi(size), Lo(size)] + Zeros(size + 1)
    ensures |head| == size + 5 && head[0] == address && Join(head[2], head[3]) == size && Sum(head) % 0x100 == 0
  {
    hide Sum, Neg, Hi, Lo, Join;
    SumFour(address, command, Hi(size), Lo(size), Zeros(size + 1));
    SumZeros(size + 1);
    var n := address as int + Hi(size) as int + Lo(size) as int;
    NegSum(n);
    assert Sum(head) == n + command as int;
    FieldIs(head[..4], size);
  }

  /** What is left after the first four bytes can pass for a frame, if they make the receiver forget
      them. */
  lemma HandedOnLate(ch: Channels, l: Line, address: Byte, s: U16, size: U16)
    requires IsIdle(l) && Units(ch, address) != [] && 4 <= s && s + 5 <= BUF_SIZE
    requires size > BUF_SIZE || Join(Hi(size), l.data[3]) > BUF_SIZE
    ensures !AllDropped(ch, l, address, s, size)
  {
    hide Units, Frame, Resized, Received, Receive, Delivers, Interrupt, Flatten, Announces, Forged, Check, Sum, Join;
    var command := Neg(address as int + Hi(s) as int + Lo(s) as int);
    var payload := [address] + Zeros(s - 1);
    var packet := Forged(command, s, payload);
    var rest := payload + [Check(address, command, s, payload)];
    ForgedParts(address, command, s, payload, size);
    LateRest(address, command, s, payload, rest);
    var skip := Forgotten(ch, l, address, command, size);
    Passes(ch, Receive(l, skip), rest);
    ReceivedOne(ch, Receive(l, skip), rest);
    ReceivedConcat(ch, l, skip, [rest]);
    FlattenSnoc(skip, rest);
    Refutes(ch, l, address, s, size, packet, skip + [rest]);
  }

  lemma ReceivedOne(ch: Channels, l: Line, chunk: seq<Byte>)
    requires LineOk(l)
    ensures Received(ch, l, [chunk]) == Delivers(ch, l, chunk)
  {
    hide Delivers, Interrupt;
    assert [chunk][1..] == [] && Received(ch, l, [chunk]) == Delivers(ch, l, chunk) + [];
  }

  lemma LateRest(address: Byte, command: Byte, s: U16, payload: seq<Byte>, rest: seq<Byte>)
    requires 4 <= s && payload == [address] + Zeros(s - 1)
    requires command == Neg(address as int + Hi(s) as int + Lo(s) as int)
    requires rest == payload + [Check(address, command, s, payload)]
    ensures |rest| == s + 1 && rest[0] == address && Join(rest[2], rest[3]) == 0 && Sum(rest) % 0x100 == 0
  {
    hide Sum, Frame, Check, Forged, Neg, Hi, Lo, Join;
    JoinZeros();
    ForgedParts(address, command, s, payload, s);
    FrameSum(address, Forged(command, s, payload));
    SumFour(address, command, Hi(s), Lo(s), rest);
    NegSum(address as int + Hi(s) as int + Lo(s) as int);
    RestZero(address as int + command as int + Hi(s) as int + Lo(s) as int, Sum(rest));
  }

  lemma NegSum(n: nat)
    ensures (n + Neg(n)) % 0x100 == 0
  {
    Cancels(n);
  }

  lemma RestZero(x: int, y: int)
    requires x % 0x100 == 0 && (x + y) % 0x100 == 0
    ensures y % 0x100 == 0
  {
    assert y == 0x100 * ((x + y) / 0x100 - x / 0x100);
  }

  /** The first four bytes in pieces that leave the line idle and nothing handed on. */
  lemma Forgotten(ch: Channels, l: Line, address: Byte, command: Byte, size: U16) returns (skip: seq<seq<Byte>>)
    requires IsIdle(l) && (size > BUF_SIZE || Join(Hi(size), l.data[3]) > BUF_SIZE)
    ensures Flatten(skip) == [address, command, Hi(size), Lo(size)]
    ensures Received(ch, l, skip) == [] && IsIdle(Receive(l, skip))
  {
    hide Units, Sum, Delivers, Interrupt, SizeField, Flatten;
    var four := [address, command, Hi(size), Lo(size)];
    if size > BUF_SIZE {
      skip := [four];
      FlattenOne(four);
      FieldIs(four, size);
      DropLeavesSize(ch, l, four);
      ReceivedOne(ch, l, four);
      ReceiveOne(l, four);
    } else {
      var three, last := four[..3], four[3..];
      skip := [three, last];
      FlattenTwo(three, last);
      assert three + last == four;
      FieldOfThree(l, three);
      Emptied(l, three);
      FieldStays(Interrupt(l, three), last);
      Emptied(Interrupt(l, three), last);
      ReceivedTwo(ch, l, three, last);
      ReceiveTwo(l, three, last);
    }
  }

  lemma FieldIs(four: seq<Byte>, size: U16)
    requires |four| == 4 && four[2] == Hi(size) && four[3] == Lo(size)
    ensures Join(four[2], four[3]) == size
  {}

  lemma FieldOfThree(l: Line, three: seq<Byte>)
    requires IsIdle(l) && |three| == 3
    ensures SizeField(Feed(l, three)) == Join(three[2], l.data[3])
  {
    hide Sum, Join;
    assert three[..3] == three;
  }

  lemma ReceiveOne(l: Line, a: seq<Byte>)
    requires LineOk(l)
    ensures Receive(l, [a]) == Interrupt(l, a)
  {
    hide Interrupt;
    assert [a][1..] == [];
  }

  lemma ReceiveTwo(l: Line, a: seq<Byte>, b: seq<Byte>)
    requires LineOk(l)
    ensures Receive(l, [a, b]) == Interrupt(Interrupt(l, a), b)
  {
    hide Interrupt;
    assert [a, b][1..] == [b];
    ReceiveOne(Interrupt(l, a), b);
  }

  /** With three payload bytes, five bytes are left after the first three, whose address is the low byte
      of the size. */
  lemma HandedOnFromThird(ch: Channels, l: Line, address: Byte, s: U16, size: U16)
    requires IsIdle(l) && s == 3 && Join(Hi(size), l.data[3]) > BUF_SIZE && Units(ch, Lo(size)) != []
    ensures !AllDropped(ch, l, address, s, size)
  {
    hide Units, Frame, Resized, Received, Delivers, Interrupt, Flatten, Announces, Forged, Check, Sum, Join,
      SizeField, Hi, Lo;
    var command := ThirdCommand(address, s, Lo(size));
    var payload := Zeros(3);
    var check := Check(address, command, s, payload);
    ForgedParts(address, command, s, payload, size);
    var packet := Forged(command, s, payload);
    var altered := Resized(Frame(address, packet), size);
    var three, rest := altered[..3], altered[3..];
    ThirdRest(address, command, s, size, altered, rest);
    FlattenTwo(three, rest);
    assert three + rest == altered;
    FieldOfThree(l, three);
    Emptied(l, three);
    Passes(ch, Interrupt(l, three), rest);
    ReceivedTwo(ch, l, three, rest);
    Refutes(ch, l, address, s, size, packet, [three, rest]);
  }

  function ThirdCommand(address: Byte, s: U16, lo: Byte): Byte {
    Neg(address as int + Hi(s) as int + Lo(s) as int + (0x100 - lo as int))
  }

  lemma ThirdRest(address: Byte, command: Byte, s: U16, size: U16, altered: seq<Byte>, rest: seq<Byte>)
    requires s == 3 && command == ThirdCommand(address, s, Lo(size))
    requires altered == [address, command, Hi(size), Lo(size)] + (Zeros(3) + [Check(address, command, s, Zeros(3))])
    requires rest == altered[3..]
    ensures |altered| == 8 && altered[2] == Hi(size) && |rest| == 5
    ensures rest[0] == Lo(size) && Join(rest[2], rest[3]) == 0 && Sum(rest) % 0x100 == 0
  {
    hide Sum, Frame, Check, Forged, Neg, Hi, Lo, Join;
    JoinZeros();
    var check, lo := Check(address, command, s, Zeros(3)), Lo(size);
    ForgedParts(address, command, s, Zeros(3), s);
    FrameSum(address, Forged(command, s, Zeros(3)));
    var five := Zeros(3) + [check];
    SumFour(address, command, Hi(s), Lo(s), five);
    assert rest == [lo, 0, 0, 0] + [check] && five == [0, 0, 0, check] + [];
    SumFour(lo, 0, 0, 0, [check]);
    SumFour(0, 0, 0, check, []);
    SumOne(check);
    var w := address as int + Hi(s) as int + Lo(s) as int + (0x100 - lo as int);
    NegSum(w);
    OneLess(w + command as int);
    RestZero(w + command as int - 0x100, lo as int + check as int);
  }

  lemma OneLess(x: int)
    requires x % 0x100 == 0
    ensures (x - 0x100) % 0x100 == 0
  {}

  lemma JoinZeros()
    ensures Join(0, 0) == 0
  {}

  lemma SumOne(b: Byte)
    ensures Sum([b]) == b as int && Sum([]) == 0
  {
    assert [b][..0] == [];
  }

  /** A small example: five bytes that seem to be a frame without payload. */
  function SmallPacket(): seq<Byte> { [0x10, 0, 2, 0xEF, 0] }

  function FalseFrame(): (frame: seq<Byte>)
    ensures |frame| == 7
  {
    Frame(1, SmallPacket())[3 := 0]
  }

  /** A frame that the receiver can take, altered in one byte of the size field, and handed on as a packet
      that was never sent. */
  lemma AlteredSizeHandedOn(ch: Channels, l: Line)
    requires IsIdle(l) && Units(ch, 1) != []
    ensures PacketOk(SmallPacket()) && Frame(1, SmallPacket())[3] == 2
    ensures FalseFrame() == Frame(1, SmallPacket())[3 := 0]
    ensures
      var received := Received(ch, l, [FalseFrame()[..5], FalseFrame()[5..]]);
      received != [] && received[0] == Delivery(Units(ch, 1)[0], [0x10, 0, 0])
  {
    hide Units, Sum, Delivers, Interrupt, Received, FalseFrame, SmallPacket, Framed, IsIdle, Frame, PacketOk;
    FalseFive();
    WholeThenRest(ch, l, FalseFrame()[..5], FalseFrame()[5..]);
    SmallFrame();
  }

  lemma SmallFrame()
    ensures PacketOk(SmallPacket()) && Frame(1, SmallPacket())[3] == 2
    ensures FalseFrame() == Frame(1, SmallPacket())[3 := 0]
  {
    hide Sum;
  }

  lemma WholeThenRest(ch: Channels, l: Line, frame: seq<Byte>, rest: seq<Byte>)
    requires IsIdle(l) && Framed(frame) && Sum(frame) % 0x100 == 0 && Units(ch, frame[0]) != []
    ensures
      var received := Received(ch, l, [frame, rest]);
      received != [] && received[0] == Delivery(Units(ch, frame[0])[0], frame[1..|frame| - 1])
  {
    hide Units, Sum, Delivers, Interrupt, Received, Partly;
    assert frame[0..] == frame;
    IdlePartly(frame, l);
    LastInterrupt(ch, frame, 0, l.data, l, frame);
    ReceivedTwo(ch, l, frame, rest);
  }

  lemma FalseFive()
    ensures
      var five := FalseFrame()[..5];
      Framed(five) && Sum(five) % 0x100 == 0 && five[0] == 1 && five[1..4] == [0x10, 0, 0]
  {
    hide Sum, FalseFrame, Framed;
    FalseFiveIs();
    var five := FalseFrame()[..5];
    assert five == [five[0], five[1], five[2], five[3]] + [five[4]];
    SumFour(five[0], five[1], five[2], five[3], [five[4]]);
    SumOne(five[4]);
    FramedFive(five);
  }

  lemma FramedFive(s: seq<Byte>)
    requires |s| == 5 && s[2] == s[3] == 0
    ensures Framed(s)
  {}

  lemma FalseFiveIs()
    ensures FalseFrame()[..5] == [1, 0x10, 0, 0, 0xEF]
  {
    hide Sum;
  }

  // ----- Sizes that lock the receiver -----

  /** The buffer is full before so many bytes are in, but the size is not beyond the buffer. */
  predicate Locked(l: Line) { LineOk(l) && l.index >= 4 && BUF_SIZE - 4 <= SizeField(l) <= BUF_SIZE }

  lemma FieldKept(l: Line, chunk: seq<Byte>)
    requires LineOk(l) && l.index >= 4
    ensures SizeField(Feed(l, chunk)) == SizeField(l)
    ensures Feed(l, chunk).index == l.index + Least(|chunk|, BUF_SIZE - l.index)
  {
    hide Sum;
  }

  /** Whatever comes, a locked receiver stays locked and hands nothing on. */
  lemma {:induction false} LockedForGood(ch: Channels, l: Line, chunks: seq<seq<Byte>>)
    requires Locked(l)
    ensures Locked(Receive(l, chunks)) && Received(ch, l, chunks) == []
    decreases |chunks|
  {
    hide Feed, Handed, SizeField;
    if chunks != [] {
      FieldKept(l, chunks[0]);
      LockedForGood(ch, Interrupt(l, chunks[0]), chunks[1..]);
    }
  }

  /** Once its size field is in, a receiver becomes idle with some further bytes exactly if it is not
      locked. */
  lemma UnlocksExactly(ch: Channels, l: Line)
    requires LineOk(l) && l.index >= 4
    ensures (exists chunks :: IsIdle(Receive(l, chunks))) <==> !Locked(l)
  {
    hide Feed, Receive, Sum, SizeField;
    if Locked(l) {
      forall chunks
        ensures !IsIdle(Receive(l, chunks))
      {
        LockedForGood(ch, l, chunks);
      }
    } else {
      var missing := if l.index <= SizeField(l) + 4 <= BUF_SIZE - 1 then SizeField(l) + 5 - l.index else 0;
      FieldKept(l, Zeros(missing));
      ReceiveOne(l, Zeros(missing));
      assert IsIdle(Receive(l, [Zeros(missing)]));
    }
  }

  const LOCKING: seq<Byte> := [1, 0x10, 0x41, 0xC6]

  /** One interrupt is enough to lock an idle receiver. */
  lemma LockReached(ch: Channels, l: Line)
    requires IsIdle(l)
    ensures Locked(Interrupt(l, LOCKING)) && Delivers(ch, l, LOCKING) == []
  {
    hide Feed, Handed, SizeField, Sum;
    FeedWhole(l, LOCKING);
  }

  /** An altered frame does it too, however it is cut up. */
  lemma AlteredSizeLocks(
      ch: Channels, l: Line, address: Byte, packet: seq<Byte>, s: nat, size: U16, chunks: seq<seq<Byte>>)
    requires IsIdle(l) && SizeField(l) <= BUF_SIZE && Join(Hi(size), l.data[3]) <= BUF_SIZE
    requires Announces(packet, s) && s + 5 <= BUF_SIZE && BUF_SIZE - 4 <= size <= BUF_SIZE
    requires Flatten(chunks) == Resized(Frame(address, packet), size)
    ensures Received(ch, l, chunks) == [] && Locked(Receive(l, chunks))
  {
    hide Units, Frame, Resized, Received, Receive, Flatten, Join, Hi, Lo, Sum;
    var altered := Resized(Frame(address, packet), size);
    ResizedParts(address, packet, s, size);
    PartlyNone(altered, l);
    assert altered[0..] == altered;
    NothingEarly(ch, altered, 0, l.data, l, chunks);
    var l' := Receive(l, chunks);
    assert l'.data[..|altered|] == altered[..|altered|];
    assert l'.data[2] == l'.data[..|altered|][2] && l'.data[3] == l'.data[..|altered|][3];
  }
}
