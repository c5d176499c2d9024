/** The RS-485 link: frames of address, packet and checksum, received interrupt by interrupt at a low
    baud rate, and sent byte by byte. */
module Rs485 {
  import opened Arithmetic
  import opened Bytes

  const BUF_SIZE := 1 + 3 + 3 + 16834 + 1
  const BCAST_ADDRESS: Byte := 255
  const MASTER_ADDRESS: Byte := 0

  /** The addresses of the four channels. */
  datatype Channels = Channels(ch0: Byte, ch1: Byte, ch2: Byte, ch3: Byte)

  /** A packet given to the protocol server of one unit. */
  datatype Delivery = Delivery(unit: nat, packet: seq<Byte>)

  datatype Line = Line(data: seq<Byte>, index: nat, csum: Byte)

  predicate LineOk(l: Line) { |l.data| == BUF_SIZE && l.index <= BUF_SIZE }

  function Sum(s: seq<Byte>): nat
    decreases |s|
  {
    if s == [] then 0 else Sum(s[..|s| - 1]) + s[|s| - 1]
  }

  lemma {:induction false} SumConcat(s: seq<Byte>, t: seq<Byte>)
    ensures Sum(s + t) == Sum(s) + Sum(t)
    decreases |t|
  {
    if t == [] {
      assert s + t == s;
    } else {
      SumConcat(s, t[..|t| - 1]);
      assert (s + t)[..|s + t| - 1] == s + t[..|t| - 1];
    }
  }

  lemma SumNext(s: seq<Byte>, k: nat)
    requires k < |s|
    ensures Sum(s[..k + 1]) == Sum(s[..k]) + s[k] && Sum(s[..0]) == 0
  {
    assert s[..k + 1][..k] == s[..k];
  }

  /** The units an address stands for: the first channel that has it, or all of them. */
  function Units(ch: Channels, address: Byte): seq<nat> {
    if address == ch.ch0 then [0]
    else if address == ch.ch1 then [1]
    else if address == ch.ch2 then [2]
    else if address == ch.ch3 then [3]
    else if address == BCAST_ADDRESS then [0, 1, 2, 3]
    else []
  }

  function ToUnits(units: seq<nat>, packet: seq<Byte>): seq<Delivery> {
    seq(|units|, i requires 0 <= i < |units| => Delivery(units[i], packet))
  }

  /** What is handed on once a frame seems complete. */
  function Handed(ch: Channels, l: Line): seq<Delivery>
    requires LineOk(l)
  {
    if l.index < 2 || l.csum != 0 then [] else ToUnits(Units(ch, l.data[0]), l.data[1..l.index - 1])
  }

  /** The line after the bytes of an interrupt, as many as there is room for. */
  function Feed(l: Line, chunk: seq<Byte>): (r: Line)
    requires LineOk(l)
    ensures LineOk(r)
  {
    var bytes := chunk[..Least(|chunk|, BUF_SIZE - l.index)];
    Line(Splice(l.data, l.index, bytes), l.index + |bytes|, (l.csum + Sum(bytes)) % 0x100)
  }

  /** The size field, whether or not it has been received yet. */
  function SizeField(l: Line): nat
    requires LineOk(l)
  {
    Join(l.data[2], l.data[3])
  }

  function Interrupt(l: Line, chunk: seq<Byte>): (r: Line)
    requires LineOk(l)
    ensures LineOk(r)
  {
    var fed := Feed(l, chunk);
    if fed.index > SizeField(fed) + 4 || SizeField(fed) > BUF_SIZE then fed.(index := 0, csum := 0) else fed
  }

  function Delivers(ch: Channels, l: Line, chunk: seq<Byte>): seq<Delivery>
    requires LineOk(l)
  {
    var fed := Feed(l, chunk);
    if fed.index > SizeField(fed) + 4 then Handed(ch, fed) else []
  }

  /** A run of interrupts: the line after it, and all that has been handed on. */
  function Receive(l: Line, chunks: seq<seq<Byte>>): (r: Line)
    requires LineOk(l)
    ensures LineOk(r)
    decreases |chunks|
  {
    if chunks == [] then l else Receive(Interrupt(l, chunks[0]), chunks[1..])
  }

  function Received(ch: Channels, l: Line, chunks: seq<seq<Byte>>): seq<Delivery>
    requires LineOk(l)
    decreases |chunks|
  {
    if chunks == [] then [] else Delivers(ch, l, chunks[0]) + Received(ch, Interrupt(l, chunks[0]), chunks[1..])
  }

  // ----- Frames -----

  function Checksum(s: seq<Byte>): Byte { (0x100 - Sum(s) % 0x100) % 0x100 }

  function Frame(address: Byte, packet: seq<Byte>): (frame: seq<Byte>)
    ensures |frame| == |packet| + 2
  {
    [address] + packet + [Checksum([address] + packet)]
  }

  /** A frame as the link has it: three bytes of header, the payload their size field announces, and
      address and checksum around them. */
  predicate Framed(frame: seq<Byte>) { 5 <= |frame| <= BUF_SIZE && |frame| == Join(frame[2], frame[3]) + 5 }

  /** Every frame built adds up to nothing. */
  lemma FrameSum(address: Byte, packet: seq<Byte>)
    ensures Sum(Frame(address, packet)) % 0x100 == 0
  {
    var body := [address] + packet;
    SumNext(Frame(address, packet), |body|);
    assert Frame(address, packet)[..|body|] == body && Frame(address, packet)[..|body| + 1] == Frame(address, packet);
    Cancels(Sum(body));
  }

  lemma Cancels(n: nat)
    ensures (n + (0x100 - n % 0x100) % 0x100) % 0x100 == 0
  {
    var q, r := n / 0x100, n % 0x100;
    assert n == 0x100 * q + r;
    if r > 0 {
      assert n + (0x100 - r) == 0x100 * (q + 1);
    }
  }

  /** The first k bytes of a frame are in, on top of what the buffer held before. */
  predicate Partly(frame: seq<Byte>, k: nat, stale: seq<Byte>, l: Line) {
    && k <= |frame| <= BUF_SIZE && LineOk(l) && |stale| == BUF_SIZE
    && l.index == k && l.data[..k] == frame[..k]
    && (forall i :: k <= i < BUF_SIZE ==> l.data[i] == stale[i])
    && l.csum == Sum(frame[..k]) % 0x100
  }

  lemma FeedsOn(frame: seq<Byte>, k: nat, stale: seq<Byte>, l: Line, chunk: seq<Byte>)
    requires Partly(frame, k, stale, l) && k + |chunk| <= |frame| && chunk == frame[k..k + |chunk|]
    ensures Partly(frame, k + |chunk|, stale, Feed(l, chunk))
  {
    assert chunk[..|chunk|] == chunk;
    assert frame[..k + |chunk|] == frame[..k] + chunk;
    SumConcat(frame[..k], chunk);
    AddMod(Sum(frame[..k]), Sum(chunk));
  }

  lemma AddMod(a: nat, b: nat)
    ensures (a % 0x100 + b) % 0x100 == (a + b) % 0x100
  {
    var q := a / 0x100;
    assert a + b == 0x100 * q + (a % 0x100 + b);
  }

  /** What the two bytes of the size field can look like while a frame comes in, given what they were
      before: neither the old field nor the new high byte with the old low one is taken for a length
      beyond the buffer. */
  predicate Clean(frame: seq<Byte>, stale: seq<Byte>)
    requires |frame| >= 5 && |stale| == BUF_SIZE
  {
    Join(stale[2], stale[3]) <= BUF_SIZE && Join(frame[2], stale[3]) <= BUF_SIZE
  }

  /** The first n bytes of `bytes` are fewer than a frame with its size field has. */
  predicate Short(bytes: seq<Byte>, n: nat) {
    && 5 <= |bytes| <= BUF_SIZE && n <= |bytes|
    && n <= Join(bytes[2], bytes[3]) + 4 && Join(bytes[2], bytes[3]) <= BUF_SIZE
  }

  /** Before the last byte nothing happens but the bytes coming in. */
  lemma PartialInterrupt(ch: Channels, frame: seq<Byte>, k: nat, stale: seq<Byte>, l: Line, chunk: seq<Byte>)
    requires Short(frame, k + |chunk|) && |stale| == BUF_SIZE && Clean(frame, stale)
    requires Partly(frame, k, stale, l) && chunk == frame[k..k + |chunk|]
    ensures Interrupt(l, chunk) == Feed(l, chunk) && Delivers(ch, l, chunk) == []
    ensures Partly(frame, k + |chunk|, stale, Interrupt(l, chunk))
  {
    FeedsOn(frame, k, stale, l, chunk);
    var fed, n := Feed(l, chunk), k + |chunk|;
    assert n > 2 ==> fed.data[2] == frame[..n][2];
    assert n > 3 ==> fed.data[3] == frame[..n][3];
  }

  lemma LastInterrupt(ch: Channels, frame: seq<Byte>, k: nat, stale: seq<Byte>, l: Line, chunk: seq<Byte>)
    requires Framed(frame) && |stale| == BUF_SIZE
    requires Partly(frame, k, stale, l) && k + |chunk| == |frame| && chunk == frame[k..k + |chunk|]
    ensures Interrupt(l, chunk) == Feed(l, chunk).(index := 0, csum := 0)
    ensures Delivers(ch, l, chunk) ==
              if Sum(frame) % 0x100 == 0 then ToUnits(Units(ch, frame[0]), frame[1..|frame| - 1]) else []
    ensures Interrupt(l, chunk).data[..|frame|] == frame
  {
    hide Units, ToUnits, Sum;
    FeedsOn(frame, k, stale, l, chunk);
    var fed := Feed(l, chunk);
    assert frame[..|frame|] == frame;
    assert forall i :: 0 <= i < |frame| ==> fed.data[i] == fed.data[..|frame|][i];
    assert fed.data[1..|frame| - 1] == frame[1..|frame| - 1];
  }

  lemma {:induction false} AfterFrame(ch: Channels, l: Line, chunks: seq<seq<Byte>>)
    requires LineOk(l) && l.index == 0 && l.csum == 0 && SizeField(l) <= BUF_SIZE && Flatten(chunks) == []
    ensures Received(ch, l, chunks) == [] && Receive(l, chunks) == l
    decreases |chunks|
  {
    if chunks != [] {
      assert chunks[0] == [] && Flatten(chunks[1..]) == [];
      assert Splice(l.data, 0, []) == l.data;
      assert Interrupt(l, chunks[0]) == l;
      AfterFrame(ch, l, chunks[1..]);
    }
  }

  lemma {:induction false} ReceivedFrom(
      ch: Channels, frame: seq<Byte>, k: nat, stale: seq<Byte>, l: Line, chunks: seq<seq<Byte>>)
    requires Framed(frame) && |stale| == BUF_SIZE && Clean(frame, stale)
    requires Partly(frame, k, stale, l) && k < |frame| && frame[k..] == Flatten(chunks)
    ensures Received(ch, l, chunks) ==
              if Sum(frame) % 0x100 == 0 then ToUnits(Units(ch, frame[0]), frame[1..|frame| - 1]) else []
    ensures Receive(l, chunks).index == 0 && Receive(l, chunks).csum == 0
    ensures Receive(l, chunks).data[..|frame|] == frame
    decreases |chunks|
  {
    var chunk, rest := chunks[0], chunks[1..];
    var n := k + |chunk|;
    assert frame[k..] == chunk + Flatten(rest);
    assert chunk == frame[k..n] && frame[n..] == Flatten(rest);
    if n < |frame| {
      PartialInterrupt(ch, frame, k, stale, l, chunk);
      ReceivedFrom(ch, frame, n, stale, Interrupt(l, chunk), rest);
    } else {
      LastInterrupt(ch, frame, k, stale, l, chunk);
      var l' := Interrupt(l, chunk);
      assert l'.data[..|frame|][2] == frame[2] && l'.data[..|frame|][3] == frame[3];
      AfterFrame(ch, l', rest);
    }
  }

  // ----- Whole frames, and runs of them -----

  /** Between frames. */
  predicate IsIdle(l: Line) { LineOk(l) && l.index == 0 && l.csum == 0 }

  lemma IdlePartly(frame: seq<Byte>, l: Line)
    requires Framed(frame) && IsIdle(l)
    ensures Partly(frame, 0, l.data, l)
  {}

  /** A packet whose header announces its payload, of less than 0x4100 bytes. */
  predicate PacketOk(packet: seq<Byte>) {
    3 <= |packet| && |packet| == Join(packet[1], packet[2]) + 3 && |packet| < 0x4100 + 3
  }

  lemma FrameOfPacket(address: Byte, packet: seq<Byte>, stale: seq<Byte>)
    requires PacketOk(packet) && |stale| == BUF_SIZE && Join(stale[2], stale[3]) <= BUF_SIZE
    ensures Framed(Frame(address, packet)) && Clean(Frame(address, packet), stale)
    ensures |Frame(address, packet)| == |packet| + 2
    ensures Frame(address, packet)[0] == address && Frame(address, packet)[1..|packet| + 1] == packet
  {
    var frame := Frame(address, packet);
    assert frame[2] == packet[1] && frame[3] == packet[2];
  }

  /** However the interrupts cut a frame up, its packet is handed on, once to each unit addressed,
      and the receiver is ready for the next frame. */
  lemma FrameIsReceived(ch: Channels, l: Line, address: Byte, packet: seq<Byte>, chunks: seq<seq<Byte>>)
    requires PacketOk(packet) && IsIdle(l) && SizeField(l) <= BUF_SIZE
    requires Flatten(chunks) == Frame(address, packet)
    ensures Received(ch, l, chunks) == ToUnits(Units(ch, address), packet)
    ensures IsIdle(Receive(l, chunks)) && SizeField(Receive(l, chunks)) <= BUF_SIZE
  {
    hide Units, ToUnits;
    var frame := Frame(address, packet);
    FrameOfPacket(address, packet, l.data);
    FrameSum(address, packet);
    IdlePartly(frame, l);
    assert frame[0..] == frame;
    ReceivedFrom(ch, frame, 0, l.data, l, chunks);
    var l' := Receive(l, chunks);
    assert l'.data[..|frame|][2] == frame[2] && l'.data[..|frame|][3] == frame[3];
  }

  lemma FlattenNone(chunks: seq<seq<Byte>>)
    requires chunks == []
    ensures Flatten(chunks) == []
  {}

  /** The first of the chunks that make up some bytes, and the others. */
  lemma Cut(bytes: seq<Byte>, k: nat, chunks: seq<seq<Byte>>)
    requires chunks != [] && k + |Flatten(chunks)| <= |bytes|
    requires Flatten(chunks) == bytes[k..k + |Flatten(chunks)|]
    ensures
      var n := k + |chunks[0]|;
      var rest := Flatten(chunks[1..]);
      && n + |rest| == k + |Flatten(chunks)| && chunks[0] == bytes[k..n] && rest == bytes[n..n + |rest|]
  {
    var n, rest := k + |chunks[0]|, Flatten(chunks[1..]);
    assert chunks[0] == Flatten(chunks)[..|chunks[0]|] == bytes[k..n];
    assert rest == Flatten(chunks)[|chunks[0]|..] == bytes[n..n + |rest|];
  }

  /** Before the bytes are complete, by what their own size field says, nothing is handed on and they
      all stay in the buffer. */
  lemma {:induction false} NothingEarly(
      ch: Channels, frame: seq<Byte>, k: nat, stale: seq<Byte>, l: Line, chunks: seq<seq<Byte>>)
    requires |stale| == BUF_SIZE && Partly(frame, k, stale, l)
    requires Short(frame, k + |Flatten(chunks)|) && Clean(frame, stale)
    requires Flatten(chunks) == frame[k..k + |Flatten(chunks)|]
    ensures Received(ch, l, chunks) == []
    ensures Partly(frame, k + |Flatten(chunks)|, stale, Receive(l, chunks))
    decreases |chunks|
  {
    hide Interrupt, Delivers, Sum, Clean, Flatten;
    if chunks == [] {
      FlattenNone(chunks);
    } else {
      var chunk, rest := chunks[0], chunks[1..];
      var n := k + |chunk|;
      Cut(frame, k, chunks);
      PartialInterrupt(ch, frame, k, stale, l, chunk);
      NothingEarly(ch, frame, n, stale, Interrupt(l, chunk), rest);
    }
  }

  datatype Sent = Sent(address: Byte, packet: seq<Byte>, chunks: seq<seq<Byte>>)

  function AllChunks(frames: seq<Sent>): seq<seq<Byte>> {
    if frames == [] then [] else frames[0].chunks + AllChunks(frames[1..])
  }

  function AllDeliveries(ch: Channels, frames: seq<Sent>): seq<Delivery> {
    if frames == [] then []
    else ToUnits(Units(ch, frames[0].address), frames[0].packet) + AllDeliveries(ch, frames[1..])
  }

  lemma {:induction false} ReceivedConcat(ch: Channels, l: Line, a: seq<seq<Byte>>, b: seq<seq<Byte>>)
    requires LineOk(l)
    ensures Received(ch, l, a + b) == Received(ch, l, a) + Received(ch, Receive(l, a), b)
    ensures Receive(l, a + b) == Receive(Receive(l, a), b)
    decreases |a|
  {
    hide Interrupt, Delivers;
    if a == [] {
      assert a + b == b;
    } else {
      ReceivedConcat(ch, Interrupt(l, a[0]), a[1..], b);
      assert (a + b)[0] == a[0] && (a + b)[1..] == a[1..] + b;
    }
  }

  function Frames(sent: seq<Sent>): (frames: seq<seq<Byte>>)
    ensures |frames| == |sent|
  {
    seq(|sent|, i requires 0 <= i < |sent| => Frame(sent[i].address, sent[i].packet))
  }

  /** Each frame is clean against the size field that the one before it leaves. */
  predicate RunClean(frames: seq<seq<Byte>>, hi: Byte, lo: Byte)
    requires forall i :: 0 <= i < |frames| ==> Framed(frames[i])
  {
    frames != [] ==>
      assert Framed(frames[0]);
      && Join(hi, lo) <= BUF_SIZE && Join(frames[0][2], lo) <= BUF_SIZE
      && RunClean(frames[1..], frames[0][2], frames[0][3])
  }

  lemma AfterClean(ch: Channels, l: Line, frame: seq<Byte>, chunks: seq<seq<Byte>>)
    requires IsIdle(l) && Framed(frame) && Sum(frame) % 0x100 == 0 && Clean(frame, l.data) && Flatten(chunks) == frame
    ensures Received(ch, l, chunks) == ToUnits(Units(ch, frame[0]), frame[1..|frame| - 1])
    ensures
      var l' := Receive(l, chunks);
      IsIdle(l') && l'.data[2] == frame[2] && l'.data[3] == frame[3]
  {
    hide Units, ToUnits, Sum;
    IdlePartly(frame, l);
    assert frame[0..] == frame;
    ReceivedFrom(ch, frame, 0, l.data, l, chunks);
    var l' := Receive(l, chunks);
    assert l'.data[..|frame|][2] == frame[2] && l'.data[..|frame|][3] == frame[3];
  }

  /** A run of frames, each cut up in its own way, with no interrupt taking bytes of two: every packet
      is handed on, in order, and nothing else. */
  lemma {:induction false} RunIsReceived(ch: Channels, l: Line, sent: seq<Sent>)
    requires IsIdle(l)
    requires forall i :: 0 <= i < |sent| ==> Framed(Frames(sent)[i]) && Flatten(sent[i].chunks) == Frames(sent)[i]
    requires RunClean(Frames(sent), l.data[2], l.data[3])
    ensures Received(ch, l, AllChunks(sent)) == AllDeliveries(ch, sent)
    decreases |sent|
  {
    hide Units, ToUnits, Frame, Flatten, Framed;
    if sent != [] {
      var first, rest := sent[0], sent[1..];
      var frame := Frames(sent)[0];
      assert Frames(sent)[1..] == Frames(rest);
      FrameSum(first.address, first.packet);
      AfterClean(ch, l, frame, first.chunks);
      FrameParts(first.address, first.packet);
      ReceivedConcat(ch, l, first.chunks, AllChunks(rest));
      forall i | 0 <= i < |rest|
        ensures Framed(Frames(rest)[i]) && Flatten(rest[i].chunks) == Frames(rest)[i]
      {
        assert rest[i] == sent[i + 1] && Frames(rest)[i] == Frames(sent)[i + 1];
      }
      RunIsReceived(ch, Receive(l, first.chunks), rest);
    }
  }

  lemma FrameParts(address: Byte, packet: seq<Byte>)
    ensures
      var frame := Frame(address, packet);
      |frame| == |packet| + 2 && frame[0] == address && frame[1..|frame| - 1] == packet
  {}

  /** Payloads of less than 0x4100 bytes make a clean run on any line that has no field beyond the
      buffer. */
  lemma {:induction false} PacketsAreClean(sent: seq<Sent>, hi: Byte, lo: Byte)
    requires Join(hi, lo) <= BUF_SIZE && forall i :: 0 <= i < |sent| ==> PacketOk(sent[i].packet)
    ensures forall i :: 0 <= i < |sent| ==> Framed(Frames(sent)[i])
    ensures RunClean(Frames(sent), hi, lo)
    decreases |sent|
  {
    forall i | 0 <= i < |sent|
      ensures Framed(Frames(sent)[i]) && Frames(sent)[i][2] <= 0x40
    {
      PacketFramed(sent[i].address, sent[i].packet);
    }
    hide Frame, Framed, PacketOk;
    if sent != [] {
      var rest := sent[1..];
      assert Frames(sent)[1..] == Frames(rest);
      assert forall i :: 0 <= i < |rest| ==> rest[i] == sent[i + 1];
      var frame := Frames(sent)[0];
      PacketsAreClean(rest, frame[2], frame[3]);
    }
  }

  lemma PacketFramed(address: Byte, packet: seq<Byte>)
    requires PacketOk(packet)
    ensures Framed(Frame(address, packet)) && Frame(address, packet)[2] <= 0x40
  {
    var frame := Frame(address, packet);
    assert frame[2] == packet[1] && frame[3] == packet[2];
  }

  lemma {:induction false} SumUpdate(s: seq<Byte>, i: nat, b: Byte)
    requires i < |s|
    ensures Sum(s[i := b]) == Sum(s) - s[i] + b
    decreases |s|
  {
    var last := |s| - 1;
    if i < last {
      SumUpdate(s[..last], i, b);
      assert s[i := b][..last] == s[..last][i := b];
    } else {
      assert s[i := b][..last] == s[..last];
    }
  }

  lemma NotZero(n: nat, a: Byte, b: Byte)
    requires n % 0x100 == 0 && n >= a && a != b
    ensures (n - a + b) % 0x100 != 0
  {
    var q := n / 0x100;
    assert n == 0x100 * q;
    if b >= a {
      assert n - a + b == 0x100 * q + (b - a);
    } else {
      assert n - a + b == 0x100 * (q - 1) + (0x100 + b - a);
    }
  }

  /** A frame with one byte altered, other than those of the size field, is dropped however it is cut
      up, and the receiver is ready for the next. */
  lemma AlteredIsDropped(
      ch: Channels, l: Line, address: Byte, packet: seq<Byte>, i: nat, b: Byte, chunks: seq<seq<Byte>>)
    requires PacketOk(packet) && IsIdle(l) && SizeField(l) <= BUF_SIZE
    requires i < |packet| + 2 && i != 2 && i != 3 && b != Frame(address, packet)[i]
    requires Flatten(chunks) == Frame(address, packet)[i := b]
    ensures Received(ch, l, chunks) == [] && IsIdle(Receive(l, chunks))
  {
    hide Units, ToUnits, Frame, Sum, Flatten;
    var frame := Frame(address, packet);
    FrameOfPacket(address, packet, l.data);
    FrameSum(address, packet);
    AlteredSum(frame, i, b);
    AlteredFrame(frame, i, b, l.data);
    IdlePartly(frame[i := b], l);
    ReceivedFrom(ch, frame[i := b], 0, l.data, l, chunks);
  }

  lemma AlteredFrame(frame: seq<Byte>, i: nat, b: Byte, stale: seq<Byte>)
    requires Framed(frame) && |stale| == BUF_SIZE && Clean(frame, stale) && i < |frame| && i != 2 && i != 3
    ensures Framed(frame[i := b]) && Clean(frame[i := b], stale)
    ensures frame[i := b][0..] == frame[i := b]
  {}

  lemma AlteredSum(frame: seq<Byte>, i: nat, b: Byte)
    requires i < |frame| && Sum(frame) % 0x100 == 0 && b != frame[i]
    ensures Sum(frame[i := b]) % 0x100 != 0
  {
    hide Sum;
    SumUpdate(frame, i, b);
    SumUpdate(frame, i, 0);
    NotZero(Sum(frame), frame[i], b);
  }

  lemma FeedWhole(l: Line, chunk: seq<Byte>)
    requires IsIdle(l) && 4 <= |chunk| <= BUF_SIZE
    ensures Feed(l, chunk).index == |chunk| && Feed(l, chunk).csum == Sum(chunk) % 0x100
    ensures SizeField(Feed(l, chunk)) == Join(chunk[2], chunk[3])
  {
    hide Sum;
    assert chunk[..|chunk|] == chunk;
  }

  /** An interrupt that announces more than the buffer holds is dropped, but its size field stays. */
  lemma DropLeavesSize(ch: Channels, l: Line, chunk: seq<Byte>)
    requires IsIdle(l) && 4 <= |chunk| <= BUF_SIZE && Join(chunk[2], chunk[3]) > BUF_SIZE
    ensures Delivers(ch, l, chunk) == [] && IsIdle(Interrupt(l, chunk))
    ensures SizeField(Interrupt(l, chunk)) == Join(chunk[2], chunk[3])
  {
    hide Sum;
    FeedWhole(l, chunk);
  }

  lemma Emptied(l: Line, chunk: seq<Byte>)
    requires LineOk(l) && SizeField(Feed(l, chunk)) > BUF_SIZE
    ensures IsIdle(Interrupt(l, chunk)) && SizeField(Interrupt(l, chunk)) == SizeField(Feed(l, chunk))
    ensures forall ch :: Delivers(ch, l, chunk) == []
  {}

  /** A frame that has lost its beginning cannot yield the packet. */
  lemma ShortFrame(ch: Channels, l: Line, chunk: seq<Byte>, units: seq<nat>, packet: seq<Byte>)
    requires IsIdle(l) && units != [] && |chunk| < |packet| + 2 && |chunk| <= BUF_SIZE
    ensures Delivers(ch, l, chunk) != ToUnits(units, packet)
  {
    var d := Delivers(ch, l, chunk);
    assert ToUnits(units, packet)[0] == Delivery(units[0], packet);
    if d != [] {
      assert |d[0].packet| == Feed(l, chunk).index - 2;
    }
  }

  lemma ReceivedTwo(ch: Channels, l: Line, a: seq<Byte>, b: seq<Byte>)
    requires LineOk(l)
    ensures Received(ch, l, [a, b]) == Delivers(ch, l, a) + Delivers(ch, Interrupt(l, a), b)
  {
    hide Delivers, Interrupt;
    assert [a, b][1..] == [b] && [b][1..] == [];
    assert Received(ch, Interrupt(l, a), [b]) == Delivers(ch, Interrupt(l, a), b) + [];
  }

  ghost predicate AllSplitsReceived(ch: Channels, l: Line, frame: seq<Byte>)
    requires LineOk(l) && Framed(frame)
  {
    forall chunks :: Flatten(chunks) == frame ==>
      Received(ch, l, chunks) == ToUnits(Units(ch, frame[0]), frame[1..|frame| - 1])
  }

  /** What is left of an earlier size field decides whether every split works: it must not look like
      a length beyond the buffer, nor must its low byte behind the new high byte. */
  lemma SplitsReceivedExactly(ch: Channels, l: Line, frame: seq<Byte>)
    requires IsIdle(l) && Framed(frame) && Sum(frame) % 0x100 == 0 && Units(ch, frame[0]) != []
    ensures AllSplitsReceived(ch, l, frame) <==> Clean(frame, l.data)
  {
    hide Units, ToUnits, Sum;
    IdlePartly(frame, l);
    if Clean(frame, l.data) {
      forall chunks | Flatten(chunks) == frame
        ensures Received(ch, l, chunks) == ToUnits(Units(ch, frame[0]), frame[1..|frame| - 1])
      {
        assert frame[0..] == frame;
        ReceivedFrom(ch, frame, 0, l.data, l, chunks);
      }
    } else {
      var k := if Join(l.data[2], l.data[3]) > BUF_SIZE then 2 else 3;
      LosesFrame(ch, l, frame, k);
    }
  }

  /** Whatever the cuts, each packet of a run is handed on with the interrupts of its own frame. */
  ghost predicate RunReceived(ch: Channels, l: Line, frames: seq<seq<Byte>>)
    requires LineOk(l) && forall i :: 0 <= i < |frames| ==> Framed(frames[i])
    decreases |frames|
  {
    frames != [] ==>
      assert Framed(frames[0]);
      forall chunks :: Flatten(chunks) == frames[0] ==>
        && Received(ch, l, chunks) == ToUnits(Units(ch, frames[0][0]), frames[0][1..|frames[0]| - 1])
        && RunReceived(ch, Receive(l, chunks), frames[1..])
  }

  /** Runs have their exact condition too: frame by frame, what the one before leaves in the field. */
  lemma {:induction false} RunReceivedExactly(ch: Channels, l: Line, frames: seq<seq<Byte>>)
    requires IsIdle(l)
    requires forall i :: 0 <= i < |frames| ==>
               Framed(frames[i]) && Sum(frames[i]) % 0x100 == 0 && Units(ch, frames[i][0]) != []
    ensures RunReceived(ch, l, frames) <==> RunClean(frames, l.data[2], l.data[3])
    decreases |frames|
  {
    hide Units, ToUnits, Sum, Flatten, Received, Receive;
    if frames != [] {
      var frame, rest := frames[0], frames[1..];
      SplitsReceivedExactly(ch, l, frame);
      if Clean(frame, l.data) {
        forall chunks | Flatten(chunks) == frame
          ensures Received(ch, l, chunks) == ToUnits(Units(ch, frame[0]), frame[1..|frame| - 1])
          ensures RunReceived(ch, Receive(l, chunks), rest) <==> RunClean(rest, frame[2], frame[3])
        {
          AfterClean(ch, l, frame, chunks);
          RunReceivedExactly(ch, Receive(l, chunks), rest);
        }
        FlattenOne(frame);
      }
    }
  }

  lemma FlattenOne(a: seq<Byte>)
    ensures Flatten([a]) == a
  {
    FlattenSnoc([], a);
    assert [] + [a] == [a];
  }

  const OVERSIZED: seq<Byte> := [1, 0x10, 0xFF, 0xFF]

  /** The failing state is reached from any idle line, and the next frame is lost if it comes in as two
      bytes and the rest: nobody gets its packet. */
  lemma LostAfterDrop(ch: Channels, l: Line, address: Byte, packet: seq<Byte>)
    requires PacketOk(packet) && IsIdle(l)
    ensures IsIdle(Interrupt(l, OVERSIZED)) && SizeField(Interrupt(l, OVERSIZED)) > BUF_SIZE
    ensures
      var frame := Frame(address, packet);
      forall unit :: Delivery(unit, packet) !in Received(ch, l, [OVERSIZED, frame[..2], frame[2..]])
  {
    hide Units, Frame, Sum, Interrupt, Delivers, Received, SizeField;
    var frame := Frame(address, packet);
    FrameOfPacket(address, packet, Zeros(BUF_SIZE));
    DropLeavesSize(ch, l, OVERSIZED);
    var l', a, b := Interrupt(l, OVERSIZED), frame[..2], frame[2..];
    FieldStays(l', a);
    Emptied(l', a);
    ReceivedThree(ch, l, OVERSIZED, a, b);
    NotThePacket(ch, Interrupt(l', a), b);
  }

  lemma FieldStays(l: Line, chunk: seq<Byte>)
    requires IsIdle(l) && |chunk| <= 2
    ensures SizeField(Feed(l, chunk)) == SizeField(l)
  {
    hide Sum;
    assert chunk[..|chunk|] == chunk;
  }

  lemma NotThePacket(ch: Channels, l: Line, chunk: seq<Byte>)
    requires IsIdle(l)
    ensures forall d :: d in Delivers(ch, l, chunk) ==> |d.packet| < |chunk|
  {
    hide Units, Sum;
  }

  lemma ReceivedThree(ch: Channels, l: Line, a: seq<Byte>, b: seq<Byte>, c: seq<Byte>)
    requires LineOk(l)
    ensures Received(ch, l, [a, b, c]) ==
              Delivers(ch, l, a) + Delivers(ch, Interrupt(l, a), b) +
              Delivers(ch, Interrupt(Interrupt(l, a), b), c)
  {
    hide Delivers, Interrupt;
    assert [a, b, c][1..] == [b, c];
    ReceivedTwo(ch, Interrupt(l, a), b, c);
  }

  lemma LosesFrame(ch: Channels, l: Line, frame: seq<Byte>, k: nat)
    requires IsIdle(l) && Framed(frame) && Units(ch, frame[0]) != [] && 2 <= k <= 3
    requires Join(if k == 2 then l.data[2] else frame[2], l.data[3]) > BUF_SIZE
    ensures !AllSplitsReceived(ch, l, frame)
  {
    hide Units, ToUnits, Sum;
    var a, b := frame[..k], frame[k..];
    assert a[..|a|] == a && SizeField(Feed(l, a)) > BUF_SIZE;
    Emptied(l, a);
    ReceivedTwo(ch, l, a, b);
    ShortFrame(ch, Interrupt(l, a), b, Units(ch, frame[0]), frame[1..|frame| - 1]);
    assert Flatten([a, b]) == frame by { FlattenTwo(a, b); }
  }

  lemma FlattenTwo(a: seq<Byte>, b: seq<Byte>)
    ensures Flatten([a, b]) == a + b
  {
    FlattenSnoc([a], b);
    FlattenSnoc([], a);
    assert [a] + [b] == [a, b] && [] + [a] == [a];
  }

  // ----- The node -----

  /** The answer to a packet for one unit goes out; a broadcast is not answered. */
  function Answered(handed: seq<Delivery>, answer: Delivery -> seq<Byte>): seq<Byte> {
    if |handed| == 1 then Frame(MASTER_ADDRESS, answer(handed[0])) else []
  }

  lemma NoAnswer(answer: Delivery -> seq<Byte>)
    ensures Answered([], answer) == []
  {}

  class Node {
    const channels: Channels
    const data: array<Byte>
    var index: nat
    var csum: Byte
    /** What has been given to the protocol servers, and the bytes put on the line. */
    var handed: seq<Delivery>
    var sent: seq<Byte>

    /** No channel has the broadcast address. */
    ghost predicate Valid()
      reads this
    {
      && data.Length == BUF_SIZE && index <= BUF_SIZE
      && BCAST_ADDRESS !in [channels.ch0, channels.ch1, channels.ch2, channels.ch3]
    }

    ghost function State(): (l: Line)
      requires Valid()
      reads this, data
      ensures LineOk(l)
    {
      Line(data[..], index, csum)
    }

    constructor (channels: Channels)
      requires BCAST_ADDRESS !in [channels.ch0, channels.ch1, channels.ch2, channels.ch3]
      ensures Valid() && IsIdle(State()) && SizeField(State()) == 0 && this.channels == channels
      ensures handed == [] && sent == [] && fresh(data)
    {
      hide SizeField;
      this.channels := channels;
      data := new Byte[BUF_SIZE](_ => 0);
      index, csum, handed, sent := 0, 0, [], [];
      new;
      NoSize(State());
    }

    /** The characters of one interrupt, as long as there is room. */
    method TakeIn(chunk: seq<Byte>)
      requires Valid()
      modifies this`index, this`csum, data
      ensures Valid() && State() == Feed(old(State()), chunk)
    {
      hide Sum, Splice;
      ghost var l := State();
      ghost var n := Least(|chunk|, BUF_SIZE - index);
      SumNone(chunk);
      var i := 0;
      while i < |chunk| && index < BUF_SIZE
        invariant i <= n && index == l.index + i
        invariant forall k :: 0 <= k < l.index || index <= k < BUF_SIZE ==> data[k] == l.data[k]
        invariant forall k :: 0 <= k < i ==> data[l.index + k] == chunk[k]
        invariant csum == (l.csum + Sum(chunk[..i])) % 0x100
      {
        SumNext(chunk, i);
        AddMod(l.csum + Sum(chunk[..i]), chunk[i]);
        data[index] := chunk[i];
        csum := (csum + data[index]) % 0x100;
        index := index + 1;
        i := i + 1;
      }
      SplicedIs(l.data, l.index, chunk[..n], data[..]);
    }

    /** The receive interrupt at a low baud rate. `answer` stands for the protocol servers. */
    method OnInterrupt(chunk: seq<Byte>, answer: Delivery -> seq<Byte>)
      requires Valid()
      modifies this, data
      ensures Valid() && State() == Interrupt(old(State()), chunk)
      ensures handed == old(handed) + Delivers(channels, old(State()), chunk)
      ensures sent == old(sent) + Answered(Delivers(channels, old(State()), chunk), answer)
    {
      hide Feed, Units, ToUnits, Answered;
      NoAnswer(answer);
      TakeIn(chunk);
      ghost var fed := State();
      var sCarga := data[2] as int * 0x100 + data[3];
      if index > sCarga + 4 {
        ProcessData(answer);
      }
      if sCarga > BUF_SIZE {
        index, csum := 0, 0;
      }
    }

    method ProcessData(answer: Delivery -> seq<Byte>)
      requires Valid()
      modifies this
      ensures Valid() && State() == old(State()).(index := 0, csum := 0)
      ensures handed == old(handed) + Handed(channels, old(State()))
      ensures sent == old(sent) + Answered(Handed(channels, old(State())), answer)
    {
      if index >= 2 && csum == 0 {
        var units := Units(channels, data[0]);
        var packet := data[1..index - 1];
        var i := 0;
        while i < |units|
          invariant i <= |units| && index == old(index) && sent == old(sent)
          invariant handed == old(handed) + ToUnits(units, packet)[..i]
        {
          handed := handed + [Delivery(units[i], packet)];
          assert ToUnits(units, packet)[..i + 1] == ToUnits(units, packet)[..i] + [Delivery(units[i], packet)];
          i := i + 1;
        }
        assert ToUnits(units, packet)[..i] == ToUnits(units, packet) == Handed(channels, old(State()));
        if units != [] && data[0] != BCAST_ADDRESS {
          Transmit(answer(Delivery(units[0], packet)));
        }
      }
      index, csum := 0, 0;
    }

    /** The answer goes out as a frame to the master. */
    method Transmit(packet: seq<Byte>)
      modifies this`sent
      ensures sent == old(sent) + Frame(MASTER_ADDRESS, packet)
    {
      hide Sum;
      var buffer := [MASTER_ADDRESS] + packet;
      SumNone(buffer);
      var check: Byte := 0;
      var i := 0;
      while i < |buffer|
        invariant i <= |buffer| && check == (0x100 - Sum(buffer[..i]) % 0x100) % 0x100
        invariant sent == old(sent) + buffer[..i]
      {
        SumNext(buffer, i);
        TakeAway(Sum(buffer[..i]), buffer[i]);
        check := (check - buffer[i]) % 0x100;
        assert buffer[..i + 1] == buffer[..i] + [buffer[i]];
        sent := sent + [buffer[i]];
        i := i + 1;
      }
      assert buffer[..i] == buffer;
      sent := sent + [check];
    }
  }

  lemma NoSize(l: Line)
    requires LineOk(l) && l.data[2] == l.data[3] == 0
    ensures SizeField(l) == 0
  {}

  lemma SumNone(s: seq<Byte>)
    ensures Sum(s[..0]) == 0
  {}

  lemma TakeAway(n: nat, b: Byte)
    ensures ((0x100 - n % 0x100) % 0x100 - b) % 0x100 == (0x100 - (n + b) % 0x100) % 0x100
  {
    var r: Byte := n % 0x100;
    AddMod(n, b);
    Around(r + b);
    Around(0x100 - r);
    Around(0x100 - (r + b) % 0x100);
    Around((0x100 - r) % 0x100 - b);
  }

  lemma Around(x: int)
    requires -0x100 <= x < 0x200
    ensures x % 0x100 == if x < 0 then x + 0x100 else if x < 0x100 then x else x - 0x100
  {}
}
