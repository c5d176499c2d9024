/** The waveform curves shared between the two cores: translation of addresses between their memory
    maps, and the curve callbacks of the BSMP server over the shared region. */
module WfmRef {
  import opened Bytes

  const WORD := 0x1_0000_0000
  const M3_CTOMMSGRAM_START := 0x2007F000
  const C28_CTOMMSGRAM_START := 0x0003F800
  /** The shared RAM starts here. */
  const SHARED_START := 0x20008000
  const NUM_WFMREF_CURVES := 2

  /** From the byte addresses of one core to the 16-bit-word addresses of the other. */
  function ToControl(add: U32): U32 {
    if add >= M3_CTOMMSGRAM_START then (add - 0x20000000) / 2 else (add - 0x1FFF0000) % WORD / 2
  }

  function ToMaster(add: U32): U32 {
    if add >= C28_CTOMMSGRAM_START then (add * 2 % WORD + 0x20000000) % WORD else (add * 2 % WORD + 0x1FFF0000) % WORD
  }

  /** The addresses both cores can name. */
  predicate Shared(add: U32) { add % 2 == 0 && (0x1FFF0000 <= add < 0x2006F000 || add >= M3_CTOMMSGRAM_START) }

  lemma SharedToControl(add: U32)
    requires 0x20000000 <= add < M3_CTOMMSGRAM_START
    ensures ToControl(add) == (add - 0x1FFF0000) / 2
  {
    Small(add - 0x1FFF0000);
  }

  lemma Small(x: int)
    requires 0 <= x < WORD
    ensures x % WORD == x
  {}

  /** The three stretches of addresses: below the RAM of the cores, RAM, and from the message RAM up. */
  function Stretch(add: U32): nat { if add < 0x1FFF0000 then 0 else if add < M3_CTOMMSGRAM_START then 1 else 2 }

  /** What is subtracted from an address in each stretch, before halving. */
  function Offset(stretch: nat): int {
    if stretch == 0 then 0x1FFF0000 - WORD else if stretch == 1 then 0x1FFF0000 else 0x20000000
  }

  lemma ByStretch(add: U32)
    ensures ToControl(add) == (add - Offset(Stretch(add))) / 2
  {
    if add < M3_CTOMMSGRAM_START {
      if add < 0x1FFF0000 {
        Small(add - 0x1FFF0000 + WORD);
        assert (add - 0x1FFF0000) % WORD == (add - 0x1FFF0000 + WORD) % WORD;
      } else {
        Small(add - 0x1FFF0000);
      }
    }
  }

  /** One translation undoes the other for exactly those addresses. */
  lemma TranslationsUndo(add: U32)
    ensures ToMaster(ToControl(add)) == add <==> Shared(add)
  {
    hide ToControl, ToMaster;
    ByStretch(add);
    var y := ToControl(add);
    BackByHalf(y);
    Small(add);
    if add >= M3_CTOMMSGRAM_START {
      assert y >= C28_CTOMMSGRAM_START;
    } else if add >= 0x1FFF0000 {
      assert y >= C28_CTOMMSGRAM_START <==> add >= 0x2006F000;
    }
  }

  lemma BackByHalf(y: U32)
    requires y < WORD / 2
    ensures
      var back := 2 * y + if y >= C28_CTOMMSGRAM_START then 0x20000000 else 0x1FFF0000;
      ToMaster(y) == if back < WORD then back else back - WORD
  {
    Small(2 * y);
    var back := 2 * y + if y >= C28_CTOMMSGRAM_START then 0x20000000 else 0x1FFF0000;
    if back < WORD {
      Small(back);
    } else {
      Small(back - WORD);
      assert back % WORD == (back - WORD) % WORD;
    }
  }

  lemma Halved(x: nat, words: nat)
    ensures (x + 2 * words) / 2 == x / 2 + words
  {}

  /** Two bytes on one side are a word on the other, exactly within a stretch. */
  lemma TranslationIsLinear(add: U32, words: nat)
    requires add + 2 * words < WORD
    ensures ToControl(add + 2 * words) == ToControl(add) + words <==> Stretch(add) == Stretch(add + 2 * words)
    ensures 0x20000000 <= add < M3_CTOMMSGRAM_START ==> ToControl(add) >= 2
  {
    hide ToControl;
    ByStretch(add);
    ByStretch(add + 2 * words);
    Halved(add - Offset(Stretch(add)), words);
    var gap := (Offset(Stretch(add)) - Offset(Stretch(add + 2 * words))) / 2;
    assert Stretch(add) != Stretch(add + 2 * words) ==> gap != 0;
    assert (add + 2 * words - Offset(Stretch(add + 2 * words))) / 2 ==
           (add - Offset(Stretch(add)) + 2 * words) / 2 + gap;
  }

  // ----- Blocks of a curve -----

  /** Where a block begins in its curve. */
  function At(block: nat, blockSize: nat): nat { block * blockSize }

  datatype Write = Write(block: nat, data: seq<Byte>)

  /** Every write within one block of the curve. */
  predicate WriteOk(w: Write, blockSize: nat, size: nat) {
    |w.data| <= blockSize && At(w.block, blockSize) + blockSize <= size
  }

  predicate WritesOk(ws: seq<Write>, blockSize: nat, size: nat) {
    forall i :: 0 <= i < |ws| ==> WriteOk(ws[i], blockSize, size)
  }

  /** A write that the server passes on: to which curve, and whether that is a time of playing. */
  datatype Request = Request(id: nat, write: Write, playing: bool)

  predicate RequestsOk(rs: seq<Request>, blockSizes: seq<nat>, size: nat)
    requires |blockSizes| == NUM_WFMREF_CURVES
  {
    forall i :: 0 <= i < |rs| ==> rs[i].id < NUM_WFMREF_CURVES && WriteOk(rs[i].write, blockSizes[rs[i].id], size)
  }

  /** The writes that one curve takes. */
  function Accepted(rs: seq<Request>, selected: nat, id: nat): seq<Write>
    decreases |rs|
  {
    if rs == [] then []
    else
      var before, r := Accepted(rs[..|rs| - 1], selected, id), rs[|rs| - 1];
      if r.id == id && !(id == selected && r.playing) then before + [r.write] else before
  }

  lemma {:induction false} AcceptedOk(rs: seq<Request>, selected: nat, id: nat, blockSizes: seq<nat>, size: nat)
    requires |blockSizes| == NUM_WFMREF_CURVES && RequestsOk(rs, blockSizes, size) && id < NUM_WFMREF_CURVES
    ensures WritesOk(Accepted(rs, selected, id), blockSizes[id], size)
    decreases |rs|
  {
    hide WriteOk;
    if rs != [] {
      assert WriteOk(rs[|rs| - 1].write, blockSizes[rs[|rs| - 1].id], size);
      AcceptedOk(rs[..|rs| - 1], selected, id, blockSizes, size);
    }
  }

  lemma AcceptedNext(rs: seq<Request>, i: nat, selected: nat, id: nat)
    requires i < |rs|
    ensures
      var before := Accepted(rs[..i], selected, id);
      Accepted(rs[..i + 1], selected, id) ==
      if rs[i].id == id && !(id == selected && rs[i].playing) then before + [rs[i].write] else before
  {
    assert rs[..i + 1][..i] == rs[..i];
  }

  lemma AcceptedNone(rs: seq<Request>, selected: nat)
    requires rs == []
    ensures forall id :: Accepted(rs, selected, id) == []
  {}

  lemma WriteAllNext(bytes: seq<Byte>, ws: seq<Write>, w: Write, blockSize: nat)
    requires WritesOk(ws, blockSize, |bytes|) && WriteOk(w, blockSize, |bytes|)
    ensures WritesOk(ws + [w], blockSize, |bytes|)
    ensures WriteAll(bytes, ws + [w], blockSize) ==
              Splice(WriteAll(bytes, ws, blockSize), At(w.block, blockSize), w.data)
  {
    assert (ws + [w])[..|ws|] == ws;
    hide Splice, At, WriteOk;
  }

  function WriteAll(bytes: seq<Byte>, ws: seq<Write>, blockSize: nat): (r: seq<Byte>)
    requires WritesOk(ws, blockSize, |bytes|)
    ensures |r| == |bytes|
    decreases |ws|
  {
    if ws == [] then bytes
    else
      var w := ws[|ws| - 1];
      Splice(WriteAll(bytes, ws[..|ws| - 1], blockSize), At(w.block, blockSize), w.data)
  }

  /** Byte k of a block: that of the last write to the block that was long enough, if there was one. */
  function LastWritten(ws: seq<Write>, block: nat, k: nat, first: Byte): Byte
    decreases |ws|
  {
    if ws == [] then first
    else
      var w := ws[|ws| - 1];
      if w.block == block && k < |w.data| then w.data[k] else LastWritten(ws[..|ws| - 1], block, k, first)
  }

  lemma Before(a: nat, b: nat, size: nat)
    requires a < b
    ensures At(a, size) + size <= At(b, size)
  {
    assert (a + 1) * size <= b * size;
  }

  /** Reads return the bytes last written. */
  lemma {:induction false} ReadsLastWritten(bytes: seq<Byte>, ws: seq<Write>, blockSize: nat, block: nat, k: nat)
    requires WritesOk(ws, blockSize, |bytes|) && k < blockSize && At(block, blockSize) + blockSize <= |bytes|
    ensures WriteAll(bytes, ws, blockSize)[At(block, blockSize) + k] ==
              LastWritten(ws, block, k, bytes[At(block, blockSize) + k])
    decreases |ws|
  {
    hide At, Splice;
    if ws != [] {
      var w, init := ws[|ws| - 1], ws[..|ws| - 1];
      assert WriteOk(w, blockSize, |bytes|);
      ReadsLastWritten(bytes, init, blockSize, block, k);
      SpliceAt(WriteAll(bytes, init, blockSize), At(w.block, blockSize), w.data);
      if w.block < block {
        Before(w.block, block, blockSize);
      } else if block < w.block {
        Before(block, w.block, blockSize);
      }
    }
  }

  // ----- The structure both cores share -----

  /** The pointers of one curve, as addresses of the control core. */
  datatype Pointers = Pointers(start: U32, end: U32, idx: U32)

  /** The address of the last element, computed in 32 bits. */
  function LastElement(start: U32, elements: nat): U32 { (start + 4 * elements - 4) % WORD }

  lemma LastElementIs(start: U32, elements: nat)
    requires 4 <= start && start + 4 * elements < WORD
    ensures LastElement(start, elements) == start + 4 * elements - 4
  {
    Small(start + 4 * elements - 4);
  }

  /** To the first element, the last, and the one after. */
  function InitialPointers(start: U32, elements: nat): Pointers
    requires start + 4 * elements < WORD
  {
    Pointers(ToControl(start), ToControl(LastElement(start, elements)), ToControl(start + 4 * elements))
  }

  lemma InitialOk(start: U32, elements: nat)
    requires SHARED_START <= start && start + 4 * elements < 0x2006F000
    ensures
      var c := InitialPointers(start, elements);
      c.start == ToControl(start) && c.end == c.idx - 2 && 2 * (c.idx - c.start) == 4 * elements
  {
    hide ToControl, LastElement;
    LastElementIs(start, elements);
    TranslationIsLinear(start, 2 * elements);
    TranslationIsLinear(start + 4 * elements - 4, 2);
  }

  lemma EvenSum(a: nat, b: nat)
    requires a % 2 == 0 && b % 2 == 0
    ensures (a + b) % 2 == 0 && 2 * ((a + b) / 2) == a + b
  {}

  /** An odd number of bytes loses half a word. */
  lemma AfterWrite(start: U32, bytes: nat)
    requires SHARED_START <= start && start + bytes < 0x2006F000 && start % 2 == 0
    ensures ToControl(start + bytes) - ToControl(start) == bytes / 2 && ToControl(start + bytes) >= 2
  {
    SharedToControl(start);
    SharedToControl(start + bytes);
    hide ToControl;
    assert (start - 0x1FFF0000 + bytes) / 2 == (start - 0x1FFF0000) / 2 + bytes / 2;
  }

  lemma SliceSlice(mem: seq<Byte>, start: nat, size: nat, o: nat, n: nat)
    requires start + size <= |mem| && o + n <= size
    ensures mem[start..start + size][o..o + n] == mem[start + o..start + o + n]
  {
    var curve := mem[start..start + size];
    assert forall k :: 0 <= k < size ==> curve[k] == mem[start + k];
    assert curve[o..o + n] == mem[start + o..start + o + n];
  }

  lemma SpliceWithin(mem: seq<Byte>, start: nat, size: nat, o: nat, data: seq<Byte>)
    requires start + size <= |mem| && o + |data| <= size
    ensures Splice(mem, start + o, data)[start..start + size] == Splice(mem[start..start + size], o, data)
  {
    hide Splice;
    SpliceAt(mem, start + o, data);
    SpliceAt(mem[start..start + size], o, data);
  }

  lemma SpliceAside(mem: seq<Byte>, at: nat, data: seq<Byte>, start: nat, size: nat)
    requires at + |data| <= |mem| && start + size <= |mem|
    requires at + |data| <= start || start + size <= at
    ensures |Splice(mem, at, data)| == |mem| && Splice(mem, at, data)[start..start + size] == mem[start..start + size]
  {
    hide Splice;
    SpliceAt(mem, at, data);
  }

  /** The pointers of a curve after a write. */
  predicate Marks(c: Pointers, start: U32, w: Write, blockSize: nat) {
    c.start == start && c.end == c.idx - 2 && c.idx - c.start == (At(w.block, blockSize) + |w.data|) / 2
  }

  /** A curve once with contents `was` and pointers `from`, after a run of writes. */
  predicate Written(was: seq<Byte>, from: Pointers, ws: seq<Write>, blockSize: nat, now: seq<Byte>, c: Pointers) {
    && WritesOk(ws, blockSize, |was|) && now == WriteAll(was, ws, blockSize)
    && if ws == [] then c == from else Marks(c, from.start, ws[|ws| - 1], blockSize)
  }

  lemma WrittenNone(was: seq<Byte>, from: Pointers, blockSize: nat)
    ensures Written(was, from, [], blockSize, was, from)
  {}

  lemma WrittenNext(was: seq<Byte>, from: Pointers, ws: seq<Write>, w: Write, blockSize: nat, now: seq<Byte>,
                    c: Pointers, now': seq<Byte>, c': Pointers)
    requires Written(was, from, ws, blockSize, now, c) && Marks(c', c.start, w, blockSize)
    requires WriteOk(w, blockSize, |was|) && |now| == |was|
    requires now' == Splice(now, At(w.block, blockSize), w.data)
    ensures Written(was, from, ws + [w], blockSize, now', c')
  {
    WriteAllNext(was, ws, w, blockSize);
    hide At, Splice, WriteOk;
  }

  lemma Within(w: Write, blockSize: nat, size: nat)
    requires WriteOk(w, blockSize, size)
    ensures |w.data| <= blockSize && At(w.block, blockSize) + blockSize <= size
  {}

  lemma Marked(c: Pointers, start: U32, w: Write, blockSize: nat)
    requires c.start == start && c.end == c.idx - 2 && c.idx - c.start == (At(w.block, blockSize) + |w.data|) / 2
    ensures Marks(c, start, w, blockSize)
  {}

  lemma ReadsLast(was: seq<Byte>, ws: seq<Write>, blockSize: nat, block: nat, now: seq<Byte>, data: seq<Byte>)
    requires WritesOk(ws, blockSize, |was|) && now == WriteAll(was, ws, blockSize)
    requires At(block, blockSize) + blockSize <= |was|
    requires data == now[At(block, blockSize)..At(block, blockSize) + blockSize]
    ensures forall k :: 0 <= k < |data| ==> data[k] == LastWritten(ws, block, k, was[At(block, blockSize) + k])
  {
    hide At, WritesOk, WriteAll, LastWritten;
    forall k | 0 <= k < |data|
      ensures data[k] == LastWritten(ws, block, k, was[At(block, blockSize) + k])
    {
      ReadsLastWritten(was, ws, blockSize, block, k);
    }
  }

  /** A copy into one of two areas apart from one another. */
  lemma CopiedInto(mem: seq<Byte>, start: nat, other: nat, size: nat, o: nat, data: seq<Byte>)
    requires start + size <= |mem| && other + size <= |mem| && o + |data| <= size
    requires start + size <= other || other + size <= start
    ensures
      var mem' := Splice(mem, start + o, data);
      && |mem'| == |mem| && mem'[start..start + size] == Splice(mem[start..start + size], o, data)
      && mem'[other..other + size] == mem[other..other + size]
  {
    hide Splice;
    SpliceWithin(mem, start, size, o, data);
    SpliceAside(mem, start + o, data, other, size);
  }

  class Waveforms {
    /** The shared region, and its address. */
    const region: array<Byte>
    const base: U32
    var selected: nat
    var curves: seq<Pointers>
    /** Bytes of a curve, and where the first one begins in the region. */
    ghost var size: nat
    ghost var offset: nat

    ghost predicate Valid()
      reads this
    {
      && SHARED_START <= base && base + region.Length < 0x2006F000 && base % 2 == 0
      && offset + NUM_WFMREF_CURVES * size <= region.Length && offset % 2 == 0 && size % 2 == 0
      && |curves| == NUM_WFMREF_CURVES
      && curves[0].start == ToControl(base + Start(0)) && curves[1].start == ToControl(base + Start(1))
    }

    ghost function Start(id: int): nat
      reads this`offset, this`size
    {
      if id == 0 then offset else offset + size
    }

    /** The two curves are in the region and apart from one another. */
    lemma Places(id: nat)
      requires Valid() && id < NUM_WFMREF_CURVES
      ensures Start(id) + size <= region.Length && SHARED_START <= base && base + region.Length < 0x2006F000
      ensures Start(id) + size <= Start(1 - id) || Start(1 - id) + size <= Start(id)
      ensures Contents(id) == region[..][Start(id)..Start(id) + size]
      ensures |curves| == NUM_WFMREF_CURVES
    {
      hide ToControl;
    }

    lemma PointsToStart(id: nat)
      requires Valid() && id < NUM_WFMREF_CURVES
      ensures Shared(base + Start(id)) && (base + Start(id)) % 2 == 0
      ensures |curves| == NUM_WFMREF_CURVES && curves[id].start == ToControl(base + Start(id))
    {
      hide ToControl;
      EvenSum(base, offset);
      EvenSum(base + offset, size);
    }

    /** The bytes of one curve. */
    ghost function Contents(id: nat): (s: seq<Byte>)
      requires Valid() && id < NUM_WFMREF_CURVES
      reads this, region
      ensures |s| == size
    {
      region[..][Start(id)..Start(id) + size]
    }

    constructor (region: array<Byte>, base: U32, selected: nat, offset: nat, elements: nat)
      requires SHARED_START <= base && base + region.Length < 0x2006F000 && base % 2 == 0
      requires offset + NUM_WFMREF_CURVES * 4 * elements <= region.Length && offset % 2 == 0
      ensures Valid() && this.region == region && this.base == base && this.selected == selected
      ensures this.offset == offset && size == 4 * elements
      ensures forall id :: 0 <= id < NUM_WFMREF_CURVES ==>
                var c := curves[id];
                c.end == c.idx - 2 && 2 * (c.idx - c.start) == size
    {
      hide ToControl, LastElement, InitialPointers;
      this.region, this.base, this.selected := region, base, selected;
      this.offset, size := offset, 4 * elements;
      curves := [];
      new;
      for i := 0 to NUM_WFMREF_CURVES
        invariant |curves| == i && this.offset == offset && size == 4 * elements && this.selected == selected
        invariant i > 0 ==> curves[0] == InitialPointers(base + offset, elements)
        invariant i > 1 ==> curves[1] == InitialPointers(base + offset + 4 * elements, elements)
      {
        var start := base + offset + if i == 0 then 0 else 4 * elements;
        curves := curves + [InitialPointers(start, elements)];
      }
      InitialOk(base + offset, elements);
      InitialOk(base + offset + 4 * elements, elements);
    }

    /** Any run of writes to both curves, refused ones among them, and then a read: every byte is the one
        last written there by a write that was not refused. */
    method WritesThenRead(rs: seq<Request>, blockSizes: seq<nat>, id: nat, block: nat) returns (data: seq<Byte>)
      requires Valid() && |blockSizes| == NUM_WFMREF_CURVES && RequestsOk(rs, blockSizes, size)
      requires id < NUM_WFMREF_CURVES && At(block, blockSizes[id]) + blockSizes[id] <= size
      modifies this`curves, region
      ensures Valid() && |data| == blockSizes[id]
      ensures forall k :: 0 <= k < |data| ==>
                data[k] == LastWritten(Accepted(rs, selected, id), block, k,
                                       old(Contents(id))[At(block, blockSizes[id]) + k])
    {
      hide Valid, Contents, Accepted, LastWritten, WriteAll, WritesOk, At;
      ghost var bytes, ws := Contents(id), Accepted(rs, selected, id);
      Writes(rs, blockSizes);
      data := ReadBlock(id, block, blockSizes[id]);
      ReadsLast(bytes, ws, blockSizes[id], block, Contents(id), data);
    }

    /** Each curve holds what its accepted writes leave, and its pointers mark the end of the last. */
    method Writes(rs: seq<Request>, blockSizes: seq<nat>)
      requires Valid() && |blockSizes| == NUM_WFMREF_CURVES && RequestsOk(rs, blockSizes, size)
      modifies this`curves, region
      ensures Valid()
      ensures Written(old(Contents(0)), old(curves[0]), Accepted(rs, selected, 0), blockSizes[0],
                      Contents(0), curves[0])
      ensures Written(old(Contents(1)), old(curves[1]), Accepted(rs, selected, 1), blockSizes[1],
                      Contents(1), curves[1])
    {
      hide Valid, Contents, Accepted, Written, WriteOk, At, Marks, Splice, Start;
      Places(0);
      ghost var was0, was1, from0, from1 := Contents(0), Contents(1), curves[0], curves[1];
      WrittenNone(was0, from0, blockSizes[0]);
      WrittenNone(was1, from1, blockSizes[1]);
      AcceptedNone(rs[..0], selected);
      for i := 0 to |rs|
        invariant Valid() && |curves| == NUM_WFMREF_CURVES
        invariant Written(was0, from0, Accepted(rs[..i], selected, 0), blockSizes[0], Contents(0), curves[0])
        invariant Written(was1, from1, Accepted(rs[..i], selected, 1), blockSizes[1], Contents(1), curves[1])
      {
        var id, w := rs[i].id, rs[i].write;
        AcceptedNext(rs, i, selected, 0);
        AcceptedNext(rs, i, selected, 1);
        ghost var ws0, ws1 := Accepted(rs[..i], selected, 0), Accepted(rs[..i], selected, 1);
        ghost var now, c := Contents(id), curves[id];
        Within(w, blockSizes[id], size);
        var ok := WriteBlock(id, w.block, blockSizes[id], w.data, rs[i].playing);
        if ok {
          Marked(curves[id], c.start, w, blockSizes[id]);
          if id == 0 {
            WrittenNext(was0, from0, ws0, w, blockSizes[0], now, c, Contents(0), curves[0]);
          } else {
            WrittenNext(was1, from1, ws1, w, blockSizes[1], now, c, Contents(1), curves[1]);
          }
        }
      }
      assert rs[..|rs|] == rs;
    }

    /** Where a block of a curve is, by way of the control core's pointer. */
    method Address(id: nat, block: nat, blockSize: nat) returns (a: nat)
      requires Valid() && id < NUM_WFMREF_CURVES
      ensures a == base + Start(id) + At(block, blockSize)
    {
      hide ToMaster, ToControl, At, Start, Shared;
      Places(id);
      PointsToStart(id);
      TranslationsUndo(base + Start(id));
      a := ToMaster(curves[id].start) + At(block, blockSize);
    }

    method ReadBlock(id: nat, block: nat, blockSize: nat) returns (data: seq<Byte>)
      requires Valid() && id < NUM_WFMREF_CURVES && At(block, blockSize) + blockSize <= size
      ensures data == Contents(id)[At(block, blockSize)..At(block, blockSize) + blockSize]
    {
      hide ToMaster, ToControl, At;
      Places(id);
      var a := Address(id, block, blockSize);
      data := region[..][a - base..a - base + blockSize];
      SliceSlice(region[..], Start(id), size, At(block, blockSize), blockSize);
    }

    /** Refused while the selected curve is being played. */
    method WriteBlock(id: nat, block: nat, blockSize: nat, data: seq<Byte>, playing: bool) returns (ok: bool)
      requires Valid() && id < NUM_WFMREF_CURVES
      requires |data| <= blockSize && At(block, blockSize) + blockSize <= size
      modifies this`curves, region
      ensures Valid() && |curves| == NUM_WFMREF_CURVES
      ensures ok <==> !(id == selected && playing)
      ensures !ok ==> curves == old(curves) && region[..] == old(region[..])
      ensures !ok ==> Contents(id) == old(Contents(id)) && Contents(1 - id) == old(Contents(1 - id))
      ensures ok ==>
                var c := curves[id];
                && c.start == old(curves[id].start) && c.end == c.idx - 2
                && c.idx - c.start == (At(block, blockSize) + |data|) / 2
                && (2 * (c.idx - c.start) == At(block, blockSize) + |data| <==>
                      (At(block, blockSize) + |data|) % 2 == 0)
      ensures ok ==> Contents(id) == Splice(old(Contents(id)), At(block, blockSize), data)
      ensures ok ==> Contents(1 - id) == old(Contents(1 - id)) && curves[1 - id] == old(curves[1 - id])
      ensures ok ==> Start(id) + At(block, blockSize) + |data| <= region.Length
      ensures ok ==> region[..] == Splice(old(region[..]), Start(id) + At(block, blockSize), data)
    {
      hide ToMaster, ToControl, At, Splice, Shared, Start, Valid, Contents;
      Places(id);
      if id == selected && playing {
        return false;
      }
      var a := Address(id, block, blockSize);
      CopyBlock(id, At(block, blockSize), data, a);
      Places(id);
      PointsToStart(id);
      AfterWrite(base + Start(id), At(block, blockSize) + |data|);
      SetPointers(id, Pointers(curves[id].start, ToControl(a + |data|) - 2, ToControl(a + |data|)));
      ok := true;
    }

    /** The memcpy of a block: into its curve, and into nothing else. */
    method CopyBlock(id: nat, ghost o: nat, data: seq<Byte>, a: nat)
      requires Valid() && id < NUM_WFMREF_CURVES && o + |data| <= size && a == base + Start(id) + o
      modifies region
      ensures Valid()
      ensures Contents(id) == Splice(old(Contents(id)), o, data) && Contents(1 - id) == old(Contents(1 - id))
      ensures Start(id) + o + |data| <= region.Length && region[..] == Splice(old(region[..]), Start(id) + o, data)
    {
      hide ToControl, Splice, Start, Valid, Contents;
      Places(id);
      Places(1 - id);
      CopiedInto(region[..], Start(id), Start(1 - id), size, o, data);
      Store(a - base, data);
      Places(id);
      Places(1 - id);
    }

    method SetPointers(id: nat, p: Pointers)
      requires Valid() && id < NUM_WFMREF_CURVES && p.start == curves[id].start
      modifies this`curves
      ensures Valid() && curves == old(curves)[id := p]
      ensures forall k :: 0 <= k < NUM_WFMREF_CURVES ==> Contents(k) == old(Contents(k))
    {
      curves := curves[id := p];
    }

    method Store(at: nat, data: seq<Byte>)
      requires at + |data| <= region.Length
      modifies region
      ensures region[..] == Splice(old(region[..]), at, data)
    {
      forall k | 0 <= k < |data| { region[at + k] := data[k]; }
    }
  }
}
