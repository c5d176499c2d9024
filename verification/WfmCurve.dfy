/** The waveform curves as curves of the BSMP server: the callbacks of bsmp_lib.c over the shared region
    give full blocks and lay over them what they are given. */
module WfmCurve {
  import opened Arithmetic
  import opened Bytes
  import opened BsmpModel
  import opened BsmpClient
  import opened WfmRef

  /** The area of a curve cut into its blocks. */
  function BlocksOf(bytes: seq<Byte>, nblocks: nat, blockSize: nat): (blocks: seq<seq<Byte>>)
    requires At(nblocks, blockSize) <= |bytes|
    ensures |blocks| == nblocks
  {
    seq(nblocks, k requires 0 <= k < nblocks => Block(bytes, nblocks, blockSize, k))
  }

  function Block(bytes: seq<Byte>, nblocks: nat, blockSize: nat, k: nat): (block: seq<Byte>)
    requires At(nblocks, blockSize) <= |bytes| && k < nblocks
    ensures |block| == blockSize
  {
    Before(k, nblocks, blockSize);
    bytes[At(k, blockSize)..At(k, blockSize) + blockSize]
  }

  /** What a write leaves in a block. */
  function Overlay(block: seq<Byte>, data: seq<Byte>): seq<Byte> {
    data + if |data| <= |block| then block[|data|..] else []
  }

  /** The curve that the server sees. */
  function CurveOf(info: CurveInfo, bytes: seq<Byte>): Curve
    requires At(info.nblocks, info.blockSize) <= |bytes|
  {
    Curve(info, BlocksOf(bytes, info.nblocks, info.blockSize), Overlay)
  }

  predicate InfoOk(info: CurveInfo) {
    info.nblocks <= CURVE_MAX_BLOCKS && info.blockSize <= CURVE_BLOCK_MAX_SIZE && |info.checksum| == CSUM_SIZE
  }

  /** It is one that registration admits, its blocks are full and its callback overlays. */
  lemma CurveOfOk(info: CurveInfo, bytes: seq<Byte>)
    requires InfoOk(info) && At(info.nblocks, info.blockSize) <= |bytes|
    ensures
      var c := CurveOf(info, bytes);
      CurveOk(c) && Overlays(c) && forall j :: 0 <= j < |c.blocks| ==> |c.blocks[j]| == info.blockSize
  {
    hide Block;
  }

  /** A block written to the area is a block stored in the curve. */
  lemma WriteStores(info: CurveInfo, bytes: seq<Byte>, block: nat, data: seq<Byte>)
    requires At(info.nblocks, info.blockSize) <= |bytes| && block < info.nblocks && |data| <= info.blockSize
    ensures At(block, info.blockSize) + info.blockSize <= At(info.nblocks, info.blockSize)
    ensures
      CurveOf(info.(checksum := Zeros(CSUM_SIZE)), Splice(bytes, At(block, info.blockSize), data)) ==
      StoreBlock(CurveOf(info, bytes), block, data)
  {
    hide At, Splice;
    var n, size := info.nblocks, info.blockSize;
    Before(block, n, size);
    SpliceAt(bytes, At(block, size), data);
    var bytes' := Splice(bytes, At(block, size), data);
    forall k | 0 <= k < n
      ensures Block(bytes', n, size, k) ==
                if k == block then Overlay(Block(bytes, n, size, k), data) else Block(bytes, n, size, k)
    {
      Before(k, n, size);
      if k < block {
        Before(k, block, size);
      } else if block < k {
        Before(block, k, size);
      }
    }
    assert BlocksOf(bytes', n, size) == StoreBlock(CurveOf(info, bytes), block, data).blocks;
  }

  /** A whole curve written by the client leaves the data at the start of the area. */
  lemma {:induction false} WholeWrite(info: CurveInfo, bytes: seq<Byte>, data: seq<Byte>, k: nat)
    requires At(info.nblocks, info.blockSize) <= |bytes| && 0 < k <= info.nblocks && |data| <= |bytes|
    ensures
      CurveAfter(CurveOf(info, bytes), data, k) ==
      CurveOf(info.(checksum := Zeros(CSUM_SIZE)), Splice(bytes, 0, data[..Least(At(k, info.blockSize), |data|)]))
    decreases k
  {
    hide Splice, CurveOf, StoreBlock, CurveAfter, Chunk;
    var c, size := CurveOf(info, bytes), info.blockSize;
    var info' := info.(checksum := Zeros(CSUM_SIZE));
    SizesOf(info, bytes);
    BsmpClient.WrittenNext(c, data, k - 1);
    if k == 1 {
      BsmpClient.WrittenNone(c, data);
      StartsAt(bytes, data, size);
      ChunkAdds(bytes, data, info.nblocks, size, 0);
      WriteStores(info, bytes, 0, Chunk(data, size, 0));
    } else {
      WholeWrite(info, bytes, data, k - 1);
      ChunkAdds(bytes, data, info.nblocks, size, k - 1);
      WriteStores(info', Splice(bytes, 0, data[..Least(At(k - 1, size), |data|)]), k - 1, Chunk(data, size, k - 1));
    }
  }

  lemma SizesOf(info: CurveInfo, bytes: seq<Byte>)
    requires At(info.nblocks, info.blockSize) <= |bytes|
    ensures |CurveOf(info, bytes).blocks| == info.nblocks && CurveOf(info, bytes).info == info
  {}

  lemma StartsAt(bytes: seq<Byte>, data: seq<Byte>, size: nat)
    ensures Least(At(0, size), |data|) == 0 && Splice(bytes, 0, data[..0]) == bytes
  {}

  /** The next chunk goes on where the ones before it end. */
  lemma ChunkAdds(bytes: seq<Byte>, data: seq<Byte>, nblocks: nat, size: nat, k: nat)
    requires k < nblocks && At(nblocks, size) <= |bytes| && |data| <= |bytes|
    ensures At(k, size) + size <= At(nblocks, size)
    ensures
      var so, now := data[..Least(At(k, size), |data|)], data[..Least(At(k + 1, size), |data|)];
      && |Splice(bytes, 0, so)| == |bytes|
      && Splice(Splice(bytes, 0, so), At(k, size), Chunk(data, size, k)) == Splice(bytes, 0, now)
  {
    Before(k, nblocks, size);
    assert At(k + 1, size) == At(k, size) + size;
    hide At;
    var so, now, chunk := Least(At(k, size), |data|), Least(At(k + 1, size), |data|), Chunk(data, size, k);
    ChunkIs(data, size, k);
    SpliceAt(bytes, 0, data[..so]);
    SpliceAt(Splice(bytes, 0, data[..so]), At(k, size), chunk);
    SpliceAt(bytes, 0, data[..now]);
    hide Splice, Chunk;
    assert Splice(Splice(bytes, 0, data[..so]), At(k, size), chunk) == Splice(bytes, 0, data[..now]);
  }

  lemma ChunkIs(data: seq<Byte>, size: nat, k: nat)
    ensures
      var so, now := Least(At(k, size), |data|), Least(At(k + 1, size), |data|);
      so <= now <= |data| && Chunk(data, size, k) == data[so..now]
  {
    assert At(k + 1, size) == At(k, size) + size;
  }

  /** Written by the client and read back, a waveform is what was written exactly if the data fills the
      curve. */
  lemma WaveformIsRead(info: CurveInfo, bytes: seq<Byte>, data: seq<Byte>)
    requires InfoOk(info) && At(info.nblocks, info.blockSize) <= |bytes|
    requires LongEnough(data, info.nblocks, info.blockSize)
    ensures
      var c := CurveOf(info, bytes);
      && |c.blocks| == info.nblocks
      && (Flatten(UntilShort(CurveAfter(c, data, info.nblocks).blocks, info.blockSize)) == data <==>
            |data| == At(info.nblocks, info.blockSize))
  {
    hide CurveAfter, Flatten, UntilShort, LongEnough;
    CurveOfOk(info, bytes);
    OverlaidIsRead(CurveOf(info, bytes), data);
  }

  /** The callback of a read. */
  method ReadCallback(w: Waveforms, id: nat, info: CurveInfo, block: nat) returns (data: seq<Byte>)
    requires w.Valid() && id < NUM_WFMREF_CURVES
    requires At(info.nblocks, info.blockSize) <= w.size && block < info.nblocks
    ensures data == CurveOf(info, w.Contents(id)).blocks[block]
  {
    hide At;
    Before(block, info.nblocks, info.blockSize);
    data := w.ReadBlock(id, block, info.blockSize);
  }

  /** The callback of a write, behind which the server resets the checksum. */
  method WriteCallback(w: Waveforms, id: nat, info: CurveInfo, block: nat, data: seq<Byte>, playing: bool)
    returns (ok: bool)
    requires w.Valid() && id < NUM_WFMREF_CURVES
    requires At(info.nblocks, info.blockSize) <= w.size && block < info.nblocks && |data| <= info.blockSize
    modifies w`curves, w.region
    ensures w.Valid()
    ensures ok <==> !(id == w.selected && playing)
    ensures w.Contents(1 - id) == old(w.Contents(1 - id))
    ensures
      var reset := info.(checksum := Zeros(CSUM_SIZE));
      if ok then CurveOf(reset, w.Contents(id)) == StoreBlock(CurveOf(info, old(w.Contents(id))), block, data)
      else w.Contents(id) == old(w.Contents(id))
  {
    hide At, Splice, CurveOf, StoreBlock;
    WriteStores(info, w.Contents(id), block, data);
    ok := w.WriteBlock(id, block, info.blockSize, data, playing);
  }
}
