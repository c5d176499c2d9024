/** The BSMP client: it rebuilds the server's tables from packed bytes and moves whole curves block
    by block, talking to the server of BsmpServer.dfy over a link that may lose packets. */
module BsmpClient {
  import opened Arithmetic
  import opened Bytes
  import opened BsmpModel
  import BsmpProperties
  import BsmpServer
  import Md5

  // ----- What the client keeps -----

  datatype VarInfo = VarInfo(id: nat, writable: bool, size: nat)

  /** `count` is the announced number of members, `members` the list the server sent. */
  datatype GroupInfo = GroupInfo(id: nat, writable: bool, count: nat, size: nat, members: seq<nat>)

  datatype KnownCurve = KnownCurve(id: nat, info: CurveInfo)

  datatype FuncInfo = FuncInfo(id: nat, inputSize: nat, outputSize: nat)

  datatype Version = Version(major: Byte, minor: Byte, revision: Byte)

  function DecodeVar(id: nat, b: Byte): VarInfo {
    VarInfo(id, b >= 0x80, if b % 0x80 == 0 then VAR_MAX_SIZE else b % 0x80)
  }

  function DecodeVars(p: seq<Byte>): (r: seq<VarInfo>)
    ensures |r| == |p|
  {
    seq(|p|, i requires 0 <= i < |p| => DecodeVar(i, p[i]))
  }

  /** Slots past the last variable are zero. */
  function SizeOf(vars: seq<VarInfo>, id: nat): nat { if id < |vars| then vars[id].size else 0 }

  function MembersSize(vars: seq<VarInfo>, ids: seq<nat>): nat
    decreases |ids|
  {
    if ids == [] then 0 else MembersSize(vars, ids[..|ids| - 1]) + SizeOf(vars, ids[|ids| - 1])
  }

  function DecodeGroup(vars: seq<VarInfo>, id: nat, b: Byte, ids: seq<nat>): GroupInfo {
    GroupInfo(id, b >= 0x80, b % 0x80, MembersSize(vars, ids), ids)
  }

  function DecodeGroups(vars: seq<VarInfo>, groups: seq<Group>): (r: seq<GroupInfo>)
    ensures |r| == |groups|
  {
    seq(|groups|, i requires 0 <= i < |groups| => DecodeGroup(vars, i, GroupByte(groups[i]), groups[i].members))
  }

  function DecodeCurve(p: seq<Byte>, checksum: seq<Byte>): CurveInfo
    requires |p| == 5
  {
    var nblocks := Join(p[3], p[4]);
    CurveInfo(p[0] != 0, if nblocks == 0 then CURVE_MAX_BLOCKS else nblocks, Join(p[1], p[2]), checksum)
  }

  function DecodeFunc(id: nat, b: Byte): FuncInfo { FuncInfo(id, b / 0x10, b % 0x10) }

  function DecodeFuncs(p: seq<Byte>): (r: seq<FuncInfo>)
    ensures |r| == |p|
  {
    seq(|p|, i requires 0 <= i < |p| => DecodeFunc(i, p[i]))
  }

  // ----- The same tables on both sides, and when the encodings allow it -----

  predicate VarsSynced(vars: seq<VarInfo>, s: Server) {
    |vars| == |s.vars| && forall i :: 0 <= i < |vars| ==> vars[i] == VarInfo(i, s.vars[i].writable, s.vars[i].size)
  }

  predicate GroupsSynced(groups: seq<GroupInfo>, s: Server) {
    && |groups| == |s.groups|
    && forall i :: 0 <= i < |groups| ==>
         var g := s.groups[i];
         groups[i] == GroupInfo(i, g.writable, |g.members|, g.size, g.members)
  }

  predicate CurvesSynced(curves: seq<KnownCurve>, s: Server) {
    |curves| == |s.curves| && forall i :: 0 <= i < |curves| ==> curves[i] == KnownCurve(i, s.curves[i].info)
  }

  predicate FuncsSynced(funcs: seq<FuncInfo>, s: Server) {
    && |funcs| == |s.funcs|
    && forall i :: 0 <= i < |funcs| ==> funcs[i] == FuncInfo(i, s.funcs[i].inputSize, s.funcs[i].outputSize)
  }

  predicate VarsEncodable(s: Server) { forall i :: 0 <= i < |s.vars| ==> s.vars[i].size != 0 }

  predicate GroupsEncodable(s: Server) { forall i :: 0 <= i < |s.groups| ==> |s.groups[i].members| < 0x80 }

  predicate CurvesEncodable(s: Server) { forall i :: 0 <= i < |s.curves| ==> s.curves[i].info.nblocks != 0 }

  predicate FuncsEncodable(s: Server) {
    forall i :: 0 <= i < |s.funcs| ==> s.funcs[i].inputSize < 0x10 && s.funcs[i].outputSize < 0x10
  }

  /** One byte carries sizes 1 to 128, 128 as 0, and nothing else. */
  lemma VarByteRoundTrip(id: nat, v: Var)
    requires v.size <= VAR_MAX_SIZE
    ensures DecodeVar(id, VarByte(v)) == VarInfo(id, v.writable, v.size) <==> v.size != 0
  {}

  lemma VarsRoundTrip(s: Server)
    requires Inv(s)
    ensures VarsSynced(DecodeVars(VarListBytes(s.vars)), s) <==> VarsEncodable(s)
  {
    BsmpProperties.TablesOk(s);
    hide Inv, VarByte, DecodeVar;
    forall i | 0 <= i < |s.vars|
      ensures DecodeVar(i, VarByte(s.vars[i])) == VarInfo(i, s.vars[i].writable, s.vars[i].size) <==>
                s.vars[i].size != 0
    {
      VarByteRoundTrip(i, s.vars[i]);
    }
    var vars := DecodeVars(VarListBytes(s.vars));
    assert forall i :: 0 <= i < |vars| ==> vars[i] == DecodeVar(i, VarByte(s.vars[i]));
  }

  lemma {:induction false} MembersSizeIs(vars: seq<VarInfo>, s: Server, ids: seq<nat>)
    requires VarsSynced(vars, s) && Bounded(ids, |s.vars|)
    ensures MembersSize(vars, ids) == TotalSize(s.vars, ids)
    decreases |ids|
  {
    if ids != [] {
      var init, last := ids[..|ids| - 1], ids[|ids| - 1];
      MembersSizeIs(vars, s, init);
      BsmpProperties.TotalSizeSnoc(s.vars, init, last);
      assert ids == init + [last];
    }
  }

  /** Seven bits of count next to the writable bit: groups of up to 127 members. */
  lemma GroupByteRoundTrip(g: Group)
    requires |g.members| <= MAX_VARIABLES
    ensures (GroupByte(g) >= 0x80) == g.writable && GroupByte(g) % 0x80 == |g.members| <==> |g.members| < 0x80
  {}

  lemma GroupsRoundTrip(vars: seq<VarInfo>, s: Server)
    requires Inv(s) && VarsSynced(vars, s)
    ensures GroupsSynced(DecodeGroups(vars, s.groups), s) <==> GroupsEncodable(s)
  {
    BsmpProperties.TablesOk(s);
    hide Inv, GroupByte, VarsSynced, TotalSize;
    var groups := DecodeGroups(vars, s.groups);
    forall i | 0 <= i < |s.groups|
      ensures
        var g := s.groups[i];
        groups[i] == GroupInfo(i, g.writable, |g.members|, g.size, g.members) <==> |g.members| < 0x80
    {
      var g := s.groups[i];
      assert GroupOk(s.vars, g);
      BsmpProperties.IncreasingShort(g.members, |s.vars|);
      MembersSizeIs(vars, s, g.members);
      GroupByteRoundTrip(g);
      assert groups[i] == DecodeGroup(vars, i, GroupByte(g), g.members);
    }
  }

  lemma SplitJoin(n: U16)
    ensures Join(n / 0x100 % 0x100, n % 0x100) == n && Join(Hi(n), Lo(n)) == n
  {}

  /** Two bytes carry 1 to 65536 blocks, 65536 as 0. */
  lemma CurveBytesRoundTrip(c: CurveInfo)
    requires c.nblocks <= CURVE_MAX_BLOCKS
    ensures DecodeCurve(CurveBytes(c), c.checksum) == c <==> c.nblocks != 0
  {
    hide Join, Hi, Lo;
    SplitJoin(c.blockSize);
    SplitCount(c.nblocks);
  }

  lemma SplitCount(n: nat)
    requires n <= CURVE_MAX_BLOCKS
    ensures Join(n / 0x100 % 0x100, n % 0x100) == if n == CURVE_MAX_BLOCKS then 0 else n
  {
    if n < CURVE_MAX_BLOCKS {
      SplitJoin(n);
    }
  }

  lemma FuncByteRoundTrip(id: nat, f: Func)
    ensures DecodeFunc(id, FuncByte(f)) == FuncInfo(id, f.inputSize, f.outputSize) <==>
              f.inputSize < 0x10 && f.outputSize < 0x10
  {
    var a, b := f.inputSize % 0x10, f.outputSize % 0x10;
    assert (a * 0x10 + b) / 0x10 == a && (a * 0x10 + b) % 0x10 == b;
  }

  lemma FuncsRoundTrip(s: Server)
    ensures FuncsSynced(DecodeFuncs(FuncListBytes(s.funcs)), s) <==> FuncsEncodable(s)
  {
    hide FuncByte, DecodeFunc;
    var funcs := DecodeFuncs(FuncListBytes(s.funcs));
    forall i | 0 <= i < |s.funcs|
      ensures funcs[i] == FuncInfo(i, s.funcs[i].inputSize, s.funcs[i].outputSize) <==>
                s.funcs[i].inputSize < 0x10 && s.funcs[i].outputSize < 0x10
    {
      FuncByteRoundTrip(i, s.funcs[i]);
      assert funcs[i] == DecodeFunc(i, FuncByte(s.funcs[i]));
    }
  }

  // ----- The client -----

  /** What becomes of one exchange: both packets arrive, the request is lost, or the answer is. */
  datatype Outcome = Delivered | RequestLost | AnswerLost

  lemma CommandIs(s: Server, env: Env, code: Byte, p: seq<Byte>)
    requires Inv(s) && |p| <= MAX_PACKET
    ensures Process(s, env, BsmpProperties.Command(code, p)) == Dispatch(s, env, code, p)
  {
    hide Inv, Dispatch;
    assert 0x100 * (|p| / 0x100) + |p| % 0x100 == |p|;
    var packet := BsmpProperties.Command(code, p);
    assert packet[HEADER_SIZE..] == p;
  }

  /** The answers to the list queries of a client. */
  lemma ListAnswers(s: Server, env: Env)
    requires Inv(s)
    ensures Dispatch(s, env, QUERY_VERSION, []) == (s, Message(VERSION, [2, 20, 0]))
    ensures Dispatch(s, env, VAR_QUERY_LIST, []) == (s, Message(VAR_LIST, VarListBytes(s.vars)))
    ensures Dispatch(s, env, GROUP_QUERY_LIST, []) == (s, Message(GROUP_LIST, GroupListBytes(s.groups)))
    ensures Dispatch(s, env, CURVE_QUERY_LIST, []) == (s, Message(CURVE_LIST, CurveListBytes(s.curves)))
    ensures Dispatch(s, env, FUNC_QUERY_LIST, []) == (s, Message(FUNC_LIST, FuncListBytes(s.funcs)))
    ensures |s.vars| <= MAX_VARIABLES && |s.groups| <= MAX_GROUPS
    ensures |s.curves| <= MAX_CURVES && |s.funcs| <= MAX_FUNCTIONS
  {
    BsmpServer.DispatchVariable(s, env, QUERY_VERSION, []);
    BsmpServer.DispatchVariable(s, env, VAR_QUERY_LIST, []);
    BsmpServer.DispatchGroup(s, env, GROUP_QUERY_LIST, []);
    BsmpServer.DispatchCurveOrFunction(s, env, CURVE_QUERY_LIST, []);
    BsmpServer.DispatchCurveOrFunction(s, env, FUNC_QUERY_LIST, []);
    hide Dispatch, VarListBytes, GroupListBytes, CurveListBytes, FuncListBytes;
  }

  lemma GroupAnswers(s: Server, env: Env, id: Byte)
    requires Inv(s) && id < |s.groups|
    ensures Dispatch(s, env, GROUP_QUERY, [id]).0 == s
    ensures Dispatch(s, env, GROUP_QUERY, [id]).1.code == GROUP
    ensures Dispatch(s, env, GROUP_QUERY, [id]).1.payload == s.groups[id].members
  {
    BsmpServer.DispatchGroup(s, env, GROUP_QUERY, [id]);
    BsmpServer.QueriesKeepState(s, env, [id]);
    assert GroupOk(s.vars, s.groups[id]);
    hide Dispatch, GroupOf, Increasing;
  }

  lemma CsumAnswers(s: Server, env: Env, id: Byte)
    requires Inv(s) && id < |s.curves|
    ensures Dispatch(s, env, CURVE_QUERY_CSUM, [id]) == (s, Message(CURVE_CSUM, s.curves[id].info.checksum))
    ensures |s.curves[id].info.checksum| == CSUM_SIZE && s.curves[id].info.nblocks <= CURVE_MAX_BLOCKS
  {
    BsmpServer.DispatchCurveOrFunction(s, env, CURVE_QUERY_CSUM, [id]);
    assert CurveOk(s.curves[id]);
    hide Inv, Dispatch;
  }

  lemma {:induction false} CurveListAt(cs: seq<Curve>, i: nat)
    requires i < |cs|
    ensures CurveListBytes(cs)[5 * i..5 * i + 5] == CurveBytes(cs[i].info)
    decreases |cs|
  {
    var last := |cs| - 1;
    var init := cs[..last];
    if i < last {
      CurveListAt(init, i);
      assert init[i] == cs[i];
      assert CurveListBytes(cs)[..5 * last] == CurveListBytes(init);
    }
  }

  lemma MembersSizeNext(vars: seq<VarInfo>, ids: seq<nat>, i: nat)
    requires i < |ids|
    ensures MembersSize(vars, ids[..i + 1]) == MembersSize(vars, ids[..i]) + SizeOf(vars, ids[i])
    ensures MembersSize(vars, ids[..0]) == 0
  {
    assert ids[..i + 1][..i] == ids[..i];
  }

  /** What a client knows of a curve once told: everything, or all but the checksum. */
  function ToldOf(id: nat, c: CurveInfo, checksum: bool): KnownCurve {
    KnownCurve(id, DecodeCurve(CurveBytes(c), if checksum then c.checksum else Zeros(CSUM_SIZE)))
  }

  lemma MembersSizeNone(vars: seq<VarInfo>)
    ensures MembersSize(vars, []) == 0
  {}

  lemma ListedGroups(groups: seq<Group>)
    ensures |GroupListBytes(groups)| == |groups|
    ensures forall i :: 0 <= i < |groups| ==> GroupListBytes(groups)[i] == GroupByte(groups[i])
  {}

  lemma DecodeCurveChecksum(p: seq<Byte>, checksum: seq<Byte>)
    requires |p| == 5
    ensures DecodeCurve(p, Zeros(CSUM_SIZE)).(checksum := checksum) == DecodeCurve(p, checksum)
  {}

  predicate AllTold(curves: seq<KnownCurve>, s: Server) {
    |curves| == |s.curves| && forall i :: 0 <= i < |curves| ==> curves[i] == ToldOf(i, s.curves[i].info, true)
  }

  lemma CurvesRoundTrip(curves: seq<KnownCurve>, s: Server)
    requires Inv(s) && AllTold(curves, s)
    ensures CurvesSynced(curves, s) <==> CurvesEncodable(s)
  {
    forall i | 0 <= i < |s.curves|
      ensures curves[i] == KnownCurve(i, s.curves[i].info) <==> s.curves[i].info.nblocks != 0
    {
      assert CurveOk(s.curves[i]);
      CurveBytesRoundTrip(s.curves[i].info);
    }
    hide Inv, ToldOf;
  }

  /** Everything a client knows about the server. */
  datatype Lists = Lists(vars: seq<VarInfo>, groups: seq<GroupInfo>, curves: seq<KnownCurve>, funcs: seq<FuncInfo>)

  predicate Synced(known: Lists, s: Server) {
    VarsSynced(known.vars, s) && GroupsSynced(known.groups, s) && CurvesSynced(known.curves, s) &&
    FuncsSynced(known.funcs, s)
  }

  /** What the packed lists can say: no variable of size 0, no group of 128 members, no curve without
      blocks, no function taking or giving more than 15 bytes. */
  predicate Encodable(s: Server) {
    VarsEncodable(s) && GroupsEncodable(s) && CurvesEncodable(s) && FuncsEncodable(s)
  }

  /** The tables a client has decoded from a server's answers are the server's own exactly when the
      packed lists can say what those are. */
  lemma SyncedIfEncodable(known: Lists, s: Server)
    requires Inv(s)
    requires known.vars == DecodeVars(VarListBytes(s.vars))
    requires known.groups == DecodeGroups(known.vars, s.groups)
    requires AllTold(known.curves, s)
    requires known.funcs == DecodeFuncs(FuncListBytes(s.funcs))
    ensures Synced(known, s) <==> Encodable(s)
  {
    VarsRoundTrip(s);
    CurvesRoundTrip(known.curves, s);
    FuncsRoundTrip(s);
    if VarsSynced(known.vars, s) {
      GroupsRoundTrip(known.vars, s);
    }
    hide Inv, VarsSynced, GroupsSynced, CurvesSynced, FuncsSynced, VarsEncodable, GroupsEncodable, CurvesEncodable,
      FuncsEncodable, AllTold;
  }

  /** A server after n variables of one writable byte each have been registered. */
  function ServerOf(n: nat, compress: Md5.Compress): (s: Server)
    requires n <= MAX_VARIABLES
    ensures Inv(s) && |s.vars| == n && |s.mem| == 1
    ensures forall i :: 0 <= i < n ==> s.vars[i].writable && s.vars[i].size == 1
  {
    if n == 0 then BsmpModel.Init([0], compress)
    else
      var before, v := ServerOf(n - 1, compress), Var(1, true, 0, _ => true);
      BsmpProperties.AddVarKeepsInv(before, v);
      RegisterVar(before, v, true).0
  }

  /** Registration goes up to 128 variables, as in `ServerOf`. The group of all of them is then told to
      have no members, and no list of groups a client decodes is in step. */
  lemma FullServerNotSynced(s: Server, vars: seq<VarInfo>)
    requires Inv(s) && |s.vars| == MAX_VARIABLES
    ensures STANDARD_GROUPS <= |s.groups| && |s.groups[ALL].members| == MAX_VARIABLES
    ensures DecodeGroups(vars, s.groups)[ALL].count == 0
    ensures !Encodable(s) && !GroupsSynced(DecodeGroups(vars, s.groups), s)
  {
    hide Inv, TotalSize, MembersSize;
    AllMembers(s);
    var told := DecodeGroups(vars, s.groups);
    assert told[ALL] == DecodeGroup(vars, ALL, GroupByte(s.groups[ALL]), s.groups[ALL].members);
  }

  lemma AllMembers(s: Server)
    requires Inv(s)
    ensures STANDARD_GROUPS <= |s.groups| && |s.groups[ALL].members| == |s.vars|
  {}

  /** The ids of the chosen entries of the variable list, as bytes. */
  function IdsOf(vars: seq<VarInfo>, list: seq<nat>): (ids: seq<Byte>)
    requires Bounded(list, |vars|)
    ensures |ids| == |list|
  {
    seq(|list|, k requires 0 <= k < |list| => vars[list[k]].id % 0x100)
  }

  lemma IdsOfSynced(vars: seq<VarInfo>, s: Server, list: seq<nat>)
    requires VarsSynced(vars, s) && |s.vars| <= MAX_VARIABLES && Bounded(list, |vars|)
    ensures IdsOf(vars, list) == list
  {}

  /** A client in step that asks for a group of its entries gets exactly the group of those variables. */
  lemma CreatesChosen(s: Server, vars: seq<VarInfo>, list: seq<nat>)
    requires Inv(s) && VarsSynced(vars, s) && Bounded(list, |vars|)
    ensures
      var (s', m) := GroupCreate(s, IdsOf(vars, list));
      && (m.code == OK <==> list != [] && |s.groups| < MAX_GROUPS && Increasing(list))
      && (m.code == OK ==> s'.groups == s.groups + [GroupOf(s.vars, list)])
  {
    BsmpProperties.TablesOk(s);
    IdsOfSynced(vars, s, list);
    BsmpProperties.GroupCreateExactly(s, IdsOf(vars, list));
    hide Inv;
  }

  /** Groups coming and going leave the rest in step; the new list is in step exactly when no group
      has all 128 variables. */
  lemma StaysSynced(known: Lists, s: Server, s': Server)
    requires Inv(s') && Synced(known, s) && s' == s.(groups := s'.groups)
    ensures Synced(known.(groups := DecodeGroups(known.vars, s'.groups)), s') <==> GroupsEncodable(s')
  {
    hide Inv, GroupsSynced, GroupsEncodable, DecodeGroups;
    GroupsRoundTrip(known.vars, s');
  }

  lemma CreateKeepsRest(s: Server, p: seq<Byte>)
    requires Inv(s)
    ensures Inv(GroupCreate(s, p).0) && GroupCreate(s, p).0 == s.(groups := GroupCreate(s, p).0.groups)
  {
    BsmpProperties.GroupCreateKeepsInv(s, p);
    hide Inv;
  }

  lemma AllToldWhen(curves: seq<KnownCurve>, s: Server)
    requires |curves| == |s.curves|
    requires forall i :: 0 <= i < |curves| ==> curves[i] == ToldOf(i, s.curves[i].info, true)
    ensures AllTold(curves, s)
  {}

  lemma RemovesAll(s: Server)
    requires Inv(s)
    ensures STANDARD_GROUPS <= |s.groups|
    ensures GroupRemoveAll(s, []) == (s.(groups := s.groups[..STANDARD_GROUPS]), Message(OK, []))
  {}

  // ----- Whole curves -----

  /** Bytes k * blockSize up to (k + 1) * blockSize of the data, as far as it goes. */
  function Chunk(data: seq<Byte>, blockSize: nat, k: nat): (r: seq<Byte>)
    ensures |r| <= blockSize
  {
    var from := Least(k * blockSize, |data|);
    data[from..Least(from + blockSize, |data|)]
  }

  /** The curve after blocks 0 to k - 1 have been given their chunks. */
  function CurveAfter(c: Curve, data: seq<Byte>, k: nat): Curve
    requires k <= |c.blocks|
  {
    c.(blocks := seq(|c.blocks|, j requires 0 <= j < |c.blocks| =>
                       if j < k then c.store(c.blocks[j], Chunk(data, c.info.blockSize, j)) else c.blocks[j]),
       info := c.info.(checksum := if k == 0 then c.info.checksum else Zeros(CSUM_SIZE)))
  }

  lemma WrittenNone(c: Curve, data: seq<Byte>)
    ensures CurveAfter(c, data, 0) == c
  {
    assert CurveAfter(c, data, 0).blocks == c.blocks;
  }

  lemma WrittenNext(c: Curve, data: seq<Byte>, k: nat)
    requires k < |c.blocks|
    ensures StoreBlock(CurveAfter(c, data, k), k, Chunk(data, c.info.blockSize, k)) == CurveAfter(c, data, k + 1)
  {
    var stored := StoreBlock(CurveAfter(c, data, k), k, Chunk(data, c.info.blockSize, k));
    assert stored.blocks == CurveAfter(c, data, k + 1).blocks;
  }

  /** Every block gets at least one byte. */
  predicate LongEnough(data: seq<Byte>, nblocks: nat, blockSize: nat) {
    nblocks == 0 || (blockSize > 0 && |data| > (nblocks - 1) * blockSize)
  }

  lemma ChunkEmpty(data: seq<Byte>, nblocks: nat, blockSize: nat, k: nat)
    requires k < nblocks && Chunk(data, blockSize, k) == []
    ensures !LongEnough(data, nblocks, blockSize)
  {
    if blockSize > 0 {
      EmptyPast(data, blockSize, k);
      Mono(blockSize, k, nblocks - 1);
    }
  }

  lemma EmptyPast(data: seq<Byte>, blockSize: nat, k: nat)
    requires blockSize > 0
    ensures Chunk(data, blockSize, k) == [] <==> |data| <= k * blockSize
  {}

  lemma NotChunkEmpty(data: seq<Byte>, nblocks: nat, blockSize: nat)
    requires nblocks > 0 ==> Chunk(data, blockSize, nblocks - 1) != []
    ensures LongEnough(data, nblocks, blockSize)
  {}

  /** A callback that keeps exactly the bytes it is given. */
  ghost predicate Replaces(c: Curve) {
    forall old', data :: |data| <= c.info.blockSize ==> c.store(old', data) == data
  }

  lemma ChunkAppends(data: seq<Byte>, blockSize: nat, k: nat)
    ensures data[..Least(0 * blockSize, |data|)] == []
    ensures data[..Least((k + 1) * blockSize, |data|)] ==
              data[..Least(k * blockSize, |data|)] + Chunk(data, blockSize, k)
  {
    assert (k + 1) * blockSize == k * blockSize + blockSize;
  }

  lemma {:induction false} ChunksFlatten(blocks: seq<seq<Byte>>, data: seq<Byte>, blockSize: nat, k: nat)
    requires k <= |blocks| && forall j :: 0 <= j < |blocks| ==> blocks[j] == Chunk(data, blockSize, j)
    ensures Flatten(blocks[..k]) == data[..Least(k * blockSize, |data|)]
  {
    hide Flatten, Chunk, Least;
    if k == 0 {
      BsmpServer.FlattenNone(blocks[..0]);
      ChunkAppends(data, blockSize, 0);
    } else {
      ChunksFlatten(blocks, data, blockSize, k - 1);
      BsmpServer.FlattenNext(blocks, k - 1);
      ChunkAppends(data, blockSize, k - 1);
    }
  }

  lemma ChunkFull(data: seq<Byte>, nblocks: nat, blockSize: nat, k: nat)
    requires LongEnough(data, nblocks, blockSize) && k + 1 < nblocks
    ensures |Chunk(data, blockSize, k)| == blockSize
  {
    assert (k + 1) * blockSize == k * blockSize + blockSize;
    assert (k + 1) * blockSize <= (nblocks - 1) * blockSize;
  }

  lemma ChunksRead(blocks: seq<seq<Byte>>, data: seq<Byte>, size: nat)
    requires forall j :: 0 <= j < |blocks| ==> blocks[j] == Chunk(data, size, j)
    requires LongEnough(data, |blocks|, size)
    ensures Flatten(UntilShort(blocks, size)) == data[..Least(|blocks| * size, |data|)]
  {
    hide Chunk, LongEnough, Flatten, UntilShort, Least;
    var n := |blocks|;
    ChunksFlatten(blocks, data, size, n);
    assert blocks[..n] == blocks;
    if n == 0 {
      BsmpServer.FullNone(blocks, size);
      BsmpServer.FullToTheEnd(blocks, size);
    } else {
      forall k | 0 <= k < n - 1
        ensures |blocks[k]| >= size
      {
        ChunkFull(data, n, size, k);
      }
      BsmpServer.FullThenNext(blocks, size, n - 1);
      if |blocks[n - 1]| >= size {
        BsmpServer.FullToTheEnd(blocks, size);
      }
    }
  }

  /** Reading up to the first short block gives back all that fits of what was written. */
  lemma WrittenIsRead(c: Curve, data: seq<Byte>)
    requires CurveOk(c) && Replaces(c) && LongEnough(data, c.info.nblocks, c.info.blockSize)
    ensures
      var c' := CurveAfter(c, data, |c.blocks|);
      Flatten(UntilShort(c'.blocks, c.info.blockSize)) == data[..Least(c.info.nblocks * c.info.blockSize, |data|)]
  {
    assert |c.blocks| == c.info.nblocks;
    hide CurveOk, Chunk, LongEnough, Flatten, UntilShort, Least;
    var blocks := CurveAfter(c, data, |c.blocks|).blocks;
    assert forall j :: 0 <= j < |c.blocks| ==> blocks[j] == Chunk(data, c.info.blockSize, j);
    ChunksRead(blocks, data, c.info.blockSize);
  }

  /** A callback that lays the bytes over the block and leaves the rest of it. */
  ghost predicate Overlays(c: Curve) {
    forall old', data :: |data| <= |old'| ==> c.store(old', data) == data + old'[|data|..]
  }

  lemma ChunkFullInFull(data: seq<Byte>, nblocks: nat, blockSize: nat, k: nat)
    requires |data| == nblocks * blockSize && k < nblocks
    ensures |Chunk(data, blockSize, k)| == blockSize
  {
    assert (k + 1) * blockSize <= nblocks * blockSize && (k + 1) * blockSize == k * blockSize + blockSize;
  }

  lemma OverlaidBlock(c: Curve, data: seq<Byte>, j: nat)
    requires Overlays(c) && j < |c.blocks| == c.info.nblocks && |c.blocks[j]| == c.info.blockSize
    ensures
      var block := CurveAfter(c, data, c.info.nblocks).blocks[j];
      && |block| == c.info.blockSize
      && (|data| == c.info.nblocks * c.info.blockSize ==> block == Chunk(data, c.info.blockSize, j))
  {
    hide Chunk;
    var chunk := Chunk(data, c.info.blockSize, j);
    assert CurveAfter(c, data, c.info.nblocks).blocks[j] == c.store(c.blocks[j], chunk);
    assert c.store(c.blocks[j], chunk) == chunk + c.blocks[j][|chunk|..];
    if |data| == c.info.nblocks * c.info.blockSize {
      ChunkFullInFull(data, c.info.nblocks, c.info.blockSize, j);
    }
  }

  /** With blocks that always read as full, what comes back is what was written exactly when the
      data fills the curve. */
  lemma OverlaidIsRead(c: Curve, data: seq<Byte>)
    requires CurveOk(c) && Overlays(c) && LongEnough(data, c.info.nblocks, c.info.blockSize)
    requires forall j :: 0 <= j < |c.blocks| ==> |c.blocks[j]| == c.info.blockSize
    ensures
      var n, size := c.info.nblocks, c.info.blockSize;
      Flatten(UntilShort(CurveAfter(c, data, n).blocks, size)) == data <==> |data| == n * size
  {
    var n, size := c.info.nblocks, c.info.blockSize;
    var blocks := CurveAfter(c, data, n).blocks;
    assert |blocks| == n;
    forall j | 0 <= j < n
      ensures |blocks[j]| == size && (|data| == n * size ==> blocks[j] == Chunk(data, size, j))
    {
      OverlaidBlock(c, data, j);
    }
    hide CurveOk, Overlays, CurveAfter, Chunk, Flatten, UntilShort;
    BsmpServer.FullToTheEnd(blocks, size);
    FlattenFull(blocks, size);
    if |data| == n * size {
      ChunksFlatten(blocks, data, size, n);
      assert blocks[..n] == blocks && data[..|data|] == data;
    }
  }

  lemma {:induction false} FlattenFull(blocks: seq<seq<Byte>>, size: nat)
    requires forall j :: 0 <= j < |blocks| ==> |blocks[j]| == size
    ensures |Flatten(blocks)| == |blocks| * size
  {
    if blocks != [] {
      FlattenFull(blocks[1..], size);
      assert |blocks| * size == (|blocks| - 1) * size + size;
    }
  }

  /** A request for a block, and the block or a refusal. */
  lemma BlockAnswers(s: Server, env: Env, id: Byte, offset: U16)
    requires Inv(s) && id < |s.curves|
    ensures
      var c := s.curves[id];
      var p := [id, Hi(offset), Lo(offset)];
      var (s', m) := Dispatch(s, env, CURVE_BLOCK_REQUEST, p);
      && s' == s && CurveOk(c)
      && (m.code == CURVE_BLOCK <==> offset < |c.blocks| && env.readOk(id, offset))
      && (m.code == CURVE_BLOCK ==> m.payload == p + c.blocks[offset])
  {
    SplitJoin(offset);
    var p := [id, Hi(offset), Lo(offset)];
    BsmpServer.DispatchCurveOrFunction(s, env, CURVE_BLOCK_REQUEST, p);
    assert CurveOk(s.curves[id]);
    hide Inv, Dispatch;
  }

  lemma BlockTaken(s: Server, env: Env, id: Byte, offset: U16, data: seq<Byte>)
    requires Inv(s) && id < |s.curves| && |data| <= s.curves[id].info.blockSize
    ensures
      var c := s.curves[id];
      var (s', m) := Dispatch(s, env, CURVE_BLOCK, [id, Hi(offset), Lo(offset)] + data);
      && CurveOk(c)
      && (m.code == OK <==> data != [] && offset < |c.blocks| && c.info.writable && env.writeOk(id, offset))
      && s' == if m.code == OK then s.(curves := s.curves[id := StoreBlock(c, offset, data)]) else s
  {
    SplitJoin(offset);
    var p := [id, Hi(offset), Lo(offset)] + data;
    assert p[BLOCK_INFO..] == data && p[0] == id && p[1] == Hi(offset) && p[2] == Lo(offset);
    BsmpServer.DispatchCurveOrFunction(s, env, CURVE_BLOCK, p);
    assert CurveOk(s.curves[id]);
    hide Inv, Dispatch, StoreBlock;
  }

  /** The client's entry of a curve says what the server's does, but perhaps for the checksum. */
  ghost predicate Knows(curves: seq<KnownCurve>, s: Server, cur: nat) {
    && cur < |curves| && cur < |s.curves| && curves[cur].id == cur < MAX_CURVES
    && CurveOk(s.curves[cur])
    && curves[cur].info == s.curves[cur].info.(checksum := curves[cur].info.checksum)
  }

  lemma KnowsSizes(curves: seq<KnownCurve>, s: Server, cur: nat)
    requires Knows(curves, s, cur)
    ensures cur < |curves| && cur < |s.curves| && curves[cur].id == cur < MAX_CURVES
    ensures
      var info, c := curves[cur].info, s.curves[cur];
      && info.writable == c.info.writable && info.blockSize == c.info.blockSize <= CURVE_BLOCK_MAX_SIZE
      && info.nblocks == c.info.nblocks == |c.blocks| <= CURVE_MAX_BLOCKS
      && (forall i :: 0 <= i < |c.blocks| ==> |c.blocks[i]| <= c.info.blockSize)
  {}

  lemma OneMore(k: nat, nblocks: nat, blockSize: nat)
    requires k < nblocks
    ensures (k + 1) * blockSize == k * blockSize + blockSize <= nblocks * blockSize
  {}

  /** The bytes of a curve with full blocks. */
  function Capacity(c: Curve): nat { |c.blocks| * c.info.blockSize }

  /** The block the loop of a read cannot go past. */
  predicate Stops(env: Env, cur: nat, c: Curve, k: nat) {
    k < |c.blocks| && (!env.readOk(cur, k) || |c.blocks[k]| < c.info.blockSize)
  }

  /** A 16-bit counter reaches the end, or a block that is short or refused comes first. */
  ghost predicate LoopEnds(env: Env, cur: nat, c: Curve) {
    |c.blocks| < 0x1_0000 || exists k :: 0 <= k < 0x1_0000 && Stops(env, cur, c, k)
  }

  /** The loop of a read: its block counter and the place for the next block, or how it has ended. */
  datatype Reading = Running(blk: U16, bufp: nat) | Complete | Broken

  /** One turn, test and body; `arrives` says whether the exchange does. */
  function Turn(env: Env, cur: nat, c: Curve, arrives: bool, r: Reading): Reading {
    if !r.Running? then r
    else if r.blk >= |c.blocks| then Complete
    else if !arrives || !env.readOk(cur, r.blk) then Broken
    else if |c.blocks[r.blk]| < c.info.blockSize then Complete
    else Running((r.blk + 1) % 0x1_0000, r.bufp + c.info.blockSize)
  }

  predicate Arrives(link: nat -> Outcome, from: nat, k: nat) { link(from + k) == Delivered }

  /** The loop after n turns, the first of them with exchange `from`. */
  function Turns(env: Env, cur: nat, c: Curve, link: nat -> Outcome, from: nat, n: nat): Reading {
    if n == 0 then Running(0, 0)
    else Turn(env, cur, c, Arrives(link, from, n - 1), Turns(env, cur, c, link, from, n - 1))
  }

  /** A 16-bit counter after n steps. */
  function Counted(n: nat): U16 { n % 0x1_0000 }

  lemma CountedNext(n: nat)
    ensures Counted(n + 1) == (Counted(n) + 1) % 0x1_0000
    ensures n < 0x1_0000 ==> Counted(n) == n
    ensures Counted(0) == 0
  {}

  /** As long as the loop runs, the counter goes round and the place for the next block moves on; and
      neither a block nor the link has stopped it. */
  lemma {:induction false} TurnsRun(env: Env, cur: nat, c: Curve, link: nat -> Outcome, from: nat, n: nat)
    requires Turns(env, cur, c, link, from, n).Running?
    ensures Turns(env, cur, c, link, from, n) == Running(Counted(n), n * c.info.blockSize)
    ensures forall k: nat :: k < n ==> Counted(k) < |c.blocks| && !Stops(env, cur, c, Counted(k))
    ensures forall k: nat :: k < n ==> Arrives(link, from, k)
  {
    hide Counted, Arrives;
    CountedNext(0);
    if n > 0 {
      TurnsRun(env, cur, c, link, from, n - 1);
      CountedNext(n - 1);
      OneMore(n - 1, n, c.info.blockSize);
    }
  }

  lemma NotStopped(env: Env, cur: nat, c: Curve, link: nat -> Outcome, from: nat, n: nat, k: nat)
    requires Turns(env, cur, c, link, from, n).Running? && k < n
    ensures Arrives(link, from, k)
    ensures k < 0x1_0000 ==> k < |c.blocks| && !Stops(env, cur, c, k)
  {
    hide Turns, Counted;
    TurnsRun(env, cur, c, link, from, n);
    CountedNext(k);
  }

  /** 65536 full blocks, all of them given: the loop starts over again and again, and from the second
      round on writes past the room for the curve. */
  lemma {:induction false} NeverEnds(env: Env, cur: nat, c: Curve, link: nat -> Outcome, from: nat, n: nat)
    requires !LoopEnds(env, cur, c) && forall k: nat :: k < n ==> Arrives(link, from, k)
    ensures Turns(env, cur, c, link, from, n) == Running(Counted(n), n * c.info.blockSize)
    ensures |c.blocks| <= n ==> Capacity(c) <= n * c.info.blockSize
  {
    hide Counted, Arrives, LoopEnds, Turn;
    CountedNext(0);
    if n > 0 {
      NeverEnds(env, cur, c, link, from, n - 1);
      CountedNext(n - 1);
      OneMore(n - 1, n, c.info.blockSize);
      GoesOn(env, cur, c, Counted(n - 1), (n - 1) * c.info.blockSize);
    }
    if |c.blocks| <= n {
      Mono(c.info.blockSize, |c.blocks|, n);
    }
  }

  lemma GoesOn(env: Env, cur: nat, c: Curve, blk: U16, bufp: nat)
    requires !LoopEnds(env, cur, c)
    ensures Turn(env, cur, c, true, Running(blk, bufp)) == Running((blk + 1) % 0x1_0000, bufp + c.info.blockSize)
  {
    assert !Stops(env, cur, c, blk);
  }

  /** A read comes to an end exactly if the curve or the link puts one to it. */
  lemma ReadEnds(env: Env, cur: nat, c: Curve, link: nat -> Outcome, from: nat)
    ensures (exists n: nat :: !Turns(env, cur, c, link, from, n).Running?) <==>
              LoopEnds(env, cur, c) || exists k: nat :: !Arrives(link, from, k)
  {
    hide LoopEnds;
    if LoopEnds(env, cur, c) {
      EndsBy(env, cur, c, link, from);
    } else if k: nat :| !Arrives(link, from, k) {
      LostBy(env, cur, c, link, from, k);
      var n: nat := k + 1;
      assert !Turns(env, cur, c, link, from, n).Running?;
    } else {
      forall n: nat
        ensures Turns(env, cur, c, link, from, n).Running?
      {
        NeverEnds(env, cur, c, link, from, n);
      }
    }
  }

  lemma LostBy(env: Env, cur: nat, c: Curve, link: nat -> Outcome, from: nat, k: nat)
    requires !Arrives(link, from, k)
    ensures !Turns(env, cur, c, link, from, k + 1).Running?
  {
    hide Turns;
    if Turns(env, cur, c, link, from, k + 1).Running? {
      NotStopped(env, cur, c, link, from, k + 1, k);
    }
  }

  lemma EndsBy(env: Env, cur: nat, c: Curve, link: nat -> Outcome, from: nat)
    requires LoopEnds(env, cur, c)
    ensures !Turns(env, cur, c, link, from, 0x1_0000).Running?
  {
    hide Turns;
    var k: nat := if |c.blocks| < 0x1_0000 then |c.blocks| else StopOf(env, cur, c);
    if Turns(env, cur, c, link, from, 0x1_0000).Running? {
      NotStopped(env, cur, c, link, from, 0x1_0000, k);
    }
  }

  ghost function StopOf(env: Env, cur: nat, c: Curve): (k: nat)
    requires exists k :: 0 <= k < 0x1_0000 && Stops(env, cur, c, k)
    ensures k < 0x1_0000 && Stops(env, cur, c, k)
  {
    var k :| 0 <= k < 0x1_0000 && Stops(env, cur, c, k);
    k
  }

  lemma TurnsStart(env: Env, cur: nat, c: Curve, link: nat -> Outcome, from: nat)
    ensures Turns(env, cur, c, link, from, 0) == Running(0, 0)
  {}

  /** A turn made with a block left to ask for. The counter is the number of turns until every block
      has been read; if the loop goes on after that, there are 65536 and all of them are full. */
  lemma Round(env: Env, cur: nat, c: Curve, link: nat -> Outcome, from: nat, n: nat, blk: U16, bufp: nat)
    requires Turns(env, cur, c, link, from, n) == Running(blk, bufp) && blk < |c.blocks| <= CURVE_MAX_BLOCKS
    requires forall i :: 0 <= i < |c.blocks| ==> |c.blocks[i]| <= c.info.blockSize
    requires BsmpServer.FullUpTo(c.blocks, c.info.blockSize, Least(n, |c.blocks|))
    requires Readable(env, cur, Least(n, |c.blocks|))
    ensures bufp == n * c.info.blockSize && (n + 1) * c.info.blockSize == bufp + c.info.blockSize
    ensures n < |c.blocks| ==> blk == n
    ensures n >= |c.blocks| ==> |c.blocks[blk]| == c.info.blockSize && env.readOk(cur, blk)
    ensures Turns(env, cur, c, link, from, n + 1) ==
              if link(from + n) != Delivered || !env.readOk(cur, blk) then Broken
              else if |c.blocks[blk]| < c.info.blockSize then Complete
              else Running((blk + 1) % 0x1_0000, bufp + c.info.blockSize)
  {
    hide Turns, Counted;
    TurnsRun(env, cur, c, link, from, n);
    TurnsNext(env, cur, c, link, from, n);
    CountedNext(n);
    OneMore(n, n + 1, c.info.blockSize);
  }

  lemma TurnsNext(env: Env, cur: nat, c: Curve, link: nat -> Outcome, from: nat, n: nat)
    ensures Turns(env, cur, c, link, from, n + 1) ==
              Turn(env, cur, c, link(from + n) == Delivered, Turns(env, cur, c, link, from, n))
  {}

  /** What the blocks read so far say about the next. */
  lemma ReadOn(env: Env, cur: nat, all: seq<seq<Byte>>, size: nat, n: nat)
    requires n < |all| && BsmpServer.FullUpTo(all, size, n) && Readable(env, cur, n)
    ensures env.readOk(cur, n) <==> Readable(env, cur, n + 1)
    ensures Readable(env, cur, |UntilShort(all, size)|) ==> env.readOk(cur, n)
    ensures |all[n]| < size ==> UntilShort(all, size) == all[..n + 1] && |UntilShort(all, size)| == n + 1
    ensures |all[n]| >= size ==> BsmpServer.FullUpTo(all, size, n + 1)
    ensures Flatten(all[..n + 1]) == Flatten(all[..n]) + all[n]
  {
    hide UntilShort, Readable, Flatten, BsmpServer.FullUpTo;
    BsmpServer.FullThenNext(all, size, n);
    BsmpServer.FlattenNext(all, n);
    BsmpServer.ReadableStep(env, cur, n);
    BsmpServer.ReadableFewer(env, cur, n + 1, |UntilShort(all, size)|);
  }

  lemma LastRound(env: Env, cur: nat, c: Curve, link: nat -> Outcome, from: nat, n: nat)
    requires Turns(env, cur, c, link, from, n).Running? && Turns(env, cur, c, link, from, n).blk >= |c.blocks|
    ensures n == |c.blocks| && Turns(env, cur, c, link, from, n + 1) == Complete
  {
    hide Turns, Counted;
    TurnsRun(env, cur, c, link, from, n);
    TurnsNext(env, cur, c, link, from, n);
    CountedNext(n);
    if n > |c.blocks| {
      NotStopped(env, cur, c, link, from, n, |c.blocks|);
    }
  }

  /** The block asked for in turn k, if any, has its place in the caller's buffer. */
  predicate Fits(env: Env, cur: nat, c: Curve, link: nat -> Outcome, from: nat, capacity: nat, k: nat) {
    var r := Turns(env, cur, c, link, from, k);
    r.Running? && r.blk < |c.blocks| ==> r.bufp + c.info.blockSize <= capacity
  }

  /** What a read asks of its caller: that it ends, and that every block fits up to then. */
  ghost predicate CanRead(env: Env, cur: nat, c: Curve, link: nat -> Outcome, from: nat, capacity: nat) {
    exists n: nat :: !Turns(env, cur, c, link, from, n).Running? &&
      forall k: nat :: k < n ==> Fits(env, cur, c, link, from, capacity, k)
  }

  ghost function LastTurn(env: Env, cur: nat, c: Curve, link: nat -> Outcome, from: nat, capacity: nat): (n: nat)
    requires CanRead(env, cur, c, link, from, capacity)
    ensures !Turns(env, cur, c, link, from, n).Running?
    ensures forall k: nat :: k < n ==> Fits(env, cur, c, link, from, capacity, k)
  {
    var n: nat :| !Turns(env, cur, c, link, from, n).Running? &&
      forall k: nat :: k < n ==> Fits(env, cur, c, link, from, capacity, k);
    n
  }

  /** Before the last turn there is a next one, with room for its block. */
  lemma HasPlace(env: Env, cur: nat, c: Curve, link: nat -> Outcome, from: nat, capacity: nat, k: nat,
                 blk: U16, bufp: nat)
    requires CanRead(env, cur, c, link, from, capacity) && k <= LastTurn(env, cur, c, link, from, capacity)
    requires Turns(env, cur, c, link, from, k) == Running(blk, bufp)
    ensures k < LastTurn(env, cur, c, link, from, capacity)
    ensures blk < |c.blocks| ==> bufp + c.info.blockSize <= capacity
  {
    assert k < LastTurn(env, cur, c, link, from, capacity);
    assert Fits(env, cur, c, link, from, capacity, k);
  }

  /** Room for the curve is room enough, unless the loop starts over; and then, over a link that loses
      nothing, no room is. */
  lemma CanReadWhen(env: Env, cur: nat, c: Curve, link: nat -> Outcome, from: nat, capacity: nat)
    requires Capacity(c) <= capacity
    ensures LoopEnds(env, cur, c) ==> CanRead(env, cur, c, link, from, capacity)
    ensures (forall k: nat :: Arrives(link, from, k)) ==>
              (CanRead(env, cur, c, link, from, capacity) <==> LoopEnds(env, cur, c))
  {
    hide Turns, LoopEnds, CanRead, Arrives;
    if LoopEnds(env, cur, c) {
      FitsWhen(env, cur, c, link, from, capacity);
    } else if forall k: nat :: Arrives(link, from, k) {
      NeverFits(env, cur, c, link, from, capacity);
    }
  }

  lemma NeverFits(env: Env, cur: nat, c: Curve, link: nat -> Outcome, from: nat, capacity: nat)
    requires !LoopEnds(env, cur, c) && forall k: nat :: Arrives(link, from, k)
    ensures !CanRead(env, cur, c, link, from, capacity)
  {
    hide Turns, LoopEnds, Arrives;
    if CanRead(env, cur, c, link, from, capacity) {
      NeverEnds(env, cur, c, link, from, LastTurn(env, cur, c, link, from, capacity));
    }
  }

  lemma FitsWhen(env: Env, cur: nat, c: Curve, link: nat -> Outcome, from: nat, capacity: nat)
    requires LoopEnds(env, cur, c) && Capacity(c) <= capacity
    ensures CanRead(env, cur, c, link, from, capacity)
  {
    hide Turns, LoopEnds;
    EndsBy(env, cur, c, link, from);
    forall k: nat | k < 0x1_0000
      ensures Fits(env, cur, c, link, from, capacity, k)
    {
      if Turns(env, cur, c, link, from, k).Running? {
        TurnsRun(env, cur, c, link, from, k);
        if k < |c.blocks| {
          OneMore(k, |c.blocks|, c.info.blockSize);
        }
      }
    }
  }

  /** A curve of the largest number of blocks, all of them full. */
  function FullCurve(): Curve {
    Curve(CurveInfo(true, CURVE_MAX_BLOCKS, 1, Zeros(CSUM_SIZE)), seq(CURVE_MAX_BLOCKS, _ => [0]), (_, data) => data)
  }

  /** A server may have such a curve, and reading it goes on for ever, past any buffer. */
  lemma EndlessRead(env: Env, cur: nat, link: nat -> Outcome, from: nat, n: nat)
    requires forall i :: 0 <= i < CURVE_MAX_BLOCKS ==> env.readOk(cur, i)
    requires forall k: nat :: Arrives(link, from, k)
    ensures CurveOk(FullCurve())
    ensures Turns(env, cur, FullCurve(), link, from, n) == Running(Counted(n), n)
  {
    hide Turns, Arrives, Counted;
    var c := FullCurve();
    assert |Zeros(CSUM_SIZE)| == CSUM_SIZE;
    NeverEnds(env, cur, c, link, from, n);
    assert n * c.info.blockSize == n;
  }

  /** The curve takes writes and its callback accepts every block. */
  predicate Writable(env: Env, cur: nat, c: Curve) {
    c.info.writable && forall k :: 0 <= k < |c.blocks| ==> env.writeOk(cur, k)
  }

  lemma KnowsStored(curves: seq<KnownCurve>, s: Server, cur: nat, offset: nat, data: seq<Byte>)
    requires Inv(s) && Knows(curves, s, cur) && offset < |s.curves[cur].blocks|
    requires |data| <= s.curves[cur].info.blockSize
    ensures Knows(curves, s.(curves := s.curves[cur := StoreBlock(s.curves[cur], offset, data)]), cur)
  {}

  lemma ChunkStart(data: seq<Byte>, blockSize: nat)
    ensures Least(0 * blockSize, |data|) == 0
  {}

  lemma LeastIs(a: nat, b: nat)
    ensures Least(a, b) == if b < a then b else a
  {}

  lemma ChunkAt(data: seq<Byte>, blockSize: nat, k: nat, bufp: nat, len: nat)
    requires bufp == Least(k * blockSize, |data|) && len == Least(blockSize, |data| - bufp)
    ensures Chunk(data, blockSize, k) == data[bufp..bufp + len]
    ensures bufp + len == Least((k + 1) * blockSize, |data|)
  {
    assert (k + 1) * blockSize == k * blockSize + blockSize;
  }

  /** What a read needs once a write has gone through, and what it gives. */
  lemma ReadsBack(env: Env, curves: seq<KnownCurve>, s: Server, cur: nat, data: seq<Byte>)
    requires Knows(curves, s, cur) && Replaces(s.curves[cur]) && Readable(env, cur, |s.curves[cur].blocks|)
    requires |s.curves[cur].blocks| < 0x1_0000
    requires LongEnough(data, |s.curves[cur].blocks|, s.curves[cur].info.blockSize)
    ensures
      var c := s.curves[cur];
      var c' := CurveAfter(c, data, |c.blocks|);
      var blocks := UntilShort(c'.blocks, c.info.blockSize);
      && Knows(curves, s.(curves := s.curves[cur := c']), cur)
      && |c'.blocks| == |c.blocks| && c'.info.blockSize == c.info.blockSize
      && LoopEnds(env, cur, c') && Readable(env, cur, |blocks|)
      && Flatten(blocks) == data[..Least(Capacity(c), |data|)]
  {
    var c := s.curves[cur];
    var c' := CurveAfter(c, data, |c.blocks|);
    CurveAfterOk(c, data, |c.blocks|);
    KnowsSizes(curves, s, cur);
    WrittenIsRead(c, data);
    BsmpServer.ReadableFewer(env, cur, |UntilShort(c'.blocks, c.info.blockSize)|, |c.blocks|);
    hide CurveOk, CurveAfter, LongEnough, Flatten, UntilShort, Replaces, Readable, Chunk;
  }

  /** A known curve whose callbacks replace blocks and accept every access, with a place for its bytes. */
  ghost predicate Copyable(curves: seq<KnownCurve>, s: Server, env: Env, cur: nat, capacity: nat) {
    && Knows(curves, s, cur) && cur < |s.curves|
    && var c := s.curves[cur];
       && Replaces(c) && Writable(env, cur, c) && Readable(env, cur, |c.blocks|)
       && |c.blocks| < 0x1_0000 && Capacity(c) <= capacity
  }

  lemma CurveAfterOk(c: Curve, data: seq<Byte>, k: nat)
    requires CurveOk(c) && k <= |c.blocks|
    ensures CurveOk(CurveAfter(c, data, k)) && |CurveAfter(c, data, k).blocks| == |c.blocks|
    ensures CurveAfter(c, data, k).info == c.info.(checksum := CurveAfter(c, data, k).info.checksum)
  {
    hide Chunk;
    var c' := CurveAfter(c, data, k);
    forall j | 0 <= j < |c.blocks|
      ensures |c'.blocks[j]| <= c.info.blockSize
    {
      assert |c.store(c.blocks[j], Chunk(data, c.info.blockSize, j))| <= c.info.blockSize;
    }
    assert |Zeros(CSUM_SIZE)| == CSUM_SIZE;
  }

  class Client {
    const server: BsmpServer.Instance
    const answer: BsmpServer.Response
    /** The fate of each exchange, and how many there have been. */
    const link: nat -> Outcome
    var exchanges: nat
    var version: Version
    var vars: seq<VarInfo>
    var groups: seq<GroupInfo>
    var curves: seq<KnownCurve>
    var funcs: seq<FuncInfo>

    ghost predicate Reliable() { forall n :: link(n) == Delivered }

    ghost predicate Valid()
      reads server, server.mem, server.groups
    {
      server.Valid() && server.Ready(answer)
    }

    /** The server's tables and memory. */
    ghost function Remote(): (s: Server)
      requires Valid()
      reads server, server.mem, server.groups
      ensures Inv(s)
    {
      server.State()
    }

    constructor (server: BsmpServer.Instance, link: nat -> Outcome)
      requires server.Valid()
      ensures Valid() && this.server == server && this.link == link && fresh(answer) && fresh(answer.data)
      ensures vars == [] && groups == [] && curves == [] && funcs == []
    {
      this.server, this.link := server, link;
      exchanges := 0;
      version := Version(0, 0, 0);
      vars, groups, curves, funcs := [], [], [], [];
      answer := new BsmpServer.Response();
    }

    /** One request and its answer: packed, sent, processed by the server, received and unpacked. */
    method Command(env: Env, code: Byte, p: seq<Byte>) returns (err: Err, response: Message)
      requires Valid() && |p| <= MAX_PACKET
      modifies this`exchanges, server, server.mem, server.groups, answer, answer.data
      ensures Valid() && exchanges == old(exchanges) + 1
      ensures err == if link(old(exchanges)) == Delivered then Success else Comm
      ensures Remote() == if link(old(exchanges)) == RequestLost then old(Remote())
                          else Dispatch(old(Remote()), env, code, p).0
      ensures err == Success ==> response == Dispatch(old(Remote()), env, code, p).1
    {
      hide Inv, Dispatch, Process, BsmpServer.Instance.Valid, BsmpServer.Instance.State;
      ghost var s := Remote();
      ghost var m := Process(s, env, BsmpProperties.Command(code, p)).1;
      CommandIs(s, env, code, p);
      response := Message(0, []);
      var outcome := link(exchanges);
      exchanges := exchanges + 1;
      if outcome == RequestLost { return Comm, response; }
      var request := [code, |p| / 0x100, |p| % 0x100] + p;
      var len := server.ProcessPacket(request, env, answer);
      if outcome == AnswerLost { return Comm, response; }
      var received := answer.data[..len];
      BsmpProperties.WireWellFormed(m);
      var size := received[1] as int * 0x100 + received[2];
      response := Message(received[0], received[HEADER_SIZE..HEADER_SIZE + size]);
      err := Success;
    }

    method GetVersion(env: Env) returns (err: Err)
      requires Valid()
      modifies this`exchanges, this`version, server, server.mem, server.groups, answer, answer.data
      ensures Valid() && Remote() == old(Remote())
      ensures err == if link(old(exchanges)) == Delivered then Success else Comm
      ensures version == if err == Success then Version(2, 20, 0) else old(version)
    {
      hide Inv, Dispatch, Valid, Remote;
      ListAnswers(Remote(), env);
      var e, response := Command(env, QUERY_VERSION, []);
      if e != Success { return Comm; }
      NoteVersion(response);
      err := Success;
    }

    /** Version 1.0 does not know the command. */
    method NoteVersion(response: Message)
      requires response.code != ERR_OP_NOT_SUPPORTED ==> |response.payload| >= 3
      modifies this`version
      ensures version == if response.code == ERR_OP_NOT_SUPPORTED then Version(1, 0, 0)
                         else Version(response.payload[0], response.payload[1], response.payload[2])
    {
      if response.code == ERR_OP_NOT_SUPPORTED {
        version := Version(1, 0, 0);
      } else {
        version := Version(response.payload[0], response.payload[1], response.payload[2]);
      }
    }

    method UpdateVarsList(env: Env) returns (err: Err)
      requires Valid()
      modifies this`exchanges, this`vars, server, server.mem, server.groups, answer, answer.data
      ensures Valid() && Remote() == old(Remote())
      ensures err == if link(old(exchanges)) == Delivered then Success else Comm
      ensures vars == if err == Success then DecodeVars(VarListBytes(Remote().vars)) else old(vars)
    {
      hide Inv, Dispatch, Valid, Remote, VarListBytes;
      ListAnswers(Remote(), env);
      var e, response := Command(env, VAR_QUERY_LIST, []);
      if e != Success || response.code != VAR_LIST { return Comm; }
      vars := seq(|response.payload|, _ => VarInfo(0, false, 0));
      for i := 0 to |vars|
        modifies this`vars
        invariant |vars| == |response.payload|
        invariant forall k :: 0 <= k < i ==> vars[k] == DecodeVar(k, response.payload[k])
      {
        var info := VarInfo(i, response.payload[i] >= 0x80, response.payload[i] % 0x80);
        if info.size == 0 {
          info := info.(size := VAR_MAX_SIZE);
        }
        vars := vars[i := info];
      }
      err := Success;
    }

    method UpdateFuncsList(env: Env) returns (err: Err)
      requires Valid()
      modifies this`exchanges, this`funcs, server, server.mem, server.groups, answer, answer.data
      ensures Valid() && Remote() == old(Remote())
      ensures err == if link(old(exchanges)) == Delivered then Success else Comm
      ensures funcs == if err == Success then DecodeFuncs(FuncListBytes(Remote().funcs)) else old(funcs)
    {
      hide Inv, Dispatch, Valid, Remote, FuncListBytes;
      ListAnswers(Remote(), env);
      var e, response := Command(env, FUNC_QUERY_LIST, []);
      if e != Success || response.code != FUNC_LIST { return Comm; }
      funcs := seq(|response.payload|, _ => FuncInfo(0, 0, 0));
      for i := 0 to |funcs|
        modifies this`funcs
        invariant |funcs| == |response.payload|
        invariant forall k :: 0 <= k < i ==> funcs[k] == DecodeFunc(k, response.payload[k])
      {
        funcs := funcs[i := FuncInfo(i, response.payload[i] / 0x10, response.payload[i] % 0x10)];
      }
      err := Success;
    }

    /** Group i from its byte of the list and the ids its query gave. */
    method FillGroup(i: nat, b: Byte, ids: seq<nat>)
      requires i < |groups|
      modifies this`groups
      ensures groups == old(groups)[i := DecodeGroup(vars, i, b, ids)]
    {
      hide MembersSize;
      groups := groups[i := GroupInfo(i, b >= 0x80, b % 0x80, 0, [])];
      if ids == [] {
        MembersSizeNone(vars);
      } else {
        MembersSizeNext(vars, ids, 0);
      }
      assert ids[..|ids|] == ids;
      for j := 0 to |ids|
        invariant groups == old(groups)[i := GroupInfo(i, b >= 0x80, b % 0x80, MembersSize(vars, ids[..j]), ids[..j])]
      {
        MembersSizeNext(vars, ids, j);
        assert ids[..j + 1] == ids[..j] + [ids[j]];
        var grp := groups[i];
        groups := groups[i := grp.(members := grp.members + [ids[j]], size := grp.size + SizeOf(vars, ids[j]))];
      }
    }

    /** On a failure half-way the list is left empty; on one at the start it is left as it was. */
    method UpdateGroupsList(env: Env) returns (err: Err)
      requires Valid()
      modifies this`exchanges, this`groups, server, server.mem, server.groups, answer, answer.data
      ensures Valid() && Remote() == old(Remote())
      ensures err == Success || err == Comm
      ensures Reliable() ==> err == Success
      ensures err == Success ==> groups == DecodeGroups(vars, Remote().groups)
      ensures err != Success ==> groups == old(groups) || groups == []
    {
      hide Inv, Dispatch, Valid, Remote, GroupListBytes, GroupByte, DecodeGroup;
      ghost var s := Remote();
      ListAnswers(s, env);
      var e, response := Command(env, GROUP_QUERY_LIST, []);
      if e != Success { return Comm; }
      if response.code != GROUP_LIST { return Comm; }
      var list := response.payload;
      ListedGroups(s.groups);
      groups := seq(|list|, _ => GroupInfo(0, false, 0, 0, []));
      for i := 0 to |list|
        invariant Valid() && Remote() == s && |groups| == |list|
        invariant forall k :: 0 <= k < i ==>
          groups[k] == DecodeGroup(vars, k, GroupByte(s.groups[k]), s.groups[k].members)
      {
        GroupAnswers(s, env, i);
        e, response := Command(env, GROUP_QUERY, [i]);
        if e != Success || response.code != GROUP {
          groups := [];
          return Comm;
        }
        FillGroup(i, list[i], response.payload);
      }
      err := Success;
    }

    method UpdateCurvesList(env: Env) returns (err: Err)
      requires Valid()
      modifies this`exchanges, this`curves, server, server.mem, server.groups, answer, answer.data
      ensures Valid() && Remote() == old(Remote())
      ensures err == if link(old(exchanges)) == Delivered then Success else Comm
      ensures err == Success ==> |curves| == |Remote().curves|
      ensures err == Success ==> forall k :: 0 <= k < |curves| ==>
                curves[k] == ToldOf(k, Remote().curves[k].info, true) ||
                (!Reliable() && curves[k] == ToldOf(k, Remote().curves[k].info, false))
      ensures err != Success ==> curves == old(curves)
    {
      hide Inv, Dispatch, Valid, Remote, CurveListBytes, CurveBytes, DecodeCurve;
      ghost var s := Remote();
      ListAnswers(s, env);
      var e, response := Command(env, CURVE_QUERY_LIST, []);
      if e != Success || response.code != CURVE_LIST { return Comm; }
      var list := response.payload;
      var payloadp := 0;
      curves := seq(|list| / 5, _ => KnownCurve(0, CurveInfo(false, 0, 0, Zeros(CSUM_SIZE))));
      for i := 0 to |list| / 5
        invariant Valid() && Remote() == s && |curves| == |list| / 5 && payloadp == 5 * i
        invariant forall k :: 0 <= k < i ==>
          curves[k] == ToldOf(k, s.curves[k].info, true) ||
          (!Reliable() && curves[k] == ToldOf(k, s.curves[k].info, false))
      {
        CurveListAt(s.curves, i);
        CsumAnswers(s, env, i);
        var info := UnpackCurve(list[payloadp..payloadp + 5]);
        payloadp := payloadp + 5;
        curves := curves[i := KnownCurve(i, info)];
        e, response := Command(env, CURVE_QUERY_CSUM, [i]);
        if e != Success || response.code != CURVE_CSUM { continue; }
        DecodeCurveChecksum(CurveBytes(s.curves[i].info), response.payload);
        curves := curves[i := KnownCurve(i, info.(checksum := response.payload))];
      }
      err := Success;
    }

    method UnpackCurve(p: seq<Byte>) returns (info: CurveInfo)
      requires |p| == 5
      ensures info == DecodeCurve(p, Zeros(CSUM_SIZE))
    {
      info := CurveInfo(p[0] != 0, p[3] as int * 0x100 + p[4], p[1] as int * 0x100 + p[2], Zeros(CSUM_SIZE));
      if info.nblocks == 0 {
        info := info.(nblocks := CURVE_MAX_BLOCKS);
      }
    }

    function Known(): Lists
      reads this
    {
      Lists(vars, groups, curves, funcs)
    }

    /** After a start-up over a reliable link the client's tables are the server's, exactly if the
        packed lists can say what those are. */
    method Init(env: Env) returns (err: Err)
      requires Valid()
      modifies this, server, server.mem, server.groups, answer, answer.data
      ensures Valid() && Remote() == old(Remote())
      ensures Reliable() ==> err == Success
      ensures err == Success ==> version == Version(2, 20, 0)
      ensures err == Success && Reliable() ==> (Synced(Known(), Remote()) <==> Encodable(Remote()))
      ensures err == Success ==> (VarsSynced(vars, Remote()) <==> VarsEncodable(Remote()))
      ensures err == Success ==>
                groups == DecodeGroups(vars, Remote().groups) && funcs == DecodeFuncs(FuncListBytes(Remote().funcs))
    {
      hide Inv, Valid, Remote, DecodeVars, VarListBytes, DecodeFuncs, FuncListBytes, DecodeGroups, AllTold, Synced,
        Encodable, VarsSynced, VarsEncodable, ToldOf;
      ghost var s := Remote();
      vars, groups, curves, funcs := [], [], [], [];
      err := GetVersion(env);
      if err != Success { return; }
      err := UpdateVarsList(env);
      if err != Success { return; }
      VarsRoundTrip(s);
      err := UpdateGroupsList(env);
      if err != Success { return; }
      err := UpdateCurvesList(env);
      if err != Success { return; }
      if Reliable() {
        AllToldWhen(curves, s);
      }
      err := UpdateFuncsList(env);
      if err == Success && Reliable() {
        SyncedIfEncodable(Known(), s);
      }
    }

    /** The entries named go to the server as a new group; the group list is then asked for again,
        whose failure does not show in the result. */
    method CreateGroup(env: Env, list: seq<nat>) returns (err: Err)
      requires Valid() && |list| <= MAX_PACKET
      modifies this`exchanges, this`groups, server, server.mem, server.groups, answer, answer.data
      ensures Valid()
      ensures err == ParamInvalid <==> list == [] || !Bounded(list, |vars|)
      ensures err == ParamInvalid ==> Remote() == old(Remote()) && groups == old(groups)
      ensures err != ParamInvalid ==>
                var (s, m) := GroupCreate(old(Remote()), IdsOf(vars, list));
                && (err == Success ==> m.code == OK && Remote() == s)
                && (Reliable() ==> (err == Success <==> m.code == OK) && Remote() == s)
      ensures VarsSynced(vars, old(Remote())) ==>
                && (err == Success ==> Remote().groups == old(Remote()).groups + [GroupOf(old(Remote()).vars, list)])
                && (Reliable() ==>
                      (err == Success <==>
                         && list != [] && Bounded(list, |vars|) && Increasing(list)
                         && |old(Remote()).groups| < MAX_GROUPS))
      ensures err == Success ==>
                || groups == DecodeGroups(vars, Remote().groups)
                || (!Reliable() && (groups == old(groups) || groups == []))
      ensures err == Success && Reliable() && Synced(old(Known()), old(Remote())) ==>
                (Synced(Known(), Remote()) <==> GroupsEncodable(Remote()))
    {
      hide Inv, Valid, Remote, Dispatch, GroupCreate, DecodeGroups, Synced, GroupsEncodable, GroupOf,
        Increasing;
      ghost var s, known := Remote(), Known();
      if list == [] { return ParamInvalid; }
      var p: seq<Byte> := [];
      for k := 0 to |list|
        invariant Bounded(list[..k], |vars|) && p == IdsOf(vars, list[..k])
      {
        assert list[..k + 1] == list[..k] + [list[k]];
        if list[k] >= |vars| { return ParamInvalid; }
        p := p + [vars[list[k]].id % 0x100];
      }
      assert list[..|list|] == list;
      CreateKeepsRest(s, p);
      if VarsSynced(vars, s) {
        CreatesChosen(s, vars, list);
      }
      BsmpServer.DispatchGroup(Remote(), env, GROUP_CREATE, p);
      var e, response := Command(env, GROUP_CREATE, p);
      if e != Success { return Comm; }
      if response.code != OK { return Comm; }
      e := UpdateGroupsList(env);
      if Reliable() && Synced(known, s) {
        StaysSynced(known, s, Remote());
      }
      err := Success;
    }

    method RemoveAllGroups(env: Env) returns (err: Err)
      requires Valid()
      modifies this`exchanges, this`groups, server, server.mem, server.groups, answer, answer.data
      ensures Valid()
      ensures Reliable() ==> err == Success
      ensures err == Success ==> Remote() == old(Remote()).(groups := old(Remote()).groups[..STANDARD_GROUPS])
      ensures err == Success ==>
                || groups == DecodeGroups(vars, Remote().groups)
                || (!Reliable() && (groups == old(groups) || groups == []))
      ensures err == Success && Reliable() && Synced(old(Known()), old(Remote())) ==>
                (Synced(Known(), Remote()) <==> GroupsEncodable(Remote()))
    {
      hide Inv, Valid, Remote, Dispatch, GroupRemoveAll, DecodeGroups, Synced, GroupsEncodable;
      ghost var s, known := Remote(), Known();
      BsmpServer.DispatchGroup(Remote(), env, GROUP_REMOVE_ALL, []);
      RemovesAll(Remote());
      var e, response := Command(env, GROUP_REMOVE_ALL, []);
      if e != Success || response.code != OK { return Comm; }
      e := UpdateGroupsList(env);
      if Reliable() && Synced(known, s) {
        StaysSynced(known, s, Remote());
      }
      err := Success;
    }

    // ----- Curves, block by block -----

    /** A caller's buffer is not part of the client or the server. */
    ghost predicate Apart(buf: array<Byte>) {
      buf != server.mem && buf as object != server.groups && buf != answer.data
    }

    method RequestCurveBlock(env: Env, cur: nat, offset: U16, buf: array<Byte>, at: nat) returns (err: Err, len: nat)
      requires Valid() && Apart(buf)
      requires cur < |curves| ==>
                 Knows(curves, Remote(), cur) && at + curves[cur].info.blockSize <= buf.Length
      modifies this`exchanges, server, server.mem, server.groups, answer, answer.data, buf
      ensures Valid() && Remote() == old(Remote())
      ensures cur >= |curves| ==> err == ParamInvalid
      ensures cur < |curves| ==>
                var c := Remote().curves[cur];
                && (offset <= |c.blocks| ==>
                      && exchanges == old(exchanges) + 1
                      && (err == Success <==>
                            link(old(exchanges)) == Delivered && offset < |c.blocks| && env.readOk(cur, offset)))
                && (err == Success ==> offset < |c.blocks| && env.readOk(cur, offset) && len == |c.blocks[offset]|)
                && (err == Success ==> at + len <= buf.Length && buf[..at + len] == old(buf[..at]) + c.blocks[offset])
                && (forall k :: at + len <= k < buf.Length ==> buf[k] == old(buf[k]))
                && (err != Success ==> len == 0)
                && (Reliable() ==> (err == Success <==> offset < |c.blocks| && env.readOk(cur, offset)))
    {
      hide Inv, Valid, Remote, Dispatch, CurveOk, Knows;
      len := 0;
      if cur >= |curves| { return ParamInvalid, len; }
      KnowsSizes(curves, Remote(), cur);
      ghost var c := Remote().curves[cur];
      if offset > curves[cur].info.nblocks { return ParamOutOfRange, len; }
      BlockAnswers(Remote(), env, cur, offset);
      var e, response := Command(env, CURVE_BLOCK_REQUEST, [cur, Hi(offset), Lo(offset)]);
      if e != Success || response.code != CURVE_BLOCK { return Comm, len; }
      var data := response.payload[BLOCK_INFO..];
      len := |response.payload| - BLOCK_INFO;
      assert data == c.blocks[offset];
      CopyTo(buf, at, data);
      err := Success;
    }

    method CopyTo(buf: array<Byte>, at: nat, data: seq<Byte>)
      requires at + |data| <= buf.Length
      modifies buf
      ensures buf[..at + |data|] == old(buf[..at]) + data
      ensures forall k :: at + |data| <= k < buf.Length ==> buf[k] == old(buf[k])
    {
      forall k | 0 <= k < |data| { buf[at + k] := data[k]; }
    }

    /** All blocks up to the first short one, one after the other in the buffer. */
    method ReadCurve(env: Env, cur: nat, buf: array<Byte>) returns (err: Err, len: nat)
      requires Valid() && Apart(buf) && (cur < |curves| ==> Knows(curves, Remote(), cur))
      requires cur < |curves| ==> CanRead(env, cur, Remote().curves[cur], link, exchanges, buf.Length)
      modifies this`exchanges, server, server.mem, server.groups, answer, answer.data, buf
      ensures Valid() && Remote() == old(Remote())
      ensures cur >= |curves| ==> err == ParamInvalid
      ensures cur < |curves| ==>
                var c := Remote().curves[cur];
                var blocks := UntilShort(c.blocks, c.info.blockSize);
                && (exists n: nat :: Turns(env, cur, c, link, old(exchanges), n) ==
                                       if err == Success then Complete else Broken)
                && (err == Success ==> len <= buf.Length && buf[..len] == Flatten(blocks))
                && (err != Success ==> len == 0)
                && (Reliable() ==> (err == Success <==> Readable(env, cur, |blocks|)))
    {
      hide Inv, Valid, Remote, CurveOk, Flatten, UntilShort, LoopEnds, Readable, BsmpServer.FullUpTo, Knows, Turns,
        Fits, CanRead, LastTurn;
      if cur >= |curves| { return ParamInvalid, 0; }
      KnowsSizes(curves, Remote(), cur);
      ghost var s, c, from := Remote(), Remote().curves[cur], exchanges;
      ghost var all, size: nat := c.blocks, c.info.blockSize;
      var info := curves[cur].info;
      BsmpServer.FullNone(all, size);
      BsmpServer.FlattenNone(all[..0]);
      BsmpServer.ReadableStep(env, cur, 0);
      TurnsStart(env, cur, c, link, from);
      len := 0;
      var blk: U16, bufp: nat := 0, 0;
      ghost var n: nat := 0;
      while blk < info.nblocks
        invariant n <= LastTurn(env, cur, c, link, from, buf.Length) && exchanges == from + n
        invariant Turns(env, cur, c, link, from, n) == Running(blk, bufp)
        invariant Valid() && Remote() == s
        invariant BsmpServer.FullUpTo(all, size, Least(n, |all|)) && Readable(env, cur, Least(n, |all|))
        invariant n <= |all| ==> len == n * size <= buf.Length && buf[..len] == Flatten(all[..n])
        decreases LastTurn(env, cur, c, link, from, buf.Length) - n
      {
        Round(env, cur, c, link, from, n, blk, bufp);
        HasPlace(env, cur, c, link, from, buf.Length, n, blk, bufp);
        if n < |all| {
          ReadOn(env, cur, all, size, n);
        }
        var blklen;
        err, blklen := RequestCurveBlock(env, cur, blk, buf, bufp);
        if err != Success {
          return err, 0;
        }
        len := len + blklen;
        if blklen < info.blockSize {
          return Success, len;
        }
        bufp := bufp + info.blockSize;
        blk := (blk + 1) % 0x1_0000;
        n := n + 1;
      }
      LastRound(env, cur, c, link, from, n);
      BsmpServer.FullToTheEnd(all, size);
      err := Success;
    }

    method SendCurveBlock(env: Env, cur: nat, offset: U16, data: seq<Byte>) returns (err: Err)
      requires Valid() && (cur < |curves| ==> Knows(curves, Remote(), cur))
      modifies this`exchanges, server, server.mem, server.groups, answer, answer.data
      ensures Valid()
      ensures cur >= |curves| || !curves[cur].info.writable ==> err == ParamInvalid
      ensures err == ParamInvalid || err == ParamOutOfRange ==> Remote() == old(Remote())
      ensures cur < |curves| ==>
                var s := old(Remote());
                var c := s.curves[cur];
                var fits := data != [] && |data| <= c.info.blockSize && c.info.writable;
                var taken := offset < |c.blocks| && env.writeOk(cur, offset);
                && (err == Success ==> fits && taken)
                && (err == Success ==> Remote() == s.(curves := s.curves[cur := StoreBlock(c, offset, data)]))
                && (Reliable() ==> (err == Success <==> fits && taken))
                && (Reliable() && err != Success ==> Remote() == s)
                && (Remote() == s ||
                    (fits && taken && Remote() == s.(curves := s.curves[cur := StoreBlock(c, offset, data)])))
    {
      hide Inv, Valid, Remote, Dispatch, Knows, CurveOk, StoreBlock;
      if cur >= |curves| { return ParamInvalid; }
      KnowsSizes(curves, Remote(), cur);
      if !curves[cur].info.writable { return ParamInvalid; }
      if offset > curves[cur].info.nblocks { return ParamOutOfRange; }
      if |data| > curves[cur].info.blockSize { return ParamOutOfRange; }
      BlockTaken(Remote(), env, cur, offset, data);
      var e, response := Command(env, CURVE_BLOCK, [cur, Hi(offset), Lo(offset)] + data);
      if e != Success || response.code != OK { return Comm; }
      err := Success;
    }

    /** One chunk to each block. Over a reliable link, with callbacks that accept, this succeeds
        exactly when a 16-bit counter can count the blocks and the data reaches the last of them. */
    method WriteCurve(env: Env, cur: nat, data: seq<Byte>) returns (err: Err, ghost taken: nat)
      requires Valid() && (cur < |curves| ==> Knows(curves, Remote(), cur))
      modifies this`exchanges, server, server.mem, server.groups, answer, answer.data
      ensures Valid()
      ensures cur >= |curves| ==> err == ParamInvalid && Remote() == old(Remote())
      ensures cur < |curves| ==>
                var s := old(Remote());
                var c := s.curves[cur];
                && (err == Success ==> Remote() == s.(curves := s.curves[cur := CurveAfter(c, data, |c.blocks|)]))
                && (Reliable() && |c.blocks| < 0x1_0000 ==>
                      && taken <= |c.blocks| && (err == Success <==> taken == |c.blocks|)
                      && Remote() == s.(curves := s.curves[cur := CurveAfter(c, data, taken)]))
                && (Reliable() && Writable(env, cur, c) ==>
                      (err == Success <==> |c.blocks| < 0x1_0000 && LongEnough(data, |c.blocks|, c.info.blockSize)))
    {
      hide Inv, Valid, Remote, Knows, CurveOk, StoreBlock, CurveAfter, LongEnough, Chunk, Least;
      taken := 0;
      if cur >= |curves| { return ParamInvalid, taken; }
      KnowsSizes(curves, Remote(), cur);
      ghost var s, c := Remote(), Remote().curves[cur];
      ghost var count, few := |c.blocks|, |c.blocks| < 0x1_0000;
      var info := curves[cur].info;
      WrittenNone(c, data);
      ChunkStart(data, info.blockSize);
      var blk: U16, bufp := 0, 0;
      while blk < info.nblocks
        invariant Valid() && Knows(curves, Remote(), cur) && bufp <= |data|
        invariant few ==> taken == blk <= count && bufp == Least(blk * info.blockSize, |data|)
        invariant few ==> Remote() == s.(curves := s.curves[cur := CurveAfter(c, data, blk)])
        invariant few && blk > 0 ==> Chunk(data, info.blockSize, blk - 1) != []
        decreases |data| - bufp
      {
        var blklen := if |data| - bufp < info.blockSize then |data| - bufp else info.blockSize;
        LeastIs(info.blockSize, |data| - bufp);
        ghost var before := Remote();
        KnowsSizes(curves, before, cur);
        if few {
          ChunkAt(data, info.blockSize, blk, bufp, blklen);
        }
        err := SendCurveBlock(env, cur, blk, data[bufp..bufp + blklen]);
        if err != Success {
          if few && blklen == 0 {
            ChunkEmpty(data, count, info.blockSize, blk);
          }
          return;
        }
        KnowsStored(curves, before, cur, blk, data[bufp..bufp + blklen]);
        if few {
          WrittenNext(c, data, blk);
        }
        bufp := bufp + blklen;
        blk := (blk + 1) % 0x1_0000;
        taken := taken + 1;
      }
      NotChunkEmpty(data, count, info.blockSize);
      err := Success;
    }

    /** A curve written and read back, over a reliable link to callbacks that store what they are
        given: it works exactly when the data reaches the last block, and gives back all that fits,
        so exactly the data when it is no longer than the curve. */
    method WriteThenRead(env: Env, cur: nat, data: seq<Byte>, buf: array<Byte>) returns (err: Err, len: nat)
      requires Valid() && Apart(buf) && Reliable() && cur < |curves|
      requires Copyable(curves, Remote(), env, cur, buf.Length)
      modifies this`exchanges, server, server.mem, server.groups, answer, answer.data, buf
      ensures Valid()
      ensures
        var c := old(Remote()).curves[cur];
        && (err == Success <==> LongEnough(data, |c.blocks|, c.info.blockSize))
        && (err == Success ==> len == Least(Capacity(c), |data|))
      ensures err == Success ==> len <= buf.Length && len <= |data| && buf[..len] == data[..len]
    {
      hide Inv, Valid, Remote, Knows, CurveOk, CurveAfter, LongEnough, Flatten, UntilShort, Replaces, Writable,
        Readable, LoopEnds;
      ghost var s := Remote();
      assert Copyable(curves, s, env, cur, buf.Length);
      KnowsSizes(curves, s, cur);
      len := 0;
      ghost var taken;
      err, taken := WriteCurve(env, cur, data);
      if err != Success { return; }
      ReadsBack(env, curves, s, cur, data);
      CanReadWhen(env, cur, Remote().curves[cur], link, exchanges, buf.Length);
      err, len := ReadCurve(env, cur, buf);
    }
  }
}
