/** What holds over every run of the server, and how its commands relate to one another. */
module BsmpProperties {
  import opened Bytes
  import opened BsmpModel
  import Md5

  // ----- The invariant over every run -----

  lemma {:induction false} TotalSizeSnoc(vars: seq<Var>, ids: seq<nat>, id: nat)
    requires Bounded(ids, |vars|) && id < |vars|
    ensures TotalSize(vars, ids + [id]) == TotalSize(vars, ids) + vars[id].size
  {
    if ids == [] {
      assert [id][1..] == [];
      assert ids + [id] == [id];
    } else {
      TotalSizeSnoc(vars, ids[1..], id);
      assert (ids + [id])[1..] == ids[1..] + [id];
    }
  }

  lemma {:induction false} TotalSizeGrow(vars: seq<Var>, v: Var, ids: seq<nat>)
    requires Bounded(ids, |vars|)
    ensures TotalSize(vars + [v], ids) == TotalSize(vars, ids)
  {
    if ids != [] {
      TotalSizeGrow(vars, v, ids[1..]);
    }
  }

  /** A group does not change when another variable is registered. */
  lemma GroupOkGrow(vars: seq<Var>, v: Var, g: Group)
    requires GroupOk(vars, g)
    ensures GroupOk(vars + [v], g)
  {
    TotalSizeGrow(vars, v, g.members);
  }

  lemma AddMemberOk(vars: seq<Var>, g: Group, id: nat)
    requires GroupOk(vars, g) && id < |vars| && Bounded(g.members, id)
    ensures GroupOk(vars, AddMember(g, vars[id], id))
  {
    TotalSizeSnoc(vars, g.members, id);
    var ids := g.members + [id];
    assert AllWritable(vars, ids) <==> AllWritable(vars, g.members) && vars[id].writable by {
      assert ids[|g.members|] == id;
      assert forall i :: 0 <= i < |g.members| ==> ids[i] == g.members[i];
    }
  }

  lemma AddVarKeepsInv(s: Server, v: Var)
    requires Inv(s) && VarOk(|s.mem|, v) && |s.vars| < MAX_VARIABLES
    ensures Inv(AddVar(s, v)) && AddVar(s, v).mem == s.mem
  {
    AddVarGroupsOk(s, v);
    AddVarStandard(s, v);
  }

  lemma AddVarGroupsOk(s: Server, v: Var)
    requires Inv(s)
    ensures
      var s' := AddVar(s, v);
      forall i :: 0 <= i < |s'.groups| ==> GroupOk(s'.vars, s'.groups[i])
  {
    assert |s.groups| >= STANDARD_GROUPS;
    hide StandardGroups, VarOk, CurveOk, FuncOk, ChecksumOk;
    var s', id := AddVar(s, v), |s.vars|;
    forall i | 0 <= i < |s'.groups|
      ensures GroupOk(s'.vars, s'.groups[i])
    {
      assert GroupOk(s.vars, s.groups[i]);
      GroupOkGrow(s.vars, v, s.groups[i]);
      AddMemberOk(s'.vars, s.groups[i], id);
    }
  }

  lemma AddVarStandard(s: Server, v: Var)
    requires Inv(s)
    ensures StandardGroups(AddVar(s, v))
  {
    hide GroupOf, VarOk, CurveOk, FuncOk, ChecksumOk;
    var s', id := AddVar(s, v), |s.vars|;
    assert GroupOk(s.vars, s.groups[READ]) && GroupOk(s.vars, s.groups[WRITE]);
    assert id !in s.groups[READ].members && id !in s.groups[WRITE].members;
    assert s'.groups[ALL].members == Ids(|s'.vars|);
  }

  /** A step of a run: a registration at start-up, or a packet. */
  datatype Op =
    | NewVar(v: Var, hasData: bool)
    | NewCurve(c: Curve, hasRead: bool, hasWrite: bool)
    | NewFunc(f: Func, hasCode: bool)
    | Packet(env: Env, bytes: seq<Byte>)

  /** What the code demands of its callers: data pointers into memory, callbacks that keep to their
      declared sizes, and curves handed over with a checksum still zero. */
  ghost predicate OpOk(mem: nat, op: Op) {
    match op
    case NewVar(v, hasData) => hasData ==> v.addr + v.size <= mem
    case NewCurve(c, hasRead, hasWrite) =>
      c.info.nblocks <= CURVE_MAX_BLOCKS && c.info.blockSize <= CURVE_BLOCK_MAX_SIZE && hasRead ==>
        CurveOk(c) && c.info.checksum == Zeros(CSUM_SIZE)
    case NewFunc(f, hasCode) =>
      hasCode && f.inputSize <= FUNC_MAX_INPUT && f.outputSize <= FUNC_MAX_OUTPUT ==> FuncOk(f)
    case Packet(_, _) => true
  }

  function Step(s: Server, op: Op): Server
    requires Inv(s)
  {
    match op
    case NewVar(v, hasData) => RegisterVar(s, v, hasData).0
    case NewCurve(c, hasRead, hasWrite) => RegisterCurve(s, c, hasRead, hasWrite).0
    case NewFunc(f, hasCode) => RegisterFunc(s, f, hasCode).0
    case Packet(env, bytes) => Process(s, env, bytes).0
  }

  lemma GroupCreateKeepsInv(s: Server, p: seq<Byte>)
    requires Inv(s)
    ensures Inv(GroupCreate(s, p).0)
  {
    var s' := GroupCreate(s, p).0;
    if s' != s {
      assert GroupOk(s.vars, GroupOf(s.vars, p));
      assert forall i :: 0 <= i < |s.groups| ==> s'.groups[i] == s.groups[i];
    }
  }

  lemma CurveBlockKeepsInv(s: Server, env: Env, p: seq<Byte>)
    requires Inv(s)
    ensures Inv(CurveBlock(s, env, p).0)
  {
    var s' := CurveBlock(s, env, p).0;
    if s'.curves != s.curves {
      var c, offset := s.curves[p[0]], Join(p[1], p[2]);
      assert CurveOk(c) && |c.blocks[offset]| <= c.info.blockSize;
      assert CurveOk(StoreBlock(c, offset, p[BLOCK_INFO..]));
    }
  }

  lemma CurveRecalcKeepsInv(s: Server, env: Env, p: seq<Byte>)
    requires Inv(s)
    ensures Inv(CurveRecalcCsum(s, env, p).0)
  {
    var s' := CurveRecalcCsum(s, env, p).0;
    if s'.curves != s.curves {
      var c := s.curves[p[0]];
      assert CurveOk(c);
      var c' := c.(info := c.info.(checksum := Checksum(s.compress, c)));
      assert s'.curves[p[0]] == c' && HashedBlocks(c') == HashedBlocks(c);
      assert CurveOk(c') && ChecksumOk(s.compress, c');
    }
  }

  lemma MemoryKeepsInv(s: Server, mem: seq<Byte>)
    requires Inv(s) && |mem| == |s.mem|
    ensures Inv(s.(mem := mem))
  {}

  lemma GroupRemoveAllKeepsInv(s: Server, p: seq<Byte>)
    requires Inv(s)
    ensures Inv(GroupRemoveAll(s, p).0)
  {
    hide GroupOk, Ids, VarOk, CurveOk, FuncOk, ChecksumOk;
  }

  /** The handlers not treated above touch nothing but memory. */
  lemma OthersKeepTables(s: Server, env: Env, code: Byte, p: seq<Byte>)
    requires Inv(s)
    requires code != GROUP_CREATE && code != GROUP_REMOVE_ALL && code != CURVE_BLOCK && code != CURVE_RECALC_CSUM
    ensures
      var s' := Dispatch(s, env, code, p).0;
      s' == s.(mem := s'.mem) && |s'.mem| == |s.mem|
  {
    hide Inv, VarWrite, VarWriteRead, VarBinOp, GroupWrite, GroupBinOp, FuncExecute;
    FuncKeepsTables(s, p);
    VarWritesKeepTables(s, p);
    GroupWritesKeepTables(s, p);
  }

  lemma VarWritesKeepTables(s: Server, p: seq<Byte>)
    requires Inv(s)
    ensures var s' := VarWrite(s, p).0; s' == s.(mem := s'.mem) && |s'.mem| == |s.mem|
    ensures var s' := VarWriteRead(s, p).0; s' == s.(mem := s'.mem) && |s'.mem| == |s.mem|
    ensures var s' := VarBinOp(s, p).0; s' == s.(mem := s'.mem) && |s'.mem| == |s.mem|
  {
    TablesOk(s);
    hide Inv, GroupOk, Combine, OperationOf;
  }

  lemma GroupWritesKeepTables(s: Server, p: seq<Byte>)
    requires Inv(s)
    ensures var s' := GroupWrite(s, p).0; s' == s.(mem := s'.mem) && |s'.mem| == |s.mem|
    ensures var s' := GroupBinOp(s, p).0; s' == s.(mem := s'.mem) && |s'.mem| == |s.mem|
  {
    TablesOk(s);
    hide Inv, VarOk, WriteMembers, CombineMembers, OperationOf;
  }

  lemma FuncKeepsTables(s: Server, p: seq<Byte>)
    requires Inv(s)
    ensures
      var s' := FuncExecute(s, p).0;
      s' == s.(mem := s'.mem) && |s'.mem| == |s.mem|
  {
    if p != [] && p[0] < |s.funcs| {
      assert FuncOk(s.funcs[p[0]]);
    }
  }

  lemma DispatchIs(s: Server, env: Env, code: Byte, p: seq<Byte>)
    requires Inv(s)
    ensures code == GROUP_CREATE ==> Dispatch(s, env, code, p) == GroupCreate(s, p)
    ensures code == GROUP_REMOVE_ALL ==> Dispatch(s, env, code, p) == GroupRemoveAll(s, p)
    ensures code == CURVE_BLOCK ==> Dispatch(s, env, code, p) == CurveBlock(s, env, p)
    ensures code == CURVE_RECALC_CSUM ==> Dispatch(s, env, code, p) == CurveRecalcCsum(s, env, p)
  {
    hide Inv, GroupCreate, GroupRemoveAll, CurveBlock, CurveRecalcCsum;
  }

  lemma DispatchKeepsInv(s: Server, env: Env, code: Byte, p: seq<Byte>)
    requires Inv(s)
    ensures Inv(Dispatch(s, env, code, p).0)
    ensures |Dispatch(s, env, code, p).0.mem| == |s.mem|
  {
    hide Dispatch, Inv;
    DispatchIs(s, env, code, p);
    if code == GROUP_CREATE {
      GroupCreateKeepsInv(s, p);
    } else if code == GROUP_REMOVE_ALL {
      GroupRemoveAllKeepsInv(s, p);
    } else if code == CURVE_BLOCK {
      CurveBlockKeepsInv(s, env, p);
    } else if code == CURVE_RECALC_CSUM {
      CurveRecalcKeepsInv(s, env, p);
    } else {
      OthersKeepTables(s, env, code, p);
      MemoryKeepsInv(s, Dispatch(s, env, code, p).0.mem);
    }
  }

  lemma StepKeepsInv(s: Server, op: Op)
    requires Inv(s) && OpOk(|s.mem|, op)
    ensures Inv(Step(s, op)) && |Step(s, op).mem| == |s.mem|
  {
    hide Inv, Dispatch, AddVar;
    TablesOk(s);
    match op
    case NewVar(v, hasData) =>
      if RegisterVar(s, v, hasData).1 == Success {
        AddVarKeepsInv(s, v);
      }
    case NewCurve(c, hasRead, hasWrite) => NewCurveKeepsInv(s, c, hasRead, hasWrite);
    case NewFunc(f, hasCode) => NewFuncKeepsInv(s, f, hasCode);
    case Packet(env, bytes) =>
      if WellFormed(bytes) {
        DispatchKeepsInv(s, env, bytes[0], bytes[HEADER_SIZE..]);
      }
  }

  lemma NewCurveKeepsInv(s: Server, c: Curve, hasRead: bool, hasWrite: bool)
    requires Inv(s) && OpOk(|s.mem|, NewCurve(c, hasRead, hasWrite))
    ensures Inv(RegisterCurve(s, c, hasRead, hasWrite).0)
    ensures RegisterCurve(s, c, hasRead, hasWrite).0.mem == s.mem
  {
    assert RegisterCurve(s, c, hasRead, hasWrite).1 == Success ==> CurveOk(c) && ChecksumOk(s.compress, c);
    hide CurveOk, ChecksumOk, GroupOk, VarOk, FuncOk, Ids;
  }

  lemma NewFuncKeepsInv(s: Server, f: Func, hasCode: bool)
    requires Inv(s) && OpOk(|s.mem|, NewFunc(f, hasCode))
    ensures Inv(RegisterFunc(s, f, hasCode).0)
    ensures RegisterFunc(s, f, hasCode).0.mem == s.mem
  {
    hide CurveOk, ChecksumOk, GroupOk, VarOk, FuncOk, Ids;
  }

  ghost predicate RunOk(mem: nat, ops: seq<Op>) { forall i :: 0 <= i < |ops| ==> OpOk(mem, ops[i]) }

  lemma RunStep(s: Server, ops: seq<Op>)
    requires Inv(s) && RunOk(|s.mem|, ops) && ops != []
    ensures Inv(Step(s, ops[0])) && RunOk(|Step(s, ops[0]).mem|, ops[1..])
  {
    hide Step, Inv, OpOk;
    StepKeepsInv(s, ops[0]);
  }

  ghost function Run(s: Server, ops: seq<Op>): (r: Server)
    requires Inv(s) && RunOk(|s.mem|, ops)
    ensures Inv(r)
    decreases |ops|
  {
    if ops == [] then s
    else
      RunStep(s, ops);
      Run(Step(s, ops[0]), ops[1..])
  }

  /** After any sequence of registrations and packets from start-up: the standard groups are what
      they are named for, every group a client can see is a strictly increasing choice of variables
      with its size and writability, and between three and eight of them exist. */
  lemma ReachableTables(mem: seq<Byte>, compress: Md5.Compress, ops: seq<Op>)
    requires RunOk(|mem|, ops)
    ensures
      var s := Run(Init(mem, compress), ops);
      && 3 <= |s.groups| <= 8
      && (forall i :: 0 <= i < |s.groups| ==> GroupOk(s.vars, s.groups[i]))
      && s.groups[ALL].members == Ids(|s.vars|)
      && Partition(|s.vars|, s.groups[READ].members, s.groups[WRITE].members)
      && s.groups[WRITE].writable
      && (s.groups[READ].writable <==> s.groups[READ].members == [])
  {
    var s := Run(Init(mem, compress), ops);
    var g := s.groups[READ];
    assert GroupOk(s.vars, g) && GroupOk(s.vars, s.groups[WRITE]);
    forall id | id in g.members
      ensures 0 <= id < |s.vars| && !s.vars[id].writable && id !in s.groups[WRITE].members
    {}
    forall id | id in s.groups[WRITE].members
      ensures 0 <= id < |s.vars| && s.vars[id].writable
    {}
    if g.members != [] {
      assert g.members[0] in g.members;
    }
  }

  /** Every id below n in exactly one of the two lists. */
  ghost predicate Partition(n: nat, a: seq<nat>, b: seq<nat>) {
    && (forall id :: id in a || id in b <==> 0 <= id < n)
    && (forall id :: id in a ==> id !in b)
  }

  // ----- The curve checksum -----

  /** Some block is short by the loop's test and a later one is not empty. */
  predicate LosesBlocks(blocks: seq<seq<Byte>>, limit: nat) {
    exists i, j :: 0 <= i < j < |blocks| && |blocks[i]| < limit && blocks[j] != []
  }

  lemma {:induction false} FlattenEmpty(parts: seq<seq<Byte>>)
    ensures Flatten(parts) == [] <==> forall i :: 0 <= i < |parts| ==> parts[i] == []
  {
    if parts != [] {
      var rest := parts[1..];
      FlattenEmpty(rest);
      assert |Flatten(parts)| == |parts[0]| + |Flatten(rest)|;
      assert forall i :: 0 <= i < |rest| ==> rest[i] == parts[i + 1];
      assert forall i :: 1 <= i < |parts| ==> parts[i] == rest[i - 1];
    }
  }

  lemma SameSuffix(x: seq<Byte>, y: seq<Byte>, z: seq<Byte>)
    ensures x + y == x + z <==> y == z
  {
    assert (x + y)[|x|..] == y && (x + z)[|x|..] == z;
  }

  /** A short block in front loses something exactly when something follows it. */
  lemma LosesAfterShort(block: seq<Byte>, rest: seq<seq<Byte>>, limit: nat)
    requires |block| < limit
    ensures Flatten(rest) == [] <==> !LosesBlocks([block] + rest, limit)
  {
    hide Flatten;
    FlattenEmpty(rest);
    var blocks := [block] + rest;
    assert forall j :: 1 <= j < |blocks| ==> blocks[j] == rest[j - 1];
    if Flatten(rest) != [] {
      var j :| 0 <= j < |rest| && rest[j] != [];
      assert |blocks[0]| < limit && blocks[j + 1] != [];
    }
  }

  lemma LosesAfterFull(block: seq<Byte>, rest: seq<seq<Byte>>, limit: nat)
    requires |block| >= limit
    ensures LosesBlocks(rest, limit) <==> LosesBlocks([block] + rest, limit)
  {
    var blocks := [block] + rest;
    assert forall j :: 1 <= j < |blocks| ==> blocks[j] == rest[j - 1];
    if LosesBlocks(blocks, limit) {
      var i, j :| 0 <= i < j < |blocks| && |blocks[i]| < limit && blocks[j] != [];
      assert |rest[i - 1]| < limit && rest[j - 1] != [];
    }
    if LosesBlocks(rest, limit) {
      var i, j :| 0 <= i < j < |rest| && |rest[i]| < limit && rest[j] != [];
      assert |blocks[i + 1]| < limit && blocks[j + 1] != [];
    }
  }

  /** The checksum covers the whole curve exactly when the loop's early exit drops nothing. */
  lemma {:induction false} HashesAll(blocks: seq<seq<Byte>>, limit: nat)
    ensures Flatten(UntilShort(blocks, limit)) == Flatten(blocks) <==> !LosesBlocks(blocks, limit)
  {
    hide LosesBlocks;
    if blocks == [] {
      assert !LosesBlocks([], limit) by { LosesNone(limit); }
    } else {
      var rest := blocks[1..];
      assert [blocks[0]] + rest == blocks;
      if |blocks[0]| < limit {
        LosesAfterShort(blocks[0], rest, limit);
        var none: seq<seq<Byte>> := [];
        assert [blocks[0]][1..] == none;
        SameSuffix(blocks[0], Flatten(none), Flatten(rest));
      } else {
        LosesAfterFull(blocks[0], rest, limit);
        HashesAll(rest, limit);
        assert ([blocks[0]] + UntilShort(rest, limit))[1..] == UntilShort(rest, limit);
        SameSuffix(blocks[0], Flatten(UntilShort(rest, limit)), Flatten(rest));
      }
    }
  }

  lemma LosesNone(limit: nat)
    ensures !LosesBlocks([], limit)
  {}

  /** In every reachable state a stored checksum is reset, or the digest of the blocks as they are;
      all of them when no early exit loses any. */
  lemma ReachableChecksums(mem: seq<Byte>, compress: Md5.Compress, ops: seq<Op>, k: nat)
    requires RunOk(|mem|, ops)
    requires k < |Run(Init(mem, compress), ops).curves|
    ensures
      var s := Run(Init(mem, compress), ops);
      var c := s.curves[k];
      && (c.info.checksum == Zeros(CSUM_SIZE) || c.info.checksum == Checksum(s.compress, c))
      && (!LosesBlocks(c.blocks, c.info.nblocks) ==>
            Checksum(s.compress, c) == Md5.Digest(s.compress, Flatten(c.blocks)))
  {
    var s := Run(Init(mem, compress), ops);
    var c := s.curves[k];
    assert ChecksumOk(s.compress, c) && CurveOk(c);
    HashesAll(c.blocks, c.info.nblocks);
  }

  /** Curves whose blocks are all full: the whole curve is covered when its blocks are at least as
      long as there are blocks, and otherwise only the first block is. */
  lemma FullBlocksHashed(c: Curve)
    requires CurveOk(c) && forall i :: 0 <= i < |c.blocks| ==> |c.blocks[i]| == c.info.blockSize
    ensures Flatten(HashedBlocks(c)) == Flatten(c.blocks) <==>
              c.info.nblocks <= 1 || c.info.blockSize >= c.info.nblocks || c.info.blockSize == 0
  {
    HashesAll(c.blocks, c.info.nblocks);
    if !(c.info.nblocks <= 1 || c.info.blockSize >= c.info.nblocks || c.info.blockSize == 0) {
      assert |c.blocks[0]| < c.info.nblocks && c.blocks[1] != [];
    }
  }

  /** Three full blocks of two bytes. */
  function ShortBlockCurve(last: Byte): Curve {
    Curve(CurveInfo(true, 3, 2, Zeros(CSUM_SIZE)), [[1, 2], [3, 4], [5, last]], (_, data) => data)
  }

  /** Its checksum is that of the first block alone: the others may change without changing it. */
  lemma ChecksumMissesBlocks(compress: Md5.Compress, last: Byte)
    ensures CurveOk(ShortBlockCurve(last)) && HashedBlocks(ShortBlockCurve(last)) == [[1, 2]]
    ensures Checksum(compress, ShortBlockCurve(last)) == Md5.Digest(compress, [1, 2])
  {
    var c := ShortBlockCurve(last);
    assert |Zeros(CSUM_SIZE)| == CSUM_SIZE;
    assert c.blocks[0] == [1, 2] && |c.blocks[0]| < c.info.nblocks;
    assert Flatten([[1, 2]]) == [1, 2] + Flatten([[1, 2]][1..]) == [1, 2];
  }

  // ----- Answers -----

  /** Every answer fits its 16-bit size field, and its packet a 16-bit length. */
  lemma AnswerFits(s: Server, env: Env, packet: seq<Byte>)
    requires Inv(s)
    ensures |Process(s, env, packet).1.payload| + HEADER_SIZE <= MAX_PACKET
  {
    hide Inv, VarQueryList, VarRead, VarWrite, VarWriteRead, VarBinOp, GroupQueryList, GroupQuery, GroupRead,
      GroupWrite, GroupBinOp, GroupCreate, GroupRemoveAll, CurveQueryList, CurveQueryCsum, CurveBlockRequest,
      CurveBlock, CurveRecalcCsum, FuncQueryList, FuncExecute;
    if WellFormed(packet) {
      var p := packet[HEADER_SIZE..];
      VarAnswersFit(s, p);
      GroupAnswersFit(s, p);
      CurveAnswersFit(s, env, p);
      FuncAnswersFit(s, p);
    }
  }

  lemma VarAnswersFit(s: Server, p: seq<Byte>)
    requires Inv(s)
    ensures |VarQueryList(s, p).1.payload| <= MAX_VARIABLES
    ensures |VarRead(s, p).1.payload| <= VAR_MAX_SIZE && |VarWriteRead(s, p).1.payload| <= VAR_MAX_SIZE
    ensures VarWrite(s, p).1.payload == VarBinOp(s, p).1.payload == []
  {}

  lemma GroupAnswersFit(s: Server, p: seq<Byte>)
    requires Inv(s)
    ensures |GroupQueryList(s, p).1.payload| <= MAX_GROUPS
    ensures |GroupQuery(s, p).1.payload| <= MAX_VARIABLES
    ensures |GroupRead(s, p).1.payload| <= MAX_VARIABLES * VAR_MAX_SIZE
    ensures GroupWrite(s, p).1.payload == GroupBinOp(s, p).1.payload == []
    ensures GroupCreate(s, p).1.payload == GroupRemoveAll(s, p).1.payload == []
  {
    if |p| == 1 && p[0] < |s.groups| {
      var ids := s.groups[p[0]].members;
      assert GroupOk(s.vars, s.groups[p[0]]);
      IncreasingShort(ids, |s.vars|);
      SizeBound(s.vars, ids);
      hide TotalSize, ReadMembers, AllWritable;
    }
  }

  lemma CurveAnswersFit(s: Server, env: Env, p: seq<Byte>)
    requires Inv(s)
    ensures |CurveQueryList(s, p).1.payload| <= 5 * MAX_CURVES
    ensures |CurveQueryCsum(s, p).1.payload| <= CSUM_SIZE
    ensures |CurveBlockRequest(s, env, p).1.payload| <= BLOCK_INFO + CURVE_BLOCK_MAX_SIZE
    ensures CurveBlock(s, env, p).1.payload == []
    ensures |CurveRecalcCsum(s, env, p).1.payload| <= CSUM_SIZE
  {
    if p != [] && p[0] < |s.curves| {
      assert CurveOk(s.curves[p[0]]);
    }
  }

  lemma FuncAnswersFit(s: Server, p: seq<Byte>)
    requires Inv(s)
    ensures |FuncQueryList(s, p).1.payload| <= MAX_FUNCTIONS
    ensures |FuncExecute(s, p).1.payload| <= FUNC_MAX_OUTPUT
  {
    if p != [] && p[0] < |s.funcs| {
      assert FuncOk(s.funcs[p[0]]);
    }
  }

  lemma {:induction false} IncreasingShort(ids: seq<nat>, n: nat)
    requires Increasing(ids) && Bounded(ids, n)
    ensures |ids| <= n
  {
    if ids != [] {
      IncreasingShort(ids[..|ids| - 1], ids[|ids| - 1]);
    }
  }

  lemma SizeBound(vars: seq<Var>, ids: seq<nat>)
    requires Bounded(ids, |vars|) && forall i :: 0 <= i < |vars| ==> vars[i].size <= VAR_MAX_SIZE
    ensures TotalSize(vars, ids) <= VAR_MAX_SIZE * |ids|
  {}

  /** The size field of the answer on the wire says how long its payload is. */
  lemma WireWellFormed(m: Message)
    requires |m.payload| + HEADER_SIZE <= MAX_PACKET
    ensures WellFormed(Wire(m)) && Wire(m)[0] == m.code && Wire(m)[HEADER_SIZE..] == m.payload
  {
    assert 0x100 * (|m.payload| / 0x100) + |m.payload| % 0x100 == |m.payload|;
  }

  /** An error answer means that nothing happened, except that a group write may have stored the
      members whose values were accepted. */
  lemma ErrorsChangeNothing(s: Server, env: Env, packet: seq<Byte>)
    requires Inv(s)
    ensures
      var (s', m) := Process(s, env, packet);
      var refused := packet != [] && packet[0] == GROUP_WRITE && m.code == ERR_INVALID_VALUE;
      ERR_MALFORMED_MESSAGE <= m.code && !refused ==> s' == s
  {
    hide Inv, Value, WriteMembers, CombineMembers, ReadMembers, Checksum, GroupOf, Combine, OperationOf;
  }

  // ----- A group command is the variable commands of its members -----

  /** The packets sent one after another: the server left behind and the answers. */
  ghost function RunPackets(s: Server, env: Env, packets: seq<seq<Byte>>): (r: (Server, seq<Message>))
    requires Inv(s)
    ensures Inv(r.0) && |r.0.mem| == |s.mem|
    decreases |packets|
  {
    if packets == [] then (s, [])
    else
      StepKeepsInv(s, Packet(env, packets[0]));
      var (s', m) := Process(s, env, packets[0]);
      var (s'', ms) := RunPackets(s', env, packets[1..]);
      (s'', [m] + ms)
  }

  function Command(code: Byte, p: seq<Byte>): seq<Byte>
    requires |p| < 0x1_0000
  {
    Wire(Message(code, p))
  }

  function ReadPackets(ids: seq<nat>): seq<seq<Byte>>
    requires Bounded(ids, 0x100)
  {
    if ids == [] then [] else [Command(VAR_READ, [ids[0]])] + ReadPackets(ids[1..])
  }

  /** One VAR_WRITE for each member, with its slice of the data. */
  function WritePackets(vars: seq<Var>, ids: seq<nat>, data: seq<Byte>): seq<seq<Byte>>
    requires Bounded(ids, |vars|) && |vars| <= MAX_VARIABLES && |data| == TotalSize(vars, ids)
  {
    if ids == [] then []
    else
      var n := vars[ids[0]].size;
      [Command(VAR_WRITE, [ids[0]] + data[..n])] + WritePackets(vars, ids[1..], data[n..])
  }

  function BinOpPackets(op: Byte, vars: seq<Var>, ids: seq<nat>, mask: seq<Byte>): seq<seq<Byte>>
    requires Bounded(ids, |vars|) && |vars| <= MAX_VARIABLES && |mask| == TotalSize(vars, ids)
  {
    if ids == [] then []
    else
      var n := vars[ids[0]].size;
      [Command(VAR_BIN_OP, [ids[0], op] + mask[..n])] + BinOpPackets(op, vars, ids[1..], mask[n..])
  }

  function Payloads(ms: seq<Message>): seq<Byte> {
    if ms == [] then [] else ms[0].payload + Payloads(ms[1..])
  }

  predicate AllOk(ms: seq<Message>) { forall i :: 0 <= i < |ms| ==> ms[i].code == OK }

  lemma CommandProcessed(s: Server, env: Env, code: Byte, p: seq<Byte>)
    requires Inv(s) && |p| + HEADER_SIZE <= MAX_PACKET
    ensures
      var r := Process(s, env, Command(code, p));
      && (code == VAR_READ ==> r == VarRead(s, p))
      && (code == VAR_WRITE ==> r == VarWrite(s, p))
      && (code == VAR_BIN_OP ==> r == VarBinOp(s, p))
      && (code == GROUP_READ ==> r == GroupRead(s, p))
      && (code == GROUP_WRITE ==> r == GroupWrite(s, p))
      && (code == GROUP_BIN_OP ==> r == GroupBinOp(s, p))
      && (code == CURVE_RECALC_CSUM ==> r == CurveRecalcCsum(s, env, p))
  {
    hide Inv, VarRead, VarWrite, VarBinOp, GroupRead, GroupWrite, GroupBinOp, CurveRecalcCsum;
    WireWellFormed(Message(code, p));
  }

  /** A server with that curve alone. */
  function ShortBlockServer(compress: Md5.Compress, last: Byte): (s: Server)
    ensures Inv(s)
  {
    var start := BsmpModel.Init([], compress);
    ChecksumMissesBlocks(compress, last);
    StepKeepsInv(start, NewCurve(ShortBlockCurve(last), true, true));
    Step(start, NewCurve(ShortBlockCurve(last), true, true))
  }

  /** Asked for the checksum it answers and stores that of the first block. */
  lemma ServerMissesBlocks(compress: Md5.Compress, env: Env, last: Byte)
    requires env.readOk(0, 0)
    ensures
      var (s, m) := Process(ShortBlockServer(compress, last), env, Command(CURVE_RECALC_CSUM, [0]));
      var sum := Md5.Digest(compress, [1, 2]);
      && m == Message(CURVE_CSUM, sum) && |s.curves| == 1
      && s.curves[0] == ShortBlockCurve(last).(info := ShortBlockCurve(last).info.(checksum := sum))
  {
    hide Inv, Checksum, ShortBlockCurve, ShortBlockServer, HashedBlocks, Md5.Digest, Process, Command;
    ChecksumMissesBlocks(compress, last);
    ShortBlockServerIs(compress, last);
    var s, c := ShortBlockServer(compress, last), ShortBlockCurve(last);
    assert HashedBlocks(c) == [[1, 2]];
    Recalculated(s, env, 0);
  }

  lemma ShortBlockServerIs(compress: Md5.Compress, last: Byte)
    ensures
      var s := ShortBlockServer(compress, last);
      s.curves == [ShortBlockCurve(last)] && s.compress == compress
  {
    hide Inv;
  }

  lemma Recalculated(s: Server, env: Env, id: Byte)
    requires Inv(s) && id < |s.curves| && Readable(env, id, |HashedBlocks(s.curves[id])|)
    ensures
      var c, sum := s.curves[id], Checksum(s.compress, s.curves[id]);
      Process(s, env, Command(CURVE_RECALC_CSUM, [id])) ==
      (s.(curves := s.curves[id := c.(info := c.info.(checksum := sum))]), Message(CURVE_CSUM, sum))
  {
    hide Inv, Checksum, HashedBlocks, Readable, Process, Command;
    CommandProcessed(s, env, CURVE_RECALC_CSUM, [id]);
  }

  lemma VariableOk(s: Server, id: nat)
    requires Inv(s) && id < |s.vars|
    ensures id < 0x80 && VarOk(|s.mem|, s.vars[id])
  {}

  lemma TablesOk(s: Server)
    requires Inv(s)
    ensures |s.vars| <= MAX_VARIABLES
    ensures forall i :: 0 <= i < |s.vars| ==> VarOk(|s.mem|, s.vars[i])
    ensures forall i :: 0 <= i < |s.groups| ==> GroupOk(s.vars, s.groups[i])
  {}

  /** One member's VAR_READ, VAR_WRITE and VAR_BIN_OP. */
  lemma ReadOne(s: Server, env: Env, id: nat)
    requires Inv(s) && id < |s.vars|
    ensures id < 0x80 && VarOk(|s.mem|, s.vars[id])
    ensures Process(s, env, Command(VAR_READ, [id])) == (s, Message(VAR_VALUE, Value(s.mem, s.vars[id])))
  {
    hide Inv, Process, Command;
    VariableOk(s, id);
    CommandProcessed(s, env, VAR_READ, [id]);
  }

  lemma WriteOne(s: Server, env: Env, id: nat, slice: seq<Byte>)
    requires Inv(s) && id < |s.vars| && s.vars[id].writable && |slice| == s.vars[id].size
    ensures id < 0x80 && VarOk(|s.mem|, s.vars[id])
    ensures
      var v := s.vars[id];
      var (s', m) := Process(s, env, Command(VAR_WRITE, [id] + slice));
      && s' == s.(mem := if v.accepts(slice) then Splice(s.mem, v.addr, slice) else s.mem)
      && (m.code == OK <==> v.accepts(slice) && v.size > 0)
  {
    hide Inv, Process, Command;
    VariableOk(s, id);
    var p := [id] + slice;
    CommandProcessed(s, env, VAR_WRITE, p);
    assert p[1..] == slice;
    assert slice == [] ==> Splice(s.mem, s.vars[id].addr, slice) == s.mem;
  }

  lemma BinOpOne(s: Server, env: Env, op: Byte, id: nat, slice: seq<Byte>)
    requires Inv(s) && id < |s.vars| && s.vars[id].writable && |slice| == s.vars[id].size
    requires OperationOf(op).Some?
    ensures id < 0x80 && VarOk(|s.mem|, s.vars[id])
    ensures Process(s, env, Command(VAR_BIN_OP, [id, op] + slice)).0 ==
              s.(mem := Combine(OperationOf(op).value, s.mem, s.vars[id], slice))
  {
    hide Inv, Process, Command, OperationOf;
    VariableOk(s, id);
    var p := [id, op] + slice;
    CommandProcessed(s, env, VAR_BIN_OP, p);
    assert p[2..] == slice;
    if slice == [] {
      assert Combine(OperationOf(op).value, s.mem, s.vars[id], slice) == s.mem;
    }
  }

  lemma {:induction false} ReadsOneByOne(s: Server, env: Env, ids: seq<nat>)
    requires Inv(s) && Bounded(ids, |s.vars|)
    ensures Bounded(ids, 0x100) && MembersOk(s.vars, ids, |s.mem|)
    ensures RunPackets(s, env, ReadPackets(ids)).0 == s
    ensures Payloads(RunPackets(s, env, ReadPackets(ids)).1) == ReadMembers(s.vars, ids, s.mem)
    decreases |ids|
  {
    hide Inv, Process, Command;
    TablesOk(s);
    if ids != [] {
      ReadOne(s, env, ids[0]);
      ReadsOneByOne(s, env, ids[1..]);
      var packets := ReadPackets(ids);
      assert packets[1..] == ReadPackets(ids[1..]);
      var rest := RunPackets(s, env, ReadPackets(ids[1..])).1;
      var m := Message(VAR_VALUE, Value(s.mem, s.vars[ids[0]]));
      assert RunPackets(s, env, packets).1 == [m] + rest;
      assert ([m] + rest)[1..] == rest;
    }
  }

  predicate NoneEmpty(vars: seq<Var>, ids: seq<nat>)
    requires Bounded(ids, |vars|)
  {
    forall i :: 0 <= i < |ids| ==> vars[ids[i]].size > 0
  }

  lemma NoneEmptyTail(vars: seq<Var>, ids: seq<nat>)
    requires Bounded(ids, |vars|) && ids != []
    ensures NoneEmpty(vars, ids) <==> vars[ids[0]].size > 0 && NoneEmpty(vars, ids[1..])
  {
    assert forall i :: 0 < i < |ids| ==> ids[i] == ids[1..][i - 1];
  }

  lemma {:induction false} WritesOneByOne(s: Server, env: Env, ids: seq<nat>, data: seq<Byte>)
    requires Inv(s) && Bounded(ids, |s.vars|) && |data| == TotalSize(s.vars, ids)
    requires AllWritable(s.vars, ids)
    ensures |s.vars| <= MAX_VARIABLES && MembersOk(s.vars, ids, |s.mem|)
    ensures
      var w := WriteMembers(s.vars, ids, data, s.mem);
      var (s', ms) := RunPackets(s, env, WritePackets(s.vars, ids, data));
      && s' == s.(mem := w.mem)
      && (AllOk(ms) <==> !w.failed && NoneEmpty(s.vars, ids))
    decreases |ids|
  {
    hide Inv, Process, Command;
    TablesOk(s);
    if ids != [] {
      var v := s.vars[ids[0]];
      var slice, rest := data[..v.size], data[v.size..];
      WriteOne(s, env, ids[0], slice);
      var (s', m) := Process(s, env, Command(VAR_WRITE, [ids[0]] + slice));
      MemoryKeepsInv(s, s'.mem);
      WritesOneByOne(s', env, ids[1..], rest);
      var packets := WritePackets(s.vars, ids, data);
      assert packets[1..] == WritePackets(s.vars, ids[1..], rest);
      AllOkCons(m, RunPackets(s', env, packets[1..]).1);
      NoneEmptyTail(s.vars, ids);
      hide AllOk, NoneEmpty;
    }
  }

  lemma AllOkCons(m: Message, ms: seq<Message>)
    ensures AllOk([m] + ms) <==> m.code == OK && AllOk(ms)
  {
    var all := [m] + ms;
    assert forall i :: 0 <= i < |ms| ==> all[i + 1] == ms[i];
    assert all[0] == m;
  }

  lemma {:induction false} BinOpsOneByOne(s: Server, env: Env, op: Byte, ids: seq<nat>, mask: seq<Byte>)
    requires Inv(s) && Bounded(ids, |s.vars|) && |mask| == TotalSize(s.vars, ids)
    requires AllWritable(s.vars, ids) && OperationOf(op).Some?
    ensures |s.vars| <= MAX_VARIABLES && MembersOk(s.vars, ids, |s.mem|)
    ensures RunPackets(s, env, BinOpPackets(op, s.vars, ids, mask)).0 ==
              s.(mem := CombineMembers(OperationOf(op).value, s.vars, ids, mask, s.mem))
    decreases |ids|
  {
    hide Inv, Process, Command, OperationOf, Combine;
    TablesOk(s);
    if ids != [] {
      var v := s.vars[ids[0]];
      var slice, rest := mask[..v.size], mask[v.size..];
      BinOpOne(s, env, op, ids[0], slice);
      var s' := Process(s, env, Command(VAR_BIN_OP, [ids[0], op] + slice)).0;
      MemoryKeepsInv(s, s'.mem);
      BinOpsOneByOne(s', env, op, ids[1..], rest);
      var packets := BinOpPackets(op, s.vars, ids, mask);
      assert packets[1..] == BinOpPackets(op, s.vars, ids[1..], rest);
    }
  }

  lemma GroupFits(s: Server, gid: Byte)
    requires Inv(s) && gid < |s.groups|
    ensures GroupOk(s.vars, s.groups[gid]) && s.groups[gid].size <= MAX_VARIABLES * VAR_MAX_SIZE
  {
    hide Inv;
    TablesOk(s);
    var ids := s.groups[gid].members;
    IncreasingShort(ids, |s.vars|);
    SizeBound(s.vars, ids);
  }

  /** Reading a group answers what reading its variables answers. */
  lemma GroupReadIsVarReads(s: Server, env: Env, gid: Byte)
    requires Inv(s) && gid < |s.groups|
    ensures Bounded(s.groups[gid].members, 0x100)
    ensures
      var (s', m) := Process(s, env, Command(GROUP_READ, [gid]));
      && m.code == GROUP_VALUES && s' == s
      && m.payload == Payloads(RunPackets(s, env, ReadPackets(s.groups[gid].members)).1)
  {
    hide Inv, Process, Command, RunPackets, ReadMembers;
    GroupFits(s, gid);
    CommandProcessed(s, env, GROUP_READ, [gid]);
    ReadsOneByOne(s, env, s.groups[gid].members);
  }

  /** Writing a group leaves what writing its variables with their slices leaves. All of those succeed
      just when the group write does and no member has size 0, which only a group write puts up with. */
  lemma GroupWriteIsVarWrites(s: Server, env: Env, gid: Byte, data: seq<Byte>)
    requires Inv(s) && gid < |s.groups| && s.groups[gid].writable
    requires 0 < |data| == s.groups[gid].size
    ensures GroupOk(s.vars, s.groups[gid]) && |data| < 0xFFFF && |s.vars| <= MAX_VARIABLES
    ensures
      var ids := s.groups[gid].members;
      var (s', m) := Process(s, env, Command(GROUP_WRITE, [gid] + data));
      var (s'', ms) := RunPackets(s, env, WritePackets(s.vars, ids, data));
      && s' == s''
      && (AllOk(ms) <==> m.code == OK && NoneEmpty(s.vars, ids))
  {
    hide Inv, Process, Command, RunPackets, WriteMembers, WritePackets, TotalSize, AllOk, NoneEmpty;
    GroupFits(s, gid);
    CommandProcessed(s, env, GROUP_WRITE, [gid] + data);
    assert ([gid] + data)[1..] == data;
    WritesOneByOne(s, env, s.groups[gid].members, data);
  }

  /** Combining a group with a mask leaves what combining its variables with their slices leaves. */
  lemma GroupBinOpIsVarBinOps(s: Server, env: Env, gid: Byte, op: Byte, mask: seq<Byte>)
    requires Inv(s) && gid < |s.groups| && s.groups[gid].writable && OperationOf(op).Some?
    requires |mask| == s.groups[gid].size
    ensures GroupOk(s.vars, s.groups[gid]) && |mask| < 0xFFFE && |s.vars| <= MAX_VARIABLES
    ensures
      Process(s, env, Command(GROUP_BIN_OP, [gid, op] + mask)).0 ==
      RunPackets(s, env, BinOpPackets(op, s.vars, s.groups[gid].members, mask)).0
  {
    hide Inv, Process, Command, RunPackets, CombineMembers, BinOpPackets, TotalSize, OperationOf;
    GroupFits(s, gid);
    CommandProcessed(s, env, GROUP_BIN_OP, [gid, op] + mask);
    assert ([gid, op] + mask)[2..] == mask;
    BinOpsOneByOne(s, env, op, s.groups[gid].members, mask);
  }

  // ----- What one command undoes or confirms -----

  predicate Apart(v: Var, w: Var) { v.addr + v.size <= w.addr || w.addr + w.size <= v.addr }

  predicate MembersApart(vars: seq<Var>, ids: seq<nat>)
    requires Bounded(ids, |vars|)
  {
    forall i, j :: 0 <= i < j < |ids| ==> Apart(vars[ids[i]], vars[ids[j]])
  }

  /** A write to members away from v leaves v as it was. */
  lemma {:induction false} WriteElsewhere(vars: seq<Var>, ids: seq<nat>, data: seq<Byte>, mem: seq<Byte>, v: Var)
    requires MembersOk(vars, ids, |mem|) && |data| == TotalSize(vars, ids)
    requires VarOk(|mem|, v) && forall i :: 0 <= i < |ids| ==> Apart(v, vars[ids[i]])
    ensures Value(WriteMembers(vars, ids, data, mem).mem, v) == Value(mem, v)
    decreases |ids|
  {
    if ids != [] {
      var w := vars[ids[0]];
      var mem' := if w.accepts(data[..w.size]) then Splice(mem, w.addr, data[..w.size]) else mem;
      SpliceAt(mem, w.addr, data[..w.size]);
      assert forall a :: v.addr <= a < v.addr + v.size ==> mem'[a] == mem[a];
      assert Value(mem', v) == Value(mem, v);
      WriteElsewhere(vars, ids[1..], data[w.size..], mem', v);
    }
  }

  lemma SplicedValue(mem: seq<Byte>, v: Var, value: seq<Byte>)
    requires VarOk(|mem|, v) && |value| == v.size
    ensures |Splice(mem, v.addr, value)| == |mem| && Value(Splice(mem, v.addr, value), v) == value
  {}

  lemma {:induction false} WrittenIsRead(vars: seq<Var>, ids: seq<nat>, data: seq<Byte>, mem: seq<Byte>)
    requires MembersOk(vars, ids, |mem|) && |data| == TotalSize(vars, ids)
    requires MembersApart(vars, ids)
    ensures
      var w := WriteMembers(vars, ids, data, mem);
      !w.failed ==> ReadMembers(vars, ids, w.mem) == data
    decreases |ids|
  {
    hide Splice, Value, MembersApart, Apart;
    if ids != [] && !WriteMembers(vars, ids, data, mem).failed {
      var v := vars[ids[0]];
      var mem' := Splice(mem, v.addr, data[..v.size]);
      var rest := ids[1..];
      SpliceAt(mem, v.addr, data[..v.size]);
      SplicedValue(mem, v, data[..v.size]);
      MembersApartTail(vars, ids);
      WrittenIsRead(vars, rest, data[v.size..], mem');
      WriteElsewhere(vars, rest, data[v.size..], mem', v);
    }
  }

  /** If a group write is answered with OK, reading the group then gives the bytes written. */
  lemma GroupWriteThenRead(s: Server, env: Env, gid: Byte, data: seq<Byte>)
    requires Inv(s) && gid < |s.groups| && |data| < 0xFFFC
    requires GroupOk(s.vars, s.groups[gid]) && MembersApart(s.vars, s.groups[gid].members)
    ensures
      var (s', m) := Process(s, env, Command(GROUP_WRITE, [gid] + data));
      m.code == OK ==>
        Inv(s') && Process(s', env, Command(GROUP_READ, [gid])) == (s', Message(GROUP_VALUES, data))
  {
    hide Inv, Process, Command, WriteMembers, ReadMembers, TotalSize;
    TablesOk(s);
    CommandProcessed(s, env, GROUP_WRITE, [gid] + data);
    assert ([gid] + data)[1..] == data;
    var (s', m) := GroupWrite(s, [gid] + data);
    if m.code == OK {
      MemoryKeepsInv(s, s'.mem);
      CommandProcessed(s', env, GROUP_READ, [gid]);
      WrittenIsRead(s.vars, s.groups[gid].members, data, s.mem);
    }
  }

  /** The byte that a group write means for an address: that of the last member there to accept its
      slice. */
  function LastAt(vars: seq<Var>, ids: seq<nat>, data: seq<Byte>, a: nat): Option<Byte>
    requires Bounded(ids, |vars|) && |data| == TotalSize(vars, ids)
    decreases |ids|
  {
    if ids == [] then None
    else
      var v := vars[ids[0]];
      var last := LastAt(vars, ids[1..], data[v.size..], a);
      if last.Some? then last
      else if v.accepts(data[..v.size]) && v.addr <= a < v.addr + v.size then Some(data[a - v.addr])
      else None
  }

  /** Members may overlap. */
  lemma {:induction false} WrittenAt(vars: seq<Var>, ids: seq<nat>, data: seq<Byte>, mem: seq<Byte>, a: nat)
    requires MembersOk(vars, ids, |mem|) && |data| == TotalSize(vars, ids) && a < |mem|
    ensures
      var last := LastAt(vars, ids, data, a);
      WriteMembers(vars, ids, data, mem).mem[a] == if last.Some? then last.value else mem[a]
    decreases |ids|
  {
    hide Splice;
    if ids != [] {
      var v := vars[ids[0]];
      var slice, rest := data[..v.size], data[v.size..];
      SpliceAt(mem, v.addr, slice);
      if v.accepts(slice) {
        WrittenAt(vars, ids[1..], rest, Splice(mem, v.addr, slice), a);
        assert v.addr <= a < v.addr + v.size ==> slice[a - v.addr] == data[a - v.addr];
      } else {
        WrittenAt(vars, ids[1..], rest, mem, a);
      }
    }
  }

  /** Every byte that the data means for an address is there already. */
  predicate NothingNew(vars: seq<Var>, ids: seq<nat>, data: seq<Byte>, mem: seq<Byte>)
    requires Bounded(ids, |vars|) && |data| == TotalSize(vars, ids)
  {
    forall a :: 0 <= a < |mem| ==> LastAt(vars, ids, data, a) in {None, Some(mem[a])}
  }

  lemma MembersApartTail(vars: seq<Var>, ids: seq<nat>)
    requires Bounded(ids, |vars|) && ids != [] && MembersApart(vars, ids)
    ensures MembersApart(vars, ids[1..])
    ensures forall i :: 0 <= i < |ids| - 1 ==> Apart(vars[ids[0]], vars[ids[1..][i]])
  {
    var rest := ids[1..];
    forall i, j | 0 <= i < j < |rest|
      ensures Apart(vars[rest[i]], vars[rest[j]])
    {
      assert Apart(vars[ids[i + 1]], vars[ids[j + 1]]);
    }
    forall i | 0 <= i < |rest|
      ensures Apart(vars[ids[0]], vars[rest[i]])
    {
      assert Apart(vars[ids[0]], vars[ids[i + 1]]);
    }
  }

  /** A group write, refused for a value or not, leaves the server as it was exactly when it means
      nothing new for any address. */
  lemma GroupWriteUnchanged(s: Server, env: Env, gid: Byte, data: seq<Byte>)
    requires Inv(s) && gid < |s.groups| && s.groups[gid].writable && 0 < |data| == s.groups[gid].size
    ensures GroupOk(s.vars, s.groups[gid]) && |data| < 0xFFFF
    ensures Process(s, env, Command(GROUP_WRITE, [gid] + data)).0 == s <==>
              NothingNew(s.vars, s.groups[gid].members, data, s.mem)
  {
    hide Inv, Process, Command, WriteMembers, LastAt, TotalSize;
    TablesOk(s);
    GroupFits(s, gid);
    CommandProcessed(s, env, GROUP_WRITE, [gid] + data);
    assert ([gid] + data)[1..] == data;
    var ids := s.groups[gid].members;
    var mem' := WriteMembers(s.vars, ids, data, s.mem).mem;
    forall a | 0 <= a < |s.mem|
      ensures mem'[a] == s.mem[a] <==> LastAt(s.vars, ids, data, a) in {None, Some(s.mem[a])}
    {
      WrittenAt(s.vars, ids, data, s.mem, a);
    }
    assert mem' == s.mem <==> forall a :: 0 <= a < |s.mem| ==> mem'[a] == s.mem[a];
  }

  /** Two writable one-byte variables, the second of which refuses every value. */
  function PickyServer(compress: Md5.Compress): Server {
    var vars := [Var(1, true, 0, _ => true), Var(1, true, 1, _ => false)];
    var g := Group(true, 2, [0, 1]);
    Server([0, 0], vars, [g, Group(true, 0, []), g], [], [], compress)
  }

  lemma PickyServerInv(compress: Md5.Compress)
    ensures Inv(PickyServer(compress))
  {
    var s := PickyServer(compress);
    assert [0, 1] == Ids(2) && [0, 1][1..] == [1] && [1][1..] == [];
    assert TotalSize(s.vars, [1]) == 1 && TotalSize(s.vars, [0, 1]) == 2;
    assert forall i :: 0 <= i < 3 ==> GroupOk(s.vars, s.groups[i]);
  }

  lemma PickyServerWrites(compress: Md5.Compress)
    requires Inv(PickyServer(compress))
    ensures GroupWrite(PickyServer(compress), [2, 7, 7]) ==
              (PickyServer(compress).(mem := [7, 0]), Message(ERR_INVALID_VALUE, []))
  {
    var s := PickyServer(compress);
    hide Inv;
    TablesOk(s);
    assert [0, 1][1..] == [1] && [1][1..] == [] && [2, 7, 7][1..] == [7, 7] && [7, 7][1..] == [7];
    assert Splice([0, 0], 0, [7]) == [7, 0];
    assert WriteMembers(s.vars, [], [], [7, 0]) == Written([7, 0], false);
    assert WriteMembers(s.vars, [1], [7], [7, 0]) == Written([7, 0], true);
    assert WriteMembers(s.vars, [0, 1], [7, 7], [0, 0]) == Written([7, 0], true);
  }

  /** Refused in the middle: the first of the two is written and the answer is INVALID_VALUE. */
  lemma RefusedGroupWriteChanges(env: Env, compress: Md5.Compress)
    ensures
      var s := PickyServer(compress);
      Inv(s) &&
      Process(s, env, Command(GROUP_WRITE, [2, 7, 7])) == (s.(mem := [7, 0]), Message(ERR_INVALID_VALUE, []))
  {
    hide Process, Command, Inv, PickyServer, GroupWrite;
    PickyServerInv(compress);
    PickyServerWrites(compress);
    CommandProcessed(PickyServer(compress), env, GROUP_WRITE, [2, 7, 7]);
  }

  lemma XorBytesAssociative(x: seq<Byte>, e: seq<Byte>, m: seq<Byte>)
    requires |x| == |e| == |m|
    ensures OnBytes(Xor, OnBytes(Xor, x, e), m) == OnBytes(Xor, x, OnBytes(Xor, e, m))
  {
    forall a | 0 <= a < |x|
      ensures OnByte(Xor, OnByte(Xor, x[a], e[a]), m[a]) == OnByte(Xor, x[a], OnByte(Xor, e[a], m[a]))
    {
      XorAssociative(x[a], e[a], m[a], 8);
    }
  }

  lemma OnBytesConcat(op: BitOp, a: seq<Byte>, b: seq<Byte>, a': seq<Byte>, b': seq<Byte>)
    requires |a| == |a'| && |b| == |b'|
    ensures OnBytes(op, a + b, a' + b') == OnBytes(op, a, a') + OnBytes(op, b, b')
  {}

  lemma OnBytesThree(op: BitOp, a: seq<Byte>, b: seq<Byte>, c: seq<Byte>, a': seq<Byte>, b': seq<Byte>, c': seq<Byte>)
    requires |a| == |a'| && |b| == |b'| && |c| == |c'|
    ensures OnBytes(op, a + b + c, a' + b' + c') == OnBytes(op, a, a') + OnBytes(op, b, b') + OnBytes(op, c, c')
  {
    hide OnBytes;
    OnBytesConcat(op, a + b, c, a' + b', c');
    OnBytesConcat(op, a, b, a', b');
  }

  lemma XorLinear(x: seq<Byte>, e: seq<Byte>, v: Var, mask: seq<Byte>)
    requires |x| == |e| && VarOk(|x|, v) && |mask| == v.size
    ensures Combine(Xor, OnBytes(Xor, x, e), v, mask) == OnBytes(Xor, x, Combine(Xor, e, v, mask))
  {
    hide OnBytes;
    var i, j := v.addr, v.addr + v.size;
    var x1, x2, x3 := x[..i], x[i..j], x[j..];
    var e1, e2, e3 := e[..i], e[i..j], e[j..];
    XorBytesAssociative(x2, e2, mask);
    OnBytesThree(Xor, x1, x2, x3, e1, e2, e3);
    OnBytesThree(Xor, x1, x2, x3, e1, OnBytes(Xor, e2, mask), e3);
    assert x == x1 + x2 + x3 && e == e1 + e2 + e3;
    var xe := OnBytes(Xor, x, e);
    assert xe[..i] == OnBytes(Xor, x1, e1) && xe[i..j] == OnBytes(Xor, x2, e2) && xe[j..] == OnBytes(Xor, x3, e3);
  }

  lemma {:induction false} XorMembersLinear(
      vars: seq<Var>, ids: seq<nat>, mask: seq<Byte>, x: seq<Byte>, e: seq<Byte>)
    requires |x| == |e| && MembersOk(vars, ids, |x|) && |mask| == TotalSize(vars, ids)
    ensures CombineMembers(Xor, vars, ids, mask, OnBytes(Xor, x, e)) ==
              OnBytes(Xor, x, CombineMembers(Xor, vars, ids, mask, e))
    decreases |ids|
  {
    if ids != [] {
      var v := vars[ids[0]];
      XorLinear(x, e, v, mask[..v.size]);
      XorMembersLinear(vars, ids[1..], mask[v.size..], x, Combine(Xor, e, v, mask[..v.size]));
    }
  }

  /** Whatever the members share, a mask acts on memory as one exclusive-or. */
  lemma XorMembersIsXor(vars: seq<Var>, ids: seq<nat>, mask: seq<Byte>, mem: seq<Byte>)
    requires MembersOk(vars, ids, |mem|) && |mask| == TotalSize(vars, ids)
    ensures CombineMembers(Xor, vars, ids, mask, mem) ==
              OnBytes(Xor, mem, CombineMembers(Xor, vars, ids, mask, Zeros(|mem|)))
  {
    hide CombineMembers, OnBytes, TotalSize;
    XorMembersLinear(vars, ids, mask, mem, Zeros(|mem|));
    XorBytesZero(mem);
  }

  /** The same XOR or TOGGLE twice restores the server, even when members share memory. */
  lemma GroupToggleTwice(s: Server, env: Env, gid: Byte, op: Byte, mask: seq<Byte>)
    requires Inv(s) && |mask| < 0xFFFB && (op == 'X' as int || op == 'T' as int)
    ensures
      var packet := Command(GROUP_BIN_OP, [gid, op] + mask);
      var s' := Process(s, env, packet).0;
      Inv(s') && Process(s', env, packet).0 == s
  {
    hide Inv, Process, Command, CombineMembers, TotalSize, OnBytes;
    TablesOk(s);
    var p := [gid, op] + mask;
    CommandProcessed(s, env, GROUP_BIN_OP, p);
    assert p[2..] == mask;
    var (s', m) := GroupBinOp(s, p);
    MemoryKeepsInv(s, s'.mem);
    CommandProcessed(s', env, GROUP_BIN_OP, p);
    if m.code == OK {
      var ids := s.groups[gid].members;
      assert GroupOk(s.vars, s.groups[gid]);
      XorMembersIsXor(s.vars, ids, mask, s.mem);
      XorMembersIsXor(s.vars, ids, mask, s'.mem);
      XorBytesTwice(s.mem, CombineMembers(Xor, s.vars, ids, mask, Zeros(|s.mem|)));
    }
  }

  // ----- Groups come and go -----

  /** A group is created exactly from a non-empty strictly increasing choice of variables while
      there is room. Removing all groups then has the effect it had before, which is to give the server
      before it back exactly if that had the standard groups only. */
  lemma GroupCreateExactly(s: Server, p: seq<Byte>)
    requires Inv(s)
    ensures
      var (s', m) := GroupCreate(s, p);
      && (m.code == OK <==> p != [] && |s.groups| < MAX_GROUPS && Increasing(p) && Bounded(p, |s.vars|))
      && (m.code == OK ==> s'.groups == s.groups + [GroupOf(s.vars, p)] && GroupOk(s.vars, GroupOf(s.vars, p)))
      && Inv(s')
      && GroupRemoveAll(s', []) == GroupRemoveAll(s, [])
      && (GroupRemoveAll(s', []).0 == s <==> |s.groups| == STANDARD_GROUPS)
  {
    GroupCreateKeepsInv(s, p);
    if Increasing(p) && Bounded(p, |s.vars|) {
      IncreasingShort(p, |s.vars|);
    }
    var s' := GroupCreate(s, p).0;
    assert s'.groups[..STANDARD_GROUPS] == s.groups[..STANDARD_GROUPS];
    assert |s.groups| == STANDARD_GROUPS ==> s.groups[..STANDARD_GROUPS] == s.groups;
  }
}
