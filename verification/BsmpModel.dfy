/** What the BSMP server's tables are and what every command does to them, as functions of values.
    BsmpServer.dfy proves the handlers, with their loops and buffers, against these functions. */
module BsmpModel {
  import opened Bytes
  import Md5

  // ----- Entities -----

  /** A registered variable: `size` bytes of memory from `addr` on, and the check of its values. */
  datatype Var = Var(size: Byte, writable: bool, addr: nat, accepts: seq<Byte> -> bool)

  datatype Group = Group(writable: bool, size: nat, members: seq<nat>)

  datatype CurveInfo = CurveInfo(writable: bool, nblocks: nat, blockSize: U16, checksum: seq<Byte>)

  /** `blocks[i]` is what reading block i gives; `store(old, data)` is what it gives after `data`
      has been written to it. */
  datatype Curve = Curve(info: CurveInfo, blocks: seq<seq<Byte>>, store: (seq<Byte>, seq<Byte>) -> seq<Byte>)

  datatype FuncResult = FuncResult(ret: Byte, output: seq<Byte>, mem: seq<Byte>)

  /** `run(mem, input)`: return code, output and memory left behind. */
  datatype Func = Func(inputSize: Byte, outputSize: Byte, run: (seq<Byte>, seq<Byte>) -> FuncResult)

  datatype Server = Server(
    mem: seq<Byte>, vars: seq<Var>, groups: seq<Group>, curves: seq<Curve>, funcs: seq<Func>,
    compress: Md5.Compress)

  /** Whether the callback of a curve succeeds on a block, or finds the resource busy. */
  datatype Env = Env(readOk: (nat, nat) -> bool, writeOk: (nat, nat) -> bool)

  datatype Message = Message(code: Byte, payload: seq<Byte>)

  const MAX_VARIABLES := 128
  const MAX_GROUPS := 8
  const MAX_CURVES := 128
  const MAX_FUNCTIONS := 128
  const VAR_MAX_SIZE := 128
  const CURVE_MAX_BLOCKS := 65536
  const CURVE_BLOCK_MAX_SIZE := 65520
  const FUNC_MAX_INPUT := 64
  const FUNC_MAX_OUTPUT := 32
  const CSUM_SIZE := 16
  const BLOCK_INFO := 3
  const STANDARD_GROUPS := 3
  const ALL := 0
  const READ := 1
  const WRITE := 2

  const QUERY_VERSION: Byte := 0x00
  const VERSION: Byte := 0x01
  const VAR_QUERY_LIST: Byte := 0x02
  const VAR_LIST: Byte := 0x03
  const GROUP_QUERY_LIST: Byte := 0x04
  const GROUP_LIST: Byte := 0x05
  const GROUP_QUERY: Byte := 0x06
  const GROUP: Byte := 0x07
  const CURVE_QUERY_LIST: Byte := 0x08
  const CURVE_LIST: Byte := 0x09
  const CURVE_QUERY_CSUM: Byte := 0x0A
  const CURVE_CSUM: Byte := 0x0B
  const FUNC_QUERY_LIST: Byte := 0x0C
  const FUNC_LIST: Byte := 0x0D
  const VAR_READ: Byte := 0x10
  const VAR_VALUE: Byte := 0x11
  const GROUP_READ: Byte := 0x12
  const GROUP_VALUES: Byte := 0x13
  const VAR_WRITE: Byte := 0x20
  const GROUP_WRITE: Byte := 0x22
  const VAR_BIN_OP: Byte := 0x24
  const GROUP_BIN_OP: Byte := 0x26
  const VAR_WRITE_READ: Byte := 0x28
  const GROUP_CREATE: Byte := 0x30
  const GROUP_REMOVE_ALL: Byte := 0x32
  const CURVE_BLOCK_REQUEST: Byte := 0x40
  const CURVE_BLOCK: Byte := 0x41
  const CURVE_RECALC_CSUM: Byte := 0x42
  const FUNC_EXECUTE: Byte := 0x50
  const FUNC_RETURN: Byte := 0x51
  const FUNC_ERROR: Byte := 0x53
  const OK: Byte := 0xE0
  const ERR_MALFORMED_MESSAGE: Byte := 0xE1
  const ERR_OP_NOT_SUPPORTED: Byte := 0xE2
  const ERR_INVALID_ID: Byte := 0xE3
  const ERR_INVALID_VALUE: Byte := 0xE4
  const ERR_INVALID_PAYLOAD_SIZE: Byte := 0xE5
  const ERR_READ_ONLY: Byte := 0xE6
  const ERR_INSUFFICIENT_MEMORY: Byte := 0xE7
  const ERR_RESOURCE_BUSY: Byte := 0xE8

  // ----- What every reachable table satisfies -----

  predicate Increasing(ids: seq<nat>) { forall i, j :: 0 <= i < j < |ids| ==> ids[i] < ids[j] }

  predicate Bounded(ids: seq<nat>, n: nat) { forall i :: 0 <= i < |ids| ==> ids[i] < n }

  function TotalSize(vars: seq<Var>, ids: seq<nat>): nat
    requires Bounded(ids, |vars|)
  {
    if ids == [] then 0 else vars[ids[0]].size + TotalSize(vars, ids[1..])
  }

  predicate AllWritable(vars: seq<Var>, ids: seq<nat>)
    requires Bounded(ids, |vars|)
  {
    forall i :: 0 <= i < |ids| ==> vars[ids[i]].writable
  }

  function GroupOf(vars: seq<Var>, ids: seq<nat>): Group
    requires Bounded(ids, |vars|)
  {
    Group(AllWritable(vars, ids), TotalSize(vars, ids), ids)
  }

  predicate GroupOk(vars: seq<Var>, g: Group) {
    Increasing(g.members) && Bounded(g.members, |vars|) && g == GroupOf(vars, g.members)
  }

  function Ids(n: nat): (ids: seq<nat>)
    ensures |ids| == n && Increasing(ids) && Bounded(ids, n)
  {
    seq(n, i requires 0 <= i < n => i)
  }

  /** The three standard groups: all variables, the read-only ones and the writable ones. */
  ghost predicate StandardGroups(s: Server) {
    && |s.groups| >= STANDARD_GROUPS
    && s.groups[ALL].members == Ids(|s.vars|)
    && (forall id :: 0 <= id < |s.vars| ==> (id in s.groups[READ].members <==> !s.vars[id].writable))
    && (forall id :: 0 <= id < |s.vars| ==> (id in s.groups[WRITE].members <==> s.vars[id].writable))
  }

  predicate VarOk(mem: nat, v: Var) { v.size <= VAR_MAX_SIZE && v.addr + v.size <= mem }

  ghost predicate CurveOk(c: Curve) {
    && |c.blocks| == c.info.nblocks <= CURVE_MAX_BLOCKS
    && c.info.blockSize <= CURVE_BLOCK_MAX_SIZE
    && |c.info.checksum| == CSUM_SIZE
    && (forall i :: 0 <= i < |c.blocks| ==> |c.blocks[i]| <= c.info.blockSize)
    && (forall old', data :: |old'| <= c.info.blockSize && |data| <= c.info.blockSize ==>
          |c.store(old', data)| <= c.info.blockSize)
  }

  ghost predicate FuncOk(f: Func) {
    && f.inputSize <= FUNC_MAX_INPUT && f.outputSize <= FUNC_MAX_OUTPUT
    && (forall mem, input :: |f.run(mem, input).mem| == |mem|)
    && (forall mem, input :: f.run(mem, input).ret == 0 ==> |f.run(mem, input).output| == f.outputSize)
  }

  /** The blocks the checksum loop reads: up to the first one shorter than `limit`. */
  function UntilShort(blocks: seq<seq<Byte>>, limit: nat): (r: seq<seq<Byte>>)
    ensures r <= blocks
  {
    if blocks == [] then []
    else if |blocks[0]| < limit then [blocks[0]]
    else [blocks[0]] + UntilShort(blocks[1..], limit)
  }

  /** The test in the loop compares a block's length with the number of blocks. */
  function HashedBlocks(c: Curve): (r: seq<seq<Byte>>)
    ensures r <= c.blocks
  {
    UntilShort(c.blocks, c.info.nblocks)
  }

  function Checksum(compress: Md5.Compress, c: Curve): (sum: seq<Byte>)
    ensures |sum| == CSUM_SIZE
  {
    Md5.Digest(compress, Flatten(HashedBlocks(c)))
  }

  /** A stored checksum is either reset or that of the blocks as they are now. */
  predicate ChecksumOk(compress: Md5.Compress, c: Curve) {
    c.info.checksum == Zeros(CSUM_SIZE) || c.info.checksum == Checksum(compress, c)
  }

  ghost predicate Inv(s: Server) {
    && |s.vars| <= MAX_VARIABLES
    && (forall i :: 0 <= i < |s.vars| ==> VarOk(|s.mem|, s.vars[i]))
    && |s.groups| <= MAX_GROUPS
    && (forall i :: 0 <= i < |s.groups| ==> GroupOk(s.vars, s.groups[i]))
    && StandardGroups(s)
    && |s.curves| <= MAX_CURVES
    && (forall i :: 0 <= i < |s.curves| ==> CurveOk(s.curves[i]) && ChecksumOk(s.compress, s.curves[i]))
    && |s.funcs| <= MAX_FUNCTIONS
    && (forall i :: 0 <= i < |s.funcs| ==> FuncOk(s.funcs[i]))
  }

  // ----- Variables -----

  function Fail(s: Server, code: Byte): (Server, Message) { (s, Message(code, [])) }

  function QueryVersion(s: Server, p: seq<Byte>): (Server, Message) {
    if p != [] then Fail(s, ERR_INVALID_PAYLOAD_SIZE) else (s, Message(VERSION, [2, 20, 0]))
  }

  /** Seven bits of size under the writable bit. */
  function VarByte(v: Var): Byte { v.size % 0x80 + if v.writable then 0x80 else 0 }

  function VarListBytes(vars: seq<Var>): (r: seq<Byte>)
    ensures |r| == |vars|
  {
    seq(|vars|, i requires 0 <= i < |vars| => VarByte(vars[i]))
  }

  function VarQueryList(s: Server, p: seq<Byte>): (Server, Message) {
    if p != [] then Fail(s, ERR_INVALID_PAYLOAD_SIZE)
    else (s, Message(VAR_LIST, VarListBytes(s.vars)))
  }

  function Value(mem: seq<Byte>, v: Var): (value: seq<Byte>)
    requires VarOk(|mem|, v)
    ensures |value| == v.size
  {
    mem[v.addr..v.addr + v.size]
  }

  function VarRead(s: Server, p: seq<Byte>): (Server, Message)
    requires Inv(s)
  {
    if |p| != 1 then Fail(s, ERR_INVALID_PAYLOAD_SIZE)
    else if p[0] >= |s.vars| then Fail(s, ERR_INVALID_ID)
    else (s, Message(VAR_VALUE, Value(s.mem, s.vars[p[0]])))
  }

  function VarWrite(s: Server, p: seq<Byte>): (Server, Message)
    requires Inv(s)
  {
    if |p| < 2 then Fail(s, ERR_INVALID_PAYLOAD_SIZE)
    else if p[0] >= |s.vars| then Fail(s, ERR_INVALID_ID)
    else
      var v := s.vars[p[0]];
      if |p| != 1 + v.size then Fail(s, ERR_INVALID_PAYLOAD_SIZE)
      else if !v.writable then Fail(s, ERR_READ_ONLY)
      else if !v.accepts(p[1..]) then Fail(s, ERR_INVALID_VALUE)
      else (s.(mem := Splice(s.mem, v.addr, p[1..])), Message(OK, []))
  }

  function VarWriteRead(s: Server, p: seq<Byte>): (Server, Message)
    requires Inv(s)
  {
    if |p| < 3 then Fail(s, ERR_INVALID_PAYLOAD_SIZE)
    else if p[0] >= |s.vars| || p[1] >= |s.vars| then Fail(s, ERR_INVALID_ID)
    else
      var w, r := s.vars[p[0]], s.vars[p[1]];
      if |p| != 2 + w.size then Fail(s, ERR_INVALID_PAYLOAD_SIZE)
      else if !w.writable then Fail(s, ERR_READ_ONLY)
      else if !w.accepts(p[2..]) then Fail(s, ERR_INVALID_VALUE)
      else
        var mem := Splice(s.mem, w.addr, p[2..]);
        (s.(mem := mem), Message(VAR_VALUE, Value(mem, r)))
  }

  datatype Option<T> = None | Some(value: T)

  /** The table of operation codes: A, X, O, C, S, T. */
  function OperationOf(code: Byte): Option<BitOp> {
    if code == 'A' as int then Some(And)
    else if code == 'X' as int || code == 'T' as int then Some(Xor)
    else if code == 'O' as int || code == 'S' as int then Some(Or)
    else if code == 'C' as int then Some(Clear)
    else None
  }

  /** One variable's bytes combined with a mask. */
  function Combine(op: BitOp, mem: seq<Byte>, v: Var, mask: seq<Byte>): (r: seq<Byte>)
    requires VarOk(|mem|, v) && |mask| == v.size
    ensures |r| == |mem|
  {
    Splice(mem, v.addr, OnBytes(op, Value(mem, v), mask))
  }

  function VarBinOp(s: Server, p: seq<Byte>): (Server, Message)
    requires Inv(s)
  {
    if |p| < 3 then Fail(s, ERR_INVALID_PAYLOAD_SIZE)
    else if p[0] >= |s.vars| then Fail(s, ERR_INVALID_ID)
    else
      var v := s.vars[p[0]];
      if OperationOf(p[1]).None? then Fail(s, ERR_OP_NOT_SUPPORTED)
      else if |p| != 2 + v.size then Fail(s, ERR_INVALID_PAYLOAD_SIZE)
      else if !v.writable then Fail(s, ERR_READ_ONLY)
      else (s.(mem := Combine(OperationOf(p[1]).value, s.mem, v, p[2..])), Message(OK, []))
  }

  // ----- Groups -----

  /** Seven bits of member count added to the writable bit, in one byte. */
  function GroupByte(g: Group): Byte { (|g.members| + if g.writable then 0x80 else 0) % 0x100 }

  function GroupListBytes(groups: seq<Group>): (r: seq<Byte>)
    ensures |r| == |groups|
  {
    seq(|groups|, i requires 0 <= i < |groups| => GroupByte(groups[i]))
  }

  function GroupQueryList(s: Server, p: seq<Byte>): (Server, Message) {
    if p != [] then Fail(s, ERR_INVALID_PAYLOAD_SIZE)
    else (s, Message(GROUP_LIST, GroupListBytes(s.groups)))
  }

  function GroupQuery(s: Server, p: seq<Byte>): (Server, Message)
    requires Inv(s)
  {
    if |p| != 1 then Fail(s, ERR_INVALID_PAYLOAD_SIZE)
    else if p[0] >= |s.groups| then Fail(s, ERR_INVALID_ID)
    else
      var ids := s.groups[p[0]].members;
      assert GroupOk(s.vars, s.groups[p[0]]);
      (s, Message(GROUP, seq(|ids|, i requires 0 <= i < |ids| => ids[i])))
  }

  ghost predicate MembersOk(vars: seq<Var>, ids: seq<nat>, mem: nat) {
    Bounded(ids, |vars|) && forall i :: 0 <= i < |vars| ==> VarOk(mem, vars[i])
  }

  /** The members' values one after the other. */
  function ReadMembers(vars: seq<Var>, ids: seq<nat>, mem: seq<Byte>): (r: seq<Byte>)
    requires MembersOk(vars, ids, |mem|)
    ensures |r| == TotalSize(vars, ids)
  {
    if ids == [] then [] else Value(mem, vars[ids[0]]) + ReadMembers(vars, ids[1..], mem)
  }

  datatype Written = Written(mem: seq<Byte>, failed: bool)

  /** Each member takes its slice of the data unless its check refuses it. */
  function WriteMembers(vars: seq<Var>, ids: seq<nat>, data: seq<Byte>, mem: seq<Byte>): (r: Written)
    requires MembersOk(vars, ids, |mem|) && |data| == TotalSize(vars, ids)
    ensures |r.mem| == |mem|
  {
    if ids == [] then Written(mem, false)
    else
      var v := vars[ids[0]];
      var accepted := v.accepts(data[..v.size]);
      var mem' := if accepted then Splice(mem, v.addr, data[..v.size]) else mem;
      var rest := WriteMembers(vars, ids[1..], data[v.size..], mem');
      Written(rest.mem, !accepted || rest.failed)
  }

  function CombineMembers(op: BitOp, vars: seq<Var>, ids: seq<nat>, mask: seq<Byte>, mem: seq<Byte>): (r: seq<Byte>)
    requires MembersOk(vars, ids, |mem|) && |mask| == TotalSize(vars, ids)
    ensures |r| == |mem|
  {
    if ids == [] then mem
    else
      var v := vars[ids[0]];
      CombineMembers(op, vars, ids[1..], mask[v.size..], Combine(op, mem, v, mask[..v.size]))
  }

  function GroupRead(s: Server, p: seq<Byte>): (Server, Message)
    requires Inv(s)
  {
    if |p| != 1 then Fail(s, ERR_INVALID_PAYLOAD_SIZE)
    else if p[0] >= |s.groups| then Fail(s, ERR_INVALID_ID)
    else
      assert GroupOk(s.vars, s.groups[p[0]]);
      (s, Message(GROUP_VALUES, ReadMembers(s.vars, s.groups[p[0]].members, s.mem)))
  }

  function GroupWrite(s: Server, p: seq<Byte>): (Server, Message)
    requires Inv(s)
  {
    if |p| < 2 then Fail(s, ERR_INVALID_PAYLOAD_SIZE)
    else if p[0] >= |s.groups| then Fail(s, ERR_INVALID_ID)
    else
      var g := s.groups[p[0]];
      assert GroupOk(s.vars, g);
      if |p| != 1 + g.size then Fail(s, ERR_INVALID_PAYLOAD_SIZE)
      else if !g.writable then Fail(s, ERR_READ_ONLY)
      else
        var w := WriteMembers(s.vars, g.members, p[1..], s.mem);
        (s.(mem := w.mem), Message(if w.failed then ERR_INVALID_VALUE else OK, []))
  }

  function GroupBinOp(s: Server, p: seq<Byte>): (Server, Message)
    requires Inv(s)
  {
    if |p| < 2 then Fail(s, ERR_INVALID_PAYLOAD_SIZE)
    else if p[0] >= |s.groups| then Fail(s, ERR_INVALID_ID)
    else
      var g := s.groups[p[0]];
      assert GroupOk(s.vars, g);
      if OperationOf(p[1]).None? then Fail(s, ERR_OP_NOT_SUPPORTED)
      else if |p| != 2 + g.size then Fail(s, ERR_INVALID_PAYLOAD_SIZE)
      else if !g.writable then Fail(s, ERR_READ_ONLY)
      else (s.(mem := CombineMembers(OperationOf(p[1]).value, s.vars, g.members, p[2..], s.mem)), Message(OK, []))
  }

  function GroupCreate(s: Server, p: seq<Byte>): (Server, Message) {
    if |p| < 1 || |p| > |s.vars| then Fail(s, ERR_INVALID_PAYLOAD_SIZE)
    else if |s.groups| == MAX_GROUPS then Fail(s, ERR_INSUFFICIENT_MEMORY)
    else if !Bounded(p, |s.vars|) || !Increasing(p) then Fail(s, ERR_INVALID_ID)
    else (s.(groups := s.groups + [GroupOf(s.vars, p)]), Message(OK, []))
  }

  function GroupRemoveAll(s: Server, p: seq<Byte>): (Server, Message)
    requires Inv(s)
  {
    if p != [] then Fail(s, ERR_INVALID_PAYLOAD_SIZE)
    else (s.(groups := s.groups[..STANDARD_GROUPS]), Message(OK, []))
  }

  // ----- Curves -----

  /** Writable flag, block size and block count of one curve; 65536 blocks show as 0. */
  function CurveBytes(c: CurveInfo): (r: seq<Byte>)
    ensures |r| == 5
  {
    [if c.writable then 1 else 0, Hi(c.blockSize), Lo(c.blockSize), c.nblocks / 0x100 % 0x100, c.nblocks % 0x100]
  }

  function CurveListBytes(cs: seq<Curve>): (r: seq<Byte>)
    ensures |r| == 5 * |cs|
  {
    if cs == [] then [] else CurveListBytes(cs[..|cs| - 1]) + CurveBytes(cs[|cs| - 1].info)
  }

  function CurveQueryList(s: Server, p: seq<Byte>): (Server, Message) {
    if p != [] then Fail(s, ERR_INVALID_PAYLOAD_SIZE) else (s, Message(CURVE_LIST, CurveListBytes(s.curves)))
  }

  function CurveQueryCsum(s: Server, p: seq<Byte>): (Server, Message) {
    if |p| != 1 then Fail(s, ERR_INVALID_PAYLOAD_SIZE)
    else if p[0] >= |s.curves| then Fail(s, ERR_INVALID_ID)
    else (s, Message(CURVE_CSUM, s.curves[p[0]].info.checksum))
  }

  function CurveBlockRequest(s: Server, env: Env, p: seq<Byte>): (Server, Message)
    requires Inv(s)
  {
    if |p| != BLOCK_INFO then Fail(s, ERR_INVALID_PAYLOAD_SIZE)
    else if p[0] >= |s.curves| then Fail(s, ERR_INVALID_ID)
    else
      var c, offset := s.curves[p[0]], Join(p[1], p[2]);
      if offset >= c.info.nblocks then Fail(s, ERR_INVALID_VALUE)
      else if !env.readOk(p[0], offset) then Fail(s, ERR_RESOURCE_BUSY)
      else (s, Message(CURVE_BLOCK, p + c.blocks[offset]))
  }

  function StoreBlock(c: Curve, offset: nat, data: seq<Byte>): Curve
    requires offset < |c.blocks|
  {
    c.(blocks := c.blocks[offset := c.store(c.blocks[offset], data)],
       info := c.info.(checksum := Zeros(CSUM_SIZE)))
  }

  function CurveBlock(s: Server, env: Env, p: seq<Byte>): (Server, Message)
    requires Inv(s)
  {
    if |p| < BLOCK_INFO + 1 then Fail(s, ERR_INVALID_PAYLOAD_SIZE)
    else if p[0] >= |s.curves| then Fail(s, ERR_INVALID_ID)
    else
      var c, offset := s.curves[p[0]], Join(p[1], p[2]);
      if |p| > c.info.blockSize + BLOCK_INFO then Fail(s, ERR_INVALID_PAYLOAD_SIZE)
      else if offset >= c.info.nblocks then Fail(s, ERR_INVALID_VALUE)
      else if !c.info.writable then Fail(s, ERR_READ_ONLY)
      else if !env.writeOk(p[0], offset) then Fail(s, ERR_RESOURCE_BUSY)
      else (s.(curves := s.curves[p[0] := StoreBlock(c, offset, p[BLOCK_INFO..])]), Message(OK, []))
  }

  /** Reading the first n blocks succeeds. */
  predicate Readable(env: Env, curve: nat, n: nat) {
    forall i :: 0 <= i < n ==> env.readOk(curve, i)
  }

  function CurveRecalcCsum(s: Server, env: Env, p: seq<Byte>): (Server, Message) {
    if |p| != 1 then Fail(s, ERR_INVALID_PAYLOAD_SIZE)
    else if p[0] >= |s.curves| then Fail(s, ERR_INVALID_ID)
    else
      var c := s.curves[p[0]];
      if !Readable(env, p[0], |HashedBlocks(c)|) then Fail(s, ERR_RESOURCE_BUSY)
      else
        var sum := Checksum(s.compress, c);
        (s.(curves := s.curves[p[0] := c.(info := c.info.(checksum := sum))]), Message(CURVE_CSUM, sum))
  }

  // ----- Functions -----

  /** Four bits of input size over four bits of output size. */
  function FuncByte(f: Func): Byte { f.inputSize % 0x10 * 0x10 + f.outputSize % 0x10 }

  function FuncListBytes(funcs: seq<Func>): (r: seq<Byte>)
    ensures |r| == |funcs|
  {
    seq(|funcs|, i requires 0 <= i < |funcs| => FuncByte(funcs[i]))
  }

  function FuncQueryList(s: Server, p: seq<Byte>): (Server, Message) {
    if p != [] then Fail(s, ERR_INVALID_PAYLOAD_SIZE)
    else (s, Message(FUNC_LIST, FuncListBytes(s.funcs)))
  }

  function FuncExecute(s: Server, p: seq<Byte>): (Server, Message) {
    if p == [] then Fail(s, ERR_INVALID_PAYLOAD_SIZE)
    else if p[0] >= |s.funcs| then Fail(s, ERR_INVALID_ID)
    else
      var f := s.funcs[p[0]];
      if |p| != 1 + f.inputSize then Fail(s, ERR_INVALID_PAYLOAD_SIZE)
      else
        var r := f.run(s.mem, p[1..]);
        (s.(mem := r.mem), if r.ret != 0 then Message(FUNC_ERROR, [r.ret]) else Message(FUNC_RETURN, r.output))
  }

  // ----- Packets -----

  const HEADER_SIZE := 3
  const MAX_PACKET := 65535

  /** Command code, big-endian payload size, payload. */
  function Wire(m: Message): (r: seq<Byte>)
    requires |m.payload| < 0x1_0000
    ensures |r| == HEADER_SIZE + |m.payload|
  {
    [m.code, Hi(|m.payload|), Lo(|m.payload|)] + m.payload
  }

  predicate WellFormed(packet: seq<Byte>) {
    |packet| >= HEADER_SIZE && |packet| == HEADER_SIZE + Join(packet[1], packet[2])
  }

  function Dispatch(s: Server, env: Env, code: Byte, p: seq<Byte>): (Server, Message)
    requires Inv(s)
  {
    if code == QUERY_VERSION then QueryVersion(s, p)
    else if code == VAR_QUERY_LIST then VarQueryList(s, p)
    else if code == VAR_READ then VarRead(s, p)
    else if code == VAR_WRITE then VarWrite(s, p)
    else if code == VAR_BIN_OP then VarBinOp(s, p)
    else if code == VAR_WRITE_READ then VarWriteRead(s, p)
    else if code == GROUP_QUERY_LIST then GroupQueryList(s, p)
    else if code == GROUP_QUERY then GroupQuery(s, p)
    else if code == GROUP_READ then GroupRead(s, p)
    else if code == GROUP_WRITE then GroupWrite(s, p)
    else if code == GROUP_BIN_OP then GroupBinOp(s, p)
    else if code == GROUP_CREATE then GroupCreate(s, p)
    else if code == GROUP_REMOVE_ALL then GroupRemoveAll(s, p)
    else if code == CURVE_QUERY_LIST then CurveQueryList(s, p)
    else if code == CURVE_QUERY_CSUM then CurveQueryCsum(s, p)
    else if code == CURVE_BLOCK_REQUEST then CurveBlockRequest(s, env, p)
    else if code == CURVE_BLOCK then CurveBlock(s, env, p)
    else if code == CURVE_RECALC_CSUM then CurveRecalcCsum(s, env, p)
    else if code == FUNC_QUERY_LIST then FuncQueryList(s, p)
    else if code == FUNC_EXECUTE then FuncExecute(s, p)
    else Fail(s, ERR_OP_NOT_SUPPORTED)
  }

  function Process(s: Server, env: Env, packet: seq<Byte>): (Server, Message)
    requires Inv(s)
  {
    if !WellFormed(packet) then Fail(s, ERR_MALFORMED_MESSAGE)
    else Dispatch(s, env, packet[0], packet[HEADER_SIZE..])
  }

  // ----- Registration -----

  datatype Err =
    | Success
    | ParamInvalid
    | ParamOutOfRange
    | OutOfMemory
    | Duplicate
    | Comm

  /** A server just initialized: nothing registered, the three standard groups empty. */
  function Init(mem: seq<Byte>, compress: Md5.Compress): (s: Server)
    ensures Inv(s)
  {
    var empty := Group(true, 0, []);
    var s := Server(mem, [], [empty, empty, empty], [], [], compress);
    assert GroupOk(s.vars, empty) && s.groups[ALL].members == Ids(0);
    s
  }

  function AddMember(g: Group, v: Var, id: nat): Group {
    Group(g.writable && v.writable, g.size + v.size, g.members + [id])
  }

  function AddToGroups(groups: seq<Group>, v: Var, id: nat): (r: seq<Group>)
    requires |groups| >= STANDARD_GROUPS
    ensures |r| == |groups|
  {
    var other := if v.writable then WRITE else READ;
    groups[ALL := AddMember(groups[ALL], v, id)][other := AddMember(groups[other], v, id)]
  }

  /** A new variable goes to the list and to two of the standard groups. */
  function AddVar(s: Server, v: Var): Server
    requires Inv(s)
  {
    s.(vars := s.vars + [v], groups := AddToGroups(s.groups, v, |s.vars|))
  }

  function RegisterVar(s: Server, v: Var, hasData: bool): (Server, Err)
    requires Inv(s)
  {
    if v.size > VAR_MAX_SIZE then (s, ParamOutOfRange)
    else if !hasData then (s, ParamInvalid)
    else if |s.vars| >= MAX_VARIABLES then (s, OutOfMemory)
    else (AddVar(s, v), Success)
  }

  function RegisterCurve(s: Server, c: Curve, hasRead: bool, hasWrite: bool): (Server, Err) {
    if c.info.nblocks > CURVE_MAX_BLOCKS || c.info.blockSize > CURVE_BLOCK_MAX_SIZE then (s, ParamInvalid)
    else if !hasRead || (c.info.writable && !hasWrite) then (s, ParamInvalid)
    else if |s.curves| >= MAX_CURVES then (s, OutOfMemory)
    else (s.(curves := s.curves + [c]), Success)
  }

  function RegisterFunc(s: Server, f: Func, hasCode: bool): (Server, Err) {
    if !hasCode then (s, ParamInvalid)
    else if f.inputSize > FUNC_MAX_INPUT || f.outputSize > FUNC_MAX_OUTPUT then (s, ParamOutOfRange)
    else if |s.funcs| >= MAX_FUNCTIONS then (s, OutOfMemory)
    else (s.(funcs := s.funcs + [f]), Success)
  }
}
