/** The BSMP server as the code runs it: tables, memory and a response buffer changed in place,
    each handler against its function of BsmpModel.dfy. */
module BsmpServer {
  import opened Bytes
  import opened BsmpModel
  import BsmpProperties
  import Md5

  /** A registered structure: where it lives, the id written into it, and what it declares. */
  datatype Registered<T> = Registered(handle: nat, id: int, entry: T)

  function Entries<T>(list: seq<Registered<T>>): seq<T> {
    seq(|list|, i requires 0 <= i < |list| => list[i].entry)
  }

  lemma EntryAt<T>(list: seq<Registered<T>>, i: nat)
    requires i < |Entries(list)|
    ensures |Entries(list)| == |list| && Entries(list)[i] == list[i].entry
  {}

  lemma EntriesCount<T>(list: seq<Registered<T>>)
    ensures |Entries(list)| == |list|
  {}

  /** No structure twice, and each id is the position in the list. */
  predicate ListOk<T(!new)>(list: seq<Registered<T>>) {
    && (forall i :: 0 <= i < |list| ==> list[i].id == i)
    && (forall i, j :: 0 <= i < j < |list| ==> list[i].handle != list[j].handle)
  }

  predicate Contains<T(!new)>(list: seq<Registered<T>>, handle: nat) {
    exists i :: 0 <= i < |list| && list[i].handle == handle
  }

  lemma Appended<T(!new)>(list: seq<Registered<T>>, r: Registered<T>)
    requires ListOk(list) && r.id == |list| && !Contains(list, r.handle)
    ensures ListOk(list + [r]) && Entries(list + [r]) == Entries(list) + [r.entry]
  {}

  function Handles<T>(list: seq<Registered<T>>): seq<nat> {
    seq(|list|, i requires 0 <= i < |list| => list[i].handle)
  }

  /** The scan for a duplicate. */
  method Find<T(!new)>(list: seq<Registered<T>>, handle: nat) returns (found: bool)
    ensures found <==> Contains(list, handle)
  {
    for i := 0 to |list|
      invariant forall j :: 0 <= j < i ==> list[j].handle != handle
    {
      if list[i].handle == handle { return true; }
    }
    return false;
  }

  /** The answer being prepared: code and size, and a raw buffer whose payload starts at byte 3. */
  class Response {
    var code: Byte
    var size: nat
    const data: array<Byte>

    constructor ()
      ensures fresh(data) && data.Length == HEADER_SIZE + 0xFFFF
    {
      data := new Byte[HEADER_SIZE + 0xFFFF](_ => 0);
      code, size := 0, 0;
    }

    /** The first n bytes of the payload. */
    ghost function Payload(n: nat): (p: seq<Byte>)
      requires HEADER_SIZE + n <= data.Length
      reads data
      ensures |p| == n
    {
      data[HEADER_SIZE..HEADER_SIZE + n]
    }

    ghost predicate Holds(m: Message)
      reads this, data
    {
      HEADER_SIZE + size <= data.Length && m == Message(code, Payload(size))
    }

    method SetAnswer(code: Byte)
      requires data.Length >= HEADER_SIZE
      modifies this
      ensures Holds(Message(code, [])) && size == 0
    {
      this.code, size := code, 0;
    }

    /** Code and big-endian size in front of the payload. */
    method PutHeader(ghost m: Message) returns (len: nat)
      requires Holds(m) && |m.payload| < 0x1_0000
      modifies data
      ensures len == HEADER_SIZE + |m.payload|
      ensures len <= data.Length && data[..len] == Wire(m)
    {
      data[0], data[1], data[2] := code, size / 0x100, size % 0x100;
      len := size + HEADER_SIZE;
      assert data[..len][HEADER_SIZE..] == m.payload;
    }

    /** A memcpy into the payload at position `at`. */
    method Put(at: nat, bytes: seq<Byte>)
      requires HEADER_SIZE + at + |bytes| <= data.Length
      modifies data
      ensures Payload(at + |bytes|) == old(Payload(at)) + bytes
    {
      forall i | 0 <= i < |bytes| { data[HEADER_SIZE + at + i] := bytes[i]; }
    }
  }

  class Instance {
    const mem: array<Byte>
    const compress: Md5.Compress
    var vars: seq<Registered<Var>>
    var curves: seq<Registered<Curve>>
    var funcs: seq<Registered<Func>>
    const groups: array<Group>
    var groupCount: nat

    /** The tables as values; group slots not in use do not show. */
    ghost function State(): Server
      reads this, mem, groups
      requires groupCount <= groups.Length
    {
      Server(mem[..], Entries(vars), groups[..groupCount], Entries(curves), Entries(funcs), compress)
    }

    ghost predicate Valid()
      reads this, mem, groups
    {
      && mem as object != groups
      && groups.Length == MAX_GROUPS && groupCount <= MAX_GROUPS
      && ListOk(vars) && ListOk(curves) && ListOk(funcs)
      && Inv(State())
    }

    ghost predicate Ready(send: Response) {
      send.data != mem && send.data as object != groups && send.data.Length == HEADER_SIZE + 0xFFFF
    }

    constructor (mem: array<Byte>, compress: Md5.Compress)
      ensures Valid() && State() == Init(mem[..], compress)
      ensures this.mem == mem && fresh(groups)
    {
      this.mem, this.compress := mem, compress;
      vars, curves, funcs := [], [], [];
      groups := new Group[MAX_GROUPS](_ => Group(true, 0, []));
      groupCount := STANDARD_GROUPS;
      new;
      assert State() == Init(mem[..], compress);
    }

    lemma TablesMatch()
      requires Valid()
      ensures groups.Length == MAX_GROUPS && STANDARD_GROUPS <= groupCount <= MAX_GROUPS && mem as object != groups
      ensures Inv(State())
      ensures State() == Server(mem[..], Entries(vars), groups[..groupCount], Entries(curves), Entries(funcs), compress)
      ensures |State().vars| == |vars| <= MAX_VARIABLES
      ensures |State().curves| == |curves| <= MAX_CURVES
      ensures |State().funcs| == |funcs| <= MAX_FUNCTIONS
    {}

    lemma VarAt(i: nat)
      requires Valid() && i < |vars|
      ensures |State().vars| == |vars| && State().vars[i] == vars[i].entry && VarOk(mem.Length, vars[i].entry)
    {
      assert State().vars[i] == vars[i].entry;
    }

    lemma GroupAt(i: nat)
      requires Valid() && i < groupCount
      ensures State().vars == Entries(vars) && State().groups[i] == groups[i] && GroupOk(Entries(vars), groups[i])
      ensures |groups[i].members| <= |vars| && groups[i].size <= MAX_VARIABLES * VAR_MAX_SIZE
      ensures MembersOk(Entries(vars), groups[i].members, mem.Length)
    {
      assert State().groups[i] == groups[i];
      BsmpProperties.TablesOk(State());
      BsmpProperties.GroupFits(State(), i);
      BsmpProperties.IncreasingShort(groups[i].members, |vars|);
    }

    // ----- Registration -----

    method GroupAddVar(g: nat, v: Registered<Var>)
      requires g < groups.Length && v.id >= 0
      modifies groups
      ensures groups[..] == old(groups[..])[g := AddMember(old(groups[g]), v.entry, v.id)]
    {
      var grp := groups[g];
      var id: nat := v.id;
      groups[g] := Group(grp.writable && v.entry.writable, grp.size + v.entry.size, grp.members + [id]);
    }

    /** The group containing all variables, and either the writable or the read-only one. */
    method AddToStandardGroups(v: Registered<Var>)
      requires groups.Length == MAX_GROUPS && STANDARD_GROUPS <= groupCount <= MAX_GROUPS && v.id >= 0
      modifies groups
      ensures groups[..groupCount] == AddToGroups(old(groups[..groupCount]), v.entry, v.id)
    {
      hide AddMember;
      GroupAddVar(ALL, v);
      if v.entry.writable {
        GroupAddVar(WRITE, v);
      } else {
        GroupAddVar(READ, v);
      }
    }

    method RegisterVariable(handle: nat, v: Var, hasData: bool) returns (err: Err)
      requires Valid() && (hasData ==> v.addr + v.size <= mem.Length)
      modifies this`vars, groups
      ensures Valid()
      ensures
        var (s, e) := RegisterVar(old(State()), v, hasData);
        if e == Success && old(Contains(vars, handle)) then err == Duplicate && State() == old(State())
        else err == e && State() == s
      ensures err == Success ==> vars == old(vars) + [Registered(handle, |old(vars)|, v)]
    {
      TablesMatch();
      if v.size > VAR_MAX_SIZE { return ParamOutOfRange; }
      if !hasData { return ParamInvalid; }
      if |vars| >= MAX_VARIABLES { return OutOfMemory; }
      var duplicate := Find(vars, handle);
      if duplicate { return Duplicate; }
      AddVariable(Registered(handle, |vars|, v));
      err := Success;
    }

    method AddVariable(r: Registered<Var>)
      requires Valid() && |vars| < MAX_VARIABLES && VarOk(mem.Length, r.entry)
      requires r.id == |vars| && !Contains(vars, r.handle)
      modifies this`vars, groups
      ensures Valid() && State() == AddVar(old(State()), r.entry)
      ensures vars == old(vars) + [r]
    {
      hide Inv, AddToGroups, ListOk, Entries, Contains;
      TablesMatch();
      ghost var s := State();
      BsmpProperties.AddVarKeepsInv(s, r.entry);
      Appended(vars, r);
      assert groupCount >= STANDARD_GROUPS;
      AddToStandardGroups(r);
      vars := vars + [r];
      assert State() == AddVar(s, r.entry);
    }

    method RegisterCurve(handle: nat, c: Curve, hasRead: bool, hasWrite: bool) returns (err: Err)
      requires Valid() && BsmpProperties.OpOk(mem.Length, BsmpProperties.NewCurve(c, hasRead, hasWrite))
      modifies this`curves
      ensures Valid()
      ensures
        var (s, e) := BsmpModel.RegisterCurve(old(State()), c, hasRead, hasWrite);
        if e == Success && old(Contains(curves, handle)) then err == Duplicate && State() == old(State())
        else err == e && State() == s
      ensures err == Success ==> curves == old(curves) + [Registered(handle, |old(curves)|, c)]
    {
      hide Inv, ListOk, Entries;
      TablesMatch();
      BsmpProperties.NewCurveKeepsInv(State(), c, hasRead, hasWrite);
      if c.info.nblocks > CURVE_MAX_BLOCKS { return ParamInvalid; }
      if c.info.blockSize > CURVE_BLOCK_MAX_SIZE { return ParamInvalid; }
      if !hasRead { return ParamInvalid; }
      if c.info.writable && !hasWrite { return ParamInvalid; }
      if |curves| >= MAX_CURVES { return OutOfMemory; }
      var duplicate := Find(curves, handle);
      if duplicate { return Duplicate; }
      Appended(curves, Registered(handle, |curves|, c));
      curves := curves + [Registered(handle, |curves|, c)];
      err := Success;
    }

    method RegisterFunction(handle: nat, f: Func, hasCode: bool) returns (err: Err)
      requires Valid() && BsmpProperties.OpOk(mem.Length, BsmpProperties.NewFunc(f, hasCode))
      modifies this`funcs
      ensures Valid()
      ensures
        var (s, e) := RegisterFunc(old(State()), f, hasCode);
        if e == Success && old(Contains(funcs, handle)) then err == Duplicate && State() == old(State())
        else err == e && State() == s
      ensures err == Success ==> funcs == old(funcs) + [Registered(handle, |old(funcs)|, f)]
    {
      hide Inv, ListOk, Entries;
      TablesMatch();
      BsmpProperties.NewFuncKeepsInv(State(), f, hasCode);
      if !hasCode { return ParamInvalid; }
      if f.inputSize > FUNC_MAX_INPUT { return ParamOutOfRange; }
      if f.outputSize > FUNC_MAX_OUTPUT { return ParamOutOfRange; }
      if |funcs| >= MAX_FUNCTIONS { return OutOfMemory; }
      var duplicate := Find(funcs, handle);
      if duplicate { return Duplicate; }
      Appended(funcs, Registered(handle, |funcs|, f));
      funcs := funcs + [Registered(handle, |funcs|, f)];
      err := Success;
    }

    // ----- Variable commands -----

    method QueryVersion(p: seq<Byte>, send: Response)
      requires Valid() && Ready(send)
      modifies send, send.data
      ensures send.Holds(BsmpModel.QueryVersion(State(), p).1)
    {
      hide Inv;
      if |p| != 0 {
        send.SetAnswer(ERR_INVALID_PAYLOAD_SIZE);
        return;
      }
      send.SetAnswer(VERSION);
      send.size := 3;
      send.data[HEADER_SIZE] := 2;
      send.data[HEADER_SIZE + 1] := 20;
      send.data[HEADER_SIZE + 2] := 0;
    }

    method VarQueryList(p: seq<Byte>, send: Response)
      requires Valid() && Ready(send)
      modifies send, send.data
      ensures send.Holds(BsmpModel.VarQueryList(State(), p).1)
    {
      hide Inv, ListOk, State, VarListBytes;
      TablesMatch();
      assert State().vars == Entries(vars);
      if |p| != 0 {
        send.SetAnswer(ERR_INVALID_PAYLOAD_SIZE);
        return;
      }
      send.SetAnswer(VAR_LIST);
      ListVars(send);
      send.size := |vars|;
    }

    method ListVars(send: Response)
      requires HEADER_SIZE + |vars| <= send.data.Length
      modifies send.data
      ensures send.Payload(|vars|) == VarListBytes(Entries(vars))
    {
      ghost var list := VarListBytes(Entries(vars));
      for i := 0 to |vars|
        invariant send.Payload(i) == list[..i]
      {
        var v := vars[i].entry;
        send.data[HEADER_SIZE + i] := v.size % 0x80;
        if v.writable {
          send.data[HEADER_SIZE + i] := send.data[HEADER_SIZE + i] + 0x80;
        }
        assert send.Payload(i + 1) == send.Payload(i) + [VarByte(v)];
      }
      assert list[..|vars|] == list;
    }

    /** The memcpy of a variable into the payload. */
    method PutValue(v: Var, at: nat, send: Response)
      requires VarOk(mem.Length, v) && send.data != mem && HEADER_SIZE + at + v.size <= send.data.Length
      modifies send.data
      ensures send.Payload(at + v.size) == old(send.Payload(at)) + Value(mem[..], v)
    {
      assert Value(mem[..], v) == mem[v.addr..v.addr + v.size];
      send.Put(at, mem[v.addr..v.addr + v.size]);
    }

    method SendValue(v: Var, send: Response)
      requires VarOk(mem.Length, v) && Ready(send) && v.size <= VAR_MAX_SIZE
      modifies send, send.data
      ensures send.Holds(Message(VAR_VALUE, Value(mem[..], v)))
    {
      hide Value;
      send.SetAnswer(VAR_VALUE);
      send.size := v.size;
      PutValue(v, 0, send);
    }

    method VarRead(p: seq<Byte>, send: Response)
      requires Valid() && Ready(send)
      modifies send, send.data
      ensures send.Holds(BsmpModel.VarRead(State(), p).1)
    {
      hide Inv, ListOk, Entries, State, Value, Valid;
      TablesMatch();
      if |p| != 1 {
        send.SetAnswer(ERR_INVALID_PAYLOAD_SIZE);
        return;
      }
      if p[0] >= |vars| {
        send.SetAnswer(ERR_INVALID_ID);
        return;
      }
      var v := vars[p[0]].entry;
      VarAt(p[0]);
      assert State().mem == mem[..];
      SendValue(v, send);
    }

    /** A memcpy into memory. */
    method Store(addr: nat, data: seq<Byte>)
      requires addr + |data| <= mem.Length
      modifies mem
      ensures mem[..] == Splice(old(mem[..]), addr, data)
    {
      forall i | 0 <= i < |data| { mem[addr + i] := data[i]; }
    }

    /** After commands that touch nothing but memory. */
    twostate lemma MemoryChanged()
      requires old(Valid()) && unchanged(this) && unchanged(groups)
      ensures Valid() && State() == old(State()).(mem := mem[..])
    {
      ghost var s := old(State());
      BsmpProperties.MemoryKeepsInv(s, mem[..]);
      hide Inv;
      assert State() == s.(mem := mem[..]);
    }

    method VarWrite(p: seq<Byte>, send: Response)
      requires Valid() && Ready(send)
      modifies mem, send, send.data
      ensures Valid() && State() == BsmpModel.VarWrite(old(State()), p).0
      ensures send.Holds(BsmpModel.VarWrite(old(State()), p).1)
    {
      hide Inv, ListOk, Entries, Splice, Valid, State;
      TablesMatch();
      if |p| < 2 {
        send.SetAnswer(ERR_INVALID_PAYLOAD_SIZE);
        return;
      }
      if p[0] >= |vars| {
        send.SetAnswer(ERR_INVALID_ID);
        return;
      }
      var v := vars[p[0]].entry;
      VarAt(p[0]);
      if |p| != 1 + v.size {
        send.SetAnswer(ERR_INVALID_PAYLOAD_SIZE);
        return;
      }
      if !v.writable {
        send.SetAnswer(ERR_READ_ONLY);
        return;
      }
      if !v.accepts(p[1..]) {
        send.SetAnswer(ERR_INVALID_VALUE);
        return;
      }
      Store(v.addr, p[1..]);
      MemoryChanged();
      send.SetAnswer(OK);
    }

    method VarWriteRead(p: seq<Byte>, send: Response)
      requires Valid() && Ready(send)
      modifies mem, send, send.data
      ensures Valid() && State() == BsmpModel.VarWriteRead(old(State()), p).0
      ensures send.Holds(BsmpModel.VarWriteRead(old(State()), p).1)
    {
      hide Inv, ListOk, Entries, Splice, Value, Valid, State;
      TablesMatch();
      if |p| < 3 {
        send.SetAnswer(ERR_INVALID_PAYLOAD_SIZE);
        return;
      }
      if p[0] >= |vars| || p[1] >= |vars| {
        send.SetAnswer(ERR_INVALID_ID);
        return;
      }
      var w, r := vars[p[0]].entry, vars[p[1]].entry;
      VarAt(p[0]);
      VarAt(p[1]);
      if |p| != 2 + w.size {
        send.SetAnswer(ERR_INVALID_PAYLOAD_SIZE);
        return;
      }
      if !w.writable {
        send.SetAnswer(ERR_READ_ONLY);
        return;
      }
      if !w.accepts(p[2..]) {
        send.SetAnswer(ERR_INVALID_VALUE);
        return;
      }
      Store(w.addr, p[2..]);
      MemoryChanged();
      SendValue(r, send);
    }

    /** The loop of a binary operation, from the last byte down to the first. */
    method Operate(op: BitOp, addr: nat, mask: seq<Byte>)
      requires addr + |mask| <= mem.Length
      modifies mem
      ensures mem[..] == Splice(old(mem[..]), addr, OnBytes(op, old(mem[addr..addr + |mask|]), mask))
    {
      hide OnByte, Splice;
      ghost var was := mem[..];
      var size: nat := |mask|;
      while size > 0
        invariant size <= |mask|
        invariant forall k :: 0 <= k < addr + size ==> mem[k] == was[k]
        invariant forall k :: size <= k < |mask| ==> mem[addr + k] == OnByte(op, was[addr + k], mask[k])
        invariant forall k :: addr + |mask| <= k < mem.Length ==> mem[k] == was[k]
      {
        size := size - 1;
        mem[addr + size] := OnByte(op, mem[addr + size], mask[size]);
      }
      SplicedIs(was, addr, OnBytes(op, was[addr..addr + |mask|], mask), mem[..]);
    }

    method OperateVar(op: BitOp, v: Var, mask: seq<Byte>)
      requires VarOk(mem.Length, v) && |mask| == v.size
      modifies mem
      ensures mem[..] == Combine(op, old(mem[..]), v, mask)
    {
      assert Value(mem[..], v) == mem[v.addr..v.addr + v.size];
      Operate(op, v.addr, mask);
    }

    method VarBinOp(p: seq<Byte>, send: Response)
      requires Valid() && Ready(send)
      modifies mem, send, send.data
      ensures Valid() && State() == BsmpModel.VarBinOp(old(State()), p).0
      ensures send.Holds(BsmpModel.VarBinOp(old(State()), p).1)
    {
      hide Inv, ListOk, Entries, OperationOf, Combine, Valid, State;
      TablesMatch();
      if |p| < 3 {
        send.SetAnswer(ERR_INVALID_PAYLOAD_SIZE);
        return;
      }
      if p[0] >= |vars| {
        send.SetAnswer(ERR_INVALID_ID);
        return;
      }
      var v := vars[p[0]].entry;
      VarAt(p[0]);
      if OperationOf(p[1]).None? {
        send.SetAnswer(ERR_OP_NOT_SUPPORTED);
        return;
      }
      if |p| != 2 + v.size {
        send.SetAnswer(ERR_INVALID_PAYLOAD_SIZE);
        return;
      }
      if !v.writable {
        send.SetAnswer(ERR_READ_ONLY);
        return;
      }
      OperateVar(OperationOf(p[1]).value, v, p[2..]);
      MemoryChanged();
      send.SetAnswer(OK);
    }

    // ----- Group commands -----

    method GroupQueryList(p: seq<Byte>, send: Response)
      requires Valid() && Ready(send)
      modifies send, send.data
      ensures send.Holds(BsmpModel.GroupQueryList(State(), p).1)
    {
      assert State().groups == groups[..groupCount];
      hide Inv, ListOk, State, GroupListBytes;
      if |p| != 0 {
        send.SetAnswer(ERR_INVALID_PAYLOAD_SIZE);
        return;
      }
      send.SetAnswer(GROUP_LIST);
      ListGroups(send);
      send.size := groupCount;
    }

    method ListGroups(send: Response)
      requires groupCount <= groups.Length && HEADER_SIZE + groupCount <= send.data.Length
      requires send.data as object != groups
      modifies send.data
      ensures send.Payload(groupCount) == GroupListBytes(groups[..groupCount])
    {
      ghost var visible := groups[..groupCount];
      ghost var list := GroupListBytes(visible);
      for i := 0 to groupCount
        invariant send.Payload(i) == list[..i] && groups[..groupCount] == visible
      {
        var grp := groups[i];
        assert grp == visible[i];
        send.data[HEADER_SIZE + i] := if grp.writable then 0x80 else 0;
        send.data[HEADER_SIZE + i] := (send.data[HEADER_SIZE + i] + |grp.members|) % 0x100;
        assert send.Payload(i + 1) == send.Payload(i) + [GroupByte(grp)];
      }
      assert list[..groupCount] == list;
    }

    method GroupQuery(p: seq<Byte>, send: Response)
      requires Valid() && Ready(send)
      modifies send, send.data
      ensures send.Holds(BsmpModel.GroupQuery(State(), p).1)
    {
      hide Inv, ListOk, GroupOf, TotalSize;
      TablesMatch();
      if |p| != 1 {
        send.SetAnswer(ERR_INVALID_PAYLOAD_SIZE);
        return;
      }
      send.SetAnswer(GROUP);
      if p[0] >= groupCount {
        send.SetAnswer(ERR_INVALID_ID);
        return;
      }
      var grp := groups[p[0]];
      GroupAt(p[0]);
      ListMembers(grp.members, send);
      send.size := |grp.members|;
    }

    method ListMembers(ids: seq<nat>, send: Response)
      requires Bounded(ids, 0x100) && HEADER_SIZE + |ids| <= send.data.Length
      modifies send.data
      ensures send.Payload(|ids|) == ids
    {
      for i := 0 to |ids|
        invariant send.Payload(i) == ids[..i]
      {
        send.data[HEADER_SIZE + i] := ids[i];
        assert send.Payload(i + 1) == send.Payload(i) + [ids[i]];
      }
    }

    method GroupRead(p: seq<Byte>, send: Response)
      requires Valid() && Ready(send)
      modifies send, send.data
      ensures send.Holds(BsmpModel.GroupRead(State(), p).1)
    {
      TablesMatch();
      if |p| != 1 {
        send.SetAnswer(ERR_INVALID_PAYLOAD_SIZE);
        return;
      }
      if p[0] >= groupCount {
        send.SetAnswer(ERR_INVALID_ID);
        return;
      }
      var grp := groups[p[0]];
      GroupAt(p[0]);
      send.SetAnswer(GROUP_VALUES);
      ReadGroup(grp, send);
      send.size := grp.size;
    }

    method ReadGroup(grp: Group, send: Response)
      requires MembersOk(Entries(vars), grp.members, mem.Length) && grp.size == TotalSize(Entries(vars), grp.members)
      requires send.data != mem && HEADER_SIZE + grp.size <= send.data.Length
      modifies send.data
      ensures send.Payload(grp.size) == ReadMembers(Entries(vars), grp.members, mem[..])
    {
      ghost var all, ids, was := Entries(vars), grp.members, mem[..];
      hide ReadMembers, ReadUpTo, TotalSize, Entries, Value, MembersOk, VarOk, Bounded;
      ReadUpToNext(all, ids, was, 0);
      var payloadp: nat := 0;
      for i := 0 to |grp.members|
        invariant mem[..] == was && payloadp == |ReadUpTo(all, ids, was, i)|
        invariant payloadp <= grp.size && send.Payload(payloadp) == ReadUpTo(all, ids, was, i)
      {
        ReadUpToNext(all, ids, was, i);
        ReadUpToFits(all, ids, was, i + 1);
        EntryAt(vars, grp.members[i]);
        var v := vars[grp.members[i]].entry;
        PutValue(v, payloadp, send);
        payloadp := payloadp + v.size;
      }
      ReadUpToFits(all, ids, was, |ids|);
    }

    method GroupWrite(p: seq<Byte>, send: Response)
      requires Valid() && Ready(send)
      modifies mem, send, send.data
      ensures Valid() && State() == BsmpModel.GroupWrite(old(State()), p).0
      ensures send.Holds(BsmpModel.GroupWrite(old(State()), p).1)
    {
      hide Inv, ListOk, Entries, WriteMembers, Valid, State;
      TablesMatch();
      if |p| < 2 {
        send.SetAnswer(ERR_INVALID_PAYLOAD_SIZE);
        return;
      }
      if p[0] >= groupCount {
        send.SetAnswer(ERR_INVALID_ID);
        return;
      }
      var grp := groups[p[0]];
      GroupAt(p[0]);
      if |p| != 1 + grp.size {
        send.SetAnswer(ERR_INVALID_PAYLOAD_SIZE);
        return;
      }
      if !grp.writable {
        send.SetAnswer(ERR_READ_ONLY);
        return;
      }
      var failed := WriteGroup(grp, p[1..]);
      MemoryChanged();
      send.SetAnswer(if failed then ERR_INVALID_VALUE else OK);
    }

    method WriteGroup(grp: Group, data: seq<Byte>) returns (checkFailed: bool)
      requires MembersOk(Entries(vars), grp.members, mem.Length) && |data| == TotalSize(Entries(vars), grp.members)
      modifies mem
      ensures Written(mem[..], checkFailed) == WriteMembers(Entries(vars), grp.members, data, old(mem[..]))
    {
      ghost var all, rest := Entries(vars), grp.members;
      ghost var written := WriteMembers(all, rest, data, mem[..]);
      hide WriteMembers, TotalSize, Entries;
      var payload := data;
      checkFailed := false;
      for i := 0 to |grp.members|
        invariant rest == grp.members[i..] && |payload| == TotalSize(all, rest)
        invariant WriteMembers(all, rest, payload, mem[..]).mem == written.mem
        invariant checkFailed || WriteMembers(all, rest, payload, mem[..]).failed <==> written.failed
      {
        EntryAt(vars, grp.members[i]);
        var v := vars[grp.members[i]].entry;
        WriteStep(all, rest, payload, mem[..]);
        rest := rest[1..];
        if !v.accepts(payload[..v.size]) {
          checkFailed := true;
        } else {
          Store(v.addr, payload[..v.size]);
        }
        payload := payload[v.size..];
      }
      WriteNone(all, rest, payload, mem[..]);
    }

    method GroupBinOp(p: seq<Byte>, send: Response)
      requires Valid() && Ready(send)
      modifies mem, send, send.data
      ensures Valid() && State() == BsmpModel.GroupBinOp(old(State()), p).0
      ensures send.Holds(BsmpModel.GroupBinOp(old(State()), p).1)
    {
      hide Inv, ListOk, Entries, OperationOf, CombineMembers, Valid, State;
      TablesMatch();
      if |p| < 2 {
        send.SetAnswer(ERR_INVALID_PAYLOAD_SIZE);
        return;
      }
      if p[0] >= groupCount {
        send.SetAnswer(ERR_INVALID_ID);
        return;
      }
      var grp := groups[p[0]];
      GroupAt(p[0]);
      if OperationOf(p[1]).None? {
        send.SetAnswer(ERR_OP_NOT_SUPPORTED);
        return;
      }
      if |p| != 2 + grp.size {
        send.SetAnswer(ERR_INVALID_PAYLOAD_SIZE);
        return;
      }
      if !grp.writable {
        send.SetAnswer(ERR_READ_ONLY);
        return;
      }
      OperateGroup(OperationOf(p[1]).value, grp, p[2..]);
      MemoryChanged();
      send.SetAnswer(OK);
    }

    method OperateGroup(op: BitOp, grp: Group, mask: seq<Byte>)
      requires MembersOk(Entries(vars), grp.members, mem.Length) && |mask| == TotalSize(Entries(vars), grp.members)
      modifies mem
      ensures mem[..] == CombineMembers(op, Entries(vars), grp.members, mask, old(mem[..]))
    {
      ghost var all, rest := Entries(vars), grp.members;
      ghost var result := CombineMembers(op, all, rest, mask, mem[..]);
      hide Combine, CombineMembers, TotalSize, Entries;
      var payload := mask;
      for i := 0 to |grp.members|
        invariant rest == grp.members[i..] && |payload| == TotalSize(all, rest)
        invariant CombineMembers(op, all, rest, payload, mem[..]) == result
      {
        EntryAt(vars, grp.members[i]);
        var v := vars[grp.members[i]].entry;
        CombineStep(op, all, rest, payload, mem[..]);
        rest := rest[1..];
        OperateVar(op, v, payload[..v.size]);
        payload := payload[v.size..];
      }
      CombineNone(op, all, rest, payload, mem[..]);
    }

    method GroupCreate(p: seq<Byte>, send: Response)
      requires Valid() && Ready(send)
      modifies this`groupCount, groups, send, send.data
      ensures Valid() && State() == BsmpModel.GroupCreate(old(State()), p).0
      ensures send.Holds(BsmpModel.GroupCreate(old(State()), p).1)
    {
      hide Inv, ListOk, Entries;
      TablesMatch();
      BsmpProperties.GroupCreateKeepsInv(State(), p);
      ghost var s := State();
      if |p| < 1 || |p| > |vars| {
        send.SetAnswer(ERR_INVALID_PAYLOAD_SIZE);
        return;
      }
      if groupCount == MAX_GROUPS {
        send.SetAnswer(ERR_INSUFFICIENT_MEMORY);
        return;
      }
      var ok := FillSlot(p);
      assert groups[..groupCount] == old(groups[..groupCount]);
      assert State() == s;
      if !ok {
        send.SetAnswer(ERR_INVALID_ID);
        return;
      }
      groupCount := groupCount + 1;
      assert groups[..groupCount] == s.groups + [GroupOf(s.vars, p)];
      send.SetAnswer(OK);
    }

    /** Builds the new group in the first free slot, giving up at the first bad id. */
    method FillSlot(p: seq<Byte>) returns (ok: bool)
      requires groupCount < groups.Length
      modifies groups
      ensures groups[..groupCount] == old(groups[..groupCount])
      ensures ok <==> Bounded(p, |vars|) && Increasing(p)
      ensures ok ==> |Entries(vars)| == |vars| && groups[groupCount] == GroupOf(Entries(vars), p)
    {
      ghost var all := Entries(vars);
      hide GroupOf, Entries, AddMember;
      EntriesCount(vars);
      groups[groupCount] := Group(true, 0, []);
      GroupOfNone(all, p[..0]);
      for i := 0 to |p|
        invariant groups[..groupCount] == old(groups[..groupCount])
        invariant Bounded(p[..i], |vars|) && Increasing(p[..i])
        invariant groups[groupCount] == GroupOf(all, p[..i]) && groups[groupCount].members == p[..i]
      {
        var id: nat := p[i];
        if id >= |vars| { return false; }
        if i > 0 && id <= groups[groupCount].members[i - 1] {
          assert p[..i][i - 1] == p[i - 1];
          return false;
        }
        assert p[..i + 1] == p[..i] + [p[i]];
        EntryAt(vars, id);
        GroupOfSnoc(all, p[..i], id);
        GroupAddVar(groupCount, Registered(vars[id].handle, id, vars[id].entry));
      }
      assert p[..|p|] == p;
      ok := true;
    }

    method GroupRemoveAll(p: seq<Byte>, send: Response)
      requires Valid() && Ready(send)
      modifies this`groupCount, send, send.data
      ensures Valid() && State() == BsmpModel.GroupRemoveAll(old(State()), p).0
      ensures send.Holds(BsmpModel.GroupRemoveAll(old(State()), p).1)
    {
      hide Inv, ListOk;
      TablesMatch();
      BsmpProperties.GroupRemoveAllKeepsInv(State(), p);
      ghost var s := State();
      if |p| != 0 {
        send.SetAnswer(ERR_INVALID_PAYLOAD_SIZE);
        return;
      }
      groupCount := STANDARD_GROUPS;
      assert State() == s.(groups := s.groups[..STANDARD_GROUPS]);
      send.SetAnswer(OK);
    }

    // ----- Curve commands -----

    lemma CurveAt(i: nat)
      requires Valid() && i < |curves|
      ensures State().curves == Entries(curves) && |State().curves| == |curves|
      ensures State().curves[i] == curves[i].entry && CurveOk(curves[i].entry)
    {
      assert State().curves[i] == curves[i].entry;
    }

    method CurveQueryList(p: seq<Byte>, send: Response)
      requires Valid() && Ready(send)
      modifies send, send.data
      ensures send.Holds(BsmpModel.CurveQueryList(State(), p).1)
    {
      hide Inv, ListOk, State, CurveListBytes;
      TablesMatch();
      assert State().curves == Entries(curves);
      if |p| != 0 {
        send.SetAnswer(ERR_INVALID_PAYLOAD_SIZE);
        return;
      }
      send.SetAnswer(CURVE_LIST);
      ListCurves(send);
      send.size := 5 * |curves|;
    }

    method ListCurves(send: Response)
      requires HEADER_SIZE + 5 * |curves| <= send.data.Length
      modifies send.data
      ensures send.Payload(5 * |curves|) == CurveListBytes(Entries(curves))
    {
      hide CurveListBytes, CurveBytes;
      CurveListNone(Entries(curves)[..0]);
      var payloadp: nat := 0;
      for i := 0 to |curves|
        invariant payloadp == 5 * i
        invariant send.Payload(payloadp) == CurveListBytes(Entries(curves)[..i])
      {
        EntryAt(curves, i);
        CurveListSnoc(Entries(curves), i);
        PutCurve(curves[i].entry.info, payloadp, send);
        payloadp := payloadp + 5;
      }
      assert Entries(curves)[..|curves|] == Entries(curves);
    }

    method PutCurve(curve: CurveInfo, at: nat, send: Response)
      requires HEADER_SIZE + at + 5 <= send.data.Length
      modifies send.data
      ensures send.Payload(at + 5) == old(send.Payload(at)) + CurveBytes(curve)
    {
      var payloadp := HEADER_SIZE + at;
      send.data[payloadp] := if curve.writable then 1 else 0;
      send.data[payloadp + 1] := curve.blockSize / 0x100;
      send.data[payloadp + 2] := curve.blockSize % 0x100;
      send.data[payloadp + 3] := curve.nblocks / 0x100 % 0x100;
      send.data[payloadp + 4] := curve.nblocks % 0x100;
      assert send.Payload(at + 5)[..at] == old(send.Payload(at));
      assert send.Payload(at + 5)[at..] == CurveBytes(curve);
    }

    method CurveQueryCsum(p: seq<Byte>, send: Response)
      requires Valid() && Ready(send)
      modifies send, send.data
      ensures send.Holds(BsmpModel.CurveQueryCsum(State(), p).1)
    {
      hide Inv, ListOk, Entries, State, Valid;
      TablesMatch();
      if |p| != 1 {
        send.SetAnswer(ERR_INVALID_PAYLOAD_SIZE);
        return;
      }
      if p[0] >= |curves| {
        send.SetAnswer(ERR_INVALID_ID);
        return;
      }
      CurveAt(p[0]);
      send.SetAnswer(CURVE_CSUM);
      send.Put(0, curves[p[0]].entry.info.checksum);
      send.size := CSUM_SIZE;
    }

    /** The read callback of a curve: one block copied to `dest` from position `at` on. */
    method ReadBlock(env: Env, curve: nat, c: Curve, block: nat, dest: array<Byte>, at: nat)
      returns (ok: bool, len: nat)
      requires block < |c.blocks| && at + |c.blocks[block]| <= dest.Length
      modifies dest
      ensures ok == env.readOk(curve, block)
      ensures ok ==> len == |c.blocks[block]| && forall k :: 0 <= k < len ==> dest[at + k] == c.blocks[block][k]
      ensures dest[..at] == old(dest[..at])
    {
      ok, len := env.readOk(curve, block), 0;
      if ok {
        len := |c.blocks[block]|;
        forall i | 0 <= i < len { dest[at + i] := c.blocks[block][i]; }
      }
    }

    /** The read callback given a place in the payload. */
    method PutBlock(env: Env, curve: nat, c: Curve, block: nat, at: nat, send: Response) returns (ok: bool, len: nat)
      requires block < |c.blocks| && HEADER_SIZE + at + |c.blocks[block]| <= send.data.Length
      modifies send.data
      ensures ok == env.readOk(curve, block)
      ensures ok ==> len == |c.blocks[block]| && send.Payload(at + len) == old(send.Payload(at)) + c.blocks[block]
    {
      ghost var was := send.Payload(at);
      ok, len := ReadBlock(env, curve, c, block, send.data, HEADER_SIZE + at);
      assert forall k :: 0 <= k < at ==> send.data[..HEADER_SIZE + at][HEADER_SIZE + k] == was[k];
    }

    method CurveBlockRequest(p: seq<Byte>, env: Env, send: Response)
      requires Valid() && Ready(send)
      modifies send, send.data
      ensures send.Holds(BsmpModel.CurveBlockRequest(State(), env, p).1)
    {
      hide Inv, ListOk, Entries, State, Valid;
      TablesMatch();
      if |p| != BLOCK_INFO {
        send.SetAnswer(ERR_INVALID_PAYLOAD_SIZE);
        return;
      }
      if p[0] >= |curves| {
        send.SetAnswer(ERR_INVALID_ID);
        return;
      }
      CurveAt(p[0]);
      var curve := curves[p[0]].entry;
      var offset := p[1] as int * 0x100 + p[2];
      if offset >= curve.info.nblocks {
        send.SetAnswer(ERR_INVALID_VALUE);
        return;
      }
      SendBlock(p, env, curve, offset, send);
    }

    /** Id and offset sent back, with the block after them. */
    method SendBlock(p: seq<Byte>, env: Env, curve: Curve, offset: nat, send: Response)
      requires |p| == BLOCK_INFO && offset < |curve.blocks|
      requires HEADER_SIZE + BLOCK_INFO + |curve.blocks[offset]| <= send.data.Length
      modifies send, send.data
      ensures
        send.Holds(if env.readOk(p[0], offset) then Message(CURVE_BLOCK, p + curve.blocks[offset])
                   else Message(ERR_RESOURCE_BUSY, []))
    {
      send.SetAnswer(CURVE_BLOCK);
      send.Put(0, p);
      var ok, len := PutBlock(env, p[0], curve, offset, BLOCK_INFO, send);
      if !ok {
        send.SetAnswer(ERR_RESOURCE_BUSY);
        return;
      }
      send.size := len + BLOCK_INFO;
    }

    method UpdateCurve(i: nat, c: Curve)
      requires Valid() && i < |curves|
      requires Inv(State().(curves := State().curves[i := c]))
      modifies this`curves
      ensures Valid() && State() == old(State()).(curves := old(State()).curves[i := c])
      ensures Handles(curves) == old(Handles(curves))
    {
      ghost var s := State();
      hide Inv;
      curves := curves[i := curves[i].(entry := c)];
      assert State() == s.(curves := s.curves[i := c]);
    }

    method CurveBlock(p: seq<Byte>, env: Env, send: Response)
      requires Valid() && Ready(send)
      modifies this`curves, send, send.data
      ensures Valid() && State() == BsmpModel.CurveBlock(old(State()), env, p).0
      ensures Handles(curves) == old(Handles(curves))
      ensures send.Holds(BsmpModel.CurveBlock(old(State()), env, p).1)
    {
      hide Inv, ListOk, Entries, StoreBlock, Valid, State;
      TablesMatch();
      ghost var s := State();
      if |p| < BLOCK_INFO + 1 {
        send.SetAnswer(ERR_INVALID_PAYLOAD_SIZE);
        return;
      }
      if p[0] >= |curves| {
        send.SetAnswer(ERR_INVALID_ID);
        return;
      }
      CurveAt(p[0]);
      var curve := curves[p[0]].entry;
      if |p| > curve.info.blockSize + BLOCK_INFO {
        send.SetAnswer(ERR_INVALID_PAYLOAD_SIZE);
        return;
      }
      var offset := p[1] as int * 0x100 + p[2];
      if offset >= curve.info.nblocks {
        send.SetAnswer(ERR_INVALID_VALUE);
        return;
      }
      if !curve.info.writable {
        send.SetAnswer(ERR_READ_ONLY);
        return;
      }
      BsmpProperties.CurveBlockKeepsInv(s, env, p);
      TakeBlock(p[0], env, curve, offset, p[BLOCK_INFO..], send);
    }

    /** The block handed to the write callback; the checksum no longer fits the curve then. */
    method TakeBlock(id: nat, env: Env, curve: Curve, offset: nat, data: seq<Byte>, send: Response)
      requires Valid() && Ready(send) && id < |curves|
      requires curve == State().curves[id] && offset < |curve.blocks|
      requires env.writeOk(id, offset) ==>
                 Inv(State().(curves := State().curves[id := StoreBlock(curve, offset, data)]))
      modifies this`curves, send
      ensures Valid() && Handles(curves) == old(Handles(curves))
      ensures State() == if env.writeOk(id, offset)
                         then old(State()).(curves := old(State()).curves[id := StoreBlock(curve, offset, data)])
                         else old(State())
      ensures send.Holds(Message(if env.writeOk(id, offset) then OK else ERR_RESOURCE_BUSY, []))
    {
      hide Inv, ListOk, Entries, Valid, State, StoreBlock;
      var ok, written := WriteBlock(env, id, curve, offset, data);
      if !ok {
        send.SetAnswer(ERR_RESOURCE_BUSY);
        return;
      }
      var reset := ResetChecksum(written);
      StoredThenReset(curve, offset, data);
      UpdateCurve(id, reset);
      send.SetAnswer(OK);
    }

    /** The write callback of a curve. */
    method WriteBlock(env: Env, curve: nat, c: Curve, block: nat, data: seq<Byte>) returns (ok: bool, c': Curve)
      requires block < |c.blocks|
      ensures ok == env.writeOk(curve, block)
      ensures c' == if ok then c.(blocks := c.blocks[block := c.store(c.blocks[block], data)]) else c
    {
      ok, c' := env.writeOk(curve, block), c;
      if ok {
        c' := c.(blocks := c.blocks[block := c.store(c.blocks[block], data)]);
      }
    }

    method ResetChecksum(c: Curve) returns (c': Curve)
      ensures c' == c.(info := c.info.(checksum := Zeros(CSUM_SIZE)))
    {
      c' := c.(info := c.info.(checksum := Zeros(CSUM_SIZE)));
    }

    /** One block read into the local buffer and on into the digest. */
    method HashBlock(env: Env, curve: nat, c: Curve, i: nat, block: array<Byte>, md5ctx: Md5.Context)
      returns (read: bool, readBytes: nat)
      requires i < |c.blocks| && |c.blocks[i]| <= block.Length <= CURVE_BLOCK_MAX_SIZE
      requires md5ctx.Valid() && md5ctx.buffer != block
      modifies block, md5ctx, md5ctx.buffer
      ensures md5ctx.Valid()
      ensures read == env.readOk(curve, i)
      ensures read ==> readBytes == |c.blocks[i]| && md5ctx.msg == old(md5ctx.msg) + c.blocks[i]
    {
      read, readBytes := ReadBlock(env, curve, c, i, block, 0);
      if read {
        assert block[..readBytes] == c.blocks[i];
        md5ctx.Update(block[..readBytes]);
      }
    }

    /** The checksum loop: block after block into the digest, up to a block found short. */
    method HashBlocks(env: Env, curve: nat, c: Curve, md5ctx: Md5.Context) returns (ok: bool)
      requires CurveOk(c) && md5ctx.Valid() && md5ctx.msg == []
      modifies md5ctx, md5ctx.buffer
      ensures md5ctx.Valid()
      ensures ok <==> Readable(env, curve, |HashedBlocks(c)|)
      ensures ok ==> md5ctx.msg == Flatten(HashedBlocks(c))
    {
      hide HashedBlocks, CurveOk, Readable, Flatten, FullUpTo, UntilShort, Md5.Counter, Md5.BitCount, Md5.Absorbed,
        Md5.Tail, Md5.Absorb;
      BlocksOk(c);
      HashedIs(c);
      FullNone(c.blocks, c.info.nblocks);
      ReadableStep(env, curve, 0);
      FlattenNone(c.blocks[..0]);
      var block := new Byte[c.info.blockSize];
      var i := 0;
      while i < c.info.nblocks
        invariant i <= c.info.nblocks && FullUpTo(c.blocks, c.info.nblocks, i)
        invariant md5ctx.Valid() && md5ctx.msg == Flatten(c.blocks[..i])
        invariant Readable(env, curve, i)
      {
        FullThenNext(c.blocks, c.info.nblocks, i);
        ReadableStep(env, curve, i);
        ReadableFewer(env, curve, i + 1, |HashedBlocks(c)|);
        FlattenNext(c.blocks, i);
        var read, readBytes := HashBlock(env, curve, c, i, block, md5ctx);
        if !read {
          return false;
        }
        i := i + 1;
        if readBytes < c.info.nblocks {
          return true;
        }
      }
      FullToTheEnd(c.blocks, c.info.nblocks);
      ok := true;
    }

    method HashCurve(env: Env, curve: nat, c: Curve) returns (ok: bool, sum: seq<Byte>)
      requires CurveOk(c)
      ensures ok <==> Readable(env, curve, |HashedBlocks(c)|)
      ensures ok ==> sum == Checksum(compress, c)
    {
      hide HashedBlocks, CurveOk, Md5.Counter, Md5.BitCount, Md5.Absorbed, Md5.Tail;
      var md5ctx := new Md5.Context(compress);
      ok := HashBlocks(env, curve, c, md5ctx);
      if !ok {
        return false, [];
      }
      var digest := new Byte[CSUM_SIZE];
      md5ctx.Final(digest);
      assert digest[..16] == digest[..];
      sum := digest[..];
    }

    method CurveRecalcCsum(p: seq<Byte>, env: Env, send: Response)
      requires Valid() && Ready(send)
      modifies this`curves, send, send.data
      ensures Valid() && State() == BsmpModel.CurveRecalcCsum(old(State()), env, p).0
      ensures Handles(curves) == old(Handles(curves))
      ensures send.Holds(BsmpModel.CurveRecalcCsum(old(State()), env, p).1)
    {
      hide Inv, ListOk, Entries, Checksum, HashedBlocks, Readable, Valid, State;
      TablesMatch();
      ghost var s := State();
      BsmpProperties.CurveRecalcKeepsInv(s, env, p);
      if |p| != 1 {
        send.SetAnswer(ERR_INVALID_PAYLOAD_SIZE);
        return;
      }
      if p[0] >= |curves| {
        send.SetAnswer(ERR_INVALID_ID);
        return;
      }
      CurveAt(p[0]);
      var curve := curves[p[0]].entry;
      var ok, sum := HashCurve(env, p[0], curve);
      if !ok {
        send.SetAnswer(ERR_RESOURCE_BUSY);
        return;
      }
      var summed := curve.(info := curve.info.(checksum := sum));
      UpdateCurve(p[0], summed);
      send.SetAnswer(CURVE_CSUM);
      send.Put(0, sum);
      send.size := CSUM_SIZE;
    }

    // ----- Function commands -----

    method FuncQueryList(p: seq<Byte>, send: Response)
      requires Valid() && Ready(send)
      modifies send, send.data
      ensures send.Holds(BsmpModel.FuncQueryList(State(), p).1)
    {
      hide Inv, ListOk, State, FuncListBytes;
      TablesMatch();
      assert State().funcs == Entries(funcs);
      if |p| != 0 {
        send.SetAnswer(ERR_INVALID_PAYLOAD_SIZE);
        return;
      }
      send.SetAnswer(FUNC_LIST);
      ListFuncs(send);
      send.size := |funcs|;
    }

    method ListFuncs(send: Response)
      requires HEADER_SIZE + |funcs| <= send.data.Length
      modifies send.data
      ensures send.Payload(|funcs|) == FuncListBytes(Entries(funcs))
    {
      hide FuncByte;
      ghost var list := FuncListBytes(Entries(funcs));
      EntriesCount(funcs);
      for i := 0 to |funcs|
        invariant send.Payload(i) == list[..i]
      {
        var f := funcs[i].entry;
        send.data[HEADER_SIZE + i] := f.inputSize * 0x10 % 0x100 + f.outputSize % 0x10;
        FuncByteIs(f);
        assert send.Payload(i + 1) == send.Payload(i) + [FuncByte(f)];
      }
      assert list[..|funcs|] == list;
    }

    method FuncExecute(p: seq<Byte>, send: Response)
      requires Valid() && Ready(send)
      modifies mem, send, send.data
      ensures Valid() && State() == BsmpModel.FuncExecute(old(State()), p).0
      ensures send.Holds(BsmpModel.FuncExecute(old(State()), p).1)
    {
      hide Inv, ListOk, Entries, FuncOk, Valid, State;
      TablesMatch();
      if |p| == 0 {
        send.SetAnswer(ERR_INVALID_PAYLOAD_SIZE);
        return;
      }
      if p[0] >= |funcs| {
        send.SetAnswer(ERR_INVALID_ID);
        return;
      }
      FuncAt(p[0]);
      var f := funcs[p[0]].entry;
      if |p| != 1 + f.inputSize {
        send.SetAnswer(ERR_INVALID_PAYLOAD_SIZE);
        return;
      }
      var r := f.run(mem[..], p[1..]);
      Store(0, r.mem);
      assert mem[..] == r.mem;
      MemoryChanged();
      if r.ret != 0 {
        send.SetAnswer(FUNC_ERROR);
        send.Put(0, [r.ret]);
        send.size := 1;
      } else {
        send.SetAnswer(FUNC_RETURN);
        send.Put(0, r.output);
        send.size := f.outputSize;
      }
    }

    lemma FuncAt(i: nat)
      requires Valid() && i < |funcs|
      ensures State().funcs == Entries(funcs) && |State().funcs| == |funcs|
      ensures State().funcs[i] == funcs[i].entry
      ensures forall input :: |funcs[i].entry.run(mem[..], input).mem| == mem.Length
      ensures forall input :: funcs[i].entry.run(mem[..], input).ret == 0 ==>
                |funcs[i].entry.run(mem[..], input).output| == funcs[i].entry.outputSize <= FUNC_MAX_OUTPUT
    {
      assert State().funcs[i] == funcs[i].entry;
      assert FuncOk(State().funcs[i]);
    }

    // ----- Packets -----

    method VariableCommand(code: Byte, p: seq<Byte>, env: Env, send: Response)
      requires Valid() && Ready(send) && code in VARIABLE_COMMANDS
      modifies mem, send, send.data
      ensures Valid() && State() == Dispatch(old(State()), env, code, p).0
      ensures send.Holds(Dispatch(old(State()), env, code, p).1)
    {
      hide Inv, Valid, State, Response.Holds, Dispatch, BsmpModel.QueryVersion, BsmpModel.VarQueryList,
        BsmpModel.VarRead, BsmpModel.VarWrite, BsmpModel.VarBinOp, BsmpModel.VarWriteRead;
      TablesMatch();
      ghost var s := State();
      DispatchVariable(s, env, code, p);
      QueriesKeepState(s, env, p);
      if code == QUERY_VERSION {
        QueryVersion(p, send);
      } else if code == VAR_QUERY_LIST {
        VarQueryList(p, send);
      } else if code == VAR_READ {
        VarRead(p, send);
      } else if code == VAR_WRITE {
        VarWrite(p, send);
      } else if code == VAR_BIN_OP {
        VarBinOp(p, send);
      } else {
        VarWriteRead(p, send);
      }
    }

    method GroupCommand(code: Byte, p: seq<Byte>, env: Env, send: Response)
      requires Valid() && Ready(send) && code in GROUP_COMMANDS
      modifies this`groupCount, mem, groups, send, send.data
      ensures Valid() && State() == Dispatch(old(State()), env, code, p).0
      ensures send.Holds(Dispatch(old(State()), env, code, p).1)
    {
      hide Inv, Valid, State, Response.Holds, Dispatch, BsmpModel.GroupQueryList, BsmpModel.GroupQuery,
        BsmpModel.GroupRead, BsmpModel.GroupWrite, BsmpModel.GroupBinOp, BsmpModel.GroupCreate,
        BsmpModel.GroupRemoveAll;
      TablesMatch();
      ghost var s := State();
      DispatchGroup(s, env, code, p);
      QueriesKeepState(s, env, p);
      if code == GROUP_QUERY_LIST {
        GroupQueryList(p, send);
      } else if code == GROUP_QUERY {
        GroupQuery(p, send);
      } else if code == GROUP_READ {
        GroupRead(p, send);
      } else if code == GROUP_WRITE {
        GroupWrite(p, send);
      } else if code == GROUP_BIN_OP {
        GroupBinOp(p, send);
      } else if code == GROUP_CREATE {
        GroupCreate(p, send);
      } else {
        GroupRemoveAll(p, send);
      }
    }

    method CurveOrFunctionCommand(code: Byte, p: seq<Byte>, env: Env, send: Response)
      requires Valid() && Ready(send) && code in CURVE_AND_FUNCTION_COMMANDS
      modifies this`curves, mem, send, send.data
      ensures Handles(curves) == old(Handles(curves))
      ensures Valid() && State() == Dispatch(old(State()), env, code, p).0
      ensures send.Holds(Dispatch(old(State()), env, code, p).1)
    {
      hide Inv, Valid, State, Response.Holds, Dispatch, BsmpModel.CurveQueryList, BsmpModel.CurveQueryCsum,
        BsmpModel.CurveBlockRequest, BsmpModel.CurveBlock, BsmpModel.CurveRecalcCsum, BsmpModel.FuncQueryList,
        BsmpModel.FuncExecute;
      TablesMatch();
      ghost var s := State();
      DispatchCurveOrFunction(s, env, code, p);
      QueriesKeepState(s, env, p);
      if code == CURVE_QUERY_LIST {
        CurveQueryList(p, send);
      } else if code == CURVE_QUERY_CSUM {
        CurveQueryCsum(p, send);
      } else if code == CURVE_BLOCK_REQUEST {
        CurveBlockRequest(p, env, send);
      } else if code == CURVE_BLOCK {
        CurveBlock(p, env, send);
      } else if code == CURVE_RECALC_CSUM {
        CurveRecalcCsum(p, env, send);
      } else if code == FUNC_QUERY_LIST {
        FuncQueryList(p, send);
      } else {
        FuncExecute(p, send);
      }
    }

    /** The table of command functions. */
    method Execute(code: Byte, p: seq<Byte>, env: Env, send: Response)
      requires Valid() && Ready(send)
      modifies this`curves, this`groupCount, mem, groups, send, send.data
      ensures Handles(curves) == old(Handles(curves))
      ensures Valid() && State() == Dispatch(old(State()), env, code, p).0
      ensures send.Holds(Dispatch(old(State()), env, code, p).1)
    {
      hide Inv, Valid, State, Dispatch;
      TablesMatch();
      DispatchNone(State(), env, code, p);
      if code in VARIABLE_COMMANDS {
        VariableCommand(code, p, env, send);
      } else if code in GROUP_COMMANDS {
        GroupCommand(code, p, env, send);
      } else if code in CURVE_AND_FUNCTION_COMMANDS {
        CurveOrFunctionCommand(code, p, env, send);
      } else {
        send.SetAnswer(ERR_OP_NOT_SUPPORTED);
      }
    }

    /** For every packet received: the tables and memory become what the model says, and the first
        `len` bytes of the response are the model's answer on the wire. */
    method ProcessPacket(request: seq<Byte>, env: Env, send: Response) returns (len: nat)
      requires Valid() && Ready(send)
      modifies this`curves, this`groupCount, mem, groups, send, send.data
      ensures Handles(curves) == old(Handles(curves))
      ensures Valid() && State() == Process(old(State()), env, request).0
      ensures len == HEADER_SIZE + |Process(old(State()), env, request).1.payload| <= MAX_PACKET
      ensures send.data[..len] == Wire(Process(old(State()), env, request).1)
    {
      hide Inv, Valid, State, Process, Response.Holds, WellFormed;
      TablesMatch();
      ghost var s := State();
      ghost var m := Process(s, env, request).1;
      BsmpProperties.AnswerFits(s, env, request);
      ProcessIs(s, env, request);
      if |request| < HEADER_SIZE || |request| != request[1] as int * 0x100 + request[2] + HEADER_SIZE {
        send.SetAnswer(ERR_MALFORMED_MESSAGE);
      } else {
        Execute(request[0], request[HEADER_SIZE..], env, send);
      }
      len := send.PutHeader(m);
    }
  }

  const VARIABLE_COMMANDS :=
    [QUERY_VERSION, VAR_QUERY_LIST, VAR_READ, VAR_WRITE, VAR_BIN_OP, VAR_WRITE_READ]
  const GROUP_COMMANDS :=
    [GROUP_QUERY_LIST, GROUP_QUERY, GROUP_READ, GROUP_WRITE, GROUP_BIN_OP, GROUP_CREATE, GROUP_REMOVE_ALL]
  const CURVE_AND_FUNCTION_COMMANDS :=
    [CURVE_QUERY_LIST, CURVE_QUERY_CSUM, CURVE_BLOCK_REQUEST, CURVE_BLOCK, CURVE_RECALC_CSUM, FUNC_QUERY_LIST,
     FUNC_EXECUTE]

  lemma DispatchVariable(s: Server, env: Env, code: Byte, p: seq<Byte>)
    requires Inv(s)
    ensures
      var r := Dispatch(s, env, code, p);
      && (code == QUERY_VERSION ==> r == QueryVersion(s, p))
      && (code == VAR_QUERY_LIST ==> r == VarQueryList(s, p))
      && (code == VAR_READ ==> r == VarRead(s, p))
      && (code == VAR_WRITE ==> r == VarWrite(s, p))
      && (code == VAR_BIN_OP ==> r == VarBinOp(s, p))
      && (code == VAR_WRITE_READ ==> r == VarWriteRead(s, p))
  {
    hide Inv, QueryVersion, VarQueryList, VarRead, VarWrite, VarBinOp, VarWriteRead;
  }

  lemma DispatchGroup(s: Server, env: Env, code: Byte, p: seq<Byte>)
    requires Inv(s)
    ensures
      var r := Dispatch(s, env, code, p);
      && (code == GROUP_QUERY_LIST ==> r == GroupQueryList(s, p))
      && (code == GROUP_QUERY ==> r == GroupQuery(s, p))
      && (code == GROUP_READ ==> r == GroupRead(s, p))
      && (code == GROUP_WRITE ==> r == GroupWrite(s, p))
      && (code == GROUP_BIN_OP ==> r == GroupBinOp(s, p))
      && (code == GROUP_CREATE ==> r == GroupCreate(s, p))
      && (code == GROUP_REMOVE_ALL ==> r == GroupRemoveAll(s, p))
  {
    hide Inv, GroupQueryList, GroupQuery, GroupRead, GroupWrite, GroupBinOp, GroupCreate, GroupRemoveAll;
  }

  lemma DispatchCurveOrFunction(s: Server, env: Env, code: Byte, p: seq<Byte>)
    requires Inv(s)
    ensures
      var r := Dispatch(s, env, code, p);
      && (code == CURVE_QUERY_LIST ==> r == CurveQueryList(s, p))
      && (code == CURVE_QUERY_CSUM ==> r == CurveQueryCsum(s, p))
      && (code == CURVE_BLOCK_REQUEST ==> r == CurveBlockRequest(s, env, p))
      && (code == CURVE_BLOCK ==> r == CurveBlock(s, env, p))
      && (code == CURVE_RECALC_CSUM ==> r == CurveRecalcCsum(s, env, p))
      && (code == FUNC_QUERY_LIST ==> r == FuncQueryList(s, p))
      && (code == FUNC_EXECUTE ==> r == FuncExecute(s, p))
  {
    hide Inv, CurveQueryList, CurveQueryCsum, CurveBlockRequest, CurveBlock, CurveRecalcCsum, FuncQueryList,
      FuncExecute;
  }

  lemma DispatchNone(s: Server, env: Env, code: Byte, p: seq<Byte>)
    requires Inv(s)
    ensures code !in VARIABLE_COMMANDS && code !in GROUP_COMMANDS && code !in CURVE_AND_FUNCTION_COMMANDS ==>
              Dispatch(s, env, code, p) == Fail(s, ERR_OP_NOT_SUPPORTED)
  {
    hide Inv;
  }

  lemma ProcessIs(s: Server, env: Env, request: seq<Byte>)
    requires Inv(s)
    ensures
      Process(s, env, request) ==
      if |request| < HEADER_SIZE || |request| != request[1] as int * 0x100 + request[2] + HEADER_SIZE
      then Fail(s, ERR_MALFORMED_MESSAGE)
      else Dispatch(s, env, request[0], request[HEADER_SIZE..])
  {
    hide Inv, Dispatch;
  }

  /** The commands that only ask. */
  lemma QueriesKeepState(s: Server, env: Env, p: seq<Byte>)
    requires Inv(s)
    ensures QueryVersion(s, p).0 == VarQueryList(s, p).0 == VarRead(s, p).0 == GroupQueryList(s, p).0 == s
    ensures GroupQuery(s, p).0 == GroupRead(s, p).0 == CurveQueryList(s, p).0 == CurveQueryCsum(s, p).0 == s
    ensures CurveBlockRequest(s, env, p).0 == FuncQueryList(s, p).0 == s
  {
    hide Inv, VarListBytes, GroupListBytes, CurveListBytes, FuncListBytes, ReadMembers, Value;
  }

  lemma GroupOfNone(vars: seq<Var>, ids: seq<nat>)
    requires ids == []
    ensures GroupOf(vars, ids) == Group(true, 0, [])
  {}

  lemma GroupOfSnoc(vars: seq<Var>, ids: seq<nat>, id: nat)
    requires Bounded(ids, |vars|) && id < |vars|
    ensures GroupOf(vars, ids + [id]) == AddMember(GroupOf(vars, ids), vars[id], id)
    ensures GroupOf(vars, ids + [id]).members == ids + [id]
  {
    BsmpProperties.TotalSizeSnoc(vars, ids, id);
    assert (ids + [id])[|ids|] == id;
    assert forall i :: 0 <= i < |ids| ==> (ids + [id])[i] == ids[i];
  }

  /** What the first i members contribute. */
  ghost function ReadUpTo(vars: seq<Var>, ids: seq<nat>, mem: seq<Byte>, i: nat): seq<Byte>
    requires MembersOk(vars, ids, |mem|) && i <= |ids|
  {
    if i == 0 then [] else ReadUpTo(vars, ids, mem, i - 1) + Value(mem, vars[ids[i - 1]])
  }

  lemma ReadUpToNext(vars: seq<Var>, ids: seq<nat>, mem: seq<Byte>, i: nat)
    requires MembersOk(vars, ids, |mem|) && i <= |ids|
    ensures ReadUpTo(vars, ids, mem, 0) == []
    ensures i < |ids| ==>
              ids[i] < |vars| && VarOk(|mem|, vars[ids[i]]) &&
              ReadUpTo(vars, ids, mem, i + 1) == ReadUpTo(vars, ids, mem, i) + Value(mem, vars[ids[i]])
  {}

  lemma {:induction false} ReadUpToAll(vars: seq<Var>, ids: seq<nat>, mem: seq<Byte>, i: nat)
    requires MembersOk(vars, ids, |mem|) && i <= |ids|
    ensures ReadUpTo(vars, ids, mem, i) + ReadMembers(vars, ids[i..], mem) == ReadMembers(vars, ids, mem)
  {
    if i == 0 {
      assert ids[i..] == ids;
    } else {
      ReadUpToAll(vars, ids, mem, i - 1);
      assert ids[i - 1..][1..] == ids[i..];
    }
  }

  lemma ReadUpToFits(vars: seq<Var>, ids: seq<nat>, mem: seq<Byte>, i: nat)
    requires MembersOk(vars, ids, |mem|) && i <= |ids|
    ensures |ReadUpTo(vars, ids, mem, i)| <= TotalSize(vars, ids)
    ensures i == |ids| ==> ReadUpTo(vars, ids, mem, i) == ReadMembers(vars, ids, mem)
  {
    ReadUpToAll(vars, ids, mem, i);
  }

  lemma WriteStep(vars: seq<Var>, ids: seq<nat>, data: seq<Byte>, mem: seq<Byte>)
    requires MembersOk(vars, ids, |mem|) && |data| == TotalSize(vars, ids) && ids != []
    ensures TotalSize(vars, ids) == vars[ids[0]].size + TotalSize(vars, ids[1..])
    ensures
      var v := vars[ids[0]];
      var accepted := v.accepts(data[..v.size]);
      var mem' := if accepted then Splice(mem, v.addr, data[..v.size]) else mem;
      var rest := WriteMembers(vars, ids[1..], data[v.size..], mem');
      WriteMembers(vars, ids, data, mem) == Written(rest.mem, !accepted || rest.failed)
  {}

  lemma WriteNone(vars: seq<Var>, ids: seq<nat>, data: seq<Byte>, mem: seq<Byte>)
    requires MembersOk(vars, ids, |mem|) && |data| == TotalSize(vars, ids) && ids == []
    ensures WriteMembers(vars, ids, data, mem) == Written(mem, false)
  {}

  lemma CombineStep(op: BitOp, vars: seq<Var>, ids: seq<nat>, mask: seq<Byte>, mem: seq<Byte>)
    requires MembersOk(vars, ids, |mem|) && |mask| == TotalSize(vars, ids) && ids != []
    ensures TotalSize(vars, ids) == vars[ids[0]].size + TotalSize(vars, ids[1..])
    ensures
      var v := vars[ids[0]];
      CombineMembers(op, vars, ids, mask, mem) ==
      CombineMembers(op, vars, ids[1..], mask[v.size..], Combine(op, mem, v, mask[..v.size]))
  {}

  lemma CombineNone(op: BitOp, vars: seq<Var>, ids: seq<nat>, mask: seq<Byte>, mem: seq<Byte>)
    requires MembersOk(vars, ids, |mem|) && |mask| == TotalSize(vars, ids) && ids == []
    ensures CombineMembers(op, vars, ids, mask, mem) == mem
  {}

  lemma CurveListNone(curves: seq<Curve>)
    requires curves == []
    ensures CurveListBytes(curves) == []
  {}

  lemma CurveListSnoc(curves: seq<Curve>, i: nat)
    requires i < |curves|
    ensures CurveListBytes(curves[..i + 1]) == CurveListBytes(curves[..i]) + CurveBytes(curves[i].info)
  {
    assert curves[..i + 1][..i] == curves[..i];
  }

  lemma StoredThenReset(c: Curve, block: nat, data: seq<Byte>)
    requires block < |c.blocks|
    ensures
      var written := c.(blocks := c.blocks[block := c.store(c.blocks[block], data)]);
      written.(info := written.info.(checksum := Zeros(CSUM_SIZE))) == StoreBlock(c, block, data)
  {}

  lemma BlocksOk(c: Curve)
    requires CurveOk(c)
    ensures |c.blocks| == c.info.nblocks && c.info.blockSize <= CURVE_BLOCK_MAX_SIZE
    ensures forall i :: 0 <= i < |c.blocks| ==> |c.blocks[i]| <= c.info.blockSize
  {}

  lemma ReadableStep(env: Env, curve: nat, n: nat)
    ensures Readable(env, curve, 0)
    ensures Readable(env, curve, n + 1) <==> Readable(env, curve, n) && env.readOk(curve, n)
  {}

  lemma ReadableFewer(env: Env, curve: nat, m: nat, n: nat)
    requires m <= n
    ensures Readable(env, curve, n) ==> Readable(env, curve, m)
  {}

  lemma FuncByteIs(f: Func)
    ensures FuncByte(f) == f.inputSize * 0x10 % 0x100 + f.outputSize % 0x10
  {
    HighNibble(f.inputSize);
  }

  lemma HighNibble(n: nat)
    ensures n * 0x10 % 0x100 == n % 0x10 * 0x10
  {
    assert n * 0x10 == n / 0x10 * 0x100 + n % 0x10 * 0x10;
  }

  lemma FlattenNone(parts: seq<seq<Byte>>)
    requires parts == []
    ensures Flatten(parts) == []
  {}

  lemma FlattenNext(parts: seq<seq<Byte>>, i: nat)
    requires i < |parts|
    ensures Flatten(parts[..i + 1]) == Flatten(parts[..i]) + parts[i]
  {
    FlattenSnoc(parts[..i], parts[i]);
    assert parts[..i + 1] == parts[..i] + [parts[i]];
  }

  /** None of the first i blocks is shorter than the limit. */
  predicate FullUpTo(blocks: seq<seq<Byte>>, limit: nat, i: nat)
    requires i <= |blocks|
  {
    forall j :: 0 <= j < i ==> |blocks[j]| >= limit
  }

  lemma {:induction false} UntilShortSplit(blocks: seq<seq<Byte>>, limit: nat, i: nat)
    requires i <= |blocks| && forall j :: 0 <= j < i ==> |blocks[j]| >= limit
    ensures UntilShort(blocks, limit) == blocks[..i] + UntilShort(blocks[i..], limit)
  {
    if i > 0 {
      var rest := blocks[1..];
      UntilShortSplit(rest, limit, i - 1);
      UntilShortFull(blocks, limit);
      hide UntilShort;
      assert rest[i - 1..] == blocks[i..];
      assert blocks[..i] == [blocks[0]] + rest[..i - 1];
      Associative([blocks[0]], rest[..i - 1], UntilShort(rest[i - 1..], limit));
    } else {
      assert blocks[i..] == blocks;
    }
  }

  lemma Associative<T>(a: seq<T>, b: seq<T>, c: seq<T>)
    ensures (a + b) + c == a + (b + c)
  {}

  lemma UntilShortFull(blocks: seq<seq<Byte>>, limit: nat)
    requires blocks != [] && |blocks[0]| >= limit
    ensures UntilShort(blocks, limit) == [blocks[0]] + UntilShort(blocks[1..], limit)
  {}

  /** What a loop over blocks knows once i of them have been found full. */
  lemma FullThenNext(blocks: seq<seq<Byte>>, limit: nat, i: nat)
    requires i < |blocks| && FullUpTo(blocks, limit, i)
    ensures i < |UntilShort(blocks, limit)|
    ensures |blocks[i]| < limit ==> UntilShort(blocks, limit) == blocks[..i + 1]
    ensures |blocks[i]| >= limit ==> FullUpTo(blocks, limit, i + 1)
  {
    UntilShortSplit(blocks, limit, i);
    if |blocks[i]| < limit {
      assert blocks[..i] + [blocks[i]] == blocks[..i + 1];
    }
  }

  lemma FullToTheEnd(blocks: seq<seq<Byte>>, limit: nat)
    requires FullUpTo(blocks, limit, |blocks|)
    ensures UntilShort(blocks, limit) == blocks == blocks[..|blocks|]
  {
    UntilShortSplit(blocks, limit, |blocks|);
  }

  lemma FullNone(blocks: seq<seq<Byte>>, limit: nat)
    ensures FullUpTo(blocks, limit, 0)
  {}

  lemma HashedIs(c: Curve)
    ensures HashedBlocks(c) == UntilShort(c.blocks, c.info.nblocks)
  {}
}
