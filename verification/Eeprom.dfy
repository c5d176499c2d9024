/** The serial EEPROM and what is kept in it: the hand-written tables of addresses of the parameter
    bank and of the DSP coefficients, and their saving and loading burst by burst. */
module Eeprom {
  import opened Arithmetic
  import opened Bytes

  const CELLS := 0x2000
  const PAGE := 32

  // ----- The device -----

  /** Where byte k of a burst to address a lands: the five low bits wrap within the page. */
  function PageAddress(a: nat, k: nat): (r: nat)
    ensures a < CELLS ==> r < CELLS
  {
    a / PAGE * PAGE + (a + k) % PAGE
  }

  /** A burst, byte after byte. */
  function Burst(cells: seq<Byte>, a: nat, data: seq<Byte>): (r: seq<Byte>)
    requires |cells| == CELLS && a < CELLS
    ensures |r| == CELLS
  {
    if data == [] then cells
    else Burst(cells, a, data[..|data| - 1])[PageAddress(a, |data| - 1) := data[|data| - 1]]
  }

  /** No burst touches another page. */
  lemma {:induction false} BurstStaysInPage(cells: seq<Byte>, a: nat, data: seq<Byte>, b: nat)
    requires |cells| == CELLS && a < CELLS && b < CELLS && b / PAGE != a / PAGE
    ensures Burst(cells, a, data)[b] == cells[b]
    decreases |data|
  {
    if data != [] {
      BurstStaysInPage(cells, a, data[..|data| - 1], b);
      SamePage(a, |data| - 1);
    }
  }

  lemma SamePage(a: nat, k: nat)
    ensures PageAddress(a, k) / PAGE == a / PAGE
  {}

  lemma SpliceNext(cells: seq<Byte>, a: nat, data: seq<Byte>, k: nat)
    requires a + |data| <= |cells| && k < |data|
    ensures Splice(cells, a, data[..k])[a + k := data[k]] == Splice(cells, a, data[..k + 1])
    ensures Splice(cells, a, data[..0]) == cells
  {}

  /** Where byte k of a read from address a comes from: reading goes on over pages, and around the end. */
  function ReadAddress(a: nat, k: nat): (r: nat)
    ensures r < CELLS
  {
    (a + k) % CELLS
  }

  lemma ReadWithin(a: nat, size: nat)
    requires a + size <= CELLS
    ensures forall k :: 0 <= k < size ==> ReadAddress(a, k) == a + k
  {}

  lemma PlaceInPage(a: nat, k: nat)
    requires a % PAGE + k < PAGE
    ensures PageAddress(a, k) == a + k
  {}

  /** A burst that ends before its page does is a plain copy. */
  lemma {:induction false} BurstInPage(cells: seq<Byte>, a: nat, data: seq<Byte>, k: nat)
    requires |cells| == CELLS && a < CELLS && a % PAGE + |data| <= PAGE && k <= |data|
    ensures a + |data| <= CELLS && Burst(cells, a, data[..k]) == Splice(cells, a, data[..k])
    ensures k == |data| ==> Burst(cells, a, data) == Splice(cells, a, data)
    decreases k
  {
    hide Burst, Splice, PageAddress;
    assert data[..|data|] == data;
    if k == 0 {
      if data != [] {
        BurstNext(cells, a, data, 0);
        SpliceNext(cells, a, data, 0);
      } else {
        BurstNone(cells, a, data[..0]);
      }
    } else {
      BurstInPage(cells, a, data, k - 1);
      BurstNext(cells, a, data, k - 1);
      SpliceNext(cells, a, data, k - 1);
      PlaceInPage(a, k - 1);
    }
  }

  lemma BurstNone(cells: seq<Byte>, a: nat, data: seq<Byte>)
    requires |cells| == CELLS && a < CELLS && data == []
    ensures Burst(cells, a, data) == cells == Splice(cells, a, data)
  {}

  lemma BurstNext(cells: seq<Byte>, a: nat, data: seq<Byte>, k: nat)
    requires |cells| == CELLS && a < CELLS && k < |data|
    ensures Burst(cells, a, data[..k + 1]) == Burst(cells, a, data[..k])[PageAddress(a, k) := data[k]]
    ensures Burst(cells, a, data[..0]) == cells
  {
    assert data[..k + 1][..k] == data[..k];
  }

  class Device {
    const cells: array<Byte>
    /** Only the onboard memory has a write-protect pin. */
    const onboard: bool
    var writeProtected: bool

    ghost predicate Valid()
      reads this
    {
      cells.Length == CELLS && (writeProtected ==> onboard)
    }

    constructor (onboard: bool)
      ensures Valid() && this.onboard == onboard && fresh(cells)
    {
      this.onboard := onboard;
      cells := new Byte[CELLS](_ => 0xFF);
      writeProtected := false;
    }

    /** A message with the write protection lifted for as long as it takes. */
    method WriteUnprotected(data: array<Byte>, size: nat, ghost a: nat, ghost bytes: seq<Byte>)
      requires Valid() && data != cells && 2 <= size <= data.Length
      requires Join(data[0], data[1]) == a < CELLS && data[2..size] == bytes
      requires a % PAGE + |bytes| <= PAGE
      modifies this`writeProtected, cells
      ensures Valid() && writeProtected == onboard
      ensures a + |bytes| <= CELLS && cells[..] == Splice(old(cells[..]), a, bytes)
    {
      hide Burst, Splice, Join;
      BurstInPage(cells[..], a, bytes, |bytes|);
      assert a % CELLS == a;
      if onboard { writeProtected := false; }
      Write(data, size);
      if onboard { writeProtected := true; }
    }

    /** A message of two address bytes and data; the address has 13 bits. */
    method Write(data: array<Byte>, size: nat)
      requires Valid() && data != cells && 2 <= size <= data.Length
      modifies cells
      ensures cells[..] == if writeProtected then old(cells[..])
                           else Burst(old(cells[..]), Join(data[0], data[1]) % CELLS, data[2..size])
    {
      hide Join, PageAddress, Burst;
      var a := Join(data[0], data[1]) % CELLS;
      ghost var was, burst := cells[..], data[2..size];
      if !writeProtected {
        BurstNone(was, a, burst[..0]);
        for k := 0 to size - 2
          invariant cells[..] == Burst(was, a, burst[..k])
        {
          BurstNext(was, a, burst, k);
          cells[PageAddress(a, k)] := data[2 + k];
        }
        assert burst[..size - 2] == burst;
      }
    }

    /** Two address bytes in, at least two data bytes out, over page and device ends. */
    method Read(data: array<Byte>, size: nat)
      requires Valid() && data != cells && data.Length >= 2 && size <= data.Length
      modifies data
      ensures
        var count := if size < 2 then 2 else size;
        && (forall k :: 0 <= k < count ==> data[k] == cells[ReadAddress(Join(old(data[0]), old(data[1])), k)])
        && (forall k :: count <= k < data.Length ==> data[k] == old(data[k]))
    {
      hide Join, ReadAddress;
      var a := Join(data[0], data[1]);
      var count := if size < 2 then 2 else size;
      for k := 0 to count
        invariant forall j :: 0 <= j < k ==> data[j] == cells[ReadAddress(a, j)]
        invariant forall j :: k <= j < data.Length ==> data[j] == old(data[j])
      {
        data[k] := cells[ReadAddress(a, k)];
      }
    }
  }

  // ----- The parameter bank -----

  const NUM_PARAMETERS := 55
  const NUM_MAX_PARAMETERS := 64
  const PS_NAME := 0
  const PASSWORD := 62
  const ENABLE_ONBOARD_EEPROM := 63

  /** A parameter: address, bytes in an element, number of elements. */
  datatype Area = Area(address: nat, size: nat, count: nat)

  /** The areas by parameter id, as on the onboard memory. */
  function AreaOf(id: nat): Area {
    match id
    case 0 => Area(0x0000, 1, 64) // PS_Name
    case 1 => Area(0x0040, 2, 1) // PS_Model
    case 2 => Area(0x0042, 2, 1) // Num_PS_Modules
    case 3 => Area(0x005C, 2, 1) // Command_Interface
    case 4 => Area(0x0044, 4, 1) // RS485_Baudrate
    case 5 => Area(0x0048, 2, 4) // RS485_Address
    case 6 => Area(0x0050, 2, 1) // RS485_Termination
    case 7 => Area(0x0052, 2, 1) // UDCNet_Address
    case 8 => Area(0x0054, 1, 4) // Ethernet_IP
    case 9 => Area(0x0058, 1, 4) // Ethernet_Subnet_Mask
    case 10 => Area(0x005E, 2, 2) // Buzzer_Volume
    case 11 => Area(0x0080, 4, 1) // Freq_ISR_Controller
    case 12 => Area(0x0084, 4, 4) // Freq_TimeSlicer
    case 13 => Area(0x0094, 2, 1) // Control_Loop_State
    case 14 => Area(0x00A0, 4, 4) // Max_Ref
    case 15 => Area(0x00B0, 4, 4) // Min_Ref
    case 16 => Area(0x00C0, 4, 4) // Max_Ref_OpenLoop
    case 17 => Area(0x00D0, 4, 4) // Min_Ref_OpenLoop
    case 18 => Area(0x00E0, 4, 1) // PWM_Freq
    case 19 => Area(0x00E4, 4, 1) // PWM_DeadTime
    case 20 => Area(0x00E8, 4, 1) // PWM_Max_Duty
    case 21 => Area(0x00EC, 4, 1) // PWM_Min_Duty
    case 22 => Area(0x00F0, 4, 1) // PWM_Max_Duty_OpenLoop
    case 23 => Area(0x00F4, 4, 1) // PWM_Min_Duty_OpenLoop
    case 24 => Area(0x00F8, 4, 1) // PWM_Lim_Duty_Share
    case 25 => Area(0x0100, 2, 1) // HRADC_Num_Boards
    case 26 => Area(0x0102, 2, 1) // HRADC_Freq_SPICLK
    case 27 => Area(0x0104, 4, 1) // HRADC_Freq_Sampling
    case 28 => Area(0x0108, 2, 4) // HRADC_Enable_Heater
    case 29 => Area(0x0110, 2, 4) // HRADC_Enable_Monitor
    case 30 => Area(0x0118, 2, 4) // HRADC_Type_Transducer
    case 31 => Area(0x0120, 4, 4) // HRADC_Gain_Transducer
    case 32 => Area(0x0130, 4, 4) // HRADC_Offset_Transducer
    case 33 => Area(0x0140, 2, 1) // SigGen_Type
    case 34 => Area(0x0142, 2, 1) // SigGen_Num_Cycles
    case 35 => Area(0x0144, 4, 1) // SigGen_Freq
    case 36 => Area(0x0148, 4, 1) // SigGen_Amplitude
    case 37 => Area(0x014C, 4, 1) // SigGen_Offset
    case 38 => Area(0x0150, 4, 4) // SigGen_Aux_Param
    case 39 => Area(0x01C0, 2, 4) // WfmRef_Selected
    case 40 => Area(0x01C8, 2, 4) // WfmRef_SyncMode
    case 41 => Area(0x01D0, 4, 4) // WfmRef_Frequency
    case 42 => Area(0x01E0, 4, 4) // WfmRef_Gain
    case 43 => Area(0x01F0, 4, 4) // WfmRef_Offset
    case 44 => Area(0x0200, 4, 64) // Analog_Var_Max
    case 45 => Area(0x0300, 4, 64) // Analog_Var_Min
    case 46 => Area(0x0400, 4, 32) // Hard_Interlocks_Debounce_Time
    case 47 => Area(0x0480, 4, 32) // Hard_Interlocks_Reset_Time
    case 48 => Area(0x0500, 4, 32) // Soft_Interlocks_Debounce_Time
    case 49 => Area(0x0580, 4, 32) // Soft_Interlocks_Reset_Time
    case 50 => Area(0x0740, 4, 4) // Scope_Sampling_Frequency
    case 51 => Area(0x0750, 4, 4) // Scope_Source
    case 62 => Area(0x1FFD, 2, 1) // Password
    case 63 => Area(0x1FFF, 1, 1) // Enable_Onboard_EEPROM
    case _ => Area(0, 0, 0)
  }

  datatype ParamType = UInt8 | UInt16 | UInt32 | Float | PFloat

  /** The bytes of an element: the types by name, whatever the address table says. */
  function Width(t: ParamType): nat {
    match t
    case UInt8 => 1
    case UInt16 => 2
    case UInt32 | Float | PFloat => 4
  }

  /** The types by parameter id, as registered. */
  function TypeOf(id: nat): ParamType {
    if id in {0, 8, 9, 63} then UInt8
    else if id in {1, 2, 3, 5, 6, 7, 10, 13, 25, 26, 28, 29, 30, 33, 34, 39, 40, 62} then UInt16
    else if id in {46, 47, 48, 49} then UInt32
    else if id == 51 then PFloat
    else Float
  }

  function Length(id: nat): nat { AreaOf(id).size * AreaOf(id).count }

  /** The offboard table has no entry for the last two parameters. */
  function AddressOf(onboard: bool, id: nat): nat { if !onboard && id >= PASSWORD then 0 else AreaOf(id).address }

  /** The last parameter that starts at or before an address. */
  function Candidate(a: nat): nat {
    if a < 0x0050 then
      if a < 0x0040 then 0 else if a < 0x0042 then 1 else if a < 0x0044 then 2 else if a < 0x0048 then 4 else 5
    else if a < 0x0094 then
      if a < 0x0052 then 6 else if a < 0x0054 then 7 else if a < 0x0058 then 8 else if a < 0x005C then 9
      else if a < 0x005E then 3 else if a < 0x0080 then 10 else if a < 0x0084 then 11 else 12
    else if a < 0x00E8 then
      if a < 0x00A0 then 13 else if a < 0x00B0 then 14 else if a < 0x00C0 then 15 else if a < 0x00D0 then 16
      else if a < 0x00E0 then 17 else if a < 0x00E4 then 18 else 19
    else if a < 0x0108 then
      if a < 0x00EC then 20 else if a < 0x00F0 then 21 else if a < 0x00F4 then 22 else if a < 0x00F8 then 23
      else if a < 0x0100 then 24 else if a < 0x0102 then 25 else if a < 0x0104 then 26 else 27
    else if a < 0x0144 then
      if a < 0x0110 then 28 else if a < 0x0118 then 29 else if a < 0x0120 then 30 else if a < 0x0130 then 31
      else if a < 0x0140 then 32 else if a < 0x0142 then 33 else 34
    else if a < 0x01E0 then
      if a < 0x0148 then 35 else if a < 0x014C then 36 else if a < 0x0150 then 37 else if a < 0x01C0 then 38
      else if a < 0x01C8 then 39 else if a < 0x01D0 then 40 else 41
    else if a < 0x0480 then
      if a < 0x01F0 then 42 else if a < 0x0200 then 43 else if a < 0x0300 then 44 else if a < 0x0400 then 45 else 46
    else
      if a < 0x0500 then 47 else if a < 0x0580 then 48 else if a < 0x0740 then 49 else if a < 0x0750 then 50 else 51
  }

  /** The parameter of the bank whose area an address is in. */
  predicate InBank(a: nat) { a < AreaOf(Candidate(a)).address + Length(Candidate(a)) }

  lemma CandidateStarts(a: nat)
    ensures Candidate(a) < NUM_PARAMETERS && AreaOf(Candidate(a)).address <= a
  {}

  /** No two areas of the bank share an address. */
  lemma OwnAddress(id: nat, o: nat)
    requires id < NUM_PARAMETERS && o < Length(id)
    ensures AreaOf(id).address + o < 0x0760
    ensures InBank(AreaOf(id).address + o) && Candidate(AreaOf(id).address + o) == id
  {}

  lemma AreaAligned(id: nat)
    requires AreaOf(id).count > 0
    ensures AreaOf(id).size == 1 || AreaOf(id).size == 2 || AreaOf(id).size == 4
    ensures AreaOf(id).address + Length(id) <= CELLS
    ensures id < PASSWORD && AreaOf(id).size == 2 ==> AreaOf(id).address % 2 == 0
    ensures id < PASSWORD && AreaOf(id).size == 4 ==> AreaOf(id).address % 4 == 0
    ensures id >= PASSWORD ==> AreaOf(id).count == 1 && AreaOf(id).address % PAGE + AreaOf(id).size <= PAGE
  {}

  lemma AlignedTwo(a: nat, n: nat)
    requires a % 2 == 0
    ensures (a + 2 * n) % PAGE + 2 <= PAGE
  {
    var y := a / 2 + n;
    assert a + 2 * n == 2 * y == PAGE * (y / 16) + 2 * (y % 16);
  }

  lemma AlignedFour(a: nat, n: nat)
    requires a % 4 == 0
    ensures (a + 4 * n) % PAGE + 4 <= PAGE
  {
    var y := a / 4 + n;
    assert a + 4 * n == 4 * y == PAGE * (y / 8) + 4 * (y % 8);
  }

  /** Every element of every parameter lies within one page, on either memory. */
  lemma ElementInPage(onboard: bool, id: nat, n: nat)
    requires n < AreaOf(id).count
    ensures
      var a, size := AddressOf(onboard, id) + AreaOf(id).size * n, AreaOf(id).size;
      && 1 <= size <= 4 && a + size <= CELLS && a % PAGE + size <= PAGE
      && size * n + size <= Length(id)
  {
    AreaAligned(id);
    hide AreaOf;
    var area := AreaOf(id);
    Mono(area.size, n + 1, area.count);
    if id < PASSWORD {
      if area.size == 2 {
        AlignedTwo(area.address, n);
      } else if area.size == 4 {
        AlignedFour(area.address, n);
      }
    } else {
      assert n == 0 && area.size * n == 0;
    }
  }

  /** A value for every parameter. */
  predicate Shaped(ram: seq<seq<Byte>>) {
    |ram| == NUM_MAX_PARAMETERS && forall id :: 0 <= id < NUM_MAX_PARAMETERS ==> |ram[id]| == Length(id)
  }

  /** What is in a cell once the parameters below `id` and m bytes of `id` have been saved. */
  function CellUpTo(ram: seq<seq<Byte>>, id: nat, m: nat, a: nat, was: Byte): Byte
    requires Shaped(ram)
  {
    CandidateStarts(a);
    var owner, o := Candidate(a), a - AreaOf(Candidate(a)).address;
    if InBank(a) && (owner < id || (owner == id && o < m)) then ram[owner][o] else was
  }

  function BankUpTo(cells: seq<Byte>, ram: seq<seq<Byte>>, id: nat, m: nat): (r: seq<Byte>)
    requires Shaped(ram)
    ensures |r| == |cells|
  {
    seq(|cells|, a requires 0 <= a < |cells| => CellUpTo(ram, id, m, a, cells[a]))
  }

  /** A memory after a save of the bank: every parameter in its place, all else as before. */
  function BankImage(cells: seq<Byte>, ram: seq<seq<Byte>>): (r: seq<Byte>)
    requires Shaped(ram)
    ensures |r| == |cells|
  {
    BankUpTo(cells, ram, NUM_PARAMETERS, 0)
  }

  lemma CellNext(ram: seq<seq<Byte>>, id: nat, o: nat, size: nat, a: nat, was: Byte)
    requires Shaped(ram) && id < NUM_PARAMETERS && o + size <= Length(id)
    ensures
      var at := AreaOf(id).address + o;
      CellUpTo(ram, id, o + size, a, was) ==
      if at <= a < at + size then ram[id][a - AreaOf(id).address] else CellUpTo(ram, id, o, a, was)
  {
    CandidateStarts(a);
    var base := AreaOf(id).address;
    if base <= a < base + Length(id) {
      OwnAddress(id, a - base);
    }
    hide AreaOf, Candidate;
  }

  lemma BankNext(cells: seq<Byte>, ram: seq<seq<Byte>>, id: nat, o: nat, size: nat)
    requires Shaped(ram) && id < NUM_PARAMETERS && o + size <= Length(id) && |cells| == CELLS
    ensures AreaOf(id).address + o + size <= CELLS
    ensures Splice(BankUpTo(cells, ram, id, o), AreaOf(id).address + o, ram[id][o..o + size]) ==
              BankUpTo(cells, ram, id, o + size)
  {
    hide AreaOf, CellUpTo, Candidate, Splice;
    AreaFits(id);
    var at, was := AreaOf(id).address + o, BankUpTo(cells, ram, id, o);
    var saved, now := Splice(was, at, ram[id][o..o + size]), BankUpTo(cells, ram, id, o + size);
    SpliceAt(was, at, ram[id][o..o + size]);
    forall a | 0 <= a < CELLS
      ensures saved[a] == now[a]
    {
      CellNext(ram, id, o, size, a, cells[a]);
    }
    assert saved == now;
  }

  lemma AreaFits(id: nat)
    ensures AreaOf(id).address + Length(id) <= CELLS
  {}

  lemma BankNextParam(cells: seq<Byte>, ram: seq<seq<Byte>>, id: nat)
    requires Shaped(ram)
    ensures BankUpTo(cells, ram, id, Length(id)) == BankUpTo(cells, ram, id + 1, 0)
    ensures BankUpTo(cells, ram, 0, 0) == cells
  {
    hide AreaOf, Candidate;
    forall a | 0 <= a < |cells|
      ensures CellUpTo(ram, id, Length(id), a, cells[a]) == CellUpTo(ram, id + 1, 0, a, cells[a])
      ensures CellUpTo(ram, 0, 0, a, cells[a]) == cells[a]
    {
      CandidateStarts(a);
    }
    assert BankUpTo(cells, ram, 0, 0) == cells;
  }

  /** The bytes of a parameter in a memory. */
  function Stored(cells: seq<Byte>, id: nat): (r: seq<Byte>)
    requires |cells| == CELLS
    ensures |r| == Length(id)
  {
    AreaFits(id);
    cells[AreaOf(id).address..AreaOf(id).address + Length(id)]
  }

  lemma StoredIs(cells: seq<Byte>, id: nat)
    requires |cells| == CELLS
    ensures AreaOf(id).address + Length(id) <= CELLS
    ensures Stored(cells, id) == cells[AreaOf(id).address..AreaOf(id).address + Length(id)]
  {}

  lemma SplicePrefix(region: seq<Byte>, cells: seq<Byte>, o: nat, at: nat, size: nat, length: nat)
    requires o + size <= |region| == length && at + length <= |cells|
    requires region[..o] == cells[at..at + length][..o]
    ensures Splice(region, o, cells[at + o..at + o + size])[..o + size] == cells[at..at + length][..o + size]
  {
    var spliced := Splice(region, o, cells[at + o..at + o + size]);
    forall k | 0 <= k < o + size
      ensures spliced[k] == cells[at + k]
    {
      if k < o {
        assert spliced[k] == region[..o][k];
      }
    }
  }

  /** Nothing overwrites anything: after a save of the bank every parameter reads back. */
  lemma BankReadsBack(cells: seq<Byte>, ram: seq<seq<Byte>>, id: nat)
    requires Shaped(ram) && |cells| == CELLS && id < NUM_PARAMETERS
    ensures Stored(BankImage(cells, ram), id) == ram[id]
  {
    hide AreaOf, Candidate;
    AreaFits(id);
    var base := AreaOf(id).address;
    forall o | 0 <= o < Length(id)
      ensures BankImage(cells, ram)[base + o] == ram[id][o]
    {
      OwnAddress(id, o);
    }
  }

  class Bank {
    /** What init_param records of each parameter, and the bytes its pointer leads to. */
    var sizes: seq<nat>
    var counts: seq<nat>
    var ram: seq<seq<Byte>>
    const scratch: array<Byte>

    ghost predicate Ready()
      reads this
    {
      && scratch.Length == 32
      && |sizes| == |counts| == |ram| == NUM_MAX_PARAMETERS
      && forall id :: 0 <= id < NUM_MAX_PARAMETERS ==>
           counts[id] == AreaOf(id).count && sizes[id] == AreaOf(id).size && |ram[id]| == Length(id)
    }

    ghost predicate Uses(device: Device)
      reads device
    {
      device.Valid() && device.cells != scratch
    }

    /** Whatever the regions of the parameters hold, all of it is zeroed. */
    constructor (regions: seq<seq<Byte>>)
      requires Shaped(regions)
      ensures Ready() && fresh(scratch)
      ensures forall id :: 0 <= id < NUM_MAX_PARAMETERS ==> ram[id] == Zeros(Length(id))
    {
      scratch := new Byte[32](_ => 0);
      sizes, counts := seq(NUM_MAX_PARAMETERS, _ => 0), seq(NUM_MAX_PARAMETERS, _ => 0);
      ram := regions;
      new;
      hide AreaOf, TypeOf;
      for id := 0 to NUM_MAX_PARAMETERS
        invariant |sizes| == |counts| == |ram| == NUM_MAX_PARAMETERS
        invariant forall k :: 0 <= k < id ==>
          counts[k] == AreaOf(k).count && sizes[k] == AreaOf(k).size && ram[k] == Zeros(Length(k))
        invariant forall k :: id <= k < NUM_MAX_PARAMETERS ==>
          counts[k] == sizes[k] == 0 && |ram[k]| == Length(k)
      {
        TypesFit(id);
        InitParam(id, TypeOf(id), AreaOf(id).count);
        assert ram[id] == Zeros(Length(id));
      }
    }

    /** Exactly the bytes of the parameter's elements are zeroed, and its record gives their width. */
    method InitParam(id: nat, t: ParamType, count: nat)
      requires id < |sizes| == |counts| == |ram|
      requires count < 0x100 && Width(t) * count <= |ram[id]|
      modifies this
      ensures |ram| == old(|ram|) && forall k :: 0 <= k < |ram| && k != id ==> ram[k] == old(ram[k])
      ensures |ram[id]| == old(|ram[id]|)
      ensures forall o :: 0 <= o < |ram[id]| ==> ram[id][o] == if o < Width(t) * count then 0 else old(ram[id])[o]
      ensures count > 0 ==> sizes == old(sizes)[id := Width(t)] && counts == old(counts)[id := count]
      ensures count == 0 ==> sizes == old(sizes) && counts == old(counts)
    {
      if count > 0 {
        counts := counts[id := count];
        match t {
          case UInt8 => sizes := sizes[id := 1];
          case UInt16 => sizes := sizes[id := 2];
          case UInt32 => sizes := sizes[id := 4];
          case Float => sizes := sizes[id := 4];
          case PFloat => sizes := sizes[id := 4];
        }
        ZeroElements(id, sizes[id], count);
      }
    }

    method ZeroElements(id: nat, width: nat, count: nat)
      requires id < |ram| && width * count <= |ram[id]|
      modifies `ram
      ensures |ram| == old(|ram|) && forall k :: 0 <= k < |ram| && k != id ==> ram[k] == old(ram[k])
      ensures |ram[id]| == old(|ram[id]|)
      ensures forall o :: 0 <= o < |ram[id]| ==> ram[id][o] == if o < width * count then 0 else old(ram[id])[o]
    {
      hide Splice, Zeros;
      for n := 0 to count
        invariant |ram| == old(|ram|) && forall k :: 0 <= k < |ram| && k != id ==> ram[k] == old(ram[k])
        invariant |ram[id]| == old(|ram[id]|)
        invariant forall o :: 0 <= o < |ram[id]| ==> ram[id][o] == if o < width * n then 0 else old(ram[id])[o]
      {
        var o := width * n;
        assert width * (n + 1) == o + width;
        Mono(width, n + 1, count);
        ZerosAt(width);
        SpliceAt(ram[id], o, Zeros(width));
        ram := ram[id := Splice(ram[id], o, Zeros(width))];
      }
    }

    /** The address of an element into the first two bytes of the scratch buffer. */
    method PutAddress(a: nat)
      requires scratch.Length == 32 && a < CELLS
      modifies scratch
      ensures Join(scratch[0], scratch[1]) == a
    {
      scratch[0], scratch[1] := a / 0x100, a % 0x100;
    }

    method SaveParam(device: Device, id: nat, n: nat) returns (saved: bool)
      requires Ready() && Uses(device) && id < NUM_MAX_PARAMETERS
      modifies device, device.cells, scratch
      ensures Uses(device)
      ensures device.writeProtected == if saved then device.onboard else old(device.writeProtected)
      ensures saved <==> n < AreaOf(id).count
      ensures saved ==>
                var a, o, size := AddressOf(device.onboard, id), AreaOf(id).size * n, AreaOf(id).size;
                && a + o + size <= CELLS && o + size <= |ram[id]|
                && device.cells[..] == Splice(old(device.cells[..]), a + o, ram[id][o..o + size])
      ensures !saved ==> device.cells[..] == old(device.cells[..])
    {
      hide AreaOf, Splice;
      if n < counts[id] {
        ElementInPage(device.onboard, id, n);
        var size := sizes[id];
        var o := size * n;
        PutAddress(AddressOf(device.onboard, id) + o);
        forall k | 0 <= k < size { scratch[2 + k] := ram[id][o + k]; }
        assert scratch[2..2 + size] == ram[id][o..o + size] && device.cells[..] == old(device.cells[..]);
        device.WriteUnprotected(scratch, 2 + size, AddressOf(device.onboard, id) + o, ram[id][o..o + size]);
        return true;
      }
      return false;
    }

    method Fetch(device: Device, a: nat, size: nat) returns (bytes: seq<Byte>)
      requires scratch.Length == 32 && Uses(device) && a + size <= CELLS && a < CELLS && size <= 32
      modifies scratch
      ensures bytes == device.cells[a..a + size]
    {
      hide Join, ReadAddress;
      PutAddress(a);
      ReadWithin(a, size);
      device.Read(scratch, size);
      bytes := scratch[..size];
    }

    method LoadParam(device: Device, id: nat, n: nat) returns (loaded: bool)
      requires Ready() && Uses(device) && id < NUM_MAX_PARAMETERS
      modifies this`ram, scratch
      ensures Ready()
      ensures loaded <==> n < AreaOf(id).count
      ensures loaded ==>
                var a, o, size := AddressOf(device.onboard, id), AreaOf(id).size * n, AreaOf(id).size;
                && a + o + size <= CELLS && o + size <= |old(ram[id])|
                && ram == old(ram)[id := Splice(old(ram[id]), o, device.cells[a + o..a + o + size])]
      ensures !loaded ==> ram == old(ram)
    {
      hide AreaOf, Splice, AddressOf;
      if n < counts[id] {
        ElementInPage(device.onboard, id, n);
        var size := sizes[id];
        var o := size * n;
        var a := AddressOf(device.onboard, id) + o;
        var bytes := Fetch(device, a, size);
        SpliceAt(ram[id], o, bytes);
        ram := ram[id := Splice(ram[id], o, bytes)];
        return true;
      }
      return false;
    }

    method SaveBank(device: Device)
      requires Ready() && Uses(device)
      modifies device, device.cells, scratch
      ensures Uses(device)
      ensures Shaped(ram) && device.cells[..] == BankImage(old(device.cells[..]), ram)
    {
      hide AreaOf, BankUpTo, Splice;
      ghost var was := device.cells[..];
      BankNextParam(was, ram, 0);
      for id := 0 to NUM_PARAMETERS
        invariant Uses(device) && device.cells[..] == BankUpTo(was, ram, id, 0)
      {
        for n := 0 to counts[id]
          invariant Uses(device) && device.cells[..] == BankUpTo(was, ram, id, sizes[id] * n)
        {
          ElementInPage(device.onboard, id, n);
          BankNext(was, ram, id, sizes[id] * n, sizes[id]);
          var saved := SaveParam(device, id, n);
          assert sizes[id] * (n + 1) == sizes[id] * n + sizes[id];
        }
        BankNextParam(was, ram, id);
      }
    }

    method LoadBank(device: Device)
      requires Ready() && Uses(device)
      modifies this`ram, scratch
      ensures Ready()
      ensures forall id :: 0 <= id < NUM_PARAMETERS ==> ram[id] == Stored(device.cells[..], id)
      ensures forall id :: NUM_PARAMETERS <= id < NUM_MAX_PARAMETERS ==> ram[id] == old(ram[id])
    {
      hide AreaOf, Splice, Stored;
      ghost var cells := device.cells[..];
      for id := 0 to NUM_PARAMETERS
        invariant Ready() && device.cells[..] == cells
        invariant forall k :: 0 <= k < id ==> ram[k] == Stored(cells, k)
        invariant forall k :: id <= k < NUM_MAX_PARAMETERS ==> ram[k] == old(ram[k])
      {
        LoadElements(device, id);
      }
    }

    /** All elements of one parameter. */
    method LoadElements(device: Device, id: nat)
      requires Ready() && Uses(device) && id < NUM_PARAMETERS
      modifies this`ram, scratch
      ensures Ready() && ram[id] == Stored(device.cells[..], id)
      ensures forall k :: 0 <= k < NUM_MAX_PARAMETERS && k != id ==> ram[k] == old(ram[k])
    {
      hide AreaOf, Splice, Stored;
      ghost var cells := device.cells[..];
      for n := 0 to counts[id]
        invariant Ready() && device.cells[..] == cells
        invariant forall k :: 0 <= k < NUM_MAX_PARAMETERS && k != id ==> ram[k] == old(ram[k])
        invariant sizes[id] * n <= Length(id) && ram[id][..sizes[id] * n] == Stored(cells, id)[..sizes[id] * n]
      {
        ElementInPage(device.onboard, id, n);
        AreaFits(id);
        StoredIs(cells, id);
        SplicePrefix(ram[id], cells, sizes[id] * n, AreaOf(id).address, sizes[id], Length(id));
        var loaded := LoadParam(device, id, n);
        assert sizes[id] * (n + 1) == sizes[id] * n + sizes[id];
      }
    }
  }

  /** The types by which the parameters are registered are as wide as the address tables take them to
      be. */
  lemma TypesFit(id: nat)
    ensures AreaOf(id).count > 0 ==> Width(TypeOf(id)) == AreaOf(id).size && AreaOf(id).count < 0x100
    ensures AreaOf(id).count == 0 ==> AreaOf(id).size == 0
  {}

  // ----- The coefficients of the DSP modules -----

  const NUM_DSP_CLASSES := 8
  const DSP_ERROR := 0
  const DSP_IIR_3P3Z := 5
  const DSP_VECT_PRODUCT := 7

  /** By class: address, bytes of one set of coefficients (four a coefficient, counted in one byte),
      number of modules. */
  function DspAreaOf(dspClass: nat): Area {
    match dspClass
    case 0 => Area(0x1FE0, 0, 4) // DSP_Error
    case 1 => Area(0x0C00, 4, 4) // DSP_SRLim
    case 2 => Area(0x0C20, 4, 4) // DSP_LPF
    case 3 => Area(0x0C40, 16, 6) // DSP_PI
    case 4 => Area(0x0CE0, 32, 8) // DSP_IIR_2P2Z
    case 5 => Area(0x0DE0, 64, 4) // DSP_IIR_3P3Z
    case 6 => Area(0x0EE0, 8, 2) // DSP_VdcLink_FeedForward
    case _ => Area(0x1FE0, 4 * 146 % 0x100, 2) // DSP_Vect_Product
  }

  /** The classes whose coefficients are kept; the others are turned away. */
  predicate Kept(dspClass: nat) { DSP_ERROR < dspClass < DSP_VECT_PRODUCT }

  function DspCandidate(a: nat): (c: nat)
    ensures Kept(c)
  {
    if a < 0x0C20 then 1 else if a < 0x0C40 then 2 else if a < 0x0CE0 then 3 else if a < 0x0DE0 then 4
    else if a < 0x0EE0 then 5 else 6
  }

  predicate InDsp(a: nat) {
    var area := DspAreaOf(DspCandidate(a));
    area.address <= a < area.address + area.size * area.count
  }

  /** Each byte of each set has its own address. */
  lemma OwnDspAddress(dspClass: nat, i: nat, k: nat)
    requires Kept(dspClass) && i < DspAreaOf(dspClass).count && k < DspAreaOf(dspClass).size
    ensures
      var area := DspAreaOf(dspClass);
      var a := area.address + area.size * i + k;
      && 0x0C00 <= a < 0x0EF0 && InDsp(a) && DspCandidate(a) == dspClass
      && (a - area.address) / area.size == i && (a - area.address) % area.size == k
  {
    DspWithin(dspClass, i);
    Quotient(DspAreaOf(dspClass).size * i + k, DspAreaOf(dspClass).size, i, k);
  }

  lemma DspWithin(dspClass: nat, i: nat)
    requires Kept(dspClass) && i < DspAreaOf(dspClass).count
    ensures 0x0C00 <= DspAreaOf(dspClass).address
    ensures DspAreaOf(dspClass).address + DspAreaOf(dspClass).size * i + DspAreaOf(dspClass).size <=
              DspAreaOf(dspClass).address + DspAreaOf(dspClass).size * DspAreaOf(dspClass).count <= 0x0EF0
  {
    Mono(DspAreaOf(dspClass).size, i + 1, DspAreaOf(dspClass).count);
  }

  lemma DspIndex(a: nat)
    requires InDsp(a)
    ensures
      var area := DspAreaOf(DspCandidate(a));
      && area.size > 0 && 0 <= (a - area.address) / area.size
      && (a - area.address) / area.size < area.count && (a - area.address) % area.size < area.size
      && a == area.address + area.size * ((a - area.address) / area.size) + (a - area.address) % area.size
  {
    var area := DspAreaOf(DspCandidate(a));
    assert area.size > 0;
    hide DspAreaOf, DspCandidate;
    DivBounds(a - area.address, area.size, 0, area.count);
  }

  /** Coefficient sets by class and module. */
  predicate DspShaped(coeffs: seq<seq<seq<Byte>>>) {
    && |coeffs| == NUM_DSP_CLASSES
    && (forall c :: 0 <= c < NUM_DSP_CLASSES ==> |coeffs[c]| == DspAreaOf(c).count)
    && (forall c, i :: 0 <= c < NUM_DSP_CLASSES && Kept(c) && 0 <= i < |coeffs[c]| ==>
          |coeffs[c][i]| == DspAreaOf(c).size)
  }

  /** What is in a cell once the classes below `dspClass` and its first `count` sets have been saved. */
  function DspCellUpTo(coeffs: seq<seq<seq<Byte>>>, dspClass: nat, count: nat, a: nat, was: Byte): Byte
    requires DspShaped(coeffs)
  {
    var owner := DspCandidate(a);
    var area := DspAreaOf(owner);
    if InDsp(a) then
      DspIndex(a);
      var i := (a - area.address) / area.size;
      if owner < dspClass || (owner == dspClass && i < count)
      then coeffs[owner][i][(a - area.address) % area.size]
      else was
    else was
  }

  function DspUpTo(cells: seq<Byte>, coeffs: seq<seq<seq<Byte>>>, dspClass: nat, count: nat): (r: seq<Byte>)
    requires DspShaped(coeffs)
    ensures |r| == |cells|
  {
    seq(|cells|, a requires 0 <= a < |cells| => DspCellUpTo(coeffs, dspClass, count, a, cells[a]))
  }

  /** A memory after a save of the DSP modules. */
  function DspImage(cells: seq<Byte>, coeffs: seq<seq<seq<Byte>>>): (r: seq<Byte>)
    requires DspShaped(coeffs)
    ensures |r| == |cells|
  {
    DspUpTo(cells, coeffs, NUM_DSP_CLASSES, 0)
  }

  lemma DspCellNext(coeffs: seq<seq<seq<Byte>>>, dspClass: nat, i: nat, a: nat, was: Byte)
    requires DspShaped(coeffs) && Kept(dspClass) && i < |coeffs[dspClass]|
    ensures
      var at := DspAreaOf(dspClass).address + DspAreaOf(dspClass).size * i;
      DspCellUpTo(coeffs, dspClass, i + 1, a, was) ==
      if at <= a < at + DspAreaOf(dspClass).size then coeffs[dspClass][i][a - at]
      else DspCellUpTo(coeffs, dspClass, i, a, was)
  {
    var area := DspAreaOf(dspClass);
    var at := area.address + area.size * i;
    if at <= a < at + area.size {
      OwnDspAddress(dspClass, i, a - at);
    }
    if InDsp(a) {
      DspIndex(a);
    }
    hide DspAreaOf, DspCandidate;
  }

  lemma DspNext(cells: seq<Byte>, coeffs: seq<seq<seq<Byte>>>, dspClass: nat, i: nat)
    requires DspShaped(coeffs) && Kept(dspClass) && i < |coeffs[dspClass]| && |cells| == CELLS
    ensures DspAreaOf(dspClass).address + DspAreaOf(dspClass).size * i + DspAreaOf(dspClass).size <= CELLS
    ensures Splice(DspUpTo(cells, coeffs, dspClass, i), DspAreaOf(dspClass).address + DspAreaOf(dspClass).size * i,
                   coeffs[dspClass][i]) == DspUpTo(cells, coeffs, dspClass, i + 1)
  {
    DspWithin(dspClass, i);
    hide DspAreaOf, DspCellUpTo, DspCandidate, Splice;
    var at, was := DspAreaOf(dspClass).address + DspAreaOf(dspClass).size * i, DspUpTo(cells, coeffs, dspClass, i);
    var saved, now := Splice(was, at, coeffs[dspClass][i]), DspUpTo(cells, coeffs, dspClass, i + 1);
    SpliceAt(was, at, coeffs[dspClass][i]);
    forall a | 0 <= a < CELLS
      ensures saved[a] == now[a]
    {
      DspCellNext(coeffs, dspClass, i, a, cells[a]);
    }
    assert saved == now;
  }

  lemma DspNextClass(cells: seq<Byte>, coeffs: seq<seq<seq<Byte>>>, dspClass: nat)
    requires DspShaped(coeffs) && dspClass < NUM_DSP_CLASSES
    ensures DspUpTo(cells, coeffs, dspClass, |coeffs[dspClass]|) == DspUpTo(cells, coeffs, dspClass + 1, 0)
    ensures !Kept(dspClass) ==> forall n: nat :: n <= |coeffs[dspClass]| ==>
              DspUpTo(cells, coeffs, dspClass, n) == DspUpTo(cells, coeffs, dspClass, 0)
    ensures DspUpTo(cells, coeffs, 0, 0) == cells
  {
    hide DspAreaOf;
    forall a, n: nat | 0 <= a < |cells| && n <= |coeffs[dspClass]|
      ensures DspCellUpTo(coeffs, dspClass, |coeffs[dspClass]|, a, cells[a]) ==
                DspCellUpTo(coeffs, dspClass + 1, 0, a, cells[a])
      ensures DspCellUpTo(coeffs, 0, 0, a, cells[a]) == cells[a]
      ensures !Kept(dspClass) ==>
                DspCellUpTo(coeffs, dspClass, n, a, cells[a]) == DspCellUpTo(coeffs, dspClass, 0, a, cells[a])
    {
      if InDsp(a) {
        DspIndex(a);
      }
    }
    assert DspUpTo(cells, coeffs, 0, 0) == cells;
  }

  /** One set of coefficients in a memory. */
  function StoredSet(cells: seq<Byte>, dspClass: nat, i: nat): (r: seq<Byte>)
    requires |cells| == CELLS && Kept(dspClass) && i < DspAreaOf(dspClass).count
    ensures |r| == DspAreaOf(dspClass).size
  {
    DspWithin(dspClass, i);
    var at := DspAreaOf(dspClass).address + DspAreaOf(dspClass).size * i;
    cells[at..at + DspAreaOf(dspClass).size]
  }

  lemma DspReadsBack(cells: seq<Byte>, coeffs: seq<seq<seq<Byte>>>, dspClass: nat, i: nat)
    requires DspShaped(coeffs) && |cells| == CELLS && Kept(dspClass) && i < |coeffs[dspClass]|
    ensures StoredSet(DspImage(cells, coeffs), dspClass, i) == coeffs[dspClass][i]
  {
    DspWithin(dspClass, i);
    hide DspAreaOf, DspCandidate;
    var at := DspAreaOf(dspClass).address + DspAreaOf(dspClass).size * i;
    forall k | 0 <= k < DspAreaOf(dspClass).size
      ensures DspImage(cells, coeffs)[at + k] == coeffs[dspClass][i][k]
    {
      OwnDspAddress(dspClass, i, k);
    }
  }

  lemma SpliceTwice(cells: seq<Byte>, a: nat, data: seq<Byte>, m: nat)
    requires a + |data| <= |cells| && m <= |data|
    ensures Splice(Splice(cells, a, data[..m]), a + m, data[m..]) == Splice(cells, a, data)
  {
    var first := Splice(cells, a, data[..m]);
    SpliceAt(cells, a, data[..m]);
    SpliceAt(first, a + m, data[m..]);
    SpliceAt(cells, a, data);
    hide Splice;
    assert Splice(first, a + m, data[m..]) == Splice(cells, a, data);
  }

  /** Every burst of a set lies within one page: sets of up to 32 bytes whole, larger ones in two. */
  lemma SetInPages(dspClass: nat, i: nat)
    requires Kept(dspClass) && i < DspAreaOf(dspClass).count
    ensures
      var size := DspAreaOf(dspClass).size;
      var a := DspAreaOf(dspClass).address + size * i;
      && a + size <= CELLS && 0 < size <= 64
      && (size <= 32 ==> a % PAGE + size <= PAGE)
      && (size > 32 ==> a % PAGE == 0)
  {
    DspWithin(dspClass, i);
  }

  /** A set and the two address bytes before it need at most 66 bytes, and more than the 64 of the
      declared buffer exactly for the third-order filters. */
  lemma ScratchNeeded(dspClass: nat)
    requires Kept(dspClass)
    ensures 2 + DspAreaOf(dspClass).size <= 66
    ensures 2 + DspAreaOf(dspClass).size > 64 <==> dspClass == DSP_IIR_3P3Z
  {}

  class Coefficients {
    /** The coefficients of each module, and a scratch buffer with room for a set after the address. */
    var coeffs: seq<seq<seq<Byte>>>
    const scratch: array<Byte>

    ghost predicate Ready()
      reads this
    {
      scratch.Length == 66 && DspShaped(coeffs)
    }

    ghost predicate Uses(device: Device)
      reads device
    {
      device.Valid() && device.cells != scratch
    }

    method PutAddress(a: nat)
      requires scratch.Length == 66
      modifies scratch
      ensures a < CELLS ==> Join(scratch[0], scratch[1]) == a
      ensures forall k :: 2 <= k < 66 ==> scratch[k] == old(scratch[k])
    {
      scratch[0], scratch[1] := a / 0x100 % 0x100, a % 0x100;
    }

    method PutData(val: seq<Byte>)
      requires scratch.Length == 66 && |val| <= 64
      modifies scratch
      ensures scratch[0] == old(scratch[0]) && scratch[1] == old(scratch[1])
      ensures forall k :: 0 <= k < |val| ==> scratch[2 + k] == val[k]
    {
      forall k | 0 <= k < |val| { scratch[2 + k] := val[k]; }
    }

    method SaveSet(device: Device, dspClass: nat, id: nat) returns (saved: bool)
      requires Ready() && Uses(device) && dspClass < NUM_DSP_CLASSES && (Kept(dspClass) ==> id < |coeffs[dspClass]|)
      modifies device, device.cells, scratch
      ensures Uses(device)
      ensures device.writeProtected == if saved then device.onboard else old(device.writeProtected)
      ensures saved <==> Kept(dspClass)
      ensures saved ==>
                var a := DspAreaOf(dspClass).address + DspAreaOf(dspClass).size * id;
                && a + |coeffs[dspClass][id]| <= CELLS
                && device.cells[..] == Splice(old(device.cells[..]), a, coeffs[dspClass][id])
      ensures !saved ==> device.cells[..] == old(device.cells[..])
    {
      hide DspAreaOf, Splice;
      var size := DspAreaOf(dspClass).size;
      var a := DspAreaOf(dspClass).address + size * id;
      PutAddress(a);
      if !Kept(dspClass) {
        assert device.cells[..] == old(device.cells[..]);
        return false;
      }
      SetInPages(dspClass, id);
      var val := coeffs[dspClass][id];
      assert |val| == size;
      PutData(val);
      SaveBursts(device, a, val);
      saved := true;
    }

    /** The bytes after the address, whole or in two bursts. */
    method SaveBursts(device: Device, a: nat, val: seq<Byte>)
      requires scratch.Length == 66 && Uses(device) && a + |val| <= CELLS && 0 < |val| <= 64
      requires if |val| <= 32 then a % PAGE + |val| <= PAGE else a % PAGE == 0
      requires Join(scratch[0], scratch[1]) == a && forall k :: 0 <= k < |val| ==> scratch[2 + k] == val[k]
      modifies device, device.cells, scratch
      ensures Uses(device) && device.cells[..] == Splice(old(device.cells[..]), a, val)
      ensures device.writeProtected == device.onboard
    {
      hide Splice, Join;
      ghost var was := device.cells[..];
      if |val| > 32 {
        assert scratch[2..2 + 32] == val[..32];
        device.WriteUnprotected(scratch, 2 + 32, a, val[..32]);
        SaveRest(device, a + 32, |val| - 32, val[32..]);
        SpliceTwice(was, a, val, 32);
      } else {
        assert scratch[2..2 + |val|] == val;
        device.WriteUnprotected(scratch, 2 + |val|, a, val);
      }
    }

    /** The second burst: the address moved on, the remaining bytes moved down over the first. */
    method SaveRest(device: Device, a: nat, size: nat, ghost rest: seq<Byte>)
      requires scratch.Length == 66 && Uses(device) && a < CELLS && a % PAGE == 0 && size <= 32
      requires |rest| == size && forall k :: 0 <= k < size ==> scratch[34 + k] == rest[k]
      modifies device, device.cells, scratch
      ensures Uses(device) && device.writeProtected == device.onboard
      ensures a + size <= CELLS && device.cells[..] == Splice(old(device.cells[..]), a, rest)
    {
      hide Splice;
      PutAddress(a);
      forall k | 0 <= k < size { scratch[2 + k] := scratch[34 + k]; }
      assert scratch[2..2 + size] == rest && device.cells[..] == old(device.cells[..]);
      device.WriteUnprotected(scratch, 2 + size, a, rest);
    }

    method Fetch(device: Device, a: nat, size: nat) returns (bytes: seq<Byte>)
      requires scratch.Length == 66 && Uses(device) && a + size <= CELLS && a < CELLS && size <= 32
      modifies scratch
      ensures bytes == device.cells[a..a + size]
    {
      hide Join, ReadAddress;
      PutAddress(a);
      ReadWithin(a, size);
      device.Read(scratch, size);
      bytes := scratch[..size];
    }

    method LoadSet(device: Device, dspClass: nat, id: nat) returns (loaded: bool)
      requires Ready() && Uses(device) && dspClass < NUM_DSP_CLASSES && (Kept(dspClass) ==> id < |coeffs[dspClass]|)
      modifies this`coeffs, scratch
      ensures Ready()
      ensures loaded <==> Kept(dspClass)
      ensures loaded ==>
                var set' := StoredSet(device.cells[..], dspClass, id);
                coeffs == old(coeffs)[dspClass := old(coeffs)[dspClass][id := set']]
      ensures !loaded ==> coeffs == old(coeffs)
    {
      hide DspAreaOf;
      var size := DspAreaOf(dspClass).size;
      var a := DspAreaOf(dspClass).address + size * id;
      if !Kept(dspClass) {
        return false;
      }
      SetInPages(dspClass, id);
      var val;
      if size > 32 {
        val := Fetch(device, a, 32);
        var rest := Fetch(device, a + 32, size - 32);
        val := val + rest;
      } else {
        val := Fetch(device, a, size);
      }
      assert val == StoredSet(device.cells[..], dspClass, id);
      coeffs := coeffs[dspClass := coeffs[dspClass][id := val]];
      loaded := true;
    }

    method SaveModules(device: Device)
      requires Ready() && Uses(device)
      modifies device, device.cells, scratch
      ensures Uses(device)
      ensures device.cells[..] == DspImage(old(device.cells[..]), coeffs)
    {
      hide DspAreaOf, DspUpTo, Splice;
      ghost var was := device.cells[..];
      DspNextClass(was, coeffs, 0);
      for c := 0 to NUM_DSP_CLASSES
        invariant Uses(device) && device.cells[..] == DspUpTo(was, coeffs, c, 0)
      {
        DspNextClass(was, coeffs, c);
        for id := 0 to |coeffs[c]|
          invariant Uses(device) && device.cells[..] == DspUpTo(was, coeffs, c, id)
        {
          var saved := SaveSet(device, c, id);
          if saved {
            DspNext(was, coeffs, c, id);
          }
        }
      }
    }

    method LoadModules(device: Device)
      requires Ready() && Uses(device)
      modifies this`coeffs, scratch
      ensures Ready()
      ensures forall c, i :: 0 <= c < NUM_DSP_CLASSES && Kept(c) && 0 <= i < |coeffs[c]| ==>
                coeffs[c][i] == StoredSet(device.cells[..], c, i)
    {
      hide DspAreaOf, StoredSet;
      ghost var cells := device.cells[..];
      for c := 0 to NUM_DSP_CLASSES
        invariant Ready() && device.cells[..] == cells
        invariant forall k, i :: 0 <= k < c && Kept(k) && 0 <= i < |coeffs[k]| ==>
          coeffs[k][i] == StoredSet(cells, k, i)
      {
        for id := 0 to |coeffs[c]|
          invariant Ready() && device.cells[..] == cells
          invariant forall k, i :: 0 <= k < c && Kept(k) && 0 <= i < |coeffs[k]| ==>
            coeffs[k][i] == StoredSet(cells, k, i)
          invariant Kept(c) ==> forall i :: 0 <= i < id ==> coeffs[c][i] == StoredSet(cells, c, i)
        {
          var loaded := LoadSet(device, c, id);
        }
      }
    }
  }

  // ----- Both in one memory -----

  /** Neither save touches a cell of the other, nor the last three cells, where the password and the
      flag for the onboard memory live. */
  lemma SavesApart(a: nat)
    ensures InBank(a) ==> a < 0x0760
    ensures InDsp(a) ==> 0x0C00 <= a < 0x0EF0
    ensures AreaOf(PASSWORD).address == 0x1FFD && AreaOf(ENABLE_ONBOARD_EEPROM).address == 0x1FFF
  {
    CandidateStarts(a);
    if InBank(a) {
      OwnAddress(Candidate(a), a - AreaOf(Candidate(a)).address);
    }
    if InDsp(a) {
      DspIndex(a);
      var area := DspAreaOf(DspCandidate(a));
      DspWithin(DspCandidate(a), (a - area.address) / area.size);
    }
  }

  /** In either order the memory ends up the same, everything reads back, and the password and the
      flag are what they were. */
  lemma SavesCommute(cells: seq<Byte>, ram: seq<seq<Byte>>, coeffs: seq<seq<seq<Byte>>>)
    requires Shaped(ram) && DspShaped(coeffs) && |cells| == CELLS
    ensures
      var saved := BankImage(DspImage(cells, coeffs), ram);
      && saved == DspImage(BankImage(cells, ram), coeffs)
      && (forall id :: 0 <= id < NUM_PARAMETERS ==> Stored(saved, id) == ram[id])
      && (forall c, i :: 0 <= c < NUM_DSP_CLASSES && Kept(c) && 0 <= i < |coeffs[c]| ==>
            StoredSet(saved, c, i) == coeffs[c][i])
      && saved[0x0EF0..] == cells[0x0EF0..]
  {
    var saved := BankImage(DspImage(cells, coeffs), ram);
    forall a | 0 <= a < CELLS
      ensures InBank(a) ==> a < 0x0760
      ensures InDsp(a) ==> 0x0C00 <= a < 0x0EF0
    {
      SavesApart(a);
    }
    assert saved == DspImage(BankImage(cells, ram), coeffs);
    forall id | 0 <= id < NUM_PARAMETERS
      ensures Stored(saved, id) == ram[id]
    {
      BankReadsBack(DspImage(cells, coeffs), ram, id);
    }
    forall c, i | 0 <= c < NUM_DSP_CLASSES && Kept(c) && 0 <= i < |coeffs[c]|
      ensures StoredSet(saved, c, i) == coeffs[c][i]
    {
      DspReadsBack(BankImage(cells, ram), coeffs, c, i);
    }
  }

  predicate Disjoint(a: nat, m: nat, b: nat, n: nat) { a + m <= b || b + n <= a }

  /** The parameters that share the first address of the offboard memory. */
  predicate AtOffboardStart(id: nat) { id == PS_NAME || id >= PASSWORD }

  /** No two parameters share a byte of the onboard memory, and on the offboard memory only the name,
      the password and the flag do, each with each. */
  lemma ParametersApart(onboard: bool, id: nat, other: nat)
    requires AreaOf(id).count > 0 && AreaOf(other).count > 0 && id != other
    ensures Disjoint(AddressOf(onboard, id), Length(id), AddressOf(onboard, other), Length(other)) <==>
              onboard || !(AtOffboardStart(id) && AtOffboardStart(other))
  {
    hide AreaOf, Candidate;
    if id < PASSWORD && other < PASSWORD {
      BankApart(id, other);
    } else if id < PASSWORD {
      LastTwo(other, id);
    } else {
      LastTwo(id, other);
    }
  }

  lemma BankApart(id: nat, other: nat)
    requires id < PASSWORD && other < PASSWORD && AreaOf(id).count > 0 && AreaOf(other).count > 0 && id != other
    ensures Disjoint(AreaOf(id).address, Length(id), AreaOf(other).address, Length(other))
  {
    hide AreaOf, Candidate;
    IdInBank(id);
    IdInBank(other);
    AreaAligned(id);
    AreaAligned(other);
    var a, b := AreaOf(id).address, AreaOf(other).address;
    if a <= b < a + Length(id) {
      OwnAddress(id, b - a);
      OwnAddress(other, 0);
    }
    if b <= a < b + Length(other) {
      OwnAddress(id, 0);
      OwnAddress(other, a - b);
    }
  }

  lemma IdInBank(id: nat)
    requires id < PASSWORD && AreaOf(id).count > 0
    ensures id < NUM_PARAMETERS
  {}

  lemma LastTwo(id: nat, other: nat)
    requires id >= PASSWORD && AreaOf(id).count > 0 && AreaOf(other).count > 0 && id != other
    ensures 0x1FFD <= AreaOf(id).address && 1 <= Length(id) <= 2
    ensures other == PS_NAME ==> AreaOf(other).address == 0 && Length(other) == 64
    ensures PS_NAME < other < PASSWORD ==> 64 <= AreaOf(other).address
    ensures other < PASSWORD ==> AreaOf(other).address + Length(other) <= 0x0760
    ensures other >= PASSWORD ==> 1 <= Length(other) <= 2
    ensures other >= PASSWORD ==> Disjoint(AreaOf(id).address, Length(id), AreaOf(other).address, Length(other))
  {
    if other < PASSWORD {
      OwnAddress(other, Length(other) - 1);
    }
  }

  /** Saved offboard, the flag replaces the first byte of the password saved before it. */
  method FlagOverwritesPassword(bank: Bank, device: Device)
    requires bank.Ready() && bank.Uses(device) && !device.onboard
    modifies bank`ram, device, device.cells, bank.scratch
    ensures bank.Ready()
    ensures |old(bank.ram[ENABLE_ONBOARD_EEPROM])| == 1 && |old(bank.ram[PASSWORD])| == 2
    ensures bank.ram[PASSWORD] == [old(bank.ram[ENABLE_ONBOARD_EEPROM])[0], old(bank.ram[PASSWORD])[1]]
  {
    hide AreaOf, AddressOf, Splice;
    LastTwoOffboard();
    ghost var password, flag := bank.ram[PASSWORD], bank.ram[ENABLE_ONBOARD_EEPROM];
    Overwritten(device.cells[..], password, flag);
    var saved := bank.SaveParam(device, PASSWORD, 0);
    saved := bank.SaveParam(device, ENABLE_ONBOARD_EEPROM, 0);
    assert device.cells[0..2] == device.cells[..][0..2];
    saved := bank.LoadParam(device, PASSWORD, 0);
  }

  lemma Overwritten(cells: seq<Byte>, two: seq<Byte>, one: seq<Byte>)
    requires |cells| == CELLS && |two| == 2 && |one| == 1
    ensures two[0..2] == two && one[0..1] == one
    ensures Splice(Splice(cells, 0, two), 0, one)[0..2] == [one[0], two[1]]
    ensures Splice(two, 0, [one[0], two[1]]) == [one[0], two[1]]
  {}

  lemma LastTwoOffboard()
    ensures AddressOf(false, PASSWORD) == AddressOf(false, ENABLE_ONBOARD_EEPROM) == 0
    ensures AreaOf(PASSWORD).size == 2 && AreaOf(PASSWORD).count == 1
    ensures AreaOf(ENABLE_ONBOARD_EEPROM).size == AreaOf(ENABLE_ONBOARD_EEPROM).count == 1
  {}

  /** A bank and its coefficients saved to one memory in either order, lost, and loaded again. */
  method SaveLoseLoad(bank: Bank, dsp: Coefficients, device: Device, bankFirst: bool,
                      ram: seq<seq<Byte>>, coeffs: seq<seq<seq<Byte>>>)
    requires bank.Ready() && dsp.Ready() && bank.Uses(device) && dsp.Uses(device) && bank.scratch != dsp.scratch
    requires Shaped(ram) && DspShaped(coeffs)
    modifies bank`ram, dsp`coeffs, device, device.cells, bank.scratch, dsp.scratch
    ensures bank.Ready() && dsp.Ready() && device.Valid()
    ensures forall id :: 0 <= id < NUM_PARAMETERS ==> bank.ram[id] == old(bank.ram)[id]
    ensures forall c, i :: 0 <= c < NUM_DSP_CLASSES && Kept(c) && 0 <= i < |dsp.coeffs[c]| ==>
              dsp.coeffs[c][i] == old(dsp.coeffs)[c][i]
    ensures device.cells[0x0EF0..] == old(device.cells[0x0EF0..])
  {
    hide AreaOf, DspAreaOf, BankImage, DspImage, Stored, StoredSet;
    SavesCommute(device.cells[..], bank.ram, dsp.coeffs);
    ghost var cells := device.cells[..];
    assert cells[0x0EF0..] == device.cells[0x0EF0..];
    if bankFirst {
      bank.SaveBank(device);
      dsp.SaveModules(device);
    } else {
      dsp.SaveModules(device);
      bank.SaveBank(device);
    }
    assert device.cells[0x0EF0..] == device.cells[..][0x0EF0..];
    bank.ram, dsp.coeffs := ram, coeffs;
    bank.LoadBank(device);
    dsp.LoadModules(device);
  }
}
