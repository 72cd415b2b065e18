/** The block-device table: whole disks and the partitions that are windows into them.
    `Table` is the value of the static tables; `BlockLayer` is the mutable object. */
module BlkDev {
  import opened Common

  const SLOTS: nat := 136
  const PARTS_PER_DISK: nat := 16
  const NAME_MAX: nat := 16

  datatype Device = Device(name: string, id: nat, maxLba: u32, parent: Option<nat>, start: u32, partNo: u32)

  const ZERO_DEVICE := Device("", 0, 0, None, 0, 0)

  datatype Table = Table(devices: seq<Device>, used: seq<bool>, count: int, boot: Option<nat>)

  /** A physical sector: the disk's slot and the sector number on it. */
  datatype Loc = Loc(disk: nat, lba: nat)

  type Sector = seq<byte>

  // ---------------------------------------------------------------- the table

  function FreeFlags(t: Table): (f: seq<bool>)
    ensures |f| == |t.used|
  { seq(|t.used|, i requires 0 <= i < |t.used| => !t.used[i]) }

  function NameFlags(t: Table, name: string): (f: seq<bool>)
    requires |t.used| == |t.devices|
    ensures |f| == |t.used|
  { seq(|t.used|, i requires 0 <= i < |t.used| => t.used[i] && t.devices[i].name == name) }

  function DiskFlags(t: Table): (f: seq<bool>)
    requires |t.used| == |t.devices|
    ensures |f| == |t.used|
  { seq(|t.used|, i requires 0 <= i < |t.used| => t.used[i] && t.devices[i].parent.None?) }

  function PartFlags(t: Table, disk: nat): (f: seq<bool>)
    requires |t.used| == |t.devices|
    ensures |f| == |t.used|
  { seq(|t.used|, i requires 0 <= i < |t.used| => t.used[i] && t.devices[i].parent == Some(disk)) }

  ghost predicate Shape(t: Table) { |t.devices| == |t.used| == SLOTS }

  ghost predicate SlotOk(t: Table, i: nat)
    requires Shape(t) && i < SLOTS
  {
    var d := t.devices[i];
    if !t.used[i] then d == ZERO_DEVICE
    else
      && d.id == i && d.maxLba > 0 && |d.name| <= NAME_MAX - 1
      && match d.parent
         case None => d.start == 0 && d.partNo == 0
         case Some(p) =>
           && p < SLOTS && t.used[p] && t.devices[p].parent.None? && d.partNo > 0
           && d.start + d.maxLba <= t.devices[p].maxLba
  }

  /** What every operation keeps: ids are slot numbers, free slots are blank, each live
      partition lies inside a live whole disk, the count is the number of live slots, and
      there is a boot device (a live whole disk) exactly when some whole disk is live. */
  ghost predicate Inv(t: Table) {
    && Shape(t)
    && (forall i: nat | i < SLOTS :: SlotOk(t, i))
    && t.count == Count(t.used)
    && (forall p: nat | p < SLOTS :: Count(PartFlags(t, p)) <= PARTS_PER_DISK)
    && (t.boot.Some? ==> t.boot.value < SLOTS && t.used[t.boot.value] && t.devices[t.boot.value].parent.None?)
    && (t.boot.None? ==> forall i: nat | i < SLOTS :: !(t.used[i] && t.devices[i].parent.None?))
  }

  function Empty(): Table {
    Table(seq(SLOTS, _ => ZERO_DEVICE), seq(SLOTS, _ => false), 0, None)
  }

  function Truncate(name: string): string {
    if |name| <= NAME_MAX - 1 then name else name[..NAME_MAX - 1]
  }

  function Decimal(n: nat): string {
    if n < 10 then [(n as char) + '0'] else Decimal(n / 10) + [((n % 10) as char) + '0']
  }

  predicate EndsInDigit(name: string) { |name| > 0 && '0' <= name[|name| - 1] <= '9' }

  /** What is written for "<disk><n>", or "<disk>p<n>" when the disk name ends in a digit. The
      letters and the digits stop before the end of the buffer; the 'p' does not. */
  function PartitionName(disk: string, partNo: nat): string {
    var stem := Truncate(disk) + if EndsInDigit(disk) then "p" else "";
    var room := if |stem| < NAME_MAX - 1 then NAME_MAX - 1 - |stem| else 0;
    var num := Decimal(partNo);
    stem + if |num| <= room then num else num[..room]
  }

  /** The written name and its terminator fit the 16-byte buffer, if and only if the disk's name
      does not have 15 characters and end in a digit; in that case what is kept of it is the
      disk's own name. */
  lemma PartitionNameFits(disk: string, partNo: nat)
    requires |disk| <= NAME_MAX - 1
    ensures |PartitionName(disk, partNo)| + 1 <= NAME_MAX <==> !(|disk| == NAME_MAX - 1 && EndsInDigit(disk))
    ensures |PartitionName(disk, partNo)| + 1 > NAME_MAX ==> Truncate(PartitionName(disk, partNo)) == disk
  {}

  /** A partition that is added has its disk's name in exactly that case. */
  lemma NameOfPartition(t: Table, disk: nat, partNo: u32, start: u32, len: u32)
    requires Inv(t) && disk < SLOTS && t.used[disk] && AddPartition(t, disk, partNo, start, len).1.Some?
    ensures var (t', i) := AddPartition(t, disk, partNo, start, len);
      var name := t.devices[disk].name;
      t'.devices[i.value].name == name <==> |name| == NAME_MAX - 1 && EndsInDigit(name)
  {
    var name, written := t.devices[disk].name, PartitionName(t.devices[disk].name, partNo);
    assert SlotOk(t, disk);
    PartitionNameFits(name, partNo);
    assert !NameFlags(t, written)[disk];
  }

  function PutDevice(t: Table, i: nat, d: Device): Table
    requires Shape(t) && i < SLOTS
  {
    t.(devices := t.devices[i := d], used := t.used[i := true], count := t.count + 1)
  }

  function Register(t: Table, name: string, maxLba: u32, callbacks: bool): (Table, int)
    requires Shape(t)
  {
    if name == "" || !callbacks then (t, -1)
    else if First(NameFlags(t, name)).Some? then (t, -3)
    else if maxLba == 0 then (t, -1)
    else match First(FreeFlags(t))
      case None => (t, -2)
      case Some(i) =>
        var t1 := PutDevice(t, i, Device(Truncate(name), i, maxLba, None, 0, 0));
        (if t.boot.None? then t1.(boot := Some(i)) else t1, 0)
  }

  function ClearPartitions(t: Table, disk: nat): Table
    requires Shape(t)
  {
    var gone := PartFlags(t, disk);
    t.(devices := seq(SLOTS, i requires 0 <= i < SLOTS => if gone[i] then ZERO_DEVICE else t.devices[i]),
       used := seq(SLOTS, i requires 0 <= i < SLOTS => t.used[i] && !gone[i]),
       count := t.count - Count(gone))
  }

  function DropSlot(t: Table, i: nat): Table
    requires Shape(t) && i < SLOTS
  {
    var t1 := t.(devices := t.devices[i := ZERO_DEVICE], used := t.used[i := false], count := t.count - 1);
    t1.(boot := First(DiskFlags(t1)))
  }

  lemma DropSlotIs(t: Table, t': Table, i: nat)
    requires Shape(t) && Shape(t') && i < SLOTS && t'.devices == t.devices[i := ZERO_DEVICE]
      && t'.used == t.used[i := false]
    requires t'.count == t.count - 1 && t'.boot == First(DiskFlags(t'))
    ensures t' == DropSlot(t, i)
  {
    hide First;
    var t1 := t.(devices := t.devices[i := ZERO_DEVICE], used := t.used[i := false], count := t.count - 1);
    assert DiskFlags(t1) == DiskFlags(t');
  }

  function Unregister(t: Table, name: string): Table
    requires Shape(t)
  {
    match First(NameFlags(t, name))
    case None => t
    case Some(i) => if t.devices[i].parent.Some? then t else DropSlot(ClearPartitions(t, i), i)
  }

  /** `disk` is a pointer into the table that may be stale: a freed slot is blank. */
  function AddPartition(t: Table, disk: nat, partNo: u32, start: u32, len: u32): (Table, Option<nat>)
    requires Shape(t) && disk < SLOTS
  {
    var d := t.devices[disk];
    var name := PartitionName(d.name, partNo);
    if d.parent.Some? || partNo == 0 || len == 0 then (t, None)
    else if Count(PartFlags(t, disk)) >= PARTS_PER_DISK then (t, None)
    else if start >= d.maxLba || len > d.maxLba - start then (t, None)
    else if First(NameFlags(t, name)).Some? then (t, None)
    else match First(FreeFlags(t))
      case None => (t, None)
      case Some(i) => (PutDevice(t, i, Device(Truncate(name), i, len, Some(disk), start, partNo)), Some(i))
  }

  datatype Op =
    | OpRegister(name: string, maxLba: u32, callbacks: bool)
    | OpUnregister(name: string)
    | OpAdd(disk: nat, partNo: u32, start: u32, len: u32)
    | OpClear(disk: nat)

  function Apply(t: Table, op: Op): Table
    requires Shape(t)
  {
    match op
    case OpRegister(n, m, c) => Register(t, n, m, c).0
    case OpUnregister(n) => Unregister(t, n)
    case OpAdd(d, p, s, l) => if d < SLOTS then AddPartition(t, d, p, s, l).0 else t
    case OpClear(d) => ClearPartitions(t, d)
  }

  // ---------------------------------------------------------------- invariance

  lemma PutKeepsParts(t: Table, i: nat, d: Device, p: nat)
    requires Shape(t) && i < SLOTS && !t.used[i]
    ensures Count(PartFlags(PutDevice(t, i, d), p)) == Count(PartFlags(t, p)) + (if d.parent == Some(p) then 1 else 0)
  {
    var a, b := PartFlags(t, p), PartFlags(PutDevice(t, i, d), p);
    assert b == a[i := d.parent == Some(p)];
    CountUpdate(a, i, d.parent == Some(p));
  }

  lemma RegisterKeepsInv(t: Table, name: string, maxLba: u32, callbacks: bool)
    requires Inv(t)
    ensures Inv(Register(t, name, maxLba, callbacks).0)
  {
    var r := Register(t, name, maxLba, callbacks);
    if r.1 == 0 {
      var i := First(FreeFlags(t)).value;
      assert FreeFlags(t)[i];
      CountUpdate(t.used, i, true);
      forall p: nat | p < SLOTS ensures Count(PartFlags(r.0, p)) <= PARTS_PER_DISK {
        PutKeepsParts(t, i, Device(Truncate(name), i, maxLba, None, 0, 0), p);
        assert PartFlags(r.0, p) == PartFlags(PutDevice(t, i, Device(Truncate(name), i, maxLba, None, 0, 0)), p);
      }
      forall j: nat | j < SLOTS ensures SlotOk(r.0, j) { assert SlotOk(t, j); }
    }
  }

  lemma AddKeepsInv(t: Table, disk: nat, partNo: u32, start: u32, len: u32)
    requires Inv(t) && disk < SLOTS
    ensures Inv(AddPartition(t, disk, partNo, start, len).0)
  {
    var r := AddPartition(t, disk, partNo, start, len);
    if r.1.Some? {
      var i := r.1.value;
      var name := Truncate(PartitionName(t.devices[disk].name, partNo));
      var d := Device(name, i, len, Some(disk), start, partNo);
      assert FreeFlags(t)[i];
      assert SlotOk(t, disk);
      CountUpdate(t.used, i, true);
      forall p: nat | p < SLOTS ensures Count(PartFlags(r.0, p)) <= PARTS_PER_DISK {
        PutKeepsParts(t, i, d, p);
      }
      forall j: nat | j < SLOTS ensures SlotOk(r.0, j) { assert SlotOk(t, j); }
    }
  }

  lemma ClearKeepsInv(t: Table, disk: nat)
    requires Inv(t)
    ensures Inv(ClearPartitions(t, disk))
  {
    var t' := ClearPartitions(t, disk);
    CountSplit(t.used, t'.used, PartFlags(t, disk));
    forall p: nat | p < SLOTS ensures Count(PartFlags(t', p)) <= PARTS_PER_DISK {
      CountMonotone(PartFlags(t', p), PartFlags(t, p));
    }
    forall j: nat | j < SLOTS ensures SlotOk(t', j) {
      assert SlotOk(t, j);
      if t.used[j] && t.devices[j].parent.Some? { assert SlotOk(t, t.devices[j].parent.value); }
    }
    if t.boot.Some? { assert SlotOk(t, t.boot.value); }
  }

  lemma DropKeepsInv(t: Table, i: nat)
    requires Inv(t) && i < SLOTS && t.used[i] && t.devices[i].parent.None?
    requires forall j: nat | j < SLOTS :: !PartFlags(t, i)[j]
    ensures Inv(DropSlot(t, i))
  {
    var t' := DropSlot(t, i);
    CountUpdate(t.used, i, false);
    forall p: nat | p < SLOTS ensures Count(PartFlags(t', p)) <= PARTS_PER_DISK {
      CountMonotone(PartFlags(t', p), PartFlags(t, p));
    }
    forall j: nat | j < SLOTS ensures SlotOk(t', j) {
      assert SlotOk(t, j);
      assert !PartFlags(t, i)[j];
    }
    var f := DiskFlags(t');
    if t'.boot.Some? { assert f[t'.boot.value]; }
    else { forall j: nat | j < SLOTS ensures !(t'.used[j] && t'.devices[j].parent.None?) { assert !f[j]; } }
  }

  lemma ApplyKeepsInv(t: Table, op: Op)
    requires Inv(t)
    ensures Inv(Apply(t, op))
  {
    match op
    case OpRegister(n, m, c) => RegisterKeepsInv(t, n, m, c);
    case OpUnregister(n) =>
      var f := First(NameFlags(t, n));
      if f.Some? && t.devices[f.value].parent.None? {
        assert NameFlags(t, n)[f.value];
        ClearKeepsInv(t, f.value);
        assert SlotOk(t, f.value);
        DropKeepsInv(ClearPartitions(t, f.value), f.value);
      }
    case OpAdd(d, p, s, l) => if d < SLOTS { AddKeepsInv(t, d, p, s, l); }
    case OpClear(d) => ClearKeepsInv(t, d);
  }

  function Run(t: Table, ops: seq<Op>): (r: Table)
    requires Shape(t)
    ensures Shape(r)
    decreases ops
  {
    if ops == [] then t else Run(Apply(t, ops[0]), ops[1..])
  }

  /** Over every run from an empty table the invariant holds. */
  lemma {:induction false} RunKeepsInv(t: Table, ops: seq<Op>)
    requires Inv(t)
    ensures Inv(Run(t, ops))
    decreases ops
  {
    if ops != [] {
      ApplyKeepsInv(t, ops[0]);
      RunKeepsInv(Apply(t, ops[0]), ops[1..]);
    }
  }

  lemma EmptyInv()
    ensures Inv(Empty())
  {
    CountNone(Empty().used);
    forall p: nat | p < SLOTS ensures Count(PartFlags(Empty(), p)) <= PARTS_PER_DISK {
      CountNone(PartFlags(Empty(), p));
    }
  }

  /** Every table reachable from boot satisfies the invariant. */
  lemma Reachable(ops: seq<Op>)
    ensures Inv(Run(Empty(), ops))
  {
    EmptyInv();
    RunKeepsInv(Empty(), ops);
  }

  // ---------------------------------------------------------------- sector addressing

  /** The physical sector behind sector `lba` of device `dev`. */
  function Locate(t: Table, dev: nat, lba: nat): Option<Loc> {
    if dev >= |t.devices| || lba >= t.devices[dev].maxLba then None
    else
      var d := t.devices[dev];
      match d.parent
      case None => Some(Loc(dev, lba))
      case Some(p) =>
        var q := d.start + lba;
        if p < |t.devices| && q <= 0xFFFF_FFFF && q < t.devices[p].maxLba then Some(Loc(p, q)) else None
  }

  function Root(t: Table, dev: nat): nat
    requires dev < |t.devices|
  { match t.devices[dev].parent case None => dev case Some(p) => p }

  /** A device is exactly the window [start, start+maxLba) of its root disk: a sector access
      succeeds if and only if it is inside the device, and then touches the one sector
      start+lba of the root, which is a live disk that contains it. */
  lemma Window(t: Table, dev: nat, lba: nat)
    requires Inv(t) && dev < SLOTS
    ensures Locate(t, dev, lba).Some? <==> lba < t.devices[dev].maxLba
    ensures Locate(t, dev, lba).Some? ==>
      && t.used[dev] && Root(t, dev) < SLOTS && t.used[Root(t, dev)] && t.devices[Root(t, dev)].parent.None?
      && Locate(t, dev, lba) == Some(Loc(Root(t, dev), t.devices[dev].start + lba))
      && t.devices[dev].start + lba < t.devices[Root(t, dev)].maxLba
  {
    assert SlotOk(t, dev);
    if t.used[dev] && t.devices[dev].parent.Some? {
      assert SlotOk(t, t.devices[dev].parent.value);
    }
  }

  function Fetch(media: map<Loc, Sector>, l: Loc): Sector {
    if l in media then media[l] else []
  }

  // ---------------------------------------------------------------- the mutable object

  class BlockLayer {
    const devices: array<Device>
    const used: array<bool>
    var count: int
    var boot: Option<nat>
    var media: map<Loc, Sector>

    ghost predicate Wf() { devices.Length == used.Length == SLOTS }

    ghost function Value(): Table
      reads this, devices, used
    { Table(devices[..], used[..], count, boot) }

    ghost predicate Valid()
      reads this, devices, used
    { Wf() && Inv(Value()) }

    constructor ()
      ensures Valid() && fresh(devices) && fresh(used) && Value() == Empty() && media == map[]
    {
      devices := new Device[SLOTS](_ => ZERO_DEVICE);
      used := new bool[SLOTS](_ => false);
      count, boot, media := 0, None, map[];
      new;
      assert devices[..] == Empty().devices;
      assert used[..] == Empty().used;
      EmptyInv();
    }

    method AllocSlot() returns (r: Option<nat>)
      requires Wf()
      ensures r == First(FreeFlags(Value()))
    {
      ghost var f := FreeFlags(Value());
      for i := 0 to SLOTS
        invariant forall j | 0 <= j < i :: !f[j]
      {
        if !used[i] { assert f[i]; return Some(i); }
      }
      return None;
    }

    method Find(name: string) returns (r: Option<nat>)
      requires Wf()
      ensures r == First(NameFlags(Value(), name))
    {
      ghost var f := NameFlags(Value(), name);
      for i := 0 to SLOTS
        invariant forall j | 0 <= j < i :: !f[j]
      {
        if used[i] && devices[i].name == name { assert f[i]; return Some(i); }
      }
      return None;
    }

    method PickBoot()
      requires Wf()
      modifies this`boot
      ensures boot == First(DiskFlags(Value()))
    {
      ghost var f := DiskFlags(Value());
      boot := None;
      for i := 0 to SLOTS
        invariant forall j | 0 <= j < i :: !f[j]
        invariant boot == None
      {
        if used[i] && devices[i].parent.None? {
          assert f[i];
          boot := Some(i);
          assert DiskFlags(Value()) == f;
          return;
        }
      }
      assert DiskFlags(Value()) == f;
    }

    method PartCount(disk: nat) returns (n: nat)
      requires Wf()
      ensures n == Count(PartFlags(Value(), disk))
    {
      ghost var f := PartFlags(Value(), disk);
      n := 0;
      for i := 0 to SLOTS
        invariant n == Count(f[..i])
      {
        assert f[..i + 1] == f[..i] + [f[i]];
        CountSnoc(f[..i], f[i]);
        if used[i] && devices[i].parent == Some(disk) { n := n + 1; }
      }
      assert f[..SLOTS] == f;
    }

    method RegisterDisk(name: string, maxLba: u32, callbacks: bool) returns (rc: int)
      requires Valid()
      modifies this`count, this`boot, devices, used
      ensures Valid()
      ensures (Value(), rc) == Register(old(Value()), name, maxLba, callbacks)
    {
      if name == "" || !callbacks { return -1; }
      var dup := Find(name);
      if dup.Some? { return -3; }
      if maxLba == 0 { return -1; }
      var slot := AllocSlot();
      if slot.None? { return -2; }
      RegisterKeepsInv(Value(), name, maxLba, callbacks);
      var i := slot.value;
      devices[i] := Device(Truncate(name), i, maxLba, None, 0, 0);
      used[i] := true;
      count := count + 1;
      if boot.None? { boot := Some(i); }
      return 0;
    }

    method AddPart(disk: nat, partNo: u32, start: u32, len: u32) returns (r: Option<nat>)
      requires Valid() && disk < SLOTS
      modifies this`count, devices, used
      ensures Valid()
      ensures (Value(), r) == AddPartition(old(Value()), disk, partNo, start, len)
    {
      var d := devices[disk];
      if d.parent.Some? || partNo == 0 || len == 0 { return None; }
      var n := PartCount(disk);
      if n >= PARTS_PER_DISK { return None; }
      if start >= d.maxLba || len > d.maxLba - start { return None; }
      var name := PartitionName(d.name, partNo);
      var dup := Find(name);
      if dup.Some? { return None; }
      var slot := AllocSlot();
      if slot.None? { return None; }
      AddKeepsInv(Value(), disk, partNo, start, len);
      var i := slot.value;
      devices[i] := Device(Truncate(name), i, len, Some(disk), start, partNo);
      used[i] := true;
      count := count + 1;
      return slot;
    }

    method ClearParts(disk: nat) returns (n: nat)
      requires Valid()
      modifies this`count, devices, used
      ensures Valid() && Value() == ClearPartitions(old(Value()), disk)
      ensures n == Count(PartFlags(old(Value()), disk))
    {
      hide Inv, Count;
      ghost var t := Value();
      ghost var gone := PartFlags(t, disk);
      ClearKeepsInv(t, disk);
      CountNone(gone[..0]);
      n := 0;
      for i := 0 to SLOTS
        invariant n == Count(gone[..i]) && count == t.count - n && boot == t.boot
        invariant forall j | 0 <= j < i :: devices[j] == if gone[j] then ZERO_DEVICE else t.devices[j]
        invariant forall j | 0 <= j < i :: used[j] == (t.used[j] && !gone[j])
        invariant forall j | i <= j < SLOTS :: devices[j] == t.devices[j] && used[j] == t.used[j]
      {
        assert gone[..i + 1] == gone[..i] + [gone[i]];
        CountSnoc(gone[..i], gone[i]);
        if used[i] && devices[i].parent == Some(disk) {
          used[i] := false;
          devices[i] := ZERO_DEVICE;
          count := count - 1;
          n := n + 1;
        }
      }
      assert gone[..SLOTS] == gone;
      assert devices[..] == ClearPartitions(t, disk).devices;
      assert used[..] == ClearPartitions(t, disk).used;
    }

    method UnregisterDisk(name: string)
      requires Valid()
      modifies this`count, this`boot, devices, used
      ensures Valid() && Value() == Unregister(old(Value()), name)
    {
      hide Inv, Count, First;
      ghost var t := Value();
      ApplyKeepsInv(t, OpUnregister(name));
      var f := Find(name);
      if f.None? { return; }
      var i := f.value;
      if devices[i].parent.Some? { return; }
      var _ := ClearParts(i);
      ghost var t1 := Value();
      used[i] := false;
      devices[i] := ZERO_DEVICE;
      count := count - 1;
      PickBoot();
      DropSlotIs(t1, Value(), i);
    }

    /** Reads follow the window; a failed read leaves the caller's buffer alone. */
    method Read(dev: nat, lba: u32, buf: Sector) returns (rc: int, out: Sector)
      requires Valid() && dev < SLOTS
      ensures rc == 0 <==> lba < devices[dev].maxLba
      ensures rc == 0 ==> out == Fetch(media, Loc(Root(Value(), dev), devices[dev].start + lba))
      ensures rc != 0 ==> rc == -1 && out == buf
      decreases if devices[dev].parent.None? then 0 else 1
    {
      Window(Value(), dev, lba);
      assert SlotOk(Value(), dev);
      if lba >= devices[dev].maxLba { return -1, buf; }
      match devices[dev].parent
      case None => return 0, Fetch(media, Loc(dev, lba));
      case Some(p) =>
        assert SlotOk(Value(), p);
        if devices[dev].start + lba > 0xFFFF_FFFF { return -1, buf; }
        rc, out := Read(p, devices[dev].start + lba, buf);
    }

    /** Writes change the one sector start+lba of the root disk and nothing else. */
    method Write(dev: nat, lba: u32, buf: Sector) returns (rc: int)
      requires Valid() && dev < SLOTS
      modifies this`media
      ensures Valid()
      ensures rc == 0 <==> lba < devices[dev].maxLba
      ensures rc == 0 ==> media == old(media)[Loc(Root(Value(), dev), devices[dev].start + lba) := buf]
      ensures rc != 0 ==> rc == -1 && media == old(media)
      decreases if devices[dev].parent.None? then 0 else 1
    {
      Window(Value(), dev, lba);
      assert SlotOk(Value(), dev);
      if lba >= devices[dev].maxLba { return -1; }
      match devices[dev].parent
      case None => media := media[Loc(dev, lba) := buf]; return 0;
      case Some(p) =>
        assert SlotOk(Value(), p);
        if devices[dev].start + lba > 0xFFFF_FFFF { return -1; }
        rc := Write(p, devices[dev].start + lba, buf);
    }
  }
}
