/** The partition layout engine: plan the tail of the disk, render the plan as one
    `sgdisk` call, and recognise the result. */
module Layout {
  import opened Bytes

  const ALIGNMENT: int := 0x40_0000
  const GIB: int := 0x4000_0000
  const MIN_ANDROID: int := 16 * GIB
  const MIN_ROOT: int := 16 * GIB
  const MIN_HOME: int := 8 * GIB
  const ROOT_NUMBER: nat := 36
  const HOME_NUMBER: nat := 37
  const STOCK_PARTITION_COUNT: nat := 35
  const USERDATA: string := "userdata"
  const ROOT: string := "linux_root"
  const HOME: string := "linux_home"
  const LINUX_TYPECODE: string := "8300"

  datatype Partition = Partition(number: nat, first: nat, last: nat, name: string)

  /** What the engine reads of a partition table; `partitions` by first sector. */
  datatype Disk = Disk(sector: nat, lastUsable: nat, capacity: nat, partitions: seq<Partition>)

  datatype Action = Shrink | Delete | Create

  /** Byte offsets; the end is exclusive. */
  datatype Entry = Entry(number: nat, name: string, start: int, end: int, action: Action)

  function FirstSector(e: Entry, sector: nat): int
    requires sector > 0
  {
    e.start / sector
  }

  function LastSector(e: Entry, sector: nat): int
    requires sector > 0
  {
    e.end / sector - 1
  }

  function AlignUp(offset: int): int {
    -(-offset / ALIGNMENT) * ALIGNMENT
  }

  /** The least multiple of 4 MiB that is no smaller. */
  lemma AlignUpIsLeast(offset: int, other: int)
    ensures AlignUp(offset) % ALIGNMENT == 0 && offset <= AlignUp(offset) < offset + ALIGNMENT
    ensures offset <= other && other % ALIGNMENT == 0 ==> AlignUp(offset) <= other
  {
  }

  // ----- looking up a partition

  /** The index of the only partition of that name, none, or an error if several. */
  function ByName(partitions: seq<Partition>, name: string): (r: Result<Option<nat>>)
    ensures r.Ok? && r.value.Some? ==> r.value.value < |partitions| && partitions[r.value.value].name == name
    ensures r.Ok? && r.value.Some? ==> forall i :: 0 <= i < |partitions| && partitions[i].name == name ==> i == r.value.value
    ensures r.Ok? && r.value.None? ==> forall i :: 0 <= i < |partitions| ==> partitions[i].name != name
    ensures r.Err? ==> exists i, j :: 0 <= i < j < |partitions| && partitions[i].name == name && partitions[j].name == name
  {
    if partitions == [] then Ok(None)
    else
      var k: nat := |partitions| - 1;
      var rest := ByName(partitions[..k], name);
      if partitions[k].name != name || rest.Err? then rest
      else if rest.value.Some? then
        assert partitions[rest.value.value].name == name && partitions[k].name == name;
        Err("the partition table has more than one of that name")
      else Ok(Some(k))
  }

  // ----- the plan

  function Start(disk: Disk, userdata: Partition): int {
    userdata.first * disk.sector
  }

  function End(disk: Disk): int {
    (disk.lastUsable + 1) * disk.sector
  }

  /** Where linux_root starts and where it ends. */
  function RootStart(start: int, android: int): int {
    AlignUp(start + android)
  }

  function RootEnd(start: int, android: int, root: int): int {
    AlignUp(RootStart(start, android) + root)
  }

  predicate RequestOk(mode: string, android: int, root: int) {
    && (mode == "linux-only" || mode == "dual") && !(mode == "dual" && android == 0)
    && (android == 0 || android >= MIN_ANDROID) && root >= MIN_ROOT
  }

  predicate Fits(disk: Disk, start: int, android: int, root: int)
    requires disk.sector > 0
  {
    && RootEnd(start, android, root) + MIN_HOME <= End(disk)
    && RootStart(start, android) % disk.sector == 0 && RootEnd(start, android, root) % disk.sector == 0
  }

  predicate Feasible(disk: Disk, mode: string, android: int, root: int)
    requires disk.sector > 0
  {
    && RequestOk(mode, android, root)
    && ByName(disk.partitions, USERDATA).Ok? && ByName(disk.partitions, USERDATA).value.Some?
    && Fits(disk, Start(disk, Userdata(disk)), android, root)
  }

  function Userdata(disk: Disk): Partition
    requires ByName(disk.partitions, USERDATA).Ok? && ByName(disk.partitions, USERDATA).value.Some?
  {
    disk.partitions[ByName(disk.partitions, USERDATA).value.value]
  }

  function Tail(disk: Disk, userdata: Partition, android: int, root: int): seq<Entry> {
    var start := Start(disk, userdata);
    var rootStart, rootEnd := RootStart(start, android), RootEnd(start, android, root);
    [if android != 0 then Entry(userdata.number, USERDATA, start, rootStart, Shrink)
     else Entry(userdata.number, USERDATA, start, End(disk), Delete),
     Entry(ROOT_NUMBER, ROOT, rootStart, rootEnd, Create),
     Entry(HOME_NUMBER, HOME, rootEnd, End(disk), Create)]
  }

  /** `plan_layout` */
  method PlanLayout(disk: Disk, mode: string, android: int, root: int) returns (r: Result<seq<Entry>>)
    requires disk.sector > 0
    ensures r.Ok? <==> Feasible(disk, mode, android, root)
    ensures r.Ok? ==> r.value == Tail(disk, Userdata(disk), android, root)
  {
    hide Fits, Tail, ByName;
    if mode != "linux-only" && mode != "dual" {
      return Err("unknown layout mode");
    }
    var found := ByName(disk.partitions, USERDATA);
    if found.Err? || found.value.None? {
      return Err("the partition table has no userdata partition");
    }
    if mode == "dual" && android == 0 {
      return Err("dual layout needs a non-zero --android-size");
    }
    if android != 0 && android < MIN_ANDROID {
      return Err("--android-size is too small");
    }
    if root < MIN_ROOT {
      return Err("--root-size is too small");
    }
    r := PlanTail(disk, Userdata(disk), android, root);
  }

  method PlanTail(disk: Disk, userdata: Partition, android: int, root: int) returns (r: Result<seq<Entry>>)
    requires disk.sector > 0 && (android == 0 || android >= MIN_ANDROID) && root >= MIN_ROOT
    ensures r.Ok? <==> Fits(disk, Start(disk, userdata), android, root)
    ensures r.Ok? ==> r.value == Tail(disk, userdata, android, root)
  {
    hide AlignUp, Sound, Start, End;
    var regionStart, regionEnd := Start(disk, userdata), End(disk);
    var entries: seq<Entry> := [];
    var cursor := regionStart;
    if android != 0 {
      var end := AlignUp(cursor + android);
      entries := entries + [Entry(userdata.number, USERDATA, cursor, end, Shrink)];
      cursor := end;
    } else {
      entries := entries + [Entry(userdata.number, USERDATA, regionStart, regionEnd, Delete)];
      cursor := AlignUp(cursor);
    }
    var rootEnd := AlignUp(cursor + root);
    if rootEnd + MIN_HOME > regionEnd {
      return Err("the requested sizes leave too little for linux_home");
    }
    entries := entries + [Entry(ROOT_NUMBER, ROOT, cursor, rootEnd, Create)];
    entries := entries + [Entry(HOME_NUMBER, HOME, rootEnd, regionEnd, Create)];
    assert entries == Tail(disk, userdata, android, root);
    var sound := CheckEntries(entries, regionStart, regionEnd, disk.sector);
    SoundMeans(disk, userdata, android, root);
    r := if regionEnd - rootEnd < MIN_HOME || !sound then Err("the computed layout is not sound") else Ok(entries);
  }

  predicate Sound(e: Entry, start: int, end: int, sector: nat)
    requires sector > 0
  {
    e.action == Delete || (e.end <= end && start <= e.start && e.start % sector == 0 && e.end % sector == 0)
  }

  method CheckEntries(entries: seq<Entry>, start: int, end: int, sector: nat) returns (ok: bool)
    requires sector > 0
    ensures ok <==> forall i :: 0 <= i < |entries| ==> Sound(entries[i], start, end, sector)
  {
    for i := 0 to |entries|
      invariant forall k :: 0 <= k < i ==> Sound(entries[k], start, end, sector)
    {
      var item := entries[i];
      if item.action == Delete {
        continue;
      }
      if item.end > end || item.start < start {
        return false;
      }
      if item.start % sector != 0 || item.end % sector != 0 {
        return false;
      }
    }
    return true;
  }

  lemma DivModFacts(n: int, d: int)
    requires d > 0
    ensures n == (n / d) * d + n % d && 0 <= n % d < d
  {
  }

  lemma AtLeastOnce(a: int, d: int)
    requires d > 0 && a >= 1
    ensures a * d >= d
  {
  }

  lemma DivModUnique(d: int, q: int, r: int, p: int, s: int)
    requires d > 0 && q * d + r == p * d + s && 0 <= r < d && 0 <= s < d
    ensures q == p && r == s
  {
    if q > p {
      assert (q - p) * d == q * d - p * d;
      AtLeastOnce(q - p, d);
    } else if q < p {
      assert (p - q) * d == p * d - q * d;
      AtLeastOnce(p - q, d);
    }
  }

  lemma MultipleOfSector(count: int, sector: int)
    requires sector > 0
    ensures (count * sector) % sector == 0 && (count * sector) / sector == count
  {
    var n := count * sector;
    DivModFacts(n, sector);
    DivModUnique(sector, n / sector, n % sector, count, 0);
  }

  /** Of all the final checks only those on whole sectors can ever fail. */
  lemma SoundMeans(disk: Disk, userdata: Partition, android: int, root: int)
    requires disk.sector > 0 && (android == 0 || android >= MIN_ANDROID) && root >= MIN_ROOT
    requires RootEnd(Start(disk, userdata), android, root) + MIN_HOME <= End(disk)
    ensures (forall i :: 0 <= i < 3 ==> Sound(Tail(disk, userdata, android, root)[i], Start(disk, userdata), End(disk), disk.sector))
            <==> RootStart(Start(disk, userdata), android) % disk.sector == 0
                 && RootEnd(Start(disk, userdata), android, root) % disk.sector == 0
  {
    var start, tail := Start(disk, userdata), Tail(disk, userdata, android, root);
    MultipleOfSector(userdata.first, disk.sector);
    MultipleOfSector(disk.lastUsable + 1, disk.sector);
    AlignUpIsLeast(start + android, 0);
    AlignUpIsLeast(RootStart(start, android) + root, 0);
    assert Sound(tail[1], start, End(disk), disk.sector) <==>
           RootStart(start, android) % disk.sector == 0 && RootEnd(start, android, root) % disk.sector == 0;
  }

  // ----- which requests can be met

  /** Two aligned cut points that give every partition what was asked for. */
  predicate Meets(start: int, end: int, android: int, root: int, rootStart: int, rootEnd: int) {
    && rootStart % ALIGNMENT == 0 && rootEnd % ALIGNMENT == 0
    && start + android <= rootStart && rootStart + root <= rootEnd && rootEnd + MIN_HOME <= end
  }

  /** The plan succeeds exactly when some aligned layout of the tail would do, and
      its cuts are then the earliest possible. */
  lemma PlansWheneverPossible(disk: Disk, mode: string, android: int, root: int)
    requires disk.sector > 0 && ALIGNMENT % disk.sector == 0
    requires RequestOk(mode, android, root)
    requires ByName(disk.partitions, USERDATA).Ok? && ByName(disk.partitions, USERDATA).value.Some?
    ensures Feasible(disk, mode, android, root) <==>
            exists a, b :: Meets(Start(disk, Userdata(disk)), End(disk), android, root, a, b)
    ensures forall a, b :: Meets(Start(disk, Userdata(disk)), End(disk), android, root, a, b) ==>
              RootStart(Start(disk, Userdata(disk)), android) <= a && RootEnd(Start(disk, Userdata(disk)), android, root) <= b
  {
    hide Start, End, ByName, Userdata, AlignUp;
    var start, end := Start(disk, Userdata(disk)), End(disk);
    var first, second := RootStart(start, android), RootEnd(start, android, root);
    AlignUpIsLeast(start + android, 0);
    AlignUpIsLeast(first + root, 0);
    AlignedIsWholeSectors(first, disk.sector);
    AlignedIsWholeSectors(second, disk.sector);
    if Fits(disk, start, android, root) {
      assert Meets(start, end, android, root, first, second);
    }
    forall a, b | Meets(start, end, android, root, a, b) ensures first <= a && second <= b {
      AlignUpIsLeast(start + android, a);
      AlignUpIsLeast(first + root, b);
    }
  }

  lemma AlignedIsWholeSectors(offset: int, sector: int)
    requires sector > 0 && ALIGNMENT % sector == 0 && offset % ALIGNMENT == 0
    ensures offset % sector == 0
  {
    DivModFacts(ALIGNMENT, sector);
    var count, blocks := ALIGNMENT / sector, offset / ALIGNMENT;
    assert blocks * (count * sector) == (blocks * count) * sector;
    MultipleOfSector(blocks * count, sector);
  }

  /** What a planned tail looks like: its live entries tile the region from userdata's
      own start, apart from less than 4 MiB in front when userdata goes, in whole
      sectors, each at least as large as asked and less than 4 MiB larger. */
  lemma TailTiles(disk: Disk, mode: string, android: int, root: int)
    requires disk.sector > 0 && Feasible(disk, mode, android, root)
    ensures var t := Tail(disk, Userdata(disk), android, root);
            var start := Start(disk, Userdata(disk));
            && t[0].start == start && t[1].end == t[2].start && t[2].end == End(disk)
            && (android != 0 ==> t[0].end == t[1].start && android <= t[0].end - start < android + ALIGNMENT)
            && (android == 0 ==> t[0].action == Delete && start <= t[1].start < start + ALIGNMENT)
            && root <= t[1].end - t[1].start < root + ALIGNMENT && t[2].end - t[2].start >= MIN_HOME
            && (forall e :: e in t ==> e.start % disk.sector == 0 && e.end % disk.sector == 0)
  {
    hide ByName, AlignUp;
    var userdata := Userdata(disk);
    var start := Start(disk, userdata);
    AlignUpIsLeast(start + android, 0);
    AlignUpIsLeast(RootStart(start, android) + root, 0);
    MultipleOfSector(userdata.first, disk.sector);
    MultipleOfSector(disk.lastUsable + 1, disk.sector);
  }

  // ----- the abstract partition table and sgdisk

  datatype Info = Info(first: nat, last: nat, typecode: string, guid: string, name: string, attributes: string)

  datatype Gpt = Gpt(firstUsable: nat, lastUsable: nat, capacity: nat, entries: map<nat, Info>)

  datatype Command =
    | SetAlignment
    | Remove(number: nat)
    | New(number: nat, first: int, last: int)
    | Typecode(number: nat, text: string)
    | Guid(number: nat, text: string)
    | ChangeName(number: nat, text: string)
    | Attributes(number: nat, text: string)

  predicate Apart(a: Info, b: Info) {
    a.last < b.first || b.last < a.first
  }

  predicate WellFormed(g: Gpt) {
    && (forall n :: n in g.entries ==>
          1 <= n <= g.capacity && g.firstUsable <= g.entries[n].first <= g.entries[n].last <= g.lastUsable)
    && (forall n, m :: n in g.entries && m in g.entries && n != m ==> Apart(g.entries[n], g.entries[m]))
  }

  predicate Placeable(g: Gpt, number: nat, first: int, last: int) {
    && 1 <= number <= g.capacity && number !in g.entries && g.firstUsable <= first <= last <= g.lastUsable
    && (forall n :: n in g.entries ==> g.entries[n].last < first || last < g.entries[n].first)
  }

  function Without(g: Gpt, number: nat): Gpt {
    g.(entries := g.entries - {number})
  }

  function With(g: Gpt, number: nat, info: Info): Gpt {
    g.(entries := g.entries[number := info])
  }

  lemma WithTwice(g: Gpt, number: nat, x: Info, y: Info)
    ensures With(With(g, number, x), number, y) == With(g, number, y)
  {
    assert g.entries[number := x][number := y] == g.entries[number := y];
  }

  /** One option of the call; `guids` supplies the random GUID of a new partition. */
  function Run(g: Gpt, c: Command, guids: nat -> string): Result<Gpt> {
    match c
    case SetAlignment => Ok(g)
    case New(n, first, last) =>
      if Placeable(g, n, first, last) then Ok(With(g, n, Info(first, last, LINUX_TYPECODE, guids(n), "", "0")))
      else Err("could not create partition")
    case _ => if c.number !in g.entries then Err("no such partition") else Ok(Change(g, c))
  }

  function Change(g: Gpt, c: Command): Gpt
    requires !c.SetAlignment? && !c.New? && c.number in g.entries
  {
    var info := g.entries[c.number];
    match c
    case Remove(n) => Without(g, n)
    case Typecode(n, text) => With(g, n, info.(typecode := text))
    case Guid(n, text) => With(g, n, info.(guid := text))
    case ChangeName(n, text) => With(g, n, info.(name := text))
    case Attributes(n, text) => With(g, n, info.(attributes := text))
  }

  /** The whole call writes the table only if every option succeeds. */
  function RunAll(g: Gpt, commands: seq<Command>, guids: nat -> string): Result<Gpt>
    decreases |commands|
  {
    if commands == [] then Ok(g)
    else
      var next := Run(g, commands[0], guids);
      if next.Err? then next else RunAll(next.value, commands[1..], guids)
  }

  // ----- sgdisk_arguments

  function Creation(e: Entry, sector: nat): seq<Command>
    requires sector > 0
  {
    [New(e.number, FirstSector(e, sector), LastSector(e, sector)), Typecode(e.number, LINUX_TYPECODE), ChangeName(e.number, e.name)]
  }

  function Creations(entries: seq<Entry>, sector: nat): seq<Command>
    requires sector > 0
  {
    if entries == [] then []
    else
      var k := |entries| - 1;
      Creations(entries[..k], sector) + if entries[k].name == USERDATA then [] else Creation(entries[k], sector)
  }

  function Keep(e: Entry, sector: nat, info: Info): seq<Command>
    requires sector > 0
  {
    [New(e.number, FirstSector(e, sector), LastSector(e, sector)), Typecode(e.number, info.typecode),
     Guid(e.number, info.guid), ChangeName(e.number, USERDATA), Attributes(e.number, info.attributes)]
  }

  /** One call for the whole plan: one table write. */
  function Call(disk: Disk, entries: seq<Entry>, info: Info): seq<Command>
    requires disk.sector > 0 && entries != []
  {
    [SetAlignment, Remove(entries[0].number)]
    + (if entries[0].action != Delete then Keep(entries[0], disk.sector, info) else [])
    + Creations(entries, disk.sector)
  }

  /** `sgdisk_arguments`, for a plan whose first entry is userdata's. */
  method SgdiskArguments(disk: Disk, entries: seq<Entry>, info: Info) returns (r: Result<seq<Command>>)
    requires disk.sector > 0 && entries != [] && entries[0].name == USERDATA
    ensures r.Err? <==> entries[0].action != Delete && FirstSector(entries[0], disk.sector) != info.first
    ensures r.Ok? ==> r.value == Call(disk, entries, info)
  {
    var sector := disk.sector;
    var userdata := entries[0];
    var arguments := [SetAlignment, Remove(userdata.number)];
    if userdata.action != Delete {
      if FirstSector(userdata, sector) != info.first {
        return Err("userdata would move; only shrinking in place is supported");
      }
      arguments := arguments + Keep(userdata, sector, info);
    }
    ghost var head := arguments;
    for i := 0 to |entries|
      invariant arguments == head + Creations(entries[..i], sector)
    {
      var item := entries[i];
      assert entries[..i + 1][..i] == entries[..i];
      if item.name == USERDATA {
        continue;
      }
      arguments := arguments + Creation(item, sector);
    }
    assert entries[..|entries|] == entries;
    r := Ok(arguments);
  }

  // ----- reading a table back

  predicate Matches(p: Partition, i: Info) {
    p.first == i.first && p.last == i.last && p.name == i.name
  }

  /** `disk` is what `sgdisk -p` and `parse_print` make of `g`. */
  ghost predicate Reports(disk: Disk, g: Gpt) {
    && disk.lastUsable == g.lastUsable && disk.capacity == g.capacity
    && (forall i :: 0 <= i < |disk.partitions| ==>
          disk.partitions[i].number in g.entries && Matches(disk.partitions[i], g.entries[disk.partitions[i].number]))
    && (forall n :: n in g.entries ==> exists i :: 0 <= i < |disk.partitions| && disk.partitions[i].number == n)
    && (forall i, j :: 0 <= i < j < |disk.partitions| ==>
          disk.partitions[i].number != disk.partitions[j].number && disk.partitions[i].first <= disk.partitions[j].first)
  }

  /** `classify` */
  function Classify(disk: Disk): Result<string> {
    var userdata, root, home := ByName(disk.partitions, USERDATA), ByName(disk.partitions, ROOT), ByName(disk.partitions, HOME);
    if userdata.Err? || root.Err? || home.Err? then Err("the partition table has more than one of that name")
    else if root.value.Some? then
      var last := disk.partitions[|disk.partitions| - 1];
      Ok(if last.name == ROOT || last.name == HOME then "split" else "unknown")
    else if home.value.Some? then Ok("unknown")
    else if userdata.value.Some? && userdata.value.value == |disk.partitions| - 1 && |disk.partitions| == STOCK_PARTITION_COUNT
         && disk.partitions[userdata.value.value].last == disk.lastUsable then Ok("stock")
    else Ok("unknown")
  }

  const DEVICE_SECTOR: nat := 4096

  /** `check_stock_device` */
  predicate CheckStockDevice(disk: Disk) {
    && disk.sector == DEVICE_SECTOR && |disk.partitions| == STOCK_PARTITION_COUNT
    && ByName(disk.partitions, USERDATA) == Ok(Some(STOCK_PARTITION_COUNT - 1))
    && disk.partitions[STOCK_PARTITION_COUNT - 1].last == disk.lastUsable
    && disk.capacity - STOCK_PARTITION_COUNT >= 2
  }

  /** A device that passes is stock, unless it already has a partition of ours. */
  lemma CheckedIsStock(disk: Disk)
    requires CheckStockDevice(disk)
    ensures Classify(disk) == Ok("stock") <==>
            forall i :: 0 <= i < |disk.partitions| ==> disk.partitions[i].name != ROOT && disk.partitions[i].name != HOME
  {
    assert "stock" != "split" && "stock" != "unknown" by {
      assert "stock"[1] != "split"[1] && "stock"[0] != "unknown"[0];
    }
  }

  /** An entry of the plan is where the table says it is, or is gone. */
  predicate Landed(disk: Disk, e: Entry)
    requires disk.sector > 0
  {
    var found := ByName(disk.partitions, e.name);
    && found.Ok?
    && (e.action == Delete ==> found.value.None?)
    && (e.action != Delete ==>
          && found.value.Some? && disk.partitions[found.value.value].first == FirstSector(e, disk.sector)
          && disk.partitions[found.value.value].last == LastSector(e, disk.sector))
  }

  /** `verify_applied` */
  method VerifyApplied(disk: Disk, entries: seq<Entry>) returns (ok: bool)
    requires disk.sector > 0
    ensures ok <==> forall i :: 0 <= i < |entries| ==> Landed(disk, entries[i])
  {
    for i := 0 to |entries|
      invariant forall k :: 0 <= k < i ==> Landed(disk, entries[k])
    {
      var item := entries[i];
      var found := ByName(disk.partitions, item.name);
      if found.Err? {
        return false;
      }
      if item.action == Delete {
        if found.value.Some? {
          return false;
        }
        continue;
      }
      if found.value.None? {
        return false;
      }
      var p := disk.partitions[found.value.value];
      if p.first != FirstSector(item, disk.sector) || p.last != LastSector(item, disk.sector) {
        return false;
      }
    }
    return true;
  }

  /** `verify_preserved`, on reports in one letter case. */
  predicate Preserved(before: Info, after: Info) {
    && before.typecode == after.typecode && before.guid == after.guid && before.attributes == after.attributes
    && before.name == after.name && before.first == after.first
  }

  // ----- carrying out the plan

  ghost predicate Stock(g: Gpt, disk: Disk) {
    WellFormed(g) && Reports(disk, g) && Classify(disk) == Ok("stock")
  }

  /** The numbers the plan gives to the new partitions can be used. */
  predicate NumbersFree(g: Gpt, userdata: nat, android: int) {
    && HOME_NUMBER <= g.capacity
    && (ROOT_NUMBER !in g.entries || (android == 0 && ROOT_NUMBER == userdata))
    && (HOME_NUMBER !in g.entries || (android == 0 && HOME_NUMBER == userdata))
  }

  /** The cuts in sectors. */
  function RootSector(disk: Disk, android: int): int
    requires disk.sector > 0
    requires ByName(disk.partitions, USERDATA).Ok? && ByName(disk.partitions, USERDATA).value.Some?
  {
    RootStart(Start(disk, Userdata(disk)), android) / disk.sector
  }

  function HomeSector(disk: Disk, android: int, root: int): int
    requires disk.sector > 0
    requires ByName(disk.partitions, USERDATA).Ok? && ByName(disk.partitions, USERDATA).value.Some?
  {
    RootEnd(Start(disk, Userdata(disk)), android, root) / disk.sector
  }

  lemma MultiplesInOrder(a: int, b: int, d: int)
    requires d > 0 && a * d < b * d
    ensures a < b
  {
    if a >= b {
      assert (a - b) * d == a * d - b * d;
      if a > b {
        AtLeastOnce(a - b, d);
      }
    }
  }

  lemma WholeInOrder(x: int, y: int, d: int)
    requires d > 0 && x % d == 0 && y % d == 0 && x < y
    ensures x / d < y / d
  {
    DivModFacts(x, d);
    DivModFacts(y, d);
    MultiplesInOrder(x / d, y / d, d);
  }

  /** In sectors: userdata keeps its first, and the three stretches follow each other. */
  lemma SectorCuts(disk: Disk, mode: string, android: int, root: int)
    requires disk.sector > 0 && Feasible(disk, mode, android, root)
    ensures var u := Userdata(disk);
            && Start(disk, u) / disk.sector == u.first && End(disk) / disk.sector == disk.lastUsable + 1
            && u.first <= RootSector(disk, android) < HomeSector(disk, android, root) <= disk.lastUsable
            && (android != 0 ==> u.first < RootSector(disk, android))
  {
    hide ByName, AlignUp;
    var u := Userdata(disk);
    var start, end := Start(disk, u), End(disk);
    var first, second := RootStart(start, android), RootEnd(start, android, root);
    AlignUpIsLeast(start + android, 0);
    AlignUpIsLeast(first + root, 0);
    MultipleOfSector(u.first, disk.sector);
    MultipleOfSector(disk.lastUsable + 1, disk.sector);
    if start < first {
      WholeInOrder(start, first, disk.sector);
    }
    WholeInOrder(first, second, disk.sector);
    WholeInOrder(second, end, disk.sector);
  }

  lemma {:induction false} RunFirst(g: Gpt, c: Command, next: Gpt, rest: seq<Command>, guids: nat -> string)
    requires Run(g, c, guids) == Ok(next)
    ensures RunAll(g, [c] + rest, guids) == RunAll(next, rest, guids)
  {
    assert ([c] + rest)[1..] == rest;
  }

  lemma HeadRuns(g: Gpt, number: nat, rest: seq<Command>, guids: nat -> string)
    requires number in g.entries
    ensures RunAll(g, [SetAlignment, Remove(number)] + rest, guids) == RunAll(Without(g, number), rest, guids)
  {
    hide RunAll;
    RunFirst(g, Remove(number), Without(g, number), rest, guids);
    RunFirst(g, SetAlignment, g, [Remove(number)] + rest, guids);
    assert [SetAlignment] + ([Remove(number)] + rest) == [SetAlignment, Remove(number)] + rest;
  }

  /** Sets a field of a partition that was just written as `old_`. */
  lemma ChangeRuns(g: Gpt, old_: Info, new_: Info, c: Command, rest: seq<Command>, guids: nat -> string)
    requires !c.SetAlignment? && !c.New? && !c.Remove?
    requires Change(With(g, c.number, old_), c) == With(With(g, c.number, old_), c.number, new_)
    ensures RunAll(With(g, c.number, old_), [c] + rest, guids) == RunAll(With(g, c.number, new_), rest, guids)
  {
    WithTwice(g, c.number, old_, new_);
    RunFirst(With(g, c.number, old_), c, With(g, c.number, new_), rest, guids);
  }

  lemma CreateRuns(g: Gpt, e: Entry, sector: nat, rest: seq<Command>, guids: nat -> string)
    requires sector > 0
    ensures Placeable(g, e.number, FirstSector(e, sector), LastSector(e, sector)) ==>
              RunAll(g, Creation(e, sector) + rest, guids)
              == RunAll(With(g, e.number, Info(FirstSector(e, sector), LastSector(e, sector), LINUX_TYPECODE, guids(e.number), e.name, "0")), rest, guids)
    ensures !Placeable(g, e.number, FirstSector(e, sector), LastSector(e, sector)) ==> RunAll(g, Creation(e, sector) + rest, guids).Err?
  {
    hide RunAll, FirstSector, LastSector, Placeable;
    var n, first, last := e.number, FirstSector(e, sector), LastSector(e, sector);
    var make, typecode, rename := New(n, first, last), Typecode(n, LINUX_TYPECODE), ChangeName(n, e.name);
    assert Creation(e, sector) + rest == [make] + ([typecode] + ([rename] + rest));
    if Placeable(g, n, first, last) {
      PlaceableMeans(g, n, first, last);
      var bare := Info(first, last, LINUX_TYPECODE, guids(n), "", "0");
      RunFirst(g, make, With(g, n, bare), [typecode] + ([rename] + rest), guids);
      ChangeRuns(g, bare, bare, typecode, [rename] + rest, guids);
      ChangeRuns(g, bare, bare.(name := e.name), rename, rest, guids);
    } else {
      RunFails(g, make, [typecode] + ([rename] + rest), guids);
    }
  }

  lemma PlaceableMeans(g: Gpt, number: nat, first: int, last: int)
    requires Placeable(g, number, first, last)
    ensures 0 <= first <= last
  {
  }

  lemma RunFails(g: Gpt, c: Command, rest: seq<Command>, guids: nat -> string)
    requires Run(g, c, guids).Err?
    ensures RunAll(g, [c] + rest, guids).Err?
  {
  }

  lemma KeepRuns(g: Gpt, e: Entry, sector: nat, info: Info, rest: seq<Command>, guids: nat -> string)
    requires sector > 0 && Placeable(g, e.number, FirstSector(e, sector), LastSector(e, sector))
    ensures RunAll(g, Keep(e, sector, info) + rest, guids)
            == RunAll(With(g, e.number, Info(FirstSector(e, sector), LastSector(e, sector), info.typecode, info.guid, USERDATA, info.attributes)), rest, guids)
  {
    hide RunAll, FirstSector, LastSector, Placeable;
    var n, first, last := e.number, FirstSector(e, sector), LastSector(e, sector);
    PlaceableMeans(g, n, first, last);
    var d := [Attributes(n, info.attributes)] + rest;
    var c := [ChangeName(n, USERDATA)] + d;
    var b := [Guid(n, info.guid)] + c;
    var a := [Typecode(n, info.typecode)] + b;
    assert Keep(e, sector, info) + rest == [New(n, first, last)] + a;
    var i0 := Info(first, last, LINUX_TYPECODE, guids(n), "", "0");
    var i1 := i0.(typecode := info.typecode);
    var i2 := i1.(guid := info.guid);
    var i3 := i2.(name := USERDATA);
    RunFirst(g, New(n, first, last), With(g, n, i0), a, guids);
    ChangeRuns(g, i0, i1, Typecode(n, info.typecode), b, guids);
    ChangeRuns(g, i1, i2, Guid(n, info.guid), c, guids);
    ChangeRuns(g, i2, i3, ChangeName(n, USERDATA), d, guids);
    ChangeRuns(g, i3, i3.(attributes := info.attributes), Attributes(n, info.attributes), rest, guids);
  }

  /** Everything but userdata ends before it. */
  lemma StockTail(g: Gpt, disk: Disk)
    requires Stock(g, disk)
    ensures ByName(disk.partitions, USERDATA).Ok? && ByName(disk.partitions, USERDATA).value.Some?
    ensures var u := Userdata(disk);
            && u.number in g.entries && Matches(u, g.entries[u.number]) && u.last == g.lastUsable
            && (forall n :: n in g.entries && n != u.number ==> g.entries[n].last < u.first)
            && (forall n :: n in g.entries && n != u.number ==> g.entries[n].name !in {USERDATA, ROOT, HOME})
  {
    hide ByName;
    var u := Userdata(disk);
    var k := ByName(disk.partitions, USERDATA).value.value;
    forall n | n in g.entries && n != u.number
      ensures g.entries[n].last < u.first && g.entries[n].name !in {USERDATA, ROOT, HOME}
    {
      var i :| 0 <= i < |disk.partitions| && disk.partitions[i].number == n;
      assert i < k;
      assert disk.partitions[i].first <= disk.partitions[k].first;
      assert Apart(g.entries[n], g.entries[u.number]);
    }
  }

  /** The table after the call. */
  function After(g: Gpt, disk: Disk, android: int, root: int, info: Info, guids: nat -> string): Gpt
    requires disk.sector > 0
    requires ByName(disk.partitions, USERDATA).Ok? && ByName(disk.partitions, USERDATA).value.Some?
    requires 0 <= RootSector(disk, android) <= HomeSector(disk, android, root)
    requires android != 0 ==> RootSector(disk, android) > 0
    requires HomeSector(disk, android, root) > 0
  {
    var u := Userdata(disk);
    var a, b := RootSector(disk, android), HomeSector(disk, android, root);
    var bare := Without(g, u.number);
    var kept := if android != 0 then With(bare, u.number, Info(u.first, a - 1, info.typecode, info.guid, USERDATA, info.attributes)) else bare;
    With(With(kept, ROOT_NUMBER, Info(a, b - 1, LINUX_TYPECODE, guids(ROOT_NUMBER), ROOT, "0")),
         HOME_NUMBER, Info(b, disk.lastUsable, LINUX_TYPECODE, guids(HOME_NUMBER), HOME, "0"))
  }

  /** Nothing in the table reaches sector `from`. */
  ghost predicate Below(g: Gpt, from: int) {
    g.firstUsable <= from && forall n :: n in g.entries ==> g.entries[n].last < from
  }

  lemma PlaceBelow(g: Gpt, number: nat, first: nat, last: nat, info: Info)
    requires Below(g, first) && first <= last <= g.lastUsable
    ensures Placeable(g, number, first, last) <==> 1 <= number <= g.capacity && number !in g.entries
    ensures info.last == last ==> Below(With(g, number, info), last + 1)
  {
  }

  lemma TwoCreations(disk: Disk, u: Partition, android: int, root: int)
    requires disk.sector > 0
    ensures var t := Tail(disk, u, android, root);
            Creations(t, disk.sector) == Creation(t[1], disk.sector) + (Creation(t[2], disk.sector) + [])
  {
    hide Creation;
    var t := Tail(disk, u, android, root);
    assert t[..2][..1] == [t[0]] && [t[0]][..0] == [];
    assert Creations([t[0]], disk.sector) == [];
    assert Creations(t[..2], disk.sector) == [] + Creation(t[1], disk.sector);
  }

  /** Both new partitions are created exactly when their numbers can be used. */
  lemma CreationsRun(g: Gpt, disk: Disk, t: seq<Entry>, a: nat, b: nat, guids: nat -> string)
    requires disk.sector > 0 && |t| == 3 && t[1].number == ROOT_NUMBER && t[2].number == HOME_NUMBER && t[1].name == ROOT && t[2].name == HOME
    requires FirstSector(t[1], disk.sector) == a && LastSector(t[1], disk.sector) == b - 1
    requires FirstSector(t[2], disk.sector) == b && LastSector(t[2], disk.sector) == g.lastUsable
    requires Below(g, a) && a < b <= g.lastUsable
    ensures var r := RunAll(g, Creation(t[1], disk.sector) + (Creation(t[2], disk.sector) + []), guids);
            if HOME_NUMBER <= g.capacity && ROOT_NUMBER !in g.entries && HOME_NUMBER !in g.entries
            then r == Ok(With(With(g, ROOT_NUMBER, Info(a, b - 1, LINUX_TYPECODE, guids(ROOT_NUMBER), ROOT, "0")),
                              HOME_NUMBER, Info(b, g.lastUsable, LINUX_TYPECODE, guids(HOME_NUMBER), HOME, "0")))
            else r.Err?
  {
    hide FirstSector, LastSector, Creation, Placeable, Below;
    var first := Info(a, b - 1, LINUX_TYPECODE, guids(ROOT_NUMBER), ROOT, "0");
    var g1 := With(g, ROOT_NUMBER, first);
    PlaceBelow(g, ROOT_NUMBER, a, b - 1, first);
    CreateRuns(g, t[1], disk.sector, Creation(t[2], disk.sector) + [], guids);
    PlaceBelow(g1, HOME_NUMBER, b, g.lastUsable, first);
    CreateRuns(g1, t[2], disk.sector, [], guids);
  }

  /** Carrying out the plan on a stock table succeeds exactly when numbers 36 and 37
      can be used, and then gives the planned table. */
  lemma Realised(g: Gpt, disk: Disk, mode: string, android: int, root: int, guids: nat -> string)
    requires disk.sector > 0 && Stock(g, disk) && Feasible(disk, mode, android, root)
    ensures Userdata(disk).number in g.entries
    ensures 0 <= RootSector(disk, android) < HomeSector(disk, android, root) && (android != 0 ==> RootSector(disk, android) > 0)
    ensures var u := Userdata(disk);
            var info := g.entries[u.number];
            var r := RunAll(g, Call(disk, Tail(disk, u, android, root), info), guids);
            if NumbersFree(g, u.number, android) then r == Ok(After(g, disk, android, root, info, guids)) else r.Err?
  {
    hide ByName, Stock, Feasible, FirstSector, LastSector, Creation, Keep, RunAll, RootStart, RootEnd, Start, End;
    StockTail(g, disk);
    SectorCuts(disk, mode, android, root);
    var u := Userdata(disk);
    var info := g.entries[u.number];
    var t := Tail(disk, u, android, root);
    var a, b := RootSector(disk, android), HomeSector(disk, android, root);
    TailSectors(disk, u, android, root);
    TwoCreations(disk, u, android, root);
    var bare := Without(g, u.number);
    BareBelow(g, disk);
    var creations := Creation(t[1], disk.sector) + (Creation(t[2], disk.sector) + []);
    if android == 0 {
      assert Call(disk, t, info) == [SetAlignment, Remove(u.number)] + creations;
      HeadRuns(g, u.number, creations, guids);
      CreationsRun(bare, disk, t, a, b, guids);
    } else {
      assert Call(disk, t, info) == [SetAlignment, Remove(u.number)] + (Keep(t[0], disk.sector, info) + creations);
      HeadRuns(g, u.number, Keep(t[0], disk.sector, info) + creations, guids);
      var kept := Info(u.first, a - 1, info.typecode, info.guid, USERDATA, info.attributes);
      PlaceBelow(bare, u.number, u.first, a - 1, kept);
      KeepRuns(bare, t[0], disk.sector, info, creations, guids);
      CreationsRun(With(bare, u.number, kept), disk, t, a, b, guids);
    }
  }

  lemma BareBelow(g: Gpt, disk: Disk)
    requires Stock(g, disk)
    ensures ByName(disk.partitions, USERDATA).Ok? && ByName(disk.partitions, USERDATA).value.Some?
    ensures Below(Without(g, Userdata(disk).number), Userdata(disk).first)
    ensures g.lastUsable == disk.lastUsable
    ensures Userdata(disk).number in g.entries && 1 <= Userdata(disk).number <= g.capacity
  {
    hide ByName;
    StockTail(g, disk);
  }

  lemma TailSectors(disk: Disk, u: Partition, android: int, root: int)
    requires disk.sector > 0
    ensures var t := Tail(disk, u, android, root);
            var start := Start(disk, u);
            && FirstSector(t[0], disk.sector) == start / disk.sector
            && (android != 0 ==> LastSector(t[0], disk.sector) == RootStart(start, android) / disk.sector - 1)
            && FirstSector(t[1], disk.sector) == RootStart(start, android) / disk.sector
            && LastSector(t[1], disk.sector) == RootEnd(start, android, root) / disk.sector - 1
            && FirstSector(t[2], disk.sector) == RootEnd(start, android, root) / disk.sector
            && LastSector(t[2], disk.sector) == End(disk) / disk.sector - 1
  {
  }

  /** Carrying out the plan keeps every other partition and a well-formed table. */
  lemma OthersUntouched(g: Gpt, disk: Disk, mode: string, android: int, root: int, guids: nat -> string, after: Gpt)
    requires disk.sector > 0 && Stock(g, disk) && Feasible(disk, mode, android, root)
    requires Userdata(disk).number in g.entries
    requires RunAll(g, Call(disk, Tail(disk, Userdata(disk), android, root), g.entries[Userdata(disk).number]), guids) == Ok(after)
    ensures WellFormed(after)
    ensures forall n :: n !in {Userdata(disk).number, ROOT_NUMBER, HOME_NUMBER} ==>
              (n in after.entries <==> n in g.entries) && (n in g.entries ==> after.entries[n] == g.entries[n])
    ensures Userdata(disk).number in after.entries && android != 0 ==>
              Preserved(g.entries[Userdata(disk).number], after.entries[Userdata(disk).number])
    ensures android != 0 ==> Userdata(disk).number in after.entries
  {
    hide ByName, Feasible, RunAll, RootStart, RootEnd, Start, End, RootSector, HomeSector, Tail, Call, WellFormed, Stock;
    BareBelow(g, disk);
    Realised(g, disk, mode, android, root, guids);
    AfterWellFormed(g, disk, mode, android, root, g.entries[Userdata(disk).number], guids);
    StockTail(g, disk);
  }

  lemma WithWellFormed(g: Gpt, number: nat, info: Info)
    requires WellFormed(g) && Placeable(g, number, info.first, info.last)
    ensures WellFormed(With(g, number, info))
  {
  }

  lemma PlacedWell(g: Gpt, number: nat, info: Info)
    requires WellFormed(g) && Below(g, info.first) && info.first <= info.last <= g.lastUsable
    requires 1 <= number <= g.capacity && number !in g.entries
    ensures WellFormed(With(g, number, info)) && Below(With(g, number, info), info.last + 1)
  {
    hide WellFormed, Below, Placeable;
    PlaceBelow(g, number, info.first, info.last, info);
    WithWellFormed(g, number, info);
  }

  /** userdata's part of the new table: kept up to the cut, or gone. */
  function KeptPart(g: Gpt, disk: Disk, android: int, a: int, info: Info): Gpt
    requires ByName(disk.partitions, USERDATA).Ok? && ByName(disk.partitions, USERDATA).value.Some? && (android != 0 ==> a > 0)
  {
    var u := Userdata(disk);
    var bare := Without(g, u.number);
    if android != 0 then With(bare, u.number, Info(u.first, a - 1, info.typecode, info.guid, USERDATA, info.attributes)) else bare
  }

  lemma KeptWellFormed(g: Gpt, disk: Disk, android: int, a: int, info: Info)
    requires Stock(g, disk)
    requires ByName(disk.partitions, USERDATA).Ok? && ByName(disk.partitions, USERDATA).value.Some?
    requires Userdata(disk).first <= a <= g.lastUsable && (android != 0 ==> Userdata(disk).first < a)
    ensures WellFormed(KeptPart(g, disk, android, a, info)) && Below(KeptPart(g, disk, android, a, info), a)
  {
    hide ByName, Userdata, WellFormed, Stock, Below;
    BareBelow(g, disk);
    BareWellFormed(g, disk);
    var u := Userdata(disk);
    if android != 0 {
      PlacedWell(Without(g, u.number), u.number, Info(u.first, a - 1, info.typecode, info.guid, USERDATA, info.attributes));
    } else {
      BelowLater(Without(g, u.number), u.first, a);
    }
  }

  lemma AfterWellFormed(g: Gpt, disk: Disk, mode: string, android: int, root: int, info: Info, guids: nat -> string)
    requires disk.sector > 0 && Stock(g, disk) && Feasible(disk, mode, android, root) && NumbersFree(g, Userdata(disk).number, android)
    requires 0 <= RootSector(disk, android) < HomeSector(disk, android, root) && (android != 0 ==> RootSector(disk, android) > 0)
    ensures WellFormed(After(g, disk, android, root, info, guids))
  {
    hide ByName, Feasible, RootStart, RootEnd, Start, End, RootSector, HomeSector, WellFormed, Stock, Below;
    BareBelow(g, disk);
    SectorCuts(disk, mode, android, root);
    var a, b := RootSector(disk, android), HomeSector(disk, android, root);
    KeptWellFormed(g, disk, android, a, info);
    var kept := KeptPart(g, disk, android, a, info);
    var first := Info(a, b - 1, LINUX_TYPECODE, guids(ROOT_NUMBER), ROOT, "0");
    PlacedWell(kept, ROOT_NUMBER, first);
    PlacedWell(With(kept, ROOT_NUMBER, first), HOME_NUMBER, Info(b, disk.lastUsable, LINUX_TYPECODE, guids(HOME_NUMBER), HOME, "0"));
  }

  lemma BelowLater(g: Gpt, from: int, later: int)
    requires Below(g, from) && from <= later
    ensures Below(g, later)
  {
  }

  lemma BareWellFormed(g: Gpt, disk: Disk)
    requires Stock(g, disk)
    ensures ByName(disk.partitions, USERDATA).Ok? && ByName(disk.partitions, USERDATA).value.Some?
    ensures WellFormed(Without(g, Userdata(disk).number))
  {
    hide ByName, Reports;
  }

  lemma HomeHighest(g: Gpt, disk: Disk, mode: string, android: int, root: int, info: Info, guids: nat -> string)
    requires disk.sector > 0 && Stock(g, disk) && Feasible(disk, mode, android, root)
    requires Userdata(disk).number in g.entries
    requires 0 <= RootSector(disk, android) < HomeSector(disk, android, root) && (android != 0 ==> RootSector(disk, android) > 0)
    ensures var e := After(g, disk, android, root, info, guids).entries;
            HOME_NUMBER in e && forall n :: n in e && n != HOME_NUMBER ==> e[n].first < e[HOME_NUMBER].first
  {
    hide ByName, Feasible, RootStart, RootEnd, Start, End, RootSector, HomeSector, Userdata, Reports, Classify;
    StockTail(g, disk);
    SectorCuts(disk, mode, android, root);
  }

  /** Whoever names a partition in the new table. */
  lemma NamesAfter(g: Gpt, disk: Disk, mode: string, android: int, root: int, info: Info, guids: nat -> string)
    requires disk.sector > 0 && Stock(g, disk) && Feasible(disk, mode, android, root)
    requires Userdata(disk).number in g.entries && NumbersFree(g, Userdata(disk).number, android)
    requires 0 <= RootSector(disk, android) < HomeSector(disk, android, root) && (android != 0 ==> RootSector(disk, android) > 0)
    ensures var e := After(g, disk, android, root, info, guids).entries;
            && (forall n :: n in e && e[n].name == ROOT <==> n == ROOT_NUMBER)
            && (forall n :: n in e && e[n].name == HOME <==> n == HOME_NUMBER)
            && (forall n :: n in e && e[n].name == USERDATA <==> android != 0 && n == Userdata(disk).number)
            && HOME_NUMBER in e && (forall n :: n in e && n != HOME_NUMBER ==> e[n].first < e[HOME_NUMBER].first)
  {
    hide ByName, Feasible, RootStart, RootEnd, Start, End, RootSector, HomeSector, Stock, Userdata;
    HomeHighest(g, disk, mode, android, root, info, guids);
    StockTail(g, disk);
    SectorCuts(disk, mode, android, root);
    assert USERDATA != ROOT && USERDATA != HOME && ROOT != HOME by {
      assert |USERDATA| == 8 && |ROOT| == 10 && |HOME| == 10 && ROOT[6] != HOME[6];
    }
  }

  /** A report's lookup finds the partition that alone has the name, or none. */
  lemma ReportFinds(disk: Disk, g: Gpt, name: string, number: nat)
    requires Reports(disk, g)
    requires forall n :: n in g.entries && g.entries[n].name == name ==> n == number
    ensures var r := ByName(disk.partitions, name);
            && r.Ok?
            && (r.value.Some? <==> number in g.entries && g.entries[number].name == name)
            && (r.value.Some? ==> disk.partitions[r.value.value].number == number && Matches(disk.partitions[r.value.value], g.entries[number]))
  {
    var r := ByName(disk.partitions, name);
    if r.Ok? && number in g.entries && g.entries[number].name == name {
      var i :| 0 <= i < |disk.partitions| && disk.partitions[i].number == number;
    }
  }

  /** Any report of the new table passes `verify_applied` and is classified as split. */
  lemma Recognised(g: Gpt, disk: Disk, mode: string, android: int, root: int, guids: nat -> string, after: Gpt, report: Disk)
    requires disk.sector > 0 && Stock(g, disk) && Feasible(disk, mode, android, root)
    requires Userdata(disk).number in g.entries
    requires RunAll(g, Call(disk, Tail(disk, Userdata(disk), android, root), g.entries[Userdata(disk).number]), guids) == Ok(after)
    requires Reports(report, after) && report.sector == disk.sector
    ensures forall e :: e in Tail(disk, Userdata(disk), android, root) ==> Landed(report, e)
    ensures Classify(report) == Ok("split")
  {
    hide ByName, Feasible, RunAll, RootStart, RootEnd, Start, End, FirstSector, LastSector, Reports, Stock, Call;
    BareBelow(g, disk);
    var u := Userdata(disk);
    Realised(g, disk, mode, android, root, guids);
    NamesAfter(g, disk, mode, android, root, g.entries[u.number], guids);
    SectorCuts(disk, mode, android, root);
    TailSectors(disk, u, android, root);
    ReportFinds(report, after, USERDATA, u.number);
    ReportFinds(report, after, ROOT, ROOT_NUMBER);
    ReportFinds(report, after, HOME, HOME_NUMBER);
    HomeIsLast(report, after);
  }

  lemma HomeIsLast(report: Disk, after: Gpt)
    requires Reports(report, after) && HOME_NUMBER in after.entries && after.entries[HOME_NUMBER].name == HOME
    requires forall n :: n in after.entries && n != HOME_NUMBER ==> after.entries[n].first < after.entries[HOME_NUMBER].first
    ensures report.partitions != [] && report.partitions[|report.partitions| - 1].name == HOME
  {
    var k :| 0 <= k < |report.partitions| && report.partitions[k].number == HOME_NUMBER;
    var last := |report.partitions| - 1;
    assert report.partitions[k].first <= report.partitions[last].first || k >= last;
  }

  // ----- a stock table on which the call fails

  const BUSY_LAST: nat := 61731834

  /** Partition `i` of 35: one sector each up to the 34th, which has number 36, and
      userdata. */
  function BusyPartition(i: nat): Partition {
    Partition(if i == 33 then ROOT_NUMBER else i + 1, 6 + i, if i == 34 then BUSY_LAST else 6 + i, if i == 34 then USERDATA else "other")
  }

  function BusyDisk(): (disk: Disk)
    ensures |disk.partitions| == 35 && forall i :: 0 <= i < 35 ==> disk.partitions[i] == BusyPartition(i)
  {
    Disk(DEVICE_SECTOR, BUSY_LAST, 64, seq(35, i requires 0 <= i < 35 => BusyPartition(i)))
  }

  function BusyIndex(n: nat): nat
    requires n > 0
  {
    if n == ROOT_NUMBER then 33 else n - 1
  }

  function BusyTable(): Gpt {
    Gpt(6, BUSY_LAST, 64, map n: nat | 1 <= n <= 36 && n != 34 ::
          n := var p := BusyPartition(BusyIndex(n)); Info(p.first, p.last, LINUX_TYPECODE, "", p.name, "0"))
  }

  lemma BusyNames()
    ensures ByName(BusyDisk().partitions, USERDATA) == Ok(Some(34))
    ensures ByName(BusyDisk().partitions, ROOT) == Ok(None) && ByName(BusyDisk().partitions, HOME) == Ok(None)
  {
    hide ByName;
    var ps := BusyDisk().partitions;
    assert USERDATA != ROOT && USERDATA != HOME && "other" != ROOT && "other" != HOME && "other" != USERDATA by {
      assert |USERDATA| == 8 && |ROOT| == 10 && |HOME| == 10 && |"other"| == 5;
    }
    assert ps[34].name == USERDATA;
  }

  function BusyInfo(p: Partition): Info {
    Info(p.first, p.last, LINUX_TYPECODE, "", p.name, "0")
  }

  predicate BusyNumber(n: nat) {
    1 <= n <= 36 && n != 34
  }

  lemma BusyEntry(n: nat)
    ensures n in BusyTable().entries <==> BusyNumber(n)
    ensures BusyNumber(n) ==>
              && BusyIndex(n) < 35 && BusyPartition(BusyIndex(n)).number == n
              && BusyTable().entries[n] == BusyInfo(BusyPartition(BusyIndex(n)))
  {
  }

  lemma BusyApart(i: nat, j: nat)
    requires i < 35 && j < 35 && i != j
    ensures Apart(BusyInfo(BusyPartition(i)), BusyInfo(BusyPartition(j))) && BusyPartition(i).number != BusyPartition(j).number
    ensures i < j ==> BusyPartition(i).first <= BusyPartition(j).first
    ensures 6 <= BusyPartition(i).first <= BusyPartition(i).last <= BUSY_LAST
  {
  }

  lemma BusyWellFormed()
    ensures WellFormed(BusyTable())
  {
    hide BusyTable, BusyPartition;
    BusyBounds();
    var g := BusyTable();
    forall n | n in g.entries
      ensures 1 <= n <= g.capacity && g.firstUsable <= g.entries[n].first <= g.entries[n].last <= g.lastUsable
    {
      BusyEntry(n);
      BusyApart(BusyIndex(n), (BusyIndex(n) + 1) % 35);
    }
    forall n, m | n in g.entries && m in g.entries && n != m ensures Apart(g.entries[n], g.entries[m]) {
      BusyEntry(n);
      BusyEntry(m);
      BusyApart(BusyIndex(n), BusyIndex(m));
    }
  }

  lemma BusyBounds()
    ensures BusyTable().capacity == 64 && BusyTable().firstUsable == 6 && BusyTable().lastUsable == BUSY_LAST
  {
  }

  lemma BusyReported()
    ensures Reports(BusyDisk(), BusyTable()) && WellFormed(BusyTable())
  {
    hide BusyTable, BusyPartition, WellFormed;
    BusyBounds();
    BusyWellFormed();
    var disk, g := BusyDisk(), BusyTable();
    forall n | n in g.entries ensures exists i :: 0 <= i < |disk.partitions| && disk.partitions[i].number == n {
      BusyEntry(n);
      assert disk.partitions[BusyIndex(n)].number == n;
    }
    forall i | 0 <= i < |disk.partitions|
      ensures disk.partitions[i].number in g.entries && Matches(disk.partitions[i], g.entries[disk.partitions[i].number])
    {
      BusyBack(i);
      BusyEntry(disk.partitions[i].number);
    }
    forall i, j | 0 <= i < j < |disk.partitions|
      ensures disk.partitions[i].number != disk.partitions[j].number && disk.partitions[i].first <= disk.partitions[j].first
    {
      BusyApart(i, j);
    }
  }

  lemma BusyBack(i: nat)
    requires i < 35
    ensures BusyNumber(BusyPartition(i).number) && BusyIndex(BusyPartition(i).number) == i
  {
  }

  lemma BusyFeasible()
    ensures Feasible(BusyDisk(), "linux-only", 0, 32 * GIB)
  {
    BusyNames();
    assert BusyDisk().partitions[34] == BusyPartition(34);
  }

  /** The device check and the planner accept it, but number 36 is in use and the
      call fails. */
  lemma BusyNumberRefused(guids: nat -> string)
    ensures var g, disk := BusyTable(), BusyDisk();
            && CheckStockDevice(disk) && Stock(g, disk) && Feasible(disk, "linux-only", 0, 32 * GIB)
            && Userdata(disk).number in g.entries && ROOT_NUMBER in g.entries
            && RunAll(g, Call(disk, Tail(disk, Userdata(disk), 0, 32 * GIB), g.entries[Userdata(disk).number]), guids).Err?
  {
    hide ByName, Reports, WellFormed, Feasible, RunAll, Call, Tail, RootStart, RootEnd;
    BusyNames();
    BusyReported();
    BusyFeasible();
    var disk := BusyDisk();
    assert disk.partitions[34] == BusyPartition(34);
    Realised(BusyTable(), disk, "linux-only", 0, 32 * GIB, guids);
  }
}
