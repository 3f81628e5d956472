/** The layout engine in numbers and names: which requests it takes, the one call it
    makes, the table that leaves, and the tables it knows. */
module LayoutCall {
  import opened Bytes
  import opened Layout

  /** `cut` is the least multiple of 4 MiB from `from` on. */
  predicate Cut(cut: int, from: int) {
    cut % 4194304 == 0 && from <= cut < from + 4194304
  }

  /** There is exactly one userdata partition, at place `k`. */
  predicate OneUserdata(disk: Disk, k: nat) {
    k < |disk.partitions| && disk.partitions[k].name == "userdata"
    && forall i :: 0 <= i < |disk.partitions| && disk.partitions[i].name == "userdata" ==> i == k
  }

  lemma UserdataIs(disk: Disk, k: nat)
    requires OneUserdata(disk, k)
    ensures ByName(disk.partitions, USERDATA) == Ok(Some(k)) && Userdata(disk) == disk.partitions[k]
  {
    hide ByName;
    var r := ByName(disk.partitions, USERDATA);
    assert r.Ok? && r.value.Some?;
  }

  /** Every request the planner takes, in bytes: two cuts on 4 MiB boundaries, at least
      16 GiB for the root, 8 GiB for the home and, unless Android goes, 16 GiB for it. */
  lemma FeasibleIs(disk: Disk, mode: string, android: int, root: int, k: nat)
    requires disk.sector > 0 && 4194304 % disk.sector == 0 && OneUserdata(disk, k)
    ensures var start, end := disk.partitions[k].first * disk.sector, (disk.lastUsable + 1) * disk.sector;
            Feasible(disk, mode, android, root) <==>
              && (mode == "linux-only" || (mode == "dual" && android != 0))
              && (android == 0 || android >= 17179869184) && root >= 17179869184
              && exists a, b :: a % 4194304 == 0 && b % 4194304 == 0 && start + android <= a && a + root <= b && b + 8589934592 <= end
  {
    hide ByName, AlignUp, Fits, Feasible;
    UserdataIs(disk, k);
    if Feasible(disk, mode, android, root) {
      FeasibleMode(disk, mode, android, root);
    }
    if RequestOk(mode, android, root) {
      PlansWheneverPossible(disk, mode, android, root);
      var start, end := Start(disk, Userdata(disk)), End(disk);
      if a, b :| Meets(start, end, android, root, a, b) {
        assert a % 4194304 == 0 && b % 4194304 == 0;
      }
      if a, b :| a % 4194304 == 0 && b % 4194304 == 0 && start + android <= a && a + root <= b && b + 8589934592 <= end {
        assert Meets(start, end, android, root, a, b);
      }
    }
  }

  lemma FeasibleMode(disk: Disk, mode: string, android: int, root: int)
    requires disk.sector > 0 && Feasible(disk, mode, android, root)
    ensures RequestOk(mode, android, root)
  {
    hide ByName, Fits, RequestOk;
  }

  /** The one call, option by option, with the cuts `a` and `b` in sectors. */
  function Options(u: Partition, info: Info, android: int, a: int, b: int, last: nat): seq<Command> {
    [SetAlignment, Remove(u.number)]
    + (if android == 0 then []
       else [New(u.number, u.first, a - 1), Typecode(u.number, info.typecode), Guid(u.number, info.guid),
             ChangeName(u.number, "userdata"), Attributes(u.number, info.attributes)])
    + [New(36, a, b - 1), Typecode(36, "8300"), ChangeName(36, "linux_root"),
       New(37, b, last), Typecode(37, "8300"), ChangeName(37, "linux_home")]
  }

  lemma CallIs(disk: Disk, mode: string, android: int, root: int, info: Info, k: nat) returns (a: int, b: int)
    requires disk.sector > 0 && OneUserdata(disk, k) && Feasible(disk, mode, android, root)
    ensures var u := disk.partitions[k];
            && Cut(a * disk.sector, u.first * disk.sector + android) && Cut(b * disk.sector, a * disk.sector + root)
            && a == RootSector(disk, android) && b == HomeSector(disk, android, root)
            && Call(disk, Tail(disk, u, android, root), info) == Options(u, info, android, a, b, disk.lastUsable)
  {
    hide ByName, FirstSector, LastSector, AlignUp, Creation, Creations, Keep, Options;
    UserdataIs(disk, k);
    var u := Userdata(disk);
    var start := Start(disk, u);
    var t := Tail(disk, u, android, root);
    a, b := RootSector(disk, android), HomeSector(disk, android, root);
    SectorCuts(disk, mode, android, root);
    TailSectors(disk, u, android, root);
    TwoCreations(disk, u, android, root);
    AlignUpIsLeast(start + android, 0);
    AlignUpIsLeast(RootStart(start, android) + root, 0);
    WholeCuts(disk, mode, android, root);
    DivModFacts(RootStart(start, android), disk.sector);
    DivModFacts(RootEnd(start, android, root), disk.sector);
    CreationIs(t[1], disk.sector);
    CreationIs(t[2], disk.sector);
    KeepIs(t[0], disk.sector, info);
    OptionsAre(u, info, android, a, b, disk.lastUsable);
  }

  lemma WholeCuts(disk: Disk, mode: string, android: int, root: int)
    requires disk.sector > 0 && Feasible(disk, mode, android, root)
    ensures RootStart(Start(disk, Userdata(disk)), android) % disk.sector == 0
    ensures RootEnd(Start(disk, Userdata(disk)), android, root) % disk.sector == 0
  {
    hide ByName, AlignUp;
  }

  lemma CreationIs(e: Entry, sector: nat)
    requires sector > 0
    ensures Creation(e, sector) == [New(e.number, FirstSector(e, sector), LastSector(e, sector)), Typecode(e.number, "8300"), ChangeName(e.number, e.name)]
  {
  }

  lemma KeepIs(e: Entry, sector: nat, info: Info)
    requires sector > 0
    ensures Keep(e, sector, info) == [New(e.number, FirstSector(e, sector), LastSector(e, sector)), Typecode(e.number, info.typecode),
                                      Guid(e.number, info.guid), ChangeName(e.number, "userdata"), Attributes(e.number, info.attributes)]
  {
  }

  lemma OptionsAre(u: Partition, info: Info, android: int, a: int, b: int, last: nat)
    ensures Options(u, info, android, a, b, last) ==
      [SetAlignment, Remove(u.number)]
      + (if android == 0 then []
         else [New(u.number, u.first, a - 1), Typecode(u.number, info.typecode), Guid(u.number, info.guid),
               ChangeName(u.number, "userdata"), Attributes(u.number, info.attributes)])
      + ([New(36, a, b - 1), Typecode(36, "8300"), ChangeName(36, "linux_root")]
         + ([New(37, b, last), Typecode(37, "8300"), ChangeName(37, "linux_home")] + []))
  {
  }

  /** The new table's entries for the three partitions. */
  predicate Entered(e: map<nat, Info>, u: Partition, info: Info, android: int, a: int, b: int, last: nat, guids: nat -> string) {
    && 36 in e && e[36].first == a && e[36].last == b - 1 && e[36].name == "linux_root"
    && 37 in e && e[37].first == b && e[37].last == last && e[37].name == "linux_home"
    && e[36].typecode == "8300" && e[37].typecode == "8300" && e[36].guid == guids(36) && e[37].guid == guids(37)
    && e[36].attributes == "0" && e[37].attributes == "0"
    && (android == 0 && u.number != 36 && u.number != 37 ==> u.number !in e)
    && (android != 0 ==>
          && u.number in e && e[u.number].first == u.first && e[u.number].last == a - 1 && e[u.number].name == "userdata"
          && e[u.number].typecode == info.typecode && e[u.number].guid == info.guid && e[u.number].attributes == info.attributes)
  }

  /** What the call leaves in the table, if numbers 36 and 37 can be used. */
  lemma AfterIs(g: Gpt, disk: Disk, mode: string, android: int, root: int, guids: nat -> string, k: nat, info: Info, after: Gpt)
    requires disk.sector > 0 && OneUserdata(disk, k) && Stock(g, disk) && Feasible(disk, mode, android, root)
    requires disk.partitions[k].number in g.entries && info == g.entries[disk.partitions[k].number]
    requires RunAll(g, Call(disk, Tail(disk, disk.partitions[k], android, root), info), guids) == Ok(after)
    ensures Entered(after.entries, disk.partitions[k], info, android, RootSector(disk, android), HomeSector(disk, android, root), disk.lastUsable, guids)
  {
    hide ByName, Stock, Feasible, RunAll, Call, Tail, RootStart, RootEnd, Start, End, RootSector, HomeSector;
    UserdataIs(disk, k);
    Realised(g, disk, mode, android, root, guids);
  }

  // ----- the tables it knows

  /** The factory table: 35 partitions, the last of them the only userdata, up to the
      end of the disk, and none of ours. */
  lemma StockIs(disk: Disk)
    ensures Classify(disk) == Ok("stock") <==>
              && |disk.partitions| == 35 && disk.partitions[34].name == "userdata" && disk.partitions[34].last == disk.lastUsable
              && (forall i :: 0 <= i < 34 ==> disk.partitions[i].name != "userdata")
              && forall i :: 0 <= i < 35 ==> disk.partitions[i].name != "linux_root" && disk.partitions[i].name != "linux_home"
  {
    hide ByName;
    Distinct();
    var p := disk.partitions;
    if |p| == 35 && p[34].name == "userdata" && forall i :: 0 <= i < 34 ==> p[i].name != "userdata" {
      UserdataIs(disk, 34);
    }
    if |p| == 35 && forall i :: 0 <= i < 35 ==> p[i].name != "linux_root" && p[i].name != "linux_home" {
      NoneOf(p, ROOT);
      NoneOf(p, HOME);
    }
  }

  lemma NoneOf(p: seq<Partition>, name: string)
    requires forall i :: 0 <= i < |p| ==> p[i].name != name
    ensures ByName(p, name) == Ok(None)
  {
    hide ByName;
    var r := ByName(p, name);
    assert r.Ok? && r.value.None?;
  }

  lemma Distinct()
    ensures "stock" != "split" && "stock" != "unknown" && "split" != "unknown"
  {
    assert "stock"[1] != "split"[1] && "stock"[0] != "unknown"[0] && "split"[0] != "unknown"[0];
  }

  /** A table of this installer's: a `linux_root`, none of the three names twice, and
      one of ours last. */
  lemma SplitIs(disk: Disk)
    ensures Classify(disk) == Ok("split") <==>
              && (exists i :: 0 <= i < |disk.partitions| && disk.partitions[i].name == "linux_root")
              && (disk.partitions[|disk.partitions| - 1].name == "linux_root" || disk.partitions[|disk.partitions| - 1].name == "linux_home")
              && forall i, j :: 0 <= i < j < |disk.partitions| && disk.partitions[i].name == disk.partitions[j].name ==>
                   disk.partitions[i].name != "userdata" && disk.partitions[i].name != "linux_root" && disk.partitions[i].name != "linux_home"
  {
    hide ByName;
    Distinct();
    NameOnce(disk.partitions, USERDATA);
    NameOnce(disk.partitions, ROOT);
    NameOnce(disk.partitions, HOME);
  }

  lemma NameOnce(p: seq<Partition>, name: string)
    ensures ByName(p, name).Ok? <==> forall i, j :: 0 <= i < j < |p| && p[i].name == p[j].name ==> p[i].name != name
    ensures ByName(p, name).Ok? ==> (ByName(p, name).value.Some? <==> exists i :: 0 <= i < |p| && p[i].name == name)
  {
    hide ByName;
    var r := ByName(p, name);
  }

  /** What the device check asks for. */
  lemma DeviceIs(disk: Disk)
    ensures CheckStockDevice(disk) <==>
              && disk.sector == 4096 && |disk.partitions| == 35 && disk.capacity >= 37
              && disk.partitions[34].name == "userdata" && disk.partitions[34].last == disk.lastUsable
              && forall i :: 0 <= i < 34 ==> disk.partitions[i].name != "userdata"
  {
    hide ByName;
    var p := disk.partitions;
    if |p| == 35 && p[34].name == "userdata" && forall i :: 0 <= i < 34 ==> p[i].name != "userdata" {
      UserdataIs(disk, 34);
    }
  }
}
