/**
 * The L1Parser object: load fills its four containers block by block, and
 * the queries read them. Each method is proved against the functions of
 * Engine, Entries and RawConfig, whose properties are proved there.
 */
module L1 {
  import opened Wrappers
  import opened StringUtils
  import opened Decimal
  import opened RawConfig
  import opened Entries
  import opened Engine
  import opened Sorting

  /** get_split_prop: the band-th ';'-separated value of field k, "" when missing. */
  method GetSplitProp(props: map<string, string>, k: string, band: nat) returns (v: string)
    ensures v == SplitProp(props, k, band)
  {
    if k in props {
      var parts := SplitTokens(props[k], ';', true);
      if band < |parts| {
        return parts[band];
      }
    }
    return "";
  }

  /** resolve: the configured per-band name, or the fallback built from main_ifname or the block index. */
  method ResolveName(props: map<string, string>, k: string, prefix: string, isExt: bool,
                     mainIf: string, rawIdx: nat, band: nat) returns (v: string)
    ensures v == Resolve(props, k, prefix, isExt, mainIf, rawIdx, band)
  {
    var val := GetSplitProp(props, k, band);
    if val != [] {
      return val;
    }
    if isExt {
      return mainIf + "_";
    }
    return prefix + NatToString(rawIdx + 1) + "_";
  }

  /** The fill loop of create_and_map_entry, over the block's fields in any order. */
  method FillProps(props: map<string, string>, band: nat) returns (filled: map<string, string>)
    ensures filled == FilledProps(props, band)
  {
    filled := map[];
    var todo := props.Keys;
    while todo != {}
      invariant todo <= props.Keys
      invariant filled.Keys == props.Keys - todo
      invariant forall k :: k in filled ==> filled[k] == Filled(props, k, band)
      decreases |todo|
    {
      var k :| k in todo;
      if k == "INDEX" || (|k| >= 6 && k[..6] == "EEPROM") || k == "mainidx" {
        filled := filled[k := props[k]];
      } else {
        var v := GetSplitProp(props, k, band);
        filled := filled[k := v];
      }
      todo := todo - {k};
    }
  }

  /**
   * The interfaces zone2if reports for a device: main, ext, apcli, wds and
   * mesh name, each only when present and not empty.
   */
  function IfacesOf(e: L1Entry): (r: seq<string>)
    ensures forall i :: 0 <= i < |r| ==> r[i] != []
  {
    var p := e.props;
    AddIf(AddIf(AddIf(AddIf(AddIf([], p, "main_ifname"), p, "ext_ifname"), p, "apcli_ifname"), p, "wds_ifname"), p, "mesh_ifname")
  }

  /** zone2if reports five names for every entry create_and_map_entry builds: main, ext, apcli, wds and mesh. */
  lemma MadeIfaces(chip: string, mainIdx: nat, subIdx: nat, rawIdx: nat, band: nat,
                   mainIf: string, props: map<string, string>)
    requires mainIf != []
    ensures IfacesOf(MakeEntry(chip, mainIdx, subIdx, rawIdx, band, mainIf, props)) ==
      [mainIf, Resolve(props, "ext_ifname", "", true, mainIf, rawIdx, band),
       Resolve(props, "apcli_ifname", "apcli", false, mainIf, rawIdx, band),
       Resolve(props, "wds_ifname", "wds", false, mainIf, rawIdx, band),
       Resolve(props, "mesh_ifname", "mesh", false, mainIf, rawIdx, band)]
  {
    MakeEntryDerived(chip, mainIdx, subIdx, rawIdx, band, mainIf, props);
  }

  /** A stored entry has a main interface, so zone2if reports at least that one for it. */
  lemma WellFormedIfaces(e: L1Entry)
    requires WellFormed(e)
    ensures IfacesOf(e) != []
  {
    var p := e.props;
    var r1 := AddIf([], p, "main_ifname");
    assert r1 == [p["main_ifname"]];
    var r2 := AddIf(r1, p, "ext_ifname");
    var r3 := AddIf(r2, p, "apcli_ifname");
    var r4 := AddIf(r3, p, "wds_ifname");
    assert |r4| >= 1;
  }

  /** An entry whose nvram_zone is zone. */
  predicate InZone(e: L1Entry, zone: string) {
    "nvram_zone" in e.props && e.props["nvram_zone"] == zone
  }

  /**
   * The position in order of the first device in zone, None when there is
   * none: the device zone2if stops at, order being dev_map_'s iteration order.
   */
  function FirstInZone(devMap: map<string, L1Entry>, order: seq<string>, zone: string): (r: Option<nat>)
    requires forall i :: 0 <= i < |order| ==> order[i] in devMap
    ensures r.Some? ==> r.value < |order| && InZone(devMap[order[r.value]], zone)
    ensures r.Some? ==> forall j :: 0 <= j < r.value ==> !InZone(devMap[order[j]], zone)
    ensures r.None? <==> forall j :: 0 <= j < |order| ==> !InZone(devMap[order[j]], zone)
  {
    if order == [] then None
    else if InZone(devMap[order[0]], zone) then Some(0)
    else
      match FirstInZone(devMap, order[1..], zone)
      case None => None
      case Some(i) => Some(i + 1)
  }

  class L1Parser {
    var devMap: map<string, L1Entry>
    var ifMap: map<string, L1Entry>
    var rawBlocks: seq<RawBlock>
    var orderedDevKeys: seq<string>

    /** The four containers as a value. */
    function Snapshot(): Parser
      reads this
    {
      Parser(devMap, ifMap, rawBlocks, orderedDevKeys)
    }

    /** The containers are linked and the key list is sorted. */
    ghost predicate Valid()
      reads this
    {
      Engine.Valid(Snapshot()) && Sorted(orderedDevKeys)
    }

    constructor()
      ensures Snapshot() == Empty
    {
      devMap := map[];
      ifMap := map[];
      rawBlocks := [];
      orderedDevKeys := [];
    }

    /** map_if: a non-empty name now maps to entry. */
    method MapIf(name: string, entry: L1Entry)
      modifies this
      ensures ifMap == if name != [] then old(ifMap)[name := entry] else old(ifMap)
      ensures devMap == old(devMap) && rawBlocks == old(rawBlocks) && orderedDevKeys == old(orderedDevKeys)
    {
      if name != [] {
        ifMap := ifMap[name := entry];
      }
    }

    /** One of the map_if loops: base + to_string(j) for j from lo up to hi - 1. */
    method MapSuffixed(base: string, lo: nat, hi: nat, entry: L1Entry,
                       ghost m0: map<string, L1Entry>, ghost prior: seq<string>)
      requires lo <= hi && ifMap == Registered(m0, prior, entry)
      modifies this
      ensures ifMap == Registered(m0, prior + Suffixed(base, lo, hi), entry)
      ensures devMap == old(devMap) && rawBlocks == old(rawBlocks) && orderedDevKeys == old(orderedDevKeys)
    {
      var j := lo;
      while j < hi
        invariant lo <= j <= hi
        invariant ifMap == Registered(m0, prior + Suffixed(base, lo, j), entry)
        invariant devMap == old(devMap) && rawBlocks == old(rawBlocks) && orderedDevKeys == old(orderedDevKeys)
      {
        SuffixedStep(base, lo, j);
        AppendAssoc(prior, Suffixed(base, lo, j), [base + NatToString(j)]);
        RegisteredStep(m0, prior + Suffixed(base, lo, j), base + NatToString(j), entry);
        MapIf(base + NatToString(j), entry);
        j := j + 1;
      }
    }

    /** Registers the names of an entry whose derived names are the given ones. */
    method MapNames(entry: L1Entry, mainIf: string, ext: string, apcli: string, wds: string, mesh: string)
      requires Prop(entry, "main_ifname") == mainIf && Prop(entry, "ext_ifname") == ext
      requires Prop(entry, "apcli_ifname") == apcli && Prop(entry, "wds_ifname") == wds
      requires Prop(entry, "mesh_ifname") == mesh
      modifies this
      ensures ifMap == Registered(old(ifMap), NamesOf(entry), entry)
      ensures devMap == old(devMap) && rawBlocks == old(rawBlocks) && orderedDevKeys == old(orderedDevKeys)
    {
      ghost var m0 := ifMap;
      RegisteredNone(m0, entry);
      RegisteredStep(m0, [], mainIf, entry);
      MapIf(mainIf, entry);
      ghost var names := [mainIf];
      MapSuffixed(ext, 1, MAX_NUM_EXTIF, entry, m0, names);
      names := names + Suffixed(ext, 1, MAX_NUM_EXTIF);
      MapSuffixed(apcli, 0, MAX_NUM_APCLI, entry, m0, names);
      names := names + Suffixed(apcli, 0, MAX_NUM_APCLI);
      MapSuffixed(wds, 0, MAX_NUM_WDS, entry, m0, names);
      names := names + Suffixed(wds, 0, MAX_NUM_WDS);
      MapSuffixed(mesh, 0, MAX_NUM_MESH, entry, m0, names);
      names := names + Suffixed(mesh, 0, MAX_NUM_MESH);
      assert names == NamesOf(entry);
    }

    /** create_and_map_entry: builds the band's entry, stores and lists it, and maps its names. */
    method CreateAndMapEntry(chip: string, mainIdx: nat, subIdx: nat, rawIdx: nat, band: nat,
                             mainIf: string, props: map<string, string>)
      modifies this
      ensures Snapshot() == AddEntry(old(Snapshot()), MakeEntry(chip, mainIdx, subIdx, rawIdx, band, mainIf, props))
    {
      var ext := ResolveName(props, "ext_ifname", "", true, mainIf, rawIdx, band);
      var apcli := ResolveName(props, "apcli_ifname", "apcli", false, mainIf, rawIdx, band);
      var wds := ResolveName(props, "wds_ifname", "wds", false, mainIf, rawIdx, band);
      var mesh := ResolveName(props, "mesh_ifname", "mesh", false, mainIf, rawIdx, band);

      var entryProps := FillProps(props, band);
      entryProps := entryProps["main_ifname" := mainIf];
      entryProps := entryProps["ext_ifname" := ext];
      entryProps := entryProps["apcli_ifname" := apcli];
      entryProps := entryProps["wds_ifname" := wds];
      entryProps := entryProps["mesh_ifname" := mesh];
      entryProps := entryProps["subidx" := NatToString(subIdx)];
      entryProps := entryProps["mainidx" := NatToString(mainIdx)];
      var entry := L1Entry(chip, mainIdx, subIdx, entryProps);
      assert entry == MakeEntry(chip, mainIdx, subIdx, rawIdx, band, mainIf, props);

      var devKey := chip + "_" + NatToString(mainIdx) + "_" + NatToString(subIdx);
      devMap := devMap[devKey := entry];
      orderedDevKeys := orderedDevKeys + [devKey];
      MapNames(entry, mainIf, ext, apcli, wds, mesh);
    }

    /**
     * process_block: a block without INDEX changes nothing; otherwise the
     * chip's counter goes up, and a block with interfaces is recorded and
     * gets one entry per interface.
     */
    method ProcessBlock(rawIdx: nat, props: map<string, string>, counter: map<string, nat>)
      returns (counter': map<string, nat>)
      modifies this
      ensures Loading(Snapshot(), counter') == Step(Loading(old(Snapshot()), counter), RawRow(rawIdx, props))
    {
      if "INDEX" !in props {
        return counter;
      }
      ghost var p0 := Snapshot();
      var chip := props["INDEX"];
      var mainIdx := Seen(counter, chip) + 1;
      counter' := counter[chip := mainIdx];
      var mainIfText := if "main_ifname" in props then props["main_ifname"] else "";
      var names := SplitTokens(mainIfText, ';', false);
      if names == [] {
        StepIs(Loading(p0, counter), RawRow(rawIdx, props), chip);
      IndexedAt(Loading(p0, counter), chip, RawRow(rawIdx, props), mainIdx, Snapshot(), counter');
        return;
      }
      rawBlocks := rawBlocks + [RawBlock(rawIdx, names)];
      ghost var p1 := Snapshot();
      for i := 0 to |names|
        invariant Snapshot() == AddBands(p1, chip, mainIdx, rawIdx, names, props, i)
      {
        CreateAndMapEntry(chip, mainIdx, i + 1, rawIdx, i, names[i], props);
        AddBandsStep(p1, chip, mainIdx, rawIdx, names, props, i + 1);
      }
      RecordBands(p0, chip, mainIdx, rawIdx, props, names, Snapshot());
      StepIs(Loading(p0, counter), RawRow(rawIdx, props), chip);
      IndexedAt(Loading(p0, counter), chip, RawRow(rawIdx, props), mainIdx, Snapshot(), counter');
    }

    /**
     * load on a fresh parser: the table of the file, every block in
     * ascending index order, then the key list sorted. It fails only when
     * the file cannot be opened.
     */
    method Load(lines: seq<string>, isOpen: bool) returns (ok: bool)
      requires Snapshot() == Empty
      modifies this
      ensures ok == isOpen
      ensures Snapshot() == Loaded(lines, isOpen)
      ensures Valid()
    {
      var raw := ParseRawConfig(lines, isOpen);
      if raw == [] && !isOpen {
        LoadedValid(lines, isOpen);
        return false;
      }
      var counter: map<string, nat> := map[];
      for i := 0 to |raw|
        invariant Loading(Snapshot(), counter) == Process(raw[..i])
      {
        ProcessStep(raw, i);
        counter := ProcessBlock(raw[i].index, raw[i].props, counter);
      }
      assert raw[..|raw|] == raw;
      ghost var p := Snapshot();
      orderedDevKeys := SortStrings(orderedDevKeys);
      LoadedOpen(lines, p);
      LoadedValid(lines, true);
      return true;
    }

    /** get_prop: the field of a stored device, None when either is missing. */
    function GetProp(dev: string, key: string): (r: Option<string>)
      reads this
      ensures r.Some? <==> dev in devMap && key in devMap[dev].props
      ensures r.Some? ==> r.value == devMap[dev].props[key]
      ensures Valid() && dev in devMap ==> dev == DevKey(devMap[dev].indexName, devMap[dev].mainIdx, devMap[dev].subIdx)
      ensures Valid() && dev in devMap && key == "INDEX" ==> r == Some(devMap[dev].indexName)
      ensures Valid() && dev in devMap && key == "mainidx" ==> r == Some(NatToString(devMap[dev].mainIdx))
      ensures Valid() && dev in devMap && key == "subidx" ==> r == Some(NatToString(devMap[dev].subIdx))
    {
      if dev in devMap && key in devMap[dev].props then Some(devMap[dev].props[key]) else None
    }

    /** list_devs: the key list, which a valid parser keeps sorted and exactly the stored keys. */
    function ListDevs(): (r: seq<string>)
      reads this
      ensures Valid() ==> Sorted(r) && Distinct(r)
      ensures Valid() ==> forall k :: k in r <==> k in devMap
    {
      orderedDevKeys
    }

    /** if2zone: nvram_zone of the device an interface belongs to. */
    function If2Zone(name: string): (r: Option<string>)
      reads this
      ensures name !in ifMap ==> r == None
      ensures Valid() && name in ifMap ==> r == GetProp(KeyOf(ifMap[name]), "nvram_zone")
    {
      if name in ifMap && "nvram_zone" in ifMap[name].props then Some(ifMap[name].props["nvram_zone"]) else None
    }

    /** if2dat: profile_path of the device an interface belongs to. */
    function If2Dat(name: string): (r: Option<string>)
      reads this
      ensures name !in ifMap ==> r == None
      ensures Valid() && name in ifMap ==> r == GetProp(KeyOf(ifMap[name]), "profile_path")
    {
      if name in ifMap && "profile_path" in ifMap[name].props then Some(ifMap[name].props["profile_path"]) else None
    }

    /** if2dbdcidx: the band number of the device an interface belongs to, which is its subidx field. */
    function If2DbdcIdx(name: string): (r: Option<string>)
      reads this
      ensures r.Some? <==> name in ifMap
      ensures Valid() && name in ifMap ==> r == GetProp(KeyOf(ifMap[name]), "subidx")
    {
      if name in ifMap then Some(NatToString(ifMap[name].subIdx)) else None
    }

    /**
     * zone2if: the interfaces of the first device in zone, visiting the
     * devices in order; empty when no device is in zone.
     */
    method Zone2If(zone: string, order: seq<string>) returns (ifaces: seq<string>)
      requires forall i :: 0 <= i < |order| ==> order[i] in devMap
      requires forall k :: k in devMap ==> k in order
      ensures ifaces == match FirstInZone(devMap, order, zone)
                        case None => []
                        case Some(i) => IfacesOf(devMap[order[i]])
      ensures (forall k :: k in devMap ==> !InZone(devMap[k], zone)) ==> ifaces == []
      ensures Valid() ==> (ifaces == [] <==> forall k :: k in devMap ==> !InZone(devMap[k], zone))
    {
      ifaces := [];
      var d := 0;
      while d < |order|
        invariant 0 <= d <= |order|
        invariant forall j :: 0 <= j < d ==> !InZone(devMap[order[j]], zone)
      {
        var props := devMap[order[d]].props;
        if "nvram_zone" in props && props["nvram_zone"] == zone {
          ifaces := AddIf(ifaces, props, "main_ifname");
          ifaces := AddIf(ifaces, props, "ext_ifname");
          ifaces := AddIf(ifaces, props, "apcli_ifname");
          ifaces := AddIf(ifaces, props, "wds_ifname");
          ifaces := AddIf(ifaces, props, "mesh_ifname");
          assert ifaces == IfacesOf(devMap[order[d]]);
          FirstAt(order, zone, d);
          if Valid() {
            WellFormedIfaces(devMap[order[d]]);
          }
          return;
        }
        d := d + 1;
      }
      forall k | k in devMap
        ensures !InZone(devMap[k], zone)
      {
        var j :| 0 <= j < |order| && order[j] == k;
      }
    }

    /** idx2if: the idx-th interface (from 1) over all recorded blocks in order. */
    method Idx2If(idx: int) returns (r: Option<string>)
      ensures r == if 1 <= idx <= |Flatten(rawBlocks)| then Some(Flatten(rawBlocks)[idx - 1]) else None
    {
      if idx <= 0 {
        return None;
      }
      var target: nat := idx;
      var cumulative: nat := 0;
      var b := 0;
      while b < |rawBlocks|
        invariant 0 <= b <= |rawBlocks|
        invariant cumulative == |Flatten(rawBlocks[..b])| < target
      {
        var count := |rawBlocks[b].mainIfnames|;
        if target > cumulative && target <= cumulative + count {
          var offset := target - cumulative - 1;
          if offset < |rawBlocks[b].mainIfnames| {
            BlockSlot(b, offset);
            return Some(rawBlocks[b].mainIfnames[offset]);
          }
        }
        assert rawBlocks[..b + 1][..b] == rawBlocks[..b];
        cumulative := cumulative + count;
        b := b + 1;
      }
      assert rawBlocks[..b] == rawBlocks;
      return None;
    }

    /** The offset-th interface of block b sits after those of the blocks before it. */
    lemma BlockSlot(b: nat, offset: nat)
      requires b < |rawBlocks| && offset < |rawBlocks[b].mainIfnames|
      ensures |Flatten(rawBlocks[..b])| + offset < |Flatten(rawBlocks)|
      ensures Flatten(rawBlocks)[|Flatten(rawBlocks[..b])| + offset] == rawBlocks[b].mainIfnames[offset]
    {
      assert rawBlocks == rawBlocks[..b + 1] + rawBlocks[b + 1..];
      assert rawBlocks[..b + 1][..b] == rawBlocks[..b];
      FlattenAppend(rawBlocks[..b + 1], rawBlocks[b + 1..]);
    }

    /** A device in zone with none before it is the one FirstInZone finds. */
    lemma FirstAt(order: seq<string>, zone: string, d: nat)
      requires forall i :: 0 <= i < |order| ==> order[i] in devMap
      requires d < |order| && InZone(devMap[order[d]], zone)
      requires forall j :: 0 <= j < d ==> !InZone(devMap[order[j]], zone)
      ensures FirstInZone(devMap, order, zone) == Some(d)
    {
    }
  }

  /** add_if: appends field k when present and not empty. */
  function AddIf(ifaces: seq<string>, props: map<string, string>, k: string): (r: seq<string>)
    ensures ifaces <= r && |r| <= |ifaces| + 1
    ensures forall i :: |ifaces| <= i < |r| ==> r[i] != []
  {
    if k in props && props[k] != [] then ifaces + [props[k]] else ifaces
  }
}
