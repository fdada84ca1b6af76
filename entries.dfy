/**
 * One device entry of the L1 profile (the pure part of
 * L1Parser::create_and_map_entry): the per-band split of block fields, the
 * fallback interface names, the device key "chip_main_sub" and the set of
 * interface names an entry is registered under.
 */
module Entries {
  import opened StringUtils
  import opened Decimal

  /** One radio band of one chip (struct L1Entry). */
  datatype L1Entry = L1Entry(indexName: string, mainIdx: nat, subIdx: nat, props: map<string, string>)

  /** A block that produced interfaces, kept for the sequential index of idx2if (struct RawBlock). */
  datatype RawBlock = RawBlock(rawIndex: nat, mainIfnames: seq<string>)

  /** Number of virtual interfaces of each kind registered per band. */
  const MAX_NUM_EXTIF: nat := 16
  const MAX_NUM_APCLI: nat := 1
  const MAX_NUM_WDS: nat := 4
  const MAX_NUM_MESH: nat := 1

  /**
   * get_split_prop: the band-th ';'-separated token of field k, empty slots
   * kept in position; "" when the field is missing or has too few tokens.
   */
  function SplitProp(props: map<string, string>, k: string, band: nat): (v: string)
    ensures Trimmed(v) && ';' !in v
    ensures k !in props ==> v == ""
  {
    if k in props then
      var parts := Split(props[k], ';', true);
      SplitNoDelimiter(props[k], ';', true);
      if band < |parts| then parts[band] else ""
    else ""
  }

  /**
   * The band-th value of a field is the trimmed band-th field between ';'
   * separators, or "" past the last one.
   */
  lemma SplitPropSlot(props: map<string, string>, k: string, band: nat)
    requires k in props
    ensures band < |Pieces(props[k], ';')| ==> SplitProp(props, k, band) == Trim(Pieces(props[k], ';')[band])
    ensures band >= |Pieces(props[k], ';')| ==> SplitProp(props, k, band) == ""
  {
    if props[k] == [] {
      assert Pieces(props[k], ';') == [""];
    } else {
      SplitKeepEmptyCount(props[k], ';');
      PiecesCount(props[k], ';');
    }
  }

  /** The fallback of resolve for an empty per-band value. */
  function Fallback(prefix: string, isExt: bool, mainIf: string, rawIdx: nat): (v: string)
    ensures v != []
  {
    if isExt then mainIf + "_" else prefix + NatToString(rawIdx + 1) + "_"
  }

  /**
   * resolve: the configured per-band value of field k when it is not
   * empty, else the fallback; the result is never empty.
   */
  function Resolve(props: map<string, string>, k: string, prefix: string, isExt: bool,
                   mainIf: string, rawIdx: nat, band: nat): (v: string)
    ensures v != []
    ensures SplitProp(props, k, band) != [] ==> v == SplitProp(props, k, band)
  {
    var val := SplitProp(props, k, band);
    if val != [] then val else Fallback(prefix, isExt, mainIf, rawIdx)
  }

  /** Fields copied verbatim to every band: INDEX, EEPROM* and mainidx. */
  predicate IsGlobal(k: string) {
    k == "INDEX" || (|k| >= 6 && k[..6] == "EEPROM") || k == "mainidx"
  }

  /** The fields create_and_map_entry overwrites after the copy. */
  const Derived: set<string> := {"main_ifname", "ext_ifname", "apcli_ifname", "wds_ifname", "mesh_ifname", "subidx", "mainidx"}

  /** The value the fill loop gives field k of band `band`. */
  function Filled(props: map<string, string>, k: string, band: nat): string
    requires k in props
  {
    if IsGlobal(k) then props[k] else SplitProp(props, k, band)
  }

  /** The property map before the derived fields are overwritten. */
  function FilledProps(props: map<string, string>, band: nat): (r: map<string, string>)
    ensures r.Keys == props.Keys
    ensures forall k :: k in props && IsGlobal(k) ==> r[k] == props[k]
  {
    map k | k in props :: Filled(props, k, band)
  }

  /** A property of an entry, "" when it is missing. */
  function Prop(e: L1Entry, k: string): string {
    if k in e.props then e.props[k] else ""
  }

  /** The invariant every stored entry keeps: its derived fields are present and agree with it. */
  predicate WellFormed(e: L1Entry) {
    Derived <= e.props.Keys &&
    e.props["subidx"] == NatToString(e.subIdx) &&
    e.props["mainidx"] == NatToString(e.mainIdx) &&
    e.props["main_ifname"] != [] &&
    "INDEX" in e.props && e.props["INDEX"] == e.indexName
  }

  /** The seven overwrites after the fill loop; every other field keeps its value. */
  function Override(base: map<string, string>, mainIf: string, ext: string, apcli: string, wds: string,
                    mesh: string, subIdx: nat, mainIdx: nat): (r: map<string, string>)
    ensures r.Keys == base.Keys + Derived
    ensures forall k :: k in base && k !in Derived ==> r[k] == base[k]
  {
    base["main_ifname" := mainIf]["ext_ifname" := ext]["apcli_ifname" := apcli]["wds_ifname" := wds]
      ["mesh_ifname" := mesh]["subidx" := NatToString(subIdx)]["mainidx" := NatToString(mainIdx)]
  }

  /**
   * The entry create_and_map_entry builds for one band: every block field
   * (INDEX, EEPROM* and mainidx verbatim, the rest split per band), then the
   * derived interface names and indices overwrite their fields.
   */
  function MakeEntry(chip: string, mainIdx: nat, subIdx: nat, rawIdx: nat, band: nat,
                     mainIf: string, props: map<string, string>): (e: L1Entry)
    ensures e.indexName == chip && e.mainIdx == mainIdx && e.subIdx == subIdx
  {
    var ext := Resolve(props, "ext_ifname", "", true, mainIf, rawIdx, band);
    var apcli := Resolve(props, "apcli_ifname", "apcli", false, mainIf, rawIdx, band);
    var wds := Resolve(props, "wds_ifname", "wds", false, mainIf, rawIdx, band);
    var mesh := Resolve(props, "mesh_ifname", "mesh", false, mainIf, rawIdx, band);
    L1Entry(chip, mainIdx, subIdx, Override(FilledProps(props, band), mainIf, ext, apcli, wds, mesh, subIdx, mainIdx))
  }

  /**
   * A new entry has every field of its block plus the derived ones; the
   * block's other fields hold their filled (verbatim or per-band) value.
   */
  lemma MakeEntryFilled(chip: string, mainIdx: nat, subIdx: nat, rawIdx: nat, band: nat,
                        mainIf: string, props: map<string, string>)
    ensures var e := MakeEntry(chip, mainIdx, subIdx, rawIdx, band, mainIf, props);
      e.props.Keys == props.Keys + Derived &&
      forall k :: k in props && k !in Derived ==> e.props[k] == Filled(props, k, band)
  {
  }

  /**
   * The derived fields of a new entry: its own interface name, the resolved
   * ext/apcli/wds/mesh names, and its indices in decimal.
   */
  lemma MakeEntryDerived(chip: string, mainIdx: nat, subIdx: nat, rawIdx: nat, band: nat,
                         mainIf: string, props: map<string, string>)
    ensures var e := MakeEntry(chip, mainIdx, subIdx, rawIdx, band, mainIf, props);
      e.props["main_ifname"] == mainIf &&
      e.props["ext_ifname"] == Resolve(props, "ext_ifname", "", true, mainIf, rawIdx, band) &&
      e.props["apcli_ifname"] == Resolve(props, "apcli_ifname", "apcli", false, mainIf, rawIdx, band) &&
      e.props["wds_ifname"] == Resolve(props, "wds_ifname", "wds", false, mainIf, rawIdx, band) &&
      e.props["mesh_ifname"] == Resolve(props, "mesh_ifname", "mesh", false, mainIf, rawIdx, band) &&
      e.props["subidx"] == NatToString(subIdx) && e.props["mainidx"] == NatToString(mainIdx)
  {
    var ext := Resolve(props, "ext_ifname", "", true, mainIf, rawIdx, band);
    var apcli := Resolve(props, "apcli_ifname", "apcli", false, mainIf, rawIdx, band);
    var wds := Resolve(props, "wds_ifname", "wds", false, mainIf, rawIdx, band);
    var mesh := Resolve(props, "mesh_ifname", "mesh", false, mainIf, rawIdx, band);
    var r := Override(FilledProps(props, band), mainIf, ext, apcli, wds, mesh, subIdx, mainIdx);
    assert MakeEntry(chip, mainIdx, subIdx, rawIdx, band, mainIf, props).props == r;
  }

  /** Every derived field name is longer than five characters, so INDEX is not one of them. */
  lemma DerivedLong(k: string)
    requires |k| <= 5
    ensures k !in Derived
  {
    assert forall d | d in Derived :: |d| > 5;
  }

  /** A new entry keeps the stored-entry invariant when its block names its chip and the band has an interface. */
  lemma MakeEntryWellFormed(chip: string, mainIdx: nat, subIdx: nat, rawIdx: nat, band: nat,
                            mainIf: string, props: map<string, string>)
    requires mainIf != [] && "INDEX" in props && props["INDEX"] == chip
    ensures WellFormed(MakeEntry(chip, mainIdx, subIdx, rawIdx, band, mainIf, props))
  {
    MakeEntryDerived(chip, mainIdx, subIdx, rawIdx, band, mainIf, props);
    MakeEntryFilled(chip, mainIdx, subIdx, rawIdx, band, mainIf, props);
    var e := MakeEntry(chip, mainIdx, subIdx, rawIdx, band, mainIf, props);
    DerivedLong("INDEX");
    assert e.props["INDEX"] == Filled(props, "INDEX", band) == chip;
  }

  /**
   * With no per-band ext/apcli/wds/mesh value, an entry registers main_if,
   * main_if_1 .. main_if_15, apcliN_0, wdsN_0 .. wdsN_3 and meshN_0, N being
   * the block index plus one.
   */
  lemma DefaultNames(chip: string, mainIdx: nat, subIdx: nat, rawIdx: nat, band: nat,
                     mainIf: string, props: map<string, string>)
    requires SplitProp(props, "ext_ifname", band) == "" && SplitProp(props, "apcli_ifname", band) == ""
    requires SplitProp(props, "wds_ifname", band) == "" && SplitProp(props, "mesh_ifname", band) == ""
    ensures var n := NatToString(rawIdx + 1);
      NamesOf(MakeEntry(chip, mainIdx, subIdx, rawIdx, band, mainIf, props)) ==
        [mainIf] + Suffixed(mainIf + "_", 1, MAX_NUM_EXTIF) + Suffixed("apcli" + n + "_", 0, MAX_NUM_APCLI)
        + Suffixed("wds" + n + "_", 0, MAX_NUM_WDS) + Suffixed("mesh" + n + "_", 0, MAX_NUM_MESH)
  {
    MakeEntryDerived(chip, mainIdx, subIdx, rawIdx, band, mainIf, props);
  }

  /** The device key "chip_main_sub" of dev_map_. */
  function DevKey(chip: string, mainIdx: nat, subIdx: nat): string {
    chip + "_" + NatToString(mainIdx) + "_" + NatToString(subIdx)
  }

  /** The text after the last '_' of s (all of s when it has none). */
  function AfterLastUnderscore(s: string): (r: string)
    ensures '_' !in r
  {
    if s == [] then []
    else if s[|s| - 1] == '_' then []
    else AfterLastUnderscore(s[..|s| - 1]) + [s[|s| - 1]]
  }

  lemma {:induction false} AfterLastUnderscoreOf(a: string, b: string)
    requires '_' !in b
    ensures AfterLastUnderscore(a + "_" + b) == b
  {
    var x := a + "_" + b;
    if b == [] {
      assert x[|x| - 1] == '_';
    } else {
      var b' := b[..|b| - 1];
      assert x[..|x| - 1] == a + "_" + b';
      AfterLastUnderscoreOf(a, b');
      assert b == b' + [b[|b| - 1]];
    }
  }

  /** a_b is split at its last '_' when b holds none. */
  lemma LastUnderscore(a: string, b: string, c: string, d: string)
    requires '_' !in b && '_' !in d
    requires a + "_" + b == c + "_" + d
    ensures a == c && b == d
  {
    var x := a + "_" + b;
    AfterLastUnderscoreOf(a, b);
    AfterLastUnderscoreOf(c, d);
    assert a == x[..|a|];
    assert c == x[..|c|];
  }

  /** The sub index of a device can be read back from its key: it is the text after the last '_'. */
  lemma DevKeySubIdx(chip: string, mainIdx: nat, subIdx: nat)
    ensures AfterLastUnderscore(DevKey(chip, mainIdx, subIdx)) == NatToString(subIdx)
  {
    NoUnderscore(NatToString(subIdx));
    AfterLastUnderscoreOf(chip + "_" + NatToString(mainIdx), NatToString(subIdx));
  }

  /** Two devices share a key only if they agree on chip, main index and sub index. */
  lemma DevKeyInjective(c1: string, m1: nat, s1: nat, c2: string, m2: nat, s2: nat)
    requires DevKey(c1, m1, s1) == DevKey(c2, m2, s2)
    ensures c1 == c2 && m1 == m2 && s1 == s2
  {
    NoUnderscore(NatToString(m1));
    NoUnderscore(NatToString(m2));
    NoUnderscore(NatToString(s1));
    NoUnderscore(NatToString(s2));
    LastUnderscore(c1 + "_" + NatToString(m1), NatToString(s1), c2 + "_" + NatToString(m2), NatToString(s2));
    LastUnderscore(c1, NatToString(m1), c2, NatToString(m2));
    NatToStringInjective(m1, m2);
    NatToStringInjective(s1, s2);
  }

  /** base + to_string(j) for j in [lo, hi). */
  function Suffixed(base: string, lo: nat, hi: nat): (r: seq<string>)
    requires lo <= hi
    ensures |r| == hi - lo
  {
    seq(hi - lo, i requires 0 <= i < hi - lo => base + NatToString(lo + i))
  }

  /** One more suffix continues the list. */
  lemma SuffixedStep(base: string, lo: nat, hi: nat)
    requires lo <= hi
    ensures Suffixed(base, lo, hi + 1) == Suffixed(base, lo, hi) + [base + NatToString(hi)]
  {
  }

  /**
   * The names map_if is called with for an entry: main_ifname, ext_ifname
   * with 1..15, apcli_ifname with 0, wds_ifname with 0..3, mesh_ifname with 0.
   */
  function NamesOf(e: L1Entry): (r: seq<string>)
    ensures |r| == MAX_NUM_EXTIF + MAX_NUM_APCLI + MAX_NUM_WDS + MAX_NUM_MESH
    ensures r[0] == Prop(e, "main_ifname")
  {
    [Prop(e, "main_ifname")]
    + Suffixed(Prop(e, "ext_ifname"), 1, MAX_NUM_EXTIF)
    + Suffixed(Prop(e, "apcli_ifname"), 0, MAX_NUM_APCLI)
    + Suffixed(Prop(e, "wds_ifname"), 0, MAX_NUM_WDS)
    + Suffixed(Prop(e, "mesh_ifname"), 0, MAX_NUM_MESH)
  }

  /** map_if over names: every non-empty name now maps to e, other names keep their entry. */
  function Registered(m: map<string, L1Entry>, names: seq<string>, e: L1Entry): (r: map<string, L1Entry>)
    ensures m.Keys <= r.Keys
    ensures forall n :: n in m && n !in names ==> r[n] == m[n]
  {
    m + map n | n in names && n != [] :: e
  }

  /** After map_if over names, name n is mapped when it was before or is a non-empty one of them; the latter map to e. */
  lemma RegisteredLookup(m: map<string, L1Entry>, names: seq<string>, e: L1Entry, n: string)
    ensures n in Registered(m, names, e) <==> n in m || (n in names && n != [])
    ensures n in names && n != [] ==> Registered(m, names, e)[n] == e
    ensures n in m && n !in names ==> Registered(m, names, e)[n] == m[n]
  {
  }

  /** Registering no names changes nothing. */
  lemma RegisteredNone(m: map<string, L1Entry>, e: L1Entry)
    ensures Registered(m, [], e) == m
  {
  }

  /** map_if for one more name continues the registration of the names before it. */
  lemma RegisteredStep(m: map<string, L1Entry>, names: seq<string>, n: string, e: L1Entry)
    ensures Registered(m, names + [n], e) == if n != [] then Registered(m, names, e)[n := e] else Registered(m, names, e)
  {
  }

  /** Registering two lists of names one after the other registers their concatenation. */
  lemma RegisteredAppend(m: map<string, L1Entry>, a: seq<string>, b: seq<string>, e: L1Entry)
    ensures Registered(Registered(m, a, e), b, e) == Registered(m, a + b, e)
  {
  }
}
