/**
 * What L1Parser::load computes, as pure functions of the RawDataMap: the
 * blocks are processed in ascending block order with a per-chip occurrence
 * counter; each band of a block becomes an entry stored under its device
 * key and registered under its interface names. The lemmas state the
 * invariants the four containers keep and what each block contributes.
 */
module Engine {
  import opened StringUtils
  import opened Decimal
  import opened RawConfig
  import opened Entries
  import opened Sorting

  /** The four containers of an L1Parser: dev_map_, if_map_, raw_blocks_, ordered_dev_keys_. */
  datatype Parser = Parser(devMap: map<string, L1Entry>, ifMap: map<string, L1Entry>,
                           rawBlocks: seq<RawBlock>, devKeys: seq<string>)

  const Empty: Parser := Parser(map[], map[], [], [])

  /** The parser state and chipset_counter while load walks the blocks. */
  datatype Loading = Loading(parser: Parser, counter: map<string, nat>)

  /** chipset_counter[chip], which std::unordered_map starts at 0. */
  function Seen(counter: map<string, nat>, chip: string): nat {
    if chip in counter then counter[chip] else 0
  }

  /** The device key an entry is stored under. */
  function KeyOf(e: L1Entry): string {
    DevKey(e.indexName, e.mainIdx, e.subIdx)
  }

  /** All main_ifnames of the recorded blocks, in order: the sequence idx2if indexes. */
  function Flatten(blocks: seq<RawBlock>): (r: seq<string>)
    ensures forall j, n :: 0 <= j < |blocks| && n in blocks[j].mainIfnames ==> n in r
    ensures forall n :: n in r ==> exists j :: 0 <= j < |blocks| && n in blocks[j].mainIfnames
  {
    if blocks == [] then [] else Flatten(blocks[..|blocks| - 1]) + blocks[|blocks| - 1].mainIfnames
  }

  lemma {:induction false} FlattenAppend(a: seq<RawBlock>, b: seq<RawBlock>)
    ensures Flatten(a + b) == Flatten(a) + Flatten(b)
    decreases |b|
  {
    if b != [] {
      var b' := b[..|b| - 1];
      assert (a + b)[..|a + b| - 1] == a + b';
      FlattenAppend(a, b');
    } else {
      assert a + b == a;
    }
  }

  /** Storing, listing and mapping one entry: the tail of create_and_map_entry. */
  function AddEntry(p: Parser, e: L1Entry): (r: Parser)
    ensures r.rawBlocks == p.rawBlocks
    ensures r.devKeys == p.devKeys + [KeyOf(e)]
  {
    Parser(p.devMap[KeyOf(e) := e], Registered(p.ifMap, NamesOf(e), e), p.rawBlocks, p.devKeys + [KeyOf(e)])
  }

  /** main_ifname of a block, "" when it has none. */
  function MainIfText(props: map<string, string>): string {
    if "main_ifname" in props then props["main_ifname"] else ""
  }

  /** The interfaces of a block: main_ifname split at ';' with empty tokens dropped. */
  function Interfaces(props: map<string, string>): (names: seq<string>)
    ensures forall i :: 0 <= i < |names| ==> names[i] != []
  {
    Split(MainIfText(props), ';', false)
  }

  /** The keys of bands 1..k of occurrence m of a chip. */
  function BandKeys(chip: string, m: nat, k: nat): (r: seq<string>)
    ensures |r| == k
  {
    seq(k, i requires 0 <= i < k => DevKey(chip, m, i + 1))
  }

  /** The device keys of a sequence of entries. */
  function KeysOf(es: seq<L1Entry>): (r: seq<string>)
    ensures |r| == |es|
  {
    seq(|es|, i requires 0 <= i < |es| => KeyOf(es[i]))
  }

  /** dev_map_ after storing the entries es[0] .. es[k - 1], in that order. */
  function StoreAll(m: map<string, L1Entry>, es: seq<L1Entry>, k: nat): map<string, L1Entry>
    requires k <= |es|
  {
    if k == 0 then m else StoreAll(m, es, k - 1)[KeyOf(es[k - 1]) := es[k - 1]]
  }

  /** Storing, listing and mapping the entries es[0] .. es[k - 1], in that order. */
  function AddEntries(p: Parser, es: seq<L1Entry>, k: nat): (r: Parser)
    requires k <= |es|
    ensures r.rawBlocks == p.rawBlocks
    ensures r.devKeys == p.devKeys + KeysOf(es[..k])
  {
    if k == 0 then p
    else
      assert KeysOf(es[..k]) == KeysOf(es[..k - 1]) + [KeyOf(es[k - 1])];
      AppendAssoc(p.devKeys, KeysOf(es[..k - 1]), [KeyOf(es[k - 1])]);
      AddEntry(AddEntries(p, es, k - 1), es[k - 1])
  }

  /** The device map after adding entries is the one storing them in turn. */
  lemma {:induction false} AddEntriesStore(p: Parser, es: seq<L1Entry>, k: nat)
    requires k <= |es|
    ensures AddEntries(p, es, k).devMap == StoreAll(p.devMap, es, k)
  {
    if k > 0 {
      AddEntriesStore(p, es, k - 1);
    }
  }

  /** The entries of a block's bands, in band order: band i + 1 is built for interface names[i]. */
  function BandEntries(chip: string, m: nat, rawIdx: nat, names: seq<string>, props: map<string, string>): (r: seq<L1Entry>)
    ensures |r| == |names|
  {
    seq(|names|, i requires 0 <= i < |names| => MakeEntry(chip, m, i + 1, rawIdx, i, names[i], props))
  }

  /** Band t = i + 1 is the entry built for names[i]. */
  lemma BandEntry(chip: string, m: nat, rawIdx: nat, names: seq<string>, props: map<string, string>, i: nat, t: nat)
    requires i < |names| && t == i + 1
    ensures BandEntries(chip, m, rawIdx, names, props)[i] == MakeEntry(chip, m, t, rawIdx, i, names[i], props)
  {
    var es := BandEntries(chip, m, rawIdx, names, props);
    assert es[i] == MakeEntry(chip, m, i + 1, rawIdx, i, names[i], props);
  }

  /** Band t = i + 1 is stored under the key chip_m_t. */
  lemma BandKey(chip: string, m: nat, rawIdx: nat, names: seq<string>, props: map<string, string>, i: nat, t: nat)
    requires i < |names| && t == i + 1
    ensures KeyOf(BandEntries(chip, m, rawIdx, names, props)[i]) == DevKey(chip, m, t)
  {
  }

  /** The first k band entries of a block sit under the first k band keys. */
  lemma BandEntryKeys(chip: string, m: nat, rawIdx: nat, names: seq<string>, props: map<string, string>, k: nat)
    requires k <= |names|
    ensures KeysOf(BandEntries(chip, m, rawIdx, names, props)[..k]) == BandKeys(chip, m, k)
  {
    var es := BandEntries(chip, m, rawIdx, names, props);
    forall i | 0 <= i < k
      ensures KeysOf(es[..k])[i] == BandKeys(chip, m, k)[i]
    {
      BandKey(chip, m, rawIdx, names, props, i, i + 1);
    }
  }

  /** The entries of the first k bands of a block, created in band order. */
  function AddBands(p: Parser, chip: string, m: nat, rawIdx: nat, names: seq<string>,
                    props: map<string, string>, k: nat): (r: Parser)
    requires k <= |names|
    ensures r.rawBlocks == p.rawBlocks
    ensures r.devKeys == p.devKeys + BandKeys(chip, m, k)
  {
    BandEntryKeys(chip, m, rawIdx, names, props, k);
    AddEntries(p, BandEntries(chip, m, rawIdx, names, props), k)
  }

  /** Band k is the entry built for names[k - 1], added after the first k - 1 bands. */
  lemma AddBandsStep(p: Parser, chip: string, m: nat, rawIdx: nat, names: seq<string>,
                     props: map<string, string>, k: nat)
    requires 1 <= k <= |names|
    ensures AddBands(p, chip, m, rawIdx, names, props, k)
            == AddEntry(AddBands(p, chip, m, rawIdx, names, props, k - 1), MakeEntry(chip, m, k, rawIdx, k - 1, names[k - 1], props))
  {
    BandEntry(chip, m, rawIdx, names, props, k - 1, k);
  }

  /**
   * The part of process_block after the counter: a block with interfaces is
   * recorded and gets one entry per interface, in band order.
   */
  function Record(p: Parser, chip: string, m: nat, rawIdx: nat, props: map<string, string>): (r: Parser)
    ensures p.rawBlocks <= r.rawBlocks && |r.rawBlocks| <= |p.rawBlocks| + 1
    ensures p.devKeys <= r.devKeys
  {
    var names := Interfaces(props);
    if names == [] then p
    else AddBands(p.(rawBlocks := p.rawBlocks + [RawBlock(rawIdx, names)]), chip, m, rawIdx, names, props, |names|)
  }

  /** ++chipset_counter[chip]. */
  function Bump(counter: map<string, nat>, chip: string): map<string, nat> {
    counter[chip := Seen(counter, chip) + 1]
  }

  /**
   * process_block: a block without INDEX is skipped; otherwise the chip's
   * counter goes up by one, and then the block is recorded under the new
   * occurrence number.
   */
  function Step(l: Loading, row: RawRow): (r: Loading)
    ensures l.parser.rawBlocks <= r.parser.rawBlocks && |r.parser.rawBlocks| <= |l.parser.rawBlocks| + 1
    ensures l.parser.devKeys <= r.parser.devKeys
    ensures forall c :: Seen(l.counter, c) <= Seen(r.counter, c)
  {
    if "INDEX" !in row.props then l else Indexed(l, row.props["INDEX"], row)
  }

  /** A block naming chip: the counter goes up and the block is recorded under the new value. */
  function Indexed(l: Loading, chip: string, row: RawRow): (r: Loading)
    ensures Seen(r.counter, chip) == Seen(l.counter, chip) + 1
    ensures forall c :: c != chip ==> Seen(r.counter, c) == Seen(l.counter, c)
    ensures l.parser.rawBlocks <= r.parser.rawBlocks && l.parser.devKeys <= r.parser.devKeys
  {
    Loading(Record(l.parser, chip, Seen(l.counter, chip) + 1, row.index, row.props), Bump(l.counter, chip))
  }

  /** A block whose INDEX field names chip is processed as a block of chip. */
  lemma StepIs(l: Loading, row: RawRow, chip: string)
    requires "INDEX" in row.props && row.props["INDEX"] == chip
    ensures Step(l, row) == Indexed(l, chip, row)
  {
  }

  /** Unfolds Indexed. */
  lemma IndexedDef(l: Loading, chip: string, row: RawRow)
    ensures Indexed(l, chip, row) == Loading(Record(l.parser, chip, Seen(l.counter, chip) + 1, row.index, row.props), Bump(l.counter, chip))
  {
  }

  /** A block of chip is recorded under occurrence m, the chip's counter raised to m. */
  lemma IndexedAt(l: Loading, chip: string, row: RawRow, m: nat, p: Parser, bumped: map<string, nat>)
    requires m == Seen(l.counter, chip) + 1 && p == Record(l.parser, chip, m, row.index, row.props)
    requires bumped == l.counter[chip := m]
    ensures Indexed(l, chip, row) == Loading(p, bumped)
  {
    IndexedDef(l, chip, row);
  }

  /** A block with interfaces is appended to the recorded blocks and then gets its bands. */
  lemma RecordBands(p: Parser, chip: string, m: nat, rawIdx: nat, props: map<string, string>,
                    names: seq<string>, r: Parser)
    requires names == Interfaces(props) && names != []
    requires r == AddBands(p.(rawBlocks := p.rawBlocks + [RawBlock(rawIdx, names)]), chip, m, rawIdx, names, props, |names|)
    ensures r == Record(p, chip, m, rawIdx, props)
  {
  }

  /** The blocks of the RawDataMap processed in their (ascending) order. */
  function Process(rows: seq<RawRow>): (r: Loading)
    ensures |r.parser.rawBlocks| <= |rows|
  {
    if rows == [] then Loading(Empty, map[]) else Step(Process(rows[..|rows| - 1]), rows[|rows| - 1])
  }

  /** Processing one more block is one more step. */
  lemma ProcessStep(rows: seq<RawRow>, i: nat)
    requires i < |rows|
    ensures Process(rows[..i + 1]) == Step(Process(rows[..i]), rows[i])
  {
    assert rows[..i + 1][..i] == rows[..i];
  }

  /**
   * load on an unopenable file leaves the parser empty; otherwise it
   * processes the table of the file and sorts the device keys.
   */
  function Loaded(lines: seq<string>, isOpen: bool): (r: Parser)
    ensures |r.rawBlocks| <= |RawTable(lines)|
    ensures Sorted(r.devKeys)
  {
    if !isOpen then Empty
    else
      var p := Process(RawTable(lines)).parser;
      p.(devKeys := SortStrings(p.devKeys))
  }

  // ---------------------------------------------------------------------
  // Invariants of the containers

  /** No key listed twice. */
  ghost predicate Distinct(s: seq<string>) {
    forall x :: multiset(s)[x] <= 1
  }

  lemma DistinctIndices(s: seq<string>)
    requires Distinct(s)
    ensures forall i, j :: 0 <= i < j < |s| ==> s[i] != s[j]
  {
    forall i, j | 0 <= i < j < |s|
      ensures s[i] != s[j]
    {
      var a, b, c := s[..i], s[i + 1..j], s[j + 1..];
      assert s == a + [s[i]] + b + [s[j]] + c;
      assert multiset(s)[s[i]] >= multiset([s[i]] + b + [s[j]])[s[i]];
    }
  }

  /** Every stored entry sits under its own key and keeps its derived fields. */
  ghost predicate StoredUnderKey(p: Parser) {
    forall k :: k in p.devMap ==> k == KeyOf(p.devMap[k]) && WellFormed(p.devMap[k])
  }

  /** Every mapped interface is a non-empty name of its entry, and that entry is the stored one. */
  ghost predicate IfsLinked(p: Parser) {
    forall n :: n in p.ifMap ==>
      n != [] && n in NamesOf(p.ifMap[n]) &&
      KeyOf(p.ifMap[n]) in p.devMap && p.devMap[KeyOf(p.ifMap[n])] == p.ifMap[n]
  }

  /** Every non-empty name of every stored entry is mapped. */
  ghost predicate NamesMapped(p: Parser) {
    forall k, n :: k in p.devMap && n in NamesOf(p.devMap[k]) && n != [] ==> n in p.ifMap
  }

  /** The key list holds each stored key exactly once. */
  ghost predicate KeysListed(p: Parser) {
    Distinct(p.devKeys) && forall k :: k in p.devKeys <==> k in p.devMap
  }

  /** The links between the containers. */
  ghost predicate Linked(p: Parser) {
    StoredUnderKey(p) && IfsLinked(p) && NamesMapped(p) && KeysListed(p)
  }

  /** Linked, and one listed key per recorded interface. */
  ghost predicate Valid(p: Parser) {
    Linked(p) && |p.devKeys| == |Flatten(p.rawBlocks)|
  }

  /** No stored entry has an occurrence number above its chip's counter. */
  ghost predicate Counted(p: Parser, counter: map<string, nat>) {
    forall k :: k in p.devMap ==> p.devMap[k].mainIdx <= Seen(counter, p.devMap[k].indexName)
  }

  /** Bands s and later of occurrence m of chip are not yet stored. */
  ghost predicate Below(p: Parser, chip: string, m: nat, s: nat) {
    forall k :: k in p.devMap && p.devMap[k].indexName == chip ==>
      p.devMap[k].mainIdx < m || (p.devMap[k].mainIdx == m && p.devMap[k].subIdx < s)
  }

  lemma EmptyValid()
    ensures Valid(Empty)
  {
  }

  lemma AddEntryStored(p: Parser, e: L1Entry)
    requires StoredUnderKey(p) && WellFormed(e)
    ensures StoredUnderKey(AddEntry(p, e))
  {
  }

  lemma AddEntryIfs(p: Parser, e: L1Entry)
    requires IfsLinked(p) && KeyOf(e) !in p.devMap
    ensures IfsLinked(AddEntry(p, e))
  {
    var r := AddEntry(p, e);
    forall n | n in r.ifMap
      ensures n != [] && n in NamesOf(r.ifMap[n])
      ensures KeyOf(r.ifMap[n]) in r.devMap && r.devMap[KeyOf(r.ifMap[n])] == r.ifMap[n]
    {
      RegisteredLookup(p.ifMap, NamesOf(e), e, n);
      if !(n in NamesOf(e) && n != []) {
        assert KeyOf(p.ifMap[n]) != KeyOf(e);
      }
    }
  }

  lemma AddEntryNames(p: Parser, e: L1Entry)
    requires NamesMapped(p)
    ensures NamesMapped(AddEntry(p, e))
  {
    var r := AddEntry(p, e);
    forall k, n | k in r.devMap && n in NamesOf(r.devMap[k]) && n != []
      ensures n in r.ifMap
    {
      RegisteredLookup(p.ifMap, NamesOf(e), e, n);
    }
  }

  lemma AddEntryListed(p: Parser, e: L1Entry)
    requires KeysListed(p) && KeyOf(e) !in p.devMap
    ensures KeysListed(AddEntry(p, e))
  {
    var r := AddEntry(p, e);
    assert KeyOf(e) !in p.devKeys;
    assert multiset(r.devKeys) == multiset(p.devKeys) + multiset{KeyOf(e)};
  }

  /** Adding a well-formed entry under a fresh key keeps the containers linked. */
  lemma AddEntryLinked(p: Parser, e: L1Entry)
    requires Linked(p) && WellFormed(e) && KeyOf(e) !in p.devMap
    ensures Linked(AddEntry(p, e))
  {
    AddEntryStored(p, e);
    AddEntryIfs(p, e);
    AddEntryNames(p, e);
    AddEntryListed(p, e);
  }

  lemma AddEntryCounted(p: Parser, e: L1Entry, counter: map<string, nat>)
    requires Counted(p, counter) && e.mainIdx <= Seen(counter, e.indexName)
    ensures Counted(AddEntry(p, e), counter)
  {
  }

  lemma AddEntryBelow(p: Parser, e: L1Entry, chip: string, m: nat, s: nat)
    requires Below(p, chip, m, s) && e.indexName == chip && e.mainIdx == m && e.subIdx == s
    ensures Below(AddEntry(p, e), chip, m, s + 1)
  {
  }

  /** A stored key of the chip's occurrence m at band s or later would contradict Below. */
  lemma FreshKey(p: Parser, chip: string, m: nat, s: nat)
    requires Linked(p) && Below(p, chip, m, s)
    ensures DevKey(chip, m, s) !in p.devMap
  {
    var key := DevKey(chip, m, s);
    if key in p.devMap {
      var e := p.devMap[key];
      DevKeyInjective(e.indexName, e.mainIdx, e.subIdx, chip, m, s);
    }
  }

  /** The bands of a block go in under fresh keys and keep every invariant. */
  lemma {:induction false} AddBandsLinked(p: Parser, counter: map<string, nat>, chip: string, m: nat,
                                          rawIdx: nat, names: seq<string>, props: map<string, string>, k: nat)
    requires Linked(p) && Counted(p, counter) && Seen(counter, chip) == m && Below(p, chip, m, 1)
    requires "INDEX" in props && props["INDEX"] == chip
    requires forall i :: 0 <= i < |names| ==> names[i] != []
    requires k <= |names|
    ensures var r := AddBands(p, chip, m, rawIdx, names, props, k);
      Linked(r) && Counted(r, counter) && Below(r, chip, m, k + 1)
  {
    if k > 0 {
      AddBandsLinked(p, counter, chip, m, rawIdx, names, props, k - 1);
      var q := AddBands(p, chip, m, rawIdx, names, props, k - 1);
      var e := MakeEntry(chip, m, k, rawIdx, k - 1, names[k - 1], props);
      AddBandsStep(p, chip, m, rawIdx, names, props, k);
      MakeEntryWellFormed(chip, m, k, rawIdx, k - 1, names[k - 1], props);
      FreshKey(q, chip, m, k);
      AddEntryLinked(q, e);
      AddEntryCounted(q, e, counter);
      AddEntryBelow(q, e, chip, m, k);
    }
  }

  /** Raising one chip's counter keeps it an upper bound, and leaves the chip's next occurrence unused. */
  lemma CounterBump(p: Parser, counter: map<string, nat>, chip: string, bumped: map<string, nat>)
    requires Counted(p, counter) && bumped == Bump(counter, chip)
    ensures Counted(p, bumped)
    ensures Below(p, chip, Seen(counter, chip) + 1, 1)
  {
  }

  /** The links between the containers do not involve the recorded blocks. */
  lemma LinkedBlocks(p: Parser, blocks: seq<RawBlock>)
    requires Linked(p)
    ensures Linked(p.(rawBlocks := blocks))
  {
  }

  /** Recording a block keeps the containers valid when the chip's occurrence m is unused. */
  lemma RecordValid(p: Parser, counter: map<string, nat>, chip: string, m: nat, rawIdx: nat, props: map<string, string>, r: Parser)
    requires Valid(p) && Counted(p, counter) && Seen(counter, chip) == m && Below(p, chip, m, 1)
    requires "INDEX" in props && props["INDEX"] == chip
    requires r == Record(p, chip, m, rawIdx, props)
    ensures Valid(r) && Counted(r, counter)
  {
    var names := Interfaces(props);
    if names != [] {
      var q := p.(rawBlocks := p.rawBlocks + [RawBlock(rawIdx, names)]);
      LinkedBlocks(p, q.rawBlocks);
      AddBandsLinked(q, counter, chip, m, rawIdx, names, props, |names|);
      assert Flatten(q.rawBlocks) == Flatten(p.rawBlocks) + names;
    }
  }

  /** Recording a block under the chip's next occurrence number keeps the containers valid. */
  lemma IndexedValid(l: Loading, chip: string, row: RawRow, r: Loading)
    requires Valid(l.parser) && Counted(l.parser, l.counter)
    requires "INDEX" in row.props && row.props["INDEX"] == chip
    requires r == Indexed(l, chip, row)
    ensures Valid(r.parser) && Counted(r.parser, r.counter)
  {
    IndexedDef(l, chip, row);
    CounterBump(l.parser, l.counter, chip, r.counter);
    RecordValid(l.parser, r.counter, chip, Seen(l.counter, chip) + 1, row.index, row.props, r.parser);
  }

  /** One block keeps the containers valid and the counter an upper bound. */
  lemma StepValid(l: Loading, row: RawRow)
    requires Valid(l.parser) && Counted(l.parser, l.counter)
    ensures Valid(Step(l, row).parser) && Counted(Step(l, row).parser, Step(l, row).counter)
  {
    if "INDEX" in row.props {
      IndexedValid(l, row.props["INDEX"], row, Step(l, row));
    }
  }

  lemma {:induction false} ProcessValid(rows: seq<RawRow>)
    ensures Valid(Process(rows).parser) && Counted(Process(rows).parser, Process(rows).counter)
  {
    if rows != [] {
      ProcessValid(rows[..|rows| - 1]);
      StepValid(Process(rows[..|rows| - 1]), rows[|rows| - 1]);
    }
  }

  // ---------------------------------------------------------------------
  // What one block and a whole table contribute

  lemma BandKeysDiffer(chip: string, m: nat, k: nat, s: nat)
    requires k != s
    ensures DevKey(chip, m, k) != DevKey(chip, m, s)
  {
    if DevKey(chip, m, k) == DevKey(chip, m, s) {
      DevKeyInjective(chip, m, k, chip, m, s);
    }
  }

  /** Entry s (counting from 1) stays stored under its key when no later entry has that key. */
  lemma {:induction false} StoreAllKeep(m: map<string, L1Entry>, es: seq<L1Entry>, k: nat, s: nat, key: string)
    requires 1 <= s <= k <= |es| && KeyOf(es[s - 1]) == key
    requires forall j :: s <= j < k ==> KeyOf(es[j]) != key
    ensures key in StoreAll(m, es, k) && StoreAll(m, es, k)[key] == es[s - 1]
  {
    if s != k {
      StoreAllKeep(m, es, k - 1, s, key);
    }
  }

  /** Band s of a block is stored under its key as the entry built for it. */
  lemma AddBandsStored(p: Parser, chip: string, m: nat, rawIdx: nat, names: seq<string>,
                       props: map<string, string>, k: nat, s: nat)
    requires 1 <= s <= k <= |names|
    ensures DevKey(chip, m, s) in AddBands(p, chip, m, rawIdx, names, props, k).devMap
    ensures AddBands(p, chip, m, rawIdx, names, props, k).devMap[DevKey(chip, m, s)]
            == MakeEntry(chip, m, s, rawIdx, s - 1, names[s - 1], props)
  {
    var es := BandEntries(chip, m, rawIdx, names, props);
    var key := DevKey(chip, m, s);
    BandEntry(chip, m, rawIdx, names, props, s - 1, s);
    BandKey(chip, m, rawIdx, names, props, s - 1, s);
    forall j | s <= j < k
      ensures KeyOf(es[j]) != key
    {
      BandKey(chip, m, rawIdx, names, props, j, j + 1);
      BandKeysDiffer(chip, m, j + 1, s);
    }
    StoreAllKeep(p.devMap, es, k, s, key);
    AddEntriesStore(p, es, k);
  }

  /** An entry outside the batch stays stored when no entry of the batch has its key. */
  lemma {:induction false} StoreAllOther(m: map<string, L1Entry>, es: seq<L1Entry>, k: nat, key: string)
    requires k <= |es| && key in m
    requires forall j :: 0 <= j < k ==> KeyOf(es[j]) != key
    ensures key in StoreAll(m, es, k) && StoreAll(m, es, k)[key] == m[key]
  {
    if k > 0 {
      StoreAllOther(m, es, k - 1, key);
    }
  }

  /** Below is monotone in the band bound. */
  lemma BelowMono(p: Parser, chip: string, m: nat, s: nat, t: nat)
    requires Below(p, chip, m, s) && s <= t
    ensures Below(p, chip, m, t)
  {
  }

  /** Entries stored before a block keep their keys and values while its bands go in. */
  lemma AddBandsKeep(p: Parser, chip: string, m: nat, rawIdx: nat, names: seq<string>,
                     props: map<string, string>, k: nat, key: string)
    requires k <= |names| && Linked(p) && Below(p, chip, m, 1) && key in p.devMap
    ensures key in AddBands(p, chip, m, rawIdx, names, props, k).devMap
    ensures AddBands(p, chip, m, rawIdx, names, props, k).devMap[key] == p.devMap[key]
  {
    var es := BandEntries(chip, m, rawIdx, names, props);
    forall j | 0 <= j < k
      ensures KeyOf(es[j]) != key
    {
      BandKey(chip, m, rawIdx, names, props, j, j + 1);
      BelowMono(p, chip, m, 1, j + 1);
      FreshKey(p, chip, m, j + 1);
    }
    StoreAllOther(p.devMap, es, k, key);
    AddEntriesStore(p, es, k);
  }

  /** The names the first k entries of es are registered under, in order. */
  function BandNames(es: seq<L1Entry>, k: nat): seq<string>
    requires k <= |es|
  {
    if k == 0 then [] else BandNames(es, k - 1) + NamesOf(es[k - 1])
  }

  /**
   * The position of the last of the first k entries that registers name n,
   * -1 when none does: if_map_[n] keeps the last entry written to it.
   */
  function LastRegistering(es: seq<L1Entry>, k: nat, n: string): (j: int)
    requires k <= |es|
    ensures -1 <= j < k
    ensures j >= 0 <==> n in BandNames(es, k)
    ensures j >= 0 ==> n in NamesOf(es[j])
    ensures forall i :: j < i < k ==> n !in NamesOf(es[i])
  {
    if k == 0 then -1
    else if n in NamesOf(es[k - 1]) then k - 1
    else LastRegistering(es, k - 1, n)
  }

  /**
   * Adding entries maps every non-empty name of theirs to the last entry
   * registering it; any other name keeps its mapping (or stays unmapped),
   * and the empty name is never mapped.
   */
  lemma {:induction false} AddEntriesIfMap(p: Parser, es: seq<L1Entry>, k: nat, n: string)
    requires k <= |es|
    ensures n in BandNames(es, k) && n != [] ==> n in AddEntries(p, es, k).ifMap
    ensures n in BandNames(es, k) && n != [] ==> AddEntries(p, es, k).ifMap[n] == es[LastRegistering(es, k, n)]
    ensures n !in BandNames(es, k) || n == [] ==> (n in AddEntries(p, es, k).ifMap <==> n in p.ifMap)
    ensures n !in BandNames(es, k) && n in p.ifMap ==> AddEntries(p, es, k).ifMap[n] == p.ifMap[n]
  {
    if k > 0 {
      AddEntriesIfMap(p, es, k - 1, n);
      var q := AddEntries(p, es, k - 1);
      assert AddEntries(p, es, k).ifMap == Registered(q.ifMap, NamesOf(es[k - 1]), es[k - 1]);
      RegisteredLookup(q.ifMap, NamesOf(es[k - 1]), es[k - 1], n);
    }
  }

  /** The names a recorded block registers: those of all its band entries, in band order. */
  function BlockNames(chip: string, m: nat, rawIdx: nat, props: map<string, string>): seq<string> {
    var names := Interfaces(props);
    BandNames(BandEntries(chip, m, rawIdx, names, props), |names|)
  }

  /**
   * The entry a name of a recorded block is mapped to: that of the last band
   * whose entry registers the name (bands share the default apcli, wds and
   * mesh names, and the later band's map_if overwrites the earlier one's).
   */
  function BlockOwner(chip: string, m: nat, rawIdx: nat, props: map<string, string>, n: string): (e: L1Entry)
    requires n in BlockNames(chip, m, rawIdx, props)
    ensures n in NamesOf(e)
    ensures e.indexName == chip && e.mainIdx == m && 1 <= e.subIdx <= |Interfaces(props)|
  {
    var names := Interfaces(props);
    var es := BandEntries(chip, m, rawIdx, names, props);
    var j := LastRegistering(es, |names|, n);
    BandEntry(chip, m, rawIdx, names, props, j, j + 1);
    es[j]
  }

  /** Recording a block keeps every entry stored before it, when the chip's occurrence m is unused. */
  lemma RecordKeep(p: Parser, chip: string, m: nat, rawIdx: nat, props: map<string, string>, r: Parser, key: string)
    requires Linked(p) && Below(p, chip, m, 1) && key in p.devMap
    requires r == Record(p, chip, m, rawIdx, props)
    ensures key in r.devMap && r.devMap[key] == p.devMap[key]
  {
    var names := Interfaces(props);
    if names != [] {
      var q := p.(rawBlocks := p.rawBlocks + [RawBlock(rawIdx, names)]);
      LinkedBlocks(p, q.rawBlocks);
      AddBandsKeep(q, chip, m, rawIdx, names, props, |names|, key);
    }
  }

  /**
   * Recording a block maps each non-empty name of its bands to the entry of
   * the last band registering it, and leaves every other name as it was.
   */
  lemma RecordIfMap(p: Parser, chip: string, m: nat, rawIdx: nat, props: map<string, string>, r: Parser, n: string)
    requires r == Record(p, chip, m, rawIdx, props)
    ensures n in BlockNames(chip, m, rawIdx, props) && n != [] ==>
              n in r.ifMap && r.ifMap[n] == BlockOwner(chip, m, rawIdx, props, n)
    ensures n !in BlockNames(chip, m, rawIdx, props) || n == [] ==> (n in r.ifMap <==> n in p.ifMap)
    ensures n !in BlockNames(chip, m, rawIdx, props) && n in p.ifMap ==> r.ifMap[n] == p.ifMap[n]
  {
    var names := Interfaces(props);
    var q := p.(rawBlocks := p.rawBlocks + [RawBlock(rawIdx, names)]);
    var es := BandEntries(chip, m, rawIdx, names, props);
    AddEntriesIfMap(q, es, |names|, n);
  }


  /** A block without INDEX changes neither the containers nor the counter. */
  lemma StepSkips(l: Loading, row: RawRow)
    requires "INDEX" !in row.props
    ensures Step(l, row) == l
  {
  }

  /** What recording a block adds: its RawBlock, and the entries of its bands under their keys. */
  lemma RecordEffect(p: Parser, chip: string, m: nat, rawIdx: nat, props: map<string, string>,
                     names: seq<string>, r: Parser)
    requires names == Interfaces(props) && r == Record(p, chip, m, rawIdx, props)
    ensures r.rawBlocks == p.rawBlocks + (if names == [] then [] else [RawBlock(rawIdx, names)])
    ensures r.devKeys == p.devKeys + BandKeys(chip, m, |names|)
    ensures forall s :: 1 <= s <= |names| ==>
              DevKey(chip, m, s) in r.devMap &&
              r.devMap[DevKey(chip, m, s)] == MakeEntry(chip, m, s, rawIdx, s - 1, names[s - 1], props)
    ensures Linked(p) && Below(p, chip, m, 1) ==>
              forall key :: key in p.devMap ==> key in r.devMap && r.devMap[key] == p.devMap[key]
    ensures forall n :: n in BlockNames(chip, m, rawIdx, props) && n != [] ==>
              n in r.ifMap && r.ifMap[n] == BlockOwner(chip, m, rawIdx, props, n)
    ensures forall n :: n !in BlockNames(chip, m, rawIdx, props) ==>
              (n in r.ifMap <==> n in p.ifMap) && (n in p.ifMap ==> r.ifMap[n] == p.ifMap[n])
  {
    forall n {
      RecordIfMap(p, chip, m, rawIdx, props, r, n);
    }
    if Linked(p) && Below(p, chip, m, 1) {
      forall key | key in p.devMap
        ensures key in r.devMap && r.devMap[key] == p.devMap[key]
      {
        RecordKeep(p, chip, m, rawIdx, props, r, key);
      }
    }
    if names != [] {
      var q := p.(rawBlocks := p.rawBlocks + [RawBlock(rawIdx, names)]);
      assert r == AddBands(q, chip, m, rawIdx, names, props, |names|);
      forall s | 1 <= s <= |names|
        ensures DevKey(chip, m, s) in r.devMap
        ensures r.devMap[DevKey(chip, m, s)] == MakeEntry(chip, m, s, rawIdx, s - 1, names[s - 1], props)
      {
        AddBandsStored(q, chip, m, rawIdx, names, props, |names|, s);
      }
    } else {
      assert BandKeys(chip, m, 0) == [];
    }
  }

  /** A block naming chip raises the chip's counter by one, even when it has no interfaces, and no other counter. */
  lemma StepCounts(l: Loading, row: RawRow, chip: string, r: Loading)
    requires "INDEX" in row.props && chip == row.props["INDEX"] && r == Step(l, row)
    ensures Seen(r.counter, chip) == Seen(l.counter, chip) + 1
    ensures forall c :: c != chip ==> Seen(r.counter, c) == Seen(l.counter, c)
  {
    assert r.counter == Bump(l.counter, chip);
  }

  /** A block naming chip is recorded under the chip's new counter value. */
  lemma StepRecord(l: Loading, row: RawRow, chip: string, m: nat, r: Loading)
    requires "INDEX" in row.props && chip == row.props["INDEX"]
    requires m == Seen(l.counter, chip) + 1 && r == Step(l, row)
    ensures r.parser == Record(l.parser, chip, m, row.index, row.props)
  {
    StepIs(l, row, chip);
    IndexedDef(l, chip, row);
  }

  /**
   * A block naming chip with N interfaces appends one RawBlock holding
   * them, and lists and stores N entries under the keys chip_m_1 ..
   * chip_m_N, m being the chip's new counter value.
   */
  lemma StepEffect(l: Loading, row: RawRow, chip: string, m: nat, names: seq<string>, r: Loading)
    requires "INDEX" in row.props && chip == row.props["INDEX"]
    requires m == Seen(l.counter, chip) + 1 && names == Interfaces(row.props) && r == Step(l, row)
    ensures r.parser.rawBlocks == l.parser.rawBlocks + (if names == [] then [] else [RawBlock(row.index, names)])
    ensures r.parser.devKeys == l.parser.devKeys + BandKeys(chip, m, |names|)
    ensures forall s :: 1 <= s <= |names| ==>
              DevKey(chip, m, s) in r.parser.devMap &&
              r.parser.devMap[DevKey(chip, m, s)] == MakeEntry(chip, m, s, row.index, s - 1, names[s - 1], row.props)
    ensures Linked(l.parser) && Counted(l.parser, l.counter) ==>
              forall key :: key in l.parser.devMap ==> key in r.parser.devMap && r.parser.devMap[key] == l.parser.devMap[key]
    ensures forall n :: n in BlockNames(chip, m, row.index, row.props) && n != [] ==>
              n in r.parser.ifMap && r.parser.ifMap[n] == BlockOwner(chip, m, row.index, row.props, n)
    ensures forall n :: n !in BlockNames(chip, m, row.index, row.props) ==>
              (n in r.parser.ifMap <==> n in l.parser.ifMap) && (n in l.parser.ifMap ==> r.parser.ifMap[n] == l.parser.ifMap[n])
  {
    StepRecord(l, row, chip, m, r);
    if Counted(l.parser, l.counter) {
      CounterBump(l.parser, l.counter, chip, Bump(l.counter, chip));
    }
    RecordEffect(l.parser, chip, m, row.index, row.props, names, r.parser);
  }

  /** One block keeps every entry already stored, under the container invariants. */
  lemma StepKeep(l: Loading, row: RawRow, key: string)
    requires Linked(l.parser) && Counted(l.parser, l.counter) && key in l.parser.devMap
    ensures key in Step(l, row).parser.devMap && Step(l, row).parser.devMap[key] == l.parser.devMap[key]
  {
    if "INDEX" in row.props {
      var chip := row.props["INDEX"];
      var m := Seen(l.counter, chip) + 1;
      StepRecord(l, row, chip, m, Step(l, row));
      CounterBump(l.parser, l.counter, chip, Bump(l.counter, chip));
      RecordKeep(l.parser, chip, m, row.index, row.props, Step(l, row).parser, key);
    }
  }

  /** Later blocks keep an entry stored by an earlier one. */
  lemma {:induction false} ProcessKeep(rows: seq<RawRow>, i: nat, key: string)
    requires i <= |rows| && key in Process(rows[..i]).parser.devMap
    ensures key in Process(rows).parser.devMap
    ensures Process(rows).parser.devMap[key] == Process(rows[..i]).parser.devMap[key]
  {
    if i == |rows| {
      assert rows[..i] == rows;
    } else {
      var init := rows[..|rows| - 1];
      assert init[..i] == rows[..i];
      ProcessKeep(init, i, key);
      ProcessValid(init);
      StepKeep(Process(init), rows[|rows| - 1], key);
    }
  }

  /** The blocks among rows that name chip. */
  function Occurrences(rows: seq<RawRow>, chip: string): nat {
    if rows == [] then 0
    else
      var row := rows[|rows| - 1];
      Occurrences(rows[..|rows| - 1], chip) + if "INDEX" in row.props && row.props["INDEX"] == chip then 1 else 0
  }

  /** After a table, a chip's counter is the number of its blocks, with or without interfaces. */
  lemma {:induction false} ProcessCounter(rows: seq<RawRow>, chip: string)
    ensures Seen(Process(rows).counter, chip) == Occurrences(rows, chip)
  {
    if rows != [] {
      var init, row := rows[..|rows| - 1], rows[|rows| - 1];
      ProcessCounter(init, chip);
      if "INDEX" in row.props {
        StepCounts(Process(init), row, row.props["INDEX"], Process(rows));
      }
    }
  }

  /** The interfaces of the blocks that name a chip, in block order. */
  function AllInterfaces(rows: seq<RawRow>): seq<string> {
    if rows == [] then []
    else
      var row := rows[|rows| - 1];
      AllInterfaces(rows[..|rows| - 1]) + if "INDEX" in row.props then Interfaces(row.props) else []
  }

  /** The recorded blocks, flattened, are the interfaces of the blocks naming a chip, in block order. */
  lemma {:induction false} ProcessInterfaces(rows: seq<RawRow>)
    ensures Flatten(Process(rows).parser.rawBlocks) == AllInterfaces(rows)
  {
    if rows != [] {
      var init, row := rows[..|rows| - 1], rows[|rows| - 1];
      ProcessInterfaces(init);
      if "INDEX" in row.props {
        var c := row.props["INDEX"];
        var names := Interfaces(row.props);
        var l := Process(init);
        StepEffect(l, row, c, Seen(l.counter, c) + 1, names, Process(rows));
        if names != [] {
          FlattenAppend(l.parser.rawBlocks, [RawBlock(row.index, names)]);
          assert Flatten([RawBlock(row.index, names)]) == names;
        }
      }
    }
  }

  /** After load on an opened file, the recorded blocks flattened are the interfaces of the table's chip-named blocks. */
  lemma LoadedInterfaces(lines: seq<string>)
    ensures Flatten(Loaded(lines, true).rawBlocks) == AllInterfaces(RawTable(lines))
  {
    ProcessInterfaces(RawTable(lines));
  }

  /** Any permutation of the key list keeps the containers linked. */
  lemma LinkedPermuted(p: Parser, keys: seq<string>)
    requires Linked(p) && multiset(keys) == multiset(p.devKeys)
    ensures Linked(p.(devKeys := keys))
  {
    assert forall k :: k in keys <==> k in multiset(p.devKeys);
  }

  /** Sorting the key list keeps the containers valid. */
  lemma SortKeysValid(p: Parser)
    requires Valid(p)
    ensures Valid(p.(devKeys := SortStrings(p.devKeys))) && Sorted(SortStrings(p.devKeys))
  {
    var sorted := SortStrings(p.devKeys);
    LinkedPermuted(p, sorted);
    assert |sorted| == |multiset(sorted)| == |p.devKeys|;
  }

  /** load on an opened file: every block of its table processed, then the keys sorted. */
  lemma LoadedOpen(lines: seq<string>, p: Parser)
    requires p == Process(RawTable(lines)).parser
    ensures Loaded(lines, true) == p.(devKeys := SortStrings(p.devKeys))
  {
  }

  /** A block naming chip adds one to its occurrences. */
  lemma OccurrencesStep(rows: seq<RawRow>, i: nat, chip: string)
    requires i < |rows| && "INDEX" in rows[i].props && rows[i].props["INDEX"] == chip
    ensures Occurrences(rows[..i + 1], chip) == Occurrences(rows[..i], chip) + 1
  {
    assert rows[..i + 1][..i] == rows[..i];
  }

  /** Band s of the i-th block, the m-th block naming chip, is stored under chip_m_s once all blocks are processed. */
  lemma ProcessEntry(rows: seq<RawRow>, i: nat, s: nat, chip: string, m: nat, names: seq<string>)
    requires i < |rows| && "INDEX" in rows[i].props && chip == rows[i].props["INDEX"]
    requires names == Interfaces(rows[i].props) && 1 <= s <= |names|
    requires m == Occurrences(rows[..i + 1], chip)
    ensures DevKey(chip, m, s) in Process(rows).parser.devMap
    ensures Process(rows).parser.devMap[DevKey(chip, m, s)] == MakeEntry(chip, m, s, rows[i].index, s - 1, names[s - 1], rows[i].props)
  {
    var row := rows[i];
    var l := Process(rows[..i]);
    ProcessCounter(rows[..i], chip);
    OccurrencesStep(rows, i, chip);
    ProcessStep(rows, i);
    var r := Process(rows[..i + 1]);
    StepRecord(l, row, chip, m, r);
    var q := l.parser.(rawBlocks := l.parser.rawBlocks + [RawBlock(row.index, names)]);
    AddBandsStored(q, chip, m, row.index, names, row.props, |names|, s);
    ProcessKeep(rows, i + 1, DevKey(chip, m, s));
  }

  /**
   * After load, band s of the i-th block of the table, a block naming chip
   * and its m-th occurrence, is stored under chip_m_s as the entry built for
   * its s-th interface: later blocks do not overwrite it.
   */
  lemma LoadedEntry(lines: seq<string>, i: nat, s: nat)
    requires i < |RawTable(lines)| && "INDEX" in RawTable(lines)[i].props
    requires 1 <= s <= |Interfaces(RawTable(lines)[i].props)|
    ensures var row := RawTable(lines)[i];
            var chip := row.props["INDEX"];
            var m := Occurrences(RawTable(lines)[..i + 1], chip);
            DevKey(chip, m, s) in Loaded(lines, true).devMap &&
            Loaded(lines, true).devMap[DevKey(chip, m, s)] ==
              MakeEntry(chip, m, s, row.index, s - 1, Interfaces(row.props)[s - 1], row.props)
  {
    var rows := RawTable(lines);
    var chip := rows[i].props["INDEX"];
    ProcessEntry(rows, i, s, chip, Occurrences(rows[..i + 1], chip), Interfaces(rows[i].props));
    LoadedOpen(lines, Process(rows).parser);
  }

  /** Block i of rows names a chip and one of its bands registers name n. */
  predicate Registers(rows: seq<RawRow>, i: nat, n: string)
    requires i < |rows|
  {
    "INDEX" in rows[i].props &&
    var chip := rows[i].props["INDEX"];
    n in BlockNames(chip, Occurrences(rows[..i + 1], chip), rows[i].index, rows[i].props)
  }

  /** The entry of block i that name n is mapped to when that block is processed. */
  function OwnerAt(rows: seq<RawRow>, i: nat, n: string): L1Entry
    requires i < |rows| && Registers(rows, i, n)
  {
    var chip := rows[i].props["INDEX"];
    BlockOwner(chip, Occurrences(rows[..i + 1], chip), rows[i].index, rows[i].props, n)
  }

  /** Which blocks of rows register name n. */
  function RegisteringBlocks(rows: seq<RawRow>, n: string): (bs: seq<bool>)
    ensures |bs| == |rows|
  {
    seq(|rows|, i requires 0 <= i < |rows| => Registers(rows, i, n))
  }

  /** The position of the last true flag among the first k; -1 when none is. */
  function LastSet(bs: seq<bool>, k: nat): (j: int)
    requires k <= |bs|
    ensures -1 <= j < k
    ensures j >= 0 ==> bs[j]
  {
    if k == 0 then -1 else if bs[k - 1] then k - 1 else LastSet(bs, k - 1)
  }

  /** No flag after LastSet, among the first k, is true. */
  lemma {:induction false} LastSetLater(bs: seq<bool>, k: nat, i: nat)
    requires k <= |bs| && LastSet(bs, k) < i < k
    ensures !bs[i]
  {
    if i < k - 1 && !bs[k - 1] {
      LastSetLater(bs, k - 1, i);
    }
  }

  /**
   * The last of the first k blocks of rows that registers name n; -1 when
   * none does.
   */
  function LastBlock(rows: seq<RawRow>, k: nat, n: string): (j: int)
    requires k <= |rows|
    ensures -1 <= j < k
    ensures j >= 0 ==> Registers(rows, j, n)
  {
    var bs := RegisteringBlocks(rows, n);
    var j := LastSet(bs, k);
    assert j >= 0 ==> bs[j] == Registers(rows, j, n);
    j
  }

  /** No block after LastBlock, among the first k, registers n. */
  lemma LastBlockLater(rows: seq<RawRow>, k: nat, n: string, i: nat)
    requires k <= |rows| && LastBlock(rows, k, n) < i < k
    ensures !Registers(rows, i, n)
  {
    var bs := RegisteringBlocks(rows, n);
    LastSetLater(bs, k, i);
    assert bs[i] == Registers(rows, i, n);
  }

  /**
   * if_map_ after processing the first k blocks: a non-empty name is mapped
   * exactly when one of them registers it, to the entry of the last one.
   */
  lemma {:induction false} ProcessIfMap(rows: seq<RawRow>, k: nat, n: string)
    requires k <= |rows|
    ensures n in Process(rows[..k]).parser.ifMap <==> n != [] && LastBlock(rows, k, n) >= 0
    ensures n != [] && LastBlock(rows, k, n) >= 0 ==>
      Process(rows[..k]).parser.ifMap[n] == OwnerAt(rows, LastBlock(rows, k, n), n)
  {
    if k > 0 {
      var row := rows[k - 1];
      var before := Process(rows[..k - 1]);
      var after := Process(rows[..k]);
      ProcessIfMap(rows, k - 1, n);
      ProcessStep(rows, k - 1);
      if "INDEX" in row.props {
        var chip := row.props["INDEX"];
        var m := Occurrences(rows[..k], chip);
        OccurrencesStep(rows, k - 1, chip);
        ProcessCounter(rows[..k - 1], chip);
        StepRecord(before, row, chip, m, after);
        RecordIfMap(before.parser, chip, m, row.index, row.props, after.parser, n);
        var bs := RegisteringBlocks(rows, n);
        assert bs[k - 1] == Registers(rows, k - 1, n);
        if bs[k - 1] {
          assert LastBlock(rows, k, n) == k - 1;
        } else {
          assert LastBlock(rows, k, n) == LastBlock(rows, k - 1, n);
        }
      } else {
        var bs := RegisteringBlocks(rows, n);
        assert !bs[k - 1];
        assert after == before;
        assert LastBlock(rows, k, n) == LastBlock(rows, k - 1, n);
      }
    }
  }


  /**
   * After load, a name registered by block i of the table and by no later
   * block maps to the entry of block i's last band registering it.
   */
  lemma LoadedIfMap(lines: seq<string>, i: nat, n: string)
    requires i < |RawTable(lines)| && n != [] && Registers(RawTable(lines), i, n)
    requires forall j :: i < j < |RawTable(lines)| ==> !Registers(RawTable(lines), j, n)
    ensures n in Loaded(lines, true).ifMap
    ensures Loaded(lines, true).ifMap[n] == OwnerAt(RawTable(lines), i, n)
  {
    var rows := RawTable(lines);
    ProcessIfMap(rows, |rows|, n);
    if LastBlock(rows, |rows|, n) < i {
      LastBlockLater(rows, |rows|, n, i);
    }
    assert LastBlock(rows, |rows|, n) == i;
    assert rows[..|rows|] == rows;
    LoadedOpen(lines, Process(rows).parser);
  }

  /** After load, a name is mapped exactly when some block of the table registers it. */
  lemma LoadedIfMapDomain(lines: seq<string>, n: string)
    ensures n in Loaded(lines, true).ifMap <==>
      n != [] && exists i :: 0 <= i < |RawTable(lines)| && Registers(RawTable(lines), i, n)
  {
    var rows := RawTable(lines);
    ProcessIfMap(rows, |rows|, n);
    if exists i :: 0 <= i < |rows| && Registers(rows, i, n) {
      var i :| 0 <= i < |rows| && Registers(rows, i, n);
      if LastBlock(rows, |rows|, n) < i {
        LastBlockLater(rows, |rows|, n, i);
      }
    }
    assert rows[..|rows|] == rows;
    LoadedOpen(lines, Process(rows).parser);
  }

  /** After load, the containers are valid and the key list is sorted. */
  lemma LoadedValid(lines: seq<string>, isOpen: bool)
    ensures Valid(Loaded(lines, isOpen)) && Sorted(Loaded(lines, isOpen).devKeys)
  {
    if isOpen {
      var rows := RawTable(lines);
      ProcessValid(rows);
      SortKeysValid(Process(rows).parser);
    }
  }
}
