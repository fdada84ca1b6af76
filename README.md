# l1parser in Dafny

l1parser reads the MediaTek Wi-Fi L1 profile (`l1profile.dat`), a flat file of
`INDEX<n>=<chip>` and `INDEX<n>_<field>=<value>` lines. It groups the lines
into blocks by block number. Each block describes one chip, and its
`main_ifname` field lists one interface per radio band, separated by `;`.
Every band becomes a device entry keyed `<chip>_<occurrence>_<band>`. The
entry is registered under its main interface and under the derived
ext/apcli/wds/mesh interface names. Read-only queries then answer "which
zone, profile file or band does this interface belong to", "which
interfaces are in this zone" and "what is the n-th interface".

The model has eight modules, one concept per module:

- `Wrappers` (in `stringutils.dfy`): the `Option` type, standing for `std::optional`.
- `StringUtils` (`stringutils.dfy`): `utils::trim` and `utils::split`.
  - `Trim` is a function proved to cut the input into whitespace, a trimmed core and whitespace.
  - `Split` is a reference definition over the delimiter fields (`Pieces`, the inverse of `Join`).
  - `SplitTokens` is the getline loop of the source, proved equal to `Split`.
- `Decimal` (`decimal.dfy`): `std::to_string` and `std::stoul` on digit strings, with their round trip.
- `RawConfig` (`rawconfig.dfy`): `parse_index_key` and the per-line logic of `parse_raw_config`.
  - The RawDataMap (a `std::map`) is a sequence of rows kept in strictly ascending block order.
  - `IndexKey` (the digit scan), `ReadLine` (the body of the line loop) and `ParseRawConfig` (the line loop) are methods, proved against the functions.
- `Entries` (`entries.dfy`): the pure part of `create_and_map_entry`.
  - `L1Entry` and `RawBlock`.
  - The per-band split of fields and the fallback interface names.
  - The device key and the proof that it is injective.
  - The list of names an entry is registered under.
- `Engine` (`engine.dfy`): what `load` computes, as functions of the RawDataMap (`Process`, `Loaded`), plus the invariants of the four containers.
  - Every stored entry sits under its own key and keeps its derived fields.
  - Every mapped interface points at a stored entry registered under it. After load, a name points at the last band, of the last block in table order, that registers it: `if_map_` keeps the last write, and bands share the default apcli, wds and mesh names.
  - Every name of a stored entry is mapped.
  - The key list holds each stored key once.
  - There is one listed key per recorded interface.
  - The engine also states what one block contributes.
- `Sorting` (`sorting.dfy`): `std::sort` on the device keys, as a sorted permutation in `std::string` order.
- `L1` (`l1parser.dfy`): the class `L1Parser` with the four fields `devMap`, `ifMap`, `rawBlocks` and `orderedDevKeys`.
  - `Load`, `ProcessBlock`, `CreateAndMapEntry` and the `map_if` loops are methods that update those fields. `Load` and `ProcessBlock` are proved against the `Engine` functions they implement; `CreateAndMapEntry` and the `map_if` loops against `Entries.MakeEntry`, `Entries.NamesOf` and `Entries.Registered`.
  - The queries are functions, or methods where the source loops, over that state.

The chip counter is raised (lib/l1parser.cpp:97) before a block with no
interfaces is rejected (lib/l1parser.cpp:104). A block that names a chip but
lists no interface therefore still uses up an occurrence number. One might
expect only blocks that produce entries to be counted; the code counts every
block that names a chip. The model follows the code, and `Engine.StepCounts` and `Engine.ProcessCounter` state
the behaviour as written.

## Model

| member | source | states |
|---|---|---|
| StringUtils.FirstNotWs | utils/stringutils.hpp:11-12 | the position of the first non-whitespace character (or the length): everything before it is whitespace |
| StringUtils.TrailingWs | utils/stringutils.hpp:13-14 | the length of the whitespace run at the end, the character before it being non-whitespace |
| StringUtils.Trim | utils/stringutils.hpp:10-15 | the result is no longer than the input, has no whitespace at either end, and is empty exactly when the input is all whitespace |
| StringUtils.TrimShape | utils/stringutils.hpp:10-15 | the input is leading whitespace, then the result, then trailing whitespace: the result is a contiguous substring |
| StringUtils.TrimUnique | utils/stringutils.hpp:10-15 | whitespace around a trimmed core trims to exactly that core |
| StringUtils.TrimIdempotent | utils/stringutils.hpp:11-12 | trimming twice is trimming once |
| StringUtils.TrimFixed | utils/stringutils.hpp:10-15 | a string with no whitespace at either end is left unchanged |
| StringUtils.TrimKeepsOut | utils/stringutils.hpp:14 | trim introduces no character that was not in its input |
| StringUtils.FindChar | utils/stringutils.hpp:33 | the position of the first delimiter (or the length), with no delimiter before it |
| StringUtils.FindCharUnique | utils/stringutils.hpp:33 | those three properties determine the position |
| StringUtils.JoinPieces | utils/stringutils.hpp:33 | joining the delimiter fields with the delimiter gives back the input |
| StringUtils.PiecesJoin | utils/stringutils.hpp:33 | splitting a join of delimiter-free fields gives back those fields |
| StringUtils.PiecesHaveNoDelimiter | utils/stringutils.hpp:33 | no field holds the delimiter |
| StringUtils.PiecesCount | utils/stringutils.hpp:33-44 | a string with k delimiters has k + 1 fields |
| StringUtils.PiecesLastEmpty | utils/stringutils.hpp:40-44 | a string ending in the delimiter has an empty last field |
| StringUtils.TrimAll | utils/stringutils.hpp:34 | every field is replaced by its trimmed form, in position |
| StringUtils.NonEmpty | utils/stringutils.hpp:35 | the filtered tokens are all non-empty |
| StringUtils.NonEmptyFrom | utils/stringutils.hpp:35-36 | every kept token comes from the input |
| StringUtils.TrimAllAppend | utils/stringutils.hpp:33-38 | trimming the fields distributes over concatenation |
| StringUtils.NonEmptyAppend | utils/stringutils.hpp:33-38 | dropping empty tokens distributes over concatenation |
| StringUtils.KeptAppend | utils/stringutils.hpp:33-38 | the tokens of two runs of fields are the tokens of each, in order, in both modes |
| StringUtils.Split | utils/stringutils.hpp:27-47 | every token is trimmed; with keep_empty false none is empty; the empty string gives no tokens |
| StringUtils.SplitNoDelimiter | utils/stringutils.hpp:33-38 | no token holds the delimiter, in either mode |
| StringUtils.SplitKeepEmptyCount | utils/stringutils.hpp:33-44 | with keep_empty, a non-empty string with k delimiters gives k + 1 tokens, the i-th being the trimmed i-th field |
| StringUtils.CountTrailing | utils/stringutils.hpp:42 | a string ending in the delimiter holds at least one delimiter |
| StringUtils.TrailingDelimiterKeepsEmpty | utils/stringutils.hpp:40-44 | with keep_empty, a trailing delimiter yields at least two tokens, the last one empty |
| StringUtils.TrimAllFixed | utils/stringutils.hpp:34 | fields that are already trimmed are unchanged by the trimming step |
| StringUtils.EmptySlotKept | utils/stringutils.hpp:22-23 | "val1;;val3" with keep_empty splits to ["val1", "", "val3"] |
| StringUtils.RestStep | utils/stringutils.hpp:33 | one getline call consumes exactly the field that starts at the stream position |
| StringUtils.OwedStep | utils/stringutils.hpp:33-38 | one loop iteration emits the token of that field, and the rest is owed from the next position |
| StringUtils.OwedStart | utils/stringutils.hpp:33 | before the loop, all of split's tokens are owed |
| StringUtils.OwedEnd | utils/stringutils.hpp:42-44 | at the end of the stream, only the empty slot after a trailing delimiter (with keep_empty) is owed |
| StringUtils.ReadField | utils/stringutils.hpp:33 | getline stops at the next delimiter or at the end, with no delimiter in the field |
| StringUtils.SplitTokens | utils/stringutils.hpp:27-47 | the getline loop plus the trailing-slot fix returns exactly the tokens of Split |
| Decimal.NatToString | lib/l1parser.cpp:177 | to_string gives a non-empty string of digits |
| Decimal.DecimalValue | lib/l1parser.cpp:54 | stoul reads a string of k digits (leading zeros allowed) as a number below 10^k whose last decimal digit is the string's last digit |
| Decimal.LeadingZero | lib/l1parser.cpp:54 | a leading zero does not change the value stoul reads |
| Decimal.DecimalRoundTrip | lib/l1parser.cpp:54 | stoul of to_string(n) is n |
| Decimal.NatToStringInjective | lib/l1parser.cpp:177 | different numbers have different decimal texts |
| Decimal.NoUnderscore | lib/l1parser.cpp:177 | decimal text holds no '_' |
| RawConfig.DigitRun | lib/l1parser.cpp:48 | the length of the leading run of digits, the next character not being a digit |
| RawConfig.DigitRunUnique | lib/l1parser.cpp:48 | those properties determine the run length |
| RawConfig.ParseIndexKey | lib/l1parser.cpp:42-62 | a key is accepted only when it is longer than five characters, starts with "INDEX" and has a digit right after it |
| RawConfig.IndexKey | lib/l1parser.cpp:42-62 | the digit-scanning loop returns exactly ParseIndexKey |
| RawConfig.ParseIndexKeyBlock | lib/l1parser.cpp:57-58 | "INDEX" followed by digits only yields (their value, "INDEX") |
| RawConfig.ParseIndexKeyField | lib/l1parser.cpp:59-60 | "INDEX", digits, '_' and a name yield (the value, the name) |
| RawConfig.ParseIndexKeyRoundTrip | lib/l1parser.cpp:42-62 | keys built from to_string of a block number decode to that number and field |
| RawConfig.ParseIndexKeySound | lib/l1parser.cpp:42-62 | every accepted key is "INDEX", at least one digit, then the end or '_' and the returned field |
| RawConfig.ParseIndexKeyRejects | lib/l1parser.cpp:43-50 | a key not starting with "INDEX" and a digit is refused, "INDEX" alone included |
| RawConfig.StripComment | lib/l1parser.cpp:72 | the text left after cutting at '#' and trimming holds no '#' |
| RawConfig.SplitAssign | lib/l1parser.cpp:73-79 | the text splits exactly when it holds '='; key and value are trimmed, and the key holds no '=' (the split is at the first one) |
| RawConfig.ParseLine | lib/l1parser.cpp:70-84 | a line assigns only when its text before the comment holds '=', and the value it assigns is trimmed |
| RawConfig.SplitAssignValue | lib/l1parser.cpp:75-79 | the value of KEY=VALUE is trimmed and holds only characters of the text |
| RawConfig.ParseLineValue | lib/l1parser.cpp:70-84 | a value a line stores is trimmed and has no comment in it |
| RawConfig.ParseLineNoAssign | lib/l1parser.cpp:72-76 | a line whose text before '#' holds no '=' (blank and comment-only lines included) assigns nothing |
| RawConfig.CommentCut | lib/l1parser.cpp:72 | when the first '#' follows a text, the line without its comment is that text trimmed |
| RawConfig.AssignParts | lib/l1parser.cpp:75-79 | a trimmed key without '=', whitespace, '=' and a rest split into that key and the trimmed rest |
| RawConfig.FieldKeyChars | lib/l1parser.cpp:57-60 | a key INDEX<n>_<field> built from a trimmed field without '=' or '#' is itself trimmed and holds neither |
| RawConfig.AssignText | lib/l1parser.cpp:72 | trimming whitespace, key, whitespace, '=', whitespace, value, whitespace leaves the part from the key to the value (to the '=' when the value is empty) |
| RawConfig.LineText | lib/l1parser.cpp:72 | the same line followed by '#' and a comment, with no '#' in key or value, strips to that part |
| RawConfig.ValueParts | lib/l1parser.cpp:75-79 | that part splits into the key and the value |
| RawConfig.ParseLineRoundTrip | lib/l1parser.cpp:70-84 | a line "INDEX<n>_<field> = value # comment", with any whitespace around key and value, assigns value to field of block n (field trimmed and without '=' or '#', value trimmed and without '#') |
| RawConfig.Put | lib/l1parser.cpp:82 | raw_data[n][f] = v: the table stays ascending, block n gets f set to v (created when missing), every other block is unchanged |
| RawConfig.Apply | lib/l1parser.cpp:81-82 | storing one line's result keeps the table ascending |
| RawConfig.TableOf | lib/l1parser.cpp:70-84 | the table built from the line results is ascending |
| RawConfig.TableOfStep | lib/l1parser.cpp:70 | one more line is one more store |
| RawConfig.Assignments | lib/l1parser.cpp:70 | one result per line of the file |
| RawConfig.RawTable | lib/l1parser.cpp:64-86 | the RawDataMap of a file is ascending in block number |
| RawConfig.ApplyField | lib/l1parser.cpp:81-82 | a line sets field f of block n exactly when it assigns (n, f); otherwise that field is unchanged |
| RawConfig.ApplyBlock | lib/l1parser.cpp:81-82 | block n exists after a line exactly when it existed before or the line assigns to it |
| RawConfig.TableLastWins | lib/l1parser.cpp:81-82 | the last line result assigning (n, f) determines its value |
| RawConfig.TableUnassigned | lib/l1parser.cpp:81-82 | a field no line result assigns is absent |
| RawConfig.TableBlockSource | lib/l1parser.cpp:81-82 | a block in the table was assigned by some line result |
| RawConfig.TableBlockMade | lib/l1parser.cpp:81-82 | a block some line result assigns is in the table |
| RawConfig.LastLineWins | lib/l1parser.cpp:70-84 | field f of block n holds the value of the last line of the file assigning it |
| RawConfig.UnassignedFieldAbsent | lib/l1parser.cpp:70-84 | a field no line assigns is absent from its block |
| RawConfig.BlockPresent | lib/l1parser.cpp:70-84 | block n is in the table exactly when some line assigns a field of it |
| RawConfig.ReadLine | lib/l1parser.cpp:71-83 | the loop body returns exactly what ParseLine says the line assigns |
| RawConfig.ParseRawConfig | lib/l1parser.cpp:64-86 | an unopenable file gives the empty table; otherwise the table of the file's lines, ascending |
| Entries.SplitProp | lib/l1parser.cpp:125-131 | the band's value of a field is trimmed and holds no ';'; a missing field gives "" |
| Entries.SplitPropSlot | lib/l1parser.cpp:125-131 | the band's value is the trimmed band-th ';' field, or "" past the last one (empty slots keep their place) |
| Entries.Fallback | lib/l1parser.cpp:138-140 | the fallback name is never empty |
| Entries.Resolve | lib/l1parser.cpp:135-141 | a resolved name is never empty and is the configured band value whenever that is non-empty |
| Entries.FilledProps | lib/l1parser.cpp:155-164 | the fill loop sets exactly the block's fields, and INDEX, EEPROM* and mainidx keep their block value |
| Entries.Override | lib/l1parser.cpp:166-173 | the overwrites add exactly the seven derived fields and leave every other field alone |
| Entries.MakeEntry | lib/l1parser.cpp:148-152 | the entry carries the chip name, main index and sub index it was built for |
| Entries.MakeEntryFilled | lib/l1parser.cpp:155-164 | the entry's fields are the block's fields plus the seven derived ones; INDEX, EEPROM* and mainidx are copied, every other non-derived field is its band value |
| Entries.MakeEntryDerived | lib/l1parser.cpp:166-173 | main_ifname is the band's interface, ext/apcli/wds/mesh are the resolved names, subidx and mainidx the indices in decimal |
| Entries.MakeEntryWellFormed | lib/l1parser.cpp:148-173 | a new entry of a block naming its chip, for a non-empty interface, keeps the stored-entry invariant |
| Entries.DefaultNames | lib/l1parser.cpp:182-191 | with no configured names, an entry registers main_if, main_if_1..15, apcliN_0, wdsN_0..3 and meshN_0 (N = block index + 1), and not the unsuffixed base names |
| Entries.AfterLastUnderscore | lib/l1parser.cpp:177 | the text after the last '_' holds no '_' |
| Entries.AfterLastUnderscoreOf | lib/l1parser.cpp:177 | a + "_" + b with no '_' in b has b after its last '_' |
| Entries.LastUnderscore | lib/l1parser.cpp:177 | a + "_" + b determines a and b when b holds no '_' |
| Entries.DevKeySubIdx | lib/l1parser.cpp:177 | the sub index is the text after the last '_' of the device key |
| Entries.DevKeyInjective | lib/l1parser.cpp:177 | two devices share a key only if they agree on chip, main index and sub index |
| Entries.Suffixed | lib/l1parser.cpp:188-191 | the loop over j yields hi - lo suffixed names |
| Entries.SuffixedStep | lib/l1parser.cpp:188-191 | one more loop iteration appends base + to_string(j) |
| Entries.NamesOf | lib/l1parser.cpp:182-191 | an entry is registered under 22 names (main, 15 ext, 1 apcli, 4 wds, 1 mesh), main_ifname first |
| Entries.Registered | lib/l1parser.cpp:182-184 | map_if never removes a name, and names not passed keep their entry |
| Entries.RegisteredLookup | lib/l1parser.cpp:182-184 | after map_if over names, a name is mapped exactly when it was before or is one of the non-empty names, which map to the entry; other names keep their entry |
| Entries.RegisteredNone | lib/l1parser.cpp:186-191 | registering no names changes nothing |
| Entries.RegisteredStep | lib/l1parser.cpp:182-184 | map_if for one more name sets it when non-empty and otherwise changes nothing |
| Entries.RegisteredAppend | lib/l1parser.cpp:186-191 | registering two lists one after the other registers their concatenation |
| Engine.FlattenAppend | lib/l1parser.cpp:263-272 | the interface sequence of two block lists is the concatenation of theirs |
| Engine.Flatten | lib/l1parser.cpp:263-272 | the interface sequence idx2if walks holds exactly the interfaces of the recorded blocks |
| Engine.AddEntry | lib/l1parser.cpp:177-179 | storing an entry appends its key to the list and leaves the recorded blocks alone |
| Engine.Interfaces | lib/l1parser.cpp:101-102 | the interfaces of a block are non-empty |
| Engine.BandKeys | lib/l1parser.cpp:110-111 | k bands give k keys |
| Engine.AddEntries | lib/l1parser.cpp:110-112 | adding entries in turn appends their keys in order |
| Engine.AddEntriesStore | lib/l1parser.cpp:178 | the device map after adding entries is the map storing them in turn |
| Engine.BandEntries | lib/l1parser.cpp:110-111 | one entry per interface |
| Engine.BandEntry | lib/l1parser.cpp:110-111 | band i + 1 is the entry built for the i-th interface |
| Engine.BandKey | lib/l1parser.cpp:110-111 | band i + 1 is keyed chip_m_(i + 1) |
| Engine.BandEntryKeys | lib/l1parser.cpp:110-111 | the first k bands are keyed chip_m_1 .. chip_m_k |
| Engine.AddBands | lib/l1parser.cpp:110-112 | the first k bands append the keys chip_m_1 .. chip_m_k and leave the recorded blocks alone |
| Engine.AddBandsStep | lib/l1parser.cpp:110-112 | band k is added after the first k - 1 bands |
| Engine.Record | lib/l1parser.cpp:104-112 | recording a block appends at most one RawBlock and only appends keys |
| Engine.Step | lib/l1parser.cpp:88-113 | process_block appends at most one RawBlock, only appends keys, and never lowers a counter |
| Engine.Indexed | lib/l1parser.cpp:93-112 | a block naming chip raises that chip's counter by one and no other, and only appends to the containers |
| Engine.StepIs | lib/l1parser.cpp:93-94 | a block whose INDEX names chip is processed as a block of chip |
| Engine.RecordBands | lib/l1parser.cpp:104-112 | a block with interfaces is appended to the recorded blocks and then gets its bands |
| Engine.ProcessStep | lib/l1parser.cpp:29-31 | processing one more block is one more process_block step |
| Engine.Process | lib/l1parser.cpp:26-31 | the loop over the table records at most one RawBlock per block |
| Engine.DistinctIndices | lib/l1parser.cpp:179 | a list without repeats has different keys at different positions |
| Engine.EmptyValid | lib/l1parser.cpp:13 | a new parser satisfies the container invariant |
| Engine.AddEntryStored | lib/l1parser.cpp:177-178 | storing a well-formed entry under its key keeps every entry under its own key |
| Engine.AddEntryIfs | lib/l1parser.cpp:182-191 | registering a new entry's names under a fresh key keeps every mapped interface pointing at its stored entry |
| Engine.AddEntryNames | lib/l1parser.cpp:182-191 | after registering, every name of every stored entry is mapped |
| Engine.AddEntryListed | lib/l1parser.cpp:177-179 | appending a fresh key keeps the list free of repeats and equal to the stored keys |
| Engine.AddEntryLinked | lib/l1parser.cpp:177-191 | create_and_map_entry under a fresh key keeps the containers linked |
| Engine.AddEntryCounted | lib/l1parser.cpp:97 | no stored entry has an occurrence above its chip's counter |
| Engine.AddEntryBelow | lib/l1parser.cpp:110-111 | after band s of occurrence m, only bands up to s of it are stored |
| Engine.FreshKey | lib/l1parser.cpp:177-178 | the key of a band not yet created is not in the device map |
| Engine.AddBandsLinked | lib/l1parser.cpp:110-112 | the bands of a block go in under fresh keys and keep every invariant |
| Engine.CounterBump | lib/l1parser.cpp:97 | raising a chip's counter keeps it an upper bound and leaves the new occurrence unused |
| Engine.LinkedBlocks | lib/l1parser.cpp:107 | the container links do not involve the recorded blocks |
| Engine.RecordValid | lib/l1parser.cpp:104-112 | recording a block under an unused occurrence keeps the containers valid |
| Engine.IndexedValid | lib/l1parser.cpp:93-112 | a block naming a chip keeps the containers valid and the counter an upper bound |
| Engine.StepValid | lib/l1parser.cpp:88-113 | every block keeps the containers valid and the counter an upper bound |
| Engine.ProcessValid | lib/l1parser.cpp:26-31 | after any sequence of blocks the containers are valid |
| Engine.BandKeysDiffer | lib/l1parser.cpp:177 | different bands of one occurrence have different keys |
| Engine.StoreAllKeep | lib/l1parser.cpp:178 | an entry stays stored under its key when no later entry has that key |
| Engine.StoreAllOther | lib/l1parser.cpp:178 | dev_map_ entries under keys no new entry uses are untouched |
| Engine.AddBandsStored | lib/l1parser.cpp:110-112 | band s of a block is stored under chip_m_s as the entry built for its interface |
| Engine.AddBandsKeep | lib/l1parser.cpp:110-112 | the bands of a block under an unused occurrence keep every entry stored before them |
| Engine.LastRegistering | lib/l1parser.cpp:182 | the position of the last of the first k entries registering a name, -1 exactly when none does; no later one registers it |
| Engine.AddEntriesIfMap | lib/l1parser.cpp:182-191 | adding entries maps each of their non-empty names to the last entry registering it (later writes overwrite earlier ones); any other name keeps its mapping or stays unmapped |
| Engine.RecordKeep | lib/l1parser.cpp:104-112 | recording a block under an unused occurrence keeps every stored entry |
| Engine.BlockOwner | lib/l1parser.cpp:104-112 | the entry a name of a block ends up mapped to is that of a band of that block registering the name (the last such band) |
| Engine.RecordIfMap | lib/l1parser.cpp:104-112 | recording a block maps each of its bands' non-empty names to the entry of the last band registering it, and leaves every other name as it was |
| Engine.StepSkips | lib/l1parser.cpp:93 | a block without INDEX changes neither the containers nor the counter |
| Engine.RecordEffect | lib/l1parser.cpp:104-112 | recording appends one RawBlock holding the interfaces (none when there are none), appends the keys chip_m_1..chip_m_N, stores each band's entry under its key, keeps every entry already stored (occurrence unused), maps each of the bands' non-empty names to the entry of the last band registering it and leaves every other name as it was |
| Engine.StepCounts | lib/l1parser.cpp:97 | a block naming a chip raises that chip's counter by exactly one, even with no interfaces, and no other counter |
| Engine.StepRecord | lib/l1parser.cpp:97-112 | a block naming a chip is recorded under the chip's new counter value |
| Engine.StepEffect | lib/l1parser.cpp:97-112 | a block with N interfaces appends one RawBlock and N entries keyed chip_m_1..chip_m_N, m being the new counter value; entries already stored are kept; each of the bands' non-empty names is mapped to the entry of the last band registering it and every other name is left as it was |
| Engine.StepKeep | lib/l1parser.cpp:88-113 | process_block never changes or removes an entry already stored |
| Engine.ProcessKeep | lib/l1parser.cpp:29-31 | an entry stored by an early block is still stored, unchanged, after all later blocks |
| Engine.ProcessCounter | lib/l1parser.cpp:26-31 | after a table, a chip's counter is the number of its blocks, with or without interfaces |
| Engine.ProcessInterfaces | lib/l1parser.cpp:104-107 | the recorded blocks, flattened, are the interfaces of the chip-named blocks, in block order |
| Engine.LoadedInterfaces | lib/l1parser.cpp:15-36 | after load, idx2if's sequence is the interfaces of the table's chip-named blocks in block order |
| Engine.LinkedPermuted | lib/l1parser.cpp:34 | any permutation of the key list keeps the containers linked |
| Engine.SortKeysValid | lib/l1parser.cpp:34 | sorting the key list keeps the containers valid and makes the list sorted |
| Engine.LoadedOpen | lib/l1parser.cpp:15-36 | load on an opened file processes every block of its table, then sorts the keys |
| Engine.OccurrencesStep | lib/l1parser.cpp:97 | a block naming chip is one more occurrence of chip |
| Engine.ProcessEntry | lib/l1parser.cpp:29-31 | after all blocks, band s of the m-th block naming chip is stored under chip_m_s as the entry built for its s-th interface |
| Engine.LoadedEntry | lib/l1parser.cpp:15-36 | after load, dev_map_ holds under chip_m_s the entry create_and_map_entry builds for band s of the m-th block of chip |
| Engine.RegisteringBlocks | lib/l1parser.cpp:29-31 | one flag per block of the table, telling whether that block registers a name |
| Engine.LastSet | lib/l1parser.cpp:29-31 | the position of the last set flag among the first k, -1 when there is none |
| Engine.LastSetLater | lib/l1parser.cpp:29-31 | no flag after that position, among the first k, is set |
| Engine.LastBlock | lib/l1parser.cpp:29-31 | the last of the first k blocks registering a name, -1 when there is none |
| Engine.LastBlockLater | lib/l1parser.cpp:29-31 | no block after LastBlock, among the first k, registers the name |
| Engine.ProcessIfMap | lib/l1parser.cpp:29-31 | after the first k blocks a name is mapped exactly when it is non-empty and one of them registers it, and then to the entry of the last one |
| Engine.LoadedIfMap | lib/l1parser.cpp:15-36 | after load, a name registered by block i and by no later block maps to the entry of block i's last band registering it |
| Engine.LoadedIfMapDomain | lib/l1parser.cpp:15-36 | after load, a name is mapped exactly when it is non-empty and some block of the table registers it |
| Engine.Loaded | lib/l1parser.cpp:15-36 | the key list after load is sorted, and there is at most one recorded block per block of the table |
| Engine.LoadedValid | lib/l1parser.cpp:15-36 | after load the containers are valid and the key list is sorted |
| Sorting.StrLeTotal | lib/l1parser.cpp:34 | std::string order is total |
| Sorting.StrLeTrans | lib/l1parser.cpp:34 | std::string order is transitive |
| Sorting.Insert | lib/l1parser.cpp:34 | insertion adds exactly one copy of the element |
| Sorting.InsertSorted | lib/l1parser.cpp:34 | insertion into a sorted list keeps it sorted |
| Sorting.SortStrings | lib/l1parser.cpp:34 | the result is sorted and a permutation of the input |
| L1.GetSplitProp | lib/l1parser.cpp:125-131 | the lambda returns the band's value of the field |
| L1.ResolveName | lib/l1parser.cpp:135-141 | the lambda returns the resolved name |
| L1.FillProps | lib/l1parser.cpp:155-164 | the fill loop, in any iteration order, gives every field its filled value and adds no other field |
| L1.IfacesOf | lib/l1parser.cpp:239-249 | the names zone2if reports are all non-empty |
| L1.WellFormedIfaces | lib/l1parser.cpp:245 | a stored entry reports at least its main interface to zone2if |
| L1.AddIf | lib/l1parser.cpp:239-244 | add_if only appends, at most one name, and never an empty one |
| L1.MadeIfaces | lib/l1parser.cpp:239-249 | for every entry create_and_map_entry builds, zone2if reports main, ext, apcli, wds and mesh name in that order |
| L1.FirstInZone | lib/l1parser.cpp:235-238 | the first device of the order in the zone, none before it; none exactly when no device of the order is in the zone |
| L1.L1Parser.constructor | lib/l1parser.cpp:13 | a new parser is empty |
| L1.L1Parser.MapIf | lib/l1parser.cpp:182-184 | a non-empty name maps to the entry; nothing else changes |
| L1.L1Parser.MapSuffixed | lib/l1parser.cpp:188-191 | one loop of map_if calls registers the suffixed names |
| L1.L1Parser.MapNames | lib/l1parser.cpp:186-191 | the map_if calls register exactly the entry's names |
| L1.L1Parser.CreateAndMapEntry | lib/l1parser.cpp:115-192 | the new state stores, lists and registers the entry MakeEntry describes |
| L1.L1Parser.ProcessBlock | lib/l1parser.cpp:88-113 | the new state and counter are one Step of the engine |
| L1.L1Parser.Load | lib/l1parser.cpp:15-36 | on a new parser: succeeds exactly when the file opens, leaves the state Loaded describes, and keeps the invariant (sorted key list included) |
| L1.L1Parser.GetProp | lib/l1parser.cpp:194-201 | a value exactly when the device and the field exist; on a loaded parser INDEX, mainidx and subidx agree with the device key |
| L1.L1Parser.ListDevs | lib/l1parser.cpp:203-205 | on a loaded parser, the sorted list of the stored keys, each once |
| L1.L1Parser.If2Zone | lib/l1parser.cpp:207-214 | none for an unknown interface; otherwise the nvram_zone of the stored device the interface belongs to |
| L1.L1Parser.If2Dat | lib/l1parser.cpp:216-223 | none for an unknown interface; otherwise the profile_path of the stored device the interface belongs to |
| L1.L1Parser.If2DbdcIdx | lib/l1parser.cpp:225-231 | a value exactly for known interfaces, equal to the subidx field of their device |
| L1.L1Parser.Zone2If | lib/l1parser.cpp:233-255 | for an order covering every stored device: the interfaces of the first device in the zone in that order; on a valid parser, none exactly when no stored device is in the zone |
| L1.L1Parser.Idx2If | lib/l1parser.cpp:257-274 | the idx-th (from 1) interface of the recorded blocks in order; none for idx <= 0 or past the end |
| L1.L1Parser.BlockSlot | lib/l1parser.cpp:263-270 | the offset-th interface of block b sits at its cumulative position |
| L1.L1Parser.FirstAt | lib/l1parser.cpp:235-252 | a device in the zone with none before it is the one zone2if stops at |

## Left out

- File I/O: `std::ifstream` and `getline` over the file are replaced by the file's lines and one flag saying whether the file opens. `load` opens the file twice (lib/l1parser.cpp:17, 21), and both opens are taken to agree.
- Block numbers are unbounded naturals. `std::stoul` overflow (the `catch` at lib/l1parser.cpp:55) and the locale of `std::isdigit` are not modelled: digits are ASCII '0'..'9'.
- `size_t` widths: indices and counters are unbounded, and `idx2if`'s `int` argument is a mathematical integer.
- L1.L1Parser.Load: requires a new (empty) parser. A second `load` on the same object, which adds to the containers without clearing them, is not modelled.
- L1.L1Parser.Zone2If: `dev_map_` is an `std::unordered_map` whose iteration order is unspecified, so the order of the scan is a parameter: any sequence that lists every stored key. The result is the first matching device of that order.
- Iteration order of the fill loop over a block's fields (lib/l1parser.cpp:155): `FillProps` picks fields in any order, and its result does not depend on the order.
- `std::sort` is modelled as an insertion sort on values, specified as a sorted permutation. The in-place swaps are not modelled.
- `chipset_counter` is passed by reference in the source. `ProcessBlock` takes it as an argument and returns the new value.
- Entries are stored as values: the copies `dev_map_` and `if_map_` hold of the same entry are equal values, and aliasing does not arise.
- `get_if_map` (include/l1parser.hpp:41) only exposes `if_map_`, which the `ifMap` field models directly.
- cli/l1util.cpp, lib/c_wrapper.cpp, include/l1parser.h and the ucode bindings (ucode/l1parser.cpp, ucode/l1parser.c) are not part of this model: they are a command-line front end, a C adapter and scripting-VM bindings that forward to the parser.
