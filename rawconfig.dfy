/**
 * The raw line parser of the L1 profile (L1Parser::parse_index_key and
 * L1Parser::parse_raw_config): comment stripping, KEY=VALUE splitting,
 * decoding of INDEX<n> / INDEX<n>_<field> keys, and the RawDataMap that
 * groups values by block number.
 */
module RawConfig {
  import opened Wrappers
  import opened StringUtils
  import opened Decimal

  /** Length of the run of ASCII digits at the start of s (the digit scan of parse_index_key). */
  function DigitRun(s: string): (n: nat)
    ensures n <= |s|
    ensures AllDigits(s[..n])
    ensures n < |s| ==> !IsDigit(s[n])
  {
    if s == [] || !IsDigit(s[0]) then 0
    else
      var j := DigitRun(s[1..]);
      assert s[..j + 1] == [s[0]] + s[1..][..j];
      j + 1
  }

  /** The three properties in DigitRun's contract pin its result down. */
  lemma {:induction false} DigitRunUnique(s: string, n: nat)
    requires n <= |s| && AllDigits(s[..n]) && (n < |s| ==> !IsDigit(s[n]))
    ensures DigitRun(s) == n
  {
    if n > 0 {
      assert IsDigit(s[..n][0]);
      assert s[1..][..n - 1] == s[..n][1..];
      DigitRunUnique(s[1..], n - 1);
    }
  }

  /**
   * parse_index_key: "INDEX<n>" gives (n, "INDEX"), "INDEX<n>_<rest>" gives
   * (n, rest); anything else gives nothing.
   */
  function ParseIndexKey(key: string): (r: Option<(nat, string)>)
    ensures r.Some? ==> |key| > 5 && key[..5] == "INDEX" && IsDigit(key[5])
  {
    if |key| <= 5 || key[..5] != "INDEX" then None
    else
      var n := DigitRun(key[5..]);
      if n == 0 then None
      else
        assert key[5..5 + n] == key[5..][..n];
        assert key[5..][..n][0] == key[5];
        var idx := DecimalValue(key[5..5 + n]);
        if 5 + n == |key| then Some((idx, "INDEX"))
        else if key[5 + n] == '_' then Some((idx, key[5 + n + 1..]))
        else None
  }

  /** parse_index_key as written: the digit scan is a loop over the key. */
  method IndexKey(key: string) returns (r: Option<(nat, string)>)
    ensures r == ParseIndexKey(key)
  {
    if |key| <= 5 || key[..5] != "INDEX" {
      return None;
    }
    var numEnd := 5;
    while numEnd < |key| && IsDigit(key[numEnd])
      invariant 5 <= numEnd <= |key|
      invariant AllDigits(key[5..numEnd])
    {
      assert key[5..numEnd + 1] == key[5..numEnd] + [key[numEnd]];
      numEnd := numEnd + 1;
    }
    assert key[5..][..numEnd - 5] == key[5..numEnd];
    DigitRunUnique(key[5..], numEnd - 5);
    if numEnd == 5 {
      return None;
    }
    var idx := DecimalValue(key[5..numEnd]);
    if numEnd == |key| {
      return Some((idx, "INDEX"));
    }
    if key[numEnd] == '_' {
      return Some((idx, key[numEnd + 1..]));
    }
    return None;
  }

  /** "INDEX" and a non-empty run of digits is the chip-name line of that block. */
  lemma ParseIndexKeyBlock(ds: string)
    requires ds != [] && AllDigits(ds)
    ensures ParseIndexKey("INDEX" + ds) == Some((DecimalValue(ds), "INDEX"))
  {
    var k := "INDEX" + ds;
    assert k[..5] == "INDEX";
    assert k[5..] == ds;
    assert ds[..|ds|] == ds;
    assert DigitRun(ds) == |ds|;
    assert k[5..5 + |ds|] == ds;
  }

  /** "INDEX", a non-empty run of digits, '_' and a name is field name of that block. */
  lemma ParseIndexKeyField(ds: string, field: string)
    requires ds != [] && AllDigits(ds)
    ensures ParseIndexKey("INDEX" + ds + "_" + field) == Some((DecimalValue(ds), field))
  {
    var k := "INDEX" + ds + "_" + field;
    var t := k[5..];
    assert k[..5] == "INDEX";
    assert t == ds + "_" + field;
    assert t[..|ds|] == ds;
    assert t[|ds|] == '_';
    DigitRunUnique(t, |ds|);
    assert k[5..5 + |ds|] == ds;
    assert k[5 + |ds| + 1..] == field;
  }

  /** Keys built from to_string of a block number decode back to that number. */
  lemma ParseIndexKeyRoundTrip(n: nat, field: string)
    ensures ParseIndexKey("INDEX" + NatToString(n)) == Some((n, "INDEX"))
    ensures ParseIndexKey("INDEX" + NatToString(n) + "_" + field) == Some((n, field))
  {
    ParseIndexKeyBlock(NatToString(n));
    ParseIndexKeyField(NatToString(n), field);
    DecimalRoundTrip(n);
  }

  /**
   * Whatever parse_index_key accepts has one of the two forms: "INDEX",
   * at least one digit, then the end of the key or '_' and the field name.
   */
  lemma ParseIndexKeySound(key: string, n: nat, f: string)
    requires ParseIndexKey(key) == Some((n, f))
    ensures exists ds :: ds != [] && AllDigits(ds) && DecimalValue(ds) == n &&
              ((key == "INDEX" + ds && f == "INDEX") || key == "INDEX" + ds + "_" + f)
  {
    var r := DigitRun(key[5..]);
    var ds := key[5..5 + r];
    assert ds == key[5..][..r];
    if 5 + r == |key| {
      assert key == "INDEX" + ds;
    } else {
      assert key == "INDEX" + ds + "_" + f;
    }
  }

  /** A key that does not start with "INDEX" and a digit is refused ("INDEX" alone included). */
  lemma ParseIndexKeyRejects(key: string)
    requires |key| < 6 || key[..5] != "INDEX" || !IsDigit(key[5])
    ensures ParseIndexKey(key) == None
  {
    if |key| >= 6 && key[..5] == "INDEX" {
      assert key[5..][0] == key[5];
    }
  }

  /** A line without its comment (from the first '#' on), trimmed. */
  function StripComment(line: string): (text: string)
    ensures '#' !in text
  {
    var cut := line[..FindChar(line, '#')];
    TrimKeepsOut(cut, '#');
    Trim(cut)
  }

  /**
   * KEY=VALUE at the first '=', key and value trimmed; a blank text or one
   * without '=' gives nothing.
   */
  function SplitAssign(text: string): (r: Option<(string, string)>)
    ensures r.Some? <==> '=' in text
    ensures r.Some? ==> Trimmed(r.value.0) && Trimmed(r.value.1) && '=' !in r.value.0
  {
    if text == [] then None
    else
      var eq := FindChar(text, '=');
      if eq == |text| then
        assert text[..eq] == text;
        None
      else
        TrimKeepsOut(text[..eq], '=');
        Some((Trim(text[..eq]), Trim(text[eq + 1..])))
  }

  /**
   * One line of the profile: a blank line, a line without '=' or a line
   * whose key parse_index_key refuses assigns nothing. Otherwise the line
   * assigns the trimmed value to (block, field).
   */
  function ParseLine(line: string): (r: Option<(nat, string, string)>)
    ensures r.Some? ==> '=' in StripComment(line) && Trimmed(r.value.2)
  {
    match SplitAssign(StripComment(line))
    case None => None
    case Some((key, val)) =>
      match ParseIndexKey(key)
      case None => None
      case Some((n, f)) => Some((n, f, val))
  }

  /** The value of a KEY=VALUE text is trimmed and holds only characters of the text. */
  lemma SplitAssignValue(text: string, c: char)
    requires SplitAssign(text).Some? && c !in text
    ensures Trimmed(SplitAssign(text).value.1) && c !in SplitAssign(text).value.1
  {
    var eq := FindChar(text, '=');
    SliceKeepsOut(text, c, eq + 1);
    TrimKeepsOut(text[eq + 1..], c);
  }

  /** The value an assigning line stores is trimmed and holds no comment character. */
  lemma ParseLineValue(line: string)
    requires ParseLine(line).Some?
    ensures Trimmed(ParseLine(line).value.2)
    ensures '#' !in ParseLine(line).value.2
  {
    SplitAssignValue(StripComment(line), '#');
  }

  /** A line whose text before the comment holds no '=' (a blank or comment-only line included) assigns nothing. */
  lemma ParseLineNoAssign(line: string)
    requires '=' !in StripComment(line)
    ensures ParseLine(line) == None
  {
    var text := StripComment(line);
    assert text[..|text|] == text;
    FindCharUnique(text, '=', |text|);
  }

  /** Everything from the first '#' on is the comment: what comes before it is the text of the line. */
  lemma CommentCut(cut: string, c: string)
    requires '#' !in cut
    ensures StripComment(cut + "#" + c) == Trim(cut)
  {
    var line := cut + "#" + c;
    assert line[..|cut|] == cut;
    FindCharUnique(line, '#', |cut|);
  }

  /** The key of a KEY=VALUE text is the trimmed text before the first '=', the value the trimmed rest. */
  lemma AssignParts(key: string, w: string, rest: string, val: string)
    requires '=' !in key && Trimmed(key) && AllWs(w) && Trim(rest) == val
    ensures SplitAssign(key + w + "=" + rest) == Some((key, val))
  {
    var text := key + w + "=" + rest;
    var eq := |key| + |w|;
    assert text[..eq] == key + w;
    assert '=' !in w by {
      forall i | 0 <= i < |w| ensures w[i] != '=' { assert IsWs(w[i]); }
    }
    FindCharUnique(text, '=', eq);
    TrimUnique("", key, w);
    assert "" + key + w == key + w;
    assert text[eq + 1..] == rest;
  }

  /** The key INDEX<n>_<f> is trimmed and holds neither '=' nor '#' when f does not. */
  lemma FieldKeyChars(n: nat, f: string)
    requires Trimmed(f) && '=' !in f && '#' !in f
    ensures var key := "INDEX" + NatToString(n) + "_" + f;
      Trimmed(key) && '=' !in key && '#' !in key
  {
    var ds := NatToString(n);
    assert '=' !in ds && '#' !in ds by {
      forall i | 0 <= i < |ds| ensures ds[i] != '=' && ds[i] != '#' { assert IsDigit(ds[i]); }
    }
    var key := "INDEX" + ds + "_" + f;
    assert key[0] == 'I';
    if f == [] {
      assert key[|key| - 1] == '_';
    } else {
      assert key[|key| - 1] == f[|f| - 1];
    }
  }

  /** Whitespace on both sides of whitespace is whitespace. */
  lemma AllWsAppend(a: string, b: string)
    requires AllWs(a) && AllWs(b)
    ensures AllWs(a + b)
  {
    forall i | 0 <= i < |a + b| ensures IsWs((a + b)[i]) {
      if i < |a| { assert (a + b)[i] == a[i]; } else { assert (a + b)[i] == b[i - |a|]; }
    }
  }

  /** The text of "key = a v b" with leading whitespace, trimmed, is "key = a v": the whitespace after v, or after '=' when v is empty, goes. */
  lemma AssignText(w0: string, key: string, w: string, a: string, v: string, b: string)
    requires key != [] && Trimmed(key) && AllWs(w0) && AllWs(w) && AllWs(a) && AllWs(b) && Trimmed(v)
    ensures Trim(w0 + key + w + "=" + a + v + b) == if v == [] then key + w + "=" else key + w + "=" + a + v
  {
    var s := w0 + key + w + "=" + a + v + b;
    if v == [] {
      var core := key + w + "=";
      AllWsAppend(a, b);
      assert s == w0 + core + (a + b);
      assert core[0] == key[0];
      TrimUnique(w0, core, a + b);
    } else {
      var core := key + w + "=" + a + v;
      assert s == w0 + core + b;
      assert core[0] == key[0];
      assert core[|core| - 1] == v[|v| - 1];
      TrimUnique(w0, core, b);
    }
  }

  /** A whitespace string holds no other character. */
  lemma WsKeepsOut(w: string, c: char)
    requires AllWs(w) && !IsWs(c)
    ensures c !in w
  {
  }

  /** The text of a line before its comment: "key = a v", the surrounding whitespace trimmed. */
  lemma LineText(w0: string, key: string, w: string, a: string, v: string, b: string, c: string)
    requires key != [] && Trimmed(key) && '#' !in key && Trimmed(v) && '#' !in v
    requires AllWs(w0) && AllWs(w) && AllWs(a) && AllWs(b)
    ensures StripComment(w0 + key + w + "=" + a + v + b + "#" + c) == if v == [] then key + w + "=" else key + w + "=" + a + v
  {
    WsKeepsOut(w0, '#');
    WsKeepsOut(w, '#');
    WsKeepsOut(a, '#');
    WsKeepsOut(b, '#');
    CommentCut(w0 + key + w + "=" + a + v + b, c);
    AssignText(w0, key, w, a, v, b);
  }

  /**
   * A line "INDEX<n>_<f> = <v> # <comment>", with any whitespace around the
   * key and the value, assigns v to field f of block n; v may hold '='.
   */
  lemma ParseLineRoundTrip(n: nat, f: string, v: string, c: string, w0: string, w1: string, a: string, b: string)
    requires Trimmed(f) && '=' !in f && '#' !in f
    requires Trimmed(v) && '#' !in v
    requires AllWs(w0) && AllWs(w1) && AllWs(a) && AllWs(b)
    ensures var key := "INDEX" + NatToString(n) + "_" + f;
      ParseLine(w0 + key + w1 + "=" + a + v + b + "#" + c) == Some((n, f, v))
  {
    var key := "INDEX" + NatToString(n) + "_" + f;
    FieldKeyChars(n, f);
    LineText(w0, key, w1, a, v, b, c);
    ValueParts(key, w1, a, v);
    ParseIndexKeyRoundTrip(n, f);
  }

  /** The trimmed text "key = a v" splits into the key and v. */
  lemma ValueParts(key: string, w: string, a: string, v: string)
    requires '=' !in key && Trimmed(key) && AllWs(w) && AllWs(a) && Trimmed(v)
    ensures SplitAssign(if v == [] then key + w + "=" else key + w + "=" + a + v) == Some((key, v))
  {
    if v == [] {
      assert key + w + "=" == key + w + "=" + [];
      AssignParts(key, w, [], []);
    } else {
      TrimUnique(a, v, "");
      assert a + v + "" == a + v;
      assert key + w + "=" + a + v == key + w + "=" + (a + v);
      AssignParts(key, w, a + v, v);
    }
  }

  /** One block of the RawDataMap: its number and its field -> value map. */
  datatype RawRow = RawRow(index: nat, props: map<string, string>)

  /** RawDataMap is a std::map: rows in strictly ascending block order. */
  predicate Ascending(t: seq<RawRow>) {
    forall i, j :: 0 <= i < j < |t| ==> t[i].index < t[j].index
  }

  function Lookup(t: seq<RawRow>, n: nat): Option<map<string, string>> {
    if t == [] then None
    else if t[0].index == n then Some(t[0].props)
    else Lookup(t[1..], n)
  }

  /** The value of field f in block n, if the table has one. */
  function FieldOf(t: seq<RawRow>, n: nat, f: string): Option<string> {
    match Lookup(t, n)
    case None => None
    case Some(p) => if f in p then Some(p[f]) else None
  }

  function PropsOr(o: Option<map<string, string>>): map<string, string> {
    match o
    case None => map[]
    case Some(p) => p
  }

  lemma LookupAbsent(t: seq<RawRow>, n: nat)
    requires forall i :: 0 <= i < |t| ==> t[i].index != n
    ensures Lookup(t, n) == None
  {
  }

  /**
   * raw_data[n][f] = v: the row of block n is created (in its sorted place)
   * when missing, and field f of it is set; every other block is unchanged.
   */
  function Put(t: seq<RawRow>, n: nat, f: string, v: string): (r: seq<RawRow>)
    requires Ascending(t)
    ensures Ascending(r)
    ensures r != [] && r[0].index == (if t == [] || n < t[0].index then n else t[0].index)
    ensures Lookup(r, n) == Some(PropsOr(Lookup(t, n))[f := v])
    ensures forall m :: m != n ==> Lookup(r, m) == Lookup(t, m)
  {
    if t == [] then [RawRow(n, map[f := v])]
    else if n < t[0].index then
      LookupAbsent(t, n);
      [RawRow(n, map[f := v])] + t
    else if n == t[0].index then [RawRow(n, t[0].props[f := v])] + t[1..]
    else
      var rest := Put(t[1..], n, f, v);
      assert forall m :: Lookup([t[0]] + rest, m) == if m == t[0].index then Some(t[0].props) else Lookup(rest, m);
      [t[0]] + rest
  }

  /** What one line assigns: (block, field, value). */
  type Assignment = (nat, string, string)

  /** Store what one line assigns, if anything. */
  function Apply(t: seq<RawRow>, a: Option<Assignment>): (r: seq<RawRow>)
    requires Ascending(t)
    ensures Ascending(r)
  {
    match a
    case None => t
    case Some((n, f, v)) => Put(t, n, f, v)
  }

  /** The RawDataMap after a sequence of line results, applied in file order. */
  function TableOf(parsed: seq<Option<Assignment>>): (t: seq<RawRow>)
    ensures Ascending(t)
  {
    if parsed == [] then [] else Apply(TableOf(parsed[..|parsed| - 1]), parsed[|parsed| - 1])
  }

  lemma TableOfStep(parsed: seq<Option<Assignment>>, i: nat)
    requires i < |parsed|
    ensures TableOf(parsed[..i + 1]) == Apply(TableOf(parsed[..i]), parsed[i])
  {
    assert parsed[..i + 1][..i] == parsed[..i];
  }

  /** What each line of the file assigns. */
  function Assignments(lines: seq<string>): (parsed: seq<Option<Assignment>>)
    ensures |parsed| == |lines|
  {
    seq(|lines|, i requires 0 <= i < |lines| => ParseLine(lines[i]))
  }

  /** The RawDataMap parse_raw_config builds from the lines of an opened file. */
  function RawTable(lines: seq<string>): (t: seq<RawRow>)
    ensures Ascending(t)
  {
    TableOf(Assignments(lines))
  }

  /** The line result assigns field f of block n. */
  predicate AssignsField(a: Option<Assignment>, n: nat, f: string) {
    a.Some? && a.value.0 == n && a.value.1 == f
  }

  /** The line result assigns some field of block n. */
  predicate AssignsBlock(a: Option<Assignment>, n: nat) {
    a.Some? && a.value.0 == n
  }

  lemma ApplyField(t: seq<RawRow>, a: Option<Assignment>, n: nat, f: string)
    requires Ascending(t)
    ensures AssignsField(a, n, f) ==> FieldOf(Apply(t, a), n, f) == Some(a.value.2)
    ensures !AssignsField(a, n, f) ==> FieldOf(Apply(t, a), n, f) == FieldOf(t, n, f)
  {
  }

  lemma ApplyBlock(t: seq<RawRow>, a: Option<Assignment>, n: nat)
    requires Ascending(t)
    ensures Lookup(Apply(t, a), n).Some? <==> Lookup(t, n).Some? || AssignsBlock(a, n)
  {
  }

  lemma {:induction false} TableLastWins(parsed: seq<Option<Assignment>>, i: nat, n: nat, f: string, v: string)
    requires i < |parsed| && parsed[i] == Some((n, f, v))
    requires forall j :: i < j < |parsed| ==> !AssignsField(parsed[j], n, f)
    ensures FieldOf(TableOf(parsed), n, f) == Some(v)
  {
    var pre := parsed[..|parsed| - 1];
    ApplyField(TableOf(pre), parsed[|parsed| - 1], n, f);
    if i < |parsed| - 1 {
      assert pre[i] == parsed[i];
      TableLastWins(pre, i, n, f, v);
    }
  }

  lemma {:induction false} TableUnassigned(parsed: seq<Option<Assignment>>, n: nat, f: string)
    requires forall j :: 0 <= j < |parsed| ==> !AssignsField(parsed[j], n, f)
    ensures FieldOf(TableOf(parsed), n, f) == None
  {
    if parsed != [] {
      var pre := parsed[..|parsed| - 1];
      ApplyField(TableOf(pre), parsed[|parsed| - 1], n, f);
      TableUnassigned(pre, n, f);
    }
  }

  lemma {:induction false} TableBlockSource(parsed: seq<Option<Assignment>>, n: nat) returns (j: nat)
    requires Lookup(TableOf(parsed), n).Some?
    ensures j < |parsed| && AssignsBlock(parsed[j], n)
  {
    var pre := parsed[..|parsed| - 1];
    ApplyBlock(TableOf(pre), parsed[|parsed| - 1], n);
    if AssignsBlock(parsed[|parsed| - 1], n) {
      j := |parsed| - 1;
    } else {
      j := TableBlockSource(pre, n);
      assert parsed[j] == pre[j];
    }
  }

  lemma {:induction false} TableBlockMade(parsed: seq<Option<Assignment>>, j: nat, n: nat)
    requires j < |parsed| && AssignsBlock(parsed[j], n)
    ensures Lookup(TableOf(parsed), n).Some?
  {
    var pre := parsed[..|parsed| - 1];
    ApplyBlock(TableOf(pre), parsed[|parsed| - 1], n);
    if j < |parsed| - 1 {
      assert pre[j] == parsed[j];
      TableBlockMade(pre, j, n);
    }
  }

  /** Later lines overwrite earlier ones: field f of block n holds the value of the last line assigning it. */
  lemma LastLineWins(lines: seq<string>, i: nat, n: nat, f: string, v: string)
    requires i < |lines| && ParseLine(lines[i]) == Some((n, f, v))
    requires forall j :: i < j < |lines| ==> !AssignsField(ParseLine(lines[j]), n, f)
    ensures FieldOf(RawTable(lines), n, f) == Some(v)
  {
    TableLastWins(Assignments(lines), i, n, f, v);
  }

  /** A field no line assigns is absent from its block. */
  lemma UnassignedFieldAbsent(lines: seq<string>, n: nat, f: string)
    requires forall j :: 0 <= j < |lines| ==> !AssignsField(ParseLine(lines[j]), n, f)
    ensures FieldOf(RawTable(lines), n, f) == None
  {
    TableUnassigned(Assignments(lines), n, f);
  }

  /** Block n has a row exactly when some line assigns a field of block n. */
  lemma BlockPresent(lines: seq<string>, n: nat)
    ensures Lookup(RawTable(lines), n).Some? <==> exists j :: 0 <= j < |lines| && AssignsBlock(ParseLine(lines[j]), n)
  {
    var parsed := Assignments(lines);
    if Lookup(TableOf(parsed), n).Some? {
      var j := TableBlockSource(parsed, n);
      assert AssignsBlock(ParseLine(lines[j]), n);
    }
    if exists j :: 0 <= j < |lines| && AssignsBlock(ParseLine(lines[j]), n) {
      var j :| 0 <= j < |lines| && AssignsBlock(ParseLine(lines[j]), n);
      TableBlockMade(parsed, j, n);
    }
  }

  /**
   * The body of parse_raw_config's line loop: strip the comment, trim, skip
   * blank lines and lines without '=', split at the first '=', trim key and
   * value, and decode the key.
   */
  method ReadLine(line: string) returns (a: Option<Assignment>)
    ensures a == ParseLine(line)
  {
    var text := StripComment(line);
    if text == [] {
      assert SplitAssign(text) == None;
      return None;
    }
    var eqPos := FindChar(text, '=');
    if eqPos == |text| {
      assert SplitAssign(text) == None;
      return None;
    }
    var key := Trim(text[..eqPos]);
    var val := Trim(text[eqPos + 1..]);
    assert SplitAssign(text) == Some((key, val));
    var res := IndexKey(key);
    if res.None? {
      return None;
    }
    a := Some((res.value.0, res.value.1, val));
  }

  /**
   * parse_raw_config over the lines of the file: an unopenable file gives an
   * empty table; otherwise every assigning line is stored, later ones
   * overwriting earlier ones.
   */
  method ParseRawConfig(lines: seq<string>, isOpen: bool) returns (raw: seq<RawRow>)
    ensures raw == if isOpen then RawTable(lines) else []
    ensures Ascending(raw)
  {
    raw := [];
    if !isOpen {
      return;
    }
    ghost var parsed := Assignments(lines);
    for i := 0 to |lines|
      invariant raw == TableOf(parsed[..i])
    {
      TableOfStep(parsed, i);
      var a := ReadLine(lines[i]);
      assert a == parsed[i];
      if a.Some? {
        raw := Put(raw, a.value.0, a.value.1, a.value.2);
      }
    }
    assert parsed[..|lines|] == parsed;
  }
}
