/** Option type shared by the whole model (std::optional in the source). */
module Wrappers {
  datatype Option<+T> = None | Some(value: T)
}

/**
 * utils::trim and utils::split: whitespace trimming and delimiter splitting
 * of profile values.
 */
module StringUtils {

  /** The characters trim removes: space, tab, newline and carriage return. */
  predicate IsWs(c: char) {
    c == ' ' || c == '\t' || c == '\n' || c == '\r'
  }

  predicate AllWs(s: string) {
    forall i :: 0 <= i < |s| ==> IsWs(s[i])
  }

  /** A string that trim leaves unchanged: empty, or neither end is whitespace. */
  predicate Trimmed(s: string) {
    s == [] || (!IsWs(s[0]) && !IsWs(s[|s| - 1]))
  }

  /** find_first_not_of(" \t\n\r"), with |s| standing for npos. */
  function FirstNotWs(s: string): (i: nat)
    ensures i <= |s|
    ensures AllWs(s[..i])
    ensures i < |s| ==> !IsWs(s[i])
  {
    if s == [] || !IsWs(s[0]) then 0
    else
      var j := FirstNotWs(s[1..]);
      assert s[..j + 1] == [s[0]] + s[1..][..j];
      j + 1
  }

  /** Number of whitespace characters at the end of s; |s| - n - 1 is find_last_not_of. */
  function TrailingWs(s: string): (n: nat)
    ensures n <= |s|
    ensures AllWs(s[|s| - n..])
    ensures n < |s| ==> !IsWs(s[|s| - n - 1])
  {
    if s == [] || !IsWs(s[|s| - 1]) then 0
    else
      var p := s[..|s| - 1];
      var j := TrailingWs(p);
      assert s[|s| - (j + 1)..] == p[|p| - j..] + [s[|s| - 1]];
      j + 1
  }

  /** utils::trim: the input without leading and trailing whitespace. */
  function Trim(s: string): (r: string)
    ensures |r| <= |s|
    ensures Trimmed(r)
    ensures r == [] <==> AllWs(s)
  {
    var b := FirstNotWs(s);
    if b == |s| then
      assert s[..b] == s;
      ""
    else
      var n := TrailingWs(s);
      s[b..|s| - n]
  }

  /** A string is its prefix, middle and suffix glued back together. */
  lemma Glue(s: string, i: nat, j: nat)
    requires i <= j <= |s|
    ensures s == s[..i] + s[i..j] + s[j..]
  {
  }

  /** Trim cuts s into whitespace, the result, and whitespace: the result is a contiguous piece of s. */
  lemma TrimShape(s: string)
    ensures FirstNotWs(s) + |Trim(s)| <= |s|
    ensures s == s[..FirstNotWs(s)] + Trim(s) + s[FirstNotWs(s) + |Trim(s)|..]
    ensures AllWs(s[..FirstNotWs(s)]) && AllWs(s[FirstNotWs(s) + |Trim(s)|..])
  {
    var i := FirstNotWs(s);
    if i < |s| {
      var j := |s| - TrailingWs(s);
      assert Trim(s) == s[i..j];
      Glue(s, i, j);
    } else {
      Glue(s, i, i);
    }
  }

  /** Trim is determined by its shape: whitespace around a trimmed core yields exactly that core. */
  lemma TrimUnique(a: string, r: string, b: string)
    requires AllWs(a) && AllWs(b) && Trimmed(r)
    ensures Trim(a + r + b) == r
  {
    var s := a + r + b;
    var i := FirstNotWs(s);
    if r == [] {
      assert AllWs(s) by {
        forall k | 0 <= k < |s| ensures IsWs(s[k]) {
          if k < |a| { assert s[k] == a[k]; } else { assert s[k] == b[k - |a|]; }
        }
      }
    } else {
      assert s[|a|] == r[0];
      assert i == |a|;
      var n := TrailingWs(s);
      assert s[|s| - |b| - 1] == r[|r| - 1];
      assert n == |b|;
      assert s[|a|..|s| - |b|] == r;
    }
  }

  /** Trim only removes characters: one absent from s is absent from Trim(s). */
  lemma TrimKeepsOut(s: string, c: char)
    requires c !in s
    ensures c !in Trim(s)
  {
    TrimShape(s);
  }

  /** A suffix of s holds no character that s does not hold. */
  lemma SliceKeepsOut(s: string, c: char, i: nat)
    requires c !in s && i <= |s|
    ensures c !in s[i..]
  {
  }

  lemma {:induction false} TrimIdempotent(s: string)
    ensures Trim(Trim(s)) == Trim(s)
  {
    TrimUnique("", Trim(s), "");
    assert "" + Trim(s) + "" == Trim(s);
  }

  /** Index of the first d in s, or |s| when there is none (std::string::find, npos as |s|). */
  function FindChar(s: string, d: char): (i: nat)
    ensures i <= |s|
    ensures d !in s[..i]
    ensures i < |s| ==> s[i] == d
  {
    if s == [] || s[0] == d then 0
    else
      var j := FindChar(s[1..], d);
      assert s[..j + 1] == [s[0]] + s[1..][..j];
      j + 1
  }

  /** The three properties in FindChar's contract pin its result down. */
  lemma FindCharUnique(s: string, d: char, i: nat)
    requires i <= |s| && d !in s[..i] && (i < |s| ==> s[i] == d)
    ensures FindChar(s, d) == i
  {
  }

  /** Number of occurrences of d in s. */
  function Count(s: string, d: char): nat {
    if s == [] then 0 else (if s[0] == d then 1 else 0) + Count(s[1..], d)
  }

  /**
   * The fields of s between consecutive occurrences of d, including the empty
   * ones at either end: a reference definition of delimiter splitting.
   */
  function Pieces(s: string, d: char): (ps: seq<string>)
    ensures |ps| >= 1
    decreases |s|
  {
    var i := FindChar(s, d);
    if i == |s| then [s] else [s[..i]] + Pieces(s[i + 1..], d)
  }

  /** The inverse of Pieces: glue the fields back together with d. */
  function Join(ps: seq<string>, d: char): string {
    if ps == [] then ""
    else if |ps| == 1 then ps[0]
    else ps[0] + [d] + Join(ps[1..], d)
  }

  lemma {:induction false} JoinPieces(s: string, d: char)
    ensures Join(Pieces(s, d), d) == s
    decreases |s|
  {
    var i := FindChar(s, d);
    if i < |s| {
      var ps, rest := Pieces(s, d), Pieces(s[i + 1..], d);
      assert ps == [s[..i]] + rest;
      assert ps[1..] == rest;
      JoinPieces(s[i + 1..], d);
      assert Join(ps, d) == s[..i] + [d] + s[i + 1..];
      assert s == s[..i] + [d] + s[i + 1..];
    }
  }

  lemma {:induction false} PiecesHaveNoDelimiter(s: string, d: char)
    ensures forall k :: 0 <= k < |Pieces(s, d)| ==> d !in Pieces(s, d)[k]
    decreases |s|
  {
    var i := FindChar(s, d);
    if i < |s| {
      PiecesHaveNoDelimiter(s[i + 1..], d);
    } else {
      assert s[..i] == s;
    }
  }

  lemma {:induction false} CountAppend(a: string, b: string, d: char)
    ensures Count(a + b, d) == Count(a, d) + Count(b, d)
  {
    if a != [] {
      CountAppend(a[1..], b, d);
      assert (a + b)[1..] == a[1..] + b;
    } else {
      assert a + b == b;
    }
  }

  lemma {:induction false} CountNone(s: string, d: char)
    requires d !in s
    ensures Count(s, d) == 0
  {
    if s != [] {
      CountNone(s[1..], d);
    }
  }

  /** A string with k delimiters has k + 1 fields. */
  lemma {:induction false} PiecesCount(s: string, d: char)
    ensures |Pieces(s, d)| == Count(s, d) + 1
    decreases |s|
  {
    var i := FindChar(s, d);
    if i < |s| {
      PiecesCount(s[i + 1..], d);
      assert s == s[..i] + ([d] + s[i + 1..]);
      CountAppend(s[..i], [d] + s[i + 1..], d);
      CountNone(s[..i], d);
      assert ([d] + s[i + 1..])[1..] == s[i + 1..];
    } else {
      assert s[..i] == s;
      CountNone(s, d);
    }
  }

  /** Pieces undoes Join for fields free of the delimiter. */
  lemma {:induction false} PiecesJoin(ps: seq<string>, d: char)
    requires ps != []
    requires forall k :: 0 <= k < |ps| ==> d !in ps[k]
    ensures Pieces(Join(ps, d), d) == ps
  {
    var s := Join(ps, d);
    if |ps| == 1 {
      FindCharUnique(s, d, |s|);
      assert s[..|s|] == s;
    } else {
      var t := Join(ps[1..], d);
      assert s == ps[0] + [d] + t;
      assert s[..|ps[0]|] == ps[0];
      FindCharUnique(s, d, |ps[0]|);
      assert s[|ps[0]| + 1..] == t;
      PiecesJoin(ps[1..], d);
    }
  }

  /** A string ending in the delimiter has an empty last field. */
  lemma {:induction false} PiecesLastEmpty(s: string, d: char)
    requires s != [] && s[|s| - 1] == d
    ensures Pieces(s, d)[|Pieces(s, d)| - 1] == ""
    decreases |s|
  {
    var i := FindChar(s, d);
    var t := s[i + 1..];
    if t != [] {
      assert t[|t| - 1] == s[|s| - 1];
      PiecesLastEmpty(t, d);
    } else {
      assert Pieces(t, d) == [""];
    }
  }

  function TrimAll(ps: seq<string>): (r: seq<string>)
    ensures |r| == |ps|
    ensures forall k :: 0 <= k < |r| ==> r[k] == Trim(ps[k])
  {
    if ps == [] then [] else [Trim(ps[0])] + TrimAll(ps[1..])
  }

  function NonEmpty(ts: seq<string>): (r: seq<string>)
    ensures forall k :: 0 <= k < |r| ==> r[k] != []
  {
    if ts == [] then []
    else if ts[0] == [] then NonEmpty(ts[1..])
    else [ts[0]] + NonEmpty(ts[1..])
  }

  /** NonEmpty only drops tokens: every token it keeps comes from its input. */
  lemma {:induction false} NonEmptyFrom(ts: seq<string>)
    ensures forall k :: 0 <= k < |NonEmpty(ts)| ==> NonEmpty(ts)[k] in ts
  {
    if ts != [] {
      NonEmptyFrom(ts[1..]);
      assert forall t :: t in ts[1..] ==> t in ts;
    }
  }

  /** Keep every token (keep_empty = true) or only the non-empty ones. */
  function Kept(ts: seq<string>, keepEmpty: bool): seq<string> {
    if keepEmpty then ts else NonEmpty(ts)
  }

  lemma {:induction false} TrimAllAppend(a: seq<string>, b: seq<string>)
    ensures TrimAll(a + b) == TrimAll(a) + TrimAll(b)
  {
    if a == [] {
      assert a + b == b;
    } else {
      assert (a + b)[1..] == a[1..] + b;
      TrimAllAppend(a[1..], b);
      AppendAssoc([Trim(a[0])], TrimAll(a[1..]), TrimAll(b));
    }
  }

  lemma {:induction false} NonEmptyAppend(a: seq<string>, b: seq<string>)
    ensures NonEmpty(a + b) == NonEmpty(a) + NonEmpty(b)
  {
    if a != [] {
      var c := a + b;
      var h: seq<string> := if a[0] == [] then [] else [a[0]];
      assert c[0] == a[0] && c[1..] == a[1..] + b;
      calc {
        NonEmpty(c);
        h + NonEmpty(a[1..] + b);
        { NonEmptyAppend(a[1..], b); }
        h + (NonEmpty(a[1..]) + NonEmpty(b));
        { AppendAssoc(h, NonEmpty(a[1..]), NonEmpty(b)); }
        (h + NonEmpty(a[1..])) + NonEmpty(b);
      }
    } else {
      assert a + b == b;
    }
  }

  lemma KeptAppend(a: seq<string>, b: seq<string>, keepEmpty: bool)
    ensures Kept(TrimAll(a + b), keepEmpty) == Kept(TrimAll(a), keepEmpty) + Kept(TrimAll(b), keepEmpty)
  {
    TrimAllAppend(a, b);
    NonEmptyAppend(TrimAll(a), TrimAll(b));
  }

  /**
   * utils::split: the trimmed fields of s between occurrences of d; with
   * keepEmpty false the empty ones are dropped. The empty string has no fields.
   */
  function Split(s: string, d: char, keepEmpty: bool): (r: seq<string>)
    ensures forall k :: 0 <= k < |r| ==> Trimmed(r[k])
    ensures !keepEmpty ==> forall k :: 0 <= k < |r| ==> r[k] != []
    ensures s == [] ==> r == []
  {
    if s == [] then []
    else
      var ts := TrimAll(Pieces(s, d));
      NonEmptyFrom(ts);
      Kept(ts, keepEmpty)
  }

  /** No token of split holds the delimiter, in either mode. */
  lemma SplitNoDelimiter(s: string, d: char, keepEmpty: bool)
    ensures forall k :: 0 <= k < |Split(s, d, keepEmpty)| ==> d !in Split(s, d, keepEmpty)[k]
  {
    if s != [] {
      var ps := Pieces(s, d);
      var ts := TrimAll(ps);
      PiecesHaveNoDelimiter(s, d);
      NonEmptyFrom(ts);
      forall k | 0 <= k < |ts|
        ensures d !in ts[k]
      {
        TrimKeepsOut(ps[k], d);
      }
    }
  }

  /** With empty tokens kept, a non-empty string with k delimiters gives k + 1 tokens, each a trimmed field. */
  lemma SplitKeepEmptyCount(s: string, d: char)
    requires s != []
    ensures |Split(s, d, true)| == Count(s, d) + 1
    ensures forall k :: 0 <= k < |Split(s, d, true)| ==> Split(s, d, true)[k] == Trim(Pieces(s, d)[k])
  {
    PiecesCount(s, d);
  }

  lemma CountTrailing(s: string, d: char)
    requires s != [] && s[|s| - 1] == d
    ensures Count(s, d) >= 1
  {
    assert s == s[..|s| - 1] + [d];
    CountAppend(s[..|s| - 1], [d], d);
    assert Count([d], d) == 1;
  }

  /** A trailing delimiter gives a final empty token when empty tokens are kept. */
  lemma TrailingDelimiterKeepsEmpty(s: string, d: char)
    requires s != [] && s[|s| - 1] == d
    ensures var r := Split(s, d, true); |r| >= 2 && r[|r| - 1] == ""
  {
    var ps := Pieces(s, d);
    PiecesLastEmpty(s, d);
    PiecesCount(s, d);
    CountTrailing(s, d);
    var r := Split(s, d, true);
    assert r == TrimAll(ps);
    assert r[|r| - 1] == Trim([]);
  }

  /** Trim leaves a trimmed string alone. */
  lemma TrimFixed(s: string)
    requires Trimmed(s)
    ensures Trim(s) == s
  {
    TrimUnique("", s, "");
    assert "" + s + "" == s;
  }

  /** Trimming fields that are already trimmed changes nothing. */
  lemma TrimAllFixed(ps: seq<string>)
    requires forall k :: 0 <= k < |ps| ==> Trimmed(ps[k])
    ensures TrimAll(ps) == ps
  {
    forall k | 0 <= k < |ps|
      ensures TrimAll(ps)[k] == ps[k]
    {
      TrimFixed(ps[k]);
    }
  }

  lemma EmptySlotKept()
    ensures Split("val1;;val3", ';', true) == ["val1", "", "val3"]
  {
    var ps := ["val1", "", "val3"];
    assert Join(ps[2..], ';') == "val3";
    assert Join(ps[1..], ';') == ";val3";
    assert Join(ps, ';') == "val1;;val3";
    PiecesJoin(ps, ';');
    TrimAllFixed(ps);
  }

  /** Fields still to be read by the getline loop once it stands at pos. */
  function Rest(s: string, d: char, pos: nat): seq<string>
    requires pos <= |s|
  {
    if pos < |s| then Pieces(s[pos..], d)
    else if 0 < pos && s[pos - 1] == d then [""]
    else []
  }

  /** One getline call consumes the field that starts at pos. */
  lemma RestStep(s: string, d: char, pos: nat, end: nat)
    requires pos <= end <= |s| && pos < |s|
    requires d !in s[pos..end] && (end < |s| ==> s[end] == d)
    ensures end < |s| ==> Rest(s, d, pos) == [s[pos..end]] + Rest(s, d, end + 1)
    ensures end == |s| ==> Rest(s, d, pos) == [s[pos..end]] && Rest(s, d, end) == []
  {
    var t := s[pos..];
    assert t[..end - pos] == s[pos..end];
    FindCharUnique(t, d, end - pos);
    if end < |s| {
      assert t[end - pos + 1..] == s[end + 1..];
    } else {
      assert s[|s| - 1] == s[pos..end][|s| - 1 - pos];
      assert t == s[pos..end];
    }
  }

  /** The tokens still owed once the getline loop stands at pos. */
  function Owed(s: string, d: char, keepEmpty: bool, pos: nat): seq<string>
    requires pos <= |s|
  {
    Kept(TrimAll(Rest(s, d, pos)), keepEmpty)
  }

  /** The token one getline call contributes. */
  function TokenOf(field: string, keepEmpty: bool): seq<string> {
    var t := Trim(field);
    if keepEmpty || t != [] then [t] else []
  }

  lemma OwedStep(s: string, d: char, keepEmpty: bool, pos: nat, end: nat, next: nat)
    requires pos <= end <= |s| && pos < |s|
    requires d !in s[pos..end] && (end < |s| ==> s[end] == d)
    requires next == if end < |s| then end + 1 else end
    ensures Owed(s, d, keepEmpty, pos) == TokenOf(s[pos..end], keepEmpty) + Owed(s, d, keepEmpty, next)
  {
    RestStep(s, d, pos, end);
    KeptAppend([s[pos..end]], Rest(s, d, next), keepEmpty);
  }

  lemma OwedStart(s: string, d: char, keepEmpty: bool)
    ensures Split(s, d, keepEmpty) == Owed(s, d, keepEmpty, 0)
  {
    assert s[0..] == s;
  }

  lemma OwedEnd(s: string, d: char, keepEmpty: bool)
    ensures Owed(s, d, keepEmpty, |s|) == if keepEmpty && s != [] && s[|s| - 1] == d then [""] else []
  {
    assert Trim("") == "";
    assert TrimAll([""]) == [""];
    assert NonEmpty([""]) == [];
  }

  lemma AppendAssoc(a: seq<string>, b: seq<string>, c: seq<string>)
    ensures a + (b + c) == (a + b) + c
  {
  }

  /**
   * std::getline on the character stream of s from pos: the end of the field
   * that starts at pos (the next delimiter, or the end of s).
   */
  method ReadField(s: string, d: char, pos: nat) returns (end: nat)
    requires pos <= |s|
    ensures pos <= end <= |s|
    ensures d !in s[pos..end]
    ensures end < |s| ==> s[end] == d
  {
    end := pos;
    while end < |s| && s[end] != d
      invariant pos <= end <= |s|
      invariant d !in s[pos..end]
    {
      assert s[pos..end + 1] == s[pos..end] + [s[end]];
      end := end + 1;
    }
  }

  /**
   * The getline loop of utils::split: read up to the next delimiter, trim,
   * keep the token if wanted; afterwards add the empty slot that getline
   * drops after a trailing delimiter.
   */
  method SplitTokens(s: string, d: char, keepEmpty: bool) returns (tokens: seq<string>)
    ensures tokens == Split(s, d, keepEmpty)
  {
    tokens := [];
    var pos := 0;
    ghost var want := Owed(s, d, keepEmpty, 0);
    while pos < |s|
      invariant pos <= |s|
      invariant want == tokens + Owed(s, d, keepEmpty, pos)
    {
      var end := ReadField(s, d, pos);
      var next := if end < |s| then end + 1 else end;
      OwedStep(s, d, keepEmpty, pos, end, next);
      var trimmed := Trim(s[pos..end]);
      ghost var before := tokens;
      if keepEmpty || trimmed != [] {
        tokens := tokens + [trimmed];
      }
      assert tokens == before + TokenOf(s[pos..end], keepEmpty);
      AppendAssoc(before, TokenOf(s[pos..end], keepEmpty), Owed(s, d, keepEmpty, next));
      pos := next;
    }
    OwedEnd(s, d, keepEmpty);
    OwedStart(s, d, keepEmpty);
    if keepEmpty && s != [] && s[|s| - 1] == d {
      tokens := tokens + [""];
    }
  }
}
