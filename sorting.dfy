/**
 * std::sort over the device keys: std::string's operator< is the
 * lexicographic order on characters, a proper prefix coming first.
 */
module Sorting {

  /** a <= b in std::string's lexicographic order. */
  predicate StrLe(a: string, b: string)
    decreases |a|
  {
    a == [] || (b != [] && (a[0] < b[0] || (a[0] == b[0] && StrLe(a[1..], b[1..]))))
  }

  lemma {:induction false} StrLeTotal(a: string, b: string)
    ensures StrLe(a, b) || StrLe(b, a)
    decreases |a|
  {
    if a != [] && b != [] && a[0] == b[0] {
      StrLeTotal(a[1..], b[1..]);
    }
  }

  lemma {:induction false} StrLeTrans(a: string, b: string, c: string)
    requires StrLe(a, b) && StrLe(b, c)
    ensures StrLe(a, c)
    decreases |a|
  {
    if a != [] && a[0] == b[0] && b[0] == c[0] {
      StrLeTrans(a[1..], b[1..], c[1..]);
    }
  }

  predicate Sorted(s: seq<string>) {
    forall i, j :: 0 <= i < j < |s| ==> StrLe(s[i], s[j])
  }

  /** Insert x before the first element it does not exceed. */
  function Insert(x: string, s: seq<string>): (r: seq<string>)
    ensures multiset(r) == multiset(s) + multiset{x}
  {
    if s == [] then [x]
    else if StrLe(x, s[0]) then [x] + s
    else
      assert s == [s[0]] + s[1..];
      [s[0]] + Insert(x, s[1..])
  }

  lemma {:induction false} InsertSorted(x: string, s: seq<string>)
    requires Sorted(s)
    ensures Sorted(Insert(x, s))
  {
    if s == [] {
    } else if StrLe(x, s[0]) {
      forall j | 0 <= j < |s|
        ensures StrLe(x, s[j])
      {
        if j > 0 {
          StrLeTrans(x, s[0], s[j]);
        }
      }
      assert forall j :: 1 <= j < |s| + 1 ==> ([x] + s)[j] == s[j - 1];
    } else {
      StrLeTotal(x, s[0]);
      var t := Insert(x, s[1..]);
      InsertSorted(x, s[1..]);
      forall j | 0 <= j < |t|
        ensures StrLe(s[0], t[j])
      {
        assert t[j] in multiset(t);
        if t[j] != x {
          assert t[j] in multiset(s[1..]);
          var i :| 0 <= i < |s[1..]| && s[1..][i] == t[j];
          assert s[i + 1] == t[j];
        }
      }
      assert forall j :: 1 <= j < |t| + 1 ==> ([s[0]] + t)[j] == t[j - 1];
    }
  }

  /** The keys in ascending order: a sorted permutation of the input. */
  function SortStrings(s: seq<string>): (r: seq<string>)
    ensures Sorted(r)
    ensures multiset(r) == multiset(s)
  {
    if s == [] then []
    else
      var rest := SortStrings(s[..|s| - 1]);
      InsertSorted(s[|s| - 1], rest);
      assert s == s[..|s| - 1] + [s[|s| - 1]];
      Insert(s[|s| - 1], rest)
  }
}
