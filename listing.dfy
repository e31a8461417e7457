/**
 * The source-file list of `Ui.open_button_pressed`: the directory entries
 * whose extension (without its dot) is exactly "wma" or "mp3", sorted the way
 * Python's `sorted` orders strings.
 */
module Listing {
  import opened PathNames

  /** `os.path.splitext(name)[-1][1:]`: the extension without its dot ("" when there is none). */
  function ExtensionOf(name: string): (r: string)
    ensures forall k :: 0 <= k < |r| ==> r[k] != '.' && r[k] != '/'
    ensures r != [] ==> |r| < |name| && name[|name| - |r| - 1] == '.' && name[|name| - |r|..] == r
  {
    var ext := SplitExt(name).ext;
    if ext == [] then [] else ext[1..]
  }

  /** The filter of the list comprehension: a case-sensitive match against "wma" and "mp3". */
  predicate IsSourceName(name: string)
    ensures IsSourceName(name) ==> |name| >= 4 && name[|name| - 4] == '.'
  {
    ExtensionOf(name) == "wma" || ExtensionOf(name) == "mp3"
  }

  /** Ends in a dot and "wma" or "mp3", after something with a base name. */
  ghost predicate HasSourceSuffix(name: string)
  {
    && |name| >= 4
    && name[|name| - 4] == '.'
    && (name[|name| - 3..] == "wma" || name[|name| - 3..] == "mp3")
    && HasBaseName(name[..|name| - 4])
  }

  /**
   * A name is listed exactly when it ends in ".wma" or ".mp3" and what comes
   * before has a base name (so ".mp3" alone, a hidden file, is not listed).
   */
  lemma SourceNameIff(name: string)
    ensures IsSourceName(name) <==> HasSourceSuffix(name)
  {
    if IsSourceName(name) {
      SourceNameHasSuffix(name);
    }
    if HasSourceSuffix(name) {
      SuffixMakesSourceName(name);
    }
  }

  lemma SourceNameHasSuffix(name: string)
    requires IsSourceName(name)
    ensures HasSourceSuffix(name)
  {
    var r := SplitExt(name);
    ExtensionHasBaseName(name);
    var e := r.ext;
    assert |e[1..]| == 3;
    assert |e| == 4;
    assert name == r.root + e;
    assert r.root == name[..|name| - 4];
    assert e == name[|name| - 4..];
    assert e[1..] == name[|name| - 3..];
  }

  lemma SuffixMakesSourceName(name: string)
    requires HasSourceSuffix(name)
    ensures IsSourceName(name)
  {
    var i := |name| - 4;
    var e := name[i..];
    assert e[1..] == name[i + 1..];
    forall k | i < k < |name|
      ensures name[k] != '.' && name[k] != '/'
    {
      assert name[k] == e[1..][k - i - 1];
    }
    assert IsExtStart(name, i);
    SplitExtSpec(name);
    var r := SplitExt(name);
    assert |r.root| == i;
    assert r.ext == e;
    assert e[1..] == "wma" || e[1..] == "mp3";
  }

  /** The match is case-sensitive: "A.MP3" and every other name ending in ".MP3" is left out. */
  lemma UpperCaseNotListed(name: string)
    requires |name| >= 4 && name[|name| - 4] == '.' && name[|name| - 3..] == "MP3"
    ensures !IsSourceName(name)
  {
    SourceNameIff(name);
    assert name[|name| - 3..][0] == 'M';
  }

  /** The list comprehension: the entries that pass the filter, in listing order. */
  function SourceEntries(names: seq<string>): (r: seq<string>)
    ensures forall x :: x in r <==> x in names && IsSourceName(x)
    ensures forall x :: multiset(r)[x] == if IsSourceName(x) then multiset(names)[x] else 0
  {
    if names == [] then []
    else
      assert names == [names[0]] + names[1..];
      if IsSourceName(names[0]) then [names[0]] + SourceEntries(names[1..])
      else SourceEntries(names[1..])
  }

  /** Python's `a <= b` on strings: lexicographic by code point, a prefix first. */
  predicate LessEq(a: string, b: string)
    ensures a <= b ==> LessEq(a, b)
    ensures b < a ==> !LessEq(a, b)
  {
    a == [] || (b != [] && (a[0] < b[0] || (a[0] == b[0] && LessEq(a[1..], b[1..]))))
  }

  lemma {:induction false} LessEqReflexive(a: string)
    ensures LessEq(a, a)
  {
    if a != [] {
      LessEqReflexive(a[1..]);
    }
  }

  lemma {:induction false} LessEqTotal(a: string, b: string)
    ensures LessEq(a, b) || LessEq(b, a)
  {
    if a != [] && b != [] && a[0] == b[0] {
      LessEqTotal(a[1..], b[1..]);
    }
  }

  lemma {:induction false} LessEqTransitive(a: string, b: string, c: string)
    requires LessEq(a, b) && LessEq(b, c)
    ensures LessEq(a, c)
  {
    if a != [] && a[0] == b[0] && b[0] == c[0] {
      LessEqTransitive(a[1..], b[1..], c[1..]);
    }
  }

  lemma {:induction false} LessEqAntisymmetric(a: string, b: string)
    requires LessEq(a, b) && LessEq(b, a)
    ensures a == b
  {
    if a != [] {
      LessEqAntisymmetric(a[1..], b[1..]);
      assert a == [a[0]] + a[1..] && b == [b[0]] + b[1..];
    }
  }

  /** Ascending order under Python's string comparison. */
  ghost predicate Sorted(s: seq<string>)
  {
    forall i, j :: 0 <= i < j < |s| ==> LessEq(s[i], s[j])
  }

  /** Inserts `x` before the first element it does not exceed. */
  function Insert(x: string, s: seq<string>): (r: seq<string>)
    ensures multiset(r) == multiset(s) + multiset{x}
  {
    if s == [] then [x]
    else if LessEq(x, s[0]) then [x] + s
    else
      assert s == [s[0]] + s[1..];
      [s[0]] + Insert(x, s[1..])
  }

  lemma {:induction false} InsertSorted(x: string, s: seq<string>)
    requires Sorted(s)
    ensures Sorted(Insert(x, s))
  {
    if s != [] {
      var r := Insert(x, s);
      if LessEq(x, s[0]) {
        forall j | 1 < j < |r|
          ensures LessEq(r[0], r[j])
        {
          LessEqTransitive(x, s[0], s[j - 1]);
        }
      } else {
        InsertSorted(x, s[1..]);
        LessEqTotal(x, s[0]);
        var t := Insert(x, s[1..]);
        assert r == [s[0]] + t;
        HeadBoundsInsert(x, s);
      }
    }
  }

  /** When `x` goes after the head, the head is at most every element of the insertion into the tail. */
  lemma HeadBoundsInsert(x: string, s: seq<string>)
    requires Sorted(s) && s != [] && LessEq(s[0], x)
    ensures forall e :: e in Insert(x, s[1..]) ==> LessEq(s[0], e)
  {
    var t := Insert(x, s[1..]);
    forall e | e in t
      ensures LessEq(s[0], e)
    {
      assert e in multiset(t);
      if e != x {
        assert e in multiset(s[1..]);
        var k :| 0 <= k < |s[1..]| && s[1..][k] == e;
        assert s[k + 1] == e;
      }
    }
  }

  /** Python's `sorted` on a list of strings (an insertion sort; the order it yields is unique). */
  function SortNames(s: seq<string>): (r: seq<string>)
    ensures multiset(r) == multiset(s)
    ensures Sorted(r)
  {
    if s == [] then []
    else
      assert s == [s[0]] + s[1..];
      var t := SortNames(s[1..]);
      InsertSorted(s[0], t);
      Insert(s[0], t)
  }

  lemma SortedHeadLeast(a: seq<string>, x: string)
    requires Sorted(a) && x in a
    ensures LessEq(a[0], x)
  {
    var i :| 0 <= i < |a| && a[i] == x;
    if i == 0 {
      LessEqReflexive(x);
    }
  }

  lemma SameHeadSameTail(a: seq<string>, b: seq<string>)
    requires a != [] && b != [] && a[0] == b[0] && multiset(a) == multiset(b)
    ensures multiset(a[1..]) == multiset(b[1..])
  {
    assert a == [a[0]] + a[1..] && b == [b[0]] + b[1..];
    assert multiset(a) == multiset{a[0]} + multiset(a[1..]);
    assert multiset(b) == multiset{b[0]} + multiset(b[1..]);
    forall x
      ensures multiset(a[1..])[x] == multiset(b[1..])[x]
    {
      assert multiset(a)[x] == multiset{a[0]}[x] + multiset(a[1..])[x];
      assert multiset(b)[x] == multiset{a[0]}[x] + multiset(b[1..])[x];
    }
  }

  /** There is only one sorted arrangement of a multiset of strings. */
  lemma {:induction false} SortedPermutationUnique(a: seq<string>, b: seq<string>)
    requires Sorted(a) && Sorted(b) && multiset(a) == multiset(b)
    ensures a == b
  {
    assert |a| == |multiset(a)| == |multiset(b)| == |b|;
    if a != [] {
      assert a[0] in multiset(b) && b[0] in multiset(a);
      SortedHeadLeast(b, a[0]);
      SortedHeadLeast(a, b[0]);
      LessEqAntisymmetric(a[0], b[0]);
      SameHeadSameTail(a, b);
      SortedPermutationUnique(a[1..], b[1..]);
      assert a == [a[0]] + a[1..] && b == [b[0]] + b[1..];
    }
  }

  /**
   * The list shown by `Ui.open_button_pressed`: sorted ascending, holding
   * exactly the source entries of the directory, each as often as listed.
   */
  function ListEntries(names: seq<string>): (r: seq<string>)
    ensures Sorted(r)
    ensures forall x :: x in r <==> x in names && IsSourceName(x)
    ensures forall x :: multiset(r)[x] == if IsSourceName(x) then multiset(names)[x] else 0
  {
    var r := SortNames(SourceEntries(names));
    assert forall x :: x in r <==> x in multiset(r);
    r
  }

  /** Any sorted arrangement of the source entries is the listed one. */
  lemma ListEntriesUnique(names: seq<string>, s: seq<string>)
    requires Sorted(s) && multiset(s) == multiset(SourceEntries(names))
    ensures s == ListEntries(names)
  {
    SortedPermutationUnique(s, ListEntries(names));
  }
}
