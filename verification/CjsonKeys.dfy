/** Member names and their case-insensitive comparison.  A string is a NUL-free sequence with one
    character per byte. */
module CjsonKeys {

  /** tolower of the C locale. */
  function Lower(c: char): (l: char)
    ensures l != '\0' <==> c != '\0'
  {
    if 'A' <= c <= 'Z' then c + ' ' else c
  }

  function LowerAll(s: string): (l: string)
    ensures |l| == |s|
    ensures forall i :: 0 <= i < |s| ==> l[i] == Lower(s[i])
  {
    seq(|s|, i requires 0 <= i < |s| => Lower(s[i]))
  }

  predicate NulFree(s: string) {
    forall i :: 0 <= i < |s| ==> s[i] != '\0'
  }

  /** strcasecmp, with the terminating NUL as the byte after the last one. */
  function Compare(a: string, b: string): int {
    if a == [] && b == [] then 0
    else if a == [] then 0 - Lower(b[0]) as int
    else if b == [] then Lower(a[0]) as int
    else if Lower(a[0]) == Lower(b[0]) then Compare(a[1..], b[1..])
    else Lower(a[0]) as int - Lower(b[0]) as int
  }

  /** The loop of cJSONUtils_strcasecmp, over two C strings. */
  method Strcasecmp(a: string, b: string) returns (d: int)
    requires NulFree(a) && NulFree(b)
    ensures d == Compare(a, b)
  {
    hide Lower;
    var i := 0;
    while i < |a| && i < |b| && Lower(a[i]) == Lower(b[i])
      invariant i <= |a| && i <= |b| && Compare(a[i..], b[i..]) == Compare(a, b)
    {
      i := i + 1;
    }
    var x, y := if i < |a| then Lower(a[i]) else '\0', if i < |b| then Lower(b[i]) else '\0';
    d := x as int - y as int;
  }

  lemma {:induction false} CompareIsEquality(a: string, b: string)
    requires NulFree(a) && NulFree(b)
    ensures Compare(a, b) == 0 <==> LowerAll(a) == LowerAll(b)
  {
    if a != [] && b != [] && Lower(a[0]) == Lower(b[0]) {
      CompareIsEquality(a[1..], b[1..]);
      assert LowerAll(a) == [Lower(a[0])] + LowerAll(a[1..]);
      assert LowerAll(b) == [Lower(b[0])] + LowerAll(b[1..]);
    } else if a != [] && b != [] {
      assert LowerAll(a)[0] != LowerAll(b)[0];
    } else {
      assert a != [] ==> a[0] != '\0';
      assert b != [] ==> b[0] != '\0';
    }
  }

  /** The first i bytes agree ignoring case, and then a ends or has the smaller byte, in lower case. */
  ghost predicate SmallerAt(a: string, b: string, i: nat) {
    && i <= |a| && i < |b| && (forall j :: 0 <= j < i ==> Lower(a[j]) == Lower(b[j]))
    && (i == |a| || Lower(a[i]) < Lower(b[i]))
  }

  /** The order is that of the bytes in lower case, the shorter name first. */
  lemma {:induction false} CompareOrders(a: string, b: string)
    requires NulFree(a) && NulFree(b)
    ensures Compare(a, b) < 0 <==> exists i: nat :: SmallerAt(a, b, i)
  {
    if a != [] && b != [] && Lower(a[0]) == Lower(b[0]) {
      CompareOrders(a[1..], b[1..]);
      if Compare(a, b) < 0 {
        var i: nat :| SmallerAt(a[1..], b[1..], i);
        assert SmallerAt(a, b, i + 1);
      }
      if i: nat :| SmallerAt(a, b, i) {
        assert i > 0;
        assert SmallerAt(a[1..], b[1..], i - 1);
      }
    } else if Compare(a, b) < 0 {
      assert b[0] != '\0';
      assert SmallerAt(a, b, 0);
    } else if b != [] {
      assert a != [] && a[0] != '\0';
      assert forall i: nat :: SmallerAt(a, b, i) ==> i == 0;
    }
  }

  /** In ASCII the 26 capital letters, 0x41 to 0x5a, go to the small ones, 0x61 to 0x7a; every other byte stays. */
  lemma LowerCodes(c: char)
    ensures Lower(c) as nat == if 0x41 <= c as nat <= 0x5a then 0x61 + (c as nat - 0x41) else c as nat
  {
  }

  lemma {:induction false} CompareFlips(a: string, b: string)
    ensures Compare(a, b) == -Compare(b, a)
  {
    if a != [] && b != [] && Lower(a[0]) == Lower(b[0]) {
      CompareFlips(a[1..], b[1..]);
    }
  }

  lemma {:induction false} CompareChains(a: string, b: string, c: string)
    requires NulFree(a) && NulFree(b) && NulFree(c)
    requires Compare(a, b) <= 0 && Compare(b, c) <= 0
    ensures Compare(a, c) <= 0
    ensures Compare(a, b) < 0 || Compare(b, c) < 0 ==> Compare(a, c) < 0
  {
    assert forall s: string :: NulFree(s) && s != [] ==> s[0] != '\0';
    if a != [] && b != [] && c != [] && Lower(a[0]) == Lower(b[0]) == Lower(c[0]) {
      CompareChains(a[1..], b[1..], c[1..]);
    }
  }

  // ---------------------------------------------------------------- sorting by name

  /** The merge loop: of two equal names the one from the second list comes first. */
  function Merge<T>(key: T -> string, a: seq<T>, b: seq<T>): (m: seq<T>)
    ensures |m| == |a| + |b|
  {
    if a == [] then b
    else if b == [] then a
    else if Compare(key(a[0]), key(b[0])) < 0 then [a[0]] + Merge(key, a[1..], b)
    else [b[0]] + Merge(key, a, b[1..])
  }

  predicate Increasing<T>(key: T -> string, s: seq<T>) {
    forall i :: 0 <= i < |s| - 1 ==> Compare(key(s[i]), key(s[i + 1])) < 0
  }

  /** The order cJSONUtils_SortList leaves: unchanged if strictly increasing, else a merge of the
      sorted halves, the first half being the longer one. */
  function Sort<T>(key: T -> string, s: seq<T>): (r: seq<T>)
    ensures |r| == |s|
    decreases |s|
  {
    if |s| < 2 || Increasing(key, s) then s
    else
      var h := (|s| + 1) / 2;
      Merge(key, Sort(key, s[..h]), Sort(key, s[h..]))
  }

  ghost predicate Ordered<T>(key: T -> string, s: seq<T>) {
    forall i, j :: 0 <= i < j < |s| ==> Compare(key(s[i]), key(s[j])) <= 0
  }

  ghost predicate Named<T>(key: T -> string, s: seq<T>) {
    forall i :: 0 <= i < |s| ==> NulFree(key(s[i]))
  }

  lemma MultisetParts<T>(x: T, s: seq<T>, t: seq<T>)
    requires t == [x] + s
    ensures multiset(t) == multiset{x} + multiset(s)
  {
  }

  lemma {:induction false} MergePermutes<T>(key: T -> string, a: seq<T>, b: seq<T>)
    ensures multiset(Merge(key, a, b)) == multiset(a) + multiset(b)
    decreases |a| + |b|
  {
    hide Compare;
    if a != [] && b != [] {
      if Compare(key(a[0]), key(b[0])) < 0 {
        MergePermutes(key, a[1..], b);
        MultisetParts(a[0], a[1..], a);
        MultisetParts(a[0], Merge(key, a[1..], b), Merge(key, a, b));
      } else {
        MergePermutes(key, a, b[1..]);
        MultisetParts(b[0], b[1..], b);
        MultisetParts(b[0], Merge(key, a, b[1..]), Merge(key, a, b));
      }
    }
  }

  lemma MultisetHalves<T>(s: seq<T>, h: nat)
    requires h <= |s|
    ensures multiset(s) == multiset(s[..h]) + multiset(s[h..])
  {
    assert s == s[..h] + s[h..];
  }

  /** Sorting loses, adds and duplicates nothing. */
  lemma {:induction false} SortPermutes<T>(key: T -> string, s: seq<T>)
    ensures multiset(Sort(key, s)) == multiset(s)
    decreases |s|
  {
    hide Increasing, Merge;
    if !(|s| < 2 || Increasing(key, s)) {
      var h := (|s| + 1) / 2;
      SortPermutes(key, s[..h]);
      SortPermutes(key, s[h..]);
      MergePermutes(key, Sort(key, s[..h]), Sort(key, s[h..]));
      MultisetHalves(s, h);
    }
  }

  lemma NamedByMultiset<T>(key: T -> string, s: seq<T>, t: seq<T>)
    requires Named(key, s) && multiset(t) == multiset(s)
    ensures Named(key, t)
  {
    forall i | 0 <= i < |t| ensures NulFree(key(t[i])) {
      assert t[i] in multiset(t);
      assert t[i] in s;
    }
  }

  lemma MergeElement<T>(key: T -> string, a: seq<T>, b: seq<T>, i: nat)
    requires i < |a| + |b|
    ensures Merge(key, a, b)[i] in a || Merge(key, a, b)[i] in b
  {
    MergePermutes(key, a, b);
    assert Merge(key, a, b)[i] in multiset(Merge(key, a, b));
  }

  /** x comes before everything in s. */
  ghost predicate Below<T>(key: T -> string, x: T, s: seq<T>) {
    forall i :: 0 <= i < |s| ==> Compare(key(x), key(s[i])) <= 0
  }

  lemma HeadBelow<T>(key: T -> string, x: T, s: seq<T>)
    requires NulFree(key(x)) && Named(key, s) && Ordered(key, s)
    requires s != [] ==> Compare(key(x), key(s[0])) <= 0
    ensures Below(key, x, s)
  {
    forall i | 0 <= i < |s| ensures Compare(key(x), key(s[i])) <= 0 {
      if i > 0 {
        CompareChains(key(x), key(s[0]), key(s[i]));
      }
    }
  }

  lemma OrderedCons<T>(key: T -> string, x: T, s: seq<T>)
    requires Ordered(key, s) && Below(key, x, s)
    ensures Ordered(key, [x] + s)
  {
  }

  lemma BelowMerge<T>(key: T -> string, x: T, a: seq<T>, b: seq<T>)
    requires Below(key, x, a) && Below(key, x, b)
    ensures Below(key, x, Merge(key, a, b))
  {
    forall i | 0 <= i < |a| + |b| ensures Compare(key(x), key(Merge(key, a, b)[i])) <= 0 {
      MergeElement(key, a, b, i);
    }
  }

  lemma {:induction false} MergeOrders<T>(key: T -> string, a: seq<T>, b: seq<T>)
    requires Named(key, a) && Named(key, b) && Ordered(key, a) && Ordered(key, b)
    ensures Ordered(key, Merge(key, a, b))
    decreases |a| + |b|
  {
    if a != [] && b != [] {
      CompareFlips(key(a[0]), key(b[0]));
      if Compare(key(a[0]), key(b[0])) < 0 {
        MergeOrders(key, a[1..], b);
        HeadBelow(key, a[0], a[1..]);
        HeadBelow(key, a[0], b);
        BelowMerge(key, a[0], a[1..], b);
        OrderedCons(key, a[0], Merge(key, a[1..], b));
      } else {
        MergeOrders(key, a, b[1..]);
        HeadBelow(key, b[0], a);
        HeadBelow(key, b[0], b[1..]);
        BelowMerge(key, b[0], a, b[1..]);
        OrderedCons(key, b[0], Merge(key, a, b[1..]));
      }
    }
  }

  lemma {:induction false} IncreasingIsOrdered<T>(key: T -> string, s: seq<T>)
    requires Named(key, s) && Increasing(key, s)
    ensures Ordered(key, s)
  {
    if s != [] {
      forall i | 0 <= i < |s[1..]| - 1 ensures Compare(key(s[1..][i]), key(s[1..][i + 1])) < 0 {
        assert s[1..][i] == s[i + 1];
      }
      IncreasingIsOrdered(key, s[1..]);
      HeadBelow(key, s[0], s[1..]);
      OrderedCons(key, s[0], s[1..]);
      assert s == [s[0]] + s[1..];
    }
  }

  /** Sorting puts the names into non-decreasing order, ignoring case. */
  lemma {:induction false} SortOrders<T>(key: T -> string, s: seq<T>)
    requires Named(key, s)
    ensures Ordered(key, Sort(key, s))
    decreases |s|
  {
    if |s| < 2 {
    } else if Increasing(key, s) {
      IncreasingIsOrdered(key, s);
    } else {
      var h := (|s| + 1) / 2;
      SortOrders(key, s[..h]);
      SortOrders(key, s[h..]);
      SortPermutes(key, s[..h]);
      SortPermutes(key, s[h..]);
      NamedByMultiset(key, s[..h], Sort(key, s[..h]));
      NamedByMultiset(key, s[h..], Sort(key, s[h..]));
      MergeOrders(key, Sort(key, s[..h]), Sort(key, s[h..]));
    }
  }

  // ---------------------------------------------------------------- what stays first

  /** The first name is strictly below all others. */
  predicate FirstLeast<T>(key: T -> string, s: seq<T>) {
    forall i :: 0 < i < |s| ==> Compare(key(s[0]), key(s[i])) < 0
  }

  ghost predicate AllDiffer<T>(s: seq<T>) {
    forall i, j :: 0 <= i < j < |s| ==> s[i] != s[j]
  }

  lemma {:induction false} IncreasingFirst<T>(key: T -> string, s: seq<T>, i: nat)
    requires Named(key, s) && Increasing(key, s) && 0 < i < |s|
    ensures Compare(key(s[0]), key(s[i])) < 0
  {
    hide Compare;
    assert Compare(key(s[i - 1]), key(s[i - 1 + 1])) < 0;
    if i > 1 {
      IncreasingFirst(key, s, i - 1);
      CompareChains(key(s[0]), key(s[i - 1]), key(s[i]));
    }
  }

  lemma SortElement<T>(key: T -> string, s: seq<T>, x: T)
    ensures x in Sort(key, s) <==> x in s
  {
    hide Sort;
    SortPermutes(key, s);
    assert x in multiset(s) <==> x in s;
    assert x in multiset(Sort(key, s)) <==> x in Sort(key, s);
  }

  /** What is strictly least comes out first. */
  lemma LeastComesFirst<T>(key: T -> string, s: seq<T>)
    requires s != [] && Named(key, s) && FirstLeast(key, s)
    ensures Sort(key, s)[0] == s[0]
  {
    hide Sort, Compare;
    var r := Sort(key, s);
    SortOrders(key, s);
    SortElement(key, s, r[0]);
    SortElement(key, s, s[0]);
    var i :| 0 <= i < |r| && r[i] == s[0];
    var j :| 0 <= j < |s| && s[j] == r[0];
    if i > 0 && j > 0 {
      assert Compare(key(r[0]), key(r[i])) <= 0;
      CompareFlips(key(s[0]), key(s[j]));
    }
  }

  /** What comes out first is not above anything. */
  lemma FirstBelow<T>(key: T -> string, s: seq<T>, x: T)
    requires s != [] && Named(key, s) && x in s
    ensures Compare(key(Sort(key, s)[0]), key(x)) <= 0
  {
    hide Sort;
    var r := Sort(key, s);
    SortOrders(key, s);
    SortElement(key, s, x);
    var i :| 0 <= i < |r| && r[i] == x;
    if i == 0 {
      CompareSelf(key(x));
    }
  }

  lemma CompareSelf(a: string)
    ensures Compare(a, a) == 0
  {
    CompareFlips(a, a);
  }

  lemma MergeFirst<T>(key: T -> string, a: seq<T>, b: seq<T>)
    requires a != [] && b != []
    ensures Merge(key, a, b)[0] == if Compare(key(a[0]), key(b[0])) < 0 then a[0] else b[0]
  {
  }

  /** The first element stays first exactly if its name is strictly below all others: of two equal names the one
      from the second half comes first. */
  lemma {:induction false} StaysFirst<T>(key: T -> string, s: seq<T>)
    requires s != [] && Named(key, s) && AllDiffer(s)
    ensures Sort(key, s)[0] == s[0] <==> FirstLeast(key, s)
    decreases |s|
  {
    hide Compare;
    if FirstLeast(key, s) {
      LeastComesFirst(key, s);
    } else if Increasing(key, s) {
      forall i | 0 < i < |s| ensures Compare(key(s[0]), key(s[i])) < 0 {
        IncreasingFirst(key, s, i);
      }
      assert false;
    } else {
      NotLeast(key, s);
    }
  }

  lemma {:induction false} NotLeast<T>(key: T -> string, s: seq<T>)
    requires |s| >= 2 && Named(key, s) && AllDiffer(s) && !Increasing(key, s) && !FirstLeast(key, s)
    ensures Sort(key, s)[0] != s[0]
    decreases |s|, 0
  {
    hide Compare, Merge, FirstLeast;
    var h := (|s| + 1) / 2;
    var a, b := Sort(key, s[..h]), Sort(key, s[h..]);
    MergeFirst(key, a, b);
    SortElement(key, s[h..], b[0]);
    if Compare(key(a[0]), key(b[0])) < 0 && a[0] == s[0] {
      StaysFirst(key, s[..h]);
      LeastOfHalves(key, s, h);
      assert false;
    }
  }

  lemma LeastOfHalves<T>(key: T -> string, s: seq<T>, h: nat)
    requires 0 < h < |s| && Named(key, s) && FirstLeast(key, s[..h])
    requires Compare(key(s[0]), key(Sort(key, s[h..])[0])) < 0
    ensures FirstLeast(key, s)
  {
    hide Sort, Compare;
    forall i | 0 < i < |s| ensures Compare(key(s[0]), key(s[i])) < 0 {
      if i < h {
        assert s[..h][i] == s[i];
      } else {
        assert s[h..][i - h] == s[i];
        var x := Sort(key, s[h..])[0];
        SortElement(key, s[h..], x);
        FirstBelow(key, s[h..], s[i]);
        CompareChains(key(s[0]), key(x), key(s[i]));
      }
    }
  }
}
