/** The byte order on strings used by Go's sort.Strings and Python's sorted. */
module TextOrder {
  import opened Lists

  predicate Le(a: string, b: string) {
    a == [] || (b != [] && (a[0] < b[0] || (a[0] == b[0] && Le(a[1..], b[1..]))))
  }

  lemma LeTotal(a: string, b: string)
    ensures Le(a, b) || Le(b, a)
  {
  }

  lemma {:induction false} LeAntisymmetric(a: string, b: string)
    requires Le(a, b) && Le(b, a)
    ensures a == b
  {
    if a != [] {
      LeAntisymmetric(a[1..], b[1..]);
      assert a == [a[0]] + a[1..] && b == [b[0]] + b[1..];
    }
  }

  lemma {:induction false} LeTransitive(a: string, b: string, c: string)
    requires Le(a, b) && Le(b, c)
    ensures Le(a, c)
  {
    if a != [] && a[0] == b[0] == c[0] {
      LeTransitive(a[1..], b[1..], c[1..]);
    }
  }

  /** Where `a` and `b` first differ, `a` has the smaller character. */
  ghost predicate SmallerAt(a: string, b: string, i: nat) {
    i < |a| && i < |b| && a[..i] == b[..i] && a[i] < b[i]
  }

  lemma SmallerTail(a: string, b: string, i: nat)
    requires a != [] && b != [] && a[0] == b[0]
    ensures SmallerAt(a[1..], b[1..], i) <==> SmallerAt(a, b, i + 1)
  {
    if i < |a| - 1 && i < |b| - 1 {
      assert a[..i + 1] == [a[0]] + a[1..][..i] && b[..i + 1] == [b[0]] + b[1..][..i];
      assert a[1..][..i] == a[..i + 1][1..] && b[1..][..i] == b[..i + 1][1..];
    }
  }

  /** Byte order: a prefix comes first; otherwise the first difference decides. */
  lemma {:induction false} LeExactly(a: string, b: string)
    ensures Le(a, b) <==> a <= b || exists i: nat :: SmallerAt(a, b, i)
  {
    if a != [] && b != [] && a[0] == b[0] {
      LeExactly(a[1..], b[1..]);
      assert a <= b <==> a[1..] <= b[1..] by {
        assert a == [a[0]] + a[1..] && b == [b[0]] + b[1..];
      }
      if i: nat :| SmallerAt(a[1..], b[1..], i) {
        SmallerTail(a, b, i);
      }
      if i: nat :| SmallerAt(a, b, i) {
        assert i > 0;
        SmallerTail(a, b, i - 1);
      }
    } else if a != [] && b != [] {
      assert a[..0] == b[..0];
      assert a[0] < b[0] ==> SmallerAt(a, b, 0);
    }
  }

  // ---- ordering by a key, as in sorted(..., key=...) ----

  /** The plain order, as a key function. */
  function Itself(s: string): string { s }

  /** A total order that refines the key order; ties fall back to the string itself. */
  predicate KeyLe(key: string -> string, a: string, b: string) {
    if key(a) == key(b) then Le(a, b) else Le(key(a), key(b))
  }

  lemma KeyLeTotal(key: string -> string, a: string, b: string)
    ensures KeyLe(key, a, b) || KeyLe(key, b, a)
  {
    LeTotal(a, b);
    LeTotal(key(a), key(b));
  }

  lemma KeyLeAntisymmetric(key: string -> string, a: string, b: string)
    requires KeyLe(key, a, b) && KeyLe(key, b, a)
    ensures a == b
  {
    if key(a) == key(b) {
      LeAntisymmetric(a, b);
    } else {
      LeAntisymmetric(key(a), key(b));
    }
  }

  lemma KeyLeTransitive(key: string -> string, a: string, b: string, c: string)
    requires KeyLe(key, a, b) && KeyLe(key, b, c)
    ensures KeyLe(key, a, c)
  {
    if key(a) == key(b) == key(c) {
      LeTransitive(a, b, c);
    } else if key(a) != key(b) && key(b) != key(c) {
      LeTransitive(key(a), key(b), key(c));
      if key(a) == key(c) {
        LeAntisymmetric(key(a), key(b));
      }
    }
  }

  /** Sorted the way a key-based sort promises: keys never decrease. */
  ghost predicate KeySorted(key: string -> string, s: seq<string>) {
    forall i, j :: 0 <= i < j < |s| ==> Le(key(s[i]), key(s[j]))
  }

  ghost predicate Distinguishes(key: string -> string, s: set<string>) {
    forall a, b :: a in s && b in s && key(a) == key(b) ==> a == b
  }

  // ---- sort.Strings ----

  function Insert(key: string -> string, x: string, s: seq<string>): (r: seq<string>)
    ensures multiset(r) == multiset(s) + multiset{x}
  {
    if s == [] then [x]
    else if KeyLe(key, x, s[0]) then [x] + s
    else
      assert s == [s[0]] + s[1..];
      [s[0]] + Insert(key, x, s[1..])
  }

  /** Sorting with `key`. Only its contract matters: SortUnique shows nothing else satisfies it. */
  function Sort(key: string -> string, s: seq<string>): (r: seq<string>)
    ensures multiset(r) == multiset(s)
    ensures |r| == |s|
  {
    if s == [] then []
    else
      assert s == [s[0]] + s[1..];
      var r := Insert(key, s[0], Sort(key, s[1..]));
      assert |multiset(r)| == |multiset(s)|;
      r
  }

  ghost predicate Ordered(key: string -> string, s: seq<string>) {
    forall i, j :: 0 <= i < j < |s| ==> KeyLe(key, s[i], s[j])
  }

  lemma {:induction false} InsertOrdered(key: string -> string, x: string, s: seq<string>)
    requires Ordered(key, s)
    ensures Ordered(key, Insert(key, x, s))
  {
    if s == [] {
    } else if KeyLe(key, x, s[0]) {
      forall i | 0 <= i < |s| ensures KeyLe(key, x, s[i]) {
        if i > 0 { KeyLeTransitive(key, x, s[0], s[i]); }
      }
    } else {
      KeyLeTotal(key, x, s[0]);
      InsertOrdered(key, x, s[1..]);
      var t := Insert(key, x, s[1..]);
      forall j | 0 <= j < |t| ensures KeyLe(key, s[0], t[j]) {
        assert t[j] in multiset(t);
        assert t[j] == x || t[j] in s[1..];
      }
    }
  }

  lemma {:induction false} SortOrdered(key: string -> string, s: seq<string>)
    ensures Ordered(key, Sort(key, s))
  {
    if s != [] {
      SortOrdered(key, s[1..]);
      InsertOrdered(key, s[0], Sort(key, s[1..]));
    }
  }

  lemma OrderedIsKeySorted(key: string -> string, s: seq<string>)
    requires Ordered(key, s)
    ensures KeySorted(key, s)
  {
    forall i, j | 0 <= i < j < |s| ensures Le(key(s[i]), key(s[j])) {
      assert KeyLe(key, s[i], s[j]);
      LeTotal(key(s[i]), key(s[j]));
    }
  }

  /** Under a key that tells the members apart, the sorted arrangement is unique. */
  lemma {:induction false} SortUnique(key: string -> string, a: seq<string>, b: seq<string>)
    requires multiset(a) == multiset(b)
    requires KeySorted(key, a) && KeySorted(key, b)
    requires Distinguishes(key, Elems(a))
    ensures a == b
  {
    SameLength(a, b);
    if a != [] {
      SameHead(key, a, b);
      TailMultiset(a);
      TailMultiset(b);
      assert Distinguishes(key, Elems(a[1..])) by {
        assert Elems(a[1..]) <= Elems(a);
      }
      SortUnique(key, a[1..], b[1..]);
      assert a == [a[0]] + a[1..] && b == [b[0]] + b[1..];
    }
  }

  lemma TailMultiset(a: seq<string>)
    requires |a| > 0
    ensures multiset(a[1..]) == multiset(a) - multiset{a[0]}
  {
    assert a == [a[0]] + a[1..];
  }

  lemma SameHead(key: string -> string, a: seq<string>, b: seq<string>)
    requires |a| > 0 && |b| > 0 && multiset(a) == multiset(b)
    requires KeySorted(key, a) && KeySorted(key, b)
    requires Distinguishes(key, Elems(a))
    ensures a[0] == b[0]
  {
    assert a[0] in multiset(b) && b[0] in multiset(a);
    var i :| 0 <= i < |b| && b[i] == a[0];
    var j :| 0 <= j < |a| && a[j] == b[0];
    if i != 0 && j != 0 {
      LeAntisymmetric(key(a[0]), key(b[0]));
    }
  }

  // ---- sorted(<set>) ----

  ghost predicate IsListing(key: string -> string, s: set<string>, r: seq<string>) {
    NoDup(r) && Elems(r) == s && KeySorted(key, r)
  }

  lemma ListingUnique(key: string -> string, s: set<string>, a: seq<string>, b: seq<string>)
    requires IsListing(key, s, a) && IsListing(key, s, b)
    requires Distinguishes(key, s)
    ensures a == b
  {
    NoDupMultiset(a);
    NoDupMultiset(b);
    SortUnique(key, a, b);
  }

  lemma {:induction false} NoDupMultiset<T(!new)>(a: seq<T>)
    requires NoDup(a)
    ensures multiset(a) == multiset(Elems(a))
  {
    if a != [] {
      NoDupMultiset(DropLast(a));
      assert a == DropLast(a) + [Last(a)];
      assert Elems(a) == Elems(DropLast(a)) + {Last(a)};
    }
  }

  lemma MultisetNoDup<T(!new)>(a: seq<T>, s: set<T>)
    requires multiset(a) == multiset(s)
    ensures NoDup(a) && Elems(a) == s
  {
    forall i, j | 0 <= i < j < |a| ensures a[i] != a[j] {
      assert a == a[..j] + [a[j]] + a[j + 1..];
      assert a[i] in a[..j];
      assert multiset(a)[a[j]] <= 1;
    }
    forall x ensures x in a <==> x in s {
      assert x in a <==> x in multiset(a);
    }
  }

  lemma SortListing(key: string -> string, a: seq<string>)
    requires NoDup(a)
    ensures IsListing(key, Elems(a), Sort(key, a))
  {
    NoDupMultiset(a);
    MultisetNoDup(Sort(key, a), Elems(a));
    SortOrdered(key, a);
    OrderedIsKeySorted(key, Sort(key, a));
  }

  lemma {:induction false} Least(key: string -> string, s: set<string>) returns (m: string)
    requires s != {}
    ensures m in s && forall x :: x in s ==> KeyLe(key, m, x)
  {
    m :| m in s;
    var rest := s - {m};
    if rest == {} {
      KeyLeTotal(key, m, m);
      assert s == {m};
    } else {
      var k := Least(key, rest);
      KeyLeTotal(key, m, k);
      KeyLeTotal(key, m, m);
      if KeyLe(key, k, m) {
        m := k;
      } else {
        forall x | x in rest ensures KeyLe(key, m, x) {
          KeyLeTransitive(key, m, k, x);
        }
      }
      assert forall x :: x in s ==> x in rest || x !in rest;
    }
  }

  /** The members of `s` in sorted order. */
  function SortedListing(key: string -> string, s: set<string>): (r: seq<string>)
    ensures Elems(r) == s
  {
    if s == {} then []
    else
      assert exists m :: m in s && forall x :: x in s ==> KeyLe(key, m, x) by {
        var m := Least(key, s);
      }
      assert forall a, b :: KeyLe(key, a, b) && KeyLe(key, b, a) ==> a == b by {
        forall a, b | KeyLe(key, a, b) && KeyLe(key, b, a) ensures a == b {
          KeyLeAntisymmetric(key, a, b);
        }
      }
      var m :| m in s && forall x :: x in s ==> KeyLe(key, m, x);
      [m] + SortedListing(key, s - {m})
  }

  lemma {:induction false} SortedListingSorted(key: string -> string, s: set<string>)
    ensures IsListing(key, s, SortedListing(key, s))
  {
    if s != {} {
      var r := SortedListing(key, s);
      SortedListingSorted(key, s - {r[0]});
      assert r == [r[0]] + SortedListing(key, s - {r[0]});
      forall j | 0 < j < |r| ensures Le(key(r[0]), key(r[j])) && r[0] != r[j] {
        assert r[j] in SortedListing(key, s - {r[0]});
        assert KeyLe(key, r[0], r[j]);
        LeTotal(key(r[0]), key(r[j]));
      }
    }
  }
}
