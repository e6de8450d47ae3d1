/** Paged listing of a bucket: a page is the next block of sorted keys after the token. */
module Listing {
  import opened Lists
  import opened FeatureErrors
  import opened TextOrder

  /** Whether listing from the token has passed `k`. */
  predicate Passed(token: Option<string>, k: string) {
    token.Some? && Le(k, token.value)
  }

  function Pending(keys: set<string>, prefix: string, token: Option<string>): set<string> {
    set k | k in keys && prefix <= k && !Passed(token, k)
  }

  /** The keys still to be listed, in order. */
  function Remaining(keys: set<string>, prefix: string, token: Option<string>): seq<string> {
    SortedListing(Itself, Pending(keys, prefix, token))
  }

  const PAGE_LIMIT: nat := 1000

  /** A token comes with the page exactly when keys remain. */
  ghost predicate IsPage(keys: set<string>, prefix: string, token: Option<string>, page: seq<string>, next: Option<string>) {
    var rest := Remaining(keys, prefix, token);
    && |page| <= PAGE_LIMIT && |page| <= |rest| && page == rest[..|page|]
    && (rest != [] ==> page != [])
    && next == if |page| < |rest| then Some(Last(page)) else None
  }

  lemma PendingSorted(keys: set<string>, prefix: string, token: Option<string>)
    ensures IsListing(Itself, Pending(keys, prefix, token), SortedListing(Itself, Pending(keys, prefix, token)))
  {
    SortedListingSorted(Itself, Pending(keys, prefix, token));
  }

  /** An empty page means there was nothing left. */
  lemma EmptyPage(keys: set<string>, prefix: string, token: Option<string>, page: seq<string>, next: Option<string>)
    requires IsPage(keys, prefix, token, page, next) && page == []
    ensures Pending(keys, prefix, token) == {}
  {
    assert Elems(SortedListing(Itself, Pending(keys, prefix, token))) == Pending(keys, prefix, token);
  }

  /** The page without a successor takes all that was left. */
  lemma LastPage(keys: set<string>, prefix: string, token: Option<string>, page: seq<string>)
    requires IsPage(keys, prefix, token, page, None)
    ensures page == SortedListing(Itself, Pending(keys, prefix, token))
    ensures Elems(page) == Pending(keys, prefix, token)
  {
    var rest := SortedListing(Itself, Pending(keys, prefix, token));
    assert rest == rest[..|page|];
  }

  /** The next listing starts where the page stopped. */
  lemma NextPage(keys: set<string>, prefix: string, token: Option<string>, page: seq<string>, next: Option<string>)
    requires IsPage(keys, prefix, token, page, next) && next.Some?
    ensures page != [] && Elems(page) <= Pending(keys, prefix, token)
    ensures Pending(keys, prefix, next) == Pending(keys, prefix, token) - Elems(page)
    ensures SortedListing(Itself, Pending(keys, prefix, token))
         == page + SortedListing(Itself, Pending(keys, prefix, next))
    ensures forall k :: k in keys && prefix <= k ==>
              (Passed(next, k) <==> Passed(token, k) || k in page)
  {
    var pending := Pending(keys, prefix, token);
    var rest := SortedListing(Itself, pending);
    PendingSorted(keys, prefix, token);
    var tail := rest[|page|..];
    assert rest == page + tail;
    PageBoundary(rest, |page|);
    forall k | k in keys && prefix <= k ensures Passed(next, k) <==> Passed(token, k) || k in page {
      if Passed(token, k) {
        assert Last(page) in pending;
        LeTotal(Last(page), token.value);
        LeTransitive(k, token.value, Last(page));
      } else {
        assert k in Elems(rest);
        assert k in page || k in tail;
      }
    }
    var later := Pending(keys, prefix, next);
    assert Elems(rest) == Elems(page) + Elems(tail);
    assert Elems(page) !! Elems(tail);
    assert later == Elems(tail);
    SortedListingSorted(Itself, later);
    ListingUnique(Itself, later, tail, SortedListing(Itself, later));
  }

  /** In a sorted listing the entry before position `n` separates what comes before from what comes after. */
  lemma PageBoundary(rest: seq<string>, n: nat)
    requires NoDup(rest) && KeySorted(Itself, rest) && 0 < n <= |rest|
    ensures forall k :: k in rest[..n] ==> Le(k, rest[n - 1])
    ensures forall k :: k in rest[n..] ==> !Le(k, rest[n - 1]) && k !in rest[..n]
    ensures NoDup(rest[n..]) && KeySorted(Itself, rest[n..])
  {
    forall i | 0 <= i < n ensures Le(rest[i], rest[n - 1]) {
      LeTotal(rest[i], rest[i]);
      if i < n - 1 {
        assert Le(Itself(rest[i]), Itself(rest[n - 1]));
      }
    }
    forall j | n <= j < |rest| ensures !Le(rest[j], rest[n - 1]) {
      assert Le(Itself(rest[n - 1]), Itself(rest[j]));
      if Le(rest[j], rest[n - 1]) {
        LeAntisymmetric(rest[j], rest[n - 1]);
      }
    }
    forall k | k in rest[n..] ensures !Le(k, rest[n - 1]) && k !in rest[..n] {
      var j :| 0 <= j < |rest| - n && rest[n..][j] == k;
      assert rest[n + j] == k;
    }
    forall i, j | 0 <= i < j < |rest[n..]| ensures Le(Itself(rest[n..][i]), Itself(rest[n..][j])) {
      assert rest[n..][i] == rest[n + i] && rest[n..][j] == rest[n + j];
    }
  }

  /** One page: where its keys come from, and what it leaves to list. */
  lemma PageStep(keys: set<string>, prefix: string, token: Option<string>, page: seq<string>, next: Option<string>)
    requires IsPage(keys, prefix, token, page, next)
    ensures forall k :: k in page ==> k in keys
    ensures Remaining(keys, prefix, token) == page + if next.Some? then Remaining(keys, prefix, next) else []
    ensures page == [] ==> next.None?
    ensures next.Some? ==> |Pending(keys, prefix, next)| < |Pending(keys, prefix, token)|
  {
    var pending := Pending(keys, prefix, token);
    assert Elems(Remaining(keys, prefix, token)) == pending;
    if next.Some? {
      NextPage(keys, prefix, token, page, next);
      var later := Pending(keys, prefix, next);
      assert page[0] in Elems(page);
      assert pending == later + (pending - later);
    } else {
      LastPage(keys, prefix, token, page);
    }
  }
}
