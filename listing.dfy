/** The ascending, cursor-based range over the vote-box table that
    `query_votelist` in src/contract.rs performs: keys strictly above the
    cursor, in ascending order, at most `limit` of them. */
module Listing {
  import opened Wrappers
  import opened State

  const MAX_LIMIT: nat := 30
  const DEFAULT_LIMIT: nat := 10

  function Min(a: nat, b: nat): nat
  {
    if a <= b then a else b
  }

  /** `limit.unwrap_or(DEFAULT_LIMIT).min(MAX_LIMIT)`. */
  function EffectiveLimit(limit: Option<u32>): (n: nat)
    ensures n <= MAX_LIMIT
    ensures limit.None? ==> n == DEFAULT_LIMIT
    ensures limit.Some? && limit.value <= MAX_LIMIT ==> n == limit.value
    ensures limit.Some? && limit.value > MAX_LIMIT ==> n == MAX_LIMIT
  {
    match limit
    case None => Min(DEFAULT_LIMIT, MAX_LIMIT)
    case Some(l) => Min(l, MAX_LIMIT)
  }

  predicate StrictlyAscending(s: seq<u64>)
  {
    forall i, j | 0 <= i < j < |s| :: s[i] < s[j]
  }

  /** The keys of `keys` the range visits: all of them without a cursor,
      otherwise those strictly greater than it (`Bound::exclusive`). */
  function Above(keys: set<u64>, startAfter: Option<u64>): (r: set<u64>)
    ensures r <= keys
    ensures forall k | k in keys :: k in r <==> (startAfter.None? || k > startAfter.value)
  {
    match startAfter
    case None => keys
    case Some(c) => set k | k in keys && k > c
  }

  /** `m` is the smallest key of `s`. */
  predicate IsLeast(s: set<u64>, m: u64)
  {
    m in s && forall k | k in s :: m <= k
  }

  lemma {:induction false} LeastExists(s: set<u64>)
    requires s != {}
    ensures exists m :: IsLeast(s, m)
    decreases |s|
  {
    var x :| x in s;
    if s == {x} {
      assert IsLeast(s, x);
    } else {
      var rest := s - {x};
      assert |rest| == |s| - 1;
      LeastExists(rest);
      var m :| IsLeast(rest, m);
      assert forall k | k in s :: k == x || k in rest;
      if x < m {
        assert IsLeast(s, x);
      } else {
        assert IsLeast(s, m);
      }
    }
  }

  /** The elements of a finite set of keys in ascending order: the order in
      which the store's range iterator yields them. */
  function AscendingKeys(s: set<u64>): (r: seq<u64>)
    ensures StrictlyAscending(r)
    ensures |r| == |s|
    ensures forall k :: k in r <==> k in s
    decreases |s|
  {
    if s == {} then
      []
    else
      LeastExists(s);
      var m :| IsLeast(s, m);
      assert |s - {m}| == |s| - 1;
      var rest := AscendingKeys(s - {m});
      LeastThenRest(s, m, rest);
      [m] + rest
  }

  /** Putting the least key in front of an ascending listing of the others
      lists the whole set. */
  lemma LeastThenRest(s: set<u64>, m: u64, rest: seq<u64>)
    requires IsLeast(s, m)
    requires StrictlyAscending(rest) && forall k :: k in rest <==> k in s - {m}
    ensures StrictlyAscending([m] + rest)
    ensures forall k :: k in [m] + rest <==> k in s
  {
    forall i | 0 <= i < |rest|
      ensures m < rest[i]
    {
      assert rest[i] in s - {m};
    }
  }

  lemma ElementOfTail(a: seq<u64>, b: seq<u64>, k: u64)
    requires StrictlyAscending(a) && StrictlyAscending(b)
    requires forall x :: x in a <==> x in b
    requires a != [] && b != [] && a[0] == b[0] && k in a[1..]
    ensures k in b[1..]
  {
    var j :| 1 <= j < |a| && a[j] == k;
    assert a[0] < a[j];
    assert k in b;
    var i :| 0 <= i < |b| && b[i] == k;
    assert b[1..][i - 1] == k;
  }

  /** Two strictly ascending sequences with the same elements are equal:
      the ascending order of a set is unique. */
  lemma {:induction false} AscendingIsUnique(a: seq<u64>, b: seq<u64>)
    requires StrictlyAscending(a) && StrictlyAscending(b)
    requires forall k :: k in a <==> k in b
    ensures a == b
    decreases |a|
  {
    if a != [] {
      assert a[0] in b;
    }
    if b != [] {
      assert b[0] in a;
    }
    if a != [] && b != [] {
      assert a[0] == b[0];
      assert a == [a[0]] + a[1..] && b == [b[0]] + b[1..];
      forall k
        ensures k in a[1..] <==> k in b[1..]
      {
        if k in a[1..] {
          ElementOfTail(a, b, k);
        }
        if k in b[1..] {
          ElementOfTail(b, a, k);
        }
      }
      AscendingIsUnique(a[1..], b[1..]);
    }
  }

  /** The keys of one page: the first `limit` keys above the cursor. */
  function PageKeys(keys: set<u64>, startAfter: Option<u64>, limit: nat): seq<u64>
  {
    var all := AscendingKeys(Above(keys, startAfter));
    all[..Min(limit, |all|)]
  }

  /** A page is ascending, as long as the limit allows, made of stored keys
      above the cursor, and skips none of them. */
  lemma PageKeysCorrect(keys: set<u64>, startAfter: Option<u64>, limit: nat)
    ensures var r := PageKeys(keys, startAfter, limit);
      && StrictlyAscending(r)
      && |r| == Min(limit, |Above(keys, startAfter)|)
      && (forall i | 0 <= i < |r| :: r[i] in keys)
      && (forall i | 0 <= i < |r| :: startAfter.None? || r[i] > startAfter.value)
      // No key is skipped: every key above the cursor that the page leaves
      // out comes after every key on the page.
      && (forall k, i | k in Above(keys, startAfter) && k !in r && 0 <= i < |r| :: r[i] < k)
  {
    var all := AscendingKeys(Above(keys, startAfter));
    PrefixSkipsNothing(all, Above(keys, startAfter), Min(limit, |all|));
  }

  /** A prefix of a strictly ascending listing of `s` leaves out only
      elements of `s` larger than all it keeps. */
  lemma PrefixSkipsNothing(all: seq<u64>, s: set<u64>, len: nat)
    requires StrictlyAscending(all) && (forall k :: k in all <==> k in s)
    requires len <= |all|
    ensures forall k, i | k in s && k !in all[..len] && 0 <= i < len :: all[i] < k
  {
    forall k, i | k in s && k !in all[..len] && 0 <= i < len
      ensures all[i] < k
    {
      var j :| 0 <= j < |all| && all[j] == k;
      assert j >= len;
    }
  }

  /** In a strictly ascending listing of a set, the entries after position
      `len - 1` are exactly the set's elements above that entry. */
  lemma AscendingRest(all: seq<u64>, s: set<u64>, len: nat)
    requires StrictlyAscending(all) && (forall k :: k in all <==> k in s)
    requires 0 < len <= |all|
    ensures forall k :: k in all[len..] <==> k in s && k > all[len - 1]
  {
    forall k
      ensures k in all[len..] <==> k in s && k > all[len - 1]
    {
      if k in all[len..] {
        var j :| len <= j < |all| && all[j] == k;
        assert all[len - 1] < all[j];
      }
      if k in s && k > all[len - 1] {
        var j :| 0 <= j < |all| && all[j] == k;
        assert all[len..][j - len] == k;
      }
    }
  }

  /** Moving the cursor to a key above the old one narrows the range to the
      keys above the new cursor. */
  lemma AboveAbove(keys: set<u64>, startAfter: Option<u64>, last: u64)
    requires last in Above(keys, startAfter)
    ensures forall k :: k in Above(keys, Some(last)) <==> k in Above(keys, startAfter) && k > last
  {
  }

  /** The keys above the `len`-th key of an ascending listing are the rest
      of that listing. */
  lemma AboveKeyIsRest(keys: set<u64>, startAfter: Option<u64>, len: nat)
    requires 0 < len <= |AscendingKeys(Above(keys, startAfter))|
    ensures var all := AscendingKeys(Above(keys, startAfter));
      AscendingKeys(Above(keys, Some(all[len - 1]))) == all[len..]
  {
    var above := Above(keys, startAfter);
    var all := AscendingKeys(above);
    assert all[len - 1] in above;
    AboveAbove(keys, startAfter, all[len - 1]);
    RestIsListing(all, above, Above(keys, Some(all[len - 1])), len);
  }

  /** The ascending listing of the elements of `s` above the `len`-th entry
      of a listing of `s` is the rest of that listing. */
  lemma RestIsListing(all: seq<u64>, s: set<u64>, t: set<u64>, len: nat)
    requires StrictlyAscending(all) && (forall k :: k in all <==> k in s)
    requires 0 < len <= |all|
    requires forall k :: k in t <==> k in s && k > all[len - 1]
    ensures AscendingKeys(t) == all[len..]
  {
    AscendingRest(all, s, len);
    AscendingIsUnique(all[len..], AscendingKeys(t));
  }

  lemma PrefixThenRest(all: seq<u64>, len: nat, n1: nat, n2: nat)
    requires len == Min(n1, |all|)
    ensures all[..len] + all[len..][..Min(n2, |all| - len)] == all[..Min(n1 + n2, |all|)]
  {
    if len < n1 {
      assert all[..len] == all;
    }
  }

  /** Paging with the last key of one page as the next cursor continues
      exactly where that page stopped: two consecutive pages together are
      the page of their combined size. */
  lemma PagesConcatenate(keys: set<u64>, startAfter: Option<u64>, n1: nat, n2: nat)
    requires PageKeys(keys, startAfter, n1) != []
    ensures var p1 := PageKeys(keys, startAfter, n1);
      p1 + PageKeys(keys, Some(p1[|p1| - 1]), n2) == PageKeys(keys, startAfter, n1 + n2)
  {
    var all := AscendingKeys(Above(keys, startAfter));
    var len := Min(n1, |all|);
    assert PageKeys(keys, startAfter, n1) == all[..len];
    AboveKeyIsRest(keys, startAfter, len);
    assert PageKeys(keys, Some(all[len - 1]), n2) == all[len..][..Min(n2, |all| - len)];
    PrefixThenRest(all, len, n1, n2);
  }
}
