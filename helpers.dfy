/** `get_winner` of src/helpers.rs: a category code computed from the four
    tally counters of a vote box.

    The codes are No = 0, Abstain = 1, Yes = 2, NoWithVeto = 3, and 4 for a
    tie.  The function sorts the counters ascending and looks at the two
    SMALLEST: equal smallest values give 4, otherwise the category holding
    the unique smallest value is returned.  This is minimum semantics, kept
    exactly as the source computes it. */
module Helpers {
  import opened State

  const TIE: int := 4

  predicate Sorted(s: seq<nat>)
  {
    forall i, j | 0 <= i < j < |s| :: s[i] <= s[j]
  }

  /** Inserts `x` into a sorted sequence, keeping it sorted. */
  function Insert(x: nat, s: seq<nat>): (r: seq<nat>)
    requires Sorted(s)
    ensures Sorted(r)
    ensures multiset(r) == multiset(s) + multiset{x}
  {
    if s == [] || x <= s[0] then
      [x] + s
    else
      var rest := Insert(x, s[1..]);
      HeadThenRest(s, x, rest);
      [s[0]] + rest
  }

  /** Keeping the head of a sorted sequence in front of a sorted
      rearrangement of its tail plus a larger value `x` is sorted, and holds
      the sequence's elements plus `x`. */
  lemma HeadThenRest(s: seq<nat>, x: nat, rest: seq<nat>)
    requires Sorted(s) && s != [] && s[0] <= x
    requires Sorted(rest) && multiset(rest) == multiset(s[1..]) + multiset{x}
    ensures Sorted([s[0]] + rest)
    ensures multiset([s[0]] + rest) == multiset(s) + multiset{x}
  {
    assert s == [s[0]] + s[1..];
    forall k | 0 <= k < |rest|
      ensures s[0] <= rest[k]
    {
      assert rest[k] in multiset(rest);
      if rest[k] != x {
        assert rest[k] in multiset(s[1..]);
        var j :| 0 <= j < |s[1..]| && s[1..][j] == rest[k];
        assert s[j + 1] == rest[k];
      }
    }
  }

  /** The ascending sort of `votes_vec.sort()`. */
  function SortAsc(s: seq<nat>): (r: seq<nat>)
    ensures Sorted(r)
    ensures multiset(r) == multiset(s)
    ensures |r| == |s|
  {
    if s == [] then
      []
    else
      assert s == [s[0]] + s[1..];
      Insert(s[0], SortAsc(s[1..]))
  }

  /** The four counters, each at the index of its category code.  It holds
      the entries of `VotesVec` in another order: `Tally(v)[c]` is the counter
      `get_winner` answers with code `c`. */
  function Tally(v: Vote): seq<nat>
  {
    [v.noCount, v.abstainCount, v.yesCount, v.noWithVetoCount]
  }

  /** `m` is at most every counter of `t`. */
  ghost predicate IsLowest(t: seq<nat>, m: nat)
  {
    forall k | 0 <= k < |t| :: m <= t[k]
  }

  /** The smallest value of `t` is held by at least two categories. */
  ghost predicate TiedAtMinimum(t: seq<nat>)
  {
    exists i, j | 0 <= i < j < |t| :: t[i] == t[j] && IsLowest(t, t[i])
  }

  /** Category `c` holds a value strictly smaller than every other one. */
  ghost predicate UniqueMinimumAt(t: seq<nat>, c: int)
  {
    0 <= c < |t| && forall k | 0 <= k < |t| && k != c :: t[c] < t[k]
  }

  /** `votes_vec` before sorting: yes, no, abstain, no-with-veto. */
  function VotesVec(v: Vote): seq<nat>
  {
    [v.yesCount, v.noCount, v.abstainCount, v.noWithVetoCount]
  }

  function GetWinner(v: Vote): (code: int)
    ensures 0 <= code <= TIE
  {
    var sorted := SortAsc(VotesVec(v));
    Decide(v, sorted)
  }

  /** The comparisons `get_winner` makes once `votes_vec` is sorted. */
  function Decide(v: Vote, sorted: seq<nat>): (code: int)
    requires |sorted| >= 2
    ensures 0 <= code <= TIE
  {
    if sorted[0] == sorted[1] then
      TIE
    else if sorted[0] == v.yesCount then
      2
    else if sorted[0] == v.noCount then
      0
    else if sorted[0] == v.abstainCount then
      1
    else
      3
  }

  /** How many of the four values equal `m`. */
  function Occurrences(m: nat, a: nat, b: nat, c: nat, d: nat): nat
  {
    (if a == m then 1 else 0) + (if b == m then 1 else 0) + (if c == m then 1 else 0) + (if d == m then 1 else 0)
  }

  lemma MultiplicityOfFour(m: nat, a: nat, b: nat, c: nat, d: nat)
    ensures multiset{a, b, c, d}[m] == Occurrences(m, a, b, c, d)
  {
  }

  /** The head `w` of a sorted rearrangement `w, x, y, z` of `a, b, c, d` is
      one of them and at most each of them, and it equals the second entry
      exactly when it occurs twice or more. */
  lemma SortedHeadOfFour(a: nat, b: nat, c: nat, d: nat, w: nat, x: nat, y: nat, z: nat)
    requires multiset{a, b, c, d} == multiset{w, x, y, z}
    requires w <= x <= y <= z
    ensures Occurrences(w, a, b, c, d) >= 1
    ensures w <= a && w <= b && w <= c && w <= d
    ensures w == x <==> Occurrences(w, a, b, c, d) >= 2
  {
    MultiplicityOfFour(w, a, b, c, d);
    MultiplicityOfFour(w, w, x, y, z);
    MultiplicityOfFour(a, a, b, c, d);
    MultiplicityOfFour(a, w, x, y, z);
    MultiplicityOfFour(b, a, b, c, d);
    MultiplicityOfFour(b, w, x, y, z);
    MultiplicityOfFour(c, a, b, c, d);
    MultiplicityOfFour(c, w, x, y, z);
    MultiplicityOfFour(d, a, b, c, d);
    MultiplicityOfFour(d, w, x, y, z);
  }

  /** What `get_winner` reads off a sorted rearrangement `r` of four
      counters: its head is one of them and the lowest, and it equals the
      second entry exactly when it occurs at least twice. */
  lemma SortedFour(s: seq<nat>, r: seq<nat>)
    requires |s| == 4 && |r| == 4
    requires Sorted(r) && multiset(r) == multiset(s)
    ensures Occurrences(r[0], s[0], s[1], s[2], s[3]) >= 1
    ensures r[0] <= s[0] && r[0] <= s[1] && r[0] <= s[2] && r[0] <= s[3]
    ensures r[0] == r[1] <==> Occurrences(r[0], s[0], s[1], s[2], s[3]) >= 2
  {
    assert s == [s[0], s[1], s[2], s[3]];
    assert r == [r[0], r[1], r[2], r[3]];
    assert r[0] <= r[1] <= r[2] <= r[3];
    SortedHeadOfFour(s[0], s[1], s[2], s[3], r[0], r[1], r[2], r[3]);
  }

  /** With `m` the lowest of four counters and present among them, sharing
      `m` is the same as a tie at the minimum. */
  lemma TiedAtMinimumOfFour(t: seq<nat>, m: nat)
    requires |t| == 4 && IsLowest(t, m) && Occurrences(m, t[0], t[1], t[2], t[3]) >= 1
    ensures TiedAtMinimum(t) <==> Occurrences(m, t[0], t[1], t[2], t[3]) >= 2
    ensures Occurrences(m, t[0], t[1], t[2], t[3]) == 1 ==>
      exists c | 0 <= c < 4 :: t[c] == m && UniqueMinimumAt(t, c)
  {
    if Occurrences(m, t[0], t[1], t[2], t[3]) >= 2 {
      var i, j :| 0 <= i < j < 4 && t[i] == m && t[j] == m;
      assert t[i] == t[j] && IsLowest(t, t[i]);
    }
    if TiedAtMinimum(t) {
      var i, j :| 0 <= i < j < 4 && t[i] == t[j] && IsLowest(t, t[i]);
      assert t[i] == m;
    }
    if Occurrences(m, t[0], t[1], t[2], t[3]) == 1 {
      var c :| 0 <= c < 4 && t[c] == m;
      assert UniqueMinimumAt(t, c);
    }
  }

  /** The decision step, given the facts `SortedFour` establishes about
      the sorted counters. */
  lemma DecideOnSorted(v: Vote, r: seq<nat>)
    requires |r| == 4
    requires Occurrences(r[0], v.yesCount, v.noCount, v.abstainCount, v.noWithVetoCount) >= 1
    requires r[0] <= v.yesCount && r[0] <= v.noCount && r[0] <= v.abstainCount && r[0] <= v.noWithVetoCount
    requires r[0] == r[1] <==> Occurrences(r[0], v.yesCount, v.noCount, v.abstainCount, v.noWithVetoCount) >= 2
    ensures Decide(v, r) == TIE <==> TiedAtMinimum(Tally(v))
    ensures forall c | 0 <= c < 4 :: Decide(v, r) == c <==> UniqueMinimumAt(Tally(v), c)
  {
    var t := Tally(v);
    var m := r[0];
    assert Occurrences(m, t[0], t[1], t[2], t[3]) == Occurrences(m, v.yesCount, v.noCount, v.abstainCount, v.noWithVetoCount);
    assert IsLowest(t, m);
    TiedAtMinimumOfFour(t, m);
    forall c | 0 <= c < 4
      ensures UniqueMinimumAt(t, c) ==> t[c] == m
    {
      if UniqueMinimumAt(t, c) {
        var i :| 0 <= i < 4 && t[i] == m;
        assert i == c;
      }
    }
  }

  /** `get_winner` answers 4 exactly when the two smallest counters are
      equal; equality among larger counters is never looked at. */
  lemma GetWinnerIsTieIff(v: Vote)
    ensures GetWinner(v) == TIE <==> TiedAtMinimum(Tally(v))
  {
    SortedFour(VotesVec(v), SortAsc(VotesVec(v)));
    DecideOnSorted(v, SortAsc(VotesVec(v)));
  }

  /** Without a tie, `get_winner` names the one category holding the
      smallest count, and that category is the only answer. */
  lemma GetWinnerIsUniqueMinimum(v: Vote, c: int)
    requires 0 <= c < 4
    ensures GetWinner(v) == c <==> UniqueMinimumAt(Tally(v), c)
  {
    SortedFour(VotesVec(v), SortAsc(VotesVec(v)));
    DecideOnSorted(v, SortAsc(VotesVec(v)));
  }

  /** The result depends only on the four counters. */
  lemma GetWinnerReadsOnlyTally(v: Vote, w: Vote)
    requires Tally(v) == Tally(w)
    ensures GetWinner(v) == GetWinner(w)
  {
    GetWinnerIsTieIff(v);
    GetWinnerIsTieIff(w);
    var c := GetWinner(v);
    if c < TIE {
      GetWinnerIsUniqueMinimum(v, c);
      GetWinnerIsUniqueMinimum(w, c);
    }
  }

  /** Yes 3, No 3, Abstain 1, NoWithVeto 0: the answer is NoWithVeto (3),
      not a tie, although the two largest counters are equal. */
  lemma GetWinnerWorkedExample(v: Vote)
    requires v.yesCount == 3 && v.noCount == 3 && v.abstainCount == 1 && v.noWithVetoCount == 0
    ensures GetWinner(v) == 3
  {
    GetWinnerIsUniqueMinimum(v, 3);
  }

  /** Four equal counters give a tie. */
  lemma GetWinnerAllEqual(v: Vote)
    requires v.yesCount == v.noCount == v.abstainCount == v.noWithVetoCount
    ensures GetWinner(v) == TIE
  {
    GetWinnerIsTieIff(v);
    assert Tally(v)[0] == Tally(v)[1];
  }
}
