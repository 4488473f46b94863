/** Scoring and ranking of the filtered rows (main.py:111-119): the
    "Interest Match", "Skill Match" and "Total Match" columns and
    `sort_values(by="Total Match", ascending=False).head(5)`. */
module Ranking {
  import opened Tokens
  import opened Profiles

  /** Number of rows `head` keeps (main.py:119). */
  const TOP_COUNT: nat := 5

  /** A filtered row together with its two match columns. */
  datatype Scored = Scored(profile: Profile, interestMatch: nat, skillMatch: nat)
  {
    /** The "Total Match" column. */
    function Total(): nat
    {
      interestMatch + skillMatch
    }
  }

  /** The number of distinct tokens in the query's two lists: no row can
      score more than this. */
  function QueryTokenCount(q: Query): nat
  {
    |TokenSet(q.interests)| + |TokenSet(q.skills)|
  }

  /** The three match columns of one row (main.py:111-117). */
  function Score(p: Profile, q: Query): (r: Scored)
    ensures r.profile == p
    ensures r.Total() <= QueryTokenCount(q)
    ensures r.interestMatch <= |TokenSet(p.interests)| && r.skillMatch <= |TokenSet(p.skills)|
    ensures r.Total() == 0 <==> Disjoint(p.interests, q.interests) && Disjoint(p.skills, q.skills)
  {
    var interestMatch := Overlap(p.interests, q.interests);
    var skillMatch := Overlap(p.skills, q.skills);
    Scored(p, interestMatch, skillMatch)
  }

  /** `.apply` of the scoring lambdas over every filtered row. */
  function ScoreAll(rows: seq<Profile>, q: Query): (r: seq<Scored>)
    ensures |r| == |rows|
    ensures forall i :: 0 <= i < |r| ==> r[i] == Score(rows[i], q)
  {
    if rows == [] then []
    else [Score(rows[0], q)] + ScoreAll(rows[1..], q)
  }

  /** Non-increasing "Total Match" from front to back. */
  predicate SortedByTotal(s: seq<Scored>)
  {
    forall i, j :: 0 <= i < j < |s| ==> s[i].Total() >= s[j].Total()
  }

  /** Any order `sort_values(ascending=False)` may produce: a permutation of
      the scored rows with non-increasing totals. pandas' default sort is not
      stable, so the order among equal totals is not fixed by the source. */
  ghost predicate IsRanking(scored: seq<Scored>, ranked: seq<Scored>)
  {
    SortedByTotal(ranked) && multiset(ranked) == multiset(scored)
  }

  /** Places `x` in front of the first row whose total does not exceed its
      own, so `x` precedes the rows it ties with. */
  function Insert(x: Scored, s: seq<Scored>): (r: seq<Scored>)
    ensures multiset(r) == multiset(s) + multiset{x}
    ensures |r| == |s| + 1
  {
    if s == [] then [x]
    else if s[0].Total() <= x.Total() then [x] + s
    else
      assert s == [s[0]] + s[1..];
      [s[0]] + Insert(x, s[1..])
  }

  lemma {:induction false} InsertKeepsSorted(x: Scored, s: seq<Scored>)
    requires SortedByTotal(s)
    ensures SortedByTotal(Insert(x, s))
    decreases |s|
  {
    if s != [] && s[0].Total() > x.Total() {
      var rest := Insert(x, s[1..]);
      InsertKeepsSorted(x, s[1..]);
      forall j | 0 <= j < |rest|
        ensures rest[j].Total() <= s[0].Total()
      {
        assert rest[j] in multiset(rest);
        assert rest[j] == x || rest[j] in s[1..];
      }
    }
  }

  /** The ranking this model uses: a stable insertion sort by descending
      total. */
  function RankByTotal(s: seq<Scored>): (r: seq<Scored>)
    ensures IsRanking(s, r)
    ensures |r| == |s|
  {
    if s == [] then []
    else
      assert s == [s[0]] + s[1..];
      InsertKeepsSorted(s[0], RankByTotal(s[1..]));
      Insert(s[0], RankByTotal(s[1..]))
  }

  /** The rows of `s` whose total is `v`, in order. */
  function WithTotal(s: seq<Scored>, v: nat): seq<Scored>
  {
    if s == [] then []
    else (if s[0].Total() == v then [s[0]] else []) + WithTotal(s[1..], v)
  }

  lemma WithTotalCons(y: Scored, t: seq<Scored>, v: nat)
    ensures WithTotal([y] + t, v) == (if y.Total() == v then [y] else []) + WithTotal(t, v)
  {
    assert ([y] + t)[1..] == t;
  }

  lemma {:induction false} InsertWithTotal(x: Scored, s: seq<Scored>, v: nat)
    ensures WithTotal(Insert(x, s), v) == (if x.Total() == v then [x] else []) + WithTotal(s, v)
    decreases |s|
  {
    if s == [] {
      WithTotalCons(x, [], v);
    } else if s[0].Total() <= x.Total() {
      WithTotalCons(x, s, v);
    } else {
      var rest := Insert(x, s[1..]);
      assert Insert(x, s) == [s[0]] + rest;
      WithTotalCons(s[0], rest, v);
      InsertWithTotal(x, s[1..], v);
      assert s[0].Total() != v || x.Total() != v;
    }
  }

  /** Among rows with equal totals, RankByTotal keeps the table order. This
      is a choice of the model: pandas leaves that order open, and none of
      the other properties here depend on it. */
  lemma {:induction false} RankIsStable(s: seq<Scored>, v: nat)
    ensures WithTotal(RankByTotal(s), v) == WithTotal(s, v)
    decreases |s|
  {
    if s != [] {
      RankIsStable(s[1..], v);
      InsertWithTotal(s[0], RankByTotal(s[1..]), v);
    }
  }

  /** How many rows of `s` score strictly more than `v`. */
  function CountAbove(s: seq<Scored>, v: nat): nat
  {
    if s == [] then 0
    else (if s[0].Total() > v then 1 else 0) + CountAbove(s[1..], v)
  }

  lemma {:induction false} CountAboveAppend(s: seq<Scored>, t: seq<Scored>, v: nat)
    ensures CountAbove(s + t, v) == CountAbove(s, v) + CountAbove(t, v)
    decreases |s|
  {
    if s == [] {
      assert s + t == t;
    } else {
      CountAboveAppend(s[1..], t, v);
      assert (s + t)[1..] == s[1..] + t;
    }
  }

  /** CountAbove depends only on which rows there are, not on their order. */
  lemma {:induction false} CountAbovePermutation(s: seq<Scored>, t: seq<Scored>, v: nat)
    requires multiset(s) == multiset(t)
    ensures CountAbove(s, v) == CountAbove(t, v)
    decreases |s|
  {
    if s != [] {
      var x := s[0];
      assert x in multiset(t);
      var k :| 0 <= k < |t| && t[k] == x;
      assert t == t[..k] + [x] + t[k + 1..];
      var others := t[..k] + t[k + 1..];
      assert s == [x] + s[1..];
      assert multiset(t) == multiset(t[..k]) + multiset{x} + multiset(t[k + 1..]);
      assert multiset(s) == multiset{x} + multiset(s[1..]);
      assert multiset(others) == multiset(t[..k]) + multiset(t[k + 1..]);
      assert multiset(s[1..]) == multiset(s) - multiset{x};
      assert multiset(s[1..]) == multiset(others);
      CountAbovePermutation(s[1..], others, v);
      CountAboveAppend(t[..k] + [x], t[k + 1..], v);
      CountAboveAppend(t[..k], [x], v);
      CountAboveAppend(t[..k], t[k + 1..], v);
    }
  }

  lemma {:induction false} CountAboveNone(s: seq<Scored>, v: nat)
    requires forall j :: 0 <= j < |s| ==> s[j].Total() <= v
    ensures CountAbove(s, v) == 0
    decreases |s|
  {
    if s != [] {
      CountAboveNone(s[1..], v);
    }
  }

  /** In a sorted sequence only rows in front of position `i` can outscore
      the row at `i`. */
  lemma {:induction false} CountAboveSorted(s: seq<Scored>, i: nat)
    requires SortedByTotal(s) && i < |s|
    ensures CountAbove(s, s[i].Total()) <= i
    decreases i
  {
    if i == 0 {
      CountAboveNone(s, s[0].Total());
    } else {
      assert s[1..][i - 1] == s[i];
      CountAboveSorted(s[1..], i - 1);
    }
  }

  /** Whatever order the sort leaves ties in, the first `k` rows of a
      ranking are a top-k: every row left out scores at most as much as
      every row kept, and fewer than `k` scored rows outscore any kept row. */
  lemma TopOfRanking(scored: seq<Scored>, ranked: seq<Scored>, k: nat)
    requires IsRanking(scored, ranked)
    ensures forall i, j :: 0 <= i < k <= j < |ranked| ==> ranked[j].Total() <= ranked[i].Total()
    ensures forall i :: 0 <= i < k && i < |ranked| ==> CountAbove(scored, ranked[i].Total()) < k
  {
    forall i | 0 <= i < k && i < |ranked|
      ensures CountAbove(scored, ranked[i].Total()) < k
    {
      CountAboveSorted(ranked, i);
      CountAbovePermutation(ranked, scored, ranked[i].Total());
    }
  }
}
