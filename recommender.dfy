/** `filter_jobs` (main.py:100-127): filter, score, rank, keep the top five,
    attach job titles, then keep one row per mapped category. */
module Recommender {
  import opened Util
  import opened Tokens
  import opened Profiles
  import opened Ranking
  import opened Catalog

  /** A ranked row with its "Job Titles" column (main.py:121-123). */
  datatype Recommendation = Recommendation(entry: Scored, jobTitles: seq<string>)
  {
    /** The row's "Mapped Category". */
    function Category(): string
    {
      entry.profile.category
    }
  }

  function Categories(s: seq<Recommendation>): set<string>
  {
    set x | x in s :: x.Category()
  }

  lemma CategoriesCons(x: Recommendation, s: seq<Recommendation>)
    ensures Categories([x] + s) == {x.Category()} + Categories(s)
  {
    assert forall y :: y in [x] + s <==> y == x || y in s;
  }

  /** `.apply` of the title lookup to every kept row. */
  function AttachTitles(top: seq<Scored>, catalog: seq<JobEntry>): (r: seq<Recommendation>)
    ensures |r| == |top|
    ensures forall i :: 0 <= i < |r| ==> r[i].entry == top[i]
    ensures forall i :: 0 <= i < |r| ==> r[i].jobTitles == TitlesFor(catalog, top[i].profile.category)
  {
    seq(|top|, i requires 0 <= i < |top| => Recommendation(top[i], TitlesFor(catalog, top[i].profile.category)))
  }

  /** The position of the earliest row of `s` in category `c`, or `|s|`
      when there is none. */
  function FirstIndex(s: seq<Recommendation>, c: string): (k: nat)
    ensures k <= |s|
    ensures k < |s| ==> s[k].Category() == c
    ensures forall j :: 0 <= j < k ==> s[j].Category() != c
  {
    if s == [] || s[0].Category() == c then 0
    else 1 + FirstIndex(s[1..], c)
  }

  /** Keep-first de-duplication of `s` by category, where the categories in
      `seen` have already been taken by earlier rows. */
  function KeepFirstPerCategory(s: seq<Recommendation>, seen: set<string>): (r: seq<Recommendation>)
    ensures Categories(r) == Categories(s) - seen
    ensures Subsequence(r, s)
    decreases |s|
  {
    if s == [] then []
    else
      var c := s[0].Category();
      assert s == [s[0]] + s[1..];
      CategoriesCons(s[0], s[1..]);
      if c in seen then
        KeepFirstPerCategory(s[1..], seen)
      else
        var rest := KeepFirstPerCategory(s[1..], seen + {c});
        assert ([s[0]] + rest)[1..] == rest;
        CategoriesCons(s[0], rest);
        [s[0]] + rest
  }

  /** No two rows share a category. */
  predicate DistinctCategories(s: seq<Recommendation>)
  {
    forall i, j :: 0 <= i < j < |s| ==> s[i].Category() != s[j].Category()
  }

  lemma {:induction false} KeepFirstDistinct(s: seq<Recommendation>, seen: set<string>)
    ensures DistinctCategories(KeepFirstPerCategory(s, seen))
    decreases |s|
  {
    if s != [] {
      var c := s[0].Category();
      if c in seen {
        KeepFirstDistinct(s[1..], seen);
        assert KeepFirstPerCategory(s, seen) == KeepFirstPerCategory(s[1..], seen);
      } else {
        var rest := KeepFirstPerCategory(s[1..], seen + {c});
        KeepFirstDistinct(s[1..], seen + {c});
        var r := [s[0]] + rest;
        assert KeepFirstPerCategory(s, seen) == r;
        assert c !in Categories(rest);
        forall i, j | 0 <= i < j < |r|
          ensures r[i].Category() != r[j].Category()
        {
          if i == 0 {
            assert r[j] == rest[j - 1];
            assert rest[j - 1].Category() in Categories(rest);
          } else {
            assert r[i] == rest[i - 1] && r[j] == rest[j - 1];
          }
        }
      }
    }
  }

  /** Each survivor is the earliest row of its category, and the survivors
      come in the order in which their categories first occur. */
  predicate FirstsInOrder(r: seq<Recommendation>, s: seq<Recommendation>)
  {
    && (forall i :: 0 <= i < |r| ==>
          FirstIndex(s, r[i].Category()) < |s| && s[FirstIndex(s, r[i].Category())] == r[i])
    && (forall i, j :: 0 <= i < j < |r| ==>
          FirstIndex(s, r[i].Category()) < FirstIndex(s, r[j].Category()))
  }

  /** Rows that are in order in the tail of `s` stay in order in `s` when
      the head's category is not among theirs. */
  lemma FirstsInOrderTail(r: seq<Recommendation>, s: seq<Recommendation>)
    requires s != [] && FirstsInOrder(r, s[1..])
    requires forall i :: 0 <= i < |r| ==> r[i].Category() != s[0].Category()
    ensures FirstsInOrder(r, s)
  {
    forall i | 0 <= i < |r|
      ensures FirstIndex(s, r[i].Category()) == 1 + FirstIndex(s[1..], r[i].Category())
    {
    }
  }

  /** Putting the head of `s` in front of such rows keeps them in order. */
  lemma FirstsInOrderCons(rest: seq<Recommendation>, s: seq<Recommendation>)
    requires s != [] && FirstsInOrder(rest, s[1..])
    requires forall i :: 0 <= i < |rest| ==> rest[i].Category() != s[0].Category()
    ensures FirstsInOrder([s[0]] + rest, s)
  {
    FirstsInOrderTail(rest, s);
    var r := [s[0]] + rest;
    assert FirstIndex(s, s[0].Category()) == 0;
    assert forall i :: 0 < i < |r| ==> r[i] == rest[i - 1];
  }

  lemma {:induction false} KeepFirstIsFirst(s: seq<Recommendation>, seen: set<string>)
    ensures FirstsInOrder(KeepFirstPerCategory(s, seen), s)
    decreases |s|
  {
    if s != [] {
      var c := s[0].Category();
      var t := s[1..];
      if c in seen {
        var r := KeepFirstPerCategory(t, seen);
        KeepFirstIsFirst(t, seen);
        assert forall i :: 0 <= i < |r| ==> r[i].Category() in Categories(r);
        FirstsInOrderTail(r, s);
      } else {
        var rest := KeepFirstPerCategory(t, seen + {c});
        KeepFirstIsFirst(t, seen + {c});
        assert forall i :: 0 <= i < |rest| ==> rest[i].Category() in Categories(rest);
        FirstsInOrderCons(rest, s);
      }
    }
  }

  /** `drop_duplicates(subset=["Mapped Category"])` (main.py:125): no two
      rows share a category, every category present is still present, each
      survivor is the earliest row of its category, and the survivors come
      in the order their categories first occur. Together these determine
      the result. */
  function DropDuplicateCategories(s: seq<Recommendation>): (r: seq<Recommendation>)
    ensures DistinctCategories(r)
    ensures Categories(r) == Categories(s)
    ensures forall i :: 0 <= i < |r| ==>
      FirstIndex(s, r[i].Category()) < |s| && s[FirstIndex(s, r[i].Category())] == r[i]
    ensures forall i, j :: 0 <= i < j < |r| ==>
      FirstIndex(s, r[i].Category()) < FirstIndex(s, r[j].Category())
    ensures Subsequence(r, s)
    ensures |r| <= |s|
  {
    var r := KeepFirstPerCategory(s, {});
    KeepFirstDistinct(s, {});
    KeepFirstIsFirst(s, {});
    SubsequenceMembers(r, s);
    r
  }

  /** The positions in `s` at which the rows of `r` first occur. */
  function FirstIndices(r: seq<Recommendation>, s: seq<Recommendation>): seq<int>
  {
    seq(|r|, i requires 0 <= i < |r| => FirstIndex(s, r[i].Category()))
  }

  /** The contract of DropDuplicateCategories leaves no freedom: any
      sequence with the categories of `s`, made of the earliest row of each
      category in the order the categories first occur, is its result. */
  lemma DropDuplicatesUnique(s: seq<Recommendation>, r: seq<Recommendation>)
    requires Categories(r) == Categories(s)
    requires FirstsInOrder(r, s)
    ensures r == DropDuplicateCategories(s)
  {
    var d := DropDuplicateCategories(s);
    var x := FirstIndices(r, s);
    var y := FirstIndices(d, s);
    forall v
      ensures v in x <==> v in y
    {
      if v in x {
        var i :| 0 <= i < |x| && x[i] == v;
        assert r[i].Category() in Categories(d);
        var k :| 0 <= k < |d| && d[k].Category() == r[i].Category();
        assert y[k] == v;
      }
      if v in y {
        var i :| 0 <= i < |y| && y[i] == v;
        assert d[i].Category() in Categories(r);
        var k :| 0 <= k < |r| && r[k].Category() == d[i].Category();
        assert x[k] == v;
      }
    }
    IncreasingEnumerationUnique(x, y);
    assert forall i :: 0 <= i < |r| ==> r[i] == s[x[i]] == s[y[i]] == d[i];
  }

  function Min(a: nat, b: nat): nat
  {
    if a < b then a else b
  }

  /** The scored candidates of `filter_jobs`, before ranking: one per
      eligible row. */
  function Candidates(table: seq<Profile>, q: Query): (r: seq<Scored>)
    ensures |r| == |FilterRows(table, q)|
  {
    ScoreAll(FilterRows(table, q), q)
  }

  /** The candidates are exactly the eligible rows of the table, each with
      its own match columns, and there are none exactly when no row is
      eligible. */
  lemma CandidatesAreEligibleRows(table: seq<Profile>, q: Query)
    ensures forall x :: x in Candidates(table, q) <==>
      x.profile in table && Eligible(x.profile, q) && x == Score(x.profile, q)
    ensures Candidates(table, q) == [] <==> forall p :: p in table ==> !Eligible(p, q)
  {
    var rows := FilterRows(table, q);
    var r := Candidates(table, q);
    forall x | x in r
      ensures x.profile in rows && x == Score(x.profile, q)
    {
      var i :| 0 <= i < |r| && r[i] == x;
      assert rows[i] == x.profile;
    }
    forall p | p in rows
      ensures Score(p, q) in r
    {
      var i :| 0 <= i < |rows| && rows[i] == p;
      assert r[i] == Score(p, q);
    }
    assert rows != [] ==> rows[0] in rows;
  }

  /** main.py:119-125 applied to a ranking: `head(5)`, the title lookup,
      then `drop_duplicates`. */
  function TopRecommendations(ranked: seq<Scored>, catalog: seq<JobEntry>): (r: seq<Recommendation>)
    ensures |r| <= TOP_COUNT
    ensures DistinctCategories(r)
  {
    DropDuplicateCategories(AttachTitles(ranked[..Min(TOP_COUNT, |ranked|)], catalog))
  }

  /** Whichever order the sort leaves equal totals in: every recommendation
      is a scored candidate with the catalog titles of its category, fewer
      than five candidates outscore it, the recommendations come in
      non-increasing order of total, and there is at least one as soon as
      there is a candidate. */
  lemma TopRecommendationsOfRanking(scored: seq<Scored>, ranked: seq<Scored>, catalog: seq<JobEntry>)
    requires IsRanking(scored, ranked)
    ensures forall x :: x in TopRecommendations(ranked, catalog) ==>
      && x.entry in scored
      && x.jobTitles == TitlesFor(catalog, x.Category())
      && CountAbove(scored, x.entry.Total()) < TOP_COUNT
    ensures var r := TopRecommendations(ranked, catalog);
      forall i, j :: 0 <= i < j < |r| ==> r[i].entry.Total() >= r[j].entry.Total()
    ensures TopRecommendations(ranked, catalog) == [] <==> scored == []
  {
    var top := ranked[..Min(TOP_COUNT, |ranked|)];
    var recs := AttachTitles(top, catalog);
    var r := DropDuplicateCategories(recs);
    TopOfRanking(scored, ranked, TOP_COUNT);
    SubsequenceKeepsOrder(r, recs, (a: Recommendation, b: Recommendation) => a.entry.Total() >= b.entry.Total());
    SubsequenceMembers(r, recs);
    forall x | x in r
      ensures x.entry in scored
      ensures x.jobTitles == TitlesFor(catalog, x.Category())
      ensures CountAbove(scored, x.entry.Total()) < TOP_COUNT
    {
      var i :| 0 <= i < |recs| && recs[i] == x;
      assert x.entry == ranked[i];
      assert ranked[i] in multiset(scored);
    }
    if scored != [] {
      assert |ranked| == |multiset(scored)|;
      assert recs[0] in recs;
      assert recs[0].Category() in Categories(recs);
    }
  }

  /** `filter_jobs(data_old, data_new, ...)`. */
  function FilterJobs(table: seq<Profile>, catalog: seq<JobEntry>, q: Query): (r: seq<Recommendation>)
    ensures |r| <= TOP_COUNT
    ensures DistinctCategories(r)
  {
    TopRecommendations(RankByTotal(Candidates(table, q)), catalog)
  }

  /** Every recommendation comes from an eligible row of the table, carries
      that row's own match scores and exactly the catalog titles of its
      category; fewer than five candidates outscore it; the recommendations
      come in non-increasing order of total; and "no recommendations"
      happens exactly when no row passes the filter. */
  lemma FilterJobsCorrect(table: seq<Profile>, catalog: seq<JobEntry>, q: Query)
    ensures forall x :: x in FilterJobs(table, catalog, q) ==>
      && x.entry.profile in table
      && Eligible(x.entry.profile, q)
      && x.entry == Score(x.entry.profile, q)
      && x.jobTitles == TitlesFor(catalog, x.Category())
      && CountAbove(Candidates(table, q), x.entry.Total()) < TOP_COUNT
    ensures var r := FilterJobs(table, catalog, q);
      forall i, j :: 0 <= i < j < |r| ==> r[i].entry.Total() >= r[j].entry.Total()
    ensures FilterJobs(table, catalog, q) == [] <==> FilterRows(table, q) == []
  {
    var candidates := Candidates(table, q);
    TopRecommendationsOfRanking(candidates, RankByTotal(candidates), catalog);
    CandidatesAreEligibleRows(table, q);
  }

  /** A table with a single eligible row yields that row alone, with its
      score and its category's titles. */
  lemma SingleEligibleRow(row: Profile, catalog: seq<JobEntry>, q: Query)
    requires Eligible(row, q)
    ensures FilterJobs([row], catalog, q) == [Recommendation(Score(row, q), TitlesFor(catalog, row.category))]
  {
    var scored := Score(row, q);
    assert FilterRows([row], q) == [row];
    assert Candidates([row], q) == [scored];
    assert RankByTotal([scored]) == [scored];
    var rec := Recommendation(scored, TitlesFor(catalog, row.category));
    assert AttachTitles([scored], catalog) == [rec];
    assert KeepFirstPerCategory([rec], {}) == [rec];
  }

  /** A one-row table: the row passes the filter (3.60 >= 3.50), shares
      "ai" and "python" with the query, and comes back alone with total 2
      and the catalog titles of "Data Science". */
  lemma SingleRowExample(row: Profile, catalog: seq<JobEntry>, q: Query)
    requires row == Profile(0, "CS", 360, 1, 1, "ai, data science", "python, sql", "Data Science")
    requires catalog == [JobEntry("Data Science", "Data Analyst"), JobEntry("Web", "Frontend Developer")]
    requires q == Query(0, "CS", "ai, ml", "python", 350, 1, 1)
    ensures FilterJobs([row], catalog, q) == [Recommendation(Scored(row, 1, 1), ["Data Analyst"])]
  {
    OverlapExample(row.interests, q.interests);
    SkillOverlapExample(row.skills, q.skills);
    assert TitlesFor(catalog, row.category) == ["Data Analyst"];
    SingleEligibleRow(row, catalog, q);
  }
}
