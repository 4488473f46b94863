/** Tokenising of the free-text interest and skill lists (main.py:112, 115):
    Python's `str.split(", ")` and the size of the intersection of two token
    sets. Tokens are compared as exact, case-sensitive strings; nothing is
    trimmed inside a list. */
module Tokens {

  const SEPARATOR: string := ", "

  /** The two-character separator ", " starts at position `i` of `s`. */
  predicate SeparatorAt(s: string, i: int)
  {
    0 <= i && i + 1 < |s| && s[i] == ',' && s[i + 1] == ' '
  }

  predicate FreeOfSeparator(t: string)
  {
    forall i | 0 <= i < |t| :: !SeparatorAt(t, i)
  }

  /** `s.split(", ")`: the maximal separator-free pieces between the
      leftmost non-overlapping occurrences of ", ". The empty string splits
      into one empty token, as in Python. */
  function Split(s: string): (r: seq<string>)
    ensures |r| >= 1
    ensures r[0] <= s
    decreases |s|
  {
    if |s| < 2 then [s]
    else if s[0] == ',' && s[1] == ' ' then [""] + Split(s[2..])
    else
      var rest := Split(s[1..]);
      [[s[0]] + rest[0]] + rest[1..]
  }

  /** No token of a split contains the separator. */
  lemma {:induction false} SplitTokensFreeOfSeparator(s: string)
    ensures forall k :: 0 <= k < |Split(s)| ==> FreeOfSeparator(Split(s)[k])
    decreases |s|
  {
    if |s| < 2 {
    } else if s[0] == ',' && s[1] == ' ' {
      SplitTokensFreeOfSeparator(s[2..]);
      assert Split(s)[1..] == Split(s[2..]);
    } else {
      SplitTokensFreeOfSeparator(s[1..]);
      var rest := Split(s[1..]);
      var first := [s[0]] + rest[0];
      assert FreeOfSeparator(first) by {
        forall i | 0 <= i < |first|
          ensures !SeparatorAt(first, i)
        {
          if i > 0 {
            assert SeparatorAt(first, i) == SeparatorAt(rest[0], i - 1);
          } else if |rest[0]| > 0 {
            assert first[1] == s[1];
          }
        }
      }
      assert Split(s) == [first] + rest[1..];
      forall k | 1 <= k < |Split(s)|
        ensures FreeOfSeparator(Split(s)[k])
      {
        assert Split(s)[k] == rest[k];
      }
    }
  }

  /** `", ".join(ts)`, the inverse of Split (also how main.py:153 lists job
      titles). */
  function Join(ts: seq<string>): string
  {
    if |ts| == 0 then ""
    else if |ts| == 1 then ts[0]
    else ts[0] + SEPARATOR + Join(ts[1..])
  }

  /** Splitting loses nothing: joining the pieces back gives the input. */
  lemma {:induction false} JoinSplit(s: string)
    ensures Join(Split(s)) == s
    decreases |s|
  {
    if |s| < 2 {
    } else if s[0] == ',' && s[1] == ' ' {
      JoinSplit(s[2..]);
      var rest := Split(s[2..]);
      assert Split(s) == [""] + rest;
      assert ([""] + rest)[1..] == rest;
      assert Join(Split(s)) == "" + SEPARATOR + Join(rest);
      assert s == SEPARATOR + s[2..];
    } else {
      JoinSplit(s[1..]);
      var rest := Split(s[1..]);
      var first := [s[0]] + rest[0];
      assert Split(s) == [first] + rest[1..];
      if |rest| == 1 {
        assert Join(Split(s)) == first;
      } else {
        assert ([first] + rest[1..])[1..] == rest[1..];
        assert Join(Split(s)) == first + SEPARATOR + Join(rest[1..]);
        assert Join(rest) == rest[0] + SEPARATOR + Join(rest[1..]);
      }
      assert s == [s[0]] + s[1..];
    }
  }

  /** A separator-free token followed by ", " is split off as one token. */
  lemma {:induction false} SplitAfterToken(t: string, u: string)
    requires FreeOfSeparator(t)
    ensures Split(t + SEPARATOR + u) == [t] + Split(u)
    decreases |t|
  {
    var s := t + SEPARATOR + u;
    if |t| == 0 {
      assert s == SEPARATOR + u;
      assert s[2..] == u;
    } else {
      assert !(s[0] == ',' && s[1] == ' ') by {
        if |t| >= 2 {
          assert !SeparatorAt(t, 0);
        }
      }
      FreeOfSeparatorTail(t);
      SplitAfterToken(t[1..], u);
      assert s[1..] == t[1..] + SEPARATOR + u;
      assert [s[0]] + t[1..] == t;
    }
  }

  lemma FreeOfSeparatorTail(t: string)
    requires |t| > 0 && FreeOfSeparator(t)
    ensures FreeOfSeparator(t[1..])
  {
    forall i | 0 <= i < |t[1..]|
      ensures !SeparatorAt(t[1..], i)
    {
      assert SeparatorAt(t[1..], i) == SeparatorAt(t, i + 1);
    }
  }

  /** A separator-free string is a single token. */
  lemma {:induction false} SplitSingle(t: string)
    requires FreeOfSeparator(t)
    ensures Split(t) == [t]
    decreases |t|
  {
    if |t| >= 2 {
      assert !SeparatorAt(t, 0);
      FreeOfSeparatorTail(t);
      SplitSingle(t[1..]);
      assert [t[0]] + t[1..] == t;
    }
  }

  /** Joining separator-free tokens and splitting again gives the tokens
      back: with JoinSplit, Split and Join are inverse bijections. */
  lemma {:induction false} SplitJoin(ts: seq<string>)
    requires |ts| >= 1
    requires forall k :: 0 <= k < |ts| ==> FreeOfSeparator(ts[k])
    ensures Split(Join(ts)) == ts
    decreases |ts|
  {
    if |ts| == 1 {
      SplitSingle(ts[0]);
    } else {
      SplitAfterToken(ts[0], Join(ts[1..]));
      SplitJoin(ts[1..]);
      assert ts == [ts[0]] + ts[1..];
    }
  }

  /** Python's `set(s.split(", "))`. */
  function TokenSet(s: string): set<string>
  {
    set t | t in Split(s)
  }

  /** No token of `row` occurs in `query`. */
  predicate Disjoint(row: string, query: string)
  {
    forall t :: t in Split(row) ==> t !in Split(query)
  }

  /** `len(set(row.split(", ")) & set(query.split(", ")))`. */
  function Overlap(row: string, query: string): (n: nat)
    ensures n <= |TokenSet(query)| && n <= |TokenSet(row)|
    ensures n == 0 <==> Disjoint(row, query)
  {
    var shared := TokenSet(row) * TokenSet(query);
    SubsetCardinality(shared, TokenSet(query));
    SubsetCardinality(shared, TokenSet(row));
    NoSharedToken(row, query);
    |shared|
  }

  lemma NoSharedToken(row: string, query: string)
    ensures TokenSet(row) * TokenSet(query) == {} <==> Disjoint(row, query)
  {
    var shared := TokenSet(row) * TokenSet(query);
    if shared != {} {
      var t :| t in shared;
      assert t in Split(row) && t in Split(query);
    } else {
      forall t | t in Split(row)
        ensures t !in Split(query)
      {
        assert t in TokenSet(row);
        assert t in Split(query) ==> t in shared;
      }
    }
  }

  lemma {:induction false} SubsetCardinality<T>(a: set<T>, b: set<T>)
    requires a <= b
    ensures |a| <= |b|
    decreases b
  {
    if a != {} {
      var x :| x in a;
      SubsetCardinality(a - {x}, b - {x});
    }
  }

  /** For example, the interests "ai, data science" against the query
      "ai, ml" share exactly "ai". (Stated over parameters so that the verifier does not
      unfold Split on a literal.) */
  lemma OverlapExample(row: string, query: string)
    requires row == "ai, data science" && query == "ai, ml"
    ensures Overlap(row, query) == 1
  {
    assert row == "ai" + SEPARATOR + "data science";
    assert query == "ai" + SEPARATOR + "ml";
    SplitTwo("ai", "data science");
    SplitTwo("ai", "ml");
    assert TokenSet(row) == {"ai", "data science"};
    assert TokenSet(query) == {"ai", "ml"};
    assert TokenSet(row) * TokenSet(query) == {"ai"};
  }

  /** For example, the skills "python, sql" against the query "python"
      share exactly "python". */
  lemma SkillOverlapExample(row: string, query: string)
    requires row == "python, sql" && query == "python"
    ensures Overlap(row, query) == 1
  {
    assert row == "python" + SEPARATOR + "sql";
    SplitTwo("python", "sql");
    SplitSingle(query);
    assert TokenSet(row) * TokenSet(query) == {"python"};
  }

  /** A token repeated in the row counts once. */
  lemma DuplicateTokensCountOnce(row: string, query: string)
    requires row == "python, python" && query == "python"
    ensures Overlap(row, query) == 1
  {
    assert row == "python" + SEPARATOR + "python";
    SplitTwo("python", "python");
    SplitSingle(query);
    assert TokenSet(row) == {"python"};
    assert TokenSet(query) == {"python"};
  }

  /** Matching is exact: it is case-sensitive, a space left in front of an
      entry makes it a different token, and a comma without the space does
      not separate ("ai,ml" is one token, equal to neither "ai" nor "ml"). */
  lemma ExactMatchOnly(upper: string, lower: string, spaced: string, glued: string, list: string)
    requires upper == "AI" && lower == "ai" && spaced == " ai" && glued == "ai,ml" && list == "ai, ml"
    ensures Overlap(upper, lower) == 0
    ensures Overlap(spaced, lower) == 0
    ensures Overlap(glued, list) == 0
  {
    assert !SeparatorAt(spaced, 0) && !SeparatorAt(spaced, 1);
    SplitSingle(spaced);
    SplitSingle(upper);
    SplitSingle(lower);
    assert !SeparatorAt(glued, 2);
    SplitSingle(glued);
    assert list == "ai" + SEPARATOR + "ml";
    SplitTwo("ai", "ml");
  }

  lemma SplitTwo(a: string, b: string)
    requires FreeOfSeparator(a) && FreeOfSeparator(b)
    ensures Split(a + SEPARATOR + b) == [a, b]
  {
    SplitAfterToken(a, b);
    SplitSingle(b);
  }

}
