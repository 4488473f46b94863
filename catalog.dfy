/** The job catalog ("new" table) and the lookup of job titles by category
    (main.py:121-123, 152). */
module Catalog {

  /** One row of the catalog: its "Category" and "Job Title" columns. */
  datatype JobEntry = JobEntry(category: string, title: string)

  /** Number of titles shown per recommendation (main.py:152). */
  const SHOWN_TITLES: nat := 5

  /** `list(data_new[data_new['Category'] == c]['Job Title'].values)`: the
      title of every catalog row of category `c`, once per such row. */
  function TitlesFor(catalog: seq<JobEntry>, c: string): (r: seq<string>)
    ensures |r| <= |catalog|
  {
    if catalog == [] then []
    else
      (if catalog[0].category == c then [catalog[0].title] else []) + TitlesFor(catalog[1..], c)
  }

  /** Each title occurs in the lookup as many times as the catalog pairs it
      with `c`: no title is invented, lost or merged. */
  lemma {:induction false} TitlesForCount(catalog: seq<JobEntry>, c: string, t: string)
    ensures multiset(TitlesFor(catalog, c))[t] == multiset(catalog)[JobEntry(c, t)]
    decreases |catalog|
  {
    if catalog != [] {
      TitlesForCount(catalog[1..], c, t);
      assert catalog == [catalog[0]] + catalog[1..];
    }
  }

  /** The lookup respects catalog order: the titles from a catalog made of
      two parts are those of the first part followed by those of the
      second. */
  lemma {:induction false} TitlesForAppend(a: seq<JobEntry>, b: seq<JobEntry>, c: string)
    ensures TitlesFor(a + b, c) == TitlesFor(a, c) + TitlesFor(b, c)
    decreases |a|
  {
    if a == [] {
      assert a + b == b;
    } else {
      TitlesForAppend(a[1..], b, c);
      assert (a + b)[1..] == a[1..] + b;
    }
  }

  /** A category with no catalog row gets an empty list, not an error. */
  lemma {:induction false} TitlesForUnknown(catalog: seq<JobEntry>, c: string)
    requires forall k :: 0 <= k < |catalog| ==> catalog[k].category != c
    ensures TitlesFor(catalog, c) == []
    decreases |catalog|
  {
    if catalog != [] {
      TitlesForUnknown(catalog[1..], c);
    }
  }

  /** `row['Job Titles'][:5]`: the first titles, at most five. */
  function Shown(titles: seq<string>): (r: seq<string>)
    ensures r <= titles
    ensures |r| == if |titles| < SHOWN_TITLES then |titles| else SHOWN_TITLES
  {
    if |titles| < SHOWN_TITLES then titles else titles[..SHOWN_TITLES]
  }
}
