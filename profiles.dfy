/** The table of past profiles and the candidate filter of `filter_jobs`
    (main.py:100-109). */
module Profiles {
  import opened Util

  /** One row of the profile table. `cgpa` is the "Average CGPA/Percentage"
      column in fixed point (hundredths), so that 3.6 is 360. The categorical
      columns keep the integer codes the user interface maps its choices to
      (gender 0/1/2, certification 0/1, working status 0/1). */
  datatype Profile = Profile(
    gender: int,
    major: string,
    cgpa: int,
    certification: int,
    workingStatus: int,
    interests: string,
    skills: string,
    category: string)

  /** What the user asks for; `minCgpa` is in hundredths like `Profile.cgpa`. */
  datatype Query = Query(
    gender: int,
    major: string,
    interests: string,
    skills: string,
    minCgpa: int,
    certification: int,
    workingStatus: int)

  /** The boolean mask of main.py:101-108: four exact equalities and an
      inclusive lower bound on the CGPA. */
  predicate Eligible(p: Profile, q: Query)
  {
    && p.gender == q.gender
    && p.major == q.major
    && p.cgpa >= q.minCgpa
    && p.certification == q.certification
    && p.workingStatus == q.workingStatus
  }

  /** `data_old[mask].copy()`: the eligible rows, in table order. The table
      itself is a value and is left as it was. */
  function FilterRows(table: seq<Profile>, q: Query): (r: seq<Profile>)
    ensures forall p :: p in r <==> p in table && Eligible(p, q)
    ensures forall p :: multiset(r)[p] == if Eligible(p, q) then multiset(table)[p] else 0
    ensures Subsequence(r, table)
    ensures |r| <= |table|
  {
    if table == [] then []
    else
      var rest := FilterRows(table[1..], q);
      assert table == [table[0]] + table[1..];
      if Eligible(table[0], q) then [table[0]] + rest else rest
  }
}
