/** One press of the search button (main.py:86-87, 94, 129-145): the text
    fields are stripped, an empty interest or skill list is refused before
    anything is computed, and otherwise `filter_jobs` runs and the category
    predictor is asked for a label. */
module App {
  import opened Util
  import opened Profiles
  import opened Catalog
  import opened Recommender
  import opened Predictor

  /** The characters Python's `str.isspace` accepts, which `str.strip()`
      removes from both ends. */
  predicate IsSpace(c: char)
  {
    || c == '\t' || c == '\n' || c == '\U{000B}' || c == '\U{000C}' || c == '\r'
    || c == '\U{001C}' || c == '\U{001D}' || c == '\U{001E}' || c == '\U{001F}'
    || c == ' ' || c == '\U{0085}' || c == '\U{00A0}' || c == '\U{1680}'
    || ('\U{2000}' <= c <= '\U{200A}')
    || c == '\U{2028}' || c == '\U{2029}' || c == '\U{202F}' || c == '\U{205F}' || c == '\U{3000}'
  }

  predicate AllSpace(s: string)
  {
    forall k :: 0 <= k < |s| ==> IsSpace(s[k])
  }

  /** The number of whitespace characters `s` starts with. */
  function LeadingSpace(s: string): (n: nat)
    ensures n <= |s| && AllSpace(s[..n])
    ensures n == |s| || !IsSpace(s[n])
  {
    if s == [] || !IsSpace(s[0]) then 0
    else
      var m := LeadingSpace(s[1..]);
      assert s[..m + 1] == [s[0]] + s[1..][..m];
      m + 1
  }

  /** The number of whitespace characters `s` ends with. */
  function TrailingSpace(s: string): (n: nat)
    ensures n <= |s| && AllSpace(s[|s| - n..])
    ensures n == |s| || !IsSpace(s[|s| - n - 1])
  {
    if s == [] || !IsSpace(s[|s| - 1]) then 0
    else
      var init := s[..|s| - 1];
      var m := TrailingSpace(init);
      assert s[|s| - (m + 1)..] == init[|init| - m..] + [s[|s| - 1]];
      m + 1
  }

  /** `s.strip()`: what lies between the leading and the trailing
      whitespace. It is empty exactly when `s` is all whitespace, and
      otherwise starts and ends with a non-whitespace character. */
  function Strip(s: string): (r: string)
    ensures r == [] <==> AllSpace(s)
    ensures r == [] || (!IsSpace(r[0]) && !IsSpace(r[|r| - 1]))
    ensures LeadingSpace(s) + |r| <= |s|
    ensures r == s[LeadingSpace(s)..LeadingSpace(s) + |r|]
    ensures AllSpace(s[LeadingSpace(s) + |r|..])
  {
    var i := LeadingSpace(s);
    var rest := s[i..];
    var j := TrailingSpace(rest);
    var r := rest[..|rest| - j];
    assert rest[|rest| - j..] == s[i + |r|..];
    assert r == [] <==> AllSpace(s) by {
      if r == [] {
        assert j == |rest|;
        assert s == s[..i] + rest;
      } else {
        assert r[0] == s[i] && i < |s|;
      }
    }
    assert r != [] ==> r[|r| - 1] == rest[|rest| - j - 1];
    r
  }

  /** Stripping a stripped field changes nothing. */
  lemma StripIdempotent(s: string)
    ensures Strip(Strip(s)) == Strip(s)
  {
    var r := Strip(s);
    assert LeadingSpace(r) == 0;
    assert TrailingSpace(r) == 0;
    assert r[0..|r| - 0] == r;
  }

  /** What the form supplies: the selected codes, the raw text fields and
      the slider value (in hundredths, like `Profile.cgpa`). */
  datatype FormInput = FormInput(
    gender: int,
    major: string,
    interests: string,
    skills: string,
    cgpa: int,
    certification: int,
    certificationTitle: string,
    workingStatus: int)

  datatype AppError =
    | EmptyInput          // the warning of main.py:131
    | DimensionMismatch   // the scaler's exception for too wide a vector

  datatype Response = Response(recommendations: seq<Recommendation>, predictedCategory: string)

  /** The query `filter_jobs` receives: the stripped text fields and the
      form's codes. */
  function QueryOf(form: FormInput): (q: Query)
    ensures q.interests == Strip(form.interests) && q.skills == Strip(form.skills)
    ensures q.interests == [] <==> AllSpace(form.interests)
    ensures q.skills == [] <==> AllSpace(form.skills)
    ensures Strip(q.interests) == q.interests && Strip(q.skills) == q.skills
    ensures q.gender == form.gender && q.major == form.major && q.minCgpa == form.cgpa
    ensures q.certification == form.certification && q.workingStatus == form.workingStatus
  {
    StripIdempotent(form.interests);
    StripIdempotent(form.skills);
    Query(form.gender, form.major, Strip(form.interests), Strip(form.skills),
          form.cgpa, form.certification, form.workingStatus)
  }

  /** The text the predictor vectorises: the stripped interests, skills and
      certification title and the selected major, separated by single
      spaces. */
  function PredictorText(form: FormInput): (r: string)
    ensures SpaceJoined(r, Strip(form.interests), Strip(form.skills), Strip(form.certificationTitle), form.major)
    ensures !AllSpace(form.interests) ==> !IsSpace(r[0])
  {
    CombinedText(Strip(form.interests), Strip(form.skills), Strip(form.certificationTitle), form.major)
  }

  /** The search button's handler. An all-whitespace interest or skill field
      is refused with no computation; otherwise the recommendations are
      `filter_jobs` of the stripped query, and the request fails only when
      the scaler rejects the vector. */
  function Submit(table: seq<Profile>, catalog: seq<JobEntry>, bundle: ModelBundle, form: FormInput)
    : (r: Result<Response, AppError>)
    ensures r == Failure(EmptyInput) <==> AllSpace(form.interests) || AllSpace(form.skills)
    ensures r == Failure(DimensionMismatch) <==>
      && !AllSpace(form.interests) && !AllSpace(form.skills)
      && |bundle.vectorize(PredictorText(form))| > bundle.width
    ensures r.Success? ==> r.value.recommendations == FilterJobs(table, catalog, QueryOf(form))
    ensures r.Success? ==> Predict(bundle, PredictorText(form)) == Some(r.value.predictedCategory)
  {
    var interests := Strip(form.interests);
    var skills := Strip(form.skills);
    if interests == [] || skills == [] then Failure(EmptyInput)
    else
      var recommendations := FilterJobs(table, catalog, QueryOf(form));
      match Predict(bundle, PredictorText(form))
      case None => Failure(DimensionMismatch)
      case Some(category) => Success(Response(recommendations, category))
  }
}
