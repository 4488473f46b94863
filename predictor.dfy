/** The category predictor (main.py:136-145): the free-text fields are
    joined into one string, vectorised, zero-padded to the width the scaler
    was fitted on, scaled and classified. The vectoriser, the scaler and the
    nearest-neighbour classifier are pre-fitted artifacts whose numerics are
    not modelled; they enter as functions. */
module Predictor {
  import opened Util

  /** The three loaded artifacts. `width` is the scaler's `n_features_in_`. */
  datatype ModelBundle = ModelBundle(
    vectorize: string -> seq<real>,
    width: nat,
    scale: seq<real> -> seq<real>,
    classify: seq<real> -> string)

  /** `r` is `a`, `b`, `c` and `d` in this order, separated by single
      spaces, with nothing else. */
  predicate SpaceJoined(r: string, a: string, b: string, c: string, d: string)
  {
    && |r| == |a| + |b| + |c| + |d| + 3
    && r[..|a|] == a && r[|a|] == ' '
    && r[|a| + 1..|a| + 1 + |b|] == b && r[|a| + 1 + |b|] == ' '
    && r[|a| + |b| + 2..|r| - |d| - 1] == c && r[|r| - |d| - 1] == ' '
    && r[|r| - |d|..] == d
  }

  /** SpaceJoined leaves no freedom: it describes exactly one string. */
  lemma SpaceJoinedUnique(r: string, t: string, a: string, b: string, c: string, d: string)
    requires SpaceJoined(r, a, b, c, d) && SpaceJoined(t, a, b, c, d)
    ensures r == t
  {
    var i, j, k := |a|, |a| + 1 + |b|, |r| - |d| - 1;
    assert r == r[..i] + [r[i]] + r[i + 1..j] + [r[j]] + r[j + 1..k] + [r[k]] + r[k + 1..];
    assert t == t[..i] + [t[i]] + t[i + 1..j] + [t[j]] + t[j + 1..k] + [t[k]] + t[k + 1..];
  }

  /** `interests + ' ' + skills + ' ' + certification_course_title + ' ' + major`
      (main.py:136). */
  function CombinedText(interests: string, skills: string, certificationTitle: string, major: string): (r: string)
    ensures SpaceJoined(r, interests, skills, certificationTitle, major)
  {
    interests + " " + skills + " " + certificationTitle + " " + major
  }

  /** Right zero-padding of a feature vector up to `n` columns
      (main.py:140-142); a vector that is already wide enough is left as it
      is. */
  function Pad(v: seq<real>, n: nat): (r: seq<real>)
    ensures |v| < n ==> |r| == n && r[..|v|] == v && forall i :: |v| <= i < n ==> r[i] == 0.0
    ensures |v| >= n ==> r == v
    ensures |r| == if |v| < n then n else |v|
  {
    if |v| < n then v + seq(n - |v|, _ => 0.0) else v
  }

  /** `knn_model.predict(scaler.transform(padded))[0]`. The scaler refuses a
      vector with more columns than it was fitted on, which main.py does not
      guard against; that case is `None` here. Otherwise the scaler receives
      exactly `width` columns and the result is a single label. */
  function Predict(bundle: ModelBundle, text: string): (r: Option<string>)
    ensures r.Some? <==> |bundle.vectorize(text)| <= bundle.width
  {
    var v := bundle.vectorize(text);
    if |v| > bundle.width then None
    else
      var padded := Pad(v, bundle.width);
      assert |padded| == bundle.width;
      Some(bundle.classify(bundle.scale(padded)))
  }
}
