# Job recommendation dashboard — a Dafny model of its recommendation core

The dashboard takes a user's profile (gender, undergraduate major, interests,
skills, CGPA, certification, working status) and answers with job categories
in two independent ways: a rule-based pass over a table of past profiles
(`filter_jobs`), and a pre-trained nearest-neighbour classifier applied to a
TF-IDF vector of the free-text fields.

This project models, as pure Dafny functions over sequences, the part of
`main.py` with real logic:

- **Candidate filter** (`Profiles`): the rows whose gender, major,
  certification and working-status codes equal the query's. Each row must also
  have a CGPA at least the query's minimum.
- **Tokenising and match score** (`Tokens`, `Ranking`): Python's
  `str.split(", ")` and the size of the intersection of two token sets. The
  three columns "Interest Match", "Skill Match" and "Total Match".
- **Ranking and truncation** (`Ranking`): sort by total, highest first, and
  keep the first five rows.
- **Job titles and de-duplication** (`Catalog`, `Recommender`): each kept row
  gets the catalog titles of its "Mapped Category". Then only the first row of
  each category is kept.
- **Request handling** (`App`, `Predictor`): `str.strip()` on the text fields
  and the refusal of an empty interest or skill field. The predictor's
  zero-padding of the feature vector and the scaler's width check.

The profile table and the job catalog are parameters. `filter_jobs` only reads
them and builds a new table, so here both are values, and the source's
`.copy()` is implicit.

Modelling choices:

- **CGPA.** The CGPA is fixed point in hundredths, so 3.6 is 360. The slider's
  0.1 steps are multiples of 10.
- **Tie order.** pandas' default `sort_values` is not stable, so main.py:119
  does not fix the order of rows with equal totals. The model ranks with a
  stable insertion sort (`RankByTotal`, `RankIsStable`). Every property of the
  ranked output is proved for any permutation with non-increasing totals
  (`IsRanking`, `TopOfRanking`, `TopRecommendationsOfRanking`), so it holds
  for whatever order pandas produces.
- **List entries are not trimmed.** Only the whole field is stripped
  (main.py:86-87), not each entry of the list. Tokens must match exactly,
  case included: "ai,ml" is one token, and " ai" differs from "ai"
  (`ExactMatchOnly`).
- **Too-wide feature vector.** main.py does not guard against a vectoriser
  output wider than the scaler expects. The scaler then raises. The model
  returns `DimensionMismatch` for that case.

## Model

| member | source | states |
|---|---|---|
| `Tokens.Split` | main.py:112 | `s.split(", ")` always yields at least one token, and the first token is a prefix of `s` |
| `Tokens.SplitTokensFreeOfSeparator` | main.py:112 | no token produced by the split contains ", " |
| `Tokens.JoinSplit` | main.py:112 | splitting loses nothing: `", ".join(s.split(", ")) == s` |
| `Tokens.SplitJoin` | main.py:112 | for separator-free tokens, `", ".join(ts).split(", ") == ts`, so together with JoinSplit split and join are inverse |
| `Tokens.SplitSingle` | main.py:112 | a string without ", " splits into exactly itself |
| `Tokens.Overlap` | main.py:111-116 | the match count is bounded by the number of distinct tokens on either side, and it is 0 exactly when no token of the row occurs in the query |
| `Tokens.OverlapExample` | main.py:111-113 | "ai, data science" against "ai, ml" scores 1 |
| `Tokens.SkillOverlapExample` | main.py:114-116 | "python, sql" against "python" scores 1 |
| `Tokens.DuplicateTokensCountOnce` | main.py:112 | a token repeated in a list counts once ("python, python" against "python" scores 1) |
| `Tokens.ExactMatchOnly` | main.py:112 | matching is exact: case-sensitive ("AI" against "ai" scores 0), a leading space makes a different token (" ai" against "ai" scores 0), and a comma without a space does not separate ("ai,ml" against "ai, ml" scores 0) |
| `Profiles.FilterRows` | main.py:101-109 | a row is kept exactly when it satisfies all five conditions, with the same multiplicity as in the table, in table order (a subsequence of the table) |
| `Ranking.Score` | main.py:111-117 | the total is at most the number of distinct query interest tokens plus distinct query skill tokens; each match is at most the row's distinct tokens; the total is 0 exactly when neither list shares a token with the query |
| `Ranking.ScoreAll` | main.py:111-116 | the `.apply` yields one scored row per filtered row, in order, each carrying that row's own match columns |
| `Ranking.RankByTotal` | main.py:119 | the ranking is a permutation of the scored rows with non-increasing totals |
| `Ranking.RankIsStable` | main.py:119 | among rows with equal totals the model's ranking keeps table order (a modelling choice; pandas leaves this open) |
| `Ranking.CountAbovePermutation` | main.py:119 | how many rows outscore a value does not depend on row order |
| `Ranking.CountAboveSorted` | main.py:119 | in a sorted sequence at most `i` rows outscore the row at position `i` |
| `Ranking.TopOfRanking` | main.py:119 | for any ranking, every row cut by `head(k)` scores at most every kept row, and fewer than `k` scored rows outscore any kept row |
| `Catalog.TitlesFor` | main.py:121-123 | the lookup yields at most one title per catalog row |
| `Catalog.TitlesForCount` | main.py:121-123 | each title appears exactly as often as the catalog pairs it with the category |
| `Catalog.TitlesForAppend` | main.py:121-123 | titles come in catalog order: the lookup in a concatenation is the concatenation of the lookups |
| `Catalog.TitlesForUnknown` | main.py:121-123 | a category with no catalog row gets an empty list |
| `Catalog.Shown` | main.py:152 | the displayed titles are a prefix of the list, of length min(5, length) |
| `Recommender.AttachTitles` | main.py:121-123 | attaching titles keeps the kept rows, one recommendation per row, in order, and gives each row exactly the catalog titles of its category |
| `Recommender.KeepFirstPerCategory` | main.py:125 | the survivors' categories are exactly the input's categories not yet seen, and the survivors are a subsequence of the input |
| `Recommender.KeepFirstDistinct` | main.py:125 | no two survivors share a category |
| `Recommender.KeepFirstIsFirst` | main.py:125 | each survivor is the earliest row of its category in the input, and the survivors come in the order their categories first occur |
| `Recommender.FirstIndex` | main.py:125 | the position of the earliest row of a category, or the length when the category is absent |
| `Recommender.DropDuplicateCategories` | main.py:125 | `drop_duplicates(subset=["Mapped Category"])`: categories pairwise distinct; the same set of categories as the input; each survivor is the earliest row of its category, and survivors come in the order their categories first occur; a subsequence of the input, never longer |
| `Recommender.DropDuplicatesUnique` | main.py:125 | those clauses determine the result: any sequence with the input's categories, made of each category's earliest row in first-occurrence order, equals it |
| `Recommender.Candidates` | main.py:101-117 | one scored candidate per row that passes the filter |
| `Recommender.CandidatesAreEligibleRows` | main.py:101-117 | the candidates are exactly the eligible table rows, each with its own match columns; there are none exactly when no row is eligible |
| `Recommender.TopRecommendations` | main.py:119-125 | at most 5 recommendations, with pairwise distinct categories |
| `Recommender.TopRecommendationsOfRanking` | main.py:119-125 | for any ranking, each recommendation is a scored candidate with its category's catalog titles; fewer than 5 candidates outscore it; totals are non-increasing; the result is empty only if there are no candidates |
| `Recommender.FilterJobs` | main.py:100-127 | at most 5 rows, no two with the same mapped category |
| `Recommender.FilterJobsCorrect` | main.py:100-127 | each recommended row is an eligible table row, carries its own match scores and exactly its category's titles, and is outscored by fewer than 5 candidates; totals are non-increasing; no recommendation exactly when no row passes the filter |
| `Recommender.SingleEligibleRow` | main.py:100-127 | a one-row table whose row is eligible yields that row alone, with its score and titles |
| `Recommender.SingleRowExample` | main.py:100-127 | for example, a one-row table (CS major, CGPA 3.60 against 3.50, "ai, data science"/"python, sql" against "ai, ml"/"python") yields one "Data Science" row with interest match 1, skill match 1 and the catalog's "Data Science" titles |
| `Predictor.CombinedText` | main.py:136 | the combined text is exactly the interests, a space, the skills, a space, the certification title, a space and the major: each part at its position, nothing added or lost (length is the sum plus 3) |
| `Predictor.SpaceJoinedUnique` | main.py:136 | the positional description of the combined text fixes it completely: two strings that both satisfy it are equal |
| `Predictor.Pad` | main.py:140-142 | a vector shorter than `n` becomes length `n`, with its entries first and zeros after; a vector of length at least `n` is unchanged; the padded length is max(length of v, n), so padding again changes nothing |
| `Predictor.Predict` | main.py:136-145 | a label is produced exactly when the vectoriser's output is no wider than the scaler's expected width |
| `App.LeadingSpace` | main.py:86-87 | counts a whitespace-only prefix that is followed by a non-whitespace character or the end |
| `App.TrailingSpace` | main.py:86-87 | counts a whitespace-only suffix that is preceded by a non-whitespace character or the start |
| `App.StripIdempotent` | main.py:86-87 | stripping an already stripped field changes nothing |
| `App.Strip` | main.py:86-87 | `str.strip()` gives the infix between leading and trailing whitespace, which is empty exactly when the field is all whitespace and otherwise starts and ends with non-whitespace |
| `App.QueryOf` | main.py:133 | the query passed to `filter_jobs` has as interests and skills exactly `Strip` of the form fields (empty exactly when the field is all whitespace, unchanged by a further strip), and the form's codes, major and CGPA unchanged |
| `App.PredictorText` | main.py:136 | the predictor's text is exactly the stripped interests, stripped skills, stripped certification title and the selected major (not stripped), each at its position and separated by single spaces; it starts with a non-whitespace character when the interest field is not blank |
| `App.Submit` | main.py:129-145 | the request is refused as empty input exactly when the interest or skill field is all whitespace; it fails with a dimension mismatch exactly when the input is non-empty and the vector is too wide; on success the recommendations are `filter_jobs` of the stripped query and the predicted category is the predictor's label for the stripped combined text |

## Left out

- The Streamlit user interface is not modelled: page setup, background image,
  sidebar, headings, widgets and the "about" pages (main.py:14-36, 62-98,
  147-201). The selectbox mappings of gender, certification and working status
  to codes are part of this. The model takes the codes directly
  (`FormInput`, `Query`).
- Loading the two CSV files and the three joblib artifacts, and halting when
  one is missing, are I/O and are not modelled (main.py:38-60). The tables are
  parameters.
- The TF-IDF vectoriser, the scaler and the nearest-neighbour classifier are
  not modelled. They are foreign, pre-fitted, floating-point artifacts, and
  they enter as function-valued fields of `ModelBundle`. The knn module is not
  part of this model.
- Floating-point CGPA is not modelled. It is fixed point in hundredths, so a
  value with more decimals is outside the model.
- pandas' particular order among equal totals is not modelled. The model
  ranks stably. The properties of the output are proved for every
  non-increasing permutation.
- Predict: its contract states only when a label is produced. The label
  itself is whatever the opaque classifier returns for the scaled, padded
  vector.
- Submit: when the scaler raises, the recommendations already computed are
  not returned. In the source the exception comes before the prediction or
  any recommendation is displayed; only the heading of main.py:134 appears,
  and the model does not represent that heading.
- Malformed table cells are not modelled: missing values in the text columns,
  and a non-numeric CGPA. The model assumes every cell holds a string or a
  number.
- `Join` models the `", ".join` used to display titles (main.py:153) only as
  the inverse of `Split`. The rest of the display loop is presentation.
