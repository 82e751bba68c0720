/** The reference implementation: the rolling-row Wagner-Fischer distance,
    the 0-100 similarity ratio, the Match record and the batch best-match
    scan that keeps the first candidate with the strictly highest score. */
module BaselineImpl {
  import opened EditDistance

  /** The rolling-row dynamic program: after row i, `prev[j]` is the distance
      between the first i characters of `a` and the first j characters of `b`. */
  method LevenshteinDistance(a: string, b: string) returns (d: nat)
    ensures d == Lev(a, b)
  {
    if a == b {
      LevSelf(a);
      return 0;
    }
    if |a| == 0 {
      return |b|;
    }
    if |b| == 0 {
      return |a|;
    }
    var prev: seq<nat> := seq(|b| + 1, j => j);
    for i := 1 to |a| + 1
      invariant |prev| == |b| + 1 && RowPrefix(a, b, i - 1, prev)
    {
      var ca := a[i - 1];
      var cur: seq<nat> := [i];
      for j := 1 to |b| + 1
        invariant |cur| == j && RowPrefix(a, b, i, cur)
      {
        var cb := b[j - 1];
        var v := Min3(cur[j - 1] + 1, prev[j] + 1, prev[j - 1] + Cost(ca, cb));
        TableStep(a, b, i, j, cur[j - 1], prev[j], prev[j - 1]);
        RowPrefixSnoc(a, b, i, cur, v);
        cur := cur + [v];
      }
      prev := cur;
    }
    TableIsLev(a, b, |a|, |b|);
    assert a[..|a|] == a && b[..|b|] == b;
    d := prev[|prev| - 1];
  }

  function Max(x: nat, y: nat): nat
  {
    if x >= y then x else y
  }

  /** Similarity on a 0-100 scale: 100 for two empty strings, otherwise
      `(1 - distance / longer length) * 100`, computed exactly over the reals.
      Every score lies in [0, 100], because the distance never exceeds the
      longer length. */
  function Ratio(a: string, b: string): (r: real)
    ensures 0.0 <= r <= 100.0
  {
    if |a| == 0 && |b| == 0 then 100.0
    else
      LevUpperBound(a, b);
      ScoreBounds(Lev(a, b), Max(|a|, |b|));
      (1.0 - (Lev(a, b) as real) / (Max(|a|, |b|) as real)) * 100.0
  }

  /** The score as the reference computes it: the special case for two empty
      strings, otherwise the formula applied to the dynamic program's result. */
  method ComputeRatio(a: string, b: string) returns (s: real)
    ensures s == Ratio(a, b)
  {
    if |a| == 0 && |b| == 0 {
      return 100.0;
    }
    var m := Max(|a|, |b|);
    var d := LevenshteinDistance(a, b);
    s := (1.0 - (d as real) / (m as real)) * 100.0;
  }

  lemma ScoreBounds(d: nat, m: nat)
    requires 0 < m && d <= m
    ensures 0.0 <= (1.0 - (d as real) / (m as real)) * 100.0 <= 100.0
  {
    var q := (d as real) / (m as real);
    assert q * (m as real) == d as real;
  }

  /** A perfect score of 100 is reached exactly when the strings are equal;
      in particular two empty strings score 100. */
  lemma RatioPerfectIff(a: string, b: string)
    ensures Ratio(a, b) == 100.0 <==> a == b
  {
    LevZeroIff(a, b);
    if |a| > 0 || |b| > 0 {
      var d, m := Lev(a, b) as real, Max(|a|, |b|) as real;
      assert m > 0.0;
      assert Ratio(a, b) == 100.0 <==> d / m == 0.0;
      assert d / m == 0.0 <==> d == 0.0;
    }
  }

  /** The score does not depend on the order of its arguments. */
  lemma RatioSymmetric(a: string, b: string)
    ensures Ratio(a, b) == Ratio(b, a)
  {
    LevSymmetric(a, b);
  }

  /** One result per query: the chosen candidate and its score. */
  datatype Match = Match(choice: string, score: real)

  /** Result reported for a query when there are no candidates. */
  const NoMatch: Match := Match("", -1.0)

  /** The scores of the candidates against `q`, in candidate order. */
  function Scores(q: string, cs: seq<string>): seq<real>
  {
    seq(|cs|, j requires 0 <= j < |cs| => Ratio(q, cs[j]))
  }

  /** There is one score per candidate, and score j is the ratio of `q` to
      candidate j. */
  lemma ScoresAt(q: string, cs: seq<string>)
    ensures |Scores(q, cs)| == |cs|
    ensures forall j :: 0 <= j < |cs| ==> Scores(q, cs)[j] == Ratio(q, cs[j])
  {
  }

  /** Scoring a prefix of the candidates gives a prefix of the scores. */
  lemma ScoresPrefix(q: string, cs: seq<string>, n: nat)
    requires n <= |cs|
    ensures Scores(q, cs[..n]) == Scores(q, cs)[..n]
  {
  }

  /** `k` is the first index holding the highest value of `s`. */
  ghost predicate IsFirstMax(s: seq<real>, k: nat)
  {
    && k < |s|
    && (forall j :: 0 <= j < |s| ==> s[j] <= s[k])
    && (forall j :: 0 <= j < k ==> s[j] < s[k])
  }

  /** The first index reaching the maximum, found from the front: the head
      wins unless some later value is strictly larger. */
  function FirstMax(s: seq<real>): (k: nat)
    requires |s| > 0
    ensures IsFirstMax(s, k)
    decreases |s|
  {
    if |s| == 1 then 0
    else
      var k := 1 + FirstMax(s[1..]);
      if s[0] >= s[k] then 0 else k
  }

  /** The first-maximum index is unique. */
  lemma FirstMaxUnique(s: seq<real>, k: nat)
    requires |s| > 0 && IsFirstMax(s, k)
    ensures k == FirstMax(s)
  {
  }

  /** Extending the values by one: the new value becomes the first maximum
      exactly when it is strictly larger than the previous first maximum; a
      later value that only ties never takes its place. */
  lemma FirstMaxSnoc(s: seq<real>)
    requires |s| > 1
    ensures var n := |s| - 1; var k := FirstMax(s[..n]);
      FirstMax(s) == if s[n] > s[k] then n else k
  {
    var n := |s| - 1;
    var k := FirstMax(s[..n]);
    if s[n] > s[k] {
      FirstMaxSnocNew(s, k);
    } else {
      FirstMaxSnocOld(s, k);
    }
  }

  lemma FirstMaxSnocNew(s: seq<real>, k: nat)
    requires |s| > 1 && IsFirstMax(s[..|s| - 1], k) && s[|s| - 1] > s[k]
    ensures FirstMax(s) == |s| - 1
  {
    var n := |s| - 1;
    forall j | 0 <= j < n
      ensures s[j] < s[n]
    {
      assert s[..n][j] == s[j];
    }
    FirstMaxUnique(s, n);
  }

  lemma FirstMaxSnocOld(s: seq<real>, k: nat)
    requires |s| > 1 && IsFirstMax(s[..|s| - 1], k) && s[|s| - 1] <= s[k]
    ensures FirstMax(s) == k
  {
    var n := |s| - 1;
    forall j | 0 <= j < n
      ensures s[j] <= s[k]
    {
      assert s[..n][j] == s[j];
    }
    forall j | 0 <= j < k
      ensures s[j] < s[k]
    {
      assert s[..n][j] == s[j];
    }
    FirstMaxUnique(s, k);
  }

  /** What the batch search promises for one query: the sentinel when there
      are no candidates, otherwise the earliest best-scoring candidate. */
  function BestMatch(q: string, cs: seq<string>): (m: Match)
    ensures |cs| == 0 ==> m == NoMatch
    ensures |cs| > 0 ==> m.choice in cs && m.score == Ratio(q, m.choice)
    ensures |cs| > 0 ==> forall c :: c in cs ==> Ratio(q, c) <= m.score
    ensures |cs| > 0 ==>
              exists k :: 0 <= k < |cs| && cs[k] == m.choice && forall j :: 0 <= j < k ==> Ratio(q, cs[j]) < m.score
  {
    if |cs| == 0 then NoMatch
    else
      ScoresAt(q, cs);
      var k := FirstMax(Scores(q, cs));
      Match(cs[k], Ratio(q, cs[k]))
  }

  /** Any index that scores at least every candidate and strictly more than
      every earlier one determines the best match. */
  lemma BestMatchAt(q: string, cs: seq<string>, k: nat)
    requires k < |cs|
    requires forall j :: 0 <= j < |cs| ==> Ratio(q, cs[j]) <= Ratio(q, cs[k])
    requires forall j :: 0 <= j < k ==> Ratio(q, cs[j]) < Ratio(q, cs[k])
    ensures BestMatch(q, cs) == Match(cs[k], Ratio(q, cs[k]))
  {
    ScoresAt(q, cs);
    FirstMaxUnique(Scores(q, cs), k);
  }

  /** One step of the scan: a candidate replaces the current best only when
      it scores strictly more. */
  function KeepBetter(q: string, best: Match, c: string): (r: Match)
    ensures r.score >= best.score && r.score >= Ratio(q, c)
    ensures r == best || (r == Match(c, Ratio(q, c)) && Ratio(q, c) > best.score)
  {
    var s := Ratio(q, c);
    if s > best.score then Match(c, s) else best
  }

  /** The scan over the candidates in order, starting from `seed`: it ends
      with a score no lower than the seed's or any candidate's, on the seed
      itself or on a candidate carrying its own score. */
  function ScanChoices(q: string, cs: seq<string>, seed: Match): (r: Match)
    ensures r.score >= seed.score
    ensures forall c :: c in cs ==> Ratio(q, c) <= r.score
    ensures r == seed || (r.choice in cs && r.score == Ratio(q, r.choice))
    decreases |cs|
  {
    if |cs| == 0 then seed
    else KeepBetter(q, ScanChoices(q, cs[..|cs| - 1], seed), cs[|cs| - 1])
  }

  /** Extending the scanned prefix by one candidate is one more step. */
  lemma ScanStep(q: string, cs: seq<string>, j: nat, seed: Match)
    requires j < |cs|
    ensures ScanChoices(q, cs[..j + 1], seed) == KeepBetter(q, ScanChoices(q, cs[..j], seed), cs[j])
  {
    assert cs[..j + 1][..j] == cs[..j];
  }

  /** Extending the candidates by one, the best match moves to the new
      candidate exactly when it scores strictly more. */
  lemma BestMatchSnoc(q: string, cs: seq<string>)
    requires |cs| > 1
    ensures var n := |cs| - 1; BestMatch(q, cs) == KeepBetter(q, BestMatch(q, cs[..n]), cs[n])
  {
    var n := |cs| - 1;
    var s := Scores(q, cs);
    ScoresAt(q, cs);
    ScoresAt(q, cs[..n]);
    ScoresPrefix(q, cs, n);
    FirstMaxSnoc(s);
    var k := FirstMax(s[..n]);
    assert cs[..n][k] == cs[k];
  }

  /** The scan from any seed scoring below 0 finds the earliest best-scoring
      candidate: scores are never negative, so the first candidate always
      replaces the seed, and later ties never pass the strict comparison.
      The seed's choice, "" or the first candidate, is therefore unobservable. */
  lemma {:induction false} ScanFindsFirstBest(q: string, cs: seq<string>, seed: Match)
    requires |cs| > 0 && seed.score < 0.0
    ensures ScanChoices(q, cs, seed) == BestMatch(q, cs)
    decreases |cs|
  {
    var n := |cs| - 1;
    if n == 0 {
      assert cs[..0] == [];
    } else {
      ScanFindsFirstBest(q, cs[..n], seed);
      BestMatchSnoc(q, cs);
    }
  }

  /** Appending the result for the next query keeps every result the
      best match of its own query. */
  lemma AppendBest(out: seq<Match>, queries: seq<string>, choices: seq<string>, m: Match)
    requires |out| < |queries|
    requires forall k :: 0 <= k < |out| ==> out[k] == BestMatch(queries[k], choices)
    requires m == BestMatch(queries[|out|], choices)
    ensures forall k :: 0 <= k < |out| + 1 ==> (out + [m])[k] == BestMatch(queries[k], choices)
  {
  }

  /** Batch search: one Match per query, in query order, each the earliest
      best-scoring candidate (or the sentinel when there are no candidates). */
  method BatchBestMatch(queries: seq<string>, choices: seq<string>) returns (out: seq<Match>)
    ensures |out| == |queries|
    ensures forall i :: 0 <= i < |queries| ==> out[i] == BestMatch(queries[i], choices)
  {
    out := [];
    for i := 0 to |queries|
      invariant |out| == i
      invariant forall k :: 0 <= k < i ==> out[k] == BestMatch(queries[k], choices)
    {
      var q := queries[i];
      var bestC, bestS := "", -1.0;
      for j := 0 to |choices|
        invariant Match(bestC, bestS) == ScanChoices(q, choices[..j], NoMatch)
      {
        var c := choices[j];
        var s := ComputeRatio(q, c);
        ScanStep(q, choices, j, NoMatch);
        if s > bestS {
          bestC, bestS := c, s;
        }
      }
      assert Match(bestC, bestS) == BestMatch(q, choices) by {
        assert choices[..|choices|] == choices;
        if |choices| > 0 {
          ScanFindsFirstBest(q, choices, NoMatch);
        }
      }
      AppendBest(out, queries, choices, Match(bestC, bestS));
      out := out + [Match(bestC, bestS)];
    }
  }
}
