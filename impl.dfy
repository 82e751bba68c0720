/** The "optimised" implementation: the pure fallback of the fast distance
    (the accelerated library call is not modelled) and a batch search that
    inlines the score formula, returns early when there are no candidates and
    seeds the scan with the first candidate. Both are proved to agree with the
    reference implementation on every input. */
module Impl {
  import opened EditDistance
  import opened BaselineImpl

  /** Fallback path of the fast distance: the same rolling-row dynamic
      program as the reference, proved against the same definition. */
  method LevenshteinDistanceFast(a: string, b: string) returns (d: nat)
    ensures d == Lev(a, b)
  {
    if a == b {
      LevSelf(a);
      return 0;
    }
    if |a| == 0 {
      return |b|;
    }
    if |b| == 0 {
      return |a|;
    }
    var prev: seq<nat> := seq(|b| + 1, j => j);
    for i := 1 to |a| + 1
      invariant |prev| == |b| + 1 && RowPrefix(a, b, i - 1, prev)
    {
      var ca := a[i - 1];
      var cur: seq<nat> := [i];
      for j := 1 to |b| + 1
        invariant |cur| == j && RowPrefix(a, b, i, cur)
      {
        var cb := b[j - 1];
        var v := Min3(cur[j - 1] + 1, prev[j] + 1, prev[j - 1] + Cost(ca, cb));
        TableStep(a, b, i, j, cur[j - 1], prev[j], prev[j - 1]);
        RowPrefixSnoc(a, b, i, cur, v);
        cur := cur + [v];
      }
      prev := cur;
    }
    TableIsLev(a, b, |a|, |b|);
    assert a[..|a|] == a && b[..|b|] == b;
    d := prev[|prev| - 1];
  }

  /** Batch search with the score formula inlined. With no candidates every
      query gets the sentinel and no scan happens; otherwise the scan starts
      from the first candidate with score -1, which the first candidate always
      beats, so the result is the reference's for every query. */
  method BatchBestMatch(queries: seq<string>, choices: seq<string>) returns (out: seq<Match>)
    ensures |out| == |queries|
    ensures forall i :: 0 <= i < |queries| ==> out[i] == BestMatch(queries[i], choices)
  {
    out := [];
    if |choices| == 0 {
      for i := 0 to |queries|
        invariant out == seq(i, _ => NoMatch)
      {
        out := out + [Match("", -1.0)];
      }
      return;
    }
    for i := 0 to |queries|
      invariant |out| == i
      invariant forall k :: 0 <= k < i ==> out[k] == BestMatch(queries[k], choices)
    {
      var q := queries[i];
      var bestC := choices[0];
      var bestS := -1.0;
      ghost var seed := Match(bestC, bestS);
      for j := 0 to |choices|
        invariant Match(bestC, bestS) == ScanChoices(q, choices[..j], seed)
      {
        var c := choices[j];
        var s: real;
        if |q| == 0 && |c| == 0 {
          s := 100.0;
        } else {
          var m := Max(|q|, |c|);
          var dist := LevenshteinDistanceFast(q, c);
          s := (1.0 - (dist as real) / (m as real)) * 100.0;
        }
        assert s == Ratio(q, c);
        ScanStep(q, choices, j, seed);
        if s > bestS {
          bestC, bestS := c, s;
        }
      }
      assert Match(bestC, bestS) == BestMatch(q, choices) by {
        assert choices[..|choices|] == choices;
        ScanFindsFirstBest(q, choices, seed);
      }
      AppendBest(out, queries, choices, Match(bestC, bestS));
      out := out + [Match(bestC, bestS)];
    }
  }

  /** The consistency promise: on every input the optimised batch search
      returns the same choices and the same scores as the reference. */
  method AgreesWithBaseline(queries: seq<string>, choices: seq<string>)
    returns (reference: seq<Match>, optimised: seq<Match>)
    ensures |reference| == |optimised| == |queries|
    ensures forall i :: 0 <= i < |queries| ==>
              optimised[i].choice == reference[i].choice && optimised[i].score == reference[i].score
  {
    reference := BaselineImpl.BatchBestMatch(queries, choices);
    optimised := BatchBestMatch(queries, choices);
  }
}
