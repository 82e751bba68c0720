/** Concrete scenarios: the best match of "flaw" among "flaws" and "law",
    the tie-break between equal candidates and the sentinel for an empty
    candidate list. */
module Scenarios {
  import opened EditDistance
  import opened BaselineImpl
  import Impl

  /** One insertion turns "flaw" into "flaws". */
  lemma LevFlawFlaws()
    ensures Lev("flaw", "flaws") == 1
  {
    LevAppendOne("flaw", 's');
    assert "flaw" + ['s'] == "flaws";
  }

  /** One deletion turns "flaw" into "law". */
  lemma LevFlawLaw()
    ensures Lev("flaw", "law") == 1
  {
    LevDropFirst('f', "law");
    assert ['f'] + "law" == "flaw";
  }

  /** One substitution turns "kitten" into "bitten". */
  lemma LevKittenBitten(a: string, b: string)
    requires a == "kitten" && b == "bitten"
    ensures Lev(a, b) == 1
  {
    LevSubstituteOne([], a[0], b[0], a[1..]);
    assert [] + [a[0]] + a[1..] == a;
    assert [] + [b[0]] + a[1..] == b;
  }

  /** The recurrence for "kitten" against "kitchen", one entry at a time:
      every prefix pair on the way is of different lengths or differs at
      index 3, so none of them is closer than two edits. */
  lemma KitchenLower45(a: string, b: string)
    requires a == "kitten" && b == "kitchen"
    ensures Lev(a[..4], b[..5]) >= 2
  {
    assert a[..4][3] != b[..4][3];
    LevZeroIff(a[..4], b[..4]);
    LevLowerBound(a[..3], b[..5]);
    LevLowerBound(a[..3], b[..4]);
    LevPrefixLower(a, b, 4, 5, 2);
  }

  lemma KitchenLower56(a: string, b: string)
    requires a == "kitten" && b == "kitchen"
    ensures Lev(a[..5], b[..6]) >= 2
  {
    KitchenLower45(a, b);
    assert a[..5][3] != b[..5][3];
    LevZeroIff(a[..5], b[..5]);
    LevLowerBound(a[..4], b[..6]);
    LevPrefixLower(a, b, 5, 6, 2);
  }

  /** "kitten" is at least two edits from "kitchen". */
  lemma LevKittenKitchenLower(a: string, b: string)
    requires a == "kitten" && b == "kitchen"
    ensures Lev(a, b) >= 2
  {
    KitchenLower56(a, b);
    assert a[..6][3] != b[..6][3];
    LevZeroIff(a[..6], b[..6]);
    LevLowerBound(a[..5], b[..7]);
    LevPrefixLower(a, b, 6, 7, 2);
    assert a[..6] == a && b[..7] == b;
  }

  /** Substituting 's' for 'k' and then 'i' for 'e' turns "kitten" into
      "sittin", two edits in all. */
  lemma SittingUpperSubstitutions(a: string, b: string)
    requires a == "kitten" && b == "sitting"
    ensures Lev(a, b[..6]) <= 2
  {
    var s1 := [b[0]] + a[1..];
    LevSubstituteOne([], a[0], b[0], a[1..]);
    assert [] + [a[0]] + a[1..] == a && [] + [b[0]] + a[1..] == s1;
    LevSubstituteOne(b[..4], a[4], b[4], [a[5]]);
    assert b[..4] + [a[4]] + [a[5]] == s1 && b[..4] + [b[4]] + [a[5]] == b[..6];
    LevTriangle(a, s1, b[..6]);
  }

  /** At most three edits turn "kitten" into "sitting": two substitutions,
      then appending 'g'. */
  lemma LevKittenSittingUpper(a: string, b: string)
    requires a == "kitten" && b == "sitting"
    ensures Lev(a, b) <= 3
  {
    SittingUpperSubstitutions(a, b);
    LevAppendOne(b[..6], b[6]);
    assert b[..6] + [b[6]] == b;
    LevTriangle(a, b[..6], b);
  }

  /** The recurrence for "kitten" against "sitting", one entry at a time:
      every path to entry (6, 7) passes a pair of prefixes of different
      lengths or pays for a mismatch. */
  lemma SittingLower55(a: string, b: string)
    requires a == "kitten" && b == "sitting"
    ensures Lev(a[..5], b[..5]) >= 2
  {
    assert a[..4][0] != b[..4][0];
    LevZeroIff(a[..4], b[..4]);
    LevLowerBound(a[..5], b[..4]);
    LevLowerBound(a[..4], b[..5]);
    LevPrefixLower(a, b, 5, 5, 2);
  }

  lemma SittingLower56(a: string, b: string)
    requires a == "kitten" && b == "sitting"
    ensures Lev(a[..5], b[..6]) >= 2
  {
    SittingLower55(a, b);
    LevLowerBound(a[..4], b[..6]);
    LevLowerBound(a[..4], b[..5]);
    LevPrefixLower(a, b, 5, 6, 2);
  }

  lemma SittingLower66(a: string, b: string)
    requires a == "kitten" && b == "sitting"
    ensures Lev(a[..6], b[..6]) >= 2
  {
    SittingLower55(a, b);
    SittingLower56(a, b);
    LevLowerBound(a[..6], b[..5]);
    LevPrefixLower(a, b, 6, 6, 2);
  }

  /** At least three edits turn "kitten" into "sitting". */
  lemma LevKittenSittingLower(a: string, b: string)
    requires a == "kitten" && b == "sitting"
    ensures Lev(a, b) >= 3
  {
    SittingLower56(a, b);
    SittingLower66(a, b);
    LevLowerBound(a[..5], b[..7]);
    LevPrefixLower(a, b, 6, 7, 3);
    assert a[..6] == a && b[..7] == b;
  }

  /** Three edits turn "kitten" into "sitting": two substitutions and one
      insertion. */
  lemma LevKittenSitting()
    ensures Lev("kitten", "sitting") == 3
  {
    LevKittenSittingUpper("kitten", "sitting");
    LevKittenSittingLower("kitten", "sitting");
  }

  /** The score of "kitten" against "sitting" is (1 - 3/7) * 100. */
  lemma RatioKittenSitting()
    ensures Ratio("kitten", "sitting") == (1.0 - 3.0 / 7.0) * 100.0
  {
    LevKittenSitting();
  }

  /** "flaws" scores 80 and "law" 75 against "flaw", so "flaws" wins. */
  lemma FlawBestMatch()
    ensures BestMatch("flaw", ["flaws", "law"]) == Match("flaws", 80.0)
  {
    LevFlawFlaws();
    LevFlawLaw();
    var cs := ["flaws", "law"];
    assert Ratio("flaw", cs[0]) == 80.0 && Ratio("flaw", cs[1]) == 75.0;
    BestMatchAt("flaw", cs, 0);
  }

  /** Between two equal candidates the first one is chosen. */
  lemma TieBreakFirst()
    ensures FirstMax(Scores("aa", ["aa", "aa"])) == 0
    ensures BestMatch("aa", ["aa", "aa"]) == Match("aa", 100.0)
  {
    RatioPerfectIff("aa", "aa");
    var s := Scores("aa", ["aa", "aa"]);
    ScoresAt("aa", ["aa", "aa"]);
    assert s[0] == s[1] == 100.0;
    FirstMaxUnique(s, 0);
  }

  /** With no candidates a single query gets the sentinel. */
  method EmptyChoicesExample() returns (out: seq<Match>)
    ensures out == [Match("", -1.0)]
  {
    out := Impl.BatchBestMatch(["x"], []);
  }

  /** Among the sample candidates "flaw" is closest to "flaws": "kitchen" and
      "bitten" are too much longer to score as high. */
  lemma FlawAmongSample(q: string, cs: seq<string>)
    requires q == "flaw" && cs == ["kitchen", "bitten", "flaws"]
    ensures BestMatch(q, cs) == Match("flaws", 80.0)
  {
    assert Lev(q, cs[2]) == 1 by {
      LevAppendOne(q, 's');
      assert q + ['s'] == cs[2];
    }
    assert |q| == 4 && |cs[0]| == 7 && |cs[1]| == 6 && |cs[2]| == 5;
    LevLowerBound(q, cs[0]);
    LevLowerBound(q, cs[1]);
    assert Ratio(q, cs[0]) < 80.0;
    assert Ratio(q, cs[1]) < 80.0;
    assert Ratio(q, cs[2]) == 80.0;
    BestMatchAt(q, cs, 2);
  }

  /** On the same candidates the query "kitten" gets "bitten", one
      substitution away, with score (1 - 1/6) * 100; "kitchen" is at least
      two edits away and "flaws" at least one edit in six. */
  lemma KittenAmongSample(q: string, cs: seq<string>)
    requires q == "kitten" && cs == ["kitchen", "bitten", "flaws"]
    ensures BestMatch(q, cs) == Match("bitten", (1.0 - 1.0 / 6.0) * 100.0)
  {
    LevKittenKitchenLower(q, cs[0]);
    LevKittenBitten(q, cs[1]);
    LevLowerBound(q, cs[2]);
    assert |q| == 6 && |cs[0]| == 7 && |cs[1]| == 6 && |cs[2]| == 5;
    assert Ratio(q, cs[0]) < Ratio(q, cs[1]);
    assert Ratio(q, cs[1]) == (1.0 - 1.0 / 6.0) * 100.0;
    assert Ratio(q, cs[2]) <= Ratio(q, cs[1]);
    BestMatchAt(q, cs, 1);
  }

  /** The sample input of the consistency check: both batch searches return
      the same list, choosing "bitten" for "kitten" and "flaws" with score 80
      for "flaw". */
  method ConsistencyExample() returns (reference: seq<Match>, optimised: seq<Match>)
    ensures reference == optimised && |reference| == 2
    ensures reference[0] == Match("bitten", Ratio("kitten", "bitten"))
    ensures reference[1] == Match("flaws", 80.0)
  {
    var queries, choices := ["kitten", "flaw"], ["kitchen", "bitten", "flaws"];
    reference := BaselineImpl.BatchBestMatch(queries, choices);
    optimised := Impl.BatchBestMatch(queries, choices);
    KittenAmongSample(queries[0], choices);
    FlawAmongSample(queries[1], choices);
    assert reference == optimised;
  }
}
