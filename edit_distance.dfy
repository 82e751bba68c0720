/** The Levenshtein edit distance as a recursive definition over strings,
    the Wagner-Fischer table that the dynamic programs fill in, and the facts
    about both that the rest of the model relies on. Strings are sequences of
    code points (`seq<char>`). */
module EditDistance {

  /** Cost of aligning two characters: 0 when equal, 1 otherwise
      (`levenshtein_distance` adds the boolean `ca != cb` to an integer). */
  function Cost(x: char, y: char): nat
  {
    if x != y then 1 else 0
  }

  function Min3(x: int, y: int, z: int): int
  {
    if x <= y && x <= z then x else if y <= z then y else z
  }

  /** Lev(a, b): the least number of single-character insertions, deletions
      and substitutions turning `a` into `b`. An empty string costs the length
      of the other; otherwise the last step inserts the last character of `b`,
      deletes the last character of `a`, or aligns the two last characters. */
  function Lev(a: string, b: string): nat
    decreases |a| + |b|
  {
    if |a| == 0 then |b|
    else if |b| == 0 then |a|
    else Min3(Lev(a, b[..|b| - 1]) + 1,
              Lev(a[..|a| - 1], b) + 1,
              Lev(a[..|a| - 1], b[..|b| - 1]) + Cost(a[|a| - 1], b[|b| - 1]))
  }

  /** One step of the recurrence, for two non-empty strings. */
  lemma LevStep(a: string, b: string)
    requires |a| > 0 && |b| > 0
    ensures var a', b' := a[..|a| - 1], b[..|b| - 1];
      Lev(a, b) == Min3(Lev(a, b') + 1, Lev(a', b) + 1, Lev(a', b') + Cost(a[|a| - 1], b[|b| - 1]))
  {
  }

  /** Identity: a string is at distance 0 from itself, the empty string included. */
  lemma {:induction false} LevSelf(a: string)
    ensures Lev(a, a) == 0
  {
    if |a| > 0 {
      LevSelf(a[..|a| - 1]);
    }
  }

  /** Distance 0 holds exactly for equal strings. */
  lemma {:induction false} LevZeroIff(a: string, b: string)
    ensures Lev(a, b) == 0 <==> a == b
    decreases |a| + |b|
  {
    if |a| > 0 && |b| > 0 {
      var a', b' := a[..|a| - 1], b[..|b| - 1];
      LevZeroIff(a', b');
      assert a == a' + [a[|a| - 1]] && b == b' + [b[|b| - 1]];
      if a == b {
        LevSelf(a);
      }
    }
  }

  /** Distance never exceeds the longer length. */
  lemma {:induction false} LevUpperBound(a: string, b: string)
    ensures Lev(a, b) <= if |a| >= |b| then |a| else |b|
    decreases |a| + |b|
  {
    if |a| > 0 && |b| > 0 {
      LevUpperBound(a[..|a| - 1], b[..|b| - 1]);
    }
  }

  /** Distance is at least the difference of the lengths. */
  lemma {:induction false} LevLowerBound(a: string, b: string)
    ensures Lev(a, b) >= |a| - |b| && Lev(a, b) >= |b| - |a|
    decreases |a| + |b|
  {
    if |a| > 0 && |b| > 0 {
      LevLowerBound(a, b[..|b| - 1]);
      LevLowerBound(a[..|a| - 1], b);
      LevLowerBound(a[..|a| - 1], b[..|b| - 1]);
    }
  }

  /** Symmetry: turning `a` into `b` costs what turning `b` into `a` costs. */
  lemma {:induction false} LevSymmetric(a: string, b: string)
    ensures Lev(a, b) == Lev(b, a)
    decreases |a| + |b|
  {
    if |a| > 0 && |b| > 0 {
      LevSymmetric(a, b[..|b| - 1]);
      LevSymmetric(a[..|a| - 1], b);
      LevSymmetric(a[..|a| - 1], b[..|b| - 1]);
    }
  }

  /** Triangle inequality over three strings. */
  lemma {:induction false} LevTriangle(a: string, b: string, c: string)
    ensures Lev(a, c) <= Lev(a, b) + Lev(b, c)
    decreases |a| + |b| + |c|
  {
    if |a| == 0 {
      LevLowerBound(b, c);
    } else if |c| == 0 {
      LevLowerBound(a, b);
    } else if |b| == 0 {
      LevUpperBound(a, c);
    } else {
      var a', b', c' := a[..|a| - 1], b[..|b| - 1], c[..|c| - 1];
      var x, y, z := a[|a| - 1], b[|b| - 1], c[|c| - 1];
      LevStep(a, b);
      LevStep(b, c);
      LevStep(a, c);
      if Lev(a, b) == Lev(a', b) + 1 {
        LevTriangle(a', b, c);
      } else if Lev(b, c) == Lev(b, c') + 1 {
        LevTriangle(a, b, c');
      } else if Lev(a, b) == Lev(a, b') + 1 {
        assert Lev(b, c) == Lev(b', c) + 1 || Lev(b, c) == Lev(b', c') + Cost(y, z);
        if Lev(b, c) == Lev(b', c) + 1 {
          LevTriangle(a, b', c);
        } else {
          LevTriangle(a, b', c');
        }
      } else {
        assert Lev(a, b) == Lev(a', b') + Cost(x, y);
        assert Lev(b, c) == Lev(b', c) + 1 || Lev(b, c) == Lev(b', c') + Cost(y, z);
        if Lev(b, c) == Lev(b', c) + 1 {
          LevTriangle(a', b', c);
        } else {
          LevTriangle(a', b', c');
        }
      }
    }
  }

  /** Appending one character costs exactly one edit. */
  lemma LevAppendOne(s: string, c: char)
    ensures Lev(s, s + [c]) == 1
  {
    var t := s + [c];
    if |s| > 0 {
      assert t[..|t| - 1] == s;
      LevSelf(s);
      LevStep(s, t);
      LevLowerBound(s, t);
    }
  }

  /** Dropping the first character costs exactly one edit: the remaining
      characters align with themselves at no cost. */
  lemma {:induction false} LevDropFirst(c: char, s: string)
    ensures Lev([c] + s, s) == 1
    decreases |s|
  {
    var t := [c] + s;
    LevLowerBound(t, s);
    if |s| > 0 {
      var s' := s[..|s| - 1];
      assert t[..|t| - 1] == [c] + s' && t[|t| - 1] == s[|s| - 1];
      LevDropFirst(c, s');
      LevStep(t, s);
    }
  }

  /** Replacing one character, with the same characters before and after it,
      costs one edit when the two characters differ and none otherwise. */
  lemma {:induction false} LevSubstituteOne(p: string, c: char, d: char, s: string)
    ensures Lev(p + [c] + s, p + [d] + s) == Cost(c, d)
    decreases |s|
  {
    var x, y := p + [c] + s, p + [d] + s;
    if c == d {
      LevSelf(x);
    } else {
      assert x[|p|] != y[|p|];
      LevZeroIff(x, y);
      if |s| == 0 {
        assert x[..|x| - 1] == p && y[..|y| - 1] == p;
        LevSelf(p);
        LevStep(x, y);
      } else {
        var s' := s[..|s| - 1];
        assert x[..|x| - 1] == p + [c] + s' && y[..|y| - 1] == p + [d] + s';
        assert x[|x| - 1] == y[|y| - 1];
        LevSubstituteOne(p, c, d, s');
        LevStep(x, y);
      }
    }
  }

  /** The recurrence read on prefixes: the distance between a[..i] and b[..j]
      from the distances between the three neighbouring pairs of prefixes. */
  lemma LevPrefixStep(a: string, b: string, i: nat, j: nat, t1: nat, t2: nat, t3: nat)
    requires 1 <= i <= |a| && 1 <= j <= |b|
    requires t1 == Lev(a[..i], b[..j - 1])
    requires t2 == Lev(a[..i - 1], b[..j])
    requires t3 == Lev(a[..i - 1], b[..j - 1])
    ensures Lev(a[..i], b[..j]) == Min3(t1 + 1, t2 + 1, t3 + Cost(a[i - 1], b[j - 1]))
  {
    var x, y := a[..i], b[..j];
    assert x[..i - 1] == a[..i - 1];
    assert y[..j - 1] == b[..j - 1];
    assert x[i - 1] == a[i - 1] && y[j - 1] == b[j - 1];
    LevStep(x, y);
  }

  /** A lower bound shared by the three neighbouring prefix pairs, each with
      the cost of its step, bounds the distance between the prefixes. */
  lemma LevPrefixLower(a: string, b: string, i: nat, j: nat, k: int)
    requires 1 <= i <= |a| && 1 <= j <= |b|
    requires Lev(a[..i], b[..j - 1]) + 1 >= k
    requires Lev(a[..i - 1], b[..j]) + 1 >= k
    requires Lev(a[..i - 1], b[..j - 1]) + Cost(a[i - 1], b[j - 1]) >= k
    ensures Lev(a[..i], b[..j]) >= k
  {
    LevPrefixStep(a, b, i, j, Lev(a[..i], b[..j - 1]), Lev(a[..i - 1], b[..j]), Lev(a[..i - 1], b[..j - 1]));
  }

  /** Entry (i, j) of the Wagner-Fischer table for `a` and `b`: row 0 is
      0, 1, ..., column 0 is 0, 1, ..., and every other entry is the least of
      its left neighbour + 1, its upper neighbour + 1 and its upper-left
      neighbour + the cost of aligning a[i-1] with b[j-1]. */
  function Table(a: string, b: string, i: nat, j: nat): nat
    requires i <= |a| && j <= |b|
    decreases i + j
  {
    if i == 0 then j
    else if j == 0 then i
    else Min3(Table(a, b, i, j - 1) + 1,
              Table(a, b, i - 1, j) + 1,
              Table(a, b, i - 1, j - 1) + Cost(a[i - 1], b[j - 1]))
  }

  /** Entry (i, j) of the table is the edit distance between the first i
      characters of `a` and the first j characters of `b`. */
  lemma {:induction false} TableIsLev(a: string, b: string, i: nat, j: nat)
    requires i <= |a| && j <= |b|
    ensures Table(a, b, i, j) == Lev(a[..i], b[..j])
    decreases i + j
  {
    if i == 0 || j == 0 {
      TableEdge(a, b, i, j);
    } else {
      TableIsLev(a, b, i, j - 1);
      TableIsLev(a, b, i - 1, j);
      TableIsLev(a, b, i - 1, j - 1);
      TableLevStep(a, b, i, j);
    }
  }

  /** Row 0 and column 0 of the table agree with the distance to an empty prefix. */
  lemma TableEdge(a: string, b: string, i: nat, j: nat)
    requires i <= |a| && j <= |b| && (i == 0 || j == 0)
    ensures Table(a, b, i, j) == Lev(a[..i], b[..j])
  {
    assert |a[..i]| == i && |b[..j]| == j;
  }

  /** An inner entry agrees with the distance when its three neighbours do. */
  lemma TableLevStep(a: string, b: string, i: nat, j: nat)
    requires 1 <= i <= |a| && 1 <= j <= |b|
    requires Table(a, b, i, j - 1) == Lev(a[..i], b[..j - 1])
    requires Table(a, b, i - 1, j) == Lev(a[..i - 1], b[..j])
    requires Table(a, b, i - 1, j - 1) == Lev(a[..i - 1], b[..j - 1])
    ensures Table(a, b, i, j) == Lev(a[..i], b[..j])
  {
    var t1, t2, t3 := Table(a, b, i, j - 1), Table(a, b, i - 1, j), Table(a, b, i - 1, j - 1);
    LevPrefixStep(a, b, i, j, t1, t2, t3);
    TableStep(a, b, i, j, t1, t2, t3);
  }

  /** One entry of the table from its three neighbours, given as values. */
  lemma TableStep(a: string, b: string, i: nat, j: nat, t1: nat, t2: nat, t3: nat)
    requires 1 <= i <= |a| && 1 <= j <= |b|
    requires t1 == Table(a, b, i, j - 1)
    requires t2 == Table(a, b, i - 1, j)
    requires t3 == Table(a, b, i - 1, j - 1)
    ensures Table(a, b, i, j) == Min3(t1 + 1, t2 + 1, t3 + Cost(a[i - 1], b[j - 1]))
  {
  }

  /** `row` holds the first |row| entries of row i of the table. */
  ghost predicate RowPrefix(a: string, b: string, i: nat, row: seq<nat>)
  {
    i <= |a| && |row| <= |b| + 1 && forall k :: 0 <= k < |row| ==> row[k] == Table(a, b, i, k)
  }

  /** Appending the next entry extends a row prefix. */
  lemma RowPrefixSnoc(a: string, b: string, i: nat, row: seq<nat>, v: nat)
    requires RowPrefix(a, b, i, row) && |row| <= |b|
    requires v == Table(a, b, i, |row|)
    ensures RowPrefix(a, b, i, row + [v])
  {
  }
}
