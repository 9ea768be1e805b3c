/** Levenshtein edit distance as `editDistance(a, b)` computes it: a table
    with one row per prefix of `b` and one column per prefix of `a`. */
module EditDistance {

  function Min3(x: nat, y: nat, z: nat): (m: nat)
    ensures m <= x && m <= y && m <= z
    ensures m == x || m == y || m == z
  {
    if x <= y && x <= z then x else if y <= z then y else z
  }

  function Max(x: nat, y: nat): nat {
    if x >= y then x else y
  }

  /** The value the table holds for the prefixes `a` and `b`: row 0 and
      column 0 hold the other string's length; equal last characters copy
      the diagonal; otherwise one more than the least of the diagonal, the
      cell to the left and the cell above. */
  function Dist(a: string, b: string): nat
    decreases |a| + |b|
  {
    if |b| == 0 then |a|
    else if |a| == 0 then |b|
    else if b[|b| - 1] == a[|a| - 1] then Dist(a[..|a| - 1], b[..|b| - 1])
    else Min3(Dist(a[..|a| - 1], b[..|b| - 1]) + 1,
              Dist(a[..|a| - 1], b) + 1,
              Dist(a, b[..|b| - 1]) + 1)
  }

  /** The textbook Levenshtein recurrence, where the diagonal step costs 0
      or 1 and is always weighed against a deletion and an insertion. It
      is never more than the longer length. */
  ghost function Levenshtein(a: string, b: string): (d: nat)
    ensures d <= Max(|a|, |b|)
    decreases |a| + |b|
  {
    if |a| == 0 then |b|
    else if |b| == 0 then |a|
    else Min3(Levenshtein(a[..|a| - 1], b[..|b| - 1]) + (if a[|a| - 1] == b[|b| - 1] then 0 else 1),
              Levenshtein(a[..|a| - 1], b) + 1,
              Levenshtein(a, b[..|b| - 1]) + 1)
  }

  /** The nested-loop table fill: the bottom-right cell is `Dist(a, b)`;
      against the empty string the distance is the other string's length. */
  method EditDistance(a: string, b: string) returns (d: nat)
    ensures d == Dist(a, b)
    ensures |a| == 0 ==> d == |b|
    ensures |b| == 0 ==> d == |a|
  {
    var matrix := new nat[|b| + 1, |a| + 1];
    for i := 0 to |b| + 1
      invariant forall k :: 0 <= k < i ==> matrix[k, 0] == k
    {
      matrix[i, 0] := i;
    }
    for j := 0 to |a| + 1
      invariant forall k :: 0 < k <= |b| ==> matrix[k, 0] == k
      invariant forall l :: 0 <= l < j ==> matrix[0, l] == l
    {
      matrix[0, j] := j;
    }
    for i := 1 to |b| + 1
      invariant forall l {:trigger matrix[i - 1, l]} :: 0 <= l <= |a| ==> matrix[i - 1, l] == Dist(a[..l], b[..i - 1])
      invariant forall k :: i <= k <= |b| ==> matrix[k, 0] == k
    {
      for j := 1 to |a| + 1
        invariant forall l {:trigger matrix[i - 1, l]} :: 0 <= l <= |a| ==> matrix[i - 1, l] == Dist(a[..l], b[..i - 1])
        invariant forall k :: i <= k <= |b| ==> matrix[k, 0] == k
        invariant forall l {:trigger matrix[i, l]} :: 0 <= l < j ==> matrix[i, l] == Dist(a[..l], b[..i])
      {
        DistPrefixStep(a, b, j, i);
        var cell: nat;
        if b[i - 1] == a[j - 1] {
          cell := matrix[i - 1, j - 1];
        } else {
          cell := Min3(matrix[i - 1, j - 1] + 1, matrix[i, j - 1] + 1, matrix[i - 1, j] + 1);
        }
        matrix[i, j] := cell;
      }
    }
    assert a[..|a|] == a && b[..|b|] == b;
    d := matrix[|b|, |a|];
  }

  /** One step of the recurrence, on the prefixes of length `j` of `a` and
      `i` of `b`. */
  lemma DistPrefixStep(a: string, b: string, j: nat, i: nat)
    requires 0 < j <= |a| && 0 < i <= |b|
    ensures Dist(a[..j], b[..i]) ==
      if b[i - 1] == a[j - 1] then Dist(a[..j - 1], b[..i - 1])
      else Min3(Dist(a[..j - 1], b[..i - 1]) + 1, Dist(a[..j - 1], b[..i]) + 1, Dist(a[..j], b[..i - 1]) + 1)
  {
    assert a[..j][..j - 1] == a[..j - 1] && b[..i][..i - 1] == b[..i - 1];
  }

  /** A string is at distance 0 from itself. */
  lemma {:induction false} DistSelf(a: string)
    ensures Dist(a, a) == 0
  {
    if |a| > 0 {
      DistSelf(a[..|a| - 1]);
    }
  }

  /** The distance is 0 exactly when the strings are equal. */
  lemma {:induction false} DistZeroIff(a: string, b: string)
    ensures Dist(a, b) == 0 <==> a == b
    decreases |a| + |b|
  {
    if a == b {
      DistSelf(a);
    } else if |a| > 0 && |b| > 0 && b[|b| - 1] == a[|a| - 1] {
      DistZeroIff(a[..|a| - 1], b[..|b| - 1]);
    }
  }

  /** The distance is symmetric. */
  lemma {:induction false} DistSymmetric(a: string, b: string)
    ensures Dist(a, b) == Dist(b, a)
    decreases |a| + |b|
  {
    if |a| > 0 && |b| > 0 {
      DistSymmetric(a[..|a| - 1], b[..|b| - 1]);
      DistSymmetric(a[..|a| - 1], b);
      DistSymmetric(a, b[..|b| - 1]);
    }
  }

  /** The distance lies between the difference of the lengths and the
      longer length. */
  lemma {:induction false} DistBounds(a: string, b: string)
    ensures |a| - |b| <= Dist(a, b) && |b| - |a| <= Dist(a, b)
    ensures Dist(a, b) <= Max(|a|, |b|)
    decreases |a| + |b|
  {
    if |a| > 0 && |b| > 0 {
      DistBounds(a[..|a| - 1], b[..|b| - 1]);
      DistBounds(a[..|a| - 1], b);
      DistBounds(a, b[..|b| - 1]);
    }
  }

  /** Strings with no character in common are as far apart as the longer
      one is long. */
  lemma {:induction false} DistNoCommonChar(a: string, b: string)
    requires forall k :: 0 <= k < |a| ==> a[k] !in b
    ensures Dist(a, b) == Max(|a|, |b|)
    decreases |a| + |b|
  {
    DistBounds(a, b);
    if |a| > 0 && |b| > 0 {
      assert a[|a| - 1] != b[|b| - 1];
      var a', b' := a[..|a| - 1], b[..|b| - 1];
      assert forall k :: 0 <= k < |b'| ==> b'[k] == b[k];
      DistNoCommonChar(a', b');
      DistNoCommonChar(a', b);
      DistNoCommonChar(a, b');
    }
  }

  /** Deleting one character is within distance 1. */
  lemma {:induction false} DistDeleteOne(x: string, c: char, y: string)
    ensures Dist(x + [c] + y, x + y) <= 1
    decreases |x| + |y|
  {
    var a, b := x + [c] + y, x + y;
    if |y| > 0 {
      var y' := y[..|y| - 1];
      assert a[..|a| - 1] == x + [c] + y' && b[..|b| - 1] == x + y';
      DistDeleteOne(x, c, y');
    } else if |x| > 0 {
      var x' := x[..|x| - 1];
      assert a == x + [c] && b == x && a[..|a| - 1] == x;
      if b[|b| - 1] == a[|a| - 1] {
        assert x == x' + [c] && b[..|b| - 1] == x';
        DistDeleteOne(x', c, []);
        assert x' + [c] + [] == x && x' + [] == x';
      } else {
        DistSelf(x);
      }
    }
  }

  /** Removing the last character of `a` changes the distance by at most 1. */
  lemma {:induction false} DistStepA(a: string, b: string)
    requires |a| > 0
    ensures Dist(a[..|a| - 1], b) <= Dist(a, b) + 1
    ensures Dist(a, b) <= Dist(a[..|a| - 1], b) + 1
    decreases |a| + |b|, 1
  {
    var a' := a[..|a| - 1];
    if |b| > 0 {
      var b' := b[..|b| - 1];
      DistStepB(a', b);
      if b[|b| - 1] != a[|a| - 1] {
        DistStepA(a, b');
      }
    }
  }

  /** Removing the last character of `b` changes the distance by at most 1. */
  lemma {:induction false} DistStepB(a: string, b: string)
    requires |b| > 0
    ensures Dist(a, b[..|b| - 1]) <= Dist(a, b) + 1
    ensures Dist(a, b) <= Dist(a, b[..|b| - 1]) + 1
    decreases |a| + |b|, 2
  {
    DistStepA(b, a);
    DistSymmetric(a, b);
    DistSymmetric(a, b[..|b| - 1]);
  }

  /** Copying the diagonal on equal characters, without weighing the other
      two neighbours, still yields the textbook Levenshtein distance. */
  lemma {:induction false} DistIsLevenshtein(a: string, b: string)
    ensures Dist(a, b) == Levenshtein(a, b)
    decreases |a| + |b|
  {
    if |a| > 0 && |b| > 0 {
      var a', b' := a[..|a| - 1], b[..|b| - 1];
      DistIsLevenshtein(a', b');
      DistIsLevenshtein(a', b);
      DistIsLevenshtein(a, b');
      if a[|a| - 1] == b[|b| - 1] {
        DistStepB(a', b);
        DistStepA(a, b');
      }
    }
  }

  /** `a` is "kitten" and `b` is "sitting", letter by letter. */
  predicate KittenSittingLetters(a: string, b: string) {
    |a| == 6 && a[0] == 'k' && a[1] == 'i' && a[2] == 't' && a[3] == 't' && a[4] == 'e' && a[5] == 'n' &&
    |b| == 7 && b[0] == 's' && b[1] == 'i' && b[2] == 't' && b[3] == 't' && b[4] == 'i' && b[5] == 'n' && b[6] == 'g'
  }

  /** `KittenSittingRow1` to `KittenSittingRow7` hold the rows of the
      table for "kitten" against "sitting": row `i` has one cell per prefix
      of "kitten" and follows from row `i - 1` by the cell rule. */
  lemma KittenSittingRow1(a: string, b: string)
    requires KittenSittingLetters(a, b)
    ensures Dist(a[..0], b[..1]) == 1
    ensures Dist(a[..1], b[..1]) == 1
    ensures Dist(a[..2], b[..1]) == 2
    ensures Dist(a[..3], b[..1]) == 3
    ensures Dist(a[..4], b[..1]) == 4
    ensures Dist(a[..5], b[..1]) == 5
    ensures Dist(a[..6], b[..1]) == 6
  {
    assert b[..1][..0] == b[..0];
    DistPrefixStep(a, b, 1, 1);
    DistPrefixStep(a, b, 2, 1);
    DistPrefixStep(a, b, 3, 1);
    DistPrefixStep(a, b, 4, 1);
    DistPrefixStep(a, b, 5, 1);
    DistPrefixStep(a, b, 6, 1);
  }

  lemma KittenSittingRow2(a: string, b: string)
    requires KittenSittingLetters(a, b)
    ensures Dist(a[..0], b[..2]) == 2
    ensures Dist(a[..1], b[..2]) == 2
    ensures Dist(a[..2], b[..2]) == 1
    ensures Dist(a[..3], b[..2]) == 2
    ensures Dist(a[..4], b[..2]) == 3
    ensures Dist(a[..5], b[..2]) == 4
    ensures Dist(a[..6], b[..2]) == 5
  {
    KittenSittingRow1(a, b);
    assert b[..2][..1] == b[..1];
    DistPrefixStep(a, b, 1, 2);
    DistPrefixStep(a, b, 2, 2);
    DistPrefixStep(a, b, 3, 2);
    DistPrefixStep(a, b, 4, 2);
    DistPrefixStep(a, b, 5, 2);
    DistPrefixStep(a, b, 6, 2);
  }

  lemma KittenSittingRow3(a: string, b: string)
    requires KittenSittingLetters(a, b)
    ensures Dist(a[..0], b[..3]) == 3
    ensures Dist(a[..1], b[..3]) == 3
    ensures Dist(a[..2], b[..3]) == 2
    ensures Dist(a[..3], b[..3]) == 1
    ensures Dist(a[..4], b[..3]) == 2
    ensures Dist(a[..5], b[..3]) == 3
    ensures Dist(a[..6], b[..3]) == 4
  {
    KittenSittingRow2(a, b);
    assert b[..3][..2] == b[..2];
    DistPrefixStep(a, b, 1, 3);
    DistPrefixStep(a, b, 2, 3);
    DistPrefixStep(a, b, 3, 3);
    DistPrefixStep(a, b, 4, 3);
    DistPrefixStep(a, b, 5, 3);
    DistPrefixStep(a, b, 6, 3);
  }

  lemma KittenSittingRow4(a: string, b: string)
    requires KittenSittingLetters(a, b)
    ensures Dist(a[..0], b[..4]) == 4
    ensures Dist(a[..1], b[..4]) == 4
    ensures Dist(a[..2], b[..4]) == 3
    ensures Dist(a[..3], b[..4]) == 2
    ensures Dist(a[..4], b[..4]) == 1
    ensures Dist(a[..5], b[..4]) == 2
    ensures Dist(a[..6], b[..4]) == 3
  {
    KittenSittingRow3(a, b);
    assert b[..4][..3] == b[..3];
    DistPrefixStep(a, b, 1, 4);
    DistPrefixStep(a, b, 2, 4);
    DistPrefixStep(a, b, 3, 4);
    DistPrefixStep(a, b, 4, 4);
    DistPrefixStep(a, b, 5, 4);
    DistPrefixStep(a, b, 6, 4);
  }

  lemma KittenSittingRow5(a: string, b: string)
    requires KittenSittingLetters(a, b)
    ensures Dist(a[..0], b[..5]) == 5
    ensures Dist(a[..1], b[..5]) == 5
    ensures Dist(a[..2], b[..5]) == 4
    ensures Dist(a[..3], b[..5]) == 3
    ensures Dist(a[..4], b[..5]) == 2
    ensures Dist(a[..5], b[..5]) == 2
    ensures Dist(a[..6], b[..5]) == 3
  {
    KittenSittingRow4(a, b);
    assert b[..5][..4] == b[..4];
    DistPrefixStep(a, b, 1, 5);
    DistPrefixStep(a, b, 2, 5);
    DistPrefixStep(a, b, 3, 5);
    DistPrefixStep(a, b, 4, 5);
    DistPrefixStep(a, b, 5, 5);
    DistPrefixStep(a, b, 6, 5);
  }

  lemma KittenSittingRow6(a: string, b: string)
    requires KittenSittingLetters(a, b)
    ensures Dist(a[..0], b[..6]) == 6
    ensures Dist(a[..1], b[..6]) == 6
    ensures Dist(a[..2], b[..6]) == 5
    ensures Dist(a[..3], b[..6]) == 4
    ensures Dist(a[..4], b[..6]) == 3
    ensures Dist(a[..5], b[..6]) == 3
    ensures Dist(a[..6], b[..6]) == 2
  {
    KittenSittingRow5(a, b);
    assert b[..6][..5] == b[..5];
    DistPrefixStep(a, b, 1, 6);
    DistPrefixStep(a, b, 2, 6);
    DistPrefixStep(a, b, 3, 6);
    DistPrefixStep(a, b, 4, 6);
    DistPrefixStep(a, b, 5, 6);
    DistPrefixStep(a, b, 6, 6);
  }

  lemma KittenSittingRow7(a: string, b: string)
    requires KittenSittingLetters(a, b)
    ensures Dist(a[..0], b[..7]) == 7
    ensures Dist(a[..1], b[..7]) == 7
    ensures Dist(a[..2], b[..7]) == 6
    ensures Dist(a[..3], b[..7]) == 5
    ensures Dist(a[..4], b[..7]) == 4
    ensures Dist(a[..5], b[..7]) == 4
    ensures Dist(a[..6], b[..7]) == 3
  {
    KittenSittingRow6(a, b);
    assert b[..7][..6] == b[..6];
    DistPrefixStep(a, b, 1, 7);
    DistPrefixStep(a, b, 2, 7);
    DistPrefixStep(a, b, 3, 7);
    DistPrefixStep(a, b, 4, 7);
    DistPrefixStep(a, b, 5, 7);
    DistPrefixStep(a, b, 6, 7);
  }

  /** The classic example: "kitten" and "sitting" are three edits apart. */
  lemma KittenSitting()
    ensures Dist("kitten", "sitting") == 3
  {
    var a, b := "kitten", "sitting";
    KittenSittingRow7(a, b);
    assert a[..6] == a && b[..7] == b;
  }
}
