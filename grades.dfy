/** Pure specification of the gradebook: the values the class stores and
    the functions its methods are proved against. */
module Grades {

  datatype Option<T> = None | Some(value: T)

  // ---------------------------------------------------------------------
  // Sums and averages

  /** Sum of grades, accumulated front to back as the source's loops do. */
  function Sum(s: seq<int>): (total: int)
    decreases |s|
  {
    if s == [] then 0 else Sum(s[..|s| - 1]) + s[|s| - 1]
  }

  /** Appending one grade adds it to the sum. */
  lemma SumAppend(s: seq<int>, x: int)
    ensures Sum(s + [x]) == Sum(s) + x
  {
    assert (s + [x])[..|s|] == s;
  }

  /** The sum lies between count * lowest grade and count * highest grade. */
  lemma {:induction false} SumBounds(s: seq<int>, lo: int, hi: int)
    requires forall i :: 0 <= i < |s| ==> lo <= s[i] <= hi
    ensures |s| * lo <= Sum(s) <= |s| * hi
    decreases |s|
  {
    if s != [] {
      var init := s[..|s| - 1];
      SumBounds(init, lo, hi);
      assert Sum(s) == Sum(init) + s[|s| - 1];
      assert |s| * lo == |init| * lo + lo;
      assert |s| * hi == |init| * hi + hi;
    }
  }

  /** The exact value of `sum / count` computed in floating point. */
  function Mean(sum: int, count: nat): (mean: real)
    requires count > 0
  {
    sum as real / count as real
  }

  /** Java's `Double.intValue()`: truncation toward zero. */
  function IntValue(r: real): (n: int)
    ensures r >= 0.0 ==> n as real <= r < n as real + 1.0
    ensures r < 0.0 ==> n as real - 1.0 < r <= n as real
    ensures (r >= 0.0 ==> 0 <= n) && (r < 0.0 ==> n <= 0)
    ensures -1.0 < r - n as real < 1.0
  {
    if r >= 0.0 then r.Floor else -((-r).Floor)
  }

  /** Java's integer division `/`, which truncates toward zero. */
  function TruncDiv(a: int, b: nat): (q: int)
    requires b > 0
  {
    if a >= 0 then a / b else -((-a) / b)
  }

  lemma MulMonotone(x: real, y: real, c: real)
    requires x <= y && c > 0.0
    ensures x * c <= y * c
  {
  }

  lemma FloorOfQuotient(a: nat, b: nat)
    requires b > 0
    ensures (a as real / b as real).Floor == a / b
  {
    var q, m := a / b, a % b;
    assert a == q * b + m && 0 <= m < b;
    var r := a as real / b as real;
    assert r * b as real == a as real;
    assert q as real * b as real <= a as real;
    assert (q as real) <= r by {
      assert q as real * b as real <= r * b as real;
    }
    assert r < q as real + 1.0 by {
      assert a < (q + 1) * b;
      assert a as real < (q + 1) as real * b as real;
      if r >= q as real + 1.0 {
        MulMonotone(q as real + 1.0, r, b as real);
      }
    }
  }

  /** Truncating the floating mean gives Java's truncating integer
      division of the sum by the count. */
  lemma MeanIntValue(sum: int, count: nat)
    requires count > 0
    ensures IntValue(Mean(sum, count)) == TruncDiv(sum, count)
  {
    if sum >= 0 {
      FloorOfQuotient(sum, count);
    } else {
      FloorOfQuotient(-sum, count);
      assert -Mean(sum, count) == (-sum) as real / count as real;
    }
  }

  lemma MulStrict(x: real, y: real, c: real)
    requires x < y && c > 0.0
    ensures x * c < y * c
  {
  }

  lemma MeanAtLeast(sum: int, count: nat, lo: int)
    requires count > 0 && count * lo <= sum
    ensures lo as real <= Mean(sum, count)
  {
    var r, n := Mean(sum, count), count as real;
    assert r * n == sum as real;
    assert (count * lo) as real == lo as real * n;
    if r < lo as real {
      MulStrict(r, lo as real, n);
    }
  }

  lemma MeanAtMost(sum: int, count: nat, hi: int)
    requires count > 0 && sum <= count * hi
    ensures Mean(sum, count) <= hi as real
  {
    var r, n := Mean(sum, count), count as real;
    assert r * n == sum as real;
    assert (count * hi) as real == hi as real * n;
    if r > hi as real {
      MulStrict(hi as real, r, n);
    }
  }

  /** The mean of grades that all lie in lo..hi lies in lo..hi too. */
  lemma MeanWithinBounds(s: seq<int>, lo: int, hi: int)
    requires s != []
    requires forall i :: 0 <= i < |s| ==> lo <= s[i] <= hi
    ensures lo as real <= Mean(Sum(s), |s|) <= hi as real
  {
    SumBounds(s, lo, hi);
    MeanAtLeast(Sum(s), |s|, lo);
    MeanAtMost(Sum(s), |s|, hi);
  }

  // ---------------------------------------------------------------------
  // Letter grades

  /** The switch of letterGradeFor: the case lists of the source. */
  function Letter(n: int): (letter: string)
    ensures letter == "A" <==> 90 <= n <= 100
    ensures letter == "B" <==> 80 <= n <= 89
    ensures letter == "C" <==> 70 <= n <= 79
    ensures letter == "D" <==> 60 <= n <= 69
    ensures letter == "F" <==> (n < 60 || n > 100)
  {
    if n in {90, 91, 92, 93, 94, 95, 96, 97, 98, 99, 100} then "A"
    else if n in {80, 81, 82, 83, 84, 85, 86, 87, 88, 89} then "B"
    else if n in {70, 71, 72, 73, 74, 75, 76, 77, 78, 79} then "C"
    else if n in {60, 61, 62, 63, 64, 65, 66, 67, 68, 69} then "D"
    else "F"
  }

  /** Position of a letter on the scale, F lowest. */
  function Rank(letter: string): (rank: nat) {
    if letter == "A" then 4
    else if letter == "B" then 3
    else if letter == "C" then 2
    else if letter == "D" then 1
    else 0
  }

  /** Within 0..100 a higher integer average never earns a lower letter. */
  lemma LetterMonotone(a: int, b: int)
    requires 0 <= a <= b <= 100
    ensures Rank(Letter(a)) <= Rank(Letter(b))
  {
  }

  /** A negative mean always earns F, whichever rounding is used. */
  lemma NegativeMeanIsF(sum: int, count: nat)
    requires count > 0 && sum < 0
    ensures Letter(IntValue(Mean(sum, count))) == "F"
    ensures Letter(sum / count) == "F"
  {
    MeanIntValue(sum, count);
  }

  // ---------------------------------------------------------------------
  // Undo entries

  /** The reversal actions the source pushes as closures. */
  datatype UndoAction =
    | RemoveLastGrade(name: string)
    | RestoreStudent(name: string, snapshot: seq<int>)

  /** The effect of running an undo action against the grade map. */
  function ApplyUndo(m: map<string, seq<int>>, action: UndoAction): (m': map<string, seq<int>>) {
    match action
    case RemoveLastGrade(name) =>
      if name in m && m[name] != [] then m[name := m[name][..|m[name]| - 1]] else m
    case RestoreStudent(name, snapshot) =>
      m[name := snapshot]
  }

  /** Undo actions only touch the entry of the student they name. */
  lemma ApplyUndoLocal(m: map<string, seq<int>>, action: UndoAction, other: string)
    requires other != action.name
    ensures other in ApplyUndo(m, action) <==> other in m
    ensures other in m ==> ApplyUndo(m, action)[other] == m[other]
  {
  }

  /** Removing the last grade reverses appending a grade. */
  lemma UndoAddGradeMap(m: map<string, seq<int>>, name: string, grade: int)
    requires name in m
    ensures ApplyUndo(m[name := m[name] + [grade]], RemoveLastGrade(name)) == m
  {
    var g := m[name] + [grade];
    assert g[..|g| - 1] == m[name];
    assert m[name := m[name]] == m;
  }

  /** Restoring the snapshot reverses removing a student. */
  lemma UndoRemoveStudentMap(m: map<string, seq<int>>, name: string)
    requires name in m
    ensures ApplyUndo(m - {name}, RestoreStudent(name, m[name])) == m
  {
    assert (m - {name})[name := m[name]] == m;
  }

  // ---------------------------------------------------------------------
  // Totals over the whole gradebook

  /** Sum and count of every grade of the students in `keys`; the order in
      which students are visited does not matter (TotalsRemove). */
  ghost function Totals(m: map<string, seq<int>>, keys: set<string>): (t: (int, nat))
    requires keys <= m.Keys
    decreases keys
  {
    if keys == {} then (0, 0)
    else
      var k :| k in keys;
      var rest := Totals(m, keys - {k});
      (rest.0 + Sum(m[k]), rest.1 + |m[k]|)
  }

  /** Any student can be taken out of the totals first. */
  lemma {:induction false} TotalsRemove(m: map<string, seq<int>>, keys: set<string>, k: string)
    requires keys <= m.Keys && k in keys
    ensures Totals(m, keys).0 == Totals(m, keys - {k}).0 + Sum(m[k])
    ensures Totals(m, keys).1 == Totals(m, keys - {k}).1 + |m[k]|
    decreases keys
  {
    var j :| j in keys && Totals(m, keys) ==
      (Totals(m, keys - {j}).0 + Sum(m[j]), Totals(m, keys - {j}).1 + |m[j]|);
    if j != k {
      TotalsRemove(m, keys - {j}, k);
      TotalsRemove(m, keys - {k}, j);
      assert keys - {j} - {k} == keys - {k} - {j};
    }
  }

  /** The total count is zero exactly when no listed student has a grade. */
  lemma {:induction false} TotalsCountZero(m: map<string, seq<int>>, keys: set<string>)
    requires keys <= m.Keys
    ensures Totals(m, keys).1 == 0 <==> forall k :: k in keys ==> m[k] == []
    decreases keys
  {
    if keys != {} {
      var k :| k in keys;
      TotalsRemove(m, keys, k);
      TotalsCountZero(m, keys - {k});
    }
  }
}
