/** Properties that relate several gradebook operations: undo right after a
    mutator, a worked example, and what the class
    average is (and is not). */
module GradebookProperties {
  import opened Grades
  import G = Gradebook

  /** Undo right after a successful addGrade restores the grade map and the
      undo stack; the log keeps both entries. */
  method UndoAfterAddGrade(book: G.Gradebook, name: string, grade: int)
    requires name in book.gradesByStudent
    modifies book
    ensures book.gradesByStudent == old(book.gradesByStudent)
    ensures book.undoStack == old(book.undoStack)
    ensures book.activityLog ==
      old(book.activityLog) + [G.AddedGradeEntry(name, grade), G.UndoCompletedEntry()]
  {
    ghost var before := book.gradesByStudent;
    var added := book.AddGrade(name, grade);
    var undone := book.Undo();
    UndoAddGradeMap(before, name, grade);
  }

  /** Undo right after a successful removeStudent brings the student back
      with exactly the grades it had. */
  method UndoAfterRemoveStudent(book: G.Gradebook, name: string)
    requires name in book.gradesByStudent
    modifies book
    ensures book.gradesByStudent == old(book.gradesByStudent)
    ensures book.undoStack == old(book.undoStack)
    ensures book.activityLog ==
      old(book.activityLog) + [G.RemovedStudentEntry(name), G.UndoCompletedEntry()]
  {
    ghost var before := book.gradesByStudent;
    var removed := book.RemoveStudent(name);
    var undone := book.Undo();
    UndoRemoveStudentMap(before, name);
  }

  /** addStudent pushes no undo entry, so an undo after it reverses whatever
      mutator came before, and the new student stays. */
  method UndoAfterAddStudent(book: G.Gradebook, name: string)
    requires name !in book.gradesByStudent
    modifies book
    ensures old(book.undoStack) == [] ==> book.gradesByStudent == old(book.gradesByStudent)[name := []]
    ensures old(book.undoStack) != [] ==>
      book.gradesByStudent == ApplyUndo(old(book.gradesByStudent)[name := []], old(book.undoStack)[0])
  {
    var added := book.AddStudent(name);
    var undone := book.Undo();
  }

  /** A worked example: Ann gets 80 and 100, averaging 90.0 and an A;
      removing her clears the average and an undo restores it. */
  method AnnScenario() returns (average: Option<real>, letter: Option<string>,
                                 afterRemove: Option<real>, afterUndo: Option<real>)
    ensures average == Some(90.0) && letter == Some("A")
    ensures afterRemove == None && afterUndo == Some(90.0)
  {
    var book := new G.Gradebook();
    var ok := book.AddStudent("Ann");
    ok := book.AddGrade("Ann", 80);
    ok := book.AddGrade("Ann", 100);
    assert book.gradesByStudent["Ann"] == [80, 100];
    AnnMean();
    average := book.AverageFor("Ann");
    letter := book.LetterGradeFor("Ann");
    ok := book.RemoveStudent("Ann");
    assert "Ann" !in book.gradesByStudent;
    afterRemove := book.AverageFor("Ann");
    ok := book.Undo();
    assert book.gradesByStudent["Ann"] == [80, 100];
    afterUndo := book.AverageFor("Ann");
  }

  /** Grades 80 and 100 sum to 180, average 90.0 and truncate to 90. */
  lemma AnnMean()
    ensures Sum([80, 100]) == 180 && Mean(Sum([80, 100]), 2) == 90.0
    ensures TruncDiv(Sum([80, 100]), 2) == 90
  {
    assert [80, 100][..1] == [80];
    assert [80][..0] == [];
  }

  /** Letter boundaries: truncation, not rounding, and F outside 0..100. */
  lemma LetterBoundaries()
    ensures Letter(IntValue(90.0)) == "A"
    ensures Letter(IntValue(89.999)) == "B"
    ensures Letter(IntValue(-5.0)) == "F"
    ensures Letter(IntValue(105.0)) == "F"
  {
  }

  /** With every grade in 0..100 the letter comes from the scale itself:
      the truncated mean is again in 0..100. */
  lemma LetterOfValidGrades(s: seq<int>)
    requires s != []
    requires forall i :: 0 <= i < |s| ==> 0 <= s[i] <= 100
    ensures 0 <= IntValue(Mean(Sum(s), |s|)) <= 100
    ensures Letter(IntValue(Mean(Sum(s), |s|))) != "F" <==> 60 <= IntValue(Mean(Sum(s), |s|))
  {
    MeanWithinBounds(s, 0, 100);
  }

  /** The class average weighs every grade equally: with one grade of 100
      and two of 0 it is 100/3, not the mean 50 of the two students' means. */
  lemma ClassAverageIsNotMeanOfMeans()
    ensures var m := map["a" := [100], "b" := [0, 0]];
      Totals(m, m.Keys) == (100, 3) &&
      Mean(Totals(m, m.Keys).0, Totals(m, m.Keys).1) != (Mean(100, 1) + Mean(0, 2)) / 2.0
  {
    var m := map["a" := [100], "b" := [0, 0]];
    assert m.Keys == {"a", "b"};
    assert Sum([100]) == 100 by { assert [100][..0] == []; }
    assert Sum([0, 0]) == 0 by { assert [0, 0][..1] == [0]; assert [0][..0] == []; }
    TotalsRemove(m, {"a", "b"}, "a");
    assert {"a", "b"} - {"a"} == {"b"};
    TotalsRemove(m, {"b"}, "b");
    assert {"b"} - {"b"} == {};
  }

  /** Adding a grade to a student raises the class sum by that grade and
      the class count by one. */
  lemma {:induction false} TotalsAddGrade(m: map<string, seq<int>>, name: string, grade: int)
    requires name in m
    ensures var m' := m[name := m[name] + [grade]];
      Totals(m', m'.Keys).0 == Totals(m, m.Keys).0 + grade &&
      Totals(m', m'.Keys).1 == Totals(m, m.Keys).1 + 1
  {
    var m' := m[name := m[name] + [grade]];
    assert m'.Keys == m.Keys;
    TotalsRemove(m, m.Keys, name);
    TotalsRemove(m', m.Keys, name);
    TotalsSameOn(m, m', m.Keys - {name});
    SumAppend(m[name], grade);
  }

  /** Totals only look at the entries of the listed students. */
  lemma {:induction false} TotalsSameOn(m: map<string, seq<int>>, m': map<string, seq<int>>, keys: set<string>)
    requires keys <= m.Keys && keys <= m'.Keys
    requires forall k :: k in keys ==> m[k] == m'[k]
    ensures Totals(m, keys) == Totals(m', keys)
    decreases keys
  {
    if keys != {} {
      var k :| k in keys;
      TotalsRemove(m, keys, k);
      TotalsRemove(m', keys, k);
      TotalsSameOn(m, m', keys - {k});
    }
  }
}
