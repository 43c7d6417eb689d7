/** The in-memory gradebook: a map from student name to grades, a LIFO
    stack of undo actions and an append-only activity log, all updated in
    place by the mutators. */
module Gradebook {
  import opened Grades
  import Decimal

  const MinInt32: int := -0x8000_0000
  const MaxInt32: int := 0x7FFF_FFFF

  predicate IsInt32(n: int) {
    MinInt32 <= n <= MaxInt32
  }

  /** Two's-complement wrap-around of a Java `int` computation. */
  function Wrap32(n: int): (w: int)
    ensures IsInt32(w)
    ensures IsInt32(n) ==> w == n
    ensures (w - n) % 0x1_0000_0000 == 0
  {
    (n - MinInt32) % 0x1_0000_0000 + MinInt32
  }

  // Log lines written by the mutators. Each names its kind of action in a
  // fixed opening and ends with the student it is about.

  /** The line addStudent logs; the name can be read back from its end. */
  function AddedStudentEntry(name: string): (entry: string)
    ensures |entry| == |"Added student "| + |name|
    ensures entry[|"Added student "|..] == name
  {
    "Added student " + name
  }

  /** The line addGrade logs: the grade in decimal, then the student. */
  function AddedGradeEntry(name: string, grade: int): (entry: string)
    ensures |entry| == |"Added grade "| + |Decimal.DecimalString(grade)| + |" for "| + |name|
    ensures entry[|entry| - |name|..] == name
    ensures entry[|"Added grade "|..|entry| - |" for "| - |name|] == Decimal.DecimalString(grade)
  {
    var digits := Decimal.DecimalString(grade);
    var entry := "Added grade " + digits + " for " + name;
    assert entry[|"Added grade "|..|entry| - |" for "| - |name|] == digits;
    entry
  }

  /** The line removeStudent logs; the name can be read back from its end. */
  function RemovedStudentEntry(name: string): (entry: string)
    ensures |entry| == |"Removed student "| + |name|
    ensures entry[|"Removed student "|..] == name
  {
    "Removed student " + name
  }

  /** The line undo logs; it cannot be mistaken for the line of a mutator. */
  function UndoCompletedEntry(): (entry: string)
    ensures forall name :: entry != AddedStudentEntry(name) && entry != RemovedStudentEntry(name)
    ensures forall name, grade :: entry != AddedGradeEntry(name, grade)
  {
    var entry := "Undo completed";
    assert forall name :: AddedStudentEntry(name)[0] == 'A' && RemovedStudentEntry(name)[0] == 'R';
    assert forall name, grade :: AddedGradeEntry(name, grade)[0] == 'A';
    entry
  }

  /** Lines of different mutators never coincide. */
  lemma LogEntriesDistinct(a: string, b: string, c: string, grade: int)
    ensures AddedStudentEntry(a) != AddedGradeEntry(b, grade)
    ensures AddedStudentEntry(a) != RemovedStudentEntry(c)
    ensures AddedGradeEntry(b, grade) != RemovedStudentEntry(c)
  {
    assert AddedStudentEntry(a)[6] == 's' && AddedGradeEntry(b, grade)[6] == 'g';
    assert AddedStudentEntry(a)[0] == 'A' && RemovedStudentEntry(c)[0] == 'R';
    assert AddedGradeEntry(b, grade)[0] == 'A';
  }

  /** Two readings of one string, each a space-free word followed by a
      space, split it at the same place. */
  lemma SplitAtSpace(d1: string, r1: string, d2: string, r2: string)
    requires d1 + r1 == d2 + r2
    requires forall i :: 0 <= i < |d1| ==> d1[i] != ' '
    requires forall i :: 0 <= i < |d2| ==> d2[i] != ' '
    requires r1 != [] && r1[0] == ' ' && r2 != [] && r2[0] == ' '
    ensures d1 == d2 && r1 == r2
  {
    var e := d1 + r1;
    assert e[|d1|] == ' ' && e[|d2|] == ' ';
    assert forall i :: 0 <= i < |d1| ==> e[i] != ' ';
    assert forall i :: 0 <= i < |d2| ==> e[i] != ' ';
    assert d1 == e[..|d1|] == d2;
  }

  /** An addGrade line is its fixed opening followed by the rendering of
      the grade and then " for " and the name. */
  lemma AddedGradeEntryShape(name: string, grade: int)
    ensures AddedGradeEntry(name, grade) ==
      "Added grade " + (Decimal.DecimalString(grade) + (" for " + name))
  {
  }

  /** An addGrade line determines both the grade and the student: the
      decimal grade holds no space, so the " for " after it is found. */
  lemma AddedGradeEntryInjective(n1: string, g1: int, n2: string, g2: int)
    requires AddedGradeEntry(n1, g1) == AddedGradeEntry(n2, g2)
    ensures n1 == n2 && g1 == g2
  {
    var d1, d2 := Decimal.DecimalString(g1), Decimal.DecimalString(g2);
    var r1, r2 := " for " + n1, " for " + n2;
    AddedGradeEntryShape(n1, g1);
    AddedGradeEntryShape(n2, g2);
    StripPrefix("Added grade ", d1 + r1, d2 + r2);
    Decimal.DecimalHasNoSpace(g1);
    Decimal.DecimalHasNoSpace(g2);
    SplitAtSpace(d1, r1, d2, r2);
    assert n1 == r1[5..] && n2 == r2[5..];
    Decimal.DecimalInjective(g1, g2);
  }

  lemma StripPrefix(p: string, a: string, b: string)
    requires p + a == p + b
    ensures a == b
  {
    assert a == (p + a)[|p|..];
    assert b == (p + b)[|p|..];
  }

  class Gradebook {
    /** Grades of each student, in the order they were recorded. */
    var gradesByStudent: map<string, seq<int>>
    /** Pending undo actions; the most recent one is at index 0. */
    var undoStack: seq<UndoAction>
    /** Activity log, oldest entry first. */
    var activityLog: seq<string>

    constructor ()
      ensures gradesByStudent == map[] && undoStack == [] && activityLog == []
    {
      gradesByStudent := map[];
      undoStack := [];
      activityLog := [];
    }

    /** A copy of the student's grades, or None for an unknown name. */
    function FindStudentGrades(name: string): (r: Option<seq<int>>)
      reads this
      ensures r.None? <==> name !in gradesByStudent
      ensures r.Some? ==> r.value == gradesByStudent[name]
    {
      if name in gradesByStudent then Some(gradesByStudent[name]) else None
    }

    method AddStudent(name: string) returns (ok: bool)
      modifies this
      ensures ok <==> name !in old(gradesByStudent)
      ensures ok ==> gradesByStudent == old(gradesByStudent)[name := []]
      ensures ok ==> activityLog == old(activityLog) + [AddedStudentEntry(name)]
      ensures !ok ==> gradesByStudent == old(gradesByStudent) && activityLog == old(activityLog)
      ensures undoStack == old(undoStack)
    {
      if name in gradesByStudent {
        return false;
      }
      gradesByStudent := gradesByStudent[name := []];
      activityLog := activityLog + [AddedStudentEntry(name)];
      return true;
    }

    method AddGrade(name: string, grade: int) returns (ok: bool)
      modifies this
      ensures ok <==> name in old(gradesByStudent)
      ensures ok ==> gradesByStudent == old(gradesByStudent)[name := old(gradesByStudent)[name] + [grade]]
      ensures ok ==> undoStack == [RemoveLastGrade(name)] + old(undoStack)
      ensures ok ==> activityLog == old(activityLog) + [AddedGradeEntry(name, grade)]
      ensures !ok ==> unchanged(this)
    {
      var grades := FindStudentGrades(name);
      if grades.None? {
        return false;
      }
      gradesByStudent := gradesByStudent[name := grades.value + [grade]];
      undoStack := [RemoveLastGrade(name)] + undoStack;
      activityLog := activityLog + [AddedGradeEntry(name, grade)];
      return true;
    }

    method RemoveStudent(name: string) returns (ok: bool)
      modifies this
      ensures ok <==> name in old(gradesByStudent)
      ensures ok ==> gradesByStudent == old(gradesByStudent) - {name}
      ensures ok ==> undoStack == [RestoreStudent(name, old(gradesByStudent)[name])] + old(undoStack)
      ensures ok ==> activityLog == old(activityLog) + [RemovedStudentEntry(name)]
      ensures !ok ==> unchanged(this)
    {
      var grades := FindStudentGrades(name);
      if grades.None? {
        return false;
      }
      var gradesCopy := grades.value;
      gradesByStudent := gradesByStudent - {name};
      undoStack := [RestoreStudent(name, gradesCopy)] + undoStack;
      activityLog := activityLog + [RemovedStudentEntry(name)];
      return true;
    }

    /** Runs one undo action against this gradebook's grade map. */
    method Apply(action: UndoAction)
      modifies this`gradesByStudent
      ensures gradesByStudent == ApplyUndo(old(gradesByStudent), action)
    {
      match action
      case RemoveLastGrade(name) =>
        if name in gradesByStudent {
          var list := gradesByStudent[name];
          if list != [] {
            gradesByStudent := gradesByStudent[name := list[..|list| - 1]];
          }
        }
      case RestoreStudent(name, snapshot) =>
        gradesByStudent := gradesByStudent[name := snapshot];
    }

    method Undo() returns (ok: bool)
      modifies this
      ensures ok <==> old(undoStack) != []
      ensures ok ==> gradesByStudent == ApplyUndo(old(gradesByStudent), old(undoStack)[0])
      ensures ok ==> undoStack == old(undoStack)[1..]
      ensures ok ==> activityLog == old(activityLog) + [UndoCompletedEntry()]
      ensures !ok ==> unchanged(this)
    {
      if undoStack == [] {
        return false;
      }
      var actionToUndo := undoStack[0];
      undoStack := undoStack[1..];
      Apply(actionToUndo);
      activityLog := activityLog + [UndoCompletedEntry()];
      return true;
    }

    /** The mean of the student's grades; None for an unknown student and
        for a student without grades. */
    method AverageFor(name: string) returns (avg: Option<real>)
      ensures avg.None? <==> name !in gradesByStudent || gradesByStudent[name] == []
      ensures avg.Some? ==> avg.value == Mean(Sum(gradesByStudent[name]), |gradesByStudent[name]|)
    {
      var grades := FindStudentGrades(name);
      if grades.None? {
        return None;
      }
      var list := grades.value;
      if list == [] {
        return None;
      }
      var sum := 0;
      for i := 0 to |list|
        invariant sum == Sum(list[..i])
      {
        assert list[..i + 1] == list[..i] + [list[i]];
        SumAppend(list[..i], list[i]);
        sum := sum + list[i];
      }
      assert list[..|list|] == list;
      return Some(Mean(sum, |list|));
    }

    /** The letter for the student's truncated mean; None exactly when
        AverageFor gives None. */
    method LetterGradeFor(name: string) returns (letter: Option<string>)
      ensures letter.None? <==> name !in gradesByStudent || gradesByStudent[name] == []
      ensures letter.Some? ==>
        letter.value == Letter(IntValue(Mean(Sum(gradesByStudent[name]), |gradesByStudent[name]|)))
      ensures letter.Some? ==>
        letter.value == Letter(TruncDiv(Sum(gradesByStudent[name]), |gradesByStudent[name]|))
    {
      var avg := AverageFor(name);
      if avg.None? {
        return None;
      }
      MeanIntValue(Sum(gradesByStudent[name]), |gradesByStudent[name]|);
      return Some(Letter(IntValue(avg.value)));
    }

    /** Total of all grades over total number of grades, across every
        student; None when no student has a grade. */
    method ClassAverage() returns (avg: Option<real>)
      ensures avg.None? <==> Totals(gradesByStudent, gradesByStudent.Keys).1 == 0
      ensures avg.None? <==> forall k :: k in gradesByStudent ==> gradesByStudent[k] == []
      ensures avg.Some? ==>
        var total := Totals(gradesByStudent, gradesByStudent.Keys);
        total.1 > 0 && avg.value == Mean(total.0, total.1)
    {
      var sum := 0;
      var count := 0;
      var todo := gradesByStudent.Keys;
      while todo != {}
        invariant todo <= gradesByStudent.Keys
        invariant sum == Totals(gradesByStudent, gradesByStudent.Keys - todo).0
        invariant count == Totals(gradesByStudent, gradesByStudent.Keys - todo).1
        decreases todo
      {
        var student :| student in todo;
        var grades := gradesByStudent[student];
        ghost var before := sum;
        for j := 0 to |grades|
          invariant sum == before + Sum(grades[..j])
          invariant count == Totals(gradesByStudent, gradesByStudent.Keys - todo).1 + j
        {
          assert grades[..j + 1] == grades[..j] + [grades[j]];
          SumAppend(grades[..j], grades[j]);
          sum := sum + grades[j];
          count := count + 1;
        }
        assert grades[..|grades|] == grades;
        var done := gradesByStudent.Keys - todo;
        assert (done + {student}) - {student} == done;
        TotalsRemove(gradesByStudent, done + {student}, student);
        todo := todo - {student};
        assert gradesByStudent.Keys - todo == done + {student};
      }
      assert gradesByStudent.Keys - todo == gradesByStudent.Keys;
      TotalsCountZero(gradesByStudent, gradesByStudent.Keys);
      if count == 0 {
        return None;
      }
      return Some(Mean(sum, count));
    }

    /** The last `maxItems` log entries, oldest first. The start index
        `size - maxItems` is computed in 32-bit arithmetic and clamped only
        from below; when it exceeds the size, subList's range check throws
        IllegalArgumentException (start after end), which None stands for. */
    function RecentLog(maxItems: int): (r: Option<seq<string>>)
      reads this
      requires IsInt32(maxItems) && |activityLog| <= MaxInt32
      ensures activityLog == [] ==> r == Some([])
      ensures 0 <= maxItems ==> r.Some?
      ensures 0 <= maxItems && r.Some? ==>
        var n := if maxItems < |activityLog| then maxItems else |activityLog|;
        |r.value| == n &&
        forall i :: 0 <= i < n ==> r.value[i] == activityLog[|activityLog| - n + i]
      ensures r.Some? ==>
        |r.value| <= |activityLog| && activityLog == activityLog[..|activityLog| - |r.value|] + r.value
      ensures maxItems < 0 && r.Some? ==> r.value == activityLog
      ensures maxItems < 0 && activityLog != [] ==>
        (r.None? <==> |activityLog| - maxItems <= MaxInt32)
    {
      var size := |activityLog|;
      if size == 0 then Some([])
      else
        var startIndex := if Wrap32(size - maxItems) < 0 then 0 else Wrap32(size - maxItems);
        if startIndex > size then None else Some(activityLog[startIndex..size])
    }
  }
}
