# Gradebook, modelled in Dafny

A model of the in-memory gradebook engine of `edu.course.gradebook.Gradebook`.
The engine keeps three pieces of state:

- a map from student name to that student's grades, in the order they were recorded;
- a last-in-first-out stack of undo actions;
- an append-only activity log of text lines.

The mutators `addStudent`, `addGrade`, `removeStudent` and `undo` update these in place. They return `false` and change nothing when they do not apply. The queries `averageFor`, `letterGradeFor`, `classAverage` and `recentLog` compute values from the state without changing it.

Files:

- `gradebook.dfy` (module `Gradebook`): the class `Gradebook`, whose fields are the map, the stack and the log. The mutators are methods with `modifies this`, and each states the whole new state. The two averages are loops proved against `Sum` and `Totals`. `RecentLog` is a function of the log.
- `grades.dfy` (module `Grades`): the pure specification.
  - `Sum` and `Mean` for averages. `IntValue` is Java's truncating `Double.intValue()`.
  - `Letter` is the `switch` of `letterGradeFor`.
  - The undo closures become a datatype `UndoAction`, run by `ApplyUndo`.
  - `Totals` gives the class-wide sum and count. It visits students in any order.
- `decimal.dfy` (module `Decimal`): the decimal rendering of an `int` inside the log line `"Added grade N for NAME"`. It comes with its parser and a round-trip lemma.
- The log lines themselves are functions in `gradebook.dfy`. Lemmas there show that lines of different actions never coincide, and that an addGrade line determines both its grade and its student.
- `properties.dfy` (module `GradebookProperties`): properties that span several calls.
  - An undo right after `addGrade` or `removeStudent` restores the map.
  - An undo after `addStudent` reaches the action before it.
  - A worked example with Ann.
  - Letter boundaries.
  - The class average is a mean over all grades, not a mean of per-student means.

Averages are returned as the exact `real` value of sum divided by count.

The undo stack is a `seq` whose head is the top, so push and pop work at index 0. This matches `ArrayDeque.push` and `pop`.

With a negative `maxItems`, the start index `size - maxItems` is clamped from below by `Math.max` but not from above. On a non-empty log it then exceeds `size`, and the range check of `subList` throws `IllegalArgumentException`, because the start index lies after the end index. `RecentLog` returns `None` for that exception. The subtraction is done in 32-bit arithmetic, so for a very negative `maxItems` such as `Integer.MIN_VALUE` it wraps to a negative start index. `Math.max` then clamps that to 0 and the whole log is returned. The contract states both cases.

## Model

| member | source | states |
|---|---|---|
| `Gradebook.Gradebook.constructor` | src/main/java/edu/course/gradebook/Gradebook.java:7-9 | a new gradebook has no students, no undo actions and an empty log |
| `Gradebook.Gradebook.FindStudentGrades` | src/main/java/edu/course/gradebook/Gradebook.java:11-13 | absent exactly for an unknown name; otherwise a copy of that student's grades |
| `Gradebook.Gradebook.AddStudent` | src/main/java/edu/course/gradebook/Gradebook.java:15-24 | succeeds exactly for a new name; the name then maps to no grades, other students are untouched, one "Added student NAME" line is logged, and no undo action is pushed; on failure map and log are unchanged |
| `Gradebook.Gradebook.AddGrade` | src/main/java/edu/course/gradebook/Gradebook.java:26-43 | succeeds exactly for a known name; the grade is appended to that student's grades only, one RemoveLastGrade action is pushed and one "Added grade N for NAME" line is logged; on failure nothing changes |
| `Gradebook.Gradebook.RemoveStudent` | src/main/java/edu/course/gradebook/Gradebook.java:45-62 | succeeds exactly for a known name; the name stops being a key, other entries stay, a RestoreStudent action holding the removed grades is pushed and one "Removed student NAME" line is logged; on failure nothing changes |
| `Gradebook.Gradebook.Apply` | src/main/java/edu/course/gradebook/Gradebook.java:34-58 | running an undo action changes only the grade map: it drops the last grade (if the student exists and has one) or puts the snapshot back |
| `Gradebook.Gradebook.Undo` | src/main/java/edu/course/gradebook/Gradebook.java:118-128 | fails with no change exactly when the stack is empty; otherwise it pops exactly the top action, applies it to the map, pushes nothing and logs "Undo completed" |
| `Gradebook.Gradebook.AverageFor` | src/main/java/edu/course/gradebook/Gradebook.java:64-81 | empty exactly when the student is unknown or has no grades; otherwise the sum of the grades divided by their count |
| `Gradebook.Gradebook.LetterGradeFor` | src/main/java/edu/course/gradebook/Gradebook.java:83-98 | empty exactly when the average is empty; otherwise the letter of the average truncated toward zero, which equals Java's truncating integer division of sum by count |
| `Gradebook.Gradebook.ClassAverage` | src/main/java/edu/course/gradebook/Gradebook.java:100-116 | empty exactly when no student has a grade (total count zero); otherwise the sum of every grade over the number of every grade |
| `Gradebook.Gradebook.RecentLog` | src/main/java/edu/course/gradebook/Gradebook.java:130-139 | for maxItems >= 0, the last min(maxItems, size) log lines in chronological order, and empty for an empty log; a suffix of the log in every case; for a negative maxItems on a non-empty log it throws exactly when size - maxItems fits in an int, and otherwise returns the whole log |
| `Gradebook.Wrap32` | src/main/java/edu/course/gradebook/Gradebook.java:137 | Java int subtraction: the result is in int range, agrees with the exact value when that fits, and differs from it by a multiple of 2^32 |
| `Grades.IntValue` | src/main/java/edu/course/gradebook/Gradebook.java:90 | Double.intValue truncates toward zero: for a non-negative value the result is its floor, for a negative value its ceiling, so it keeps the sign and lies within 1 of the value on the side of zero |
| `Grades.MeanIntValue` | src/main/java/edu/course/gradebook/Gradebook.java:79-90 | truncating the floating mean gives the same integer as Java's integer division of sum by count, negative sums included |
| `Grades.Letter` | src/main/java/edu/course/gradebook/Gradebook.java:90-96 | the case lists mean ranges: A exactly for 90..100, B for 80..89, C for 70..79, D for 60..69, F for everything below 60 or above 100 |
| `Grades.LetterMonotone` | src/main/java/edu/course/gradebook/Gradebook.java:90-96 | within 0..100 a higher integer average never gets a lower letter |
| `Grades.NegativeMeanIsF` | src/main/java/edu/course/gradebook/Gradebook.java:95 | a negative average gets F whether it is truncated or floored |
| `Grades.SumBounds` | src/main/java/edu/course/gradebook/Gradebook.java:74-77 | the accumulated sum of grades in lo..hi lies between count*lo and count*hi |
| `Grades.MeanWithinBounds` | src/main/java/edu/course/gradebook/Gradebook.java:79 | the average of grades in lo..hi lies in lo..hi |
| `Grades.ApplyUndoLocal` | src/main/java/edu/course/gradebook/Gradebook.java:34-58 | an undo action leaves every student other than the one it names unchanged |
| `Grades.UndoAddGradeMap` | src/main/java/edu/course/gradebook/Gradebook.java:34-39 | dropping the last grade of a known student reverses appending one |
| `Grades.UndoRemoveStudentMap` | src/main/java/edu/course/gradebook/Gradebook.java:56-58 | reinserting the snapshot reverses removing the student |
| `Grades.TotalsRemove` | src/main/java/edu/course/gradebook/Gradebook.java:104-109 | the class totals do not depend on the order in which students are visited: any student can be taken out first |
| `Grades.TotalsCountZero` | src/main/java/edu/course/gradebook/Gradebook.java:111-113 | the total count is zero exactly when every student has no grades |
| `Decimal.DecimalString` | src/main/java/edu/course/gradebook/Gradebook.java:41 | Java's int-to-text conversion: a '-' exactly for negative numbers, then one or more digits and nothing else, with no leading zero, and 0 written as "0" |
| `Decimal.DecimalRoundTrip` | src/main/java/edu/course/gradebook/Gradebook.java:41 | the decimal text of a grade in the log reads back as that grade |
| `Decimal.DecimalHasNoSpace` | src/main/java/edu/course/gradebook/Gradebook.java:41 | the decimal text of a grade holds no space, so the " for " after it in the log line can be found |
| `Decimal.DecimalInjective` | src/main/java/edu/course/gradebook/Gradebook.java:41 | different grades give different log text |
| `Gradebook.AddedStudentEntry` | src/main/java/edu/course/gradebook/Gradebook.java:22 | the addStudent line is "Added student " followed by the name, which can be read back from its end |
| `Gradebook.AddedGradeEntry` | src/main/java/edu/course/gradebook/Gradebook.java:41 | the addGrade line is "Added grade ", the grade in decimal, " for " and the name; the decimal grade and the name can be read back from their positions |
| `Gradebook.RemovedStudentEntry` | src/main/java/edu/course/gradebook/Gradebook.java:60 | the removeStudent line is "Removed student " followed by the name, which can be read back from its end |
| `Gradebook.UndoCompletedEntry` | src/main/java/edu/course/gradebook/Gradebook.java:125 | the undo line "Undo completed" differs from every line a mutator logs |
| `Gradebook.LogEntriesDistinct` | src/main/java/edu/course/gradebook/Gradebook.java:22-60 | the lines of addStudent, addGrade and removeStudent never coincide, whatever the names and grade |
| `Gradebook.AddedGradeEntryInjective` | src/main/java/edu/course/gradebook/Gradebook.java:41 | one addGrade line comes from exactly one pair of student and grade |
| `GradebookProperties.UndoAfterAddGrade` | src/main/java/edu/course/gradebook/Gradebook.java:26-43 | addGrade on a known student followed by undo restores the grade map and the undo stack; the log gains both lines |
| `GradebookProperties.UndoAfterRemoveStudent` | src/main/java/edu/course/gradebook/Gradebook.java:45-62 | removeStudent followed by undo brings the student back with exactly the grades it had, and restores the undo stack |
| `GradebookProperties.UndoAfterAddStudent` | src/main/java/edu/course/gradebook/Gradebook.java:15-24 | addStudent pushes no undo action: a following undo reverses the action before it, and the new student remains |
| `GradebookProperties.AnnScenario` | src/main/java/edu/course/gradebook/Gradebook.java:64-98 | grades 80 and 100 average 90.0 and give an A; after removal the average is empty; after undo it is 90.0 again |
| `GradebookProperties.AnnMean` | src/main/java/edu/course/gradebook/Gradebook.java:74-90 | grades 80 and 100 sum to 180, their mean is 90.0 and it truncates to 90 |
| `GradebookProperties.LetterBoundaries` | src/main/java/edu/course/gradebook/Gradebook.java:89-96 | 90.0 gives A, 89.999 gives B (truncation, not rounding), -5 and 105 give F |
| `GradebookProperties.LetterOfValidGrades` | src/main/java/edu/course/gradebook/Gradebook.java:83-98 | with every grade in 0..100 the truncated average is in 0..100, and the letter is F exactly when it is below 60 |
| `GradebookProperties.ClassAverageIsNotMeanOfMeans` | src/main/java/edu/course/gradebook/Gradebook.java:100-116 | one grade of 100 and two grades of 0 give a class average of 100/3, not the mean 50 of the two students' means |
| `GradebookProperties.TotalsAddGrade` | src/main/java/edu/course/gradebook/Gradebook.java:104-109 | adding a grade raises the class sum by that grade and the class count by one |

## Left out

- Floating point: each average is the exact rational sum/count as a `real`. The source adds grades into a `double` and divides there. Double rounding and the loss of precision beyond 2^53 are not modelled.
- Java `int` range for grades and for `classAverage`'s `count`: the model uses unbounded integers. The source keeps the sum in a `double`, so it does not wrap. `count` wraps once there are 2^31 grades.
- `Double.intValue()` saturation at the `int` bounds: it cannot occur, because the mean of `int` grades lies between the smallest and the largest grade (`Grades.MeanWithinBounds`).
- HashMap iteration order in `classAverage`: the model visits students in an arbitrary order. `Grades.TotalsRemove` shows the totals do not depend on it.
- Aliasing: `findStudentGrades` returns the live list, so a caller could change a student's grades behind the gradebook's back. The model returns a copy of the value.
- The `UndoAction` interface is declared outside `Gradebook.java`, and its instances are lambdas. They are modelled as the datatype `Grades.UndoAction`, run by `Gradebook.Gradebook.Apply`.
- `null` names: a Java `HashMap` accepts a `null` key, but a Dafny string cannot be null.
- Gradebook.Gradebook.RecentLog: requires the log to hold at most 2^31-1 lines, because Java's `size()` is an `int`.
- Concurrency: none exists in the source.
