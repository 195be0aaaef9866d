/** The two tables the chatbot answers from (`alunos.csv`, `cursos.csv`) and the
    dataframe queries it runs on them: the first row matching a mask, the rows
    with a non-null column, and a column's distinct values in order. */
module Tables {
  import opened Wrappers

  /** A row of the courses table. */
  datatype Course = Course(name: string, durationWeeks: nat, level: string)

  /** A row of the students table; `currentJob` and `region` may be empty cells. */
  datatype Student = Student(name: string, currentJob: Option<string>, region: Option<string>)

  // ---------------------------------------------------------------------------
  // First row of a filtered table (`df[mask].iloc[0]`, with `.empty` for None)
  // ---------------------------------------------------------------------------

  /** The position of the first row satisfying `p`, or None when the filtered
      table is empty. */
  function FirstIndex<T>(rows: seq<T>, p: T -> bool): (r: Option<nat>)
    ensures r.Some? ==> r.value < |rows| && p(rows[r.value])
    ensures r.Some? ==> forall j :: 0 <= j < r.value ==> !p(rows[j])
    ensures r.None? <==> forall j :: 0 <= j < |rows| ==> !p(rows[j])
  {
    if rows == [] then None
    else if p(rows[0]) then Some(0)
    else match FirstIndex(rows[1..], p)
         case None => None
         case Some(i) => Some(i + 1)
  }

  /** Any row satisfying `p` with no earlier row satisfying it is the one chosen. */
  lemma FirstIndexIs<T>(rows: seq<T>, p: T -> bool, i: nat)
    requires i < |rows| && p(rows[i])
    requires forall j :: 0 <= j < i ==> !p(rows[j])
    ensures FirstIndex(rows, p) == Some(i)
  {
  }

  // ---------------------------------------------------------------------------
  // Rows with a job (`alunos_df[alunos_df['current_job'].notnull()]`)
  // ---------------------------------------------------------------------------

  /** The students whose `currentJob` cell is filled, in table order. */
  function Employed(students: seq<Student>): (r: seq<Student>)
    ensures |r| <= |students|
    ensures forall i :: 0 <= i < |r| ==> r[i].currentJob.Some?
    ensures forall s :: s in r <==> s in students && s.currentJob.Some?
  {
    if students == [] then []
    else (if students[0].currentJob.Some? then [students[0]] else []) + Employed(students[1..])
  }

  /** The selection keeps table order: selecting from two consecutive parts of a
      table is selecting from each part in turn. */
  lemma {:induction false} EmployedAppend(a: seq<Student>, b: seq<Student>)
    ensures Employed(a + b) == Employed(a) + Employed(b)
  {
    if a == [] {
      assert a + b == b;
    } else {
      var head := if a[0].currentJob.Some? then [a[0]] else [];
      calc {
        Employed(a + b);
        { assert (a + b)[0] == a[0]; assert (a + b)[1..] == a[1..] + b; }
        head + Employed(a[1..] + b);
        { EmployedAppend(a[1..], b); }
        head + (Employed(a[1..]) + Employed(b));
        head + Employed(a[1..]) + Employed(b);
      }
    }
  }

  // ---------------------------------------------------------------------------
  // Distinct regions (`alunos_df['region'].dropna().unique().tolist()`)
  // ---------------------------------------------------------------------------

  /** The filled `region` cells, in table order (`dropna`). */
  function Regions(students: seq<Student>): (r: seq<string>)
    ensures |r| <= |students|
    ensures forall x :: x in r <==> exists i :: 0 <= i < |students| && students[i].region == Some(x)
  {
    if students == [] then []
    else
      var rest := Regions(students[1..]);
      assert forall i :: 1 <= i < |students| ==> students[1..][i - 1] == students[i];
      match students[0].region
      case None => rest
      case Some(x) => [x] + rest
  }

  /** `dropna()` keeps table order: the filled regions of two consecutive
      parts of a table are those of each part in turn. */
  lemma {:induction false} RegionsAppend(a: seq<Student>, b: seq<Student>)
    ensures Regions(a + b) == Regions(a) + Regions(b)
  {
    if a == [] {
      assert a + b == b && Regions(a) == [];
    } else {
      var head := if a[0].region.Some? then [a[0].region.value] else [];
      calc {
        Regions(a + b);
        { assert (a + b)[0] == a[0]; assert (a + b)[1..] == a[1..] + b; }
        head + Regions(a[1..] + b);
        { RegionsAppend(a[1..], b); }
        head + (Regions(a[1..]) + Regions(b));
        (head + Regions(a[1..])) + Regions(b);
        { assert Regions(a) == head + Regions(a[1..]); }
        Regions(a) + Regions(b);
      }
    }
  }

  /** A single row contributes its region when the cell is filled, else nothing. */
  lemma RegionsOfOneRow(s: Student)
    ensures Regions([s]) == if s.region.Some? then [s.region.value] else []
  {
    assert [s][1..] == [];
  }

  ghost predicate NoDuplicates<T>(xs: seq<T>)
  {
    forall i, j :: 0 <= i < j < |xs| ==> xs[i] != xs[j]
  }

  /** Position of the first occurrence of `x` in `xs`. */
  ghost function FirstOccurrence<T>(xs: seq<T>, x: T): (k: nat)
    requires x in xs
    ensures k < |xs| && xs[k] == x
    ensures forall j :: 0 <= j < k ==> xs[j] != x
  {
    if xs[0] == x then 0 else 1 + FirstOccurrence(xs[1..], x)
  }

  /** `unique()`: each value once, in the order in which values first occur. */
  function Unique(xs: seq<string>): (r: seq<string>)
    ensures forall x :: x in r <==> x in xs
    ensures NoDuplicates(r)
  {
    if xs == [] then []
    else
      var u := Unique(xs[..|xs| - 1]);
      var last := xs[|xs| - 1];
      assert forall x :: x in xs <==> x in xs[..|xs| - 1] || x == last;
      if last in u then u else u + [last]
  }

  /** The values `unique()` returns are ordered by where they first occur. */
  lemma {:induction false} UniqueFirstOccurrenceOrder(xs: seq<string>, i: nat, j: nat)
    requires i < j < |Unique(xs)|
    ensures FirstOccurrence(xs, Unique(xs)[i]) < FirstOccurrence(xs, Unique(xs)[j])
    decreases |xs|
  {
    var init := xs[..|xs| - 1];
    var u := Unique(init);
    var last := xs[|xs| - 1];
    var r := Unique(xs);
    assert r[..|u|] == u && (|r| == |u| || (r[|u|] == last && last !in u)) by {
      if last !in u { assert r == u + [last]; }
    }
    assert r[i] == u[i];
    FirstOccurrenceInPrefix(xs, |xs| - 1, r[i]);
    if j < |u| {
      assert r[j] == u[j];
      UniqueFirstOccurrenceOrder(init, i, j);
      FirstOccurrenceInPrefix(xs, |xs| - 1, r[j]);
    } else {
      FirstOccurrenceOfNewValue(xs);
    }
  }

  /** A value that first appears in the last position first occurs there. */
  lemma FirstOccurrenceOfNewValue<T>(xs: seq<T>)
    requires xs != [] && xs[|xs| - 1] !in xs[..|xs| - 1]
    ensures FirstOccurrence(xs, xs[|xs| - 1]) == |xs| - 1
  {
  }

  /** A value found in a prefix first occurs where it first occurs in the prefix. */
  lemma {:induction false} FirstOccurrenceInPrefix<T>(xs: seq<T>, n: nat, x: T)
    requires n <= |xs| && x in xs[..n]
    ensures FirstOccurrence(xs, x) == FirstOccurrence(xs[..n], x)
    decreases n
  {
    assert xs[..n][0] == xs[0];
    if xs[0] != x {
      assert xs[..n][1..] == xs[1..][..n - 1];
      FirstOccurrenceInPrefix(xs[1..], n - 1, x);
    }
  }
}
