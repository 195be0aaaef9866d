/** The rule-based intent matcher (`gerar_resposta`): the lowercased question
    is tested against an ordered chain of trigger phrases; the first rule whose
    trigger occurs answers from the two tables, and a question no rule
    recognises gets no answer (None), so that the caller asks the model. */
module IntentMatcher {
  import opened Wrappers
  import opened Text
  import opened Tables

  /** The rules, in the order the chain tests them. */
  datatype Rule =
    | CourseList        // "quais cursos" / "cursos oferecidos"
    | DevOpsDuration    // "duração" and "devops"
    | BeginnerDatabase  // "banco de dados" and "iniciante"
    | AgileDuration     // "metodologias ágeis"
    | Employment        // "emprego" / "conseguiram emprego"
    | RegionList        // "regiões" / "de onde vêm os alunos"
    | Enrollment        // "inscrever"
    | Certificate       // "certificado"
    | Paid              // "pagos"
    | Online            // "online"

  /** Position of a rule in the chain. */
  function Rank(r: Rule): nat
  {
    match r
    case CourseList => 0
    case DevOpsDuration => 1
    case BeginnerDatabase => 2
    case AgileDuration => 3
    case Employment => 4
    case RegionList => 5
    case Enrollment => 6
    case Certificate => 7
    case Paid => 8
    case Online => 9
  }

  /** The trigger of each rule, tested on the lowercased question `q`. */
  predicate Fires(r: Rule, q: string)
  {
    match r
    case CourseList => Contains(q, "quais cursos") || Contains(q, "cursos oferecidos")
    case DevOpsDuration => Contains(q, "duração") && Contains(q, "devops")
    case BeginnerDatabase => Contains(q, "banco de dados") && Contains(q, "iniciante")
    case AgileDuration => Contains(q, "metodologias ágeis")
    case Employment => Contains(q, "emprego") || Contains(q, "conseguiram emprego")
    case RegionList => Contains(q, "regiões") || Contains(q, "de onde vêm os alunos")
    case Enrollment => Contains(q, "inscrever")
    case Certificate => Contains(q, "certificado")
    case Paid => Contains(q, "pagos")
    case Online => Contains(q, "online")
  }

  /** The chain of `if` tests: the rule that answers `q`, if any. */
  function Classify(q: string): Option<Rule>
  {
    if Fires(CourseList, q) then Some(CourseList)
    else if Fires(DevOpsDuration, q) then Some(DevOpsDuration)
    else if Fires(BeginnerDatabase, q) then Some(BeginnerDatabase)
    else if Fires(AgileDuration, q) then Some(AgileDuration)
    else if Fires(Employment, q) then Some(Employment)
    else if Fires(RegionList, q) then Some(RegionList)
    else if Fires(Enrollment, q) then Some(Enrollment)
    else if Fires(Certificate, q) then Some(Certificate)
    else if Fires(Paid, q) then Some(Paid)
    else if Fires(Online, q) then Some(Online)
    else None
  }

  /** First match wins: the chain picks a rule whose trigger occurs and before
      which no rule's trigger occurs; it picks none exactly when no trigger
      occurs. */
  lemma {:induction false} ClassifyFirstMatch(q: string)
    ensures Classify(q).Some? ==> Fires(Classify(q).value, q)
    ensures Classify(q).Some? ==>
      forall k :: Rank(k) < Rank(Classify(q).value) ==> !Fires(k, q)
    ensures Classify(q).None? <==> forall k :: !Fires(k, q)
  {
    forall k | Rank(Classify(q).GetOr(Online)) > Rank(k) || Classify(q).None?
      ensures !Fires(k, q)
    {
      match k
      case CourseList =>
      case DevOpsDuration =>
      case BeginnerDatabase =>
      case AgileDuration =>
      case Employment =>
      case RegionList =>
      case Enrollment =>
      case Certificate =>
      case Paid =>
      case Online =>
    }
  }

  // ---------------------------------------------------------------------------
  // The answers
  // ---------------------------------------------------------------------------

  const CourseListHeader := "Nós oferecemos os seguintes cursos gratuitos e online:"

  /** One bullet per course, in table order. */
  function CourseBullets(courses: seq<Course>): (r: seq<string>)
    ensures |r| == |courses|
  {
    seq(|courses|, i requires 0 <= i < |courses| => "- " + courses[i].name)
  }

  function CourseListReply(courses: seq<Course>): string
  {
    CourseListHeader + "\n" + Join(CourseBullets(courses), "\n")
  }

  /** `course_name.str.contains("devops", case=False)` */
  predicate IsDevOps(c: Course)
  {
    Contains(Lower(c.name), "devops")
  }

  /** `course_name.str.contains("banco", case=False)` and
      `level.str.contains("básico|iniciante", case=False)` */
  predicate IsBeginnerDatabase(c: Course)
  {
    Contains(Lower(c.name), "banco")
    && (Contains(Lower(c.level), "básico") || Contains(Lower(c.level), "iniciante"))
  }

  /** `course_name.str.contains("metodologias", case=False)` */
  predicate IsAgile(c: Course)
  {
    Contains(Lower(c.name), "metodologias")
  }

  const DevOpsNotFound := "Não encontrei informações sobre esse curso."
  const BeginnerDatabaseNotFound := "Não temos curso de Banco de Dados para iniciantes."
  const AgileNotFound := "Curso de Metodologias Ágeis não encontrado."

  function DevOpsReply(courses: seq<Course>): string
  {
    match FirstIndex(courses, IsDevOps)
    case Some(i) =>
      "O curso de DevOps com AWS tem duração de " + NatToString(courses[i].durationWeeks) + " semanas."
    case None => DevOpsNotFound
  }

  function BeginnerDatabaseReply(courses: seq<Course>): string
  {
    match FirstIndex(courses, IsBeginnerDatabase)
    case Some(i) =>
      "Sim! Temos o curso **" + courses[i].name + "**, com duração de "
      + NatToString(courses[i].durationWeeks) + " semanas, voltado para iniciantes."
    case None => BeginnerDatabaseNotFound
  }

  function AgileReply(courses: seq<Course>): string
  {
    match FirstIndex(courses, IsAgile)
    case Some(i) =>
      "O curso de Metodologias Ágeis e Soft Skills tem duração de "
      + NatToString(courses[i].durationWeeks) + " semanas e é para todos os níveis."
    case None => AgileNotFound
  }

  const EmploymentHeader := "Sim! Alguns alunos conseguiram emprego após os cursos:"
  const NoEmploymentRecords := "Ainda não temos registros públicos de alunos empregados."

  /** `"- {name} trabalha como {current_job}"` for each employed student. */
  function EmploymentLines(employed: seq<Student>): (r: seq<string>)
    requires forall i :: 0 <= i < |employed| ==> employed[i].currentJob.Some?
    ensures |r| == |employed|
  {
    seq(|employed|, i requires 0 <= i < |employed| =>
      "- " + employed[i].name + " trabalha como " + employed[i].currentJob.value)
  }

  function EmploymentReply(students: seq<Student>): string
  {
    var employed := Employed(students);
    if employed != [] then EmploymentHeader + "\n" + Join(EmploymentLines(employed), "\n")
    else NoEmploymentRecords
  }

  const RegionsIntro := "Nossos alunos vêm de diversas regiões do Brasil, como: "

  function RegionsReply(students: seq<Student>): string
  {
    RegionsIntro + Join(Unique(Regions(students)), ", ") + "."
  }

  const EnrollmentReply := "Você pode se inscrever acessando nosso site e preenchendo o formulário de inscrição do curso desejado. 📄"
  const CertificateReply := "Sim! Todos os cursos oferecem certificado após a conclusão. 🎓"
  const PaidReply := "Não! Todos os nossos cursos são 100% gratuitos. 🙌"
  const OnlineReply := "Sim, nossos cursos são totalmente online! Você pode estudar de onde estiver. 💻"

  /** What each rule answers. */
  function Reply(r: Rule, courses: seq<Course>, students: seq<Student>): string
  {
    match r
    case CourseList => CourseListReply(courses)
    case DevOpsDuration => DevOpsReply(courses)
    case BeginnerDatabase => BeginnerDatabaseReply(courses)
    case AgileDuration => AgileReply(courses)
    case Employment => EmploymentReply(students)
    case RegionList => RegionsReply(students)
    case Enrollment => EnrollmentReply
    case Certificate => CertificateReply
    case Paid => PaidReply
    case Online => OnlineReply
  }

  /** `gerar_resposta(user_input)`: the answer of the first rule whose trigger
      occurs in the lowercased input, or None. */
  function Answer(input: string, courses: seq<Course>, students: seq<Student>): Option<string>
  {
    match Classify(Lower(input))
    case Some(r) => Some(Reply(r, courses, students))
    case None => None
  }

  // ---------------------------------------------------------------------------
  // Properties of the matcher
  // ---------------------------------------------------------------------------

  /** Some trigger phrase of the chain occurs in the lowercased question `q`. */
  predicate AnyTrigger(q: string)
  {
    || Contains(q, "quais cursos") || Contains(q, "cursos oferecidos")
    || (Contains(q, "duração") && Contains(q, "devops"))
    || (Contains(q, "banco de dados") && Contains(q, "iniciante"))
    || Contains(q, "metodologias ágeis")
    || Contains(q, "emprego") || Contains(q, "conseguiram emprego")
    || Contains(q, "regiões") || Contains(q, "de onde vêm os alunos")
    || Contains(q, "inscrever") || Contains(q, "certificado")
    || Contains(q, "pagos") || Contains(q, "online")
  }

  lemma ClassifyNoneIff(q: string)
    ensures Classify(q).None? <==> !AnyTrigger(q)
  {
  }

  /** The matcher defers to the model exactly when the lowercased input holds
      none of the trigger phrases; once a trigger occurs, there is an answer
      (the "not found" answers included). */
  lemma AnswerNoneIff(input: string, courses: seq<Course>, students: seq<Student>)
    ensures Answer(input, courses, students).None? <==> !AnyTrigger(Lower(input))
  {
    ClassifyNoneIff(Lower(input));
  }

  /** The answer is that of the lowest-ranked rule whose trigger occurs. */
  lemma AnswerIsFirstFiring(input: string, courses: seq<Course>, students: seq<Student>, r: Rule)
    requires Fires(r, Lower(input))
    requires forall k :: Rank(k) < Rank(r) ==> !Fires(k, Lower(input))
    ensures Answer(input, courses, students) == Some(Reply(r, courses, students))
  {
    var q := Lower(input);
    ClassifyFirstMatch(q);
    var c := Classify(q).value;
    assert !(Rank(c) < Rank(r));
    assert !(Rank(r) < Rank(c));
    RankInjective(c, r);
  }

  lemma RankInjective(a: Rule, b: Rule)
    requires Rank(a) == Rank(b)
    ensures a == b
  {
  }

  /** A course-list question is answered with the course list whatever else it
      asks about (online, certificates, ...). */
  lemma CourseListWins(input: string, courses: seq<Course>, students: seq<Student>)
    requires Contains(Lower(input), "quais cursos") || Contains(Lower(input), "cursos oferecidos")
    ensures Answer(input, courses, students) == Some(CourseListReply(courses))
  {
  }

  /** The course list is the header line, a line break, and then one line
      `"- " + name` per course in table order: when no course name has a line
      break, splitting that part at line breaks gives exactly those lines. */
  lemma CourseListLines(courses: seq<Course>)
    requires |courses| >= 1
    requires forall i :: 0 <= i < |courses| ==> '\n' !in courses[i].name
    ensures CourseListReply(courses) == CourseListHeader + "\n" + Join(CourseBullets(courses), "\n")
    ensures Split(Join(CourseBullets(courses), "\n"), '\n') == CourseBullets(courses)
    ensures forall i :: 0 <= i < |courses| ==> CourseBullets(courses)[i] == "- " + courses[i].name
  {
    var bullets := CourseBullets(courses);
    forall i | 0 <= i < |bullets| ensures '\n' !in bullets[i] {
      assert bullets[i] == "- " + courses[i].name;
      assert '\n' !in "- ";
    }
    SplitJoin(bullets, '\n');
  }

  /** The DevOps answer reports the duration of the first course whose name
      contains "devops", ignoring case. */
  lemma DevOpsUsesFirstRow(courses: seq<Course>, i: nat)
    requires i < |courses| && IsDevOps(courses[i])
    requires forall j :: 0 <= j < i ==> !IsDevOps(courses[j])
    ensures DevOpsReply(courses) ==
      "O curso de DevOps com AWS tem duração de " + NatToString(courses[i].durationWeeks) + " semanas."
  {
    FirstIndexIs(courses, IsDevOps, i);
  }

  lemma DevOpsNotFoundIff(courses: seq<Course>)
    ensures DevOpsReply(courses) == DevOpsNotFound <==>
      forall j :: 0 <= j < |courses| ==> !IsDevOps(courses[j])
  {
  }

  /** The beginner database answer names the first course whose name contains
      "banco" and whose level contains "básico" or "iniciante", ignoring case. */
  lemma BeginnerDatabaseUsesFirstRow(courses: seq<Course>, i: nat)
    requires i < |courses| && IsBeginnerDatabase(courses[i])
    requires forall j :: 0 <= j < i ==> !IsBeginnerDatabase(courses[j])
    ensures BeginnerDatabaseReply(courses) ==
      "Sim! Temos o curso **" + courses[i].name + "**, com duração de "
      + NatToString(courses[i].durationWeeks) + " semanas, voltado para iniciantes."
  {
    FirstIndexIs(courses, IsBeginnerDatabase, i);
  }

  lemma BeginnerDatabaseNotFoundIff(courses: seq<Course>)
    ensures BeginnerDatabaseReply(courses) == BeginnerDatabaseNotFound <==>
      forall j :: 0 <= j < |courses| ==> !IsBeginnerDatabase(courses[j])
  {
  }

  /** The agile answer reports the duration of the first course whose name
      contains "metodologias", ignoring case. */
  lemma AgileUsesFirstRow(courses: seq<Course>, i: nat)
    requires i < |courses| && IsAgile(courses[i])
    requires forall j :: 0 <= j < i ==> !IsAgile(courses[j])
    ensures AgileReply(courses) ==
      "O curso de Metodologias Ágeis e Soft Skills tem duração de "
      + NatToString(courses[i].durationWeeks) + " semanas e é para todos os níveis."
  {
    FirstIndexIs(courses, IsAgile, i);
  }

  lemma AgileNotFoundIff(courses: seq<Course>)
    ensures AgileReply(courses) == AgileNotFound <==>
      forall j :: 0 <= j < |courses| ==> !IsAgile(courses[j])
  {
  }

  lemma EmploymentLineOneLine(name: string, job: string)
    requires '\n' !in name && '\n' !in job
    ensures '\n' !in "- " + name + " trabalha como " + job
  {
    // The literal is split in two because Dafny proves that '\n' is absent
    // from short literals far more cheaply than from long ones.
    var a, b := " trabalha", " como ";
    assert " trabalha como " == a + b;
    assert '\n' !in a;
    assert '\n' !in b;
    assert '\n' !in "- ";
  }

  lemma EmploymentLinesOneLine(employed: seq<Student>)
    requires forall i :: 0 <= i < |employed| ==> employed[i].currentJob.Some? && OneLine(employed[i])
    ensures forall i :: 0 <= i < |employed| ==> '\n' !in EmploymentLines(employed)[i]
  {
    forall i | 0 <= i < |employed| ensures '\n' !in EmploymentLines(employed)[i] {
      EmploymentLineOneLine(employed[i].name, employed[i].currentJob.value);
    }
  }

  /** Neither the name nor the job of a student has a line break. */
  predicate OneLine(s: Student)
  {
    '\n' !in s.name && (s.currentJob.Some? ==> '\n' !in s.currentJob.value)
  }

  /** With no employed student, the employment answer is the fixed "no public
      records" answer. */
  lemma NoEmploymentAnswer(students: seq<Student>)
    requires forall i :: 0 <= i < |students| ==> students[i].currentJob.None?
    ensures EmploymentReply(students) == NoEmploymentRecords
  {
  }

  /** With at least one employed student, the employment answer is the header
      line, a line break, and one `"- {name} trabalha como {job}"` line per
      employed student in table order: when no name or job has a line break,
      splitting that part at line breaks gives exactly those lines. */
  lemma EmploymentAnswerLines(students: seq<Student>, k: nat)
    requires k < |students| && students[k].currentJob.Some?
    requires forall s :: s in students ==> OneLine(s)
    ensures Employed(students) != []
    ensures EmploymentReply(students) ==
      EmploymentHeader + "\n" + Join(EmploymentLines(Employed(students)), "\n")
    ensures Split(Join(EmploymentLines(Employed(students)), "\n"), '\n') ==
      EmploymentLines(Employed(students))
  {
    var employed := Employed(students);
    assert students[k] in employed;
    forall i | 0 <= i < |employed| ensures OneLine(employed[i]) {
      assert employed[i] in employed;
    }
    EmploymentLinesOneLine(employed);
    SplitJoin(EmploymentLines(employed), '\n');
  }

  /** The regions answer lists each filled region once, no region twice, in
      the order in which regions first occur in the table. */
  lemma RegionsAnswerListsDistinctRegions(students: seq<Student>)
    ensures
      var listed := Unique(Regions(students));
      && RegionsReply(students) == RegionsIntro + Join(listed, ", ") + "."
      && (forall x :: x in listed <==> exists i :: 0 <= i < |students| && students[i].region == Some(x))
      && NoDuplicates(listed)
      && (forall i, j :: 0 <= i < j < |listed| ==>
            FirstOccurrence(Regions(students), listed[i]) < FirstOccurrence(Regions(students), listed[j]))
  {
    var listed := Unique(Regions(students));
    forall i, j | 0 <= i < j < |listed|
      ensures FirstOccurrence(Regions(students), listed[i]) < FirstOccurrence(Regions(students), listed[j])
    {
      UniqueFirstOccurrenceOrder(Regions(students), i, j);
    }
  }

  /** The second employment trigger adds nothing: every input containing
      "conseguiram emprego" already contains "emprego". */
  lemma EmploymentSecondTriggerSubsumed(q: string)
    requires Contains(q, "conseguiram emprego")
    ensures Contains(q, "emprego")
  {
    var long := "conseguiram emprego";
    assert OccursAt(long, "emprego", 12) by {
      assert long[12..19] == "emprego";
    }
    ContainsIff(long, "emprego");
    ContainsTransitive(q, long, "emprego");
  }
}
