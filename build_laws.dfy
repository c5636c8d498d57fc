/** What the passes guarantee about the graph they build together: a city,
    area or department shared by many rows is one node, the university
    counter counts distinct records rather than codes, the student counter
    counts rows rather than students, every application and decision points at
    declared nodes, and no decision is left without its student. */
module BuildLaws {
  import opened Wrappers
  import opened Cells
  import opened Rdf
  import opened Minting
  import opened Coercion
  import opened Rows
  import opened Passes
  import opened Quality
  import opened GraphLaws

  /** The city nodes minted from a table's present `ciudad_origen` cells. */
  function CityNodes(rows: seq<Row>): set<Iri> {
    set r | r in rows && r.ciudadOrigen.Some? :: CreateCityUri(r.ciudadOrigen)
  }

  /** The University nodes minted from a table's `universidad_codigo` cells. */
  function UniversityNodes(rows: seq<Row>): set<Iri> {
    set r | r in rows :: CreateUniversityUri(r.universidadCodigo)
  }

  /** The distinct six-column records of a table. */
  function DistinctRecords(rows: seq<Row>): set<UniversityRecord> {
    set r | r in rows :: RecordOf(r)
  }

  /** The student pass types every applicant as a Student and declares the
      target of every city and area edge, whether or not it raised. */
  lemma StudentPassDeclares(rows: seq<Row>)
    ensures ApplicantsTyped(Run(rows, StudentRow).added)
    ensures EdgeTargetsDeclared(Run(rows, StudentRow).added, GEO_ORIGIN_FROM, GEO_CITY)
    ensures EdgeTargetsDeclared(Run(rows, StudentRow).added, EDU_PREFERS_AREA, EDU_KNOWLEDGE_AREA)
  {
    var ts := Run(rows, StudentRow).added;
    forall i | 0 <= i < |rows|
      ensures EdgeTargetsDeclared(StudentRow(rows[i]).added, GEO_ORIGIN_FROM, GEO_CITY)
      ensures EdgeTargetsDeclared(StudentRow(rows[i]).added, EDU_PREFERS_AREA, EDU_KNOWLEDGE_AREA)
    {
      StudentRowDeclares(rows[i]);
    }
    RunKeepsEdgeTargets(rows, StudentRow, GEO_ORIGIN_FROM, GEO_CITY);
    RunKeepsEdgeTargets(rows, StudentRow, EDU_PREFERS_AREA, EDU_KNOWLEDGE_AREA);
    forall t | t in ts && t.p == UNIV_APPLIES_TO
      ensures Triple(t.s, RDF_TYPE, Node(UNIV_STUDENT)) in ts
    {
      RunAddsWholeRows(rows, StudentRow, t);
      var i :| 0 <= i < |rows| && t in StudentRow(rows[i]).added && StudentRow(rows[i]).added <= ts;
      StudentRowDeclares(rows[i]);
    }
  }

  /** The universities pass declares the target of every `locatedIn` edge. */
  lemma UniversityPassDeclares(records: seq<UniversityRecord>)
    ensures EdgeTargetsDeclared(Run(records, UniversityRow).added, GEO_LOCATED_IN, GEO_DEPARTMENT)
  {
    forall i | 0 <= i < |records|
      ensures EdgeTargetsDeclared(UniversityRow(records[i]).added, GEO_LOCATED_IN, GEO_DEPARTMENT)
    {
      UniversityRowDeclares(records[i]);
    }
    RunKeepsEdgeTargets(records, UniversityRow, GEO_LOCATED_IN, GEO_DEPARTMENT);
  }

  /** A completed student pass types exactly one City node per distinct
      minted city, however many rows name it. */
  lemma StudentPassCities(rows: seq<Row>)
    requires Run(rows, StudentRow).fault.None?
    ensures TypedAs(Run(rows, StudentRow).added, GEO_CITY) == CityNodes(rows)
  {
    var ts := Run(rows, StudentRow).added;
    forall x | x in TypedAs(ts, GEO_CITY) ensures x in CityNodes(rows) {
      var t :| t in Matching(ts, RDF_TYPE, Node(GEO_CITY)) && t.s == x;
      RunAddsWholeRows(rows, StudentRow, t);
      var i :| 0 <= i < |rows| && t in StudentRow(rows[i]).added && StudentRow(rows[i]).added <= ts;
      StudentRowCityFrom(rows[i], t);
      assert rows[i] in rows;
    }
    forall x | x in CityNodes(rows) ensures x in TypedAs(ts, GEO_CITY) {
      var r :| r in rows && r.ciudadOrigen.Some? && x == CreateCityUri(r.ciudadOrigen);
      var i :| 0 <= i < |rows| && rows[i] == r;
      RunAddsEveryRow(rows, StudentRow, i);
      StudentRowTypesPresent(r);
      assert Triple(x, RDF_TYPE, Node(GEO_CITY)) in Matching(ts, RDF_TYPE, Node(GEO_CITY));
    }
  }

  /** A City type triple of a student row is about the row's own city. */
  lemma StudentRowCityFrom(r: Row, t: Triple)
    requires t in StudentRow(r).added && t.p == RDF_TYPE && t.o == Node(GEO_CITY)
    ensures r.ciudadOrigen.Some? && t.s == CreateCityUri(r.ciudadOrigen)
  {
    StudentRowTypes(r);
  }

  /** Rows that all name the same city yield a single City node. */
  lemma {:induction false} SharedCityIsOneNode(rows: seq<Row>, city: Scalar)
    requires |rows| > 0
    requires forall i :: 0 <= i < |rows| ==> rows[i].ciudadOrigen == Some(city)
    requires Run(rows, StudentRow).fault.None?
    ensures TypedAs(Run(rows, StudentRow).added, GEO_CITY) == {CreateCityUri(Some(city))}
  {
    StudentPassCities(rows);
    SharedCityNodes(rows, city);
  }

  lemma SharedCityNodes(rows: seq<Row>, city: Scalar)
    requires |rows| > 0
    requires forall i :: 0 <= i < |rows| ==> rows[i].ciudadOrigen == Some(city)
    ensures CityNodes(rows) == {CreateCityUri(Some(city))}
  {
    assert rows[0] in rows;
  }

  /** A completed universities pass runs once per distinct six-column record
      and types one University node per distinct minted code. */
  lemma UniversityPassNodes(rows: seq<Row>)
    requires Run(UniversityRecords(rows), UniversityRow).fault.None?
    ensures Run(UniversityRecords(rows), UniversityRow).done == |DistinctRecords(rows)|
    ensures TypedAs(Run(UniversityRecords(rows), UniversityRow).added, UNIV_UNIVERSITY) == UniversityNodes(rows)
  {
    UniversityPassCount(rows);
    UniversityPassTypes(rows);
  }

  /** The universities pass runs once per distinct record. */
  lemma UniversityPassCount(rows: seq<Row>)
    requires Run(UniversityRecords(rows), UniversityRow).fault.None?
    ensures Run(UniversityRecords(rows), UniversityRow).done == |DistinctRecords(rows)|
  {
    RecordsCount(rows);
  }

  /** `drop_duplicates` leaves one record per distinct record. */
  lemma RecordsCount(rows: seq<Row>)
    ensures |UniversityRecords(rows)| == |DistinctRecords(rows)|
  {
    var raw := seq(|rows|, i requires 0 <= i < |rows| => RecordOf(rows[i]));
    DropDuplicatesCount(raw);
    forall x | x in DistinctRecords(rows) ensures x in raw {
      var r :| r in rows && x == RecordOf(r);
      var i :| 0 <= i < |rows| && rows[i] == r;
      assert raw[i] == x;
    }
    assert (set x | x in raw) == DistinctRecords(rows);
  }

  /** A completed universities pass types one University node per code. */
  lemma UniversityPassTypes(rows: seq<Row>)
    requires Run(UniversityRecords(rows), UniversityRow).fault.None?
    ensures TypedAs(Run(UniversityRecords(rows), UniversityRow).added, UNIV_UNIVERSITY) == UniversityNodes(rows)
  {
    var records := UniversityRecords(rows);
    var name := (u: UniversityRecord) => CreateUniversityUri(u.codigo);
    forall i | 0 <= i < |records|
      ensures TypedAs(UniversityRow(records[i]).added, UNIV_UNIVERSITY) == {name(records[i])}
    {
      UniversityRowDeclares(records[i]);
    }
    RunTypesEachRow(records, UniversityRow, UNIV_UNIVERSITY, name);
    RecordsNodes(rows, name);
  }

  /** The codes of the distinct records are the codes of the rows. */
  lemma RecordsNodes(rows: seq<Row>, name: UniversityRecord -> Iri)
    requires forall u :: name(u) == CreateUniversityUri(u.codigo)
    ensures (set u | u in UniversityRecords(rows) :: name(u)) == UniversityNodes(rows)
  {
    var records := UniversityRecords(rows);
    forall x | x in UniversityNodes(rows) ensures x in set u | u in records :: name(u) {
      var r :| r in rows && x == CreateUniversityUri(r.universidadCodigo);
      RecordReached(rows, r);
    }
    forall x | x in (set u | u in records :: name(u)) ensures x in UniversityNodes(rows) {
      var u :| u in records && x == name(u);
      var raw := seq(|rows|, i requires 0 <= i < |rows| => RecordOf(rows[i]));
      var i :| 0 <= i < |rows| && raw[i] == u;
      assert rows[i] in rows;
    }
  }

  /** Every row's record is among those the universities pass iterates. */
  lemma RecordReached(rows: seq<Row>, r: Row)
    requires r in rows
    ensures RecordOf(r) in UniversityRecords(rows)
  {
    var i :| 0 <= i < |rows| && rows[i] == r;
    var raw := seq(|rows|, i requires 0 <= i < |rows| => RecordOf(rows[i]));
    assert raw[i] == RecordOf(r);
  }

  /** Two rows naming the same university code with different names count as
      two universities but yield one University node. */
  lemma SameCodeCountsTwice(a: Row, b: Row)
    requires a.universidadCodigo == b.universidadCodigo && a.universidadNombre != b.universidadNombre
    requires Run(UniversityRecords([a, b]), UniversityRow).fault.None?
    ensures Run(UniversityRecords([a, b]), UniversityRow).done == 2
    ensures |TypedAs(Run(UniversityRecords([a, b]), UniversityRow).added, UNIV_UNIVERSITY)| == 1
  {
    UniversityPassNodes([a, b]);
    TwoRecordsOneCode(a, b);
  }

  lemma TwoRecordsOneCode(a: Row, b: Row)
    requires a.universidadCodigo == b.universidadCodigo && a.universidadNombre != b.universidadNombre
    ensures |DistinctRecords([a, b])| == 2
    ensures |UniversityNodes([a, b])| == 1
  {
    assert DistinctRecords([a, b]) == {RecordOf(a), RecordOf(b)};
    assert UniversityNodes([a, b]) == {CreateUniversityUri(a.universidadCodigo)};
  }

  /** The student counter counts rows, not students: a table fed twice
      counts every row twice and adds no new Student node. */
  lemma {:induction false} StudentsCountRows(rows: seq<Row>)
    requires Run(rows, StudentRow).fault.None?
    ensures Run(rows + rows, StudentRow).done == 2 * |rows|
    ensures TypedAs(Run(rows + rows, StudentRow).added, UNIV_STUDENT) == TypedAs(Run(rows, StudentRow).added, UNIV_STUDENT)
  {
    RunTwice(rows, StudentRow);
    var once, twice := Run(rows, StudentRow), Run(rows + rows, StudentRow);
    assert twice.added == once.added;
  }

  /** The decisions pass never raises, so it runs every row. */
  lemma DecisionPassCompletes(items: seq<DecisionItem>, md5: string -> HexDigest)
    ensures Run(items, DecisionStep(md5)).fault.None?
    ensures Run(items, DecisionStep(md5)).done == |items|
  {
    forall i | 0 <= i < |items| ensures DecisionStep(md5)(items[i]).fault.None? {
      DecisionRowLinks(md5, items[i]);
    }
    RunCompletes(items, DecisionStep(md5));
  }

  /** After the decisions pass, every decision node it typed has an inbound
      `makes` edge, so a graph without orphans keeps none. */
  lemma DecisionPassLeavesNoOrphans(before: set<Triple>, items: seq<DecisionItem>, md5: string -> HexDigest)
    ensures OrphanedDecisions(before) == {} ==> OrphanedDecisions(before + Run(items, DecisionStep(md5)).added) == {}
  {
    var added := Run(items, DecisionStep(md5)).added;
    var after := before + added;
    forall d | OrphanedDecisions(before) == {} && d in DecisionNodes(after) ensures HasMaker(after, d) {
      var t :| t in Matching(after, RDF_TYPE, Node(BEHAVIOR_ACADEMIC_DECISION)) && t.s == d;
      if t in before {
        assert t in Matching(before, RDF_TYPE, Node(BEHAVIOR_ACADEMIC_DECISION));
        assert d !in OrphanedDecisions(before);
        var m :| m in before && m.p == BEHAVIOR_MAKES && m.o == Node(d);
        assert m in after;
      } else {
        RunAddsWholeRows(items, DecisionStep(md5), t);
        var i :| 0 <= i < |items| && t in DecisionStep(md5)(items[i]).added && DecisionStep(md5)(items[i]).added <= added;
        DecisionRowHasMaker(md5, items[i], t);
        var m :| m in DecisionStep(md5)(items[i]).added && m.p == BEHAVIOR_MAKES && m.o == Node(d);
        assert m in after;
      }
    }
  }

  /** The decision node a row types has its `makes` edge in the same row. */
  lemma DecisionRowHasMaker(md5: string -> HexDigest, item: DecisionItem, t: Triple)
    requires t in DecisionRow(md5, item).added
    requires t.p == RDF_TYPE && t.o == Node(BEHAVIOR_ACADEMIC_DECISION)
    ensures HasMaker(DecisionRow(md5, item).added, t.s)
  {
    var r := item.row;
    DecisionRowTypes(md5, item);
    DecisionRowLinks(md5, item);
    assert Triple(CreateStudentUri(r.idEstudiante), BEHAVIOR_MAKES, Node(t.s)) in DecisionRow(md5, item).added;
  }

  /** Triples that type no decision node cannot orphan one. */
  lemma NoOrphansExtend(ts: set<Triple>, extra: set<Triple>)
    requires OrphanedDecisions(ts) == {}
    requires forall t :: t in extra && t.p == RDF_TYPE ==> t.o != Node(BEHAVIOR_ACADEMIC_DECISION)
    ensures OrphanedDecisions(ts + extra) == {}
  {
    forall d | d in DecisionNodes(ts + extra) ensures HasMaker(ts + extra, d) {
      var t :| t in Matching(ts + extra, RDF_TYPE, Node(BEHAVIOR_ACADEMIC_DECISION)) && t.s == d;
      assert t in Matching(ts, RDF_TYPE, Node(BEHAVIOR_ACADEMIC_DECISION));
      assert d !in OrphanedDecisions(ts);
      var m :| m in ts && m.p == BEHAVIOR_MAKES && m.o == Node(d);
      assert m in ts + extra;
    }
  }

  /** Which classes each pass types its nodes with. */
  lemma PassVocabularies(rows: seq<Row>, md5: string -> HexDigest, stamps: seq<string>)
    requires |stamps| == |rows|
    ensures UsesOnly(Run(rows, StudentRow).added, STUDENT_PREDICATES, STUDENT_CLASSES)
    ensures UsesOnly(Run(UniversityRecords(rows), UniversityRow).added, UNIVERSITY_PREDICATES, UNIVERSITY_CLASSES)
    ensures UsesOnly(Run(DecisionItems(rows, stamps), DecisionStep(md5)).added, DECISION_PREDICATES, DECISION_CLASSES)
  {
    StudentPassVocabulary(rows);
    UniversityPassVocabulary(UniversityRecords(rows));
    DecisionPassVocabulary(DecisionItems(rows, stamps), md5);
  }

  lemma StudentPassVocabulary(rows: seq<Row>)
    ensures UsesOnly(Run(rows, StudentRow).added, STUDENT_PREDICATES, STUDENT_CLASSES)
  {
    forall i | 0 <= i < |rows| ensures UsesOnly(StudentRow(rows[i]).added, STUDENT_PREDICATES, STUDENT_CLASSES) {
      StudentRowVocabulary(rows[i]);
    }
    RunVocabulary(rows, StudentRow, STUDENT_PREDICATES, STUDENT_CLASSES);
  }

  lemma UniversityPassVocabulary(records: seq<UniversityRecord>)
    ensures UsesOnly(Run(records, UniversityRow).added, UNIVERSITY_PREDICATES, UNIVERSITY_CLASSES)
  {
    forall i | 0 <= i < |records| ensures UsesOnly(UniversityRow(records[i]).added, UNIVERSITY_PREDICATES, UNIVERSITY_CLASSES) {
      UniversityRowVocabulary(records[i]);
    }
    RunVocabulary(records, UniversityRow, UNIVERSITY_PREDICATES, UNIVERSITY_CLASSES);
  }

  lemma DecisionPassVocabulary(items: seq<DecisionItem>, md5: string -> HexDigest)
    ensures UsesOnly(Run(items, DecisionStep(md5)).added, DECISION_PREDICATES, DECISION_CLASSES)
  {
    forall i | 0 <= i < |items| ensures UsesOnly(DecisionStep(md5)(items[i]).added, DECISION_PREDICATES, DECISION_CLASSES) {
      DecisionRowVocabulary(md5, items[i]);
    }
    RunVocabulary(items, DecisionStep(md5), DECISION_PREDICATES, DECISION_CLASSES);
  }

  /** Built on an ontology without orphaned decisions, the graph has none:
      the validation's orphan count is zero. */
  lemma BuiltGraphHasNoOrphans(ontology: set<Triple>, rows: seq<Row>, md5: string -> HexDigest,
                               stamps: seq<string>, metaStamp: string)
    requires |stamps| == |rows|
    requires OrphanedDecisions(ontology) == {}
    ensures OrphanedDecisions(BuiltGraph(ontology, rows, md5, stamps, metaStamp)) == {}
    ensures ReportOf(BuiltGraph(ontology, rows, md5, stamps, metaStamp)).orphanedDecisions == 0
  {
    var students := Run(rows, StudentRow).added;
    var universities := Run(UniversityRecords(rows), UniversityRow).added;
    StudentPassVocabulary(rows);
    UniversityPassVocabulary(UniversityRecords(rows));
    MetadataVocabulary(|rows|, metaStamp);
    DecisionPassLeavesNoOrphans(ontology + students + universities, DecisionItems(rows, stamps), md5);
    NoOrphansAssembled(ontology, students, universities, Run(DecisionItems(rows, stamps), DecisionStep(md5)).added,
                       MetadataTriples(|rows|, metaStamp));
  }

  /** The decision class is typed only by the decisions pass. */
  lemma DecisionsTypedOnlyByDecisions()
    ensures BEHAVIOR_ACADEMIC_DECISION !in STUDENT_CLASSES
    ensures BEHAVIOR_ACADEMIC_DECISION !in UNIVERSITY_CLASSES
    ensures BEHAVIOR_ACADEMIC_DECISION !in METADATA_CLASSES
  {
  }

  /** Triples whose vocabulary lacks the decision class cannot orphan one. */
  lemma NoOrphansExtendBy(ts: set<Triple>, extra: set<Triple>, preds: set<Iri>, classes: set<Iri>)
    requires OrphanedDecisions(ts) == {}
    requires UsesOnly(extra, preds, classes) && BEHAVIOR_ACADEMIC_DECISION !in classes
    ensures OrphanedDecisions(ts + extra) == {}
  {
    NoOrphansExtend(ts, extra);
  }

  /** The assembled graph keeps no orphan when its passes keep to their
      vocabularies and the decisions pass leaves none. */
  lemma NoOrphansAssembled(ontology: set<Triple>, students: set<Triple>, universities: set<Triple>,
                           decisions: set<Triple>, metadata: set<Triple>)
    requires OrphanedDecisions(ontology) == {}
    requires UsesOnly(students, STUDENT_PREDICATES, STUDENT_CLASSES)
    requires UsesOnly(universities, UNIVERSITY_PREDICATES, UNIVERSITY_CLASSES)
    requires UsesOnly(metadata, METADATA_PREDICATES, METADATA_CLASSES)
    requires OrphanedDecisions(ontology + students + universities) == {} ==>
             OrphanedDecisions(ontology + students + universities + decisions) == {}
    ensures OrphanedDecisions(ontology + students + universities + decisions + metadata) == {}
  {
    DecisionsTypedOnlyByDecisions();
    NoOrphansExtendBy(ontology, students, STUDENT_PREDICATES, STUDENT_CLASSES);
    NoOrphansExtendBy(ontology + students, universities, UNIVERSITY_PREDICATES, UNIVERSITY_CLASSES);
    NoOrphansExtendBy(ontology + students + universities + decisions, metadata, METADATA_PREDICATES, METADATA_CLASSES);
  }

  lemma ApplicantsTypedUnion(a: set<Triple>, b: set<Triple>)
    requires ApplicantsTyped(a) && ApplicantsTyped(b)
    ensures ApplicantsTyped(a + b)
  {
  }

  /** Only the student pass writes `appliesTo`. */
  lemma ApplicationsOnlyFromStudents()
    ensures UNIV_APPLIES_TO !in UNIVERSITY_PREDICATES
    ensures UNIV_APPLIES_TO !in DECISION_PREDICATES
    ensures UNIV_APPLIES_TO !in METADATA_PREDICATES
  {
  }

  /** A pass whose vocabulary lacks `appliesTo` types its applicants
      vacuously. */
  lemma NoApplications(ts: set<Triple>, preds: set<Iri>, classes: set<Iri>)
    requires UsesOnly(ts, preds, classes) && UNIV_APPLIES_TO !in preds
    ensures ApplicantsTyped(ts)
  {
  }

  /** Built on an ontology whose applicants are students, the graph's
      applicants are all students. */
  lemma {:induction false} BuiltGraphApplicantsTyped(ontology: set<Triple>, rows: seq<Row>, md5: string -> HexDigest,
                                  stamps: seq<string>, metaStamp: string)
    requires |stamps| == |rows|
    requires ApplicantsTyped(ontology)
    ensures ApplicantsTyped(BuiltGraph(ontology, rows, md5, stamps, metaStamp))
  {
    var students := Run(rows, StudentRow).added;
    var universities := Run(UniversityRecords(rows), UniversityRow).added;
    var decisions := Run(DecisionItems(rows, stamps), DecisionStep(md5)).added;
    var metadata := MetadataTriples(|rows|, metaStamp);
    PassVocabularies(rows, md5, stamps);
    MetadataVocabulary(|rows|, metaStamp);
    ApplicationsOnlyFromStudents();
    NoApplications(universities, UNIVERSITY_PREDICATES, UNIVERSITY_CLASSES);
    NoApplications(decisions, DECISION_PREDICATES, DECISION_CLASSES);
    NoApplications(metadata, METADATA_PREDICATES, METADATA_CLASSES);
    StudentPassDeclares(rows);
    ApplicantsTypedUnion(ontology, students);
    ApplicantsTypedUnion(ontology + students, universities);
    ApplicantsTypedUnion(ontology + students + universities, decisions);
    ApplicantsTypedUnion(ontology + students + universities + decisions, metadata);
  }

  /** Hence application coverage never exceeds the number of students. */
  lemma {:induction false} BuiltGraphCoverage(ontology: set<Triple>, rows: seq<Row>, md5: string -> HexDigest,
                           stamps: seq<string>, metaStamp: string)
    requires |stamps| == |rows|
    requires ApplicantsTyped(ontology)
    ensures var report := ReportOf(BuiltGraph(ontology, rows, md5, stamps, metaStamp));
      report.studentsWithApplications <= report.totalStudents
  {
    var g := BuiltGraph(ontology, rows, md5, stamps, metaStamp);
    BuiltGraphApplicantsTyped(ontology, rows, md5, stamps, metaStamp);
    assert forall t :: t in g && t.p == UNIV_APPLIES_TO ==> Triple(t.s, RDF_TYPE, Node(UNIV_STUDENT)) in g;
    CoverageBounded(g);
  }

  /** Once the universities pass completes, every `appliesTo` edge of the
      student pass ends at a node typed University. */
  lemma ApplicationsReachUniversities(rows: seq<Row>)
    requires Run(UniversityRecords(rows), UniversityRow).fault.None?
    ensures var ts := Run(rows, StudentRow).added + Run(UniversityRecords(rows), UniversityRow).added;
      forall t :: t in Run(rows, StudentRow).added && t.p == UNIV_APPLIES_TO ==>
        t.o.Node? && Triple(t.o.iri, RDF_TYPE, Node(UNIV_UNIVERSITY)) in ts
  {
    var records := UniversityRecords(rows);
    var students := Run(rows, StudentRow).added;
    var universities := Run(records, UniversityRow).added;
    forall t | t in students && t.p == UNIV_APPLIES_TO
      ensures t.o.Node? && Triple(t.o.iri, RDF_TYPE, Node(UNIV_UNIVERSITY)) in students + universities
    {
      RunAddsWholeRows(rows, StudentRow, t);
      var i :| 0 <= i < |rows| && t in StudentRow(rows[i]).added && StudentRow(rows[i]).added <= students;
      StudentRowEdges(rows[i]);
      assert rows[i] in rows;
      RecordReached(rows, rows[i]);
      var j :| 0 <= j < |records| && records[j] == RecordOf(rows[i]);
      RunCompletes(records, UniversityRow);
      RunAddsEveryRow(records, UniversityRow, j);
      UniversityRowOutcome(records[j]);
    }
  }

  /** Two rows for the same student and university whose choices disagree
      give the decision node both a true and a false result, and it still
      counts once as resolved. */
  lemma DisagreeingRowsResolveOnce(rows: seq<Row>, stamps: seq<string>, md5: string -> HexDigest, i: nat, j: nat)
    requires |stamps| == |rows| && i < |rows| && j < |rows|
    requires rows[i].idEstudiante == rows[j].idEstudiante
    requires rows[i].universidadCodigo == rows[j].universidadCodigo
    requires ConvertBoolean(rows[i].eligioUniversidad)
    requires rows[j].eligioUniversidad.Some? && !ConvertBoolean(rows[j].eligioUniversidad)
    ensures var d := CreateDecisionUri(md5, rows[i].idEstudiante, rows[i].universidadCodigo);
      var ts := Run(DecisionItems(rows, stamps), DecisionStep(md5)).added;
      && Triple(d, BEHAVIOR_FINAL_DECISION, Lit(LBool(true))) in ts
      && Triple(d, BEHAVIOR_FINAL_DECISION, Lit(LBool(false))) in ts
      && d in ResolvedDecisions(ts)
  {
    var items := DecisionItems(rows, stamps);
    var d := CreateDecisionUri(md5, rows[i].idEstudiante, rows[i].universidadCodigo);
    var ts := Run(items, DecisionStep(md5)).added;
    DecisionPassCompletes(items, md5);
    RunAddsEveryRow(items, DecisionStep(md5), i);
    RunAddsEveryRow(items, DecisionStep(md5), j);
    DecisionRowResult(md5, items[i]);
    DecisionRowResult(md5, items[j]);
    DecisionRowLinks(md5, items[i]);
    assert Triple(d, RDF_TYPE, Node(BEHAVIOR_ACADEMIC_DECISION)) in Matching(ts, RDF_TYPE, Node(BEHAVIOR_ACADEMIC_DECISION));
    assert HasResult(ts, d);
  }

  /** The dataset's `numberOfItems` is the row count, and it is the only such
      triple the metadata adds. */
  lemma MetadataCountsRows(n: nat, stamp: string)
    ensures Triple(DATASET_URI, SCHEMA_NUMBER_OF_ITEMS, Lit(LInt(n))) in MetadataTriples(n, stamp)
    ensures forall t :: t in MetadataTriples(n, stamp) && t.p == SCHEMA_NUMBER_OF_ITEMS ==>
      t == Triple(DATASET_URI, SCHEMA_NUMBER_OF_ITEMS, Lit(LInt(n)))
  {
  }

  /** The wall-clock stamp of a decision row shows only in its `created`
      triple. */
  lemma DecisionStampOnlyInCreated(md5: string -> HexDigest, r: Row, a: string, b: string)
    ensures forall t: Triple :: t.p != DCTERMS_CREATED ==>
      (t in DecisionRow(md5, DecisionItem(r, a)).added <==> t in DecisionRow(md5, DecisionItem(r, b)).added)
  {
  }
}
