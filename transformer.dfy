/** The `DataTransformer` object: the graph it fills, its statistics counters,
    and the transform passes that update them in place. */
module Transformer {
  import opened Wrappers
  import opened Cells
  import opened Rdf
  import opened Minting
  import opened Coercion
  import opened Rows
  import opened Passes
  import opened Quality

  /** What `print_transformation_stats` reports. */
  datatype TransformationStats = TransformationStats(
    records: nat,
    students: nat,
    universities: nat,
    decisions: nat,
    totalTriples: nat,
    studentNodes: nat,
    universityNodes: nat,
    decisionNodes: nat,
    areaNodes: nat,
    cityNodes: nat,
    departmentNodes: nat)

  class DataTransformer {
    /** The loaded CSV table. */
    const rows: seq<Row>
    /** `hashlib.md5(...).hexdigest()` of the UTF-8 encoding of a text. */
    const md5: string -> HexDigest
    const g: Graph
    /** The entries of `self.stats`. */
    var students: nat
    var universities: nat
    var decisions: nat
    var totalTriples: nat

    /** `__init__`, given the table and the triples the ontology file parsed
        to (none when it failed to load). */
    constructor (rows: seq<Row>, md5: string -> HexDigest, ontology: set<Triple>)
      ensures this.rows == rows && this.md5 == md5
      ensures fresh(g) && g.triples == ontology
      ensures students == 0 && universities == 0 && decisions == 0 && totalTriples == 0
    {
      this.rows := rows;
      this.md5 := md5;
      g := new Graph(ontology);
      students := 0;
      universities := 0;
      decisions := 0;
      totalTriples := 0;
    }

    /** `g.add((s, p, Literal(int(c))))` unless `c` is missing; `false` when
        `int()` raises, in which case nothing is added. */
    method AddInt(s: Iri, p: Iri, c: Cell) returns (ok: bool)
      modifies g
      ensures ok == IntTriples(s, p, c).Some?
      ensures ok ==> g.triples == old(g.triples) + IntTriples(s, p, c).value
      ensures !ok ==> g.triples == old(g.triples)
    {
      if c.Some? {
        var n := IntOf(c.value);
        if n.None? {
          return false;
        }
        g.Add(Triple(s, p, Lit(LInt(n.value))));
      }
      return true;
    }

    /** Adds the edge `(s, p, x)` and the type, label and identifier of `x`. */
    method AddLinkedNode(s: Iri, p: Iri, x: Iri, cls: Iri, c: Cell)
      modifies g
      ensures g.triples == old(g.triples) + LinkedNode(s, p, x, cls, c)
    {
      g.Add(Triple(s, p, Node(x)));
      g.Add(Triple(x, RDF_TYPE, Node(cls)));
      g.Add(Triple(x, RDFS_LABEL, Lit(CellLiteral(c, LANG_ES))));
      g.Add(Triple(x, DC_IDENTIFIER, Lit(CellLiteral(c, None))));
    }

    /** The first three `g.add` calls of a student row. */
    method AddStudentBase(s: Iri, id: Cell)
      modifies g
      ensures g.triples == old(g.triples) + StudentBase(s, id)
    {
      g.Add(Triple(s, RDF_TYPE, Node(UNIV_STUDENT)));
      g.Add(Triple(s, DC_IDENTIFIER, Lit(CellLiteral(id, None))));
      g.Add(Triple(s, RDFS_LABEL, Lit(LStr(StudentLabel(id), LANG_ES))));
    }

    /** The `g.add` calls of a student row after its integer columns. */
    method AddStudentLinks(s: Iri, r: Row)
      modifies g
      ensures g.triples == old(g.triples) + StudentLinks(s, r)
    {
      if r.puntajeSaber11.Some? {
        g.Add(Triple(s, EDU_SABER11_SCORE, Lit(LFloat(r.puntajeSaber11.value))));
      }
      if r.ciudadOrigen.Some? {
        AddLinkedNode(s, GEO_ORIGIN_FROM, CreateCityUri(r.ciudadOrigen), GEO_CITY, r.ciudadOrigen);
      }
      if r.preferenciaArea.Some? {
        AddLinkedNode(s, EDU_PREFERS_AREA, CreateAreaUri(r.preferenciaArea), EDU_KNOWLEDGE_AREA, r.preferenciaArea);
      }
      if r.universidadCodigo.Some? {
        g.Add(Triple(s, UNIV_APPLIES_TO, Node(CreateUniversityUri(r.universidadCodigo))));
      }
    }

    /** The body of the `transform_students` loop for one row. */
    method AddStudent(r: Row) returns (fault: Option<Fault>)
      modifies g
      ensures g.triples == old(g.triples) + StudentRow(r).added
      ensures fault == StudentRow(r).fault
    {
      var s := CreateStudentUri(r.idEstudiante);
      AddStudentBase(s, r.idEstudiante);
      var ok := AddInt(s, UNIV_AGE, r.edad);
      if !ok {
        return Some(NotAnInteger("edad"));
      }
      if r.genero.Some? {
        g.Add(Triple(s, UNIV_GENDER, Lit(ValueLiteral(r.genero.value, LANG_ES))));
      }
      ok := AddInt(s, UNIV_STRATUM, r.estrato);
      if !ok {
        return Some(NotAnInteger("estrato"));
      }
      AddStudentLinks(s, r);
      return None;
    }

    /** `transform_students`: one step per row; `students` counts the rows
        that completed. A row whose `int()` raises ends the pass. */
    method TransformStudents() returns (fault: Option<Fault>)
      modifies this, g
      ensures g.triples == old(g.triples) + Run(rows, StudentRow).added
      ensures students == old(students) + Run(rows, StudentRow).done
      ensures fault == Run(rows, StudentRow).fault
      ensures universities == old(universities) && decisions == old(decisions)
      ensures totalTriples == old(totalTriples)
    {
      fault := None;
      var i := 0;
      while i < |rows| && fault.None?
        invariant i <= |rows|
        invariant fault == Run(rows[..i], StudentRow).fault
        invariant g.triples == old(g.triples) + Run(rows[..i], StudentRow).added
        invariant students == old(students) + Run(rows[..i], StudentRow).done
        invariant universities == old(universities) && decisions == old(decisions)
        invariant totalTriples == old(totalTriples)
      {
        RunSnoc(rows, i, StudentRow);
        fault := AddStudent(rows[i]);
        if fault.None? {
          students := students + 1;
        }
        i := i + 1;
      }
      RunStopped(rows, i, StudentRow);
    }

    /** The `g.add` calls of a university record before its ranking. */
    method AddUniversityBase(x: Iri, u: UniversityRecord)
      modifies g
      ensures g.triples == old(g.triples) + UniversityBase(x, u)
    {
      g.Add(Triple(x, RDF_TYPE, Node(UNIV_UNIVERSITY)));
      g.Add(Triple(x, DC_IDENTIFIER, Lit(CellLiteral(u.codigo, None))));
      g.Add(Triple(x, RDFS_LABEL, Lit(CellLiteral(u.nombre, LANG_ES))));
      g.Add(Triple(x, DC_TITLE, Lit(CellLiteral(u.nombre, LANG_ES))));
      if u.tipo.Some? {
        g.Add(Triple(x, UNIV_HAS_TYPE, Lit(ValueLiteral(u.tipo.value, LANG_ES))));
      }
      if u.acreditada.Some? {
        g.Add(Triple(x, UNIV_IS_ACCREDITED, Lit(LBool(ConvertBoolean(u.acreditada)))));
      }
    }

    /** The body of the `transform_universities` loop for one record. */
    method AddUniversity(u: UniversityRecord) returns (fault: Option<Fault>)
      modifies g
      ensures g.triples == old(g.triples) + UniversityRow(u).added
      ensures fault == UniversityRow(u).fault
    {
      var x := CreateUniversityUri(u.codigo);
      AddUniversityBase(x, u);
      var ok := AddInt(x, UNIV_NATIONAL_RANKING, u.ranking);
      if !ok {
        return Some(NotAnInteger("ranking_nacional"));
      }
      if u.departamento.Some? {
        AddLinkedNode(x, GEO_LOCATED_IN, CreateDepartmentUri(u.departamento), GEO_DEPARTMENT, u.departamento);
      }
      return None;
    }

    /** `transform_universities`: one step per distinct six-column record. */
    method TransformUniversities() returns (fault: Option<Fault>)
      modifies this, g
      ensures g.triples == old(g.triples) + Run(UniversityRecords(rows), UniversityRow).added
      ensures universities == old(universities) + Run(UniversityRecords(rows), UniversityRow).done
      ensures fault == Run(UniversityRecords(rows), UniversityRow).fault
      ensures students == old(students) && decisions == old(decisions)
      ensures totalTriples == old(totalTriples)
    {
      var records := UniversityRecords(rows);
      fault := None;
      var i := 0;
      while i < |records| && fault.None?
        invariant i <= |records|
        invariant fault == Run(records[..i], UniversityRow).fault
        invariant g.triples == old(g.triples) + Run(records[..i], UniversityRow).added
        invariant universities == old(universities) + Run(records[..i], UniversityRow).done
        invariant students == old(students) && decisions == old(decisions)
        invariant totalTriples == old(totalTriples)
      {
        RunSnoc(records, i, UniversityRow);
        fault := AddUniversity(records[i]);
        if fault.None? {
          universities := universities + 1;
        }
        i := i + 1;
      }
      RunStopped(records, i, UniversityRow);
    }

    /** The `g.add` calls about the decision node of a row. */
    method AddDecisionNode(d: Iri, s: Iri, r: Row)
      modifies g
      ensures g.triples == old(g.triples) + DecisionNode(d, s, r)
    {
      g.Add(Triple(d, RDF_TYPE, Node(BEHAVIOR_ACADEMIC_DECISION)));
      g.Add(Triple(s, BEHAVIOR_MAKES, Node(d)));
      g.Add(Triple(d, RDFS_LABEL, Lit(LStr(DecisionLabel(r.idEstudiante, r.universidadCodigo), LANG_ES))));
      if r.eligioUniversidad.Some? {
        g.Add(Triple(d, BEHAVIOR_FINAL_DECISION, Lit(LBool(ConvertBoolean(r.eligioUniversidad)))));
      }
      if r.modalidadPrograma.Some? {
        g.Add(Triple(d, EDU_PROGRAM_MODALITY, Lit(ValueLiteral(r.modalidadPrograma.value, LANG_ES))));
      }
    }

    /** The `g.add` calls that flag the university of a decision row. */
    method AddUniversityFlags(u: Iri, r: Row)
      modifies g
      ensures g.triples == old(g.triples) + UniversityFlags(u, r)
    {
      if r.convenioInternacional.Some? {
        g.Add(Triple(u, UNIV_HAS_AGREEMENT, Lit(LBool(ConvertBoolean(r.convenioInternacional)))));
      }
      if r.becaDisponible.Some? {
        g.Add(Triple(u, UNIV_HAS_SCHOLARSHIP, Lit(LBool(ConvertBoolean(r.becaDisponible)))));
      }
    }

    /** The body of the `transform_academic_decisions` loop for one row. */
    method AddDecision(item: DecisionItem)
      modifies g
      ensures g.triples == old(g.triples) + DecisionRow(md5, item).added
    {
      var r := item.row;
      var s := CreateStudentUri(r.idEstudiante);
      var u := CreateUniversityUri(r.universidadCodigo);
      var d := CreateDecisionUri(md5, r.idEstudiante, r.universidadCodigo);
      AddDecisionNode(d, s, r);
      AddUniversityFlags(u, r);
      g.Add(Triple(d, DC_SUBJECT, Node(u)));
      g.Add(Triple(d, DCTERMS_CREATED, Lit(LDateTime(item.stamp))));
    }

    /** `transform_academic_decisions`, row `i` stamped `stamps[i]`; it never
        raises, so `decisions` grows by the number of rows. */
    method TransformAcademicDecisions(stamps: seq<string>)
      requires |stamps| == |rows|
      modifies this, g
      ensures g.triples == old(g.triples) + Run(DecisionItems(rows, stamps), DecisionStep(md5)).added
      ensures decisions == old(decisions) + |rows|
      ensures students == old(students) && universities == old(universities)
      ensures totalTriples == old(totalTriples)
    {
      var items := DecisionItems(rows, stamps);
      var step := DecisionStep(md5);
      var i := 0;
      while i < |items|
        invariant i <= |items|
        invariant Run(items[..i], step).fault.None?
        invariant g.triples == old(g.triples) + Run(items[..i], step).added
        invariant decisions == old(decisions) + i
        invariant students == old(students) && universities == old(universities)
        invariant totalTriples == old(totalTriples)
      {
        RunSnoc(items, i, step);
        AddDecision(items[i]);
        decisions := decisions + 1;
        i := i + 1;
      }
      assert items[..i] == items;
    }

    /** `add_metadata`, with `created` stamped `stamp`. */
    method AddMetadata(stamp: string)
      modifies g
      ensures g.triples == old(g.triples) + MetadataTriples(|rows|, stamp)
    {
      g.Add(Triple(DATASET_URI, RDF_TYPE, Node(SCHEMA_DATASET)));
      g.Add(Triple(DATASET_URI, DC_TITLE, Lit(LStr(DATASET_TITLE, LANG_ES))));
      g.Add(Triple(DATASET_URI, DC_DESCRIPTION, Lit(LStr(DATASET_DESCRIPTION, LANG_ES))));
      g.Add(Triple(DATASET_URI, DCTERMS_CREATED, Lit(LDateTime(stamp))));
      g.Add(Triple(DATASET_URI, DC_CREATOR, Lit(LStr(DATASET_CREATOR, LANG_ES))));
      g.Add(Triple(DATASET_URI, DC_LANGUAGE, Lit(LStr("es", None))));
      g.Add(Triple(DATASET_URI, DCTERMS_SPATIAL, Lit(LStr("Colombia", LANG_ES))));
      g.Add(Triple(DATASET_URI, SCHEMA_NUMBER_OF_ITEMS, Lit(LInt(|rows|))));
    }

    /** `main`'s sequence: the three passes, then the metadata; an exception
        from a pass ends the run there. */
    method Transform(stamps: seq<string>, metaStamp: string) returns (fault: Option<Fault>)
      requires |stamps| == |rows|
      requires students == 0 && universities == 0 && decisions == 0
      modifies this, g
      ensures fault.None? <==>
        Run(rows, StudentRow).fault.None? && Run(UniversityRecords(rows), UniversityRow).fault.None?
      ensures fault.None? ==> g.triples == BuiltGraph(old(g.triples), rows, md5, stamps, metaStamp)
      ensures fault.None? ==>
        students == |rows| && universities == |UniversityRecords(rows)| && decisions == |rows|
    {
      fault := TransformStudents();
      if fault.Some? {
        return;
      }
      fault := TransformUniversities();
      if fault.Some? {
        return;
      }
      TransformAcademicDecisions(stamps);
      AddMetadata(metaStamp);
    }

    /** `print_transformation_stats`: records `len(g)` and reports the
        counters and the number of nodes of each type. */
    method PrintTransformationStats() returns (stats: TransformationStats)
      modifies this
      ensures totalTriples == |g.triples|
      ensures students == old(students) && universities == old(universities) && decisions == old(decisions)
      ensures stats == TransformationStats(
        |rows|, students, universities, decisions, |g.triples|,
        |TypedAs(g.triples, UNIV_STUDENT)|, |TypedAs(g.triples, UNIV_UNIVERSITY)|,
        |TypedAs(g.triples, BEHAVIOR_ACADEMIC_DECISION)|, |TypedAs(g.triples, EDU_KNOWLEDGE_AREA)|,
        |TypedAs(g.triples, GEO_CITY)|, |TypedAs(g.triples, GEO_DEPARTMENT)|)
    {
      totalTriples := g.Size();
      var studentNodes := g.CountSubjects(RDF_TYPE, Node(UNIV_STUDENT));
      var universityNodes := g.CountSubjects(RDF_TYPE, Node(UNIV_UNIVERSITY));
      var decisionNodes := g.CountSubjects(RDF_TYPE, Node(BEHAVIOR_ACADEMIC_DECISION));
      var areaNodes := g.CountSubjects(RDF_TYPE, Node(EDU_KNOWLEDGE_AREA));
      var cityNodes := g.CountSubjects(RDF_TYPE, Node(GEO_CITY));
      var departmentNodes := g.CountSubjects(RDF_TYPE, Node(GEO_DEPARTMENT));
      stats := TransformationStats(|rows|, students, universities, decisions, totalTriples,
                                   studentNodes, universityNodes, decisionNodes,
                                   areaNodes, cityNodes, departmentNodes);
    }

    /** The first loop of `validate_data_quality`: the distinct subjects of
        the `appliesTo` triples. */
    method CountApplicants() returns (n: nat)
      ensures n == |Applicants(g.triples)|
    {
      var ts := g.triples;
      var applicants: set<Iri> := {};
      var rest := Applications(ts);
      while rest != {}
        invariant rest <= Applications(ts)
        invariant applicants == set t | t in Applications(ts) - rest :: t.s
        decreases |rest|
      {
        var t :| t in rest;
        applicants := applicants + {t.s};
        rest := rest - {t};
      }
      assert Applications(ts) - rest == Applications(ts);
      n := |applicants|;
    }

    /** The second loop of `validate_data_quality`: one step per
        `AcademicDecision` type triple, counting those whose subject has a
        `finalDecision`. */
    method CountDecisions() returns (total: nat, withResult: nat)
      ensures total == |DecisionNodes(g.triples)|
      ensures withResult == |ResolvedDecisions(g.triples)|
    {
      var ts := g.triples;
      var typed := Matching(ts, RDF_TYPE, Node(BEHAVIOR_ACADEMIC_DECISION));
      total, withResult := 0, 0;
      var rest := typed;
      ghost var resolved: set<Triple> := {};
      while rest != {}
        invariant rest <= typed && total == |typed| - |rest|
        invariant resolved <= typed && resolved !! rest
        invariant forall u :: u in typed && u !in rest ==> (u in resolved <==> HasResult(ts, u.s))
        invariant withResult == |resolved|
        decreases |rest|
      {
        var t :| t in rest;
        total := total + 1;
        if HasResult(ts, t.s) {
          withResult := withResult + 1;
          resolved := resolved + {t};
        }
        rest := rest - {t};
      }
      ResolvedCount(ts, resolved);
    }

    /** The third loop of `validate_data_quality`: the decisions that no
        `makes` edge points at. */
    method CountOrphans() returns (orphaned: nat)
      ensures orphaned == |OrphanedDecisions(g.triples)|
    {
      var ts := g.triples;
      var typed := Matching(ts, RDF_TYPE, Node(BEHAVIOR_ACADEMIC_DECISION));
      orphaned := 0;
      var rest := typed;
      ghost var orphans: set<Triple> := {};
      while rest != {}
        invariant rest <= typed
        invariant orphans <= typed && orphans !! rest
        invariant forall u :: u in typed && u !in rest ==> (u in orphans <==> !HasMaker(ts, u.s))
        invariant orphaned == |orphans|
        decreases |rest|
      {
        var t :| t in rest;
        if !HasMaker(ts, t.s) {
          orphaned := orphaned + 1;
          orphans := orphans + {t};
        }
        rest := rest - {t};
      }
      OrphanCount(ts, orphans);
    }

    /** `validate_data_quality`: it only reads the graph, and its verdict is
        success exactly when no decision is orphaned and every decision has a
        result. */
    method ValidateDataQuality() returns (report: QualityReport)
      ensures report == ReportOf(g.triples)
    {
      var applicants := CountApplicants();
      var totalStudents := g.CountSubjects(RDF_TYPE, Node(UNIV_STUDENT));
      var total, withResult := CountDecisions();
      var orphaned := CountOrphans();
      report := QualityReport(applicants, totalStudents, withResult, total, orphaned,
                              orphaned == 0 && withResult == total);
    }
  }

  /** Counting type triples counts decision nodes, because a graph holds each
      `(d, rdf:type, AcademicDecision)` once. */
  lemma DecisionCounts(ts: set<Triple>)
    ensures |Matching(ts, RDF_TYPE, Node(BEHAVIOR_ACADEMIC_DECISION))| == |DecisionNodes(ts)|
    ensures |set t | t in Matching(ts, RDF_TYPE, Node(BEHAVIOR_ACADEMIC_DECISION)) && HasResult(ts, t.s)|
         == |ResolvedDecisions(ts)|
    ensures |set t | t in Matching(ts, RDF_TYPE, Node(BEHAVIOR_ACADEMIC_DECISION)) && !HasMaker(ts, t.s)|
         == |OrphanedDecisions(ts)|
  {
    var o := Node(BEHAVIOR_ACADEMIC_DECISION);
    var typed := Matching(ts, RDF_TYPE, o);
    MatchingCountIsSubjectCount(ts, RDF_TYPE, o);
    var resolved := set t | t in typed && HasResult(ts, t.s);
    SameShapeCount(resolved, RDF_TYPE, o);
    assert (set t | t in resolved :: t.s) == ResolvedDecisions(ts);
    var orphans := set t | t in typed && !HasMaker(ts, t.s);
    SameShapeCount(orphans, RDF_TYPE, o);
    assert (set t | t in orphans :: t.s) == OrphanedDecisions(ts);
  }

  /** The decisions the validation's second loop counts as resolved. */
  lemma ResolvedCount(ts: set<Triple>, resolved: set<Triple>)
    requires forall u :: u in resolved <==> u in Matching(ts, RDF_TYPE, Node(BEHAVIOR_ACADEMIC_DECISION)) && HasResult(ts, u.s)
    ensures |resolved| == |ResolvedDecisions(ts)|
    ensures |Matching(ts, RDF_TYPE, Node(BEHAVIOR_ACADEMIC_DECISION))| == |DecisionNodes(ts)|
  {
    assert resolved == set u | u in Matching(ts, RDF_TYPE, Node(BEHAVIOR_ACADEMIC_DECISION)) && HasResult(ts, u.s);
    DecisionCounts(ts);
  }

  /** The decisions the validation's third loop counts as orphaned. */
  lemma OrphanCount(ts: set<Triple>, orphans: set<Triple>)
    requires forall u :: u in orphans <==> u in Matching(ts, RDF_TYPE, Node(BEHAVIOR_ACADEMIC_DECISION)) && !HasMaker(ts, u.s)
    ensures |orphans| == |OrphanedDecisions(ts)|
  {
    assert orphans == set u | u in Matching(ts, RDF_TYPE, Node(BEHAVIOR_ACADEMIC_DECISION)) && !HasMaker(ts, u.s);
    DecisionCounts(ts);
  }
}
