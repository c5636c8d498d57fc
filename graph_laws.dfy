/** What the passes guarantee about the graph: each writes a fixed vocabulary,
    a missing cell yields no triple, a raise cuts the row short, every edge to
    a city, area or department comes with that node's type triple, and after
    the decisions pass no decision is orphaned. */
module GraphLaws {
  import opened Wrappers
  import opened Cells
  import opened Rdf
  import opened Minting
  import opened MintingLaws
  import opened Coercion
  import opened Rows
  import opened Passes
  import opened Quality

  /** Every triple of `ts` uses a predicate from `preds`, and every type
      triple names a class from `classes`. */
  predicate UsesOnly(ts: set<Triple>, preds: set<Iri>, classes: set<Iri>) {
    forall t :: t in ts ==> t.p in preds && (t.p == RDF_TYPE ==> t.o.Node? && t.o.iri in classes)
  }

  const STUDENT_PREDICATES: set<Iri> :=
    {RDF_TYPE, DC_IDENTIFIER, RDFS_LABEL, UNIV_AGE, UNIV_GENDER, UNIV_STRATUM,
     EDU_SABER11_SCORE, GEO_ORIGIN_FROM, EDU_PREFERS_AREA, UNIV_APPLIES_TO}
  const STUDENT_CLASSES: set<Iri> := {UNIV_STUDENT, GEO_CITY, EDU_KNOWLEDGE_AREA}

  const UNIVERSITY_PREDICATES: set<Iri> :=
    {RDF_TYPE, DC_IDENTIFIER, RDFS_LABEL, DC_TITLE, UNIV_HAS_TYPE, UNIV_IS_ACCREDITED,
     UNIV_NATIONAL_RANKING, GEO_LOCATED_IN}
  const UNIVERSITY_CLASSES: set<Iri> := {UNIV_UNIVERSITY, GEO_DEPARTMENT}

  const DECISION_PREDICATES: set<Iri> :=
    {RDF_TYPE, BEHAVIOR_MAKES, RDFS_LABEL, BEHAVIOR_FINAL_DECISION, EDU_PROGRAM_MODALITY,
     UNIV_HAS_AGREEMENT, UNIV_HAS_SCHOLARSHIP, DC_SUBJECT, DCTERMS_CREATED}
  const DECISION_CLASSES: set<Iri> := {BEHAVIOR_ACADEMIC_DECISION}

  const METADATA_PREDICATES: set<Iri> :=
    {RDF_TYPE, DC_TITLE, DC_DESCRIPTION, DCTERMS_CREATED, DC_CREATOR, DC_LANGUAGE,
     DCTERMS_SPATIAL, SCHEMA_NUMBER_OF_ITEMS}
  const METADATA_CLASSES: set<Iri> := {SCHEMA_DATASET}

  lemma LinkedNodeVocabulary(s: Iri, p: Iri, x: Iri, cls: Iri, c: Cell, preds: set<Iri>, classes: set<Iri>)
    requires p in preds && RDF_TYPE in preds && RDFS_LABEL in preds && DC_IDENTIFIER in preds
    requires p != RDF_TYPE && cls in classes
    ensures UsesOnly(LinkedNode(s, p, x, cls, c), preds, classes)
  {
  }

  lemma StudentRowVocabulary(r: Row)
    ensures UsesOnly(StudentRow(r).added, STUDENT_PREDICATES, STUDENT_CLASSES)
  {
    var s := CreateStudentUri(r.idEstudiante);
    var (P, C) := (STUDENT_PREDICATES, STUDENT_CLASSES);
    assert UsesOnly(StudentBase(s, r.idEstudiante), P, C);
    assert UsesOnly(ValueTriples(s, UNIV_GENDER, r.genero, LANG_ES), P, C);
    if IntTriples(s, UNIV_AGE, r.edad).Some? {
      assert UsesOnly(IntTriples(s, UNIV_AGE, r.edad).value, P, C);
    }
    if IntTriples(s, UNIV_STRATUM, r.estrato).Some? {
      assert UsesOnly(IntTriples(s, UNIV_STRATUM, r.estrato).value, P, C);
    }
    if r.ciudadOrigen.Some? {
      LinkedNodeVocabulary(s, GEO_ORIGIN_FROM, CreateCityUri(r.ciudadOrigen), GEO_CITY, r.ciudadOrigen, P, C);
    }
    if r.preferenciaArea.Some? {
      LinkedNodeVocabulary(s, EDU_PREFERS_AREA, CreateAreaUri(r.preferenciaArea), EDU_KNOWLEDGE_AREA, r.preferenciaArea, P, C);
    }
    assert UsesOnly(StudentLinks(s, r), P, C);
  }

  lemma UniversityRowVocabulary(u: UniversityRecord)
    ensures UsesOnly(UniversityRow(u).added, UNIVERSITY_PREDICATES, UNIVERSITY_CLASSES)
  {
    var x := CreateUniversityUri(u.codigo);
    var (P, C) := (UNIVERSITY_PREDICATES, UNIVERSITY_CLASSES);
    UniversityBaseVocabulary(x, u);
    if IntTriples(x, UNIV_NATIONAL_RANKING, u.ranking).Some? {
      assert UsesOnly(IntTriples(x, UNIV_NATIONAL_RANKING, u.ranking).value, P, C);
    }
    if u.departamento.Some? {
      LinkedNodeVocabulary(x, GEO_LOCATED_IN, CreateDepartmentUri(u.departamento), GEO_DEPARTMENT, u.departamento, P, C);
    }
  }

  lemma UniversityBaseVocabulary(x: Iri, u: UniversityRecord)
    ensures UsesOnly(UniversityBase(x, u), UNIVERSITY_PREDICATES, UNIVERSITY_CLASSES)
  {
    var (P, C) := (UNIVERSITY_PREDICATES, UNIVERSITY_CLASSES);
    assert UsesOnly(ValueTriples(x, UNIV_HAS_TYPE, u.tipo, LANG_ES), P, C);
    assert UsesOnly(FlagTriples(x, UNIV_IS_ACCREDITED, u.acreditada), P, C);
  }

  lemma DecisionRowVocabulary(md5: string -> HexDigest, item: DecisionItem)
    ensures UsesOnly(DecisionRow(md5, item).added, DECISION_PREDICATES, DECISION_CLASSES)
  {
    var r := item.row;
    var s := CreateStudentUri(r.idEstudiante);
    var u := CreateUniversityUri(r.universidadCodigo);
    var d := CreateDecisionUri(md5, r.idEstudiante, r.universidadCodigo);
    var (P, C) := (DECISION_PREDICATES, DECISION_CLASSES);
    assert UsesOnly(DecisionNode(d, s, r), P, C);
    assert UsesOnly(UniversityFlags(u, r), P, C);
  }

  lemma MetadataVocabulary(n: nat, stamp: string)
    ensures UsesOnly(MetadataTriples(n, stamp), METADATA_PREDICATES, METADATA_CLASSES)
  {
  }

  /** A pass writes only what its rows write. */
  lemma RunVocabulary<T>(xs: seq<T>, step: T -> RowOutcome, preds: set<Iri>, classes: set<Iri>)
    requires forall i :: 0 <= i < |xs| ==> UsesOnly(step(xs[i]).added, preds, classes)
    ensures UsesOnly(Run(xs, step).added, preds, classes)
  {
    forall t | t in Run(xs, step).added
      ensures t.p in preds && (t.p == RDF_TYPE ==> t.o.Node? && t.o.iri in classes)
    {
      RunAddsWholeRows(xs, step, t);
    }
  }

  /** No triple of `ts` stems from a missing cell of `r`. */
  predicate SkipsMissing(r: Row, ts: set<Triple>) {
    forall t :: t in ts ==>
      && (t.p == UNIV_AGE ==> r.edad.Some?)
      && (t.p == UNIV_GENDER ==> r.genero.Some?)
      && (t.p == UNIV_STRATUM ==> r.estrato.Some?)
      && (t.p == EDU_SABER11_SCORE ==> r.puntajeSaber11.Some?)
      && (t.p == GEO_ORIGIN_FROM ==> r.ciudadOrigen.Some?)
      && (t.p == EDU_PREFERS_AREA ==> r.preferenciaArea.Some?)
      && (t.p == UNIV_APPLIES_TO ==> r.universidadCodigo.Some?)
  }

  lemma LinkedNodeSkips(r: Row, s: Iri, p: Iri, x: Iri, cls: Iri, c: Cell)
    requires p == GEO_ORIGIN_FROM ==> r.ciudadOrigen.Some?
    requires p == EDU_PREFERS_AREA ==> r.preferenciaArea.Some?
    requires p in {GEO_ORIGIN_FROM, EDU_PREFERS_AREA}
    ensures SkipsMissing(r, LinkedNode(s, p, x, cls, c))
  {
  }

  /** A missing cell yields no triple for its predicate from that row. */
  lemma StudentRowSkipsMissing(r: Row)
    ensures SkipsMissing(r, StudentRow(r).added)
  {
    var s := CreateStudentUri(r.idEstudiante);
    StudentBaseSkips(r, s);
    assert SkipsMissing(r, ValueTriples(s, UNIV_GENDER, r.genero, LANG_ES));
    if IntTriples(s, UNIV_AGE, r.edad).Some? {
      assert SkipsMissing(r, IntTriples(s, UNIV_AGE, r.edad).value);
    }
    if IntTriples(s, UNIV_STRATUM, r.estrato).Some? {
      assert SkipsMissing(r, IntTriples(s, UNIV_STRATUM, r.estrato).value);
    }
    StudentLinksSkips(r, s);
  }

  lemma StudentBaseSkips(r: Row, s: Iri)
    ensures SkipsMissing(r, StudentBase(s, r.idEstudiante))
  {
  }

  lemma StudentLinksSkips(r: Row, s: Iri)
    ensures SkipsMissing(r, StudentLinks(s, r))
  {
    if r.ciudadOrigen.Some? {
      LinkedNodeSkips(r, s, GEO_ORIGIN_FROM, CreateCityUri(r.ciudadOrigen), GEO_CITY, r.ciudadOrigen);
    }
    if r.preferenciaArea.Some? {
      LinkedNodeSkips(r, s, EDU_PREFERS_AREA, CreateAreaUri(r.preferenciaArea), EDU_KNOWLEDGE_AREA, r.preferenciaArea);
    }
  }

  /** A row that completed holds a triple for every present cell, with the
      literal or node the source builds from it. */
  lemma StudentRowKeepsPresent(r: Row)
    requires StudentRow(r).fault.None?
    ensures var s, ts := CreateStudentUri(r.idEstudiante), StudentRow(r).added;
      && Triple(s, RDF_TYPE, Node(UNIV_STUDENT)) in ts
      && (r.edad.Some? ==> IntOf(r.edad.value).Some? && Triple(s, UNIV_AGE, Lit(LInt(IntOf(r.edad.value).value))) in ts)
      && (r.genero.Some? ==> Triple(s, UNIV_GENDER, Lit(ValueLiteral(r.genero.value, LANG_ES))) in ts)
      && (r.estrato.Some? ==> IntOf(r.estrato.value).Some? && Triple(s, UNIV_STRATUM, Lit(LInt(IntOf(r.estrato.value).value))) in ts)
      && (r.puntajeSaber11.Some? ==> Triple(s, EDU_SABER11_SCORE, Lit(LFloat(r.puntajeSaber11.value))) in ts)
      && (r.ciudadOrigen.Some? ==> Triple(s, GEO_ORIGIN_FROM, Node(CreateCityUri(r.ciudadOrigen))) in ts)
      && (r.preferenciaArea.Some? ==> Triple(s, EDU_PREFERS_AREA, Node(CreateAreaUri(r.preferenciaArea))) in ts)
      && (r.universidadCodigo.Some? ==> Triple(s, UNIV_APPLIES_TO, Node(CreateUniversityUri(r.universidadCodigo))) in ts)
  {
  }

  /** `int()` on `edad`, then on `estrato`, is what can raise; a row that
      raised keeps its student node but gets none of its links. */
  lemma StudentRowRaises(r: Row)
    ensures StudentRow(r).fault == Some(NotAnInteger("edad")) <==> r.edad.Some? && IntOf(r.edad.value).None?
    ensures StudentRow(r).fault == Some(NotAnInteger("estrato")) <==>
      !(r.edad.Some? && IntOf(r.edad.value).None?) && r.estrato.Some? && IntOf(r.estrato.value).None?
    ensures StudentRow(r).fault.Some? ==>
      && Triple(CreateStudentUri(r.idEstudiante), RDF_TYPE, Node(UNIV_STUDENT)) in StudentRow(r).added
      && forall t :: t in StudentRow(r).added ==>
           t.p != GEO_ORIGIN_FROM && t.p != EDU_PREFERS_AREA && t.p != UNIV_APPLIES_TO && t.p != EDU_SABER11_SCORE
  {
    var s := CreateStudentUri(r.idEstudiante);
    var early := StudentBase(s, r.idEstudiante) + ValueTriples(s, UNIV_GENDER, r.genero, LANG_ES);
    assert forall t :: t in early ==> t.p in {RDF_TYPE, DC_IDENTIFIER, RDFS_LABEL, UNIV_GENDER};
    if IntTriples(s, UNIV_AGE, r.edad).Some? {
      assert forall t :: t in IntTriples(s, UNIV_AGE, r.edad).value ==> t.p == UNIV_AGE;
    }
  }

  /** No triple of `ts` stems from a missing cell of `u`. */
  predicate SkipsMissingUniversity(u: UniversityRecord, ts: set<Triple>) {
    forall t :: t in ts ==>
      && (t.p == UNIV_HAS_TYPE ==> u.tipo.Some?)
      && (t.p == UNIV_IS_ACCREDITED ==> u.acreditada.Some?)
      && (t.p == UNIV_NATIONAL_RANKING ==> u.ranking.Some?)
      && (t.p == GEO_LOCATED_IN ==> u.departamento.Some?)
  }

  /** A missing university cell yields no triple for its predicate. */
  lemma UniversityRowSkipsMissing(u: UniversityRecord)
    ensures SkipsMissingUniversity(u, UniversityRow(u).added)
  {
    var x := CreateUniversityUri(u.codigo);
    assert SkipsMissingUniversity(u, UniversityBase(x, u));
    if IntTriples(x, UNIV_NATIONAL_RANKING, u.ranking).Some? {
      assert SkipsMissingUniversity(u, IntTriples(x, UNIV_NATIONAL_RANKING, u.ranking).value);
    }
    if u.departamento.Some? {
      assert SkipsMissingUniversity(u, LinkedNode(x, GEO_LOCATED_IN, CreateDepartmentUri(u.departamento), GEO_DEPARTMENT, u.departamento));
    }
  }

  /** A university record raises exactly when its ranking is present and not
      an integer; it then keeps its type, names and flags but gets no
      department link. When it completes, every present cell has its triple. */
  lemma UniversityRowOutcome(u: UniversityRecord)
    ensures UniversityRow(u).fault.Some? <==> u.ranking.Some? && IntOf(u.ranking.value).None?
    ensures UniversityRow(u).fault.Some? ==> UniversityRow(u).fault == Some(NotAnInteger("ranking_nacional"))
    ensures var x, ts := CreateUniversityUri(u.codigo), UniversityRow(u).added;
      && Triple(x, RDF_TYPE, Node(UNIV_UNIVERSITY)) in ts
      && Triple(x, DC_TITLE, Lit(CellLiteral(u.nombre, LANG_ES))) in ts
      && (u.acreditada.Some? ==> Triple(x, UNIV_IS_ACCREDITED, Lit(LBool(ConvertBoolean(u.acreditada)))) in ts)
      && (UniversityRow(u).fault.Some? ==> forall t :: t in ts ==> t.p != GEO_LOCATED_IN)
      && (UniversityRow(u).fault.None? && u.departamento.Some? ==>
            Triple(x, GEO_LOCATED_IN, Node(CreateDepartmentUri(u.departamento))) in ts)
      && (UniversityRow(u).fault.None? && u.ranking.Some? ==>
            IntOf(u.ranking.value).Some? && Triple(x, UNIV_NATIONAL_RANKING, Lit(LInt(IntOf(u.ranking.value).value))) in ts)
  {
    UniversityBaseHasNoLink(CreateUniversityUri(u.codigo), u);
  }

  lemma UniversityBaseHasNoLink(x: Iri, u: UniversityRecord)
    ensures forall t :: t in UniversityBase(x, u) ==> t.p != GEO_LOCATED_IN
  {
    assert forall t :: t in ValueTriples(x, UNIV_HAS_TYPE, u.tipo, LANG_ES) ==> t.p != GEO_LOCATED_IN;
    assert forall t :: t in FlagTriples(x, UNIV_IS_ACCREDITED, u.acreditada) ==> t.p != GEO_LOCATED_IN;
  }

  /** Each decision row types its node, links it from its student and to its
      university, and never raises. */
  lemma DecisionRowLinks(md5: string -> HexDigest, item: DecisionItem)
    ensures var r := item.row;
      var s, u := CreateStudentUri(r.idEstudiante), CreateUniversityUri(r.universidadCodigo);
      var d, ts := CreateDecisionUri(md5, r.idEstudiante, r.universidadCodigo), DecisionRow(md5, item).added;
      && DecisionRow(md5, item).fault.None?
      && Triple(d, RDF_TYPE, Node(BEHAVIOR_ACADEMIC_DECISION)) in ts
      && Triple(s, BEHAVIOR_MAKES, Node(d)) in ts
      && Triple(d, DC_SUBJECT, Node(u)) in ts
  {
  }

  /** A decision row records a result exactly when `eligio_universidad` is
      present, and the result is `convert_boolean` of it. */
  lemma DecisionRowResult(md5: string -> HexDigest, item: DecisionItem)
    ensures var r := item.row;
      var d, ts := CreateDecisionUri(md5, r.idEstudiante, r.universidadCodigo), DecisionRow(md5, item).added;
      && (r.eligioUniversidad.Some? <==> HasResult(ts, d))
      && (r.eligioUniversidad.Some? ==>
            Triple(d, BEHAVIOR_FINAL_DECISION, Lit(LBool(ConvertBoolean(r.eligioUniversidad)))) in ts)
  {
    var r := item.row;
    var d := CreateDecisionUri(md5, r.idEstudiante, r.universidadCodigo);
    var ts := DecisionRow(md5, item).added;
    if r.eligioUniversidad.Some? {
      assert Triple(d, BEHAVIOR_FINAL_DECISION, Lit(LBool(ConvertBoolean(r.eligioUniversidad)))) in ts;
    } else {
      assert forall t :: t in ts ==> t.p != BEHAVIOR_FINAL_DECISION;
    }
  }

  /** The agreement and scholarship flags of a decision row go on the
      university node, never on the decision node. */
  lemma DecisionRowFlags(md5: string -> HexDigest, item: DecisionItem)
    ensures var r := item.row;
      var u := CreateUniversityUri(r.universidadCodigo);
      var d := CreateDecisionUri(md5, r.idEstudiante, r.universidadCodigo);
      OnlyFlagsOn(u, DecisionRow(md5, item).added) && u != d
  {
    var r := item.row;
    var s := CreateStudentUri(r.idEstudiante);
    var u := CreateUniversityUri(r.universidadCodigo);
    var d := CreateDecisionUri(md5, r.idEstudiante, r.universidadCodigo);
    DecisionUriIsNotEntityUri(md5, r.idEstudiante, r.universidadCodigo, UniversityKind, r.universidadCodigo);
    DecisionNodeHasNoFlags(d, s, r, u);
    assert OnlyFlagsOn(u, UniversityFlags(u, r));
    assert OnlyFlagsOn(u, {Triple(d, DC_SUBJECT, Node(u)), Triple(d, DCTERMS_CREATED, Lit(LDateTime(item.stamp)))});
  }

  lemma DecisionNodeHasNoFlags(d: Iri, s: Iri, r: Row, u: Iri)
    ensures OnlyFlagsOn(u, DecisionNode(d, s, r))
  {
    assert OnlyFlagsOn(u, FlagTriples(d, BEHAVIOR_FINAL_DECISION, r.eligioUniversidad));
    assert OnlyFlagsOn(u, ValueTriples(d, EDU_PROGRAM_MODALITY, r.modalidadPrograma, LANG_ES));
  }

  /** Every agreement or scholarship flag in `ts` is about `u`. */
  predicate OnlyFlagsOn(u: Iri, ts: set<Triple>) {
    forall t :: t in ts && (t.p == UNIV_HAS_AGREEMENT || t.p == UNIV_HAS_SCHOLARSHIP) ==> t.s == u
  }

  /** Every type triple of `ts` is the student's, or a city's or area's minted
      from the row's present cell. */
  predicate StudentTypes(r: Row, ts: set<Triple>) {
    forall t :: t in ts && t.p == RDF_TYPE ==>
      || t == Triple(CreateStudentUri(r.idEstudiante), RDF_TYPE, Node(UNIV_STUDENT))
      || (r.ciudadOrigen.Some? && t == Triple(CreateCityUri(r.ciudadOrigen), RDF_TYPE, Node(GEO_CITY)))
      || (r.preferenciaArea.Some? && t == Triple(CreateAreaUri(r.preferenciaArea), RDF_TYPE, Node(EDU_KNOWLEDGE_AREA)))
  }

  /** The nodes a student row types: only the student, and the city and area
      of its present cells. */
  lemma StudentRowTypes(r: Row)
    ensures StudentTypes(r, StudentRow(r).added)
  {
    var s := CreateStudentUri(r.idEstudiante);
    assert StudentTypes(r, StudentBase(s, r.idEstudiante));
    assert StudentTypes(r, ValueTriples(s, UNIV_GENDER, r.genero, LANG_ES));
    if IntTriples(s, UNIV_AGE, r.edad).Some? {
      assert StudentTypes(r, IntTriples(s, UNIV_AGE, r.edad).value);
    }
    if IntTriples(s, UNIV_STRATUM, r.estrato).Some? {
      assert StudentTypes(r, IntTriples(s, UNIV_STRATUM, r.estrato).value);
    }
    StudentLinksTypes(r);
  }

  lemma StudentLinksTypes(r: Row)
    ensures StudentTypes(r, StudentLinks(CreateStudentUri(r.idEstudiante), r))
  {
    var s := CreateStudentUri(r.idEstudiante);
    if r.ciudadOrigen.Some? {
      assert StudentTypes(r, LinkedNode(s, GEO_ORIGIN_FROM, CreateCityUri(r.ciudadOrigen), GEO_CITY, r.ciudadOrigen));
    }
    if r.preferenciaArea.Some? {
      assert StudentTypes(r, LinkedNode(s, EDU_PREFERS_AREA, CreateAreaUri(r.preferenciaArea), EDU_KNOWLEDGE_AREA, r.preferenciaArea));
    }
  }

  /** A student row always types its student, and once it completes, the
      city and area of its present cells. */
  lemma StudentRowTypesPresent(r: Row)
    ensures Triple(CreateStudentUri(r.idEstudiante), RDF_TYPE, Node(UNIV_STUDENT)) in StudentRow(r).added
    ensures StudentRow(r).fault.None? && r.ciudadOrigen.Some? ==>
      Triple(CreateCityUri(r.ciudadOrigen), RDF_TYPE, Node(GEO_CITY)) in StudentRow(r).added
    ensures StudentRow(r).fault.None? && r.preferenciaArea.Some? ==>
      Triple(CreateAreaUri(r.preferenciaArea), RDF_TYPE, Node(EDU_KNOWLEDGE_AREA)) in StudentRow(r).added
  {
    var s := CreateStudentUri(r.idEstudiante);
    assert Triple(s, RDF_TYPE, Node(UNIV_STUDENT)) in StudentBase(s, r.idEstudiante);
  }

  /** Where the city, area and application edges of `ts` lead: to the nodes
      minted from the row's present cells, from the row's student. */
  predicate StudentEdges(r: Row, ts: set<Triple>) {
    forall t :: t in ts ==>
      && (t.p == GEO_ORIGIN_FROM ==> r.ciudadOrigen.Some? && t.o == Node(CreateCityUri(r.ciudadOrigen)))
      && (t.p == EDU_PREFERS_AREA ==> r.preferenciaArea.Some? && t.o == Node(CreateAreaUri(r.preferenciaArea)))
      && (t.p == UNIV_APPLIES_TO ==>
            && r.universidadCodigo.Some? && t.s == CreateStudentUri(r.idEstudiante)
            && t.o == Node(CreateUniversityUri(r.universidadCodigo)))
  }

  lemma LinkedNodeEdges(r: Row, s: Iri, p: Iri, x: Iri, cls: Iri, c: Cell)
    requires p == GEO_ORIGIN_FROM ==> r.ciudadOrigen.Some? && x == CreateCityUri(r.ciudadOrigen)
    requires p == EDU_PREFERS_AREA ==> r.preferenciaArea.Some? && x == CreateAreaUri(r.preferenciaArea)
    requires p in {GEO_ORIGIN_FROM, EDU_PREFERS_AREA}
    ensures StudentEdges(r, LinkedNode(s, p, x, cls, c))
  {
  }

  lemma StudentRowEdges(r: Row)
    ensures StudentEdges(r, StudentRow(r).added)
  {
    var s := CreateStudentUri(r.idEstudiante);
    StudentBaseEdges(r, s);
    assert StudentEdges(r, ValueTriples(s, UNIV_GENDER, r.genero, LANG_ES));
    if IntTriples(s, UNIV_AGE, r.edad).Some? {
      assert StudentEdges(r, IntTriples(s, UNIV_AGE, r.edad).value);
    }
    if IntTriples(s, UNIV_STRATUM, r.estrato).Some? {
      assert StudentEdges(r, IntTriples(s, UNIV_STRATUM, r.estrato).value);
    }
    StudentLinksEdges(r);
  }

  lemma StudentBaseEdges(r: Row, s: Iri)
    ensures StudentEdges(r, StudentBase(s, r.idEstudiante))
  {
  }

  lemma StudentLinksEdges(r: Row)
    ensures StudentEdges(r, StudentLinks(CreateStudentUri(r.idEstudiante), r))
  {
    var s := CreateStudentUri(r.idEstudiante);
    if r.ciudadOrigen.Some? {
      LinkedNodeEdges(r, s, GEO_ORIGIN_FROM, CreateCityUri(r.ciudadOrigen), GEO_CITY, r.ciudadOrigen);
    }
    if r.preferenciaArea.Some? {
      LinkedNodeEdges(r, s, EDU_PREFERS_AREA, CreateAreaUri(r.preferenciaArea), EDU_KNOWLEDGE_AREA, r.preferenciaArea);
    }
  }

  /** Every `appliesTo` subject of `ts` is typed `Student` in `ts`. */
  predicate ApplicantsTyped(ts: set<Triple>) {
    forall t :: t in ts && t.p == UNIV_APPLIES_TO ==> Triple(t.s, RDF_TYPE, Node(UNIV_STUDENT)) in ts
  }

  /** A student row's `appliesTo` edge comes with its student's type triple,
      and its city and area edges with their nodes' type triples. */
  lemma StudentRowDeclares(r: Row)
    ensures ApplicantsTyped(StudentRow(r).added)
    ensures EdgeTargetsDeclared(StudentRow(r).added, GEO_ORIGIN_FROM, GEO_CITY)
    ensures EdgeTargetsDeclared(StudentRow(r).added, EDU_PREFERS_AREA, EDU_KNOWLEDGE_AREA)
  {
    var ts := StudentRow(r).added;
    StudentRowEdges(r);
    StudentRowTypesPresent(r);
    StudentRowRaises(r);
    assert StudentRow(r).fault.Some? ==> forall t :: t in ts ==> t.p != GEO_ORIGIN_FROM && t.p != EDU_PREFERS_AREA;
  }

  /** Every type triple of `ts` is the university's own or a department's;
      every `locatedIn` edge leads to the record's department. */
  predicate UniversityShape(u: UniversityRecord, ts: set<Triple>) {
    forall t :: t in ts ==>
      && (t.p == RDF_TYPE ==>
            t == Triple(CreateUniversityUri(u.codigo), RDF_TYPE, Node(UNIV_UNIVERSITY)) || t.o == Node(GEO_DEPARTMENT))
      && (t.p == GEO_LOCATED_IN ==> u.departamento.Some? && t.o == Node(CreateDepartmentUri(u.departamento)))
  }

  lemma UniversityRowShape(u: UniversityRecord)
    ensures UniversityShape(u, UniversityRow(u).added)
    ensures UniversityRow(u).fault.None? && u.departamento.Some? ==>
      Triple(CreateDepartmentUri(u.departamento), RDF_TYPE, Node(GEO_DEPARTMENT)) in UniversityRow(u).added
  {
    var x := CreateUniversityUri(u.codigo);
    assert UniversityShape(u, UniversityBase(x, u));
    if IntTriples(x, UNIV_NATIONAL_RANKING, u.ranking).Some? {
      assert UniversityShape(u, IntTriples(x, UNIV_NATIONAL_RANKING, u.ranking).value);
    }
    if u.departamento.Some? {
      assert UniversityShape(u, LinkedNode(x, GEO_LOCATED_IN, CreateDepartmentUri(u.departamento), GEO_DEPARTMENT, u.departamento));
    }
  }

  /** A university row's `locatedIn` edge comes with its department's type
      triple, and it types exactly its own node as a University. */
  lemma UniversityRowDeclares(u: UniversityRecord)
    ensures EdgeTargetsDeclared(UniversityRow(u).added, GEO_LOCATED_IN, GEO_DEPARTMENT)
    ensures TypedAs(UniversityRow(u).added, UNIV_UNIVERSITY) == {CreateUniversityUri(u.codigo)}
  {
    var x := CreateUniversityUri(u.codigo);
    var ts := UniversityRow(u).added;
    UniversityRowShape(u);
    UniversityRowOutcome(u);
    assert Triple(x, RDF_TYPE, Node(UNIV_UNIVERSITY)) in Matching(ts, RDF_TYPE, Node(UNIV_UNIVERSITY));
  }

  /** The one type triple of a decision row is its decision node's. */
  lemma DecisionRowTypes(md5: string -> HexDigest, item: DecisionItem)
    ensures var r := item.row;
      var d := CreateDecisionUri(md5, r.idEstudiante, r.universidadCodigo);
      forall t :: t in DecisionRow(md5, item).added && t.p == RDF_TYPE ==>
        t == Triple(d, RDF_TYPE, Node(BEHAVIOR_ACADEMIC_DECISION))
  {
    DecisionRowVocabulary(md5, item);
  }
}
