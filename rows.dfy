/** The input table and what one iteration of each transform loop adds to the
    graph. A row step is a function from the row to the triples that its loop
    body adds, stopping at the `int()` that raises, if any; a pass is the left
    fold of its step over the rows, which the first raise aborts. */
module Rows {
  import opened Wrappers
  import opened Cells
  import opened Rdf
  import opened Minting
  import opened Coercion

  /** One CSV record, by column. */
  datatype Row = Row(
    idEstudiante: Cell,
    edad: Cell,
    genero: Cell,
    estrato: Cell,
    puntajeSaber11: Cell,
    ciudadOrigen: Cell,
    preferenciaArea: Cell,
    universidadCodigo: Cell,
    universidadNombre: Cell,
    universidadDepartamento: Cell,
    universidadTipo: Cell,
    universidadAcreditada: Cell,
    rankingNacional: Cell,
    eligioUniversidad: Cell,
    modalidadPrograma: Cell,
    convenioInternacional: Cell,
    becaDisponible: Cell)

  /** The six university columns `transform_universities` deduplicates on. */
  datatype UniversityRecord = UniversityRecord(
    codigo: Cell,
    nombre: Cell,
    departamento: Cell,
    tipo: Cell,
    acreditada: Cell,
    ranking: Cell)

  /** A row of the decisions pass with the `datetime.now().isoformat()` value
      its `created` triple gets. */
  datatype DecisionItem = DecisionItem(row: Row, stamp: string)

  /** The exception that aborts a pass: `int()` of a cell it cannot convert
      (a non-integer text, or an infinite float). */
  datatype Fault = NotAnInteger(column: string)

  /** What one loop iteration adds, and the exception it raises, if any. */
  datatype RowOutcome = RowOutcome(added: set<Triple>, fault: Option<Fault>)

  /** What a pass adds, how many iterations ran to completion (the counter
      increments), and the exception that stopped it, if any. */
  datatype PassOutcome = PassOutcome(added: set<Triple>, done: nat, fault: Option<Fault>)

  const LANG_ES: Option<string> := Some("es")

  /** The `if not pd.isna(c): g.add((s, p, Literal(c, lang)))` idiom. */
  function ValueTriples(s: Iri, p: Iri, c: Cell, lang: Option<string>): (ts: set<Triple>)
  {
    if c.None? then {} else {Triple(s, p, Lit(ValueLiteral(c.value, lang)))}
  }

  /** The `if not pd.isna(c): g.add((s, p, Literal(int(c))))` idiom: `None`
      when `int()` raises. */
  function IntTriples(s: Iri, p: Iri, c: Cell): (r: Option<set<Triple>>)
    ensures c.None? ==> r == Some({})
    ensures r.None? <==> c.Some? && IntOf(c.value).None?
  {
    if c.None? then Some({})
    else match IntOf(c.value)
      case None => None
      case Some(n) => Some({Triple(s, p, Lit(LInt(n)))})
  }

  /** The `if not pd.isna(c): g.add((s, p, Literal(convert_boolean(c))))` idiom. */
  function FlagTriples(s: Iri, p: Iri, c: Cell): (ts: set<Triple>)
    ensures c.None? ==> ts == {}
  {
    if c.None? then {} else {Triple(s, p, Lit(LBool(ConvertBoolean(c))))}
  }

  /** An edge from `s` to the node `x` minted from the present cell `c`,
      together with `x`'s type, Spanish label and identifier. */
  function LinkedNode(s: Iri, p: Iri, x: Iri, cls: Iri, c: Cell): set<Triple> {
    {Triple(s, p, Node(x)),
     Triple(x, RDF_TYPE, Node(cls)),
     Triple(x, RDFS_LABEL, Lit(CellLiteral(c, LANG_ES))),
     Triple(x, DC_IDENTIFIER, Lit(CellLiteral(c, None)))}
  }

  function StudentLabel(id: Cell): string {
    "Estudiante " + FieldText(id)
  }

  /** The type, identifier and label every student row starts with. */
  function StudentBase(s: Iri, id: Cell): set<Triple> {
    {Triple(s, RDF_TYPE, Node(UNIV_STUDENT)),
     Triple(s, DC_IDENTIFIER, Lit(CellLiteral(id, None))),
     Triple(s, RDFS_LABEL, Lit(LStr(StudentLabel(id), LANG_ES)))}
  }

  /** The score, and the city, area and university links, of a student row
      whose integer columns converted. */
  function StudentLinks(s: Iri, r: Row): set<Triple> {
    var score := if r.puntajeSaber11.None? then {} else {Triple(s, EDU_SABER11_SCORE, Lit(LFloat(r.puntajeSaber11.value)))};
    var city := if r.ciudadOrigen.None? then {}
                else LinkedNode(s, GEO_ORIGIN_FROM, CreateCityUri(r.ciudadOrigen), GEO_CITY, r.ciudadOrigen);
    var area := if r.preferenciaArea.None? then {}
                else LinkedNode(s, EDU_PREFERS_AREA, CreateAreaUri(r.preferenciaArea), EDU_KNOWLEDGE_AREA, r.preferenciaArea);
    var applies := if r.universidadCodigo.None? then {}
                   else {Triple(s, UNIV_APPLIES_TO, Node(CreateUniversityUri(r.universidadCodigo)))};
    score + city + area + applies
  }

  /** One iteration of `transform_students`. */
  function StudentRow(r: Row): RowOutcome {
    var s := CreateStudentUri(r.idEstudiante);
    var base := StudentBase(s, r.idEstudiante);
    var age := IntTriples(s, UNIV_AGE, r.edad);
    if age.None? then RowOutcome(base, Some(NotAnInteger("edad")))
    else
      var demographics := base + age.value + ValueTriples(s, UNIV_GENDER, r.genero, LANG_ES);
      var stratum := IntTriples(s, UNIV_STRATUM, r.estrato);
      if stratum.None? then RowOutcome(demographics, Some(NotAnInteger("estrato")))
      else RowOutcome(demographics + stratum.value + StudentLinks(s, r), None)
  }

  /** The six university columns of a row. */
  function RecordOf(r: Row): UniversityRecord {
    UniversityRecord(r.universidadCodigo, r.universidadNombre, r.universidadDepartamento,
                     r.universidadTipo, r.universidadAcreditada, r.rankingNacional)
  }

  /** The names, type and accreditation every university record gets before
      its ranking is converted. */
  function UniversityBase(x: Iri, u: UniversityRecord): set<Triple> {
    {Triple(x, RDF_TYPE, Node(UNIV_UNIVERSITY)),
     Triple(x, DC_IDENTIFIER, Lit(CellLiteral(u.codigo, None))),
     Triple(x, RDFS_LABEL, Lit(CellLiteral(u.nombre, LANG_ES))),
     Triple(x, DC_TITLE, Lit(CellLiteral(u.nombre, LANG_ES)))}
    + ValueTriples(x, UNIV_HAS_TYPE, u.tipo, LANG_ES)
    + FlagTriples(x, UNIV_IS_ACCREDITED, u.acreditada)
  }

  /** One iteration of `transform_universities`. */
  function UniversityRow(u: UniversityRecord): RowOutcome {
    var x := CreateUniversityUri(u.codigo);
    var base := UniversityBase(x, u);
    var ranking := IntTriples(x, UNIV_NATIONAL_RANKING, u.ranking);
    if ranking.None? then RowOutcome(base, Some(NotAnInteger("ranking_nacional")))
    else
      var dept := if u.departamento.None? then {}
                  else LinkedNode(x, GEO_LOCATED_IN, CreateDepartmentUri(u.departamento), GEO_DEPARTMENT, u.departamento);
      RowOutcome(base + ranking.value + dept, None)
  }

  function DecisionLabel(id: Cell, code: Cell): string {
    "Decisión de " + FieldText(id) + " sobre " + FieldText(code)
  }

  /** The triples about the decision node `d` of row `r`, made by student `s`. */
  function DecisionNode(d: Iri, s: Iri, r: Row): set<Triple> {
    {Triple(d, RDF_TYPE, Node(BEHAVIOR_ACADEMIC_DECISION)),
     Triple(s, BEHAVIOR_MAKES, Node(d)),
     Triple(d, RDFS_LABEL, Lit(LStr(DecisionLabel(r.idEstudiante, r.universidadCodigo), LANG_ES)))}
    + FlagTriples(d, BEHAVIOR_FINAL_DECISION, r.eligioUniversidad)
    + ValueTriples(d, EDU_PROGRAM_MODALITY, r.modalidadPrograma, LANG_ES)
  }

  /** The agreement and scholarship flags row `r` puts on university `u`. */
  function UniversityFlags(u: Iri, r: Row): set<Triple> {
    FlagTriples(u, UNIV_HAS_AGREEMENT, r.convenioInternacional)
    + FlagTriples(u, UNIV_HAS_SCHOLARSHIP, r.becaDisponible)
  }

  /** One iteration of `transform_academic_decisions`; it never raises. */
  function DecisionRow(md5: string -> HexDigest, item: DecisionItem): RowOutcome {
    var r := item.row;
    var s := CreateStudentUri(r.idEstudiante);
    var u := CreateUniversityUri(r.universidadCodigo);
    var d := CreateDecisionUri(md5, r.idEstudiante, r.universidadCodigo);
    var added :=
      DecisionNode(d, s, r)
      + UniversityFlags(u, r)
      + {Triple(d, DC_SUBJECT, Node(u)),
         Triple(d, DCTERMS_CREATED, Lit(LDateTime(item.stamp)))};
    RowOutcome(added, None)
  }

  function DecisionStep(md5: string -> HexDigest): DecisionItem -> RowOutcome {
    item => DecisionRow(md5, item)
  }

  /** Row `i` of the decisions pass is stamped with `stamps[i]`. */
  function DecisionItems(rows: seq<Row>, stamps: seq<string>): (items: seq<DecisionItem>)
    requires |stamps| == |rows|
  {
    seq(|rows|, i requires 0 <= i < |rows| => DecisionItem(rows[i], stamps[i]))
  }

  /** A loop over `items` whose body is `step`, which the first raise aborts. */
  function Run<T>(items: seq<T>, step: T -> RowOutcome): (p: PassOutcome)
    ensures p.done <= |items|
    ensures p.fault.None? ==> p.done == |items|
  {
    if items == [] then PassOutcome({}, 0, None)
    else
      var before := Run(items[..|items| - 1], step);
      if before.fault.Some? then before
      else
        var last := step(items[|items| - 1]);
        PassOutcome(before.added + last.added,
                    if last.fault.None? then before.done + 1 else before.done,
                    last.fault)
  }

  /** `DataFrame.drop_duplicates()`: the first occurrence of each value, in
      order (two missing cells compare equal). */
  function DropDuplicates<T(==,!new)>(xs: seq<T>): (r: seq<T>)
    ensures forall x :: x in r <==> x in xs
    ensures forall i, j :: 0 <= i < j < |r| ==> r[i] != r[j]
    ensures forall i, j :: 0 <= i < j < |r| ==> FirstIndex(xs, r[i]) < FirstIndex(xs, r[j])
  {
    if xs == [] then []
    else
      var front := DropDuplicates(xs[..|xs| - 1]);
      var x := xs[|xs| - 1];
      assert forall y :: y in xs <==> y in xs[..|xs| - 1] || y == x;
      forall y | y in front ensures FirstIndex(xs, y) == FirstIndex(xs[..|xs| - 1], y) < |xs| - 1 {
        FirstIndexOfPrefix(xs, |xs| - 1, y);
      }
      if x in front then front
      else
        assert FirstIndex(xs, x) == |xs| - 1 by {
          assert xs[..|xs| - 1] + [x] == xs;
          FirstIndexUnique(xs, x, |xs| - 1);
        }
        front + [x]
  }

  /** The index of the first occurrence of `x` in `xs`. */
  function FirstIndex<T(==)>(xs: seq<T>, x: T): (k: nat)
    requires x in xs
    ensures k < |xs| && xs[k] == x && x !in xs[..k]
  {
    if xs[0] == x then 0
    else
      var k := 1 + FirstIndex(xs[1..], x);
      assert xs[..k] == [xs[0]] + xs[1..][..k - 1];
      k
  }

  /** An occurrence of `x` with none before it is the first one. */
  lemma FirstIndexUnique<T>(xs: seq<T>, x: T, k: nat)
    requires k < |xs| && xs[k] == x && x !in xs[..k]
    ensures FirstIndex(xs, x) == k
  {
  }

  /** A value present in a prefix has its first occurrence there. */
  lemma FirstIndexOfPrefix<T>(xs: seq<T>, n: nat, x: T)
    requires n <= |xs| && x in xs[..n]
    ensures FirstIndex(xs, x) == FirstIndex(xs[..n], x) < n
  {
    var k := FirstIndex(xs[..n], x);
    assert xs[..n][..k] == xs[..k];
    FirstIndexUnique(xs, x, k);
  }

  /** The rows `transform_universities` iterates over. */
  function UniversityRecords(rows: seq<Row>): seq<UniversityRecord> {
    DropDuplicates(seq(|rows|, i requires 0 <= i < |rows| => RecordOf(rows[i])))
  }

  const DATASET_URI: Iri := UNIV_NS + "dataset_university_choices"

  const DATASET_TITLE := "Dataset de Decisiones Universitarias Colombia"
  const DATASET_DESCRIPTION := "Datos sobre patrones de comportamiento estudiantil en la selección de universidades en Colombia"
  const DATASET_CREATOR := "Proyecto Linked Data - Web Semántica"

  /** The descriptive triples `add_metadata` adds, stamped `stamp`. */
  function DatasetDescription(stamp: string): set<Triple> {
    {Triple(DATASET_URI, RDF_TYPE, Node(SCHEMA_DATASET)),
     Triple(DATASET_URI, DC_TITLE, Lit(LStr(DATASET_TITLE, LANG_ES))),
     Triple(DATASET_URI, DC_DESCRIPTION, Lit(LStr(DATASET_DESCRIPTION, LANG_ES))),
     Triple(DATASET_URI, DCTERMS_CREATED, Lit(LDateTime(stamp))),
     Triple(DATASET_URI, DC_CREATOR, Lit(LStr(DATASET_CREATOR, LANG_ES))),
     Triple(DATASET_URI, DC_LANGUAGE, Lit(LStr("es", None))),
     Triple(DATASET_URI, DCTERMS_SPATIAL, Lit(LStr("Colombia", LANG_ES)))}
  }

  /** What `add_metadata` adds for a table of `n` rows: the description and
      the item count. */
  function MetadataTriples(n: nat, stamp: string): set<Triple> {
    DatasetDescription(stamp) + {Triple(DATASET_URI, SCHEMA_NUMBER_OF_ITEMS, Lit(LInt(n)))}
  }

  /** The graph `main` ends with when no pass raises: the ontology it starts
      from, then the students, universities, decisions and metadata passes. */
  function BuiltGraph(ontology: set<Triple>, rows: seq<Row>, md5: string -> HexDigest,
                      stamps: seq<string>, metaStamp: string): set<Triple>
    requires |stamps| == |rows|
  {
    ontology
      + Run(rows, StudentRow).added
      + Run(UniversityRecords(rows), UniversityRow).added
      + Run(DecisionItems(rows, stamps), DecisionStep(md5)).added
      + MetadataTriples(|rows|, metaStamp)
  }
}
