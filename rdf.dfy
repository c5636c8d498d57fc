/** The RDF vocabulary the builder writes, RDF terms and triples, and the graph
    store. An RDF graph is a set of triples (section 3 of W3C "RDF 1.1 Concepts
    and Abstract Syntax"), so adding a triple is set insertion. */
module Rdf {
  import opened Wrappers
  import opened Cells

  /** An IRI is its full text: rdflib's `Namespace[local]` concatenates. */
  type Iri = string

  const RDF_NS := "http://www.w3.org/1999/02/22-rdf-syntax-ns#"
  const RDFS_NS := "http://www.w3.org/2000/01/rdf-schema#"
  const DC_NS := "http://purl.org/dc/elements/1.1/"
  const DCTERMS_NS := "http://purl.org/dc/terms/"
  const SCHEMA_NS := "http://schema.org/"
  const UNIV_NS := "http://example.org/university/"
  const EDU_NS := "http://example.org/education/"
  const GEO_NS := "http://example.org/geography/"
  const BEHAVIOR_NS := "http://example.org/behavior/"

  const RDF_TYPE: Iri := "http://www.w3.org/1999/02/22-rdf-syntax-ns#type"
  const RDFS_LABEL: Iri := "http://www.w3.org/2000/01/rdf-schema#label"
  const DC_IDENTIFIER: Iri := "http://purl.org/dc/elements/1.1/identifier"
  const DC_TITLE: Iri := "http://purl.org/dc/elements/1.1/title"
  const DC_SUBJECT: Iri := "http://purl.org/dc/elements/1.1/subject"
  const DC_DESCRIPTION: Iri := "http://purl.org/dc/elements/1.1/description"
  const DC_CREATOR: Iri := "http://purl.org/dc/elements/1.1/creator"
  const DC_LANGUAGE: Iri := "http://purl.org/dc/elements/1.1/language"
  const DCTERMS_CREATED: Iri := "http://purl.org/dc/terms/created"
  const DCTERMS_SPATIAL: Iri := "http://purl.org/dc/terms/spatial"
  const SCHEMA_DATASET: Iri := "http://schema.org/Dataset"
  const SCHEMA_NUMBER_OF_ITEMS: Iri := "http://schema.org/numberOfItems"

  const UNIV_STUDENT: Iri := "http://example.org/university/Student"
  const UNIV_UNIVERSITY: Iri := "http://example.org/university/University"
  const UNIV_AGE: Iri := "http://example.org/university/age"
  const UNIV_GENDER: Iri := "http://example.org/university/gender"
  const UNIV_STRATUM: Iri := "http://example.org/university/socioeconomicStratum"
  const UNIV_APPLIES_TO: Iri := "http://example.org/university/appliesTo"
  const UNIV_HAS_TYPE: Iri := "http://example.org/university/hasType"
  const UNIV_IS_ACCREDITED: Iri := "http://example.org/university/isAccredited"
  const UNIV_NATIONAL_RANKING: Iri := "http://example.org/university/nationalRanking"
  const UNIV_HAS_AGREEMENT: Iri := "http://example.org/university/hasInternationalAgreement"
  const UNIV_HAS_SCHOLARSHIP: Iri := "http://example.org/university/hasScholarship"
  const EDU_SABER11_SCORE: Iri := "http://example.org/education/saber11Score"
  const EDU_PREFERS_AREA: Iri := "http://example.org/education/prefersArea"
  const EDU_KNOWLEDGE_AREA: Iri := "http://example.org/education/KnowledgeArea"
  const EDU_PROGRAM_MODALITY: Iri := "http://example.org/education/programModality"
  const GEO_ORIGIN_FROM: Iri := "http://example.org/geography/originFrom"
  const GEO_CITY: Iri := "http://example.org/geography/City"
  const GEO_DEPARTMENT: Iri := "http://example.org/geography/Department"
  const GEO_LOCATED_IN: Iri := "http://example.org/geography/locatedIn"
  const BEHAVIOR_ACADEMIC_DECISION: Iri := "http://example.org/behavior/AcademicDecision"
  const BEHAVIOR_MAKES: Iri := "http://example.org/behavior/makes"
  const BEHAVIOR_FINAL_DECISION: Iri := "http://example.org/behavior/finalDecision"

  /** An rdflib `Literal`, identified by what the builder passes to its
      constructor. rdflib drops the language tag of any non-`str` value, so
      only string literals carry one. */
  datatype Literal =
    | LStr(text: string, lang: Option<string>)
    | LInt(n: int)
    | LBool(b: bool)
    | LFloat(v: Scalar)     // xsd:double from float(v); its lexical form is not modelled
    | LNaN                  // the literal of a missing cell (a float NaN)
    | LDateTime(iso: string)

  datatype Term = Node(iri: Iri) | Lit(lit: Literal)

  datatype Triple = Triple(s: Iri, p: Iri, o: Term)

  /** The triples `g.triples((None, p, o))` yields. */
  function Matching(ts: set<Triple>, p: Iri, o: Term): set<Triple> {
    set t | t in ts && t.p == p && t.o == o
  }

  /** The distinct subjects of `(_, p, o)` triples. */
  function SubjectsOf(ts: set<Triple>, p: Iri, o: Term): set<Iri> {
    set t | t in Matching(ts, p, o) :: t.s
  }

  /** The nodes typed `cls`. */
  function TypedAs(ts: set<Triple>, cls: Iri): set<Iri> {
    SubjectsOf(ts, RDF_TYPE, Node(cls))
  }

  predicate HasPredicate(ts: set<Triple>, p: Iri) {
    exists t :: t in ts && t.p == p
  }

  /** Every `p` edge ends at a node that carries a `cls` type triple. */
  predicate EdgeTargetsDeclared(ts: set<Triple>, p: Iri, cls: Iri) {
    forall t :: t in ts && t.p == p ==> t.o.Node? && Triple(t.o.iri, RDF_TYPE, Node(cls)) in ts
  }

  /** Triples that share predicate and object differ in their subject, so there
      are exactly as many matching triples as distinct subjects. */
  lemma {:induction false} MatchingCountIsSubjectCount(ts: set<Triple>, p: Iri, o: Term)
    ensures |Matching(ts, p, o)| == |SubjectsOf(ts, p, o)|
  {
    SameShapeCount(Matching(ts, p, o), p, o);
  }

  lemma {:induction false} SameShapeCount(m: set<Triple>, p: Iri, o: Term)
    requires forall t :: t in m ==> t.p == p && t.o == o
    ensures |set t | t in m :: t.s| == |m|
    decreases |m|
  {
    if m != {} {
      var t :| t in m;
      var m' := m - {t};
      SameShapeCount(m', p, o);
      assert (set u | u in m :: u.s) == (set u | u in m' :: u.s) + {t.s};
      assert t.s !in (set u | u in m' :: u.s);
    }
  }

  /** rdflib's in-memory `Graph`, reduced to its triple set. */
  class Graph {
    var triples: set<Triple>

    constructor (initial: set<Triple>)
      ensures triples == initial
    {
      triples := initial;
    }

    /** `g.add(t)`: set insertion, so adding a triple that is already there
        changes nothing. */
    method Add(t: Triple)
      modifies this
      ensures triples == old(triples) + {t}
    {
      triples := triples + {t};
    }

    /** `len(g)`. */
    function Size(): nat
      reads this
    {
      |triples|
    }

    /** `len(list(g.subjects(p, o)))`: one subject per matching triple, which
        is the number of distinct subjects. */
    method CountSubjects(p: Iri, o: Term) returns (n: nat)
      ensures n == |SubjectsOf(triples, p, o)|
    {
      var rest := Matching(triples, p, o);
      n := 0;
      while rest != {}
        invariant rest <= Matching(triples, p, o)
        invariant n + |rest| == |Matching(triples, p, o)|
        decreases |rest|
      {
        var t :| t in rest;
        rest := rest - {t};
        n := n + 1;
      }
      MatchingCountIsSubjectCount(triples, p, o);
    }
  }
}
