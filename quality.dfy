/** What `validate_data_quality` measures on a graph, as functions of its
    triple set. */
module Quality {
  import opened Rdf

  /** The report `validate_data_quality` prints. */
  datatype QualityReport = QualityReport(
    studentsWithApplications: nat,
    totalStudents: nat,
    decisionsWithResult: nat,
    totalDecisions: nat,
    orphanedDecisions: nat,
    passed: bool)

  /** Application triples: `g.triples((None, appliesTo, None))`. */
  function Applications(ts: set<Triple>): set<Triple> {
    set t | t in ts && t.p == UNIV_APPLIES_TO
  }

  /** The distinct subjects of `appliesTo` triples. */
  function Applicants(ts: set<Triple>): set<Iri> {
    set t | t in Applications(ts) :: t.s
  }

  function DecisionNodes(ts: set<Triple>): set<Iri> {
    TypedAs(ts, BEHAVIOR_ACADEMIC_DECISION)
  }

  /** `(d, finalDecision, None) in g`. */
  predicate HasResult(ts: set<Triple>, d: Iri) {
    exists t :: t in ts && t.s == d && t.p == BEHAVIOR_FINAL_DECISION
  }

  /** `any(g.triples((None, makes, d)))`. */
  predicate HasMaker(ts: set<Triple>, d: Iri) {
    exists t :: t in ts && t.p == BEHAVIOR_MAKES && t.o == Node(d)
  }

  function ResolvedDecisions(ts: set<Triple>): set<Iri> {
    set d | d in DecisionNodes(ts) && HasResult(ts, d)
  }

  function OrphanedDecisions(ts: set<Triple>): set<Iri> {
    set d | d in DecisionNodes(ts) && !HasMaker(ts, d)
  }

  /** The report `validate_data_quality` computes for a graph. */
  function ReportOf(ts: set<Triple>): QualityReport {
    var resolved, total, orphaned := |ResolvedDecisions(ts)|, |DecisionNodes(ts)|, |OrphanedDecisions(ts)|;
    QualityReport(|Applicants(ts)|, |TypedAs(ts, UNIV_STUDENT)|, resolved, total, orphaned,
                  orphaned == 0 && resolved == total)
  }

  /** The counts are bounded by the number of decision nodes. */
  lemma ReportBounds(ts: set<Triple>)
    ensures ReportOf(ts).decisionsWithResult <= ReportOf(ts).totalDecisions
    ensures ReportOf(ts).orphanedDecisions <= ReportOf(ts).totalDecisions
  {
    SubsetSize(ResolvedDecisions(ts), DecisionNodes(ts));
    SubsetSize(OrphanedDecisions(ts), DecisionNodes(ts));
  }

  /** The validation succeeds exactly when every decision node has an inbound
      `makes` edge and at least one `finalDecision` triple. */
  lemma ReportPassedMeans(ts: set<Triple>)
    ensures ReportOf(ts).passed <==>
      forall d :: d in DecisionNodes(ts) ==> HasMaker(ts, d) && HasResult(ts, d)
  {
    var nodes := DecisionNodes(ts);
    assert ResolvedDecisions(ts) <= nodes;
    if |ResolvedDecisions(ts)| == |nodes| {
      SubsetOfSameSize(ResolvedDecisions(ts), nodes);
    }
    if forall d :: d in nodes ==> HasMaker(ts, d) && HasResult(ts, d) {
      assert ResolvedDecisions(ts) == nodes;
      assert OrphanedDecisions(ts) == {};
    }
    if OrphanedDecisions(ts) == {} {
      forall d | d in nodes ensures HasMaker(ts, d) {
        assert d !in OrphanedDecisions(ts);
      }
    }
  }

  lemma SubsetOfSameSize<T>(a: set<T>, b: set<T>)
    requires a <= b && |a| == |b|
    ensures a == b
  {
    if a != b {
      var x :| x in b && x !in a;
      SubsetSize(a, b - {x});
    }
  }

  /** When every applicant is typed as a student, application coverage is at
      most the number of students. */
  lemma CoverageBounded(ts: set<Triple>)
    requires forall t :: t in ts && t.p == UNIV_APPLIES_TO ==> Triple(t.s, RDF_TYPE, Node(UNIV_STUDENT)) in ts
    ensures Applicants(ts) <= TypedAs(ts, UNIV_STUDENT)
    ensures ReportOf(ts).studentsWithApplications <= ReportOf(ts).totalStudents
  {
    forall s | s in Applicants(ts) ensures s in TypedAs(ts, UNIV_STUDENT) {
      var t :| t in Applications(ts) && t.s == s;
      assert Triple(s, RDF_TYPE, Node(UNIV_STUDENT)) in Matching(ts, RDF_TYPE, Node(UNIV_STUDENT));
    }
    SubsetSize(Applicants(ts), TypedAs(ts, UNIV_STUDENT));
  }

  lemma SubsetSize<T>(a: set<T>, b: set<T>)
    requires a <= b
    ensures |a| <= |b|
  {
    assert b == a + (b - a);
  }

  /** A decision with contradictory `finalDecision` triples still counts once
      as having a result. */
  lemma ContradictoryResultCountsOnce(ts: set<Triple>, d: Iri)
    requires d in DecisionNodes(ts)
    requires Triple(d, BEHAVIOR_FINAL_DECISION, Lit(LBool(true))) in ts
    requires Triple(d, BEHAVIOR_FINAL_DECISION, Lit(LBool(false))) in ts
    ensures d in ResolvedDecisions(ts)
    ensures ReportOf(ts).decisionsWithResult
         == |ResolvedDecisions(ts - {Triple(d, BEHAVIOR_FINAL_DECISION, Lit(LBool(false)))})|
  {
    var f := Triple(d, BEHAVIOR_FINAL_DECISION, Lit(LBool(false)));
    var ts' := ts - {f};
    assert DecisionNodes(ts') == DecisionNodes(ts) by {
      assert Matching(ts', RDF_TYPE, Node(BEHAVIOR_ACADEMIC_DECISION)) == Matching(ts, RDF_TYPE, Node(BEHAVIOR_ACADEMIC_DECISION));
    }
    forall e | e in DecisionNodes(ts) ensures HasResult(ts', e) == HasResult(ts, e) {
      if HasResult(ts, e) && e == d {
        assert Triple(d, BEHAVIOR_FINAL_DECISION, Lit(LBool(true))) in ts';
      }
    }
    assert ResolvedDecisions(ts') == ResolvedDecisions(ts);
  }
}
