/** Laws of a pass (a loop over rows that the first raise aborts) and of
    `drop_duplicates`. */
module Passes {
  import opened Wrappers
  import opened Rdf
  import opened Rows

  /** Once a prefix of the loop has raised, the rows after it never run. */
  lemma {:induction false} RunPrefixFault<T>(xs: seq<T>, k: nat, step: T -> RowOutcome)
    requires k <= |xs|
    requires Run(xs[..k], step).fault.Some?
    ensures Run(xs, step) == Run(xs[..k], step)
    decreases |xs| - k
  {
    if k < |xs| {
      var front := xs[..|xs| - 1];
      assert front[..k] == xs[..k];
      RunPrefixFault(front, k, step);
    } else {
      assert xs[..k] == xs;
    }
  }

  /** A loop that stopped, at the end of the rows or at a raise, has run the
      whole pass. */
  lemma RunStopped<T>(xs: seq<T>, k: nat, step: T -> RowOutcome)
    requires k <= |xs|
    requires k == |xs| || Run(xs[..k], step).fault.Some?
    ensures Run(xs, step) == Run(xs[..k], step)
  {
    if k == |xs| {
      assert xs[..k] == xs;
    } else {
      RunPrefixFault(xs, k, step);
    }
  }

  /** Running one more row after a prefix that did not raise. */
  lemma RunSnoc<T>(xs: seq<T>, i: nat, step: T -> RowOutcome)
    requires i < |xs|
    requires Run(xs[..i], step).fault.None?
    ensures Run(xs[..i + 1], step).added == Run(xs[..i], step).added + step(xs[i]).added
    ensures Run(xs[..i + 1], step).fault == step(xs[i]).fault
    ensures Run(xs[..i + 1], step).done == Run(xs[..i], step).done + (if step(xs[i]).fault.None? then 1 else 0)
  {
    assert xs[..i + 1][..i] == xs[..i];
  }

  /** A pass raises exactly when one of its rows does. */
  lemma {:induction false} RunCompletes<T>(xs: seq<T>, step: T -> RowOutcome)
    ensures Run(xs, step).fault.None? <==> forall i :: 0 <= i < |xs| ==> step(xs[i]).fault.None?
  {
    if xs != [] {
      var front := xs[..|xs| - 1];
      RunCompletes(front, step);
      assert forall i :: 0 <= i < |front| ==> front[i] == xs[i];
    }
  }

  /** A pass that raised stopped at row `done`: every earlier row completed,
      row `done` raised the pass's exception, and the graph holds the earlier
      rows' triples plus those row `done` added before raising. */
  lemma {:induction false} RunStopsAtFault<T>(xs: seq<T>, step: T -> RowOutcome)
    requires Run(xs, step).fault.Some?
    ensures Run(xs, step).done < |xs|
    ensures step(xs[Run(xs, step).done]).fault == Run(xs, step).fault
    ensures forall i :: 0 <= i < Run(xs, step).done ==> step(xs[i]).fault.None?
    ensures Run(xs, step).added == Run(xs[..Run(xs, step).done], step).added + step(xs[Run(xs, step).done]).added
  {
    var front := xs[..|xs| - 1];
    assert forall i :: 0 <= i < |front| ==> front[i] == xs[i];
    if Run(front, step).fault.Some? {
      RunStopsAtFault(front, step);
      var k := Run(front, step).done;
      assert front[..k] == xs[..k];
    } else {
      RunCompletes(front, step);
      assert front == xs[..|front|];
    }
  }

  /** Every triple a pass adds comes from one row, and all of that row's
      triples were added with it (a row contributes as a whole or, when it
      raised, with what it added before raising). */
  lemma {:induction false} RunAddsWholeRows<T>(xs: seq<T>, step: T -> RowOutcome, t: Triple)
    requires t in Run(xs, step).added
    ensures exists i :: 0 <= i < |xs| && t in step(xs[i]).added && step(xs[i]).added <= Run(xs, step).added
  {
    var front := xs[..|xs| - 1];
    var before := Run(front, step);
    if before.fault.Some? || t in before.added {
      RunAddsWholeRows(front, step, t);
      var i :| 0 <= i < |front| && t in step(front[i]).added && step(front[i]).added <= before.added;
      assert front[i] == xs[i];
    } else {
      assert t in step(xs[|xs| - 1]).added;
    }
  }

  /** A pass that completed ran every row to its end and added every row's
      triples (and, by `RunAddsWholeRows`, nothing else). */
  lemma {:induction false} RunAddsEveryRow<T>(xs: seq<T>, step: T -> RowOutcome, i: nat)
    requires i < |xs|
    requires Run(xs, step).fault.None?
    ensures step(xs[i]).added <= Run(xs, step).added
    ensures step(xs[i]).fault.None?
  {
    var front := xs[..|xs| - 1];
    if i < |front| {
      assert front[i] == xs[i];
      RunAddsEveryRow(front, step, i);
    }
  }

  /** When every row declares the target of each `p` edge it adds as a `cls`,
      so does the whole pass, whether or not it raised. */
  lemma RunKeepsEdgeTargets<T>(xs: seq<T>, step: T -> RowOutcome, p: Iri, cls: Iri)
    requires forall i :: 0 <= i < |xs| ==> EdgeTargetsDeclared(step(xs[i]).added, p, cls)
    ensures EdgeTargetsDeclared(Run(xs, step).added, p, cls)
  {
    forall t | t in Run(xs, step).added && t.p == p
      ensures t.o.Node? && Triple(t.o.iri, RDF_TYPE, Node(cls)) in Run(xs, step).added
    {
      RunAddsWholeRows(xs, step, t);
    }
  }

  /** When each row types exactly one node `name(x)` as a `cls`, a completed
      pass types exactly the nodes of its rows. */
  lemma {:induction false} RunTypesEachRow<T>(xs: seq<T>, step: T -> RowOutcome, cls: Iri, name: T -> Iri)
    requires Run(xs, step).fault.None?
    requires forall i :: 0 <= i < |xs| ==> TypedAs(step(xs[i]).added, cls) == {name(xs[i])}
    ensures TypedAs(Run(xs, step).added, cls) == set x | x in xs :: name(x)
  {
    if xs != [] {
      var front, last := xs[..|xs| - 1], xs[|xs| - 1];
      assert forall i :: 0 <= i < |front| ==> front[i] == xs[i];
      RunTypesEachRow(front, step, cls, name);
      TypedAsUnion(Run(front, step).added, step(last).added, cls);
      assert xs == front + [last];
      assert (set x | x in xs :: name(x)) == (set x | x in front :: name(x)) + {name(last)};
    }
  }

  lemma TypedAsUnion(a: set<Triple>, b: set<Triple>, cls: Iri)
    ensures TypedAs(a + b, cls) == TypedAs(a, cls) + TypedAs(b, cls)
  {
    assert Matching(a + b, RDF_TYPE, Node(cls)) == Matching(a, RDF_TYPE, Node(cls)) + Matching(b, RDF_TYPE, Node(cls));
  }

  /** Running two tables one after the other, when the first completed, is
      running their concatenation. */
  lemma {:induction false} RunAppend<T>(xs: seq<T>, ys: seq<T>, step: T -> RowOutcome)
    requires Run(xs, step).fault.None?
    ensures Run(xs + ys, step).added == Run(xs, step).added + Run(ys, step).added
    ensures Run(xs + ys, step).done == |xs| + Run(ys, step).done
    ensures Run(xs + ys, step).fault == Run(ys, step).fault
  {
    if ys == [] {
      assert xs + ys == xs;
    } else {
      var front := ys[..|ys| - 1];
      RunAppend(xs, front, step);
      assert (xs + ys)[..|xs + ys| - 1] == xs + front;
      assert (xs + ys)[|xs + ys| - 1] == ys[|ys| - 1];
    }
  }

  /** Feeding a completed table twice adds nothing new, yet every row of the
      second copy still counts as done. */
  lemma RunTwice<T>(xs: seq<T>, step: T -> RowOutcome)
    requires Run(xs, step).fault.None?
    ensures Run(xs + xs, step).added == Run(xs, step).added
    ensures Run(xs + xs, step).done == 2 * |xs|
    ensures Run(xs + xs, step).fault.None?
  {
    RunAppend(xs, xs, step);
  }

  /** `drop_duplicates` keeps a table without repeats as it is. */
  lemma {:induction false} DropDuplicatesOfDistinct<T(!new)>(xs: seq<T>)
    requires forall i, j :: 0 <= i < j < |xs| ==> xs[i] != xs[j]
    ensures DropDuplicates(xs) == xs
  {
    if xs != [] {
      var front := xs[..|xs| - 1];
      DropDuplicatesOfDistinct(front);
      assert xs[|xs| - 1] !in front;
      assert front + [xs[|xs| - 1]] == xs;
    }
  }

  /** `drop_duplicates` is idempotent. */
  lemma DropDuplicatesIdempotent<T(!new)>(xs: seq<T>)
    ensures DropDuplicates(DropDuplicates(xs)) == DropDuplicates(xs)
  {
    DropDuplicatesOfDistinct(DropDuplicates(xs));
  }

  /** It keeps one row per distinct value. */
  lemma {:induction false} DropDuplicatesCount<T(!new)>(xs: seq<T>)
    ensures |DropDuplicates(xs)| == |set x | x in xs|
  {
    DistinctCount(DropDuplicates(xs));
    assert (set x | x in DropDuplicates(xs)) == (set x | x in xs);
  }

  lemma {:induction false} DistinctCount<T(!new)>(xs: seq<T>)
    requires forall i, j :: 0 <= i < j < |xs| ==> xs[i] != xs[j]
    ensures |set x | x in xs| == |xs|
  {
    if xs != [] {
      var front := xs[..|xs| - 1];
      DistinctCount(front);
      assert (set x | x in xs) == (set x | x in front) + {xs[|xs| - 1]};
      assert xs[|xs| - 1] !in front;
    }
  }
}
