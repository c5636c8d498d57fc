/** What minting guarantees and where it collides: slugs are fixed points of
    slugging, case and spacing variants share a slug, a missing value shares
    the slug of the text `Unknown`, kinds never share an IRI, and decision
    keys that join to the same text share a decision IRI. */
module MintingLaws {
  import opened Wrappers
  import opened PyText
  import opened Cells
  import opened Rdf
  import opened Minting

  lemma {:induction false} DropDisallowedKeepsKept(s: string)
    requires AllKept(s)
    ensures DropDisallowed(s) == s
  {
    if s != [] {
      DropDisallowedKeepsKept(s[1..]);
      assert [s[0]] + s[1..] == s;
    }
  }

  lemma {:induction false} UnderscoreSpacesWithoutSpaces(s: string)
    requires forall i :: 0 <= i < |s| ==> !IsSpace(s[i])
    ensures UnderscoreSpaces(s) == s
  {
    if s != [] {
      UnderscoreSpacesWithoutSpaces(s[1..]);
      assert [s[0]] + s[1..] == s;
    }
  }

  /** Slugging a slug gives it back. */
  lemma SlugifyFixesSlugs(s: string)
    requires IsSlug(s)
    ensures Slugify(s) == s
  {
    assert forall i :: 0 <= i < |s| ==> !IsSpace(s[i]);
    StripUnpadded(s);
    DropDisallowedKeepsKept(s);
    UnderscoreSpacesWithoutSpaces(s);
  }

  /** `clean_uri_component` is idempotent, the placeholder included. */
  lemma CleanUriComponentIdempotent(c: Cell)
    ensures CleanUriComponent(Some(Str(CleanUriComponent(c)))) == CleanUriComponent(c)
  {
    SlugifyFixesSlugs(CleanUriComponent(c));
  }

  lemma LowerTextSplit(s: string)
    requires s != []
    ensures LowerText(s) == [Lower(s[0])] + LowerText(s[1..])
    ensures LowerText(s) == LowerText(s[..|s| - 1]) + [Lower(s[|s| - 1])]
  {
  }

  lemma {:induction false} StripLeftLower(s: string)
    ensures StripLeft(LowerText(s)) == LowerText(StripLeft(s))
    decreases |s|
  {
    if s != [] {
      LowerFacts(s[0]);
      LowerTextSplit(s);
      if IsSpace(s[0]) {
        StripLeftLower(s[1..]);
        assert LowerText(s)[1..] == LowerText(s[1..]);
      }
    }
  }

  lemma {:induction false} StripRightLower(s: string)
    ensures StripRight(LowerText(s)) == LowerText(StripRight(s))
    decreases |s|
  {
    if s != [] {
      LowerFacts(s[|s| - 1]);
      LowerTextSplit(s);
      if IsSpace(s[|s| - 1]) {
        StripRightLower(s[..|s| - 1]);
        assert LowerText(s)[..|s| - 1] == LowerText(s[..|s| - 1]);
      }
    }
  }

  lemma {:induction false} DropDisallowedLower(s: string)
    ensures DropDisallowed(LowerText(s)) == LowerText(DropDisallowed(s))
    decreases |s|
  {
    if s != [] {
      LowerFacts(s[0]);
      LowerTextSplit(s);
      DropDisallowedLower(s[1..]);
      assert LowerText(s)[1..] == LowerText(s[1..]);
      if IsKept(s[0]) {
        LowerTextSplit(DropDisallowed(s));
      }
    }
  }

  lemma {:induction false} SkipSpacesLower(s: string)
    ensures SkipSpaces(LowerText(s)) == LowerText(SkipSpaces(s))
    decreases |s|
  {
    if s != [] {
      LowerFacts(s[0]);
      LowerTextSplit(s);
      if IsSpace(s[0]) {
        SkipSpacesLower(s[1..]);
        assert LowerText(s)[1..] == LowerText(s[1..]);
      }
    }
  }

  lemma {:induction false} UnderscoreSpacesLower(s: string)
    ensures UnderscoreSpaces(LowerText(s)) == LowerText(UnderscoreSpaces(s))
    decreases |s|
  {
    if s != [] {
      LowerFacts(s[0]);
      LowerTextSplit(s);
      assert LowerText(s)[1..] == LowerText(s[1..]);
      if IsSpace(s[0]) {
        SkipSpacesLower(s[1..]);
        UnderscoreSpacesLower(SkipSpaces(s[1..]));
        LowerTextSplit(UnderscoreSpaces(s));
      } else {
        UnderscoreSpacesLower(s[1..]);
        LowerTextSplit(UnderscoreSpaces(s));
      }
    }
  }

  /** Lowercasing the input first does not change the slug. */
  lemma SlugifyIgnoresCase(s: string)
    ensures Slugify(LowerText(s)) == Slugify(s)
  {
    StripLeftLower(s);
    StripRightLower(StripLeft(s));
    DropDisallowedLower(Strip(s));
    UnderscoreSpacesLower(DropDisallowed(Strip(s)));
    LowerTextIdempotent(UnderscoreSpaces(DropDisallowed(Strip(s))));
  }

  /** Text that differs only in letter case gets one slug: `U001` and `u001`
      name the same university. */
  lemma CleanUriComponentIgnoresCase(s: string, t: string)
    requires LowerText(s) == LowerText(t)
    ensures CleanUriComponent(Some(Str(s))) == CleanUriComponent(Some(Str(t)))
  {
    SlugifyIgnoresCase(s);
    SlugifyIgnoresCase(t);
  }

  lemma {:induction false} DropDisallowedConcat(u: string, v: string)
    ensures DropDisallowed(u + v) == DropDisallowed(u) + DropDisallowed(v)
    decreases |u|
  {
    if u == [] {
      assert u + v == v;
    } else {
      DropDisallowedConcat(u[1..], v);
      assert (u + v)[0] == u[0];
      assert (u + v)[1..] == u[1..] + v;
    }
  }

  lemma {:induction false} SkipSpacesConcat(u: string, v: string)
    ensures SkipSpaces(u + v) == if SkipSpaces(u) == [] then SkipSpaces(v) else SkipSpaces(u) + v
    decreases |u|
  {
    if u == [] {
      assert u + v == v;
    } else if IsSpace(u[0]) {
      var w := u + v;
      assert w[0] == u[0];
      assert w[1..] == u[1..] + v;
      assert SkipSpaces(w) == SkipSpaces(u[1..] + v);
      assert SkipSpaces(u) == SkipSpaces(u[1..]);
      SkipSpacesConcat(u[1..], v);
    } else {
      var w := u + v;
      assert w[0] == u[0];
      assert SkipSpaces(w) == w;
      assert SkipSpaces(u) == u;
    }
  }

  /** Two tails that open with whitespace and agree after their leading run
      underscore alike behind any common prefix. */
  lemma {:induction false} UnderscoreSpacesSameTail(a: string, t1: string, t2: string)
    requires t1 != [] && t2 != [] && IsSpace(t1[0]) && IsSpace(t2[0])
    requires SkipSpaces(t1) == SkipSpaces(t2)
    ensures UnderscoreSpaces(a + t1) == UnderscoreSpaces(a + t2)
    decreases |a|
  {
    if a == [] {
      assert a + t1 == t1 && a + t2 == t2;
    } else {
      var w1, w2 := a + t1, a + t2;
      assert w1[0] == a[0] && w2[0] == a[0];
      assert w1[1..] == a[1..] + t1 && w2[1..] == a[1..] + t2;
      if IsSpace(a[0]) {
        SkipSpacesConcat(a[1..], t1);
        SkipSpacesConcat(a[1..], t2);
        var c := SkipSpaces(a[1..]);
        if c != [] {
          UnderscoreSpacesSameTail(c, t1, t2);
        }
      } else {
        UnderscoreSpacesSameTail(a[1..], t1, t2);
      }
    }
  }

  /** A run of two whitespace characters underscores like a run of one. */
  lemma UnderscoreSpacesRun(a: string, x: char, y: char, b: string)
    requires IsSpace(x) && IsSpace(y)
    ensures UnderscoreSpaces(a + [x, y] + b) == UnderscoreSpaces(a + [x] + b)
  {
    var t2, t1 := [x, y] + b, [x] + b;
    assert t2[1..] == [y] + b;
    assert t1[1..] == b;
    SkipSpacesConcat([y], b);
    UnderscoreSpacesSameTail(a, t2, t1);
    assert a + [x, y] + b == a + t2;
    assert a + [x] + b == a + t1;
  }

  /** Doubling an inner space does not change the slug: `Valle  del Cauca` and
      `Valle del Cauca` name the same department. */
  lemma SlugifyIgnoresInnerSpacing(a: string, x: char, y: char, b: string)
    requires a != [] && b != [] && !IsSpace(a[0]) && !IsSpace(b[|b| - 1])
    requires IsSpace(x) && IsSpace(y)
    ensures Slugify(a + [x, y] + b) == Slugify(a + [x] + b)
  {
    var w2 := a + [x, y] + b;
    var w1 := a + [x] + b;
    assert w2[0] == a[0] && w1[0] == a[0];
    assert w2[|w2| - 1] == b[|b| - 1] && w1[|w1| - 1] == b[|b| - 1];
    StripUnpadded(w2);
    StripUnpadded(w1);
    var da, db := DropDisallowed(a), DropDisallowed(b);
    assert DropDisallowed(w2) == da + [x, y] + db by {
      DropDisallowedConcat(a + [x, y], b);
      DropDisallowedConcat(a, [x, y]);
      assert [x, y][1..] == [y];
      assert [y][1..] == [];
      assert DropDisallowed([y]) == [y];
      assert DropDisallowed([x, y]) == [x, y];
    }
    assert DropDisallowed(w1) == da + [x] + db by {
      DropDisallowedConcat(a + [x], b);
      DropDisallowedConcat(a, [x]);
    }
    UnderscoreSpacesRun(da, x, y, db);
  }

  /** Case variants collide: `U001` and `u001` name one university. */
  lemma CaseVariantsCollide()
    ensures CleanUriComponent(Some(Str("U001"))) == CleanUriComponent(Some(Str("u001")))
  {
    CleanUriComponentIgnoresCase("U001", "u001");
  }

  /** Spacing and case variants collide: `Valle  del Cauca` and
      `valle del cauca` name one department (for present text,
      `clean_uri_component` is `Slugify`). */
  lemma SpacingVariantsCollide()
    ensures Slugify("Valle  del Cauca") == Slugify("valle del cauca")
  {
    DoubleSpaceCollides();
    CapitalCollides();
  }

  lemma DoubleSpaceCollides()
    ensures Slugify("Valle  del Cauca") == Slugify("Valle del Cauca")
  {
    var a :| a == "Valle";
    var b :| b == "del Cauca";
    assert a[0] == 'V' && b[|b| - 1] == 'a';
    SlugifyIgnoresInnerSpacing(a, ' ', ' ', b);
    assert a + [' ', ' '] + b == "Valle  del Cauca";
    assert a + [' '] + b == "Valle del Cauca";
  }

  lemma CapitalCollides()
    ensures Slugify("Valle del Cauca") == Slugify("valle del cauca")
  {
    var s :| s == "Valle del Cauca";
    var t :| t == "valle del cauca";
    assert LowerText(s) == LowerText(t) by {
      forall i | 0 <= i < |s| ensures LowerText(s)[i] == LowerText(t)[i] {
      }
    }
    SlugifyIgnoresCase(s);
    SlugifyIgnoresCase(t);
  }

  /** The literal text `Unknown` collides with a missing value. */
  lemma UnknownCollidesWithMissing()
    ensures CleanUriComponent(Some(Str("Unknown"))) == CleanUriComponent(None)
  {
    var u, l := "Unknown", "unknown";
    assert LowerText(u) == l by {
      forall i | 0 <= i < |u| ensures LowerText(u)[i] == l[i] {
      }
    }
    assert IsSlug(l) by {
      forall i | 0 <= i < |l| ensures IsSlugChar(l[i]) {
      }
    }
    SlugifyFixesSlugs(l);
    SlugifyIgnoresCase(u);
  }

  /** Within one kind, two values get the same IRI exactly when they get the
      same slug. */
  lemma MintUriInjective(k: EntityKind, a: Cell, b: Cell)
    ensures MintUri(k, a) == MintUri(k, b) <==> CleanUriComponent(a) == CleanUriComponent(b)
  {
    if MintUri(k, a) == MintUri(k, b) {
      var p := KindPrefix(k);
      assert CleanUriComponent(a) == MintUri(k, a)[|p|..];
      assert CleanUriComponent(b) == MintUri(k, b)[|p|..];
    }
  }

  lemma DifferAt(a: string, b: string, x: string, y: string, k: nat)
    requires k < |a| && k < |b| && a[k] != b[k]
    ensures a + x != b + y
  {
    assert (a + x)[k] == a[k];
    assert (b + y)[k] == b[k];
  }

  /** IRIs of different kinds never coincide: the prefixes `student_` and
      `university_` (university namespace), `area_` (education) and `city_`
      and `dept_` (geography) part ways before the slug starts. */
  lemma MintUriKindsDisjoint(k1: EntityKind, k2: EntityKind, a: Cell, b: Cell)
    requires k1 != k2
    ensures MintUri(k1, a) != MintUri(k2, b)
  {
    var p1, p2 := KindPrefix(k1), KindPrefix(k2);
    var i :=
      if (k1.CityKind? && k2.DepartmentKind?) || (k1.DepartmentKind? && k2.CityKind?) then 29
      else if (k1.StudentKind? || k1.UniversityKind?) && (k2.StudentKind? || k2.UniversityKind?) then 30
      else 19;
    DifferAt(p1, p2, CleanUriComponent(a), CleanUriComponent(b), i);
  }

  /** A decision IRI is never the IRI of a student, university, area, city or
      department. */
  lemma DecisionUriIsNotEntityUri(md5: string -> HexDigest, studentId: Cell, universityCode: Cell, k: EntityKind, c: Cell)
    ensures CreateDecisionUri(md5, studentId, universityCode) != MintUri(k, c)
  {
    var u := CreateDecisionUri(md5, studentId, universityCode);
    assert u[19] == (BEHAVIOR_NS + "decision_")[19];
    assert MintUri(k, c)[19] == KindPrefix(k)[19];
  }

  /** The decision IRI depends on the key pair only through the joined text,
      whatever the digest: pairs whose `_`-joined raw strings coincide share it. */
  lemma DecisionUriByKey(md5: string -> HexDigest, id1: Cell, code1: Cell, id2: Cell, code2: Cell)
    requires DecisionKey(id1, code1) == DecisionKey(id2, code2)
    ensures CreateDecisionUri(md5, id1, code1) == CreateDecisionUri(md5, id2, code2)
  {
  }

  /** Two collisions of the raw key: `("a_b", "c")` against `("a", "b_c")`,
      and a missing student id (formatted `nan`) against the text `nan`. */
  lemma DecisionKeyCollisions(md5: string -> HexDigest, code: Cell)
    ensures CreateDecisionUri(md5, Some(Str("a_b")), Some(Str("c"))) == CreateDecisionUri(md5, Some(Str("a")), Some(Str("b_c")))
    ensures CreateDecisionUri(md5, None, code) == CreateDecisionUri(md5, Some(Str("nan")), code)
  {
    assert DecisionKey(Some(Str("a_b")), Some(Str("c"))) == DecisionKey(Some(Str("a")), Some(Str("b_c")));
  }
}
