/** The display orderer: resource labels grouped Vessel, then Project, then
    Person, each group in catalog order; resources of any other type are left
    out. */
module DisplayOrder {
  import opened Records

  /** The group a type belongs to: 0 Vessel, 1 Project, 2 Person, 3 anything else. */
  function Rank(kind: string): nat
  {
    if kind == VESSEL then 0 else if kind == PROJECT then 1 else if kind == PERSON then 2 else 3
  }

  /** The number of catalog resources of type `kind`. */
  function CountKind(catalog: seq<Resource>, kind: string): nat
  {
    if catalog == [] then 0
    else CountKind(catalog[..|catalog| - 1], kind) + (if catalog[|catalog| - 1].kind == kind then 1 else 0)
  }

  /** Position x comes before position y on the display axis: a lower group,
      or the same group and an earlier catalog position. */
  predicate Before(catalog: seq<Resource>, x: nat, y: nat)
  {
    && x < |catalog| && y < |catalog|
    && (|| Rank(catalog[x].kind) < Rank(catalog[y].kind)
        || (Rank(catalog[x].kind) == Rank(catalog[y].kind) && x < y))
  }

  predicate InDisplayOrder(catalog: seq<Resource>, r: seq<nat>)
  {
    forall i, j :: 0 <= i < j < |r| ==> Before(catalog, r[i], r[j])
  }

  /** The catalog positions of the resources of type `kind`, ascending. */
  function KindPositions(catalog: seq<Resource>, kind: string): (r: seq<nat>)
    ensures |r| == CountKind(catalog, kind)
    ensures forall x :: x in r ==> x < |catalog| && catalog[x].kind == kind
    ensures forall x :: 0 <= x < |catalog| && catalog[x].kind == kind ==> x in r
    ensures forall i :: 0 <= i < |r| ==> r[i] < |catalog|
    ensures forall i, j :: 0 <= i < j < |r| ==> r[i] < r[j]
  {
    if catalog == [] then []
    else
      var n := |catalog| - 1;
      var init := catalog[..n];
      var ps := KindPositions(init, kind);
      assert forall x :: x in ps ==> catalog[x] == init[x];
      assert forall i :: 0 <= i < |ps| ==> ps[i] in ps;
      if catalog[n].kind == kind then ps + [n] else ps
  }

  /** The labels of the resources of type `kind`, in catalog order. */
  function LabelsOfKind(catalog: seq<Resource>, kind: string): (r: seq<string>)
    ensures |r| == |KindPositions(catalog, kind)|
    ensures forall i :: 0 <= i < |r| ==> r[i] == ResourceLabel(catalog[KindPositions(catalog, kind)[i]])
  {
    if catalog == [] then []
    else
      var n := |catalog| - 1;
      var init := catalog[..n];
      var rest := LabelsOfKind(init, kind);
      var ps := KindPositions(init, kind);
      assert KindPositions(catalog, kind) == if catalog[n].kind == kind then ps + [n] else ps;
      assert forall i :: 0 <= i < |ps| ==> ps[i] in ps;
      if catalog[n].kind == kind then rest + [ResourceLabel(catalog[n])] else rest
  }

  /** The labels for a resource axis: vessels, then projects, then people,
      as many as there are resources of those three types. */
  function OrderedLabels(catalog: seq<Resource>): (r: seq<string>)
    ensures |r| == CountKind(catalog, VESSEL) + CountKind(catalog, PROJECT) + CountKind(catalog, PERSON)
  {
    LabelsOfKind(catalog, VESSEL) + LabelsOfKind(catalog, PROJECT) + LabelsOfKind(catalog, PERSON)
  }

  lemma KindPositionsInDisplayOrder(catalog: seq<Resource>, kind: string)
    ensures InDisplayOrder(catalog, KindPositions(catalog, kind))
  {
    var r := KindPositions(catalog, kind);
    forall i, j | 0 <= i < j < |r| ensures Before(catalog, r[i], r[j]) {
      assert r[i] in r && r[j] in r;
    }
  }

  lemma ConcatInDisplayOrder(catalog: seq<Resource>, a: seq<nat>, b: seq<nat>)
    requires InDisplayOrder(catalog, a) && InDisplayOrder(catalog, b)
    requires forall x, y :: x in a && y in b ==> Before(catalog, x, y)
    ensures InDisplayOrder(catalog, a + b)
  {
    var r := a + b;
    forall i, j | 0 <= i < j < |r| ensures Before(catalog, r[i], r[j]) {
      if j < |a| {
        assert r[i] == a[i] && r[j] == a[j];
      } else if i >= |a| {
        assert r[i] == b[i - |a|] && r[j] == b[j - |a|];
      } else {
        assert r[i] == a[i] && r[j] == b[j - |a|];
        assert r[i] in a && r[j] in b;
      }
    }
  }

  /** The catalog positions behind OrderedLabels, in display order: each
      resource of a known type exactly once, no other resource. */
  function DisplayPositions(catalog: seq<Resource>): (r: seq<nat>)
    ensures forall x :: x in r ==> x < |catalog| && KnownKind(catalog[x].kind)
    ensures forall x :: 0 <= x < |catalog| && KnownKind(catalog[x].kind) ==> x in r
    ensures InDisplayOrder(catalog, r)
  {
    var v, p, q := KindPositions(catalog, VESSEL), KindPositions(catalog, PROJECT), KindPositions(catalog, PERSON);
    KindPositionsInDisplayOrder(catalog, VESSEL);
    KindPositionsInDisplayOrder(catalog, PROJECT);
    KindPositionsInDisplayOrder(catalog, PERSON);
    ConcatInDisplayOrder(catalog, v, p);
    ConcatInDisplayOrder(catalog, v + p, q);
    v + p + q
  }

  /** The ordered labels are the labels of the display positions: every
      resource of a known type appears once, grouped Vessel, Project, Person,
      and in catalog order within its group. */
  lemma OrderedLabelsFollowPositions(catalog: seq<Resource>)
    ensures |OrderedLabels(catalog)| == |DisplayPositions(catalog)|
    ensures forall i :: 0 <= i < |OrderedLabels(catalog)| ==>
      OrderedLabels(catalog)[i] == ResourceLabel(catalog[DisplayPositions(catalog)[i]])
  {
    var v, p, q := KindPositions(catalog, VESSEL), KindPositions(catalog, PROJECT), KindPositions(catalog, PERSON);
    var lv, lp, lq := LabelsOfKind(catalog, VESSEL), LabelsOfKind(catalog, PROJECT), LabelsOfKind(catalog, PERSON);
    var l, r := OrderedLabels(catalog), DisplayPositions(catalog);
    assert r == v + p + q;
    forall i | 0 <= i < |l| ensures l[i] == ResourceLabel(catalog[r[i]]) {
      if i < |lv| {
        assert l[i] == lv[i] && r[i] == v[i];
      } else if i < |lv| + |lp| {
        assert l[i] == lp[i - |lv|] && r[i] == p[i - |v|];
      } else {
        assert l[i] == lq[i - |lv| - |lp|] && r[i] == q[i - |v| - |p|];
      }
    }
  }

  /** The catalog of the worked example: a person, a vessel and a project. */
  function ExampleCatalog(): seq<Resource>
  {
    [Resource(1, "Zed", PERSON), Resource(2, "Alpha", VESSEL), Resource(3, "Polaris", PROJECT)]
  }

  lemma KnownKindsDiffer()
    ensures PERSON != VESSEL && PROJECT != VESSEL && PERSON != PROJECT
  {
    assert PERSON[0] != VESSEL[0] && PROJECT[0] != VESSEL[0];
    assert PERSON[1] != PROJECT[1];
  }

  lemma ExampleVessels()
    ensures LabelsOfKind(ExampleCatalog(), VESSEL) == [Label(VESSEL, "Alpha")]
  {
    KnownKindsDiffer();
    var c := ExampleCatalog();
    assert c[..2][..1] == [c[0]];
    assert LabelsOfKind([c[0]], VESSEL) == [];
  }

  lemma ExampleProjects()
    ensures LabelsOfKind(ExampleCatalog(), PROJECT) == [Label(PROJECT, "Polaris")]
  {
    KnownKindsDiffer();
    var c := ExampleCatalog();
    assert c[..2] == [c[0], c[1]] && c[..2][..1] == [c[0]];
    assert LabelsOfKind([c[0]], PROJECT) == [];
  }

  lemma ExamplePeople()
    ensures LabelsOfKind(ExampleCatalog(), PERSON) == [Label(PERSON, "Zed")]
  {
    KnownKindsDiffer();
    var c := ExampleCatalog();
    assert c[..2] == [c[0], c[1]] && c[..2][..1] == [c[0]];
    assert LabelsOfKind([c[0]], PERSON) == [Label(PERSON, "Zed")];
  }

  /** A person, a vessel and a project come out vessel first, person last. */
  lemma ThreeResourceExample()
    ensures OrderedLabels(ExampleCatalog()) == [Label(VESSEL, "Alpha"), Label(PROJECT, "Polaris"), Label(PERSON, "Zed")]
  {
    ExampleVessels();
    ExampleProjects();
    ExamplePeople();
  }
}
