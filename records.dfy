/** Records shared by the scheduling engine: days, windows, resources, tasks,
    tasks joined with their resource, occupancy rows, and the display label
    that serves as the resource's join key in the schedule views. */
module Records {

  datatype Option<T> = None | Some(value: T)

  /** A zone-less calendar date, as a whole day number. */
  type Day = int

  /** An inclusive range of calendar days [lo, hi]. */
  datatype Window = Window(lo: Day, hi: Day)

  function Max(a: int, b: int): int { if a >= b then a else b }
  function Min(a: int, b: int): int { if a <= b then a else b }

  /** Day `d` lies in the inclusive range [lo, hi]. */
  predicate Within(d: Day, lo: Day, hi: Day) { lo <= d <= hi }

  const VESSEL: string := "Vessel"
  const PROJECT: string := "Project"
  const PERSON: string := "Person"

  /** The separator of a display label: space, en dash, space. */
  const SEPARATOR: string := " \U{2013} "

  /** A resource as the catalog lists it; the type is the stored string. */
  datatype Resource = Resource(id: int, name: string, kind: string)

  /** A task record; `start` and `finish` are inclusive and nothing enforces
      start <= finish. */
  datatype Task = Task(id: int, resourceId: int, title: string, status: string, start: Day, finish: Day)

  /** A task joined with the resource it belongs to. */
  datatype Booking = Booking(task: Task, resource: Resource)

  /** One task's presence on one calendar day. */
  datatype Occupancy = Occupancy(date: Day, resourceId: int, resourceName: string,
                                 resourceType: string, status: string, title: string)

  predicate KnownKind(kind: string)
  {
    kind == VESSEL || kind == PROJECT || kind == PERSON
  }

  /** The display label "<type> – <name>": the type, then the separator, then the name. */
  function Label(kind: string, name: string): (r: string)
    ensures |r| == |kind| + |SEPARATOR| + |name|
    ensures r[..|kind|] == kind
    ensures r[|kind|..|kind| + |SEPARATOR|] == SEPARATOR
    ensures r[|kind| + |SEPARATOR|..] == name
  {
    kind + SEPARATOR + name
  }

  function ResourceLabel(r: Resource): string
  {
    Label(r.kind, r.name)
  }

  predicate HasPrefix(s: string, p: string)
  {
    |p| <= |s| && s[..|p|] == p
  }

  /** Recovers the type and the name from a label whose type is one of the
      three known ones. */
  function SplitLabel(text: string): (r: Option<(string, string)>)
    ensures r.Some? ==> KnownKind(r.value.0) && Label(r.value.0, r.value.1) == text
  {
    if HasPrefix(text, VESSEL + SEPARATOR) then
      Some((VESSEL, text[|VESSEL + SEPARATOR|..]))
    else if HasPrefix(text, PROJECT + SEPARATOR) then
      Some((PROJECT, text[|PROJECT + SEPARATOR|..]))
    else if HasPrefix(text, PERSON + SEPARATOR) then
      Some((PERSON, text[|PERSON + SEPARATOR|..]))
    else
      None
  }

  /** Splitting a label built from a known type gives back that type and name. */
  lemma SplitLabelInvertsLabel(kind: string, name: string)
    requires KnownKind(kind)
    ensures SplitLabel(Label(kind, name)) == Some((kind, name))
  {
    var l := Label(kind, name);
    assert l == kind + SEPARATOR + name;
    assert (kind + SEPARATOR + name)[..|kind + SEPARATOR|] == kind + SEPARATOR;
    assert l[|kind + SEPARATOR|..] == name;
    if kind == PROJECT {
      assert l[0] == 'P';
      assert !HasPrefix(l, VESSEL + SEPARATOR) by { assert (VESSEL + SEPARATOR)[0] == 'V'; }
    } else if kind == PERSON {
      assert l[0] == 'P' && l[1] == 'e';
      assert !HasPrefix(l, VESSEL + SEPARATOR) by { assert (VESSEL + SEPARATOR)[0] == 'V'; }
      assert !HasPrefix(l, PROJECT + SEPARATOR) by { assert (PROJECT + SEPARATOR)[1] == 'r'; }
    }
  }

  /** Labels of known types are unique exactly when (type, name) pairs are. */
  lemma LabelInjective(k1: string, n1: string, k2: string, n2: string)
    requires KnownKind(k1) && KnownKind(k2)
    ensures Label(k1, n1) == Label(k2, n2) <==> k1 == k2 && n1 == n2
  {
    SplitLabelInvertsLabel(k1, n1);
    SplitLabelInvertsLabel(k2, n2);
  }
}
