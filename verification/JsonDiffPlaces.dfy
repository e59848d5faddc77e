/** What the full report of the diff lists: one entry for each place where the two documents differ,
    in order. */
module JsonDiffPlaces {
  import opened Decimals
  import opened JsonDiff
  import opened JsonDiffReport
  import opened Wrappers
  import JsonDiffMeaning

  // ---------------------------------------------------------------------------------
  // Places of a document

  datatype Step = Key(name: string) | Index(position: nat)

  type Place = seq<Step>

  /** Keys are joined by dots, leading empty keys leave no trace, and positions stand in brackets. */
  function PlaceText(place: Place): string {
    if place == [] then ""
    else
      var parent, last := PlaceText(place[..|place| - 1]), place[|place| - 1];
      match last
      case Key(name) => (if parent == "" then "" else parent + ".") + name
      case Index(position) => parent + "[" + Decimal(position) + "]"
  }

  /** The innermost key. */
  function ListName(place: Place): string {
    if place == [] then ""
    else
      var last := place[|place| - 1];
      if last.Key? then last.name else ListName(place[..|place| - 1])
  }

  /** The value at index i goes by that name: a field, or an item or character by its index. */
  predicate Holds(v: Json, name: string, i: nat) {
    match v
    case Obj(fields) => i < |fields| && fields[i].name == name
    case Arr(items) => i < |items| && Decimal(i) == name
    case Str(s) => i < |s| && Decimal(i) == name
    case _ => false
  }

  function Held(v: Json, name: string, i: nat): Json
    requires Holds(v, name, i)
  {
    match v
    case Obj(fields) => fields[i].value
    case Arr(items) => items[i]
    case Str(s) => Str([s[i]])
  }

  ghost function Part(v: Json, step: Step): Option<Json> {
    match step
    case Key(name) =>
      if i: nat :| Holds(v, name, i) && !Held(v, name, i).Undefined? then Some(Held(v, name, i)) else None
    case Index(position) => if v.Arr? && position < |v.items| then Some(v.items[position]) else None
  }

  ghost function ValueAt(v: Json, place: Place): Option<Json>
    decreases |place|
  {
    if place == [] then Some(v)
    else
      var part := Part(v, place[0]);
      if part.Some? then ValueAt(part.value, place[1..]) else None
  }

  /** No object holds a key twice, at any depth. */
  ghost predicate KeysOnce(v: Json)
    decreases v, 0
  {
    match v
    case Arr(items) => forall i | 0 <= i < |items| :: KeysOnce(items[i])
    case Obj(fields) =>
      && (forall i, j | 0 <= i < j < |fields| :: fields[i].name != fields[j].name)
      && (forall i | 0 <= i < |fields| :: KeysOnce(fields[i].value))
    case _ => true
  }

  // ---------------------------------------------------------------------------------
  // Where two documents differ

  predicate Blank(v: Json) {
    v in [Undefined, Null, Bool(false), Number(0.0), NaN, Str("")]
  }

  /** Two values that are compared part by part. */
  predicate Nested(step: Step, a: Json, b: Json) {
    || (a.Arr? && b.Arr?)
    || (b.Obj? && if step.Key? then !Blank(a) else a.Obj?)
  }

  /** Two other values that count as different: blank items and null properties equal any blank. */
  predicate Unequal(step: Step, a: Json, b: Json) {
    if (if step.Key? then b.Null? else Blank(a)) then Blank(a) != Blank(b) else a != b || b.NaN?
  }

  predicate Skipped(step: Step, n: Json) {
    match step
    case Key(name) =>
      n.Arr? || name in {"@metadata", "@id", "@change-vector", "@collection", "@last-modified"}
    case Index(_) => !n.Arr?
  }

  ghost predicate Differs(o: Json, n: Json, place: Place)
    decreases |place|
  {
    && place != []
    && !Skipped(place[0], n)
    && var a, b := Part(o, place[0]), Part(n, place[0]);
       if a.Some? && b.Some? && Nested(place[0], a.value, b.value) then Differs(a.value, b.value, place[1..])
       else |place| == 1 && if a.Some? && b.Some? then Unequal(place[0], a.value, b.value) else a != b
  }

  /** The entry for a place, given the values of both documents there. */
  function Entry(place: Place, a: Option<Json>, b: Option<Json>): Change
    requires place != []
  {
    var parent, last := PlaceText(place[..|place| - 1]), place[|place| - 1];
    var was, is_ := (if a.Some? then a.value else Null), if b.Some? then b.value else Null;
    match last
    case Key(name) =>
      if b.None? then Change(parent, name, Null, was, RemovedField)
      else if a.None? then Change(parent, name, is_, Null, NewField)
      else Change(parent, name, if is_.Undefined? then Null else is_, if is_.Obj? then Null else was, FieldChanged)
    case Index(_) =>
      var list := ListName(place);
      if b.None? then Change(parent, list, Null, was, ArrayValueRemoved)
      else if a.None? then Change(parent, list, is_, Null, ArrayValueAdded)
      else Change(PlaceText(place), list, is_, was,
                  if was.Obj? || Blank(was) then ArrayValueAdded else ArrayValueChanged)
  }

  // ---------------------------------------------------------------------------------
  // The order of the report

  ghost function IndexOf(v: Json, step: Step): nat {
    match step
    case Key(name) => if i: nat :| Holds(v, name, i) && !Held(v, name, i).Undefined? then i else 0
    case Index(position) => position
  }

  /** Removed properties come first, in the order of the old document; the others come in the
      order of the new one. */
  ghost predicate StepBefore(o: Json, n: Json, s: Step, t: Step) {
    if s.Index? then t.Index? && s.position < t.position
    else if Part(n, s).None? then Part(n, t).Some? || IndexOf(o, s) < IndexOf(o, t)
    else Part(n, t).Some? && IndexOf(n, s) < IndexOf(n, t)
  }

  ghost predicate Before(o: Json, n: Json, p: Place, q: Place)
    decreases |p|
  {
    && p != [] && q != []
    && if p[0] != q[0] then StepBefore(o, n, p[0], q[0])
       else
         var a, b := Part(o, p[0]), Part(n, p[0]);
         a.Some? && b.Some? && Before(a.value, b.value, p[1..], q[1..])
  }

  lemma {:induction false} NotBeforeItself(o: Json, n: Json, p: Place)
    ensures !Before(o, n, p, p)
    decreases |p|
  {
    if p != [] && Part(o, p[0]).Some? && Part(n, p[0]).Some? {
      NotBeforeItself(Part(o, p[0]).value, Part(n, p[0]).value, p[1..]);
    }
  }

  // ---------------------------------------------------------------------------------
  // Lists of places

  ghost predicate AllDiffer(places: seq<Place>, o: Json, n: Json, steps: set<Step>) {
    forall i | 0 <= i < |places| :: Differs(o, n, places[i]) && places[i][0] in steps
  }

  ghost predicate AreEntries(changes: seq<Change>, places: seq<Place>, base: Place, o: Json, n: Json) {
    && |changes| == |places|
    && forall i | 0 <= i < |places| ::
         places[i] != [] && changes[i] == Entry(base + places[i], ValueAt(o, places[i]), ValueAt(n, places[i]))
  }

  ghost predicate InOrder(places: seq<Place>, o: Json, n: Json) {
    forall i, j | 0 <= i < j < |places| :: Before(o, n, places[i], places[j])
  }

  ghost predicate NoneMissing(places: seq<Place>, o: Json, n: Json, steps: set<Step>) {
    forall p | Differs(o, n, p) && p[0] in steps :: p in places
  }

  /** The changes are the entries of the places that start with one of the steps and at which the
      documents differ, in order. */
  ghost predicate Lists(changes: seq<Change>, places: seq<Place>, base: Place, o: Json, n: Json, steps: set<Step>) {
    && AllDiffer(places, o, n, steps)
    && AreEntries(changes, places, base, o, n)
    && InOrder(places, o, n)
    && NoneMissing(places, o, n, steps)
  }

  lemma {:induction false} NoPlace(base: Place, o: Json, n: Json, steps: set<Step>)
    requires forall p | Differs(o, n, p) :: p[0] !in steps
    ensures Lists([], [], base, o, n, steps)
  {
  }

  lemma {:induction false} OneStep(v: Json, step: Step)
    ensures ValueAt(v, [step]) == Part(v, step)
  {
    assert [step][1..] == [];
  }

  lemma {:induction false} OnlyOne(o: Json, n: Json, step: Step)
    requires !Skipped(step, n)
    requires var a, b := Part(o, step), Part(n, step);
      if a.Some? && b.Some? then !Nested(step, a.value, b.value) && Unequal(step, a.value, b.value) else a != b
    ensures AllDiffer([[step]], o, n, {step}) && NoneMissing([[step]], o, n, {step})
  {
    var p := [step];
    assert p[0] == step && |p| == 1;
    forall q | Differs(o, n, q) && q[0] in {step} ensures q in [p] {
      assert q == p;
    }
  }

  lemma {:induction false} OnePlace(base: Place, o: Json, n: Json, step: Step)
    requires !Skipped(step, n)
    requires var a, b := Part(o, step), Part(n, step);
      if a.Some? && b.Some? then !Nested(step, a.value, b.value) && Unequal(step, a.value, b.value) else a != b
    ensures Lists([Entry(base + [step], Part(o, step), Part(n, step))], [[step]], base, o, n, {step})
  {
    OnlyOne(o, n, step);
    OneStep(o, step);
    OneStep(n, step);
  }

  lemma {:induction false} BothInOrder(p1: seq<Place>, s1: set<Step>, p2: seq<Place>, s2: set<Step>,
                                       o: Json, n: Json)
    requires InOrder(p1, o, n) && InOrder(p2, o, n) && AllDiffer(p1, o, n, s1) && AllDiffer(p2, o, n, s2)
    requires forall s, t | s in s1 && t in s2 :: s != t && StepBefore(o, n, s, t)
    ensures InOrder(p1 + p2, o, n)
  {
    var places := p1 + p2;
    forall i, j | 0 <= i < j < |places| ensures Before(o, n, places[i], places[j]) {
      if i < |p1| <= j {
        var p, q := p1[i], p2[j - |p1|];
        assert p[0] in s1 && q[0] in s2;
        assert Before(o, n, p, q);
      }
    }
  }

  lemma {:induction false} BothDiffer(p1: seq<Place>, s1: set<Step>, p2: seq<Place>, s2: set<Step>, o: Json, n: Json)
    requires AllDiffer(p1, o, n, s1) && AllDiffer(p2, o, n, s2)
    ensures AllDiffer(p1 + p2, o, n, s1 + s2)
  {
    forall i | 0 <= i < |p1 + p2| ensures Differs(o, n, (p1 + p2)[i]) && (p1 + p2)[i][0] in s1 + s2 {
      if i < |p1| {
        assert (p1 + p2)[i] == p1[i];
      } else {
        assert (p1 + p2)[i] == p2[i - |p1|];
      }
    }
  }

  lemma {:induction false} BothEntries(c1: seq<Change>, p1: seq<Place>, c2: seq<Change>, p2: seq<Place>,
                                       base: Place, o: Json, n: Json)
    requires AreEntries(c1, p1, base, o, n) && AreEntries(c2, p2, base, o, n)
    ensures AreEntries(c1 + c2, p1 + p2, base, o, n)
  {
    forall i | 0 <= i < |p1 + p2|
      ensures var p := (p1 + p2)[i];
        p != [] && (c1 + c2)[i] == Entry(base + p, ValueAt(o, p), ValueAt(n, p))
    {
      if i < |p1| {
        assert (p1 + p2)[i] == p1[i] && (c1 + c2)[i] == c1[i];
      } else {
        assert (p1 + p2)[i] == p2[i - |p1|] && (c1 + c2)[i] == c2[i - |p1|];
      }
    }
  }

  lemma {:induction false} BothNoneMissing(p1: seq<Place>, s1: set<Step>, p2: seq<Place>, s2: set<Step>,
                                           o: Json, n: Json)
    requires NoneMissing(p1, o, n, s1) && NoneMissing(p2, o, n, s2)
    ensures NoneMissing(p1 + p2, o, n, s1 + s2)
  {
    forall p | Differs(o, n, p) && p[0] in s1 + s2 ensures p in p1 + p2 {
      assert p in p1 || p in p2;
    }
  }

  lemma {:induction false} BothLists(c1: seq<Change>, p1: seq<Place>, s1: set<Step>,
                                     c2: seq<Change>, p2: seq<Place>, s2: set<Step>, base: Place, o: Json, n: Json)
    requires Lists(c1, p1, base, o, n, s1) && Lists(c2, p2, base, o, n, s2)
    requires forall s, t | s in s1 && t in s2 :: s != t && StepBefore(o, n, s, t)
    ensures Lists(c1 + c2, p1 + p2, base, o, n, s1 + s2)
  {
    BothInOrder(p1, s1, p2, s2, o, n);
    BothDiffer(p1, s1, p2, s2, o, n);
    BothEntries(c1, p1, c2, p2, base, o, n);
    BothNoneMissing(p1, s1, p2, s2, o, n);
  }

  function Under(step: Step, places: seq<Place>): (r: seq<Place>)
    ensures |r| == |places| && forall i | 0 <= i < |r| :: r[i] == [step] + places[i]
  {
    seq(|places|, i requires 0 <= i < |places| => [step] + places[i])
  }

  /** Two values that both documents hold below one step, and that are compared part by part. */
  ghost predicate Inner(o: Json, n: Json, step: Step, a: Json, b: Json) {
    !Skipped(step, n) && Part(o, step) == Some(a) && Part(n, step) == Some(b) && Nested(step, a, b)
  }

  lemma {:induction false} PlaceUnder(o: Json, n: Json, step: Step, a: Json, b: Json, base: Place, p: Place)
    requires Inner(o, n, step, a, b)
    ensures ([step] + p)[0] == step && ([step] + p)[1..] == p && base + ([step] + p) == base + [step] + p
    ensures Differs(o, n, [step] + p) <==> Differs(a, b, p)
    ensures ValueAt(o, [step] + p) == ValueAt(a, p) && ValueAt(n, [step] + p) == ValueAt(b, p)
  {
    assert ([step] + p)[1..] == p;
  }

  lemma {:induction false} OrderUnder(o: Json, n: Json, step: Step, a: Json, b: Json, p: Place, q: Place)
    requires Inner(o, n, step, a, b) && Before(a, b, p, q)
    ensures Before(o, n, [step] + p, [step] + q)
  {
    assert ([step] + p)[1..] == p && ([step] + q)[1..] == q;
  }

  lemma {:induction false} EntriesUnder(changes: seq<Change>, places: seq<Place>, base: Place, o: Json, n: Json,
                                        step: Step, a: Json, b: Json, steps: set<Step>)
    requires Inner(o, n, step, a, b)
    requires AllDiffer(places, a, b, steps) && AreEntries(changes, places, base + [step], a, b)
    ensures AllDiffer(Under(step, places), o, n, {step}) && AreEntries(changes, Under(step, places), base, o, n)
  {
    forall i | 0 <= i < |places|
      ensures Differs(o, n, [step] + places[i]) && ([step] + places[i])[0] == step
      ensures var p := [step] + places[i]; changes[i] == Entry(base + p, ValueAt(o, p), ValueAt(n, p))
    {
      PlaceUnder(o, n, step, a, b, base, places[i]);
    }
  }

  lemma {:induction false} NoneMissingUnder(places: seq<Place>, o: Json, n: Json, step: Step, a: Json, b: Json,
                                            steps: set<Step>)
    requires Inner(o, n, step, a, b) && NoneMissing(places, a, b, steps)
    requires forall p | Differs(a, b, p) :: p[0] in steps
    ensures NoneMissing(Under(step, places), o, n, {step})
  {
    forall p | Differs(o, n, p) && p[0] in {step} ensures p in Under(step, places) {
      assert p == [step] + p[1..];
      PlaceUnder(o, n, step, a, b, [], p[1..]);
      var i :| 0 <= i < |places| && places[i] == p[1..];
      assert Under(step, places)[i] == p;
    }
  }

  lemma {:induction false} PlacesUnder(changes: seq<Change>, places: seq<Place>, base: Place, o: Json, n: Json,
                                       step: Step, a: Json, b: Json, steps: set<Step>)
    requires Inner(o, n, step, a, b) && Lists(changes, places, base + [step], a, b, steps)
    requires forall p | Differs(a, b, p) :: p[0] in steps
    ensures Lists(changes, Under(step, places), base, o, n, {step})
  {
    EntriesUnder(changes, places, base, o, n, step, a, b, steps);
    NoneMissingUnder(places, o, n, step, a, b, steps);
    forall i, j | 0 <= i < j < |places| ensures Before(o, n, [step] + places[i], [step] + places[j]) {
      OrderUnder(o, n, step, a, b, places[i], places[j]);
    }
  }

  // ---------------------------------------------------------------------------------
  // Looking up by name

  lemma {:induction false} BlankIsFalsy(v: Json)
    ensures Blank(v) <==> Falsy(v)
  {
    var blanks := [Undefined, Null, Bool(false), Number(0.0), NaN, Str("")];
    assert blanks[0] == Undefined && blanks[1] == Null && blanks[2] == Bool(false);
    assert blanks[3] == Number(0.0) && blanks[4] == NaN && blanks[5] == Str("");
  }

  lemma {:induction false} SkippedIsIgnored(name: string, n: Json)
    ensures Skipped(Key(name), n) <==> n.Arr? || Ignored(name)
  {
  }

  lemma {:induction false} HeldOnce(v: Json, name: string, i: nat, j: nat)
    requires KeysOnce(v) && Holds(v, name, i) && Holds(v, name, j)
    ensures i == j
  {
    if !v.Obj? {
      ValueOfDecimal(i);
      ValueOfDecimal(j);
    }
  }

  lemma {:induction false} PropertiesOnce(v: Json)
    requires KeysOnce(v)
    ensures forall i, j | 0 <= i < j < |Properties(v)| :: Properties(v)[i].name != Properties(v)[j].name
    ensures forall i | 0 <= i < |Properties(v)| ::
      Holds(v, Properties(v)[i].name, i) && Held(v, Properties(v)[i].name, i) == Properties(v)[i].value
  {
    var fields := Properties(v);
    forall i, j | 0 <= i < j < |fields| ensures fields[i].name != fields[j].name {
      if fields[i].name == fields[j].name {
        HeldOnce(v, fields[i].name, i, j);
      }
    }
  }

  /** Looking a name up is finding the part. */
  lemma {:induction false} PartIsGet(v: Json, name: string)
    requires KeysOnce(v)
    ensures Part(v, Key(name)) == if Has(Properties(v), name) then Some(Get(Properties(v), name)) else None
    ensures Part(v, Key(name)).Some? ==> KeysOnce(Part(v, Key(name)).value)
  {
    var fields := Properties(v);
    PropertiesOnce(v);
    if Has(fields, name) {
      var i := JsonDiffMeaning.GetFrom(fields, name);
      assert Holds(v, name, i) && Held(v, name, i) == fields[i].value;
      forall j: nat | Holds(v, name, j) ensures i == j {
        HeldOnce(v, name, i, j);
      }
    } else {
      forall j: nat | Holds(v, name, j) ensures Held(v, name, j).Undefined? {
        assert fields[j].name == name && fields[j].value == Held(v, name, j);
        if !fields[j].value.Undefined? {
          JsonDiffMeaning.GetAt(fields, j);
        }
      }
    }
  }

  /** The part of a defined property, and its place in the order. */
  lemma {:induction false} PartAt(v: Json, i: nat)
    requires KeysOnce(v) && i < |Properties(v)| && !Properties(v)[i].value.Undefined?
    ensures var step := Key(Properties(v)[i].name);
      Part(v, step) == Some(Properties(v)[i].value) && IndexOf(v, step) == i && KeysOnce(Properties(v)[i].value)
  {
    var name := Properties(v)[i].name;
    PropertiesOnce(v);
    assert Holds(v, name, i) && Held(v, name, i) == Properties(v)[i].value;
    forall j: nat | Holds(v, name, j) ensures i == j {
      HeldOnce(v, name, i, j);
    }
  }

  // ---------------------------------------------------------------------------------
  // The full report

  function RemovedSteps(o: Json, n: Json, i: nat): set<Step>
    requires n.Obj?
  {
    set j | i <= j < |Properties(o)| && !Properties(o)[j].value.Undefined?
            && !Has(n.fields, Properties(o)[j].name) :: Key(Properties(o)[j].name)
  }

  function FieldSteps(n: Json, i: nat): set<Step>
    requires n.Obj?
  {
    set j | i <= j < |n.fields| && !n.fields[j].value.Undefined? :: Key(n.fields[j].name)
  }

  function ItemSteps(from: nat, to: nat): set<Step> {
    set k: nat | from <= k < to :: Index(k)
  }

  function Longest(o: Json, n: Json): nat
    requires o.Arr? && n.Arr?
  {
    if |o.items| < |n.items| then |n.items| else |o.items|
  }

  function AllSteps(o: Json, n: Json): set<Step>
    requires n.Obj? || (o.Arr? && n.Arr?)
  {
    if n.Obj? then RemovedSteps(o, n, 0) + FieldSteps(n, 0) else ItemSteps(0, Longest(o, n))
  }

  lemma {:induction false} NoOtherSteps(o: Json, n: Json)
    requires n.Obj? || (o.Arr? && n.Arr?)
    requires KeysOnce(o) && KeysOnce(n)
    ensures forall p | Differs(o, n, p) :: p[0] in AllSteps(o, n)
  {
    forall p | Differs(o, n, p) ensures p[0] in AllSteps(o, n) {
      match p[0]
      case Key(name) =>
        PartIsGet(o, name);
        PartIsGet(n, name);
        if Has(n.fields, name) {
          var i := JsonDiffMeaning.GetFrom(n.fields, name);
          assert n.fields[i].name == name;
        } else {
          var i := JsonDiffMeaning.GetFrom(Properties(o), name);
          assert Properties(o)[i].name == name;
        }
      case Index(k) =>
        assert k < Longest(o, n);
    }
  }

  lemma {:induction false} OneRemoved(base: Place, o: Json, n: Json, i: nat)
    requires n.Obj? && KeysOnce(o) && KeysOnce(n) && i < |Properties(o)|
    requires !KeptField(Properties(o)[i], n.fields)
    ensures var f := Properties(o)[i];
      && Lists([Change(PlaceText(base), f.name, Null, f.value, RemovedField)], [[Key(f.name)]], base, o, n,
               {Key(f.name)})
      && IndexOf(o, Key(f.name)) == i
  {
    var f := Properties(o)[i];
    PartAt(o, i);
    PartIsGet(n, f.name);
    SkippedIsIgnored(f.name, n);
    OnePlace(base, o, n, Key(f.name));
    assert (base + [Key(f.name)])[..|base|] == base;
  }

  lemma {:induction false} RemovedStepsShrink(o: Json, n: Json, i: nat)
    requires n.Obj? && KeysOnce(o) && KeysOnce(n) && i < |Properties(o)|
    ensures var f := Properties(o)[i];
      RemovedSteps(o, n, i) == if f.value.Undefined? || Has(n.fields, f.name) then RemovedSteps(o, n, i + 1)
                               else {Key(f.name)} + RemovedSteps(o, n, i + 1)
    ensures forall t | t in RemovedSteps(o, n, i + 1) :: Part(n, t).None? && IndexOf(o, t) > i
  {
    forall t | t in RemovedSteps(o, n, i + 1) ensures Part(n, t).None? && IndexOf(o, t) > i {
      var j :| i + 1 <= j < |Properties(o)| && !Properties(o)[j].value.Undefined?
               && !Has(n.fields, Properties(o)[j].name) && t == Key(Properties(o)[j].name);
      PartIsGet(n, t.name);
      PartAt(o, j);
    }
  }

  lemma {:induction false} RemovedListed(base: Place, o: Json, n: Json, i: nat) returns (places: seq<Place>)
    requires n.Obj? && KeysOnce(o) && KeysOnce(n) && i <= |Properties(o)|
    ensures Lists(ReportRemoved(PlaceText(base), Properties(o)[i..], n.fields, []), places, base, o, n,
                  RemovedSteps(o, n, i))
    decreases |Properties(o)| - i
  {
    var olds, path := Properties(o), PlaceText(base);
    if i == |olds| {
      places := [];
      NoPlace(base, o, n, RemovedSteps(o, n, i));
    } else {
      var f, steps := olds[i], RemovedSteps(o, n, i + 1);
      assert olds[i..][0] == f && olds[i..][1..] == olds[i + 1..];
      var rest := RemovedListed(base, o, n, i + 1);
      RemovedStepsShrink(o, n, i);
      if !KeptField(f, n.fields) {
        var one := [Change(path, f.name, Null, f.value, RemovedField)];
        var more := ReportRemoved(path, olds[i + 1..], n.fields, []);
        RemovedAppends(path, olds[i + 1..], n.fields, one);
        assert [] + one == one;
        OneRemoved(base, o, n, i);
        PartIsGet(n, f.name);
        BothLists(one, [[Key(f.name)]], {Key(f.name)}, more, rest, steps, base, o, n);
        places := [[Key(f.name)]] + rest;
      } else {
        places := rest;
        if !f.value.Undefined? && !Has(n.fields, f.name) {
          NoneIgnored(rest, o, n, f, steps);
        }
      }
    }
  }

  lemma {:induction false} NoneIgnored(places: seq<Place>, o: Json, n: Json, f: Field, steps: set<Step>)
    requires NoneMissing(places, o, n, steps) && n.Obj? && Ignored(f.name)
    ensures NoneMissing(places, o, n, {Key(f.name)} + steps)
  {
    forall p | Differs(o, n, p) && p[0] in {Key(f.name)} + steps ensures p in places {
      SkippedIsIgnored(f.name, n);
    }
  }

  lemma {:induction false} StepText(base: Place, step: Step)
    ensures (base + [step])[..|base|] == base
    ensures PlaceText(base + [step])
         == (match step
             case Key(name) => Combine(PlaceText(base), name)
             case Index(position) => AtIndex(PlaceText(base), position))
    ensures ListName(base + [step]) == if step.Key? then step.name else ListName(base)
  {
    assert (base + [step])[..|base|] == base;
  }

  lemma {:induction false} FieldStepsShrink(o: Json, n: Json, i: nat)
    requires n.Obj? && KeysOnce(n) && i < |n.fields|
    ensures var f := n.fields[i];
      FieldSteps(n, i) == if f.value.Undefined? then FieldSteps(n, i + 1) else {Key(f.name)} + FieldSteps(n, i + 1)
    ensures forall t | t in FieldSteps(n, i) :: Part(n, t).Some?
    ensures !n.fields[i].value.Undefined? ==>
      forall t | t in FieldSteps(n, i + 1) :: StepBefore(o, n, Key(n.fields[i].name), t)
  {
    forall t | t in FieldSteps(n, i) ensures Part(n, t).Some? {
      var j :| i <= j < |n.fields| && !n.fields[j].value.Undefined? && t == Key(n.fields[j].name);
      PartAt(n, j);
    }
    if !n.fields[i].value.Undefined? {
      PartAt(n, i);
      forall t | t in FieldSteps(n, i + 1) ensures StepBefore(o, n, Key(n.fields[i].name), t) {
        var j :| i + 1 <= j < |n.fields| && !n.fields[j].value.Undefined? && t == Key(n.fields[j].name);
        PartAt(n, j);
      }
    }
  }

  /** A value that is not compared part by part is listed when it counts as different. */
  lemma {:induction false} LeafListed(base: Place, o: Json, n: Json, name: string, a: Json, b: Json)
      returns (places: seq<Place>)
    requires Part(o, Key(name)) == Some(a) && Part(n, Key(name)) == Some(b) && !b.Undefined?
    requires !Skipped(Key(name), n) && !Nested(Key(name), a, b)
    ensures Lists(ReportValue(PlaceText(base), name, a, b, []), places, base, o, n, {Key(name)})
  {
    BlankIsFalsy(a);
    BlankIsFalsy(b);
    StepText(base, Key(name));
    if Unequal(Key(name), a, b) {
      OnePlace(base, o, n, Key(name));
      places := [[Key(name)]];
      var c := Entry(base + [Key(name)], Some(a), Some(b));
      assert [] + [c] == [c];
    } else {
      places := [];
      NoPlace(base, o, n, {Key(name)});
    }
  }

  lemma {:induction false} ValueListed(base: Place, o: Json, n: Json, name: string, a: Json, b: Json)
      returns (places: seq<Place>)
    requires Part(o, Key(name)) == Some(a) && Part(n, Key(name)) == Some(b) && !b.Undefined?
    requires !Skipped(Key(name), n) && KeysOnce(a) && KeysOnce(b)
    ensures Lists(FullValue(PlaceText(base), name, a, b), places, base, o, n, {Key(name)})
    decreases b, 3
  {
    var step, changes := Key(name), FullValue(PlaceText(base), name, a, b);
    StepText(base, step);
    BlankIsFalsy(a);
    if a.Arr? && b.Arr? {
      var inner := ArrayListed(base + [step], a, b);
      NoOtherSteps(a, b);
      PlacesUnder(changes, inner, base, o, n, step, a, b, AllSteps(a, b));
      places := Under(step, inner);
    } else if b.Obj? && !Falsy(a) {
      var inner := ObjectListed(base + [step], a, b);
      NoOtherSteps(a, b);
      PlacesUnder(changes, inner, base, o, n, step, a, b, AllSteps(a, b));
      places := Under(step, inner);
    } else {
      places := LeafListed(base, o, n, name, a, b);
    }
  }

  lemma {:induction false} FieldListed(base: Place, o: Json, n: Json, i: nat) returns (places: seq<Place>)
    requires n.Obj? && KeysOnce(o) && KeysOnce(n) && i < |n.fields| && !n.fields[i].value.Undefined?
    ensures Lists(FullField(PlaceText(base), Properties(o), n.fields[i]), places, base, o, n,
                  {Key(n.fields[i].name)})
    decreases n, 0
  {
    var f := n.fields[i];
    var step := Key(f.name);
    PartAt(n, i);
    PartIsGet(o, f.name);
    SkippedIsIgnored(f.name, n);
    if Ignored(f.name) {
      places := [];
      NoPlace(base, o, n, {step});
    } else if !Has(Properties(o), f.name) {
      StepText(base, step);
      OnePlace(base, o, n, step);
      places := [[step]];
    } else {
      places := ValueListed(base, o, n, f.name, Get(Properties(o), f.name), f.value);
    }
  }

  lemma {:induction false} FieldsListed(base: Place, o: Json, n: Json, i: nat) returns (places: seq<Place>)
    requires n.Obj? && KeysOnce(o) && KeysOnce(n) && i <= |n.fields|
    ensures Lists(FullFields(PlaceText(base), Properties(o), n.fields[i..]), places, base, o, n, FieldSteps(n, i))
    decreases n, 1, |n.fields| - i
  {
    if i == |n.fields| {
      places := [];
      NoPlace(base, o, n, FieldSteps(n, i));
    } else {
      var f, steps := n.fields[i], FieldSteps(n, i + 1);
      assert n.fields[i..][0] == f && n.fields[i..][1..] == n.fields[i + 1..];
      FieldStepsShrink(o, n, i);
      var rest := FieldsListed(base, o, n, i + 1);
      var more := FullFields(PlaceText(base), Properties(o), n.fields[i + 1..]);
      if f.value.Undefined? {
        places := rest;
        assert [] + more == more;
      } else {
        var first := FieldListed(base, o, n, i);
        BothLists(FullField(PlaceText(base), Properties(o), f), first, {Key(f.name)}, more, rest, steps, base, o, n);
        places := first + rest;
      }
    }
  }

  /** Every change of the full report of two objects is the entry of a place where they differ,
      every such place has its entry, and they are in order. */
  lemma {:induction false} ObjectListed(base: Place, o: Json, n: Json) returns (places: seq<Place>)
    requires n.Obj? && KeysOnce(o) && KeysOnce(n)
    ensures Lists(FullObject(PlaceText(base), o, n), places, base, o, n, AllSteps(o, n))
    decreases n, 2
  {
    var removed := RemovedListed(base, o, n, 0);
    var fields := FieldsListed(base, o, n, 0);
    assert Properties(o)[0..] == Properties(o) && n.fields[0..] == n.fields;
    forall s, t | s in RemovedSteps(o, n, 0) && t in FieldSteps(n, 0) ensures s != t && StepBefore(o, n, s, t) {
      PartIsGet(n, s.name);
      var j :| 0 <= j < |n.fields| && !n.fields[j].value.Undefined? && t == Key(n.fields[j].name);
      PartAt(n, j);
    }
    BothLists(ReportRemoved(PlaceText(base), Properties(o), n.fields, []), removed, RemovedSteps(o, n, 0),
              FullFields(PlaceText(base), Properties(o), n.fields), fields, FieldSteps(n, 0), base, o, n);
    places := removed + fields;
  }

  // ---------------------------------------------------------------------------------
  // Arrays

  lemma {:induction false} OneRemovedItem(base: Place, o: Json, n: Json, k: nat)
    requires o.Arr? && n.Arr? && |n.items| <= k < |o.items|
    ensures Lists([Change(PlaceText(base), ListName(base), Null, o.items[k], ArrayValueRemoved)], [[Index(k)]],
                  base, o, n, {Index(k)})
  {
    StepText(base, Index(k));
    OnePlace(base, o, n, Index(k));
  }

  lemma {:induction false} RemovedItemsListed(base: Place, o: Json, n: Json, k: nat) returns (places: seq<Place>)
    requires o.Arr? && n.Arr? && |n.items| <= k <= |o.items|
    ensures Lists(ReportRemovedItems(PlaceText(base), ListName(base), o.items, k, []), places, base, o, n,
                  ItemSteps(k, |o.items|))
    decreases |o.items| - k
  {
    if k == |o.items| {
      places := [];
      NoPlace(base, o, n, ItemSteps(k, |o.items|));
    } else {
      var rest := RemovedItemsListed(base, o, n, k + 1);
      var one := [Change(PlaceText(base), ListName(base), Null, o.items[k], ArrayValueRemoved)];
      RemovedItemsAppend(PlaceText(base), ListName(base), o.items, k + 1, one);
      assert [] + one == one;
      OneRemovedItem(base, o, n, k);
      BothLists(one, [[Index(k)]], {Index(k)},
                ReportRemovedItems(PlaceText(base), ListName(base), o.items, k + 1, []), rest,
                ItemSteps(k + 1, |o.items|), base, o, n);
      places := [[Index(k)]] + rest;
      assert {Index(k)} + ItemSteps(k + 1, |o.items|) == ItemSteps(k, |o.items|);
    }
  }

  lemma {:induction false} OneAddedItem(base: Place, o: Json, n: Json, k: nat)
    requires o.Arr? && n.Arr? && |o.items| <= k < |n.items|
    ensures Lists([Change(PlaceText(base), ListName(base), n.items[k], Null, ArrayValueAdded)], [[Index(k)]],
                  base, o, n, {Index(k)})
  {
    StepText(base, Index(k));
    OnePlace(base, o, n, Index(k));
  }

  lemma {:induction false} AddedItemsListed(base: Place, o: Json, n: Json, k: nat) returns (places: seq<Place>)
    requires o.Arr? && n.Arr? && |o.items| <= k <= |n.items|
    ensures Lists(ReportAddedItems(PlaceText(base), ListName(base), n.items, k, []), places, base, o, n,
                  ItemSteps(k, |n.items|))
    decreases |n.items| - k
  {
    if k == |n.items| {
      places := [];
      NoPlace(base, o, n, ItemSteps(k, |n.items|));
    } else {
      var rest := AddedItemsListed(base, o, n, k + 1);
      var one := [Change(PlaceText(base), ListName(base), n.items[k], Null, ArrayValueAdded)];
      AddedItemsAppend(PlaceText(base), ListName(base), n.items, k + 1, one);
      assert [] + one == one;
      OneAddedItem(base, o, n, k);
      BothLists(one, [[Index(k)]], {Index(k)},
                ReportAddedItems(PlaceText(base), ListName(base), n.items, k + 1, []), rest,
                ItemSteps(k + 1, |n.items|), base, o, n);
      places := [[Index(k)]] + rest;
      assert {Index(k)} + ItemSteps(k + 1, |n.items|) == ItemSteps(k, |n.items|);
    }
  }

  lemma {:induction false} ItemListed(base: Place, o: Json, n: Json, k: nat) returns (places: seq<Place>)
    requires o.Arr? && n.Arr? && KeysOnce(o) && KeysOnce(n) && k < |o.items| && k < |n.items|
    ensures Lists(FullItem(AtIndex(PlaceText(base), k), ListName(base), o.items[k], n.items[k]), places, base, o, n,
                  {Index(k)})
    decreases n, 0
  {
    var a, b, step := o.items[k], n.items[k], Index(k);
    var changes := FullItem(AtIndex(PlaceText(base), k), ListName(base), a, b);
    StepText(base, step);
    BlankIsFalsy(a);
    BlankIsFalsy(b);
    if a.Obj? && b.Obj? {
      var inner := ObjectListed(base + [step], a, b);
      NoOtherSteps(a, b);
      PlacesUnder(changes, inner, base, o, n, step, a, b, AllSteps(a, b));
      places := Under(step, inner);
    } else if a.Arr? && b.Arr? {
      var inner := ArrayListed(base + [step], a, b);
      NoOtherSteps(a, b);
      PlacesUnder(changes, inner, base, o, n, step, a, b, AllSteps(a, b));
      places := Under(step, inner);
    } else if Unequal(step, a, b) {
      OnePlace(base, o, n, step);
      places := [[step]];
      var c := Entry(base + [step], Some(a), Some(b));
      assert [] + [c] == [c];
    } else {
      places := [];
      NoPlace(base, o, n, {step});
    }
  }

  lemma {:induction false} ItemsListed(base: Place, o: Json, n: Json, k: nat) returns (places: seq<Place>)
    requires o.Arr? && n.Arr? && KeysOnce(o) && KeysOnce(n) && k <= |o.items| && k <= |n.items|
    ensures Lists(FullItems(PlaceText(base), ListName(base), o.items, n.items, k), places, base, o, n,
                  ItemSteps(k, if |o.items| < |n.items| then |o.items| else |n.items|))
    decreases n, 1, |n.items| - k
  {
    var end := if |o.items| < |n.items| then |o.items| else |n.items|;
    if k == end {
      places := [];
      NoPlace(base, o, n, ItemSteps(k, end));
    } else {
      var rest := ItemsListed(base, o, n, k + 1);
      var first := ItemListed(base, o, n, k);
      BothLists(FullItem(AtIndex(PlaceText(base), k), ListName(base), o.items[k], n.items[k]), first, {Index(k)},
                FullItems(PlaceText(base), ListName(base), o.items, n.items, k + 1), rest, ItemSteps(k + 1, end),
                base, o, n);
      places := first + rest;
      assert {Index(k)} + ItemSteps(k + 1, end) == ItemSteps(k, end);
    }
  }

  lemma {:induction false} ArrayListed(base: Place, o: Json, n: Json) returns (places: seq<Place>)
    requires o.Arr? && n.Arr? && KeysOnce(o) && KeysOnce(n)
    ensures Lists(FullArray(PlaceText(base), ListName(base), o.items, n.items), places, base, o, n, AllSteps(o, n))
    decreases n, 2
  {
    var path, name, end := PlaceText(base), ListName(base), if |o.items| < |n.items| then |o.items| else |n.items|;
    var common := ItemsListed(base, o, n, 0);
    var rest;
    if |o.items| > |n.items| {
      rest := RemovedItemsListed(base, o, n, |n.items|);
    } else {
      rest := AddedItemsListed(base, o, n, |o.items|);
    }
    BothLists(FullItems(path, name, o.items, n.items, 0), common, ItemSteps(0, end),
              ReportRest(path, name, o.items, n.items, []), rest, ItemSteps(end, Longest(o, n)), base, o, n);
    places := common + rest;
    assert ItemSteps(0, end) + ItemSteps(end, Longest(o, n)) == ItemSteps(0, Longest(o, n));
  }

  // ---------------------------------------------------------------------------------
  // Results

  /** The changes are, in order and once each, the entries of all places where the two documents
      differ. */
  ghost predicate ListsDifferences(changes: seq<Change>, places: seq<Place>, o: Json, n: Json) {
    && |changes| == |places|
    && (forall i | 0 <= i < |places| ::
          Differs(o, n, places[i]) && changes[i] == Entry(places[i], ValueAt(o, places[i]), ValueAt(n, places[i])))
    && (forall i, j | 0 <= i < j < |places| :: Before(o, n, places[i], places[j]) && places[i] != places[j])
    && (forall p | Differs(o, n, p) :: p in places)
  }

  lemma {:induction false} FullReportListsDifferences(o: Json, n: Json) returns (places: seq<Place>)
    requires n.Obj? && KeysOnce(o) && KeysOnce(n)
    ensures ListsDifferences(FullObject("", o, n), places, o, n)
  {
    places := ObjectListed([], o, n);
    NoOtherSteps(o, n);
    forall i | 0 <= i < |places| ensures [] + places[i] == places[i] {
    }
    forall i, j | 0 <= i < j < |places| ensures places[i] != places[j] {
      NotBeforeItself(o, n, places[i]);
    }
  }

  lemma {:induction false} SizeOfDistinct(places: seq<Place>)
    requires forall i, j | 0 <= i < j < |places| :: places[i] != places[j]
    ensures |set p | p in places| == |places|
  {
    if places != [] {
      var rest, last := places[..|places| - 1], places[|places| - 1];
      SizeOfDistinct(rest);
      assert (set p | p in places) == (set p | p in rest) + {last};
    }
  }

  lemma {:induction false} SameDifferences(c1: seq<Change>, p1: seq<Place>, c2: seq<Change>, p2: seq<Place>,
                                           o: Json, n: Json)
    requires ListsDifferences(c1, p1, o, n) && ListsDifferences(c2, p2, o, n)
    ensures |c1| == |c2|
  {
    SizeOfDistinct(p1);
    SizeOfDistinct(p2);
    assert (set p | p in p1) == (set p | p in p2);
  }

  /** For any two documents the report lists their differences, all of them in order and once
      each, exactly when no array hides one behind its flag. */
  lemma {:induction false} ReportListsDifferencesExactlyWhen(o: Json, n: Json)
    requires n.Obj? && KeysOnce(o) && KeysOnce(n)
    ensures (exists places :: ListsDifferences(ReportObject("", o, n, []), places, o, n))
            <==> ObjectComplete(false, o, n)
  {
    var all := FullReportListsDifferences(o, n);
    ReportCompleteExactlyWhen(o, n);
    if places :| ListsDifferences(ReportObject("", o, n, []), places, o, n) {
      SameDifferences(ReportObject("", o, n, []), places, FullObject("", o, n), all, o, n);
    }
  }

  /** What the report lists is never wrong: each entry belongs to a place where the documents
      differ. */
  lemma {:induction false} ReportIsSound(o: Json, n: Json, i: nat) returns (place: Place)
    requires n.Obj? && KeysOnce(o) && KeysOnce(n) && i < |ReportObject("", o, n, [])|
    ensures Differs(o, n, place)
    ensures ReportObject("", o, n, [])[i] == Entry(place, ValueAt(o, place), ValueAt(n, place))
  {
    var places := FullReportListsDifferences(o, n);
    ReportCompleteExactlyWhen(o, n);
    var k := WithinMeansFrom(ReportObject("", o, n, []), FullObject("", o, n), i);
    place := places[k];
  }
}
