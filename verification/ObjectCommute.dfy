/** When two typed paths can be applied in either order. */
module ObjectCommute {
  import opened Decimals
  import opened ObjectMapping
  import opened ObjectPaths
  import opened ObjectReach

  ghost function Then(lib: Library, o: Outcome, p: seq<string>, type_: TypeName): Outcome {
    if o.Thrown? then Thrown else Touch(lib, o.value, p, type_)
  }

  ghost function ThenEach(lib: Library, o: Outcome, kind: Reach, p: seq<string>, type_: TypeName): Outcome
    requires !kind.Property?
  {
    if o.Thrown? then Thrown else TouchEach(lib, o.value, kind, p, type_)
  }

  /** The first segments that differ name two properties; collections may come before and after. */
  predicate Diverge(p: seq<string>, q: seq<string>)
    decreases |p|
  {
    && p != [] && q != []
    && (if p[0] == q[0] then Diverge(p[1..], q[1..]) else Kind(p[0]).Property? && Kind(q[0]).Property?)
  }

  lemma {:induction false} PutsCommute(v: Value, field: string, child: Value, other: string, otherChild: Value)
    requires HasOwn(v, field) && HasOwn(v, other)
    ensures HasOwn(Put(v, field, child), other) && HasOwn(Put(v, other, otherChild), field)
    ensures field != other ==>
      Put(Put(v, field, child), other, otherChild) == Put(Put(v, other, otherChild), field, child)
    ensures field == other ==> Put(Put(v, field, child), other, otherChild) == Put(v, other, otherChild)
  {
    if v.Arr? {
      var i, j := ValueOf(field), ValueOf(other);
      assert i != j ==> v.items[i := child][j := otherChild] == v.items[j := otherChild][i := child];
      assert i == j ==> v.items[i := child][j := otherChild] == v.items[j := otherChild];
    } else {
      assert field != other ==>
        v.fields[field := child][other := otherChild] == v.fields[other := otherChild][field := child];
      assert field == other ==> v.fields[field := child][other := otherChild] == v.fields[other := otherChild];
    }
  }

  lemma {:induction false} MissingStaysMissing(lib: Library, v: Value, p: seq<string>, a: TypeName, q: seq<string>,
                                               b: TypeName)
    requires p != [] && q != [] && Kind(p[0]).Property? && Kind(q[0]).Property?
    requires !Falsy(v) && !HidesLookup(v) && !HasOwn(v, p[0])
    ensures Touch(lib, v, p, a) == Got(v)
    ensures Then(lib, Touch(lib, v, q, b), p, a) == Touch(lib, v, q, b)
  {
    if HasOwn(v, q[0]) {
      var child := Touch(lib, Own(v, q[0]), q[1..], b);
      if child.Got? {
        OwnAfterPut(v, q[0], child.value, p[0]);
      }
    }
  }

  lemma {:induction false} DifferentFieldsCommute(lib: Library, v: Value, p: seq<string>, a: TypeName, q: seq<string>,
                                                  b: TypeName)
    requires p != [] && q != [] && Kind(p[0]).Property? && Kind(q[0]).Property?
    requires !HidesLookup(v) && p[0] != q[0] && HasOwn(v, p[0]) && HasOwn(v, q[0])
    ensures Then(lib, Touch(lib, v, p, a), q, b) == Then(lib, Touch(lib, v, q, b), p, a)
  {
    var f, g := p[0], q[0];
    var x, y := Touch(lib, Own(v, f), p[1..], a), Touch(lib, Own(v, g), q[1..], b);
    if x.Got? {
      OwnAfterPut(v, f, x.value, g);
    }
    if y.Got? {
      OwnAfterPut(v, g, y.value, f);
    }
    if x.Got? && y.Got? {
      PutsCommute(v, f, x.value, g, y.value);
    }
  }

  /** Two paths through the same property are two paths in its value. */
  lemma {:induction false} PropertyTwice(lib: Library, v: Value, p: seq<string>, a: TypeName, q: seq<string>,
                                         b: TypeName)
    requires p != [] && q != [] && p[0] == q[0] && Kind(p[0]).Property?
    requires !HidesLookup(v) && HasOwn(v, p[0])
    ensures Then(lib, Touch(lib, v, p, a), q, b)
         == PutBack(v, p[0], Then(lib, Touch(lib, Own(v, p[0]), p[1..], a), q[1..], b))
  {
    var f := p[0];
    var x := Touch(lib, Own(v, f), p[1..], a);
    if x.Got? {
      OwnAfterPut(v, f, x.value, f);
      var y := Touch(lib, x.value, q[1..], b);
      if y.Got? {
        PutsCommute(v, f, x.value, f, y.value);
      }
    }
  }

  /** Two paths through the same collection in a property. */
  lemma {:induction false} CollectionTwice(lib: Library, v: Value, p: seq<string>, a: TypeName, q: seq<string>,
                                           b: TypeName)
    requires p != [] && q != [] && p[0] == q[0] && !Kind(p[0]).Property?
    requires !HidesLookup(v) && HasOwn(v, Name(p[0]))
    ensures var name, kind := Name(p[0]), Kind(p[0]);
      Then(lib, Touch(lib, v, p, a), q, b)
      == PutBack(v, name, ThenEach(lib, TouchEach(lib, Own(v, name), kind, p[1..], a), kind, q[1..], b))
  {
    var name, kind := Name(p[0]), Kind(p[0]);
    var x := TouchEach(lib, Own(v, name), kind, p[1..], a);
    if x.Got? {
      OwnAfterPut(v, name, x.value, name);
      var y := TouchEach(lib, x.value, kind, q[1..], b);
      if y.Got? {
        PutsCommute(v, name, x.value, name, y.value);
      }
    }
  }

  /** Touching what a value holds changes neither its kind nor its keys. */
  lemma {:induction false} TouchedStaysCollection(lib: Library, u: Value, kind: Reach, p: seq<string>, a: TypeName,
                                                  name: string)
    requires !kind.Property? && p != [] && TouchEach(lib, u, kind, p, a).Got? && !Falsy(u)
    ensures var u' := TouchEach(lib, u, kind, p, a).value;
      !Falsy(u') && HidesLookup(u') == HidesLookup(u) && HasOwn(u', name) == HasOwn(u, name)
  {
  }

  ghost predicate AllGot(lib: Library, items: seq<Value>, p: seq<string>, a: TypeName) {
    forall i | 0 <= i < |items| :: Touch(lib, items[i], p, a).Got?
  }

  ghost function Values(lib: Library, items: seq<Value>, p: seq<string>, a: TypeName): (values: seq<Value>)
    requires AllGot(lib, items, p, a)
    ensures |values| == |items|
  {
    seq(|items|, i requires 0 <= i < |items| => Touch(lib, items[i], p, a).value)
  }

  lemma {:induction false} ItemsCommute(lib: Library, items: seq<Value>, p: seq<string>, a: TypeName, q: seq<string>,
                                        b: TypeName)
    requires forall i | 0 <= i < |items| ::
               Then(lib, Touch(lib, items[i], p, a), q, b) == Then(lib, Touch(lib, items[i], q, b), p, a)
    requires AllGot(lib, items, p, a) && AllGot(lib, Values(lib, items, p, a), q, b)
    ensures AllGot(lib, items, q, b) && AllGot(lib, Values(lib, items, q, b), p, a)
    ensures Values(lib, Values(lib, items, p, a), q, b) == Values(lib, Values(lib, items, q, b), p, a)
  {
    var x := Values(lib, items, p, a);
    forall i | 0 <= i < |items|
      ensures Touch(lib, items[i], q, b).Got?
      ensures Then(lib, Touch(lib, items[i], q, b), p, a) == Touch(lib, x[i], q, b)
    {
      assert Touch(lib, x[i], q, b).Got?;
    }
  }

  lemma {:induction false} TouchesCommute(lib: Library, v: Value, p: seq<string>, a: TypeName, q: seq<string>,
                                          b: TypeName)
    requires Diverge(p, q)
    ensures Then(lib, Touch(lib, v, p, a), q, b) == Then(lib, Touch(lib, v, q, b), p, a)
    decreases |p|, 0
  {
    if !Falsy(v) && !HidesLookup(v) {
      if p[0] != q[0] {
        if !HasOwn(v, p[0]) {
          MissingStaysMissing(lib, v, p, a, q, b);
        } else if !HasOwn(v, q[0]) {
          MissingStaysMissing(lib, v, q, b, p, a);
        } else {
          DifferentFieldsCommute(lib, v, p, a, q, b);
        }
      } else if Kind(p[0]).Property? {
        if HasOwn(v, p[0]) {
          TouchesCommute(lib, Own(v, p[0]), p[1..], a, q[1..], b);
          PropertyTwice(lib, v, p, a, q, b);
          PropertyTwice(lib, v, q, b, p, a);
        }
      } else {
        CollectionsCommute(lib, v, p, a, q, b);
      }
    }
  }

  lemma {:induction false} CollectionsCommute(lib: Library, v: Value, p: seq<string>, a: TypeName, q: seq<string>,
                                              b: TypeName)
    requires Diverge(p, q) && p[0] == q[0] && !Kind(p[0]).Property? && !Falsy(v) && !HidesLookup(v)
    ensures Then(lib, Touch(lib, v, p, a), q, b) == Then(lib, Touch(lib, v, q, b), p, a)
    decreases |p| - 1, 4
  {
    var name, kind := Name(p[0]), Kind(p[0]);
    if HasOwn(v, name) {
      EachCommutes(lib, Own(v, name), kind, p[1..], a, q[1..], b);
      CollectionTwice(lib, v, p, a, q, b);
      CollectionTwice(lib, v, q, b, p, a);
    } else {
      EachCommutes(lib, v, kind, p[1..], a, q[1..], b);
      var x, y := TouchEach(lib, v, kind, p[1..], a), TouchEach(lib, v, kind, q[1..], b);
      if x.Got? {
        TouchedStaysCollection(lib, v, kind, p[1..], a, name);
      }
      if y.Got? {
        TouchedStaysCollection(lib, v, kind, q[1..], b, name);
      }
    }
  }

  lemma {:induction false} EachCommutes(lib: Library, u: Value, kind: Reach, p: seq<string>, a: TypeName,
                                        q: seq<string>, b: TypeName)
    requires !kind.Property? && Diverge(p, q)
    ensures ThenEach(lib, TouchEach(lib, u, kind, p, a), kind, q, b)
         == ThenEach(lib, TouchEach(lib, u, kind, q, b), kind, p, a)
    decreases |p|, 3
  {
    match u
    case Arr(items) => ArrayCommutes(lib, items, kind, p, a, q, b);
    case SetOf(members) =>
      if !kind.Items? {
        SetCommutes(lib, members, kind, p, a, q, b);
      }
    case Obj(fields) =>
      if kind.Members? && ListLength(lib, fields).Some? {
        FieldsCommute(lib, u, p, a, q, b);
      }
    case _ =>
  }

  lemma {:induction false} EachOfArray(lib: Library, items: seq<Value>, kind: Reach, p: seq<string>, a: TypeName)
    requires !kind.Property? && p != []
    ensures TouchEach(lib, Arr(items), kind, p, a)
         == if AllGot(lib, items, p, a) then Got(Arr(Values(lib, items, p, a))) else Thrown
  {
  }

  lemma {:induction false} EachOfSet(lib: Library, items: seq<Value>, kind: Reach, p: seq<string>, a: TypeName)
    requires !kind.Property? && !kind.Items? && p != []
    ensures TouchEach(lib, SetOf(items), kind, p, a)
         == if AllGot(lib, items, p, a) then Got(SetOf(Values(lib, items, p, a))) else Thrown
  {
  }

  lemma {:induction false} ArrayCommutes(lib: Library, items: seq<Value>, kind: Reach, p: seq<string>, a: TypeName,
                                         q: seq<string>, b: TypeName)
    requires !kind.Property? && Diverge(p, q)
    ensures ThenEach(lib, TouchEach(lib, Arr(items), kind, p, a), kind, q, b)
         == ThenEach(lib, TouchEach(lib, Arr(items), kind, q, b), kind, p, a)
    decreases |p|, 2
  {
    ListCommutes(lib, items, p, a, q, b);
    EachOfArray(lib, items, kind, p, a);
    EachOfArray(lib, items, kind, q, b);
    if AllGot(lib, items, p, a) {
      EachOfArray(lib, Values(lib, items, p, a), kind, q, b);
    }
    if AllGot(lib, items, q, b) {
      EachOfArray(lib, Values(lib, items, q, b), kind, p, a);
    }
  }

  lemma {:induction false} SetCommutes(lib: Library, items: seq<Value>, kind: Reach, p: seq<string>, a: TypeName,
                                       q: seq<string>, b: TypeName)
    requires !kind.Property? && !kind.Items? && Diverge(p, q)
    ensures ThenEach(lib, TouchEach(lib, SetOf(items), kind, p, a), kind, q, b)
         == ThenEach(lib, TouchEach(lib, SetOf(items), kind, q, b), kind, p, a)
    decreases |p|, 2
  {
    ListCommutes(lib, items, p, a, q, b);
    EachOfSet(lib, items, kind, p, a);
    EachOfSet(lib, items, kind, q, b);
    if AllGot(lib, items, p, a) {
      EachOfSet(lib, Values(lib, items, p, a), kind, q, b);
    }
    if AllGot(lib, items, q, b) {
      EachOfSet(lib, Values(lib, items, q, b), kind, p, a);
    }
  }

  lemma {:induction false} ListCommutes(lib: Library, items: seq<Value>, p: seq<string>, a: TypeName, q: seq<string>,
                                        b: TypeName)
    requires Diverge(p, q)
    ensures (AllGot(lib, items, p, a) && AllGot(lib, Values(lib, items, p, a), q, b))
            <==> (AllGot(lib, items, q, b) && AllGot(lib, Values(lib, items, q, b), p, a))
    ensures AllGot(lib, items, p, a) && AllGot(lib, Values(lib, items, p, a), q, b) ==>
              AllGot(lib, items, q, b) && AllGot(lib, Values(lib, items, q, b), p, a)
              && Values(lib, Values(lib, items, p, a), q, b) == Values(lib, Values(lib, items, q, b), p, a)
    decreases |p|, 1
  {
    forall i | 0 <= i < |items|
      ensures Then(lib, Touch(lib, items[i], p, a), q, b) == Then(lib, Touch(lib, items[i], q, b), p, a)
    {
      TouchesCommute(lib, items[i], p, a, q, b);
    }
    if AllGot(lib, items, p, a) && AllGot(lib, Values(lib, items, p, a), q, b) {
      ItemsCommute(lib, items, p, a, q, b);
    }
    if AllGot(lib, items, q, b) && AllGot(lib, Values(lib, items, q, b), p, a) {
      ItemsCommute(lib, items, q, b, p, a);
    }
  }

  /** The fields of an object that count as the items of a list. */
  ghost predicate FieldsGot(lib: Library, fields: map<string, Value>, n: nat, p: seq<string>, a: TypeName) {
    forall k | k in fields && IsIndex(k, n) :: Touch(lib, fields[k], p, a).Got?
  }

  ghost function FieldValues(lib: Library, fields: map<string, Value>, n: nat, p: seq<string>, a: TypeName)
      : (values: map<string, Value>)
    requires FieldsGot(lib, fields, n, p, a)
    ensures values.Keys == fields.Keys
    ensures ListLength(lib, values) == ListLength(lib, fields)
  {
    assert !IsDigit("length"[0]);
    map k | k in fields :: if IsIndex(k, n) then Touch(lib, fields[k], p, a).value else fields[k]
  }

  lemma {:induction false} ListedFieldsCommute(lib: Library, fields: map<string, Value>, n: nat, p: seq<string>,
                                               a: TypeName, q: seq<string>, b: TypeName)
    requires forall k | k in fields ::
               Then(lib, Touch(lib, fields[k], p, a), q, b) == Then(lib, Touch(lib, fields[k], q, b), p, a)
    requires FieldsGot(lib, fields, n, p, a) && FieldsGot(lib, FieldValues(lib, fields, n, p, a), n, q, b)
    ensures FieldsGot(lib, fields, n, q, b) && FieldsGot(lib, FieldValues(lib, fields, n, q, b), n, p, a)
    ensures FieldValues(lib, FieldValues(lib, fields, n, p, a), n, q, b)
         == FieldValues(lib, FieldValues(lib, fields, n, q, b), n, p, a)
  {
    var x := FieldValues(lib, fields, n, p, a);
    forall k | k in fields && IsIndex(k, n)
      ensures Touch(lib, fields[k], q, b).Got?
      ensures Then(lib, Touch(lib, fields[k], q, b), p, a) == Touch(lib, x[k], q, b)
    {
      assert Touch(lib, x[k], q, b).Got?;
    }
  }

  lemma {:induction false} EachOfFields(lib: Library, u: Value, p: seq<string>, a: TypeName)
    requires u.Obj? && ListLength(lib, u.fields).Some? && p != []
    ensures var n := ListLength(lib, u.fields).value;
      TouchEach(lib, u, Members, p, a)
      == if FieldsGot(lib, u.fields, n, p, a) then Got(Obj(FieldValues(lib, u.fields, n, p, a))) else Thrown
  {
  }

  lemma {:induction false} FieldsCommute(lib: Library, u: Value, p: seq<string>, a: TypeName, q: seq<string>,
                                         b: TypeName)
    requires u.Obj? && ListLength(lib, u.fields).Some? && Diverge(p, q)
    ensures ThenEach(lib, TouchEach(lib, u, Members, p, a), Members, q, b)
         == ThenEach(lib, TouchEach(lib, u, Members, q, b), Members, p, a)
    decreases |p|, 1
  {
    var fields, n := u.fields, ListLength(lib, u.fields).value;
    forall k | k in fields
      ensures Then(lib, Touch(lib, fields[k], p, a), q, b) == Then(lib, Touch(lib, fields[k], q, b), p, a)
    {
      TouchesCommute(lib, fields[k], p, a, q, b);
    }
    EachOfFields(lib, u, p, a);
    EachOfFields(lib, u, q, b);
    if FieldsGot(lib, fields, n, p, a) {
      EachOfFields(lib, Obj(FieldValues(lib, fields, n, p, a)), q, b);
      if FieldsGot(lib, FieldValues(lib, fields, n, p, a), n, q, b) {
        ListedFieldsCommute(lib, fields, n, p, a, q, b);
      }
    }
    if FieldsGot(lib, fields, n, q, b) {
      EachOfFields(lib, Obj(FieldValues(lib, fields, n, q, b)), p, a);
      if FieldsGot(lib, FieldValues(lib, fields, n, q, b), n, p, a) {
        ListedFieldsCommute(lib, fields, n, q, b, p, a);
      }
    }
  }

  // ---------------------------------------------------------------------------------
  // Paths that collide

  lemma {:induction false} AllItemsOfOne(lib: Library, x: Value, type_: TypeName)
    requires Retype(lib, x, type_).Got?
    ensures Touch(lib, Arr([x]), ["[]"], type_) == Got(Arr([Retype(lib, x, type_).value]))
  {
    var v, segments := Arr([x]), ["[]"];
    assert segments[1..] == [];
    assert Kind("[]").Items? && Name("[]") == "";
    assert !HasOwn(v, "");
    assert Touch(lib, v, segments, type_) == TouchEach(lib, v, Items, [], type_);
    assert Touch(lib, v.items[0], [], type_).Got?;
    assert TouchEach(lib, v, Items, [], type_).value.items == [Retype(lib, x, type_).value];
  }

  lemma {:induction false} FirstItem(lib: Library, x: Value, rest: seq<string>, type_: TypeName)
    requires Touch(lib, x, rest, type_).Got?
    ensures Touch(lib, Arr([x]), ["0"] + rest, type_) == Got(Arr([Touch(lib, x, rest, type_).value]))
  {
    var v, segments := Arr([x]), ["0"] + rest;
    assert segments[0] == "0" && segments[1..] == rest;
    assert Kind("0").Property? && Name("0") == "0";
    assert Decimal(0) == "0" && ValueOf("0") == 0;
    assert HasOwn(v, "0") && Own(v, "0") == x;
    assert [x][0 := Touch(lib, x, rest, type_).value] == [Touch(lib, x, rest, type_).value];
  }

  /** With collection marks paths may collide although neither contains the other: all items of a
      list become sets, and the first item of its first item one as well. */
  lemma {:induction false} MarksMayCollide(lib: Library, x: Value)
    requires x.Arr?
    ensures var v, p, q := Arr([Arr([x])]), ["[]"], ["0", "0"];
      && !(p <= q) && !(q <= p)
      && Then(lib, Touch(lib, v, p, SetType), q, SetType) != Then(lib, Touch(lib, v, q, SetType), p, SetType)
  {
    var v, p, q := Arr([Arr([x])]), ["[]"], ["0"] + (["0"] + []);
    assert q == ["0", "0"];
    var set_ := Retype(lib, x, SetType).value;
    FirstItem(lib, x, [], SetType);
    FirstItem(lib, Arr([x]), ["0"] + [], SetType);
    var later := SetOf(Distinct([set_]));
    AllItemsOfOne(lib, Arr([set_]), SetType);
    assert Then(lib, Touch(lib, v, q, SetType), p, SetType) == Got(Arr([later]));
    var sooner := SetOf(Distinct([x]));
    AllItemsOfOne(lib, Arr([x]), SetType);
    SetHasNoProperties(lib, sooner, ["0"] + [], SetType);
    FirstItem(lib, sooner, ["0"] + [], SetType);
    assert Then(lib, Touch(lib, v, p, SetType), q, SetType) == Got(Arr([sooner]));
    OneMember(x);
    OneMember(set_);
  }

  lemma {:induction false} OneMember(x: Value)
    ensures Distinct([x]) == [x]
  {
    assert [x][..0] == [];
  }

  lemma {:induction false} SetHasNoProperties(lib: Library, v: Value, segments: seq<string>, type_: TypeName)
    requires v.SetOf? && segments == ["0"]
    ensures Touch(lib, v, segments, type_) == Got(v)
  {
    assert Kind("0").Property?;
  }
}
