/** What an unchanged answer of the diff means. */
module JsonDiffMeaning {
  import opened JsonDiff

  // ---------------------------------------------------------------------------------
  // Documents as values

  /** Object keys are distinct and hold defined values, at every depth. */
  ghost predicate Proper(v: Json)
    decreases v, 0
  {
    match v
    case Undefined => false
    case Arr(items) => forall i | 0 <= i < |items| :: Proper(items[i])
    case Obj(fields) =>
      && (forall i, j | 0 <= i < j < |fields| :: fields[i].name != fields[j].name)
      && (forall i | 0 <= i < |fields| :: Proper(fields[i].value))
    case _ => true
  }

  lemma {:induction false} GetAt(fields: seq<Field>, i: nat)
    requires i < |fields| && !fields[i].value.Undefined?
    requires forall j, k | 0 <= j < k < |fields| :: fields[j].name != fields[k].name
    ensures Get(fields, fields[i].name) == fields[i].value
  {
    if i > 0 {
      assert fields[0].name != fields[i].name;
      GetAt(fields[1..], i - 1);
    }
  }

  /** A defined value comes from one of the fields. */
  lemma {:induction false} GetFrom(fields: seq<Field>, name: string) returns (i: nat)
    requires Has(fields, name)
    ensures i < |fields| && fields[i].name == name && fields[i].value == Get(fields, name)
  {
    if fields[0].name == name && !fields[0].value.Undefined? {
      i := 0;
    } else {
      var j := GetFrom(fields[1..], name);
      i := j + 1;
    }
  }

  // ---------------------------------------------------------------------------------
  // Equality up to the ignored metadata

  /** A document as an unordered value, without the ignored fields at any depth. */
  datatype Canon = Prim(v: Json) | List(items: seq<Canon>) | Record(fields: map<string, Canon>)

  function Erase(v: Json): Canon
    decreases v, 0
  {
    match v
    case Arr(items) => List(EraseItems(items))
    case Obj(fields) => Record(EraseFields(fields))
    case _ => Prim(v)
  }

  function EraseItems(items: seq<Json>): (r: seq<Canon>)
    ensures |r| == |items| && forall i | 0 <= i < |r| :: r[i] == Erase(items[i])
    decreases items, 0
  {
    seq(|items|, i requires 0 <= i < |items| => Erase(items[i]))
  }

  function EraseFields(fields: seq<Field>): map<string, Canon>
    decreases fields, 0
  {
    if fields == [] then map[]
    else
      var rest := EraseFields(fields[1..]);
      if Ignored(fields[0].name) then rest else rest[fields[0].name := Erase(fields[0].value)]
  }

  lemma {:induction false} ErasedFields(fields: seq<Field>)
    requires forall i, j | 0 <= i < j < |fields| :: fields[i].name != fields[j].name
    ensures forall i | 0 <= i < |fields| && !Ignored(fields[i].name) ::
              fields[i].name in EraseFields(fields) && EraseFields(fields)[fields[i].name] == Erase(fields[i].value)
    ensures forall name | name in EraseFields(fields) ::
              !Ignored(name) && exists i :: 0 <= i < |fields| && fields[i].name == name
  {
    if fields != [] {
      var rest := fields[1..];
      ErasedFields(rest);
      forall i | 0 <= i < |fields| && !Ignored(fields[i].name)
        ensures fields[i].name in EraseFields(fields) && EraseFields(fields)[fields[i].name] == Erase(fields[i].value)
      {
        if i > 0 {
          assert rest[i - 1] == fields[i] && fields[0].name != fields[i].name;
        }
      }
      forall name | name in EraseFields(fields)
        ensures !Ignored(name) && exists i :: 0 <= i < |fields| && fields[i].name == name
      {
        if name != fields[0].name || Ignored(fields[0].name) {
          assert name in EraseFields(rest);
          var i :| 0 <= i < |rest| && rest[i].name == name;
          assert fields[i + 1].name == name;
        } else {
          assert fields[0].name == name;
        }
      }
    }
  }

  lemma {:induction false} ErasedGet(fields: seq<Field>, name: string)
    requires Proper(Obj(fields)) && !Ignored(name)
    ensures Has(fields, name) <==> name in EraseFields(fields)
    ensures Has(fields, name) ==> EraseFields(fields)[name] == Erase(Get(fields, name)) && Proper(Get(fields, name))
  {
    ErasedFields(fields);
    if Has(fields, name) {
      var i := GetFrom(fields, name);
    } else if name in EraseFields(fields) {
      var i :| 0 <= i < |fields| && fields[i].name == name;
      assert Proper(fields[i].value);
      GetAt(fields, i);
    }
  }

  // ---------------------------------------------------------------------------------
  // What the diff confuses

  /** Places where two documents differ although the diff says they are the same: null over
      another falsy value, an object over something that is not one, and unequal falsy items. */
  ghost predicate ConfusedObject(o: Json, n: Json)
    requires o.Obj? && n.Obj?
    decreases n, 0
  {
    exists i | 0 <= i < |n.fields| && !Ignored(n.fields[i].name) && Has(o.fields, n.fields[i].name) ::
      ConfusedValue(Get(o.fields, n.fields[i].name), n.fields[i].value)
  }

  ghost predicate ConfusedValue(o: Json, n: Json)
    decreases n, 1
  {
    match n
    case Null => Falsy(o) && o != Null
    case Arr(items) => o.Arr? && ConfusedItems(o.items, items)
    case Obj(_) => if o.Obj? then ConfusedObject(o, n) else !Falsy(o) && SameObject(o, n)
    case _ => false
  }

  ghost predicate ConfusedItems(os: seq<Json>, ns: seq<Json>)
    decreases ns, 0
  {
    exists i | 0 <= i < |ns| && i < |os| :: ConfusedItem(os[i], ns[i])
  }

  ghost predicate ConfusedItem(o: Json, n: Json)
    decreases n, 1
  {
    if o.Obj? then n.Obj? && ConfusedObject(o, n)
    else if o.Arr? then n.Arr? && ConfusedItems(o.items, n.items)
    else Falsy(o) && Falsy(n) && o != n
  }

  lemma {:induction false} ConfusionOfValues(o: Json, n: Json)
    requires Proper(o) && Proper(n) && SameValue(o, n)
    ensures Erase(o) == Erase(n) <==> !ConfusedValue(o, n)
    decreases n, 2
  {
    match n
    case Arr(items) => ConfusionOfArrays(o.items, items);
    case Obj(_) =>
      if o.Obj? {
        UnchangedMeansEqualUnlessConfused(o, n);
      }
    case _ =>
  }

  lemma {:induction false} ConfusionOfArrays(os: seq<Json>, ns: seq<Json>)
    requires Proper(Arr(os)) && Proper(Arr(ns)) && SameArray(os, ns)
    ensures EraseItems(os) == EraseItems(ns) <==> !ConfusedItems(os, ns)
    decreases ns, 1
  {
    forall i | 0 <= i < |ns| ensures EraseItems(os)[i] == EraseItems(ns)[i] <==> !ConfusedItem(os[i], ns[i]) {
      ConfusionOfItems(os[i], ns[i]);
    }
  }

  lemma {:induction false} ConfusionOfItems(o: Json, n: Json)
    requires Proper(o) && Proper(n) && SameItem(o, n)
    ensures Erase(o) == Erase(n) <==> !ConfusedItem(o, n)
    decreases n, 2
  {
    if o.Obj? {
      UnchangedMeansEqualUnlessConfused(o, n);
    } else if o.Arr? {
      ConfusionOfArrays(o.items, n.items);
    }
  }

  lemma {:induction false} ConfusionOfField(o: Json, n: Json, i: nat)
    requires o.Obj? && n.Obj? && Proper(o) && Proper(n) && SameObject(o, n)
    requires i < |n.fields| && !Ignored(n.fields[i].name)
    ensures var f := n.fields[i];
      && Has(o.fields, f.name) && f.name in EraseFields(o.fields) && f.name in EraseFields(n.fields)
      && (EraseFields(o.fields)[f.name] == EraseFields(n.fields)[f.name]
          <==> !ConfusedValue(Get(o.fields, f.name), f.value))
    decreases n, 0
  {
    var f := n.fields[i];
    assert Proper(f.value) && SameField(Properties(o), f);
    ErasedGet(o.fields, f.name);
    ErasedFields(n.fields);
    ConfusionOfValues(Get(o.fields, f.name), f.value);
  }

  lemma {:induction false} UnchangedKeys(o: Json, n: Json, name: string)
    requires o.Obj? && n.Obj? && Proper(o) && Proper(n) && SameObject(o, n)
    ensures name in EraseFields(o.fields) <==> name in EraseFields(n.fields)
  {
    ErasedFields(o.fields);
    ErasedFields(n.fields);
    if name in EraseFields(o.fields) {
      var i :| 0 <= i < |o.fields| && o.fields[i].name == name;
      assert KeptField(Properties(o)[i], n.fields) && Proper(o.fields[i].value);
      ErasedGet(n.fields, name);
    }
    if name in EraseFields(n.fields) {
      var i :| 0 <= i < |n.fields| && n.fields[i].name == name;
      assert SameField(Properties(o), n.fields[i]) && Proper(n.fields[i].value);
      ErasedGet(o.fields, name);
    }
  }

  /** For all documents: what the diff calls unchanged is equal up to the ignored fields exactly
      when nothing in it is confused. */
  lemma {:induction false} UnchangedMeansEqualUnlessConfused(o: Json, n: Json)
    requires o.Obj? && n.Obj? && Proper(o) && Proper(n) && SameObject(o, n)
    ensures Erase(o) == Erase(n) <==> !ConfusedObject(o, n)
    decreases n, 1
  {
    var eo, en := EraseFields(o.fields), EraseFields(n.fields);
    forall name ensures name in eo <==> name in en {
      UnchangedKeys(o, n, name);
    }
    forall i | 0 <= i < |n.fields| && !Ignored(n.fields[i].name)
      ensures var f := n.fields[i];
        && Has(o.fields, f.name) && f.name in eo && f.name in en
        && (eo[f.name] == en[f.name] <==> !ConfusedValue(Get(o.fields, f.name), f.value))
    {
      ConfusionOfField(o, n, i);
    }
    if !ConfusedObject(o, n) {
      ErasedFields(n.fields);
      forall name | name in en ensures eo[name] == en[name] {
        var i :| 0 <= i < |n.fields| && n.fields[i].name == name;
        assert !ConfusedValue(Get(o.fields, name), n.fields[i].value);
      }
      assert eo == en;
    }
  }

  // ---------------------------------------------------------------------------------
  // What the diff calls changed although it is equal

  /** No property that the diff looks at holds the not-a-number value; inside arrays it may occur. */
  ghost predicate NoNaNProperty(v: Json)
    decreases v, 0
  {
    match v
    case Arr(items) => forall i | 0 <= i < |items| :: NoNaNProperty(items[i])
    case Obj(fields) =>
      forall i | 0 <= i < |fields| ::
        Ignored(fields[i].name) || (!fields[i].value.NaN? && NoNaNProperty(fields[i].value))
    case _ => true
  }

  lemma {:induction false} EqualValues(o: Json, n: Json)
    requires Proper(o) && Proper(n) && Erase(o) == Erase(n)
    ensures SameValue(o, n) <==> !n.NaN? && NoNaNProperty(n)
    decreases n, 2
  {
    match n
    case Arr(items) => EqualArrays(o.items, items);
    case Obj(_) => EqualIsUnchangedUnlessNaN(o, n);
    case _ =>
  }

  lemma {:induction false} EqualArrays(os: seq<Json>, ns: seq<Json>)
    requires Proper(Arr(os)) && Proper(Arr(ns)) && EraseItems(os) == EraseItems(ns)
    ensures SameArray(os, ns) <==> forall i | 0 <= i < |ns| :: NoNaNProperty(ns[i])
    decreases ns, 1
  {
    assert |os| == |EraseItems(os)| == |ns|;
    forall i | 0 <= i < |ns| ensures SameItem(os[i], ns[i]) <==> NoNaNProperty(ns[i]) {
      assert Erase(os[i]) == EraseItems(os)[i] == EraseItems(ns)[i] == Erase(ns[i]);
      if ns[i].Obj? {
        EqualIsUnchangedUnlessNaN(os[i], ns[i]);
      } else if ns[i].Arr? {
        EqualArrays(os[i].items, ns[i].items);
      }
    }
  }

  /** Documents that are equal up to the ignored fields are unchanged exactly when no compared
      property holds the not-a-number value. */
  lemma {:induction false} EqualIsUnchangedUnlessNaN(o: Json, n: Json)
    requires o.Obj? && n.Obj? && Proper(o) && Proper(n) && Erase(o) == Erase(n)
    ensures SameObject(o, n) <==> NoNaNProperty(n)
    decreases n, 1
  {
    forall i | 0 <= i < |n.fields|
      ensures SameField(Properties(o), n.fields[i])
              <==> Ignored(n.fields[i].name) || (!n.fields[i].value.NaN? && NoNaNProperty(n.fields[i].value))
    {
      var f := n.fields[i];
      assert Proper(f.value);
      if !Ignored(f.name) {
        ErasedFields(n.fields);
        ErasedGet(o.fields, f.name);
        EqualValues(Get(o.fields, f.name), f.value);
      }
    }
    forall i | 0 <= i < |Properties(o)| ensures KeptField(Properties(o)[i], n.fields) {
      var f := o.fields[i];
      assert Proper(f.value);
      if !Ignored(f.name) {
        ErasedFields(o.fields);
        ErasedGet(n.fields, f.name);
      }
    }
  }

  /** A document compared with itself. */
  lemma {:induction false} SelfObject(v: Json)
    requires v.Obj? && Proper(v)
    ensures SameObject(v, v) <==> NoNaNProperty(v)
  {
    EqualIsUnchangedUnlessNaN(v, v);
  }

  // ---------------------------------------------------------------------------------
  // Documents on which unchanged simply means equal

  /** No value inside is falsy. */
  ghost predicate NoFalsy(v: Json)
    decreases v, 0
  {
    match v
    case Arr(items) => forall i | 0 <= i < |items| :: NoFalsy(items[i])
    case Obj(fields) => forall i | 0 <= i < |fields| :: NoFalsy(fields[i].value)
    case _ => !Falsy(v)
  }

  /** Where the new document has an object in a property that the diff looks at, the old one
      has an object, or no such property. */
  ghost predicate ObjectsWereObjects(o: Json, n: Json)
    decreases n, 0
  {
    match n
    case Obj(fields) =>
      o.Obj? ==>
        forall i | 0 <= i < |fields| && !Ignored(fields[i].name) && Has(o.fields, fields[i].name) ::
          var before := Get(o.fields, fields[i].name);
          (fields[i].value.Obj? ==> before.Obj?) && ObjectsWereObjects(before, fields[i].value)
    case Arr(items) =>
      o.Arr? ==> forall i | 0 <= i < |items| && i < |o.items| :: ObjectsWereObjects(o.items[i], items[i])
    case _ => true
  }

  ghost predicate Clean(v: Json) {
    Proper(v) && NoFalsy(v)
  }

  lemma {:induction false} CleanIsNotConfused(o: Json, n: Json)
    requires Clean(o) && Clean(n) && ObjectsWereObjects(o, n)
    ensures o.Obj? && n.Obj? ==> !ConfusedObject(o, n)
    ensures o.Arr? && n.Arr? ==> !ConfusedItems(o.items, n.items)
    decreases n
  {
    if o.Obj? && n.Obj? {
      forall i | 0 <= i < |n.fields| && !Ignored(n.fields[i].name) && Has(o.fields, n.fields[i].name)
        ensures !ConfusedValue(Get(o.fields, n.fields[i].name), n.fields[i].value)
      {
        var j := GetFrom(o.fields, n.fields[i].name);
        var before, after := o.fields[j].value, n.fields[i].value;
        CleanIsNotConfused(before, after);
      }
    } else if o.Arr? && n.Arr? {
      forall i | 0 <= i < |n.items| && i < |o.items| ensures !ConfusedItem(o.items[i], n.items[i]) {
        CleanIsNotConfused(o.items[i], n.items[i]);
      }
    }
  }

  lemma {:induction false} CleanHasNoNaN(v: Json)
    requires NoFalsy(v)
    ensures !v.NaN? && NoNaNProperty(v)
    decreases v
  {
    match v
    case Arr(items) =>
      forall i | 0 <= i < |items| ensures NoNaNProperty(items[i]) {
        CleanHasNoNaN(items[i]);
      }
    case Obj(fields) =>
      forall i | 0 <= i < |fields| ensures !fields[i].value.NaN? && NoNaNProperty(fields[i].value) {
        CleanHasNoNaN(fields[i].value);
      }
    case _ =>
  }

  /** On documents without falsy values whose objects were objects before, the diff reports
      no change exactly when the two are equal after erasing the ignored fields. */
  lemma {:induction false} ObjectMeaning(o: Json, n: Json)
    requires o.Obj? && n.Obj? && Clean(o) && Clean(n) && ObjectsWereObjects(o, n)
    ensures SameObject(o, n) <==> Erase(o) == Erase(n)
  {
    CleanIsNotConfused(o, n);
    CleanHasNoNaN(n);
    if SameObject(o, n) {
      UnchangedMeansEqualUnlessConfused(o, n);
    }
    if Erase(o) == Erase(n) {
      EqualIsUnchangedUnlessNaN(o, n);
    }
  }

  // ---------------------------------------------------------------------------------
  // How the confusions look

  /** Zero turned into null counts as unchanged, null turned into zero does not. */
  lemma {:induction false} ZeroBecomesNull(name: string)
    requires !Ignored(name)
    ensures SameObject(Obj([Field(name, Number(0.0))]), Obj([Field(name, Null)]))
    ensures !SameObject(Obj([Field(name, Null)]), Obj([Field(name, Number(0.0))]))
  {
    var zero, null_ := Obj([Field(name, Number(0.0))]), Obj([Field(name, Null)]);
    assert Get(zero.fields, name) == Number(0.0) && Get(null_.fields, name) == Null;
    assert !SameField(null_.fields, zero.fields[0]);
  }

  /** Whatever stood in the place of an object counts as the object of its own properties: an
      array by its indices, a text by its characters, and a number or truth value by nothing, so
      that any object with only ignored fields can replace it. */
  lemma {:induction false} CountsAsItsProperties(o: Json, n: Json)
    requires n.Obj?
    ensures SameObject(o, n) <==> SameObject(Obj(Properties(o)), n)
    ensures (o.Number? || o.Bool?) && Proper(n) ==>
              (SameObject(o, n) <==> forall i | 0 <= i < |n.fields| :: Ignored(n.fields[i].name))
  {
    assert Properties(Obj(Properties(o))) == Properties(o);
    if (o.Number? || o.Bool?) && Proper(n) {
      forall i | 0 <= i < |n.fields| ensures SameField(Properties(o), n.fields[i]) <==> Ignored(n.fields[i].name) {
        assert Proper(n.fields[i].value);
      }
    }
  }
}
