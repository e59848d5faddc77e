/** Applying the recorded paths to the written literal, in any order, restores the tree. */
module ObjectMappingRoundTrip {
  import opened Decimals
  import opened ObjectMapping
  import opened ObjectPaths
  import opened ObjectReach

  /** Where the dates are that the writer records, as segments instead of joined text. */
  function Spots(v: Value, skip: bool): set<Address> {
    match v
    case Date(_) => if skip then {} else {[]}
    case Arr(items) =>
      set i, p | 0 <= i < |items| && p in Spots(items[i], false) :: [Decimal(i)] + p
    case Obj(fields) =>
      set k, p | k in fields && p in Spots(fields[k], InnerSkip(skip, k)) :: [k] + p
    case _ => {}
  }

  ghost predicate Enumerates<T(!new)>(s: seq<T>, all: set<T>) {
    (forall x :: x in s <==> x in all) && (forall i, j | 0 <= i < j < |s| :: s[i] != s[j])
  }

  function Dates(paths: seq<string>): (types: seq<Typed>)
    ensures |types| == |paths|
  {
    seq(|paths|, i requires 0 <= i < |paths| => Typed(paths[i], DateType))
  }

  // ---------------------------------------------------------------------------------
  // Trees that are written as what they are

  predicate PosesAsBuiltIn(v: Value) {
    Poses(v, "Date") || Poses(v, "Set") || Poses(v, "Map")
  }

  /** Somewhere a plain object has a constructor property that names a built-in type, or a key that
      sets the prototype. */
  predicate SomePoser(v: Value) {
    match v
    case Arr(items) => exists i | 0 <= i < |items| :: SomePoser(items[i])
    case Obj(fields) => PosesAsBuiltIn(v) || PROTO_KEY in fields || exists k | k in fields :: SomePoser(fields[k])
    case _ => false
  }

  function Literal(print_: int -> string, v: Value): Value {
    match v
    case Date(t) => Text(print_(t))
    case Arr(items) => Arr(seq(|items|, i requires 0 <= i < |items| => Literal(print_, items[i])))
    case Obj(fields) => Obj(map k | k in fields :: Literal(print_, fields[k]))
    case _ => v
  }

  /** Without posing objects the writer replaces every date by its text and changes nothing else. */
  lemma {:induction false} WriteIsLiteral(lib: Library, v: Value)
    requires !SomePoser(v)
    ensures Write(lib, v) == Got(Literal(lib.print_, v))
    decreases v
  {
    match v
    case Arr(items) =>
      forall i | 0 <= i < |items| ensures Write(lib, items[i]) == Got(Literal(lib.print_, items[i])) {
        WriteIsLiteral(lib, items[i]);
      }
      assert Write(lib, v).value.items == Literal(lib.print_, v).items;
    case Obj(fields) =>
      forall k | k in fields ensures Write(lib, fields[k]) == Got(Literal(lib.print_, fields[k])) {
        WriteIsLiteral(lib, fields[k]);
      }
      assert !PosesAsBuiltIn(v) && PROTO_KEY !in fields;
      assert Write(lib, v).value.fields == Literal(lib.print_, v).fields;
    case _ =>
  }

  // ---------------------------------------------------------------------------------
  // The tree with some of its dates put back

  function Below(done: set<Address>, key: string): set<Address> {
    set p | p in done && p != [] && p[0] == key :: p[1..]
  }

  /** The tree with exactly the dates at the given addresses, all others as text. */
  function Partly(print_: int -> string, v: Value, done: set<Address>): Value {
    match v
    case Date(t) => if [] in done then v else Text(print_(t))
    case Arr(items) =>
      Arr(seq(|items|, i requires 0 <= i < |items| => Partly(print_, items[i], Below(done, Decimal(i)))))
    case Obj(fields) => Obj(map k | k in fields :: Partly(print_, fields[k], Below(done, k)))
    case _ => v
  }

  lemma {:induction false} BelowGrown(done: set<Address>, key: string, p: Address, other: string)
    ensures Below(done + {[key] + p}, key) == Below(done, key) + {p}
    ensures other != key ==> Below(done + {[key] + p}, other) == Below(done, other)
  {
    var q := [key] + p;
    assert q[0] == key && q[1..] == p;
    assert q in done + {q};
  }

  lemma {:induction false} BelowHas(done: set<Address>, key: string, p: Address)
    ensures p in Below(done, key) <==> [key] + p in done
  {
    var q := [key] + p;
    assert q[0] == key && q[1..] == p;
    if p in Below(done, key) {
      var r :| r in done && r != [] && r[0] == key && r[1..] == p;
      assert r == q;
    }
  }

  lemma {:induction false} IndexIsOwn(i: nat, length: nat)
    requires i < length
    ensures IsIndex(Decimal(i), length) && ValueOf(Decimal(i)) == i
  {
    DecimalIsDigits(i);
    ValueOfDecimal(i);
  }

  lemma {:induction false} NothingDone(print_: int -> string, v: Value)
    ensures Partly(print_, v, {}) == Literal(print_, v)
  {
    match v
    case Arr(items) =>
      forall i | 0 <= i < |items|
        ensures Partly(print_, items[i], Below({}, Decimal(i))) == Literal(print_, items[i])
      {
        assert Below({}, Decimal(i)) == {};
        NothingDone(print_, items[i]);
      }
    case Obj(fields) =>
      forall k | k in fields ensures Partly(print_, fields[k], Below({}, k)) == Literal(print_, fields[k]) {
        assert Below({}, k) == {};
        NothingDone(print_, fields[k]);
      }
    case _ =>
  }

  /** Some object on the way to the address hides the lookup of properties. */
  predicate ShadowedOn(v: Value, p: Address)
    decreases |p|
  {
    p != [] && (HidesLookup(v) || (HasOwn(v, p[0]) && ShadowedOn(Own(v, p[0]), p[1..])))
  }

  /** A date that is not put back is a text, and so it is in the written literal. */
  lemma {:induction false} UndoneIsText(print_: int -> string, v: Value, skip: bool, done: set<Address>, p: Address)
    requires p in Spots(v, skip)
    ensures StillText(Partly(print_, v, done), p) <==> p !in done
    decreases v
  {
    match v
    case Arr(items) =>
      var i, q :| 0 <= i < |items| && q in Spots(items[i], false) && p == [Decimal(i)] + q;
      IndexIsOwn(i, |items|);
      assert p[0] == Decimal(i) && p[1..] == q;
      BelowHas(done, Decimal(i), q);
      UndoneIsText(print_, items[i], false, Below(done, Decimal(i)), q);
    case Obj(fields) =>
      var k, q :| k in fields && q in Spots(fields[k], InnerSkip(skip, k)) && p == [k] + q;
      assert p[0] == k && p[1..] == q;
      BelowHas(done, k, q);
      UndoneIsText(print_, fields[k], InnerSkip(skip, k), Below(done, k), q);
    case _ =>
  }

  /** Applying one recorded path puts back exactly the date it was recorded for, unless an object
      on the way hides the lookup, which is an exception. With a collection mark among the keys the
      date stays text, if nothing throws. */
  lemma {:induction false} TouchRestoresOne(lib: Library, v: Value, skip: bool, done: set<Address>, p: Address)
    requires Undoes(lib) && p in Spots(v, skip) && p !in done
    ensures OnlyProperties(p) ==>
      (Touch(lib, Partly(lib.print_, v, done), p, DateType)
       == if ShadowedOn(v, p) then Thrown else Got(Partly(lib.print_, v, done + {p})))
    ensures var o := Touch(lib, Partly(lib.print_, v, done), p, DateType);
      !OnlyProperties(p) && Honest(lib) && o.Got? ==> StillText(o.value, p)
  {
    if OnlyProperties(p) {
      TouchRestoresProperty(lib, v, skip, done, p);
    } else if Honest(lib) && Touch(lib, Partly(lib.print_, v, done), p, DateType).Got? {
      UndoneIsText(lib.print_, v, skip, done, p);
      MarkedKeysMissThemselves(p);
      TouchKeepsText(lib, Partly(lib.print_, v, done), p, p, DateType);
    }
  }

  lemma {:induction false} TouchRestoresProperty(lib: Library, v: Value, skip: bool, done: set<Address>, p: Address)
    requires Undoes(lib) && p in Spots(v, skip) && p !in done && OnlyProperties(p)
    ensures Touch(lib, Partly(lib.print_, v, done), p, DateType)
         == if ShadowedOn(v, p) then Thrown else Got(Partly(lib.print_, v, done + {p}))
    decreases v, 1
  {
    match v
    case Date(t) =>
    case Arr(items) =>
      var i, q :| 0 <= i < |items| && q in Spots(items[i], false) && p == [Decimal(i)] + q;
      TouchRestoresItem(lib, v, done, i, q);
    case Obj(fields) =>
      var k, q :| k in fields && q in Spots(fields[k], InnerSkip(skip, k)) && p == [k] + q;
      TouchRestoresField(lib, v, skip, done, k, q);
    case _ =>
  }

  lemma {:induction false} PropertiesCons(key: string, q: Address)
    requires OnlyProperties([key] + q)
    ensures Kind(key).Property? && Name(key) == key && OnlyProperties(q)
    ensures ([key] + q)[0] == key && ([key] + q)[1..] == q
  {
    var p := [key] + q;
    assert p[0] == key && forall i | 0 <= i < |q| :: q[i] == p[i + 1];
  }

  lemma {:induction false} TouchRestoresItem(lib: Library, v: Value, done: set<Address>, i: nat, q: Address)
    requires Undoes(lib) && OnlyProperties([Decimal(i)] + q)
    requires v.Arr? && i < |v.items| && q in Spots(v.items[i], false) && [Decimal(i)] + q !in done
    ensures var p := [Decimal(i)] + q;
      Touch(lib, Partly(lib.print_, v, done), p, DateType)
      == if ShadowedOn(v, p) then Thrown else Got(Partly(lib.print_, v, done + {p}))
    decreases v, 0
  {
    PropertiesCons(Decimal(i), q);
    IndexIsOwn(i, |v.items|);
    BelowHas(done, Decimal(i), q);
    TouchRestoresProperty(lib, v.items[i], false, Below(done, Decimal(i)), q);
    ItemPutBack(lib.print_, v, done, i, q);
  }

  lemma {:induction false} ItemPutBack(print_: int -> string, v: Value, done: set<Address>, i: nat, q: Address)
    requires v.Arr? && i < |v.items|
    ensures var before := Partly(print_, v, done);
      && HasOwn(before, Decimal(i)) && Own(before, Decimal(i)) == Partly(print_, v.items[i], Below(done, Decimal(i)))
      && Put(before, Decimal(i), Partly(print_, v.items[i], Below(done, Decimal(i)) + {q}))
         == Partly(print_, v, done + {[Decimal(i)] + q})
  {
    var before, after := Partly(print_, v, done), Partly(print_, v, done + {[Decimal(i)] + q});
    var child := Partly(print_, v.items[i], Below(done, Decimal(i)) + {q});
    IndexIsOwn(i, |v.items|);
    forall j | 0 <= j < |v.items| ensures after.items[j] == if j == i then child else before.items[j] {
      IndexIsOwn(j, |v.items|);
      BelowGrown(done, Decimal(i), q, Decimal(j));
    }
    assert after.items == before.items[i := child];
  }

  lemma {:induction false} TouchRestoresField(lib: Library, v: Value, skip: bool, done: set<Address>, k: string,
                                              q: Address)
    requires Undoes(lib) && OnlyProperties([k] + q)
    requires v.Obj? && k in v.fields && q in Spots(v.fields[k], InnerSkip(skip, k)) && [k] + q !in done
    ensures var p := [k] + q;
      Touch(lib, Partly(lib.print_, v, done), p, DateType)
      == if ShadowedOn(v, p) then Thrown else Got(Partly(lib.print_, v, done + {p}))
    decreases v, 0
  {
    PropertiesCons(k, q);
    BelowHas(done, k, q);
    TouchRestoresProperty(lib, v.fields[k], InnerSkip(skip, k), Below(done, k), q);
    FieldPutBack(lib.print_, v, done, k, q);
  }

  lemma {:induction false} FieldPutBack(print_: int -> string, v: Value, done: set<Address>, k: string, q: Address)
    requires v.Obj? && k in v.fields
    ensures var before := Partly(print_, v, done);
      && HasOwn(before, k) && Own(before, k) == Partly(print_, v.fields[k], Below(done, k))
      && Put(before, k, Partly(print_, v.fields[k], Below(done, k) + {q})) == Partly(print_, v, done + {[k] + q})
      && HidesLookup(before) == HidesLookup(v)
  {
    var before, after := Partly(print_, v, done), Partly(print_, v, done + {[k] + q});
    var child := Partly(print_, v.fields[k], Below(done, k) + {q});
    forall j | j in v.fields ensures after.fields[j] == if j == k then child else before.fields[j] {
      BelowGrown(done, k, q, j);
    }
    assert after.fields == before.fields[k := child];
  }

  // ---------------------------------------------------------------------------------
  // The recorded texts are exactly the paths of the addresses

  lemma {:induction false} SpotsLead(v: Value, skip: bool, p: Address)
    requires p in Spots(v, skip)
    ensures Leads(v, p)
    decreases v
  {
    match v
    case Arr(items) =>
      var i, q :| 0 <= i < |items| && q in Spots(items[i], false) && p == [Decimal(i)] + q;
      IndexIsOwn(i, |items|);
      SpotsLead(items[i], false, q);
      assert p[0] == Decimal(i) && p[1..] == q;
    case Obj(fields) =>
      var k, q :| k in fields && q in Spots(fields[k], InnerSkip(skip, k)) && p == [k] + q;
      SpotsLead(fields[k], InnerSkip(skip, k), q);
      assert p[0] == k && p[1..] == q;
    case _ =>
  }

  ghost predicate HasPath(v: Value, prefix: string, skip: bool, path: string) {
    exists p :: p in Spots(v, skip) && path == PathOf(v, prefix, p)
  }

  lemma {:induction false} ExtendPath(v: Value, prefix: string, skip: bool, step: string, p: Address)
    requires [step] + p in Spots(v, skip) && HasOwn(v, step)
    ensures var longer := if v.Arr? then ItemPath(prefix, ValueOf(step)) else Child(prefix, step);
      HasPath(v, prefix, skip, PathOf(Own(v, step), longer, p))
      && PathOf(v, prefix, [step] + p) == PathOf(Own(v, step), longer, p)
  {
    var q := [step] + p;
    assert q[0] == step && q[1..] == p;
  }

  /** What is recorded are the paths of the dates, for every tree and all keys. */
  lemma {:induction false} RecordIsPaths(v: Value, prefix: string, skip: bool, path: string)
    ensures path in Record(v, prefix, skip) <==> HasPath(v, prefix, skip, path)
    decreases v
  {
    match v
    case Date(t) =>
      if path in Record(v, prefix, skip) {
        assert [] in Spots(v, skip);
      }
    case Arr(items) => RecordOfItems(v, prefix, skip, path);
    case Obj(fields) => RecordOfFields(v, prefix, skip, path);
    case _ =>
  }

  lemma {:induction false} RecordOfItems(v: Value, prefix: string, skip: bool, path: string)
    requires v.Arr?
    ensures path in Record(v, prefix, skip) <==> HasPath(v, prefix, skip, path)
    decreases v, 0
  {
    var items := v.items;
    if path in Record(v, prefix, skip) {
      var i :| 0 <= i < |items| && path in Record(items[i], ItemPath(prefix, i), false);
      RecordIsPaths(items[i], ItemPath(prefix, i), false, path);
      var p :| p in Spots(items[i], false) && path == PathOf(items[i], ItemPath(prefix, i), p);
      IndexIsOwn(i, |items|);
      ExtendPath(v, prefix, skip, Decimal(i), p);
    }
    if HasPath(v, prefix, skip, path) {
      var p :| p in Spots(v, skip) && path == PathOf(v, prefix, p);
      var i, q :| 0 <= i < |items| && q in Spots(items[i], false) && p == [Decimal(i)] + q;
      IndexIsOwn(i, |items|);
      ExtendPath(v, prefix, skip, Decimal(i), q);
      RecordIsPaths(items[i], ItemPath(prefix, i), false, path);
    }
  }

  lemma {:induction false} RecordOfFields(v: Value, prefix: string, skip: bool, path: string)
    requires v.Obj?
    ensures path in Record(v, prefix, skip) <==> HasPath(v, prefix, skip, path)
    decreases v, 0
  {
    var fields := v.fields;
    if path in Record(v, prefix, skip) {
      var k :| k in fields && path in Record(fields[k], Child(prefix, k), InnerSkip(skip, k));
      RecordIsPaths(fields[k], Child(prefix, k), InnerSkip(skip, k), path);
      var p :| p in Spots(fields[k], InnerSkip(skip, k)) && path == PathOf(fields[k], Child(prefix, k), p);
      ExtendPath(v, prefix, skip, k, p);
    }
    if HasPath(v, prefix, skip, path) {
      var p :| p in Spots(v, skip) && path == PathOf(v, prefix, p);
      var k, q :| k in fields && q in Spots(fields[k], InnerSkip(skip, k)) && p == [k] + q;
      ExtendPath(v, prefix, skip, k, q);
      RecordIsPaths(fields[k], Child(prefix, k), InnerSkip(skip, k), path);
    }
  }

  // ---------------------------------------------------------------------------------
  // All paths, in any order

  function Addresses(paths: seq<string>): set<Address> {
    set i | 0 <= i < |paths| :: Segments(paths[i])
  }

  predicate SomeShadowed(v: Value, paths: seq<string>) {
    exists i | 0 <= i < |paths| :: ShadowedOn(v, Segments(paths[i]))
  }

  predicate OnlyPropertyPaths(paths: seq<string>) {
    forall i | 0 <= i < |paths| :: OnlyProperties(Segments(paths[i]))
  }

  /** Applying recorded paths in any order puts back exactly their dates, unless an object on the
      way hides the lookup. A path that ends up with a collection mark restores no date at all. */
  lemma {:induction false} PathsRestoreInAnyOrder(lib: Library, v: Value, done: set<Address>, paths: seq<string>)
    requires Undoes(lib)
    requires forall i | 0 <= i < |paths| :: Segments(paths[i]) in Spots(v, false) && Segments(paths[i]) !in done
    requires forall i, j | 0 <= i < j < |paths| :: Segments(paths[i]) != Segments(paths[j])
    ensures OnlyPropertyPaths(paths) ==>
      (TouchAll(lib, Partly(lib.print_, v, done), Dates(paths))
       == if SomeShadowed(v, paths) then Thrown else Got(Partly(lib.print_, v, done + Addresses(paths))))
    ensures !OnlyPropertyPaths(paths) && Honest(lib) ==>
      TouchAll(lib, Partly(lib.print_, v, done), Dates(paths)) != Got(Partly(lib.print_, v, done + Addresses(paths)))
  {
    if OnlyPropertyPaths(paths) {
      PropertiesRestoreInAnyOrder(lib, v, done, paths);
    } else if Honest(lib) {
      var i :| 0 <= i < |paths| && !OnlyProperties(Segments(paths[i]));
      var before, p := Partly(lib.print_, v, done), Segments(paths[i]);
      if TouchAll(lib, before, Dates(paths)).Got? {
        UndoneIsText(lib.print_, v, false, done, p);
        MarkedAddressStaysText(lib, before, p, Dates(paths));
        assert p in Addresses(paths);
        UndoneIsText(lib.print_, v, false, done + Addresses(paths), p);
      }
    }
  }

  /** No path at all leads to an address with a collection mark. */
  lemma {:induction false} MarkedAddressStaysText(lib: Library, u: Value, p: Address, types: seq<Typed>)
    requires Honest(lib) && StillText(u, p) && !AllFindable(p) && TouchAll(lib, u, types).Got?
    ensures StillText(TouchAll(lib, u, types).value, p)
    decreases |types|
  {
    if types != [] {
      var s, type_ := Segments(types[0].path), types[0].type_;
      SegmentsArePieceKeys(types[0].path);
      if MayReach(s, p) {
        ReachedIsFindable(s, p);
      }
      TouchKeepsText(lib, u, p, s, type_);
      MarkedAddressStaysText(lib, Touch(lib, u, s, type_).value, p, types[1..]);
    }
  }

  lemma {:induction false} PropertiesRestoreInAnyOrder(lib: Library, v: Value, done: set<Address>, paths: seq<string>)
    requires Undoes(lib) && OnlyPropertyPaths(paths)
    requires forall i | 0 <= i < |paths| :: Segments(paths[i]) in Spots(v, false) && Segments(paths[i]) !in done
    requires forall i, j | 0 <= i < j < |paths| :: Segments(paths[i]) != Segments(paths[j])
    ensures TouchAll(lib, Partly(lib.print_, v, done), Dates(paths))
         == if SomeShadowed(v, paths) then Thrown else Got(Partly(lib.print_, v, done + Addresses(paths)))
    decreases |paths|
  {
    if paths == [] {
      assert done + Addresses(paths) == done;
    } else {
      var p, rest := Segments(paths[0]), paths[1..];
      FirstPath(v, done, paths);
      FirstShadow(v, paths);
      TouchRestoresProperty(lib, v, false, done, p);
      if !ShadowedOn(v, p) {
        PropertiesRestoreInAnyOrder(lib, v, done + {p}, rest);
      }
    }
  }

  lemma {:induction false} FirstShadow(v: Value, paths: seq<string>)
    requires paths != []
    ensures SomeShadowed(v, paths) <==> ShadowedOn(v, Segments(paths[0])) || SomeShadowed(v, paths[1..])
  {
    var rest := paths[1..];
    if SomeShadowed(v, rest) {
      var i :| 0 <= i < |rest| && ShadowedOn(v, Segments(rest[i]));
      assert rest[i] == paths[i + 1];
    }
    if SomeShadowed(v, paths) && !ShadowedOn(v, Segments(paths[0])) {
      var i :| 0 <= i < |paths| && ShadowedOn(v, Segments(paths[i]));
      assert rest[i - 1] == paths[i];
    }
  }

  lemma {:induction false} FirstPath(v: Value, done: set<Address>, paths: seq<string>)
    requires paths != []
    ensures var p, rest := Segments(paths[0]), paths[1..];
      && Dates(paths)[0] == Typed(paths[0], DateType) && Dates(paths)[1..] == Dates(rest)
      && done + {p} + Addresses(rest) == done + Addresses(paths)
  {
    var rest := paths[1..];
    assert forall i | 0 <= i < |rest| :: rest[i] == paths[i + 1];
  }

  /** A date the writer turns into text without recording where it was. */
  predicate HiddenDate(v: Value, skip: bool) {
    match v
    case Date(_) => skip
    case Arr(items) => exists i | 0 <= i < |items| :: HiddenDate(items[i], false)
    case Obj(fields) => exists k | k in fields :: HiddenDate(fields[k], InnerSkip(skip, k))
    case _ => false
  }

  lemma {:induction false} BelowItem(v: Value, skip: bool, i: nat)
    requires v.Arr? && i < |v.items|
    ensures Below(Spots(v, skip), Decimal(i)) == Spots(v.items[i], false)
  {
    IndexIsOwn(i, |v.items|);
    forall p ensures p in Below(Spots(v, skip), Decimal(i)) <==> p in Spots(v.items[i], false) {
      BelowHas(Spots(v, skip), Decimal(i), p);
      var q := [Decimal(i)] + p;
      if q in Spots(v, skip) {
        var j, r :| 0 <= j < |v.items| && r in Spots(v.items[j], false) && q == [Decimal(j)] + r;
        IndexIsOwn(j, |v.items|);
        assert q[0] == Decimal(j) && q[1..] == r && q[1..] == p;
      }
    }
  }

  lemma {:induction false} BelowField(v: Value, skip: bool, k: string)
    requires v.Obj? && k in v.fields
    ensures Below(Spots(v, skip), k) == Spots(v.fields[k], InnerSkip(skip, k))
  {
    forall p ensures p in Below(Spots(v, skip), k) <==> p in Spots(v.fields[k], InnerSkip(skip, k)) {
      BelowHas(Spots(v, skip), k, p);
      var q := [k] + p;
      if q in Spots(v, skip) {
        var j, r :| j in v.fields && r in Spots(v.fields[j], InnerSkip(skip, j)) && q == [j] + r;
        assert q[0] == j && q[1..] == r && q[1..] == p;
      }
    }
  }

  lemma {:induction false} RestoredExactlyWhenNothingHidden(print_: int -> string, v: Value, skip: bool)
    ensures Partly(print_, v, Spots(v, skip)) == v <==> !HiddenDate(v, skip)
    decreases v
  {
    match v
    case Arr(items) =>
      var restored := Partly(print_, v, Spots(v, skip));
      forall i | 0 <= i < |items| ensures restored.items[i] == items[i] <==> !HiddenDate(items[i], false) {
        BelowItem(v, skip, i);
        RestoredExactlyWhenNothingHidden(print_, items[i], false);
      }
      assert restored == v <==> restored.items == items;
    case Obj(fields) =>
      var restored := Partly(print_, v, Spots(v, skip));
      forall k | k in fields
        ensures restored.fields[k] == fields[k] <==> !HiddenDate(fields[k], InnerSkip(skip, k))
      {
        BelowField(v, skip, k);
        RestoredExactlyWhenNothingHidden(print_, fields[k], InnerSkip(skip, k));
      }
      assert restored == v <==> restored.fields == fields;
    case _ =>
  }

  // ---------------------------------------------------------------------------------
  // Which dates are recorded

  function TreeAt(v: Value, p: Address): Value
    requires Leads(v, p)
    decreases |p|
  {
    if p == [] then v else TreeAt(Own(v, p[0]), p[1..])
  }

  /** Every value on the way is an object. */
  predicate ThroughObjects(v: Value, p: Address)
    decreases |p|
  {
    p == [] || (v.Obj? && p[0] in v.fields && ThroughObjects(v.fields[p[0]], p[1..]))
  }

  ghost predicate EntersMetadata(v: Value, p: Address, i: nat)
    requires Leads(v, p)
  {
    i < |p| && p[i] == "@metadata" && Leads(v, p[..i]) && ThroughObjects(TreeAt(v, p[..i]), p[i..])
  }

  /** The way goes through a metadata property, and from there through objects only. */
  ghost predicate UnderMetadata(v: Value, p: Address)
    requires Leads(v, p)
  {
    exists i :: EntersMetadata(v, p, i)
  }

  lemma {:induction false} EntersLater(v: Value, p: Address, i: nat)
    requires Leads(v, p) && 0 < i < |p|
    ensures EntersMetadata(v, p, i) <==> EntersMetadata(Own(v, p[0]), p[1..], i - 1)
  {
    assert p[..i][1..] == p[1..][..i - 1] && p[..i][0] == p[0];
    assert p[i..] == p[1..][i - 1..] && p[1..][i - 1] == p[i];
  }

  lemma {:induction false} UnderMetadataStep(v: Value, p: Address)
    requires Leads(v, p) && p != []
    ensures UnderMetadata(v, p)
            <==> UnderMetadata(Own(v, p[0]), p[1..]) || (p[0] == "@metadata" && ThroughObjects(v, p))
  {
    assert p[..0] == [] && p[0..] == p;
    assert EntersMetadata(v, p, 0) <==> p[0] == "@metadata" && ThroughObjects(v, p);
    if i: nat :| EntersMetadata(v, p, i) {
      if i > 0 {
        EntersLater(v, p, i);
      }
    }
    if i: nat :| EntersMetadata(Own(v, p[0]), p[1..], i) {
      EntersLater(v, p, i + 1);
    }
  }

  lemma {:induction false} SpotsOfField(v: Value, skip: bool, p: Address)
    requires v.Obj? && p != [] && p[0] in v.fields
    ensures p in Spots(v, skip) <==> p[1..] in Spots(v.fields[p[0]], InnerSkip(skip, p[0]))
  {
    BelowField(v, skip, p[0]);
    BelowHas(Spots(v, skip), p[0], p[1..]);
    assert p == [p[0]] + p[1..];
  }

  lemma {:induction false} SpotsOfItem(v: Value, skip: bool, p: Address)
    requires v.Arr? && p != [] && IsIndex(p[0], |v.items|)
    ensures p in Spots(v, skip) <==> p[1..] in Spots(v.items[ValueOf(p[0])], false)
  {
    BelowItem(v, skip, ValueOf(p[0]));
    BelowHas(Spots(v, skip), p[0], p[1..]);
    assert p == [p[0]] + p[1..];
  }

  lemma {:induction false} SpotsFrom(v: Value, skip: bool, p: Address)
    requires Leads(v, p)
    ensures p in Spots(v, skip)
            <==> TreeAt(v, p).Date? && !UnderMetadata(v, p) && !(skip && ThroughObjects(v, p))
    decreases |p|
  {
    if p == [] {
      match v
      case Arr(items) => assert forall q | q in Spots(v, skip) :: q != [];
      case Obj(fields) => assert forall q | q in Spots(v, skip) :: q != [];
      case _ =>
    } else {
      UnderMetadataStep(v, p);
      if v.Arr? {
        SpotsOfItem(v, skip, p);
        SpotsFrom(Own(v, p[0]), false, p[1..]);
      } else {
        SpotsOfField(v, skip, p);
        SpotsFrom(Own(v, p[0]), InnerSkip(skip, p[0]), p[1..]);
      }
    }
  }

  /** A date is recorded exactly when it does not lie under metadata with nothing but objects on
      the way from there. */
  lemma {:induction false} RecordedExactlyWhen(v: Value, p: Address)
    ensures p in Spots(v, false) <==> Leads(v, p) && TreeAt(v, p).Date? && !UnderMetadata(v, p)
  {
    if p in Spots(v, false) {
      SpotsLead(v, false, p);
    }
    if Leads(v, p) {
      SpotsFrom(v, false, p);
    }
  }

  lemma {:induction false} HiddenSomewhere(v: Value, skip: bool) returns (p: Address)
    requires HiddenDate(v, skip)
    ensures Leads(v, p) && TreeAt(v, p).Date? && p !in Spots(v, skip)
    decreases v
  {
    match v
    case Arr(items) =>
      var i :| 0 <= i < |items| && HiddenDate(items[i], false);
      IndexIsOwn(i, |items|);
      var q := HiddenSomewhere(items[i], false);
      p := [Decimal(i)] + q;
      assert p[0] == Decimal(i) && p[1..] == q;
      SpotsOfItem(v, skip, p);
    case Obj(fields) =>
      var k :| k in fields && HiddenDate(fields[k], InnerSkip(skip, k));
      var q := HiddenSomewhere(fields[k], InnerSkip(skip, k));
      p := [k] + q;
      assert p[0] == k && p[1..] == q;
      SpotsOfField(v, skip, p);
    case _ =>
      p := [];
  }

  lemma {:induction false} UnrecordedIsHidden(v: Value, skip: bool, p: Address)
    requires Leads(v, p) && TreeAt(v, p).Date? && p !in Spots(v, skip)
    ensures HiddenDate(v, skip)
    decreases |p|
  {
    if p != [] {
      if v.Arr? {
        SpotsOfItem(v, skip, p);
        UnrecordedIsHidden(Own(v, p[0]), false, p[1..]);
      } else {
        SpotsOfField(v, skip, p);
        UnrecordedIsHidden(Own(v, p[0]), InnerSkip(skip, p[0]), p[1..]);
      }
    }
  }

  /** A tree hides a date exactly when some date lies under metadata like that. */
  lemma {:induction false} HiddenExactlyWhen(v: Value)
    ensures HiddenDate(v, false) <==> exists p :: Leads(v, p) && TreeAt(v, p).Date? && UnderMetadata(v, p)
  {
    if HiddenDate(v, false) {
      var p := HiddenSomewhere(v, false);
      RecordedExactlyWhen(v, p);
    }
    if p :| Leads(v, p) && TreeAt(v, p).Date? && UnderMetadata(v, p) {
      RecordedExactlyWhen(v, p);
      UnrecordedIsHidden(v, false, p);
    }
  }
}
