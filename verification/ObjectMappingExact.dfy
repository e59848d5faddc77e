/** Exactly which trees come back from writing and reading. */
module ObjectMappingExact {
  import opened Decimals
  import opened ObjectAddresses
  import opened ObjectMapping
  import opened ObjectMappingRoundTrip
  import opened ObjectPaths
  import opened ObjectReach
  import opened SortedTexts
  import opened Texts
  import opened Wrappers

  // ---------------------------------------------------------------------------------
  // A date that no path leads to stays text

  lemma {:induction false} TouchesKeepText(lib: Library, u: Value, p: Address, types: seq<Typed>)
    requires Honest(lib) && StillText(u, p) && TouchAll(lib, u, types).Got?
    requires forall i | 0 <= i < |types| :: !MayReach(Segments(types[i].path), p)
    ensures StillText(TouchAll(lib, u, types).value, p)
    decreases |types|
  {
    if types != [] {
      var s, type_ := Segments(types[0].path), types[0].type_;
      assert !MayReach(s, p);
      TouchKeepsText(lib, u, p, s, type_);
      TouchesKeepText(lib, Touch(lib, u, s, type_).value, p, types[1..]);
    }
  }

  lemma {:induction false} DateIsNoText(v: Value, skip: bool, p: Address)
    requires p in Spots(v, skip)
    ensures !StillText(v, p)
    decreases v
  {
    match v
    case Arr(items) =>
      var i, q :| 0 <= i < |items| && q in Spots(items[i], false) && p == [Decimal(i)] + q;
      IndexIsOwn(i, |items|);
      assert p[0] == Decimal(i) && p[1..] == q;
      DateIsNoText(items[i], false, q);
    case Obj(fields) =>
      var k, q :| k in fields && q in Spots(fields[k], InnerSkip(skip, k)) && p == [k] + q;
      assert p[0] == k && p[1..] == q;
      DateIsNoText(fields[k], InnerSkip(skip, k), q);
    case _ =>
  }

  // ---------------------------------------------------------------------------------
  // Counting: as many paths as dates

  lemma {:induction false} SubsetOfSameSize<T>(a: set<T>, b: set<T>)
    requires a <= b && |b| <= |a|
    ensures a == b
  {
    assert b == a + (b - a);
  }

  ghost function PathsOf(v: Value, spots: set<Address>): set<string> {
    set p | p in spots :: PathOf(v, "", p)
  }

  lemma {:induction false} NoMorePathsThanSpots(v: Value, spots: set<Address>)
    ensures |PathsOf(v, spots)| <= |spots|
    decreases |spots|
  {
    if spots != {} {
      var p :| p in spots;
      var rest := spots - {p};
      NoMorePathsThanSpots(v, rest);
      assert PathsOf(v, spots) == PathsOf(v, rest) + {PathOf(v, "", p)};
    }
  }

  lemma {:induction false} DistinctCount<T(!new)>(s: seq<T>, all: set<T>)
    requires Enumerates(s, all)
    ensures |s| == |all|
    decreases |s|
  {
    if s == [] {
      assert all == {};
    } else {
      var n := |s| - 1;
      var rest, last := s[..n], s[n];
      assert s == rest + [last];
      assert last in all && last !in rest;
      forall x ensures x in rest <==> x in all - {last} {
        assert x in s <==> x in rest || x == last;
      }
      DistinctCount(rest, all - {last});
    }
  }

  lemma {:induction false} AddressCount(paths: seq<string>)
    ensures |Addresses(paths)| <= |paths|
    ensures |Addresses(paths)| == |paths| ==>
              forall i, j | 0 <= i < j < |paths| :: Segments(paths[i]) != Segments(paths[j])
    decreases |paths|
  {
    if paths != [] {
      var n := |paths| - 1;
      var rest, last := paths[..n], Segments(paths[n]);
      assert forall i | 0 <= i < n :: rest[i] == paths[i];
      assert Addresses(paths) == Addresses(rest) + {last};
      AddressCount(rest);
      if |Addresses(paths)| == |paths| {
        assert last !in Addresses(rest);
        forall i, j | 0 <= i < j < |paths| ensures Segments(paths[i]) != Segments(paths[j]) {
          if j == n {
            assert Segments(rest[i]) in Addresses(rest);
          }
        }
      }
    }
  }

  lemma {:induction false} RecordIsPathsOf(v: Value)
    ensures Record(v, "", false) == PathsOf(v, Spots(v, false))
  {
    forall path ensures path in Record(v, "", false) <==> path in PathsOf(v, Spots(v, false)) {
      RecordIsPaths(v, "", false, path);
    }
  }

  /** If the paths lead to every date, they lead nowhere else, and no two to the same. */
  lemma {:induction false} CoveringIsExact(v: Value, paths: seq<string>)
    requires Enumerates(paths, Record(v, "", false)) && Spots(v, false) <= Addresses(paths)
    ensures Addresses(paths) == Spots(v, false)
    ensures forall i, j | 0 <= i < j < |paths| :: Segments(paths[i]) != Segments(paths[j])
  {
    var spots, addresses := Spots(v, false), Addresses(paths);
    RecordIsPathsOf(v);
    NoMorePathsThanSpots(v, spots);
    DistinctCount(paths, Record(v, "", false));
    AddressCount(paths);
    SubsetNoLarger(spots, addresses);
    SubsetOfSameSize(spots, addresses);
  }

  lemma {:induction false} SubsetNoLarger<T>(a: set<T>, b: set<T>)
    requires a <= b
    ensures |a| <= |b|
  {
    assert b == a + (b - a);
  }

  // ---------------------------------------------------------------------------------
  // Trees without posing objects

  /** Some recorded path reaches every date of a tree that comes back. */
  lemma {:induction false} RestoredIsReached(lib: Library, v: Value, paths: seq<string>, p: Address)
    requires Honest(lib) && TouchAll(lib, Literal(lib.print_, v), Dates(paths)) == Got(v) && p in Spots(v, false)
    ensures exists i :: 0 <= i < |paths| && MayReach(Segments(paths[i]), p)
    ensures AllFindable(p)
  {
    NothingDone(lib.print_, v);
    UndoneIsText(lib.print_, v, false, {}, p);
    DateIsNoText(v, false, p);
    if forall i | 0 <= i < |paths| :: !MayReach(Segments(paths[i]), p) {
      TouchesKeepText(lib, Literal(lib.print_, v), p, Dates(paths));
      assert false;
    }
    var i :| 0 <= i < |paths| && MayReach(Segments(paths[i]), p);
    SegmentsArePieceKeys(paths[i]);
    ReachedIsFindable(Segments(paths[i]), p);
  }

  /** All its paths lead to properties, since they were made of keys that paths can find. */
  lemma {:induction false} RestoredByProperties(lib: Library, v: Value, paths: seq<string>)
    requires Honest(lib) && TouchAll(lib, Literal(lib.print_, v), Dates(paths)) == Got(v)
    requires v.Obj? && Enumerates(paths, Record(v, "", false))
    ensures OnlyPropertyPaths(paths)
  {
    forall i | 0 <= i < |paths| ensures OnlyProperties(Segments(paths[i])) {
      assert paths[i] in paths;
      RecordIsPaths(v, "", false, paths[i]);
      var p :| p in Spots(v, false) && paths[i] == PathOf(v, "", p);
      RestoredIsReached(lib, v, paths, p);
      SpotsLead(v, false, p);
      PathOfFindable(v, p);
    }
  }

  lemma {:induction false} RestoredIsCovering(lib: Library, v: Value, paths: seq<string>)
    requires Honest(lib) && TouchAll(lib, Literal(lib.print_, v), Dates(paths)) == Got(v)
    requires v.Obj? && Enumerates(paths, Record(v, "", false))
    ensures Spots(v, false) <= Addresses(paths) && OnlyPropertyPaths(paths)
  {
    RestoredByProperties(lib, v, paths);
    forall p | p in Spots(v, false) ensures p in Addresses(paths) {
      RestoredIsReached(lib, v, paths, p);
      var i :| 0 <= i < |paths| && MayReach(Segments(paths[i]), p);
      PropertiesReachThemselves(Segments(paths[i]), p);
    }
  }

  lemma {:induction false} RestoredWithoutPosers(lib: Library, v: Value, paths: seq<string>)
    requires Honest(lib) && v.Obj? && !SomePoser(v) && Enumerates(paths, Record(v, "", false))
    ensures Restored(lib, v, Dates(paths)) == Got(v)
            <==> Addresses(paths) == Spots(v, false) && OnlyPropertyPaths(paths)
                 && !SomeShadowed(v, paths) && !HiddenDate(v, false)
  {
    WriteIsLiteral(lib, v);
    NothingDone(lib.print_, v);
    RestoredExactlyWhenNothingHidden(lib.print_, v, false);
    if Restored(lib, v, Dates(paths)) == Got(v) {
      RestoredIsCovering(lib, v, paths);
    }
    if Spots(v, false) <= Addresses(paths) {
      CoveringIsExact(v, paths);
      forall i | 0 <= i < |paths| ensures Segments(paths[i]) in Spots(v, false) {
        assert Segments(paths[i]) in Addresses(paths);
      }
      PathsRestoreInAnyOrder(lib, v, {}, paths);
      assert {} + Addresses(paths) == Spots(v, false);
    }
  }

  // ---------------------------------------------------------------------------------
  // Posing objects never come back

  /** At the address is an object, with the key if it is asked for. */
  predicate ObjectAt(u: Value, a: Address, withProto: bool)
    decreases |a|
  {
    if a == [] then u.Obj? && (withProto ==> PROTO_KEY in u.fields)
    else HasOwn(u, a[0]) && ObjectAt(Own(u, a[0]), a[1..], withProto)
  }

  /** Somewhere the writer puts something else where an object was, or loses a key of it. */
  lemma {:induction false} PoserIsReplaced(lib: Library, v: Value) returns (a: Address, withProto: bool)
    requires Honest(lib) && SomePoser(v) && Write(lib, v).Got?
    ensures ObjectAt(v, a, withProto) && !ObjectAt(Write(lib, v).value, a, withProto)
    decreases v
  {
    var w := Write(lib, v).value;
    if PosesAsBuiltIn(v) {
      a, withProto := [], false;
    } else if v.Obj? && PROTO_KEY in v.fields {
      a, withProto := [], true;
    } else if v.Arr? {
      var i :| 0 <= i < |v.items| && SomePoser(v.items[i]);
      var rest;
      rest, withProto := PoserIsReplaced(lib, v.items[i]);
      a := [Decimal(i)] + rest;
      IndexIsOwn(i, |v.items|);
      assert a[0] == Decimal(i) && a[1..] == rest;
    } else {
      var k :| k in v.fields && SomePoser(v.fields[k]);
      var rest;
      rest, withProto := PoserIsReplaced(lib, v.fields[k]);
      a := [k] + rest;
      assert a[0] == k && a[1..] == rest;
    }
  }

  lemma {:induction false} TouchMakesNoObject(lib: Library, u: Value, s: seq<string>, type_: TypeName, a: Address,
                                              withProto: bool)
    requires Honest(lib) && Touch(lib, u, s, type_).Got? && ObjectAt(Touch(lib, u, s, type_).value, a, withProto)
    ensures ObjectAt(u, a, withProto)
    decreases |s|, 0
  {
    if s != [] && !Falsy(u) {
      var name, kind, rest := Name(s[0]), Kind(s[0]), s[1..];
      if !kind.Property? && !HasOwn(u, name) {
        EachMakesNoObject(lib, u, kind, rest, type_, a, withProto);
      } else if HasOwn(u, name) && a != [] {
        var child := if kind.Property? then Touch(lib, Own(u, name), rest, type_)
                     else TouchEach(lib, Own(u, name), kind, rest, type_);
        OwnAfterPut(u, name, child.value, a[0]);
        if a[0] == name {
          if kind.Property? {
            TouchMakesNoObject(lib, Own(u, name), rest, type_, a[1..], withProto);
          } else {
            EachMakesNoObject(lib, Own(u, name), kind, rest, type_, a[1..], withProto);
          }
        }
      }
    }
  }

  lemma {:induction false} EachMakesNoObject(lib: Library, u: Value, kind: Reach, s: seq<string>, type_: TypeName,
                                             a: Address, withProto: bool)
    requires !kind.Property? && Honest(lib) && TouchEach(lib, u, kind, s, type_).Got?
    requires ObjectAt(TouchEach(lib, u, kind, s, type_).value, a, withProto)
    ensures ObjectAt(u, a, withProto)
    decreases |s|, 1
  {
    var u' := TouchEach(lib, u, kind, s, type_).value;
    if a != [] {
      var key := a[0];
      assert HasOwn(u', key) && HasOwn(u, key);
      if Own(u', key) != Own(u, key) {
        assert Own(u', key) == Touch(lib, Own(u, key), s, type_).value;
        TouchMakesNoObject(lib, Own(u, key), s, type_, a[1..], withProto);
      }
    }
  }

  lemma {:induction false} EachKeepsKeys(lib: Library, u: Value, kind: Reach, s: seq<string>, type_: TypeName)
    requires !kind.Property? && u.Obj? && TouchEach(lib, u, kind, s, type_).Got?
    ensures var u' := TouchEach(lib, u, kind, s, type_).value; u'.Obj? && u'.fields.Keys == u.fields.Keys
  {
  }

  lemma {:induction false} TouchKeepsKeys(lib: Library, u: Value, s: seq<string>, type_: TypeName)
    requires u.Obj? && s != [] && Touch(lib, u, s, type_).Got?
    ensures var u' := Touch(lib, u, s, type_).value; u'.Obj? && u'.fields.Keys == u.fields.Keys
  {
    if !HasOwn(u, Name(s[0])) && !Kind(s[0]).Property? {
      EachKeepsKeys(lib, u, Kind(s[0]), s[1..], type_);
    }
  }

  /** Types make no objects, and neither add nor remove keys of the root. */
  lemma {:induction false} TypesMakeNoObject(lib: Library, u: Value, types: seq<Typed>, a: Address,
                                             withProto: bool)
    requires Honest(lib) && u.Obj? && TouchAll(lib, u, types).Got?
    ensures var u' := TouchAll(lib, u, types).value;
      && u'.Obj? && u'.fields.Keys == u.fields.Keys
      && (ObjectAt(u', a, withProto) ==> ObjectAt(u, a, withProto))
    decreases |types|
  {
    if types != [] {
      var s, type_ := Segments(types[0].path), types[0].type_;
      var u1 := Touch(lib, u, s, type_).value;
      TouchKeepsKeys(lib, u, s, type_);
      TypesMakeNoObject(lib, u1, types[1..], a, withProto);
      if ObjectAt(u1, a, withProto) {
        TouchMakesNoObject(lib, u, s, type_, a, withProto);
      }
    }
  }

  lemma {:induction false} NoIndexNamedConstructor(length: nat)
    ensures !IsIndex("constructor", length)
  {
    assert !IsDigit("constructor"[0]);
  }

  /** A tree with an object that poses as a built-in or sets its prototype does not come back,
      whatever types are applied. */
  lemma {:induction false} PoserIsLost(lib: Library, v: Value, types: seq<Typed>)
    requires Honest(lib) && v.Obj? && SomePoser(v)
    ensures Restored(lib, v, types) != Got(v)
  {
    if Restored(lib, v, types).Got? {
      var raw := Write(lib, v).value;
      var a, withProto := PoserIsReplaced(lib, v);
      TypesMakeNoObject(lib, Assigned(raw), types, a, withProto);
      if raw.Arr? {
        NoIndexNamedConstructor(|raw.items|);
        assert "constructor" !in Assigned(raw).fields.Keys;
        WrittenAsSet(lib, v);
        assert "constructor" in v.fields.Keys;
      }
    }
  }

  lemma {:induction false} WrittenAsSet(lib: Library, v: Value)
    requires Honest(lib) && v.Obj? && Write(lib, v).Got?
    ensures Write(lib, v).value.Arr? ==> "constructor" in v.fields
    ensures Write(lib, v).value.Arr? || Write(lib, v).value.Obj?
  {
  }

  // ---------------------------------------------------------------------------------
  // The exact condition

  predicate ShadowedDate(v: Value) {
    exists p | p in Spots(v, false) :: ShadowedOn(v, p)
  }

  /** A key on the way to some date ends in a collection mark. */
  predicate MarkedDate(v: Value) {
    exists p | p in Spots(v, false) :: !OnlyProperties(p)
  }

  /** The root is an object; no object poses as a built-in or sets its prototype; no date is hidden under metadata; the
      path of every date leads to it; no key on the way to one ends in a collection mark; and no
      object on the way hides the lookup. */
  ghost predicate Restorable(v: Value) {
    && v.Obj? && !SomePoser(v)
    && !HiddenDate(v, false) && PathsFaithful(v) && !MarkedDate(v) && !ShadowedDate(v)
  }

  lemma {:induction false} AddressesWithinImages(v: Value, paths: seq<string>)
    requires Enumerates(paths, PathsOf(v, Spots(v, false)))
    ensures Addresses(paths) <= Images(v, Spots(v, false))
  {
    forall q | q in Addresses(paths) ensures q in Images(v, Spots(v, false)) {
      var i :| 0 <= i < |paths| && Segments(paths[i]) == q;
      assert paths[i] in paths;
      var p :| p in Spots(v, false) && paths[i] == PathOf(v, "", p);
      assert Image(v, p) == q;
    }
  }

  lemma {:induction false} ImagesWithinAddresses(v: Value, paths: seq<string>)
    requires Enumerates(paths, PathsOf(v, Spots(v, false)))
    ensures Images(v, Spots(v, false)) <= Addresses(paths)
  {
    forall q | q in Images(v, Spots(v, false)) ensures q in Addresses(paths) {
      var p :| p in Spots(v, false) && Image(v, p) == q;
      assert PathOf(v, "", p) in paths;
      var i :| 0 <= i < |paths| && paths[i] == PathOf(v, "", p);
    }
  }

  lemma {:induction false} AddressesAreImages(v: Value, paths: seq<string>)
    requires Enumerates(paths, Record(v, "", false))
    ensures Addresses(paths) == Images(v, Spots(v, false))
  {
    RecordIsPathsOf(v);
    AddressesWithinImages(v, paths);
    ImagesWithinAddresses(v, paths);
  }

  lemma {:induction false} ShadowsOfPaths(v: Value, paths: seq<string>)
    requires Addresses(paths) == Spots(v, false)
    ensures SomeShadowed(v, paths) <==> ShadowedDate(v)
  {
    if SomeShadowed(v, paths) {
      var i :| 0 <= i < |paths| && ShadowedOn(v, Segments(paths[i]));
      assert Segments(paths[i]) in Addresses(paths);
    }
    if ShadowedDate(v) {
      var p :| p in Spots(v, false) && ShadowedOn(v, p);
      assert p in Addresses(paths);
      var i :| 0 <= i < |paths| && Segments(paths[i]) == p;
    }
  }

  lemma {:induction false} MarksOfPaths(v: Value, paths: seq<string>)
    requires Addresses(paths) == Spots(v, false)
    ensures OnlyPropertyPaths(paths) <==> !MarkedDate(v)
  {
    if MarkedDate(v) {
      var p :| p in Spots(v, false) && !OnlyProperties(p);
      assert p in Addresses(paths);
      var i :| 0 <= i < |paths| && Segments(paths[i]) == p;
    }
    if !OnlyPropertyPaths(paths) {
      var i :| 0 <= i < |paths| && !OnlyProperties(Segments(paths[i]));
      assert Segments(paths[i]) in Addresses(paths);
    }
  }

  /** A tree of objects, arrays, dates and plain values. */
  predicate NoSets(v: Value) {
    match v
    case SetOf(_) => false
    case Arr(items) => forall i | 0 <= i < |items| :: NoSets(items[i])
    case Obj(fields) => forall k | k in fields :: NoSets(fields[k])
    case _ => true
  }

  /** For every tree: reading what was written, with the recorded types in any order, gives the
      tree back if and only if it is restorable. */
  lemma {:induction false} RestoredExactlyWhen(lib: Library, v: Value, types: seq<Typed>, paths: seq<string>)
    requires Honest(lib) && NoSets(v)
    requires v.Obj? && !SomePoser(v) ==> Enumerates(paths, Record(v, "", false)) && types == Dates(paths)
    ensures Restored(lib, v, types) == Got(v) <==> Restorable(v)
  {
    if !v.Obj? {
      if Restored(lib, v, types).Got? {
        TypesMakeNoObject(lib, Assigned(Write(lib, v).value), types, [], false);
      }
    } else if SomePoser(v) {
      PoserIsLost(lib, v, types);
    } else {
      RestoredWithoutPosers(lib, v, paths);
      AddressesAreImages(v, paths);
      FaithfulExactlyWhen(v);
      if PathsFaithful(v) {
        ShadowsOfPaths(v, paths);
        MarksOfPaths(v, paths);
      }
    }
  }

  /** The types that the writer reports for a tree without posing objects. */
  function RecordedTypes(v: Value): map<string, TypeName> {
    map path | path in Record(v, "", false) :: DateType
  }

  lemma {:induction false} DatesInOrder(nestedTypes: map<string, TypeName>)
    requires forall path | path in nestedTypes :: nestedTypes[path] == DateType
    ensures Enumerates(Sorted(nestedTypes.Keys), nestedTypes.Keys)
    ensures InOrder(nestedTypes) == Dates(Sorted(nestedTypes.Keys))
  {
    var paths := Sorted(nestedTypes.Keys);
    SortedIsOrdered(nestedTypes.Keys);
    forall i | 0 <= i < |paths| ensures InOrder(nestedTypes)[i] == Dates(paths)[i] {
      assert paths[i] in paths && paths[i] in nestedTypes.Keys;
    }
  }

  /** The same with the order in which the reader takes the types. */
  lemma {:induction false} RoundTripExactlyWhen(lib: Library, v: Value, nestedTypes: map<string, TypeName>)
    requires Honest(lib) && NoSets(v)
    requires v.Obj? && !SomePoser(v) ==> nestedTypes == RecordedTypes(v)
    ensures Restored(lib, v, InOrder(nestedTypes)) == Got(v) <==> Restorable(v)
  {
    if v.Obj? && !SomePoser(v) {
      assert nestedTypes.Keys == Record(v, "", false);
      DatesInOrder(nestedTypes);
    }
    RestoredExactlyWhen(lib, v, InOrder(nestedTypes), Sorted(nestedTypes.Keys));
  }

  // ---------------------------------------------------------------------------------
  // Conditions on keys

  lemma {:induction false} CleanIsProperty(key: string)
    requires Clean(key)
    ensures Kind(key).Property?
  {
    if EndsWith(key, "[]") {
      OccursAt(key, |key| - 2, "[");
    } else if EndsWith(key, "$SET") {
      OccursAt(key, |key| - 4, "$SET");
    } else if EndsWith(key, "$MAP") {
      OccursAt(key, |key| - 4, "$MAP");
    }
  }

  /** Clean keys on the way to every date are enough for the paths. */
  lemma {:induction false} CleanKeysAreFaithful(v: Value)
    requires v.Obj? && forall p | p in Spots(v, false) :: AllClean(p)
    ensures PathsFaithful(v) && !MarkedDate(v)
  {
    forall p, i | p in Spots(v, false) && 0 <= i < |p| ensures Kind(p[i]).Property? {
      CleanIsProperty(p[i]);
    }
    forall p | p in Spots(v, false) ensures Image(v, p) == p {
      SpotsLead(v, false, p);
      CleanIsFaithful(v, p);
    }
  }

  /** A date under a key with a dot or an exclamation mark never comes back. */
  lemma {:induction false} DottedKeyIsNeverRestored(lib: Library, v: Value, paths: seq<string>, p: Address)
    requires Honest(lib) && NoSets(v) && v.Obj? && p in Spots(v, false) && !KeysFree(p)
    requires !SomePoser(v) ==> Enumerates(paths, Record(v, "", false))
    ensures Restored(lib, v, Dates(paths)) != Got(v)
  {
    RestoredExactlyWhen(lib, v, Dates(paths), paths);
    ImageFree(v, p);
  }

  /** An own property named hasOwnProperty beside a date makes reading throw, whatever its value. */
  lemma {:induction false} HiddenLookupThrows(lib: Library, own: Value, key: string, t: int)
    requires key != "hasOwnProperty" && key != "constructor" && key != PROTO_KEY
    ensures Restored(lib, Obj(map["hasOwnProperty" := own, key := Date(t)]), Dates([key])) == Thrown
  {
    var v := Obj(map["hasOwnProperty" := own, key := Date(t)]);
    assert v.fields.Keys == {"hasOwnProperty", key} && v.fields["hasOwnProperty"] == own;
    assert "constructor" !in v.fields.Keys && PROTO_KEY !in v.fields.Keys && !PosesAsBuiltIn(v);
    if Write(lib, v).Got? {
      WrittenFields(lib, v);
      var raw := Write(lib, v).value;
      assert "hasOwnProperty" in raw.fields.Keys;
      assert Dates([key])[0] == Typed(key, DateType);
      assert Touch(lib, raw, Segments(key), DateType) == Thrown;
    }
  }

  lemma {:induction false} WrittenFields(lib: Library, v: Value)
    requires v.Obj? && !PosesAsBuiltIn(v) && PROTO_KEY !in v.fields && Write(lib, v).Got?
    ensures Write(lib, v).value.Obj? && Write(lib, v).value.fields.Keys == v.fields.Keys
  {
  }

  /** An object whose constructor property names the date type makes writing throw. */
  lemma {:induction false} PosingDateThrows(lib: Library, types: seq<Typed>)
    ensures var poser := Obj(map["constructor" := Obj(map["name" := Text("Date")])]);
      Restored(lib, Obj(map["x" := poser]), types) == Thrown
  {
    var poser := Obj(map["constructor" := Obj(map["name" := Text("Date")])]);
    var v := Obj(map["x" := poser]);
    assert Poses(poser, "Date") && Write(lib, poser) == Thrown;
    assert v.fields["x"] == poser;
  }

  // ---------------------------------------------------------------------------------
  // Collection marks as keys

  predicate IsMark(key: string) {
    key in {"[]", "$SET", "$MAP"}
  }

  lemma {:induction false} CalmIsPlain(s: string)
    requires forall i | 0 <= i < |s| :: !StartsMark(s[i])
    ensures Plain(s)
  {
    if s != "" {
      assert !StartsMark(s[0]);
      CalmIsPlain(s[1..]);
    }
  }

  lemma {:induction false} SegmentsOfMark(mark: string)
    requires IsMark(mark)
    ensures Segments(mark) == ["", mark]
  {
    MarkedMark(mark);
    assert "!" + mark == "" + ['!'] + mark;
    SplitFirst("", '!', mark, SEPARATORS);
    SplitOne(mark, SEPARATORS);
  }

  lemma {:induction false} MarkIsPiece(mark: string)
    requires IsMark(mark)
    ensures PieceKey(mark)
  {
    CalmIsPlain(mark[1..]);
  }

  lemma {:induction false} MarkedMark(mark: string)
    requires IsMark(mark)
    ensures Marked(mark) == "!" + mark && FreeOf(mark, SEPARATORS)
  {
    MarkIsPiece(mark);
    MarkedPiece(mark);
    MarkIsPut(mark);
  }

  /** The first replacement that finds its pattern puts a mark in front. */
  lemma {:induction false} MarkIsPut(mark: string)
    requires IsMark(mark)
    ensures Marked(mark) != mark
  {
    MarkIsPiece(mark);
    var stage := if mark == "[]" then 0 else if mark == "$MAP" then 1 else 2;
    assert Pattern(stage) <= mark;
    MarkOfPiece(mark, "[");
    MarkOfPiece(mark, "$MAP");
    MarkOfPiece(mark, "$SET");
    MarkBehindMark(mark, "$MAP");
    MarkBehindMark(mark, "$SET");
  }

  /** Every key gives at least one segment, and a collection mark two. */
  lemma {:induction false} SegmentsOfKeys(p: Address, i: nat)
    requires i < |p|
    ensures |Segments(Join(p))| >= |p| + |Segments(p[i])| - 1
    decreases |p|
  {
    JoinCons(p);
    if |p| > 1 {
      SegmentsOfTwo(p[0], Join(p[1..]));
      if i > 0 {
        SegmentsOfKeys(p[1..], i - 1);
      } else {
        SegmentsOfKeys(p[1..], 0);
      }
    }
  }

  lemma {:induction false} MarkPiece(key: string)
    requires PieceKey(key) && !Kind(key).Property?
    ensures IsMark(key)
  {
    MarkAtEnd(key, "[]", "[");
    MarkAtEnd(key, "$SET", "$SET");
    MarkAtEnd(key, "$MAP", "$MAP");
  }

  /** A path leads to its date and yet a key on the way is a collection mark only if that is the
      second key, under an empty one at the root. */
  lemma {:induction false} MarksOnlyUnderEmptyKey(v: Value, p: Address)
    requires v.Obj? && PathsFaithful(v) && p in Spots(v, false)
    ensures !OnlyProperties(p) <==> |p| > 1 && p[0] == "" && IsMark(p[1])
  {
    assert Image(v, p) == p;
    if !OnlyProperties(p) {
      var i :| 0 <= i < |p| && !Kind(p[i]).Property?;
      SegmentsArePieceKeys(PathOf(v, "", p));
      MarkPiece(p[i]);
      SpotsLead(v, false, p);
      MarkIsSecond(v, p, i);
    }
  }

  lemma {:induction false} MarkIsSecond(v: Value, p: Address, i: nat)
    requires v.Obj? && p in Spots(v, false) && Leads(v, p) && Image(v, p) == p && i < |p| && IsMark(p[i])
    ensures i == 1 && p[0] == ""
  {
    PathFromRoot(v, p);
    SegmentsOfMark(p[i]);
    SegmentsOfKeys(p, i);
    assert p[0] == "" && i > 0;
    SecondStep(v, p);
    ImageFree(v, p);
    ImageOfFreeKeys(v, p);
    if i > 1 {
      ElidedImage(v, p);
      SegmentsOfFirst(p[1..], i - 1);
      EmptySegments(p[1..][0]);
    }
  }

  /** Under an object under the empty key, the path is that of the other keys. */
  lemma {:induction false} ElidedImage(v: Value, p: Address)
    requires v.Obj? && Leads(v, p) && |p| > 1 && p[0] == "" && p[1] != "" && Own(v, "").Obj?
    ensures Image(v, p) == Segments(Join(p[1..]))
  {
    PathFromRoot(v, p);
    PathFromRoot(Own(v, ""), p[1..]);
  }

  /** If a later key gives two segments and there is only one segment too many, the first key
      gives one. */
  lemma {:induction false} SegmentsOfFirst(rest: Address, i: nat)
    requires 0 < i < |rest| && |Segments(rest[i])| == 2 && Segments(Join(rest)) == [""] + rest
    ensures Segments(rest[0]) == [""]
  {
    JoinCons(rest);
    SegmentsOfTwo(rest[0], Join(rest[1..]));
    SegmentsOfKeys(rest[1..], i - 1);
    var first := Segments(rest[0]);
    assert |first| == 1 && first[0] == (first + Segments(Join(rest[1..])))[0] == "";
  }

  lemma {:induction false} EmptySegments(key: string)
    requires Segments(key) == [""] && FreeOf(key, SEPARATORS)
    ensures key == ""
  {
    UnmarkIdle(key);
    MarkedText(key);
    JoinUndoesSplit(Marked(key));
    assert Join([""]) == "" + Dotted([]);
  }

  function OneField(key: string, child: Value): (v: Value)
    ensures v.Obj? && v.fields.Keys == {key} && v.fields[key] == child
  {
    Obj(map[key := child])
  }

  lemma {:induction false} SpotsOneField(key: string, child: Value, skip: bool, p: Address)
    ensures p in Spots(OneField(key, child), skip)
            <==> p != [] && p[0] == key && p[1..] in Spots(child, InnerSkip(skip, key))
  {
    var v := OneField(key, child);
    assert v.fields[key] == child;
    if p in Spots(v, skip) {
      var k, q :| k in v.fields && q in Spots(v.fields[k], InnerSkip(skip, k)) && p == [k] + q;
      assert p[1..] == q;
    }
    if p != [] && p[0] == key {
      assert p == [key] + p[1..];
    }
  }

  lemma {:induction false} WriteOneField(lib: Library, key: string, child: Value)
    requires key != "constructor" && key != PROTO_KEY && Write(lib, child).Got?
    ensures Write(lib, OneField(key, child)) == Got(OneField(key, Write(lib, child).value))
  {
    var v := OneField(key, child);
    assert "constructor" !in v.fields.Keys && PROTO_KEY !in v.fields.Keys && v.fields[key] == child;
    assert Write(lib, v).value.fields == map[key := Write(lib, child).value];
  }

  /** A document with one date, under a collection mark under an empty key. */
  function UnderMark(mark: string, date: Value): Value {
    OneField("", OneField(mark, date))
  }

  /** What matters of a collection mark as a key. */
  ghost predicate MissesItself(key: string) {
    && key != METADATA_KEY && key != PROTO_KEY && key != "constructor" && key != "hasOwnProperty" && key != "length"
    && Segments(key) == ["", key] && Name(key) == "" && key != "" && !Kind(key).Property?
  }

  lemma {:induction false} MarkMissesItself(mark: string)
    requires IsMark(mark)
    ensures MissesItself(mark)
    ensures Kind(mark) == if mark == "[]" then Items else if mark == "$SET" then Members else Entries
  {
    SegmentsOfMark(mark);
    assert |mark| <= 4;
  }

  lemma {:induction false} EmptyIsProperty()
    ensures Kind("").Property? && "" != METADATA_KEY && "" != PROTO_KEY && "" != "constructor" && "" != "hasOwnProperty"
  {
  }

  lemma {:induction false} SpotUnderKey(key: string, t: int, p: Address)
    requires MissesItself(key)
    ensures p in Spots(UnderMark(key, Date(t)), false) <==> p == ["", key]
  {
    var date := Date(t);
    EmptyIsProperty();
    SpotsOneField("", OneField(key, date), false, p);
    if p != [] {
      SpotsOneField(key, date, false, p[1..]);
    }
    SpotsOfDate(t);
    if p != [] && p[0] == "" && p[1..] == [key] {
      assert p == [""] + p[1..] == ["", key];
    }
  }

  lemma {:induction false} SpotsOfDate(t: int)
    ensures Spots(Date(t), false) == {[]}
  {
  }

  lemma {:induction false} PathUnderKey(key: string, t: int)
    requires MissesItself(key)
    ensures var v := UnderMark(key, Date(t));
      Record(v, "", false) == {key} && PathsFaithful(v)
  {
    var v := UnderMark(key, Date(t));
    forall p ensures p in Spots(v, false) <==> p == ["", key] {
      SpotUnderKey(key, t, p);
    }
    PathToDate(key, Date(t));
    RecordIsPathsOf(v);
  }

  lemma {:induction false} PathToDate(key: string, date: Value)
    ensures PathOf(UnderMark(key, date), "", ["", key]) == key
  {
    var v, inner, p := UnderMark(key, date), OneField(key, date), ["", key];
    assert p[1..] == [key] && p[1..][1..] == [];
    assert Own(v, "") == inner && Child("", "") == "";
    assert PathOf(inner, "", [key]) == key;
  }

  lemma {:induction false} ReadUnderKey(lib: Library, key: string, t: int)
    requires MissesItself(key)
    ensures var v := UnderMark(key, Date(t));
      Restored(lib, v, Dates([key]))
      == if Kind(key).Members? then Got(UnderMark(key, Text(lib.print_(t)))) else Thrown
  {
    var raw := UnderMark(key, Text(lib.print_(t)));
    WrittenUnderKey(lib, key, t);
    TouchUnderKey(lib, key, Text(lib.print_(t)));
    OneType(lib, UnderMark(key, Date(t)), raw, key);
  }

  lemma {:induction false} WrittenUnderKey(lib: Library, key: string, t: int)
    requires MissesItself(key)
    ensures Write(lib, UnderMark(key, Date(t))) == Got(UnderMark(key, Text(lib.print_(t))))
  {
    EmptyIsProperty();
    WriteOneField(lib, key, Date(t));
    WriteOneField(lib, "", OneField(key, Date(t)));
  }

  lemma {:induction false} TouchUnderKey(lib: Library, key: string, text: Value)
    requires MissesItself(key)
    ensures Touch(lib, UnderMark(key, text), Segments(key), DateType)
         == if Kind(key).Members? then Got(UnderMark(key, text)) else Thrown
  {
    var inner := OneField(key, text);
    EmptyIsProperty();
    TouchUnlisted(lib, inner, key);
    TouchInOneField(lib, "", inner, [key]);
    assert [""] + [key] == Segments(key);
  }

  lemma {:induction false} OneType(lib: Library, v: Value, raw: Value, path: string)
    requires Write(lib, v) == Got(raw) && raw.Obj?
    ensures Restored(lib, v, Dates([path])) == Touch(lib, raw, Segments(path), DateType)
  {
    var types := Dates([path]);
    assert types[0] == Typed(path, DateType) && types[1..] == [];
    assert TouchAll(lib, raw, types) == Touch(lib, raw, Segments(path), DateType);
    assert Restored(lib, v, types) == TouchAll(lib, raw, types);
  }

  /** Its path leads to the date, but reading it looks for a collection instead: an array and a map
      are missed, which throws, and no set is found, so the date stays text. */
  lemma {:induction false} MarkedDateIsLost(lib: Library, mark: string, t: int)
    requires IsMark(mark)
    ensures var v := UnderMark(mark, Date(t));
      && Record(v, "", false) == {mark} && PathsFaithful(v)
      && Restored(lib, v, Dates([mark]))
         == if mark == "$SET" then Got(UnderMark(mark, Text(lib.print_(t)))) else Thrown
  {
    MarkMissesItself(mark);
    PathUnderKey(mark, t);
    ReadUnderKey(lib, mark, t);
  }

  lemma {:induction false} TouchInOneField(lib: Library, key: string, child: Value, segments: seq<string>)
    requires Kind(key).Property? && key != "hasOwnProperty"
    ensures Touch(lib, OneField(key, child), [key] + segments, DateType)
         == match Touch(lib, child, segments, DateType)
            case Thrown => Thrown
            case Got(child') => Got(OneField(key, child'))
  {
    var v, all := OneField(key, child), [key] + segments;
    assert all[0] == key && all[1..] == segments;
    var touched := Touch(lib, child, segments, DateType);
    assert touched.Got? ==> Put(v, key, touched.value).fields == map[key := touched.value];
  }

  /** Read as a list, an object without a length is empty; it is no array and no map. */
  lemma {:induction false} TouchUnlisted(lib: Library, v: Value, segment: string)
    requires v.Obj? && "hasOwnProperty" !in v.fields && "length" !in v.fields
    requires !Kind(segment).Property? && Name(segment) !in v.fields
    ensures Touch(lib, v, [segment], DateType) == if Kind(segment).Members? then Got(v) else Thrown
  {
    var segments := [segment];
    assert segments[0] == segment && segments[1..] == [];
    assert forall k | k in v.fields :: !IsIndex(k, 0);
  }
}
