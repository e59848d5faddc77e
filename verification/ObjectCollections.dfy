/** What reading makes of lists and sets: paths with collection marks reach every element. */
module ObjectCollections {
  import opened Decimals
  import opened ObjectMapping
  import opened ObjectMappingExact
  import opened ObjectPaths
  import opened ObjectReach
  import opened SortedTexts
  import opened Texts
  import opened Wrappers

  // ---------------------------------------------------------------------------------
  // What is a collection, and what it holds

  /** Arrays have items; arrays and sets have entries; everything but undefined and null can be
      listed, an object if its length can be told. */
  predicate CanBeRead(lib: Library, v: Value, kind: Reach) {
    match kind
    case Items => v.Arr?
    case Entries => v.Arr? || v.SetOf?
    case Members => v != Undefined && v != Null && (v.Obj? ==> ListLength(lib, v.fields).Some?)
    case Property => false
  }

  /** The key is the decimal notation of a number below n. */
  ghost predicate IsPosition(k: string, n: nat) {
    exists i: nat :: i < n && Decimal(i) == k
  }

  ghost predicate IsElement(lib: Library, v: Value, x: Value) {
    match v
    case Arr(items) => x in items
    case SetOf(members) => x in members
    case Text(s) => exists c :: c in s && x == Text([c])
    case Obj(fields) =>
      ListLength(lib, fields).Some?
      && exists k :: k in fields && IsPosition(k, ListLength(lib, fields).value) && fields[k] == x
    case _ => false
  }

  predicate TakesValues(v: Value, kind: Reach) {
    (v.Arr? && kind.Items?) || (v.SetOf? && kind.Members?)
  }

  /** An object counts as a list of the length that it says, and as an empty one if it says none. */
  lemma {:induction false} LengthIsSaid(lib: Library, length: Value, others: map<string, Value>)
    ensures ListLength(lib, others["length" := length]) == lib.lengthOf(length)
    ensures "length" !in others ==> ListLength(lib, others) == Some(0)
  {
  }

  lemma {:induction false} ListedFields(fields: map<string, Value>, n: nat, k: string)
    ensures IsIndex(k, n) <==> IsPosition(k, n)
  {
    if IsPosition(k, n) {
      var i: nat :| i < n && Decimal(i) == k;
      ValueOfDecimal(i);
    }
  }

  lemma {:induction false} ReplacedExactlyWhen(lib: Library, pending: seq<Value>, members: seq<Value>, type_: TypeName)
    ensures Replaced(lib, pending, members, type_).Got? <==> forall x | x in pending :: Retype(lib, x, type_).Got?
    decreases |pending|
  {
    if pending != [] {
      var x, rest := pending[0], pending[1..];
      assert forall y :: y in pending <==> y == x || y in rest;
      if x == Undefined {
        ReplacedExactlyWhen(lib, rest, members, type_);
      } else if Retype(lib, x, type_).Got? {
        ReplacedExactlyWhen(lib, rest, Added(Removed(members, x), Retype(lib, x, type_).value), type_);
      }
    }
  }

  ghost predicate EachReadable(lib: Library, v: Value, kind: Reach, segments: seq<string>, type_: TypeName) {
    && CanBeRead(lib, v, kind)
    && forall x | IsElement(lib, v, x) ::
         if segments == [] && !TakesValues(v, kind) then x == Undefined else Touch(lib, x, segments, type_).Got?
  }

  lemma {:induction false} FieldsReadExactlyWhen(lib: Library, v: Value, segments: seq<string>, type_: TypeName)
    requires v.Obj? && ListLength(lib, v.fields).Some?
    ensures TouchEach(lib, v, Members, segments, type_).Got? <==> EachReadable(lib, v, Members, segments, type_)
  {
    var n := ListLength(lib, v.fields).value;
    forall k | k in v.fields ensures IsIndex(k, n) <==> IsPosition(k, n) {
      ListedFields(v.fields, n, k);
    }
    assert forall k | k in v.fields && IsPosition(k, n) :: IsElement(lib, v, v.fields[k]);
    if segments == [] {
      assert forall k | k in v.fields && IsIndex(k, n) :: IsElement(lib, v, v.fields[k]);
    }
  }

  lemma {:induction false} MembersReadExactlyWhen(lib: Library, v: Value, kind: Reach, segments: seq<string>,
                                                  type_: TypeName)
    requires v.SetOf? && !kind.Property?
    ensures TouchEach(lib, v, kind, segments, type_).Got? <==> EachReadable(lib, v, kind, segments, type_)
  {
    ReplacedExactlyWhen(lib, v.members, v.members, type_);
    forall x ensures Touch(lib, x, [], type_) == Retype(lib, x, type_) {
    }
    assert forall i | 0 <= i < |v.members| :: IsElement(lib, v, v.members[i]);
  }

  /** Reading inside a collection succeeds exactly when it is one of the kind and every element can
      be read; one that takes no values must hold nothing defined when its elements are to be set. */
  lemma {:induction false} EachReadExactlyWhen(lib: Library, v: Value, kind: Reach, segments: seq<string>,
                                               type_: TypeName)
    requires !kind.Property?
    ensures TouchEach(lib, v, kind, segments, type_).Got? <==> EachReadable(lib, v, kind, segments, type_)
  {
    match v
    case Arr(items) =>
      assert forall i | 0 <= i < |items| :: IsElement(lib, v, items[i]);
    case SetOf(_) =>
      MembersReadExactlyWhen(lib, v, kind, segments, type_);
    case Text(s) =>
      assert forall i | 0 <= i < |s| :: s[i] in s && IsElement(lib, v, Text([s[i]])) && Letters(s)[i] == Text([s[i]]);
    case Obj(fields) =>
      if kind.Members? && ListLength(lib, fields).Some? {
        FieldsReadExactlyWhen(lib, v, segments, type_);
      }
    case _ =>
  }

  /** Then every element is read, in its own place, and nothing else changes. */
  lemma {:induction false} EachIsRead(lib: Library, v: Value, kind: Reach, segments: seq<string>, type_: TypeName)
    requires !kind.Property? && TouchEach(lib, v, kind, segments, type_).Got?
    ensures var w := TouchEach(lib, v, kind, segments, type_).value;
      if v.Arr? && (segments != [] || kind.Items?) then
        w.Arr? && |w.items| == |v.items|
        && forall i | 0 <= i < |v.items| :: Touch(lib, v.items[i], segments, type_) == Got(w.items[i])
      else if v.SetOf? && segments != [] then
        w.SetOf? && |w.members| == |v.members|
        && forall i | 0 <= i < |v.members| :: Touch(lib, v.members[i], segments, type_) == Got(w.members[i])
      else (v.SetOf? && kind.Members?) || (v.Obj? && segments != []) || w == v
  {
  }

  /** Of an object that is read as a list the fields at the listed positions are read. */
  lemma {:induction false} ListedFieldsAreRead(lib: Library, v: Value, segments: seq<string>, type_: TypeName,
                                               k: string)
    requires v.Obj? && k in v.fields && segments != [] && TouchEach(lib, v, Members, segments, type_).Got?
    ensures var w := TouchEach(lib, v, Members, segments, type_).value;
      && w.Obj? && w.fields.Keys == v.fields.Keys && ListLength(lib, v.fields).Some?
      && if IsPosition(k, ListLength(lib, v.fields).value) then
           Touch(lib, v.fields[k], segments, type_) == Got(w.fields[k])
         else w.fields[k] == v.fields[k]
  {
    ListedFields(v.fields, ListLength(lib, v.fields).value, k);
  }

  // ---------------------------------------------------------------------------------
  // Where there is nothing to look into

  /** Below a value that counts as missing nothing is looked up, whatever the path asks for. */
  lemma {:induction false} NothingBelowBlank(lib: Library, v: Value, segments: seq<string>, type_: TypeName)
    requires v in [Undefined, Null, Bool(false), Number(0.0), Text("")] && segments != []
    ensures Touch(lib, v, segments, type_) == Got(v)
  {
    var blanks := [Undefined, Null, Bool(false), Number(0.0), Text("")];
    var i :| 0 <= i < |blanks| && blanks[i] == v;
  }

  /** Any other value that is neither array nor object has no items, and asking for them throws. */
  lemma {:induction false} NoItemsThrows(lib: Library, v: Value, rest: seq<string>, type_: TypeName)
    requires v !in [Undefined, Null, Bool(false), Number(0.0), Text("")] && !v.Arr? && !v.Obj?
    ensures Touch(lib, v, ["[]"] + rest, type_).Thrown?
  {
    var segments, blanks := ["[]"] + rest, [Undefined, Null, Bool(false), Number(0.0), Text("")];
    assert segments[0] == "[]" && segments[1..] == rest && Kind("[]").Items?;
    assert blanks[0] == Undefined && blanks[1] == Null && blanks[2] == Bool(false);
    assert blanks[3] == Number(0.0) && blanks[4] == Text("");
    assert Touch(lib, v, segments, type_) == TouchEach(lib, v, Items, rest, type_);
  }

  /** A set holds dates, sets, lists and objects as often as they were added, anything else once. */
  lemma {:induction false} HeldAsOftenAsAdded(members: seq<Value>, v: Value)
    ensures Added(members, v)
         == if !v.Date? && !v.SetOf? && !v.Arr? && !v.Obj? && v in members then members else members + [v]
  {
  }

  // ---------------------------------------------------------------------------------
  // Lists

  /** All items of an array, for any rest of the path: each becomes what it becomes by itself. */
  lemma {:induction false} AllItems(lib: Library, items: seq<Value>, rest: seq<string>, type_: TypeName)
    ensures var o := Touch(lib, Arr(items), ["[]"] + rest, type_);
      && (o.Got? <==> forall i | 0 <= i < |items| :: Touch(lib, items[i], rest, type_).Got?)
      && (o.Got? ==> o.value.Arr? && |o.value.items| == |items|
                     && forall i | 0 <= i < |items| :: Touch(lib, items[i], rest, type_) == Got(o.value.items[i]))
  {
    var v, segments := Arr(items), ["[]"] + rest;
    assert segments[0] == "[]" && segments[1..] == rest;
    assert Kind("[]").Items? && Name("[]") == "";
    assert !HasOwn(v, "");
    assert Touch(lib, v, segments, type_) == TouchEach(lib, v, Items, rest, type_);
    EachReadExactlyWhen(lib, v, Items, rest, type_);
    forall i | 0 <= i < |items| ensures IsElement(lib, v, items[i]) {
    }
    if Touch(lib, v, segments, type_).Got? {
      EachIsRead(lib, v, Items, rest, type_);
    }
  }

  lemma {:induction false} StartsInFront(a: string, b: string, pattern: string)
    requires a != "" && pattern != "" && (b == "" || b[0] !in pattern[1..])
    ensures pattern <= a + b ==> pattern <= a
  {
    assert |pattern| > |a| ==> pattern[|a|] == pattern[1..][|a| - 1];
    assert b != "" ==> (a + b)[|a|] == b[0];
  }

  lemma {:induction false} MarkBehind(a: string, b: string, pattern: string)
    requires pattern != "" && (b == "" || b[0] !in pattern[1..]) && !Occurs(a, pattern)
    ensures Mark(a + b, pattern) == a + Mark(b, pattern)
  {
    if a == "" {
      assert a + b == b;
    } else {
      StartsInFront(a, b, pattern);
      assert (a + b)[0] == a[0] && (a + b)[1..] == a[1..] + b;
      MarkBehind(a[1..], b, pattern);
      assert [a[0]] + (a[1..] + Mark(b, pattern)) == a + Mark(b, pattern);
    }
  }

  lemma {:induction false} MarkedBehind(key: string, mark: string)
    requires Clean(key) && IsMark(mark)
    ensures Marked(key + mark) == key + Marked(mark)
  {
    var once := Mark(mark, "[");
    MarkBehind(key, mark, "[");
    StartStays(mark, "[");
    MarkBehind(key, once, "$MAP");
    StartStays(once, "$MAP");
    MarkBehind(key, Mark(once, "$MAP"), "$SET");
  }

  lemma {:induction false} StartStays(s: string, pattern: string)
    requires pattern != "" && s != "" && s[0] in {'[', '$', '!'}
    ensures Mark(s, pattern) != "" && Mark(s, pattern)[0] in {'[', '$', '!'}
  {
  }

  /** A mark behind a clean key becomes a segment of its own. */
  lemma {:induction false} SegmentsOfMarkedKey(key: string, mark: string)
    requires Clean(key) && IsMark(mark)
    ensures Segments(key + mark) == [key, mark]
  {
    MarkedMark(mark);
    MarkedBehind(key, mark);
    assert key + ("!" + mark) == key + ['!'] + mark;
    SplitFirst(key, '!', mark, SEPARATORS);
    SplitOne(mark, SEPARATORS);
  }

  lemma {:induction false} SegmentsOfKey(key: string)
    requires Clean(key)
    ensures Segments(key) == [key]
  {
    SegmentsUndoJoined([key]);
    assert [key][1..] == [] && Joined("", [key]) == Joined(Child("", key), [key][1..]) == key;
  }

  /** An object in which one property is read further. */
  lemma {:induction false} ReadProperty(lib: Library, v: Value, key: string, rest: seq<string>, type_: TypeName)
    requires v.Obj? && key in v.fields && "hasOwnProperty" !in v.fields && Clean(key)
    ensures Touch(lib, v, [key] + rest, type_)
         == match Touch(lib, v.fields[key], rest, type_)
            case Thrown => Thrown
            case Got(child) => Got(Obj(v.fields[key := child]))
  {
    var segments := [key] + rest;
    assert segments[0] == key && segments[1..] == rest;
    CleanIsProperty(key);
  }

  function Printed(lib: Library, dates: seq<Option<int>>): seq<Value> {
    seq(|dates|, i requires 0 <= i < |dates| => if dates[i].Some? then Text(lib.print_(dates[i].value)) else Null)
  }

  function AsDates(dates: seq<Option<int>>): seq<Value> {
    seq(|dates|, i requires 0 <= i < |dates| => if dates[i].Some? then Date(dates[i].value) else Null)
  }

  lemma {:induction false} ItemsBecomeDates(lib: Library, dates: seq<Option<int>>)
    requires Undoes(lib)
    ensures Touch(lib, Arr(Printed(lib, dates)), ["[]"], DateType) == Got(Arr(AsDates(dates)))
  {
    var items := Printed(lib, dates);
    assert ["[]"] + [] == ["[]"];
    AllItems(lib, items, [], DateType);
    forall i | 0 <= i < |items| ensures Touch(lib, items[i], [], DateType) == Got(AsDates(dates)[i]) {
    }
    var o := Touch(lib, Arr(items), ["[]"], DateType);
    assert o.value.items == AsDates(dates);
  }

  lemma {:induction false} OneTypeAlone(lib: Library, v: Value, typed: Typed)
    ensures TouchAll(lib, v, [typed]) == Touch(lib, v, Segments(typed.path), typed.type_)
  {
    assert [typed][1..] == [];
  }

  lemma {:induction false} OneTypeInOrder(lib: Library, v: Value, path: string, type_: TypeName)
    ensures TouchAll(lib, v, InOrder(map[path := type_])) == Touch(lib, v, Segments(path), type_)
  {
    var types := InOrder(map[path := type_]);
    assert Sorted({path})[0] in Sorted({path});
    assert map[path := type_].Keys == {path};
    assert types == [Typed(path, type_)];
    OneTypeAlone(lib, v, Typed(path, type_));
  }

  /** A list of printed dates and nulls, read with the key, its mark and the type of dates, gives the
      list of these dates; no other property changes. */
  lemma {:induction false} ListOfDatesIsRead(lib: Library, v: Value, key: string, dates: seq<Option<int>>)
    requires Undoes(lib) && v.Obj? && "hasOwnProperty" !in v.fields && Clean(key)
    requires key in v.fields && v.fields[key] == Arr(Printed(lib, dates))
    ensures TouchAll(lib, v, InOrder(map[key + "[]" := DateType]))
         == Got(Obj(v.fields[key := Arr(AsDates(dates))]))
  {
    OneTypeInOrder(lib, v, key + "[]", DateType);
    SegmentsOfMarkedKey(key, "[]");
    assert [key] + ["[]"] == [key, "[]"];
    ReadProperty(lib, v, key, ["[]"], DateType);
    ItemsBecomeDates(lib, dates);
  }

  // ---------------------------------------------------------------------------------
  // A property of every item

  /** A list of objects and nulls in which every object holds a date as text below the key. */
  predicate Dated(lib: Library, item: Value, sub: string, date: Option<int>) {
    match date
    case None => item == Null
    case Some(t) =>
      && item.Obj? && "hasOwnProperty" !in item.fields
      && sub in item.fields && item.fields[sub] == Text(lib.print_(t))
  }

  function WithDate(item: Value, sub: string, date: Option<int>): Value {
    if date.Some? && item.Obj? then Obj(item.fields[sub := Date(date.value)]) else item
  }

  lemma {:induction false} SegmentsOfItemProperty(key: string, sub: string)
    requires Clean(key) && Clean(sub)
    ensures Segments(key + "[]." + sub) == [key] + (["[]"] + [sub])
  {
    SegmentsOfMarkedKey(key, "[]");
    SegmentsOfTwo(key + "[]", sub);
    SegmentsOfKey(sub);
    assert key + "[]" + "." + sub == key + "[]." + sub;
    assert [key, "[]"] + [sub] == [key] + (["[]"] + [sub]);
  }

  /** Reading a date below every item of a list gives each object its own date. */
  lemma {:induction false} DateOfEveryItemIsRead(lib: Library, v: Value, key: string, sub: string,
                                                 items: seq<Value>, dates: seq<Option<int>>)
      returns (items': seq<Value>)
    requires Undoes(lib) && v.Obj? && "hasOwnProperty" !in v.fields && Clean(key) && Clean(sub)
    requires key in v.fields && v.fields[key] == Arr(items)
    requires |items| == |dates| && forall i | 0 <= i < |items| :: Dated(lib, items[i], sub, dates[i])
    ensures TouchAll(lib, v, InOrder(map[key + "[]." + sub := DateType])) == Got(Obj(v.fields[key := Arr(items')]))
    ensures |items'| == |items| && forall i | 0 <= i < |items| :: items'[i] == WithDate(items[i], sub, dates[i])
  {
    OneTypeInOrder(lib, v, key + "[]." + sub, DateType);
    SegmentsOfItemProperty(key, sub);
    ReadProperty(lib, v, key, ["[]"] + [sub], DateType);
    AllItems(lib, items, [sub], DateType);
    forall i | 0 <= i < |items|
      ensures Touch(lib, items[i], [sub], DateType) == Got(WithDate(items[i], sub, dates[i]))
    {
      if dates[i].Some? {
        ReadProperty(lib, items[i], sub, [], DateType);
        assert [sub] + [] == [sub];
      }
    }
    items' := Touch(lib, Arr(items), ["[]"] + [sub], DateType).value.items;
  }

  // ---------------------------------------------------------------------------------
  // Sets

  predicate Repeats(items: seq<Value>, i: nat)
    requires i < |items|
  {
    Primitive(items[i]) && items[i] in items[..i]
  }

  lemma {:induction false} DistinctHasAll(items: seq<Value>)
    ensures forall x :: x in Distinct(items) <==> x in items
  {
    if items != [] {
      var front, last := items[..|items| - 1], items[|items| - 1];
      DistinctHasAll(front);
      assert items == front + [last];
    }
  }

  ghost predicate Picks(items: seq<Value>, at: seq<nat>, members: seq<Value>) {
    && |at| == |members|
    && (forall j | 0 <= j < |at| :: at[j] < |items| && members[j] == items[at[j]])
    && (forall j, k | 0 <= j < k < |at| :: at[j] < at[k])
  }

  ghost predicate AllUnrepeated(items: seq<Value>, at: seq<nat>) {
    forall i: nat | i < |items| :: i in at <==> !Repeats(items, i)
  }

  lemma {:induction false} OneMoreItem(front: seq<Value>, last: Value, at: seq<nat>)
    requires AllUnrepeated(front, at) && forall j | 0 <= j < |at| :: at[j] < |front|
    ensures AllUnrepeated(front + [last], if Primitive(last) && last in front then at else at + [|front|])
  {
    var items := front + [last];
    assert items[..|front|] == front;
    forall i: nat | i < |front| ensures Repeats(front, i) == Repeats(items, i) {
      assert front[..i] == items[..i] && front[i] == items[i];
    }
  }

  lemma {:induction false} OneMorePick(front: seq<Value>, last: Value, at: seq<nat>, members: seq<Value>)
    requires Picks(front, at, members)
    ensures Picks(front + [last], at, members)
    ensures Picks(front + [last], at + [|front|], members + [last])
  {
    forall j | 0 <= j < |at| ensures (front + [last])[at[j]] == front[at[j]] {
    }
  }

  /** A list read as a set holds, in the order of the list, every item that is no repetition of a
      primitive; `at` gives their positions. */
  lemma {:induction false} SetHoldsDistinctItems(items: seq<Value>) returns (at: seq<nat>)
    ensures Picks(items, at, Distinct(items)) && AllUnrepeated(items, at)
  {
    if items == [] {
      at := [];
    } else {
      var front, last := items[..|items| - 1], items[|items| - 1];
      var before := SetHoldsDistinctItems(front);
      assert items == front + [last];
      OneMoreItem(front, last, before);
      OneMorePick(front, last, before, Distinct(front));
      DistinctHasAll(front);
      at := if Primitive(last) && last in front then before else before + [|front|];
    }
  }

  /** As a set, a set stays what it is, a list and a text become the set of their items and
      characters, undefined and null stay, and anything else throws. */
  lemma {:induction false} ReadAsSet(lib: Library, v: Value)
    ensures Retype(lib, v, SetType)
         == match v
            case SetOf(_) => Got(v)
            case Arr(items) => Got(SetOf(Distinct(items)))
            case Text(s) => Got(SetOf(Distinct(seq(|s|, i requires 0 <= i < |s| => Text([s[i]])))))
            case Undefined => Got(v)
            case Null => Got(v)
            case _ => Thrown
  {
    if v.Text? {
      assert Letters(v.s) == seq(|v.s|, i requires 0 <= i < |v.s| => Text([v.s[i]]));
    }
  }

  lemma {:induction false} ListBecomesSet(lib: Library, items: seq<Value>)
    ensures Retype(lib, Arr(items), SetType) == Got(SetOf(Distinct(items)))
  {
  }

  lemma {:induction false} ListBecomesSetBelow(lib: Library, v: Value, key: string, items: seq<Value>)
    requires v.Obj? && "hasOwnProperty" !in v.fields && Clean(key)
    requires key in v.fields && v.fields[key] == Arr(items)
    ensures Touch(lib, v, [key], SetType) == Got(Obj(v.fields[key := SetOf(Distinct(items))]))
  {
    assert [key] + [] == [key];
    ReadProperty(lib, v, key, [], SetType);
    ListBecomesSet(lib, items);
  }

  lemma {:induction false} RemovedFirst(members: seq<Value>)
    requires members != []
    ensures Removed(members, members[0]) == members[1..]
  {
  }

  /** Only the first member that equals the value is taken out. */
  lemma {:induction false} RemovedOne(members: seq<Value>, v: Value, i: nat)
    requires i <= |members| && v !in members[..i] && (i < |members| ==> members[i] == v)
    ensures Removed(members, v) == if i < |members| then members[..i] + members[i + 1..] else members
  {
    if i > 0 {
      var rest := members[1..];
      assert rest[..i - 1] == members[1..i] && members[0] in members[..i];
      RemovedOne(rest, v, i - 1);
      assert i < |members| ==> members[..i] + members[i + 1..] == [members[0]] + (rest[..i - 1] + rest[i..]);
    } else if i < |members| {
      assert members[..0] + members[1..] == members[1..];
    }
  }

  /** A set of distinct members is replaced by what its members become, in the same order. */
  lemma {:induction false} SetIsReplaced(lib: Library, pending: seq<Value>, done: seq<Value>, news: seq<Value>,
                                         type_: TypeName)
    requires |news| == |pending|
    requires forall i | 0 <= i < |pending| ::
               pending[i] != Undefined && Retype(lib, pending[i], type_) == Got(news[i]) && !Primitive(news[i])
    ensures Replaced(lib, pending, pending + done, type_) == Got(SetOf(done + news))
    decreases |pending|
  {
    if pending == [] {
      assert pending + done == done == done + news;
    } else {
      var members, rest := pending + done, pending[1..];
      assert members[0] == pending[0] && members[1..] == rest + done;
      RemovedFirst(members);
      assert Added(rest + done, news[0]) == rest + (done + [news[0]]);
      SetIsReplaced(lib, rest, done + [news[0]], news[1..], type_);
      assert done + [news[0]] + news[1..] == done + news;
    }
  }

  lemma {:induction false} SetMark(lib: Library, members: seq<Value>, type_: TypeName)
    ensures Touch(lib, SetOf(members), ["$SET"], type_) == Replaced(lib, members, members, type_)
  {
    var v, segments := SetOf(members), ["$SET"];
    assert segments[1..] == [] && Kind("$SET").Members? && Name("$SET") == "";
    assert Touch(lib, v, segments, type_) == TouchEach(lib, v, Members, [], type_);
  }

  /** All members of a set, by the mark alone. */
  lemma {:induction false} AllMembers(lib: Library, members: seq<Value>, news: seq<Value>, type_: TypeName)
    requires |news| == |members|
    requires forall i | 0 <= i < |members| ::
               members[i] != Undefined && Retype(lib, members[i], type_) == Got(news[i]) && !Primitive(news[i])
    ensures Touch(lib, SetOf(members), ["$SET"], type_) == Got(SetOf(news))
  {
    SetMark(lib, members, type_);
    assert members + [] == members && [] + news == news;
    SetIsReplaced(lib, members, [], news, type_);
  }

  lemma {:induction false} AtMostLonger(a: string, b: string)
    ensures AtMost(a, a + b)
  {
    if a != "" {
      assert (a + b)[1..] == a[1..] + b;
      AtMostLonger(a[1..], b);
    }
  }

  lemma {:induction false} SortedTwo(a: string, b: string)
    requires AtMost(a, b) && a != b
    ensures Sorted({a, b}) == [a, b]
  {
    var sorted := Sorted({a, b});
    assert sorted[0] in sorted && sorted[1] in sorted;
    SortedIsOrdered({a, b});
    AtMostIsAntisymmetric(a, b);
  }

  lemma {:induction false} TwoTypesInOrder(lib: Library, v: Value, a: string, s: TypeName, b: string, t: TypeName)
    requires AtMost(a, b) && a != b
    ensures TouchAll(lib, v, InOrder(map[a := s, b := t]))
         == match Touch(lib, v, Segments(a), s)
            case Thrown => Thrown
            case Got(w) => Touch(lib, w, Segments(b), t)
  {
    var types := InOrder(map[a := s, b := t]);
    SortedTwo(a, b);
    assert map[a := s, b := t].Keys == {a, b};
    assert types[0] == Typed(a, s) && types[1] == Typed(b, t) && |types| == 2;
    assert types[1..] == [Typed(b, t)];
    if Touch(lib, v, Segments(a), s).Got? {
      OneTypeAlone(lib, Touch(lib, v, Segments(a), s).value, Typed(b, t));
    }
  }

  function DateTexts(lib: Library, dates: seq<int>): seq<Value> {
    seq(|dates|, i requires 0 <= i < |dates| => Text(lib.print_(dates[i])))
  }

  function DatesAt(dates: seq<int>, at: seq<nat>): seq<Value>
    requires forall j | 0 <= j < |at| :: at[j] < |dates|
  {
    seq(|at|, j requires 0 <= j < |at| => Date(dates[at[j]]))
  }

  lemma {:induction false} RepeatedText(lib: Library, dates: seq<int>, i: nat)
    requires Undoes(lib) && i < |dates|
    ensures Repeats(DateTexts(lib, dates), i) <==> dates[i] in dates[..i]
  {
    var texts := DateTexts(lib, dates);
    if texts[i] in texts[..i] {
      var j :| 0 <= j < i && texts[..i][j] == texts[i];
      assert texts[j] == texts[i] && lib.parse(texts[j]) == lib.parse(texts[i]);
      assert dates[..i][j] == dates[i];
    }
    if dates[i] in dates[..i] {
      var j :| 0 <= j < i && dates[..i][j] == dates[i];
      assert texts[..i][j] == texts[i];
    }
  }

  lemma {:induction false} MembersBecomeDates(lib: Library, dates: seq<int>) returns (at: seq<nat>)
    requires Undoes(lib)
    ensures forall j | 0 <= j < |at| :: at[j] < |dates|
    ensures forall j, k | 0 <= j < k < |at| :: at[j] < at[k]
    ensures forall i: nat | i < |dates| :: i in at <==> dates[i] !in dates[..i]
    ensures Touch(lib, SetOf(Distinct(DateTexts(lib, dates))), ["$SET"], DateType) == Got(SetOf(DatesAt(dates, at)))
  {
    var texts := DateTexts(lib, dates);
    at := SetHoldsDistinctItems(texts);
    forall i: nat | i < |dates| ensures i in at <==> dates[i] !in dates[..i] {
      RepeatedText(lib, dates, i);
    }
    AllMembers(lib, Distinct(texts), DatesAt(dates, at), DateType);
  }

  lemma {:induction false} MembersReplacedBelow(lib: Library, v: Value, key: string, members: seq<Value>,
                                                news: seq<Value>)
    requires v.Obj? && "hasOwnProperty" !in v.fields && Clean(key) && key in v.fields
    requires Touch(lib, SetOf(members), ["$SET"], DateType) == Got(SetOf(news))
    ensures Touch(lib, Obj(v.fields[key := SetOf(members)]), [key, "$SET"], DateType)
         == Got(Obj(v.fields[key := SetOf(news)]))
  {
    var w := Obj(v.fields[key := SetOf(members)]);
    assert [key] + ["$SET"] == [key, "$SET"];
    ReadProperty(lib, w, key, ["$SET"], DateType);
    assert w.fields[key := SetOf(news)] == v.fields[key := SetOf(news)];
  }

  /** A list of printed dates, read with the types of a set and of dates for its members, gives the
      set of these dates, in the order in which they first occur; `at` gives these positions. */
  lemma {:induction false} SetOfDatesIsRead(lib: Library, v: Value, key: string, dates: seq<int>)
      returns (at: seq<nat>)
    requires Undoes(lib) && v.Obj? && "hasOwnProperty" !in v.fields && Clean(key)
    requires key in v.fields && v.fields[key] == Arr(DateTexts(lib, dates))
    ensures forall j | 0 <= j < |at| :: at[j] < |dates|
    ensures forall j, k | 0 <= j < k < |at| :: at[j] < at[k]
    ensures forall i: nat | i < |dates| :: i in at <==> dates[i] !in dates[..i]
    ensures TouchAll(lib, v, InOrder(map[key := SetType, key + "$SET" := DateType]))
         == Got(Obj(v.fields[key := SetOf(DatesAt(dates, at))]))
  {
    at := MembersBecomeDates(lib, dates);
    AtMostLonger(key, "$SET");
    TwoTypesInOrder(lib, v, key, SetType, key + "$SET", DateType);
    SegmentsOfKey(key);
    SegmentsOfMarkedKey(key, "$SET");
    ListBecomesSetBelow(lib, v, key, DateTexts(lib, dates));
    MembersReplacedBelow(lib, v, key, Distinct(DateTexts(lib, dates)), DatesAt(dates, at));
  }
}
