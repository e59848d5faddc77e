/** The structural diff of two JSON documents. */
module JsonDiff {
  import opened Decimals

  // A yes/no answer that stops at the first difference, and a report that collects changes in a
  // shared list.

  datatype Json =
    | Undefined
    | Null
    | Bool(b: bool)
    | Number(n: real)
    | NaN
    | Str(s: string)
    | Arr(items: seq<Json>)
    | Obj(fields: seq<Field>)

  datatype Field = Field(name: string, value: Json)

  datatype ChangeType =
    | DocumentAdded | RemovedField | NewField | FieldChanged
    | ArrayValueAdded | ArrayValueChanged | ArrayValueRemoved

  datatype Change = Change(path: string, name: string, newValue: Json, oldValue: Json, kind: ChangeType)

  const IGNORED_FIELDS := ["@last-modified", "@collection", "@change-vector", "@id", "@metadata"]

  predicate Ignored(name: string) {
    name in IGNORED_FIELDS
  }

  predicate Falsy(v: Json) {
    match v
    case Undefined => true
    case Null => true
    case Bool(b) => !b
    case Number(n) => n == 0.0
    case NaN => true
    case Str(s) => s == ""
    case _ => false
  }

  /** Strict equality of a primitive with anything; the not-a-number value equals nothing. */
  predicate StrictEquals(a: Json, b: Json) {
    a == b && !a.NaN?
  }

  /** The own properties of any value: strings and arrays have their indices. */
  function Properties(v: Json): seq<Field> {
    match v
    case Obj(fields) => fields
    case Arr(items) => seq(|items|, i requires 0 <= i < |items| => Field(Decimal(i), items[i]))
    case Str(s) => seq(|s|, i requires 0 <= i < |s| => Field(Decimal(i), Str([s[i]])))
    case _ => []
  }

  /** The value of the first defined property of that name, or Undefined. */
  function Get(fields: seq<Field>, name: string): Json {
    if fields == [] then Undefined
    else if fields[0].name == name && !fields[0].value.Undefined? then fields[0].value
    else Get(fields[1..], name)
  }

  predicate Has(fields: seq<Field>, name: string) {
    !Get(fields, name).Undefined?
  }

  // ---------------------------------------------------------------------------------
  // When two documents count as the same

  /** A field of the old document that the new one must still have. */
  predicate KeptField(f: Field, newFields: seq<Field>) {
    f.value.Undefined? || Ignored(f.name) || Has(newFields, f.name)
  }

  predicate SameObject(old_: Json, new_: Json)
    requires new_.Obj?
    decreases new_, 0
  {
    && (forall i | 0 <= i < |Properties(old_)| :: KeptField(Properties(old_)[i], new_.fields))
    && (forall i | 0 <= i < |new_.fields| :: SameField(Properties(old_), new_.fields[i]))
  }

  predicate SameField(oldFields: seq<Field>, f: Field)
    decreases f, 0
  {
    f.value.Undefined? || Ignored(f.name)
    || (Has(oldFields, f.name) && SameValue(Get(oldFields, f.name), f.value))
  }

  predicate SameValue(o: Json, n: Json)
    decreases n, 1
  {
    match n
    case Undefined => Falsy(o)
    case Null => Falsy(o)
    case Arr(items) => o.Arr? && SameArray(o.items, items)
    case Obj(_) => !Falsy(o) && SameObject(o, n)
    case _ => StrictEquals(o, n)
  }

  predicate SameArray(os: seq<Json>, ns: seq<Json>)
    decreases ns, 0
  {
    |os| == |ns| && forall i | 0 <= i < |ns| :: SameItem(os[i], ns[i])
  }

  predicate SameItem(o: Json, n: Json)
    decreases n, 1
  {
    if o.Obj? then n.Obj? && SameObject(o, n)
    else if o.Arr? then n.Arr? && SameArray(o.items, n.items)
    else if Falsy(o) then Falsy(n)
    else StrictEquals(o, n)
  }

  // ---------------------------------------------------------------------------------
  // The report

  function Combine(path: string, name: string): string {
    if path == "" then name else path + "." + name
  }

  function AtIndex(path: string, position: nat): string {
    path + "[" + Decimal(position) + "]"
  }

  function ReportRemoved(path: string, oldFields: seq<Field>, newFields: seq<Field>, acc: seq<Change>): seq<Change> {
    if oldFields == [] then acc
    else
      var f := oldFields[0];
      ReportRemoved(path, oldFields[1..], newFields,
                    if KeptField(f, newFields) then acc else acc + [Change(path, f.name, Null, f.value, RemovedField)])
  }

  function ReportObject(path: string, old_: Json, new_: Json, acc: seq<Change>): seq<Change>
    requires new_.Obj?
    decreases new_, 0
  {
    ReportFields(path, Properties(old_), new_.fields, ReportRemoved(path, Properties(old_), new_.fields, acc))
  }

  function ReportFields(path: string, oldFields: seq<Field>, newFields: seq<Field>, acc: seq<Change>): seq<Change>
    decreases newFields, 0
  {
    if newFields == [] then acc
    else ReportFields(path, oldFields, newFields[1..], ReportField(path, oldFields, newFields[0], acc))
  }

  function ReportField(path: string, oldFields: seq<Field>, f: Field, acc: seq<Change>): seq<Change>
    decreases f, 0
  {
    if f.value.Undefined? || Ignored(f.name) then acc
    else if !Has(oldFields, f.name) then acc + [Change(path, f.name, f.value, Null, NewField)]
    else ReportValue(path, f.name, Get(oldFields, f.name), f.value, acc)
  }

  function ReportValue(path: string, name: string, o: Json, n: Json, acc: seq<Change>): seq<Change>
    decreases n, 1
  {
    match n
    case Undefined => if Falsy(o) then acc else acc + [Change(path, name, Null, o, FieldChanged)]
    case Null => if Falsy(o) then acc else acc + [Change(path, name, Null, o, FieldChanged)]
    case Arr(items) =>
      if !o.Arr? then acc + [Change(path, name, n, o, FieldChanged)]
      else ReportArray(Combine(path, name), name, o.items, items, acc).1
    case Obj(_) =>
      if Falsy(o) then acc + [Change(path, name, n, Null, FieldChanged)]
      else ReportObject(Combine(path, name), o, n, acc)
    case _ => if StrictEquals(o, n) then acc else acc + [Change(path, name, n, o, FieldChanged)]
  }

  /** The list, and the flag that the array comparison returns: a different length does not set it. */
  function ReportArray(path: string, name: string, os: seq<Json>, ns: seq<Json>, acc: seq<Change>): (bool, seq<Change>)
    decreases ns, |ns| + 1
  {
    var (changed, acc1) := ReportItems(path, name, os, ns, 0, false, acc);
    (changed, ReportRest(path, name, os, ns, acc1))
  }

  function ReportItems(path: string, name: string, os: seq<Json>, ns: seq<Json>, position: nat, changed: bool,
      acc: seq<Change>): (bool, seq<Change>)
    requires position <= |ns|
    decreases ns, |ns| - position
  {
    if position < |os| && position < |ns| then
      var (changed1, acc1) := ReportItem(AtIndex(path, position), name, os[position], ns[position], changed, acc);
      ReportItems(path, name, os, ns, position + 1, changed1, acc1)
    else (changed, acc)
  }

  /** Once the flag is set, nested objects and arrays are not looked into any more. */
  function ReportItem(path: string, name: string, o: Json, n: Json, changed: bool,
      acc: seq<Change>): (bool, seq<Change>)
    decreases n, 1
  {
    if o.Obj? then
      if n.Obj? then
        if changed then (true, acc)
        else
          var acc1 := ReportObject(path, o, n, acc);
          (acc1 != [], acc1)
      else (true, acc + [Change(path, name, n, o, ArrayValueAdded)])
    else if o.Arr? then
      if n.Arr? then
        if changed then (true, acc) else ReportArray(path, name, o.items, n.items, acc)
      else (true, acc + [Change(path, name, n, o, ArrayValueChanged)])
    else if Falsy(o) then
      if Falsy(n) then (changed, acc) else (true, acc + [Change(path, name, n, o, ArrayValueAdded)])
    else if StrictEquals(o, n) then (changed, acc)
    else (true, acc + [Change(path, name, n, o, ArrayValueChanged)])
  }

  /** The items by which one array is longer. */
  function ReportRest(path: string, name: string, os: seq<Json>, ns: seq<Json>, acc: seq<Change>): seq<Change> {
    if |os| > |ns| then ReportRemovedItems(path, name, os, |ns|, acc) else ReportAddedItems(path, name, ns, |os|, acc)
  }

  function ReportRemovedItems(path: string, name: string, os: seq<Json>, position: nat,
      acc: seq<Change>): (r: seq<Change>)
    ensures acc <= r && (position < |os| ==> r != []) && (position >= |os| ==> r == acc)
    decreases |os| - position
  {
    if position >= |os| then acc
    else ReportRemovedItems(path, name, os, position + 1, acc
        + [Change(path, name, Null, os[position], ArrayValueRemoved)])
  }

  function ReportAddedItems(path: string, name: string, ns: seq<Json>, position: nat,
      acc: seq<Change>): (r: seq<Change>)
    ensures acc <= r && (position < |ns| ==> r != []) && (position >= |ns| ==> r == acc)
    decreases |ns| - position
  {
    if position >= |ns| then acc
    else ReportAddedItems(path, name, ns, position + 1, acc + [Change(path, name, ns[position], Null, ArrayValueAdded)])
  }

  // ---------------------------------------------------------------------------------
  // The two modes agree

  /** What the agreement says of one comparison: the list only grows, and a comparison that
      starts on an empty list leaves it empty exactly when its two sides are the same. */
  ghost predicate Agrees(acc: seq<Change>, acc': seq<Change>, same: bool) {
    acc <= acc' && (acc == [] ==> (acc' == [] <==> same))
  }

  ghost predicate ItemsSameFrom(os: seq<Json>, ns: seq<Json>, position: nat) {
    forall i | position <= i < |ns| && i < |os| :: SameItem(os[i], ns[i])
  }

  lemma {:induction false} ItemsSameStep(os: seq<Json>, ns: seq<Json>, position: nat)
    requires position < |os| && position < |ns|
    ensures ItemsSameFrom(os, ns, position)
            <==> SameItem(os[position], ns[position]) && ItemsSameFrom(os, ns, position + 1)
  {
  }

  lemma {:induction false} RemovedAgrees(path: string, oldFields: seq<Field>, newFields: seq<Field>, acc: seq<Change>)
    ensures Agrees(acc, ReportRemoved(path, oldFields, newFields, acc),
        forall i | 0 <= i < |oldFields| :: KeptField(oldFields[i], newFields))
  {
    if oldFields != [] {
      var f, rest := oldFields[0], oldFields[1..];
      var acc1 := if KeptField(f, newFields) then acc else acc + [Change(path, f.name, Null, f.value, RemovedField)];
      RemovedAgrees(path, rest, newFields, acc1);
      assert forall i | 1 <= i < |oldFields| :: oldFields[i] == rest[i - 1];
      assert forall i | 0 <= i < |rest| :: rest[i] == oldFields[i + 1];
    }
  }

  lemma {:induction false} ObjectAgrees(path: string, old_: Json, new_: Json, acc: seq<Change>)
    requires new_.Obj?
    ensures Agrees(acc, ReportObject(path, old_, new_, acc), SameObject(old_, new_))
    decreases new_, 0
  {
    RemovedAgrees(path, Properties(old_), new_.fields, acc);
    FieldsAgree(path, Properties(old_), new_.fields, ReportRemoved(path, Properties(old_), new_.fields, acc));
  }

  lemma {:induction false} FieldsAgree(path: string, oldFields: seq<Field>, newFields: seq<Field>, acc: seq<Change>)
    ensures Agrees(acc, ReportFields(path, oldFields, newFields, acc),
        forall i | 0 <= i < |newFields| :: SameField(oldFields, newFields[i]))
    decreases newFields, 0
  {
    if newFields != [] {
      var rest := newFields[1..];
      FieldAgrees(path, oldFields, newFields[0], acc);
      FieldsAgree(path, oldFields, rest, ReportField(path, oldFields, newFields[0], acc));
      assert forall i | 1 <= i < |newFields| :: newFields[i] == rest[i - 1];
      assert forall i | 0 <= i < |rest| :: rest[i] == newFields[i + 1];
    }
  }

  lemma {:induction false} FieldAgrees(path: string, oldFields: seq<Field>, f: Field, acc: seq<Change>)
    ensures Agrees(acc, ReportField(path, oldFields, f, acc), SameField(oldFields, f))
    decreases f, 0
  {
    if !f.value.Undefined? && !Ignored(f.name) && Has(oldFields, f.name) {
      var o := Get(oldFields, f.name);
      match f.value
      case Arr(items) =>
        if o.Arr? {
          ArrayAgrees(Combine(path, f.name), f.name, o.items, items, acc);
        }
      case Obj(_) =>
        if !Falsy(o) {
          ObjectAgrees(Combine(path, f.name), o, f.value, acc);
        }
      case _ =>
    }
  }

  lemma {:induction false} ArrayAgrees(path: string, name: string, os: seq<Json>, ns: seq<Json>, acc: seq<Change>)
    ensures var (changed, acc') := ReportArray(path, name, os, ns, acc);
            Agrees(acc, acc', SameArray(os, ns)) && (changed ==> acc' != [])
    decreases ns, |ns| + 1
  {
    ItemsAgree(path, name, os, ns, 0, false, acc);
    assert |os| == |ns| ==> (SameArray(os, ns) <==> ItemsSameFrom(os, ns, 0));
  }

  lemma {:induction false} ItemsAgree(path: string, name: string, os: seq<Json>, ns: seq<Json>, position: nat,
      changed: bool, acc: seq<Change>)
    requires position <= |ns| && (changed ==> acc != [])
    ensures var (changed', acc') := ReportItems(path, name, os, ns, position, changed, acc);
            && Agrees(acc, acc', ItemsSameFrom(os, ns, position))
            && (changed' ==> acc' != [])
    decreases ns, |ns| - position
  {
    if position < |os| && position < |ns| {
      ItemAgrees(AtIndex(path, position), name, os[position], ns[position], changed, acc);
      var (changed1, acc1) := ReportItem(AtIndex(path, position), name, os[position], ns[position], changed, acc);
      ItemsAgree(path, name, os, ns, position + 1, changed1, acc1);
      ItemsSameStep(os, ns, position);
    }
  }

  lemma {:induction false} ItemAgrees(path: string, name: string, o: Json, n: Json, changed: bool, acc: seq<Change>)
    requires changed ==> acc != []
    ensures var (changed', acc') := ReportItem(path, name, o, n, changed, acc);
            Agrees(acc, acc', SameItem(o, n)) && (changed' ==> acc' != [])
    decreases n, 1
  {
    if o.Obj? && n.Obj? && !changed {
      ObjectAgrees(path, o, n, acc);
    } else if o.Arr? && n.Arr? && !changed {
      ArrayAgrees(path, name, o.items, n.items, acc);
    }
  }

  /** For all documents the yes/no mode answers yes exactly when the report is not empty. */
  lemma {:induction false} ModesAgree(old_: Json, new_: Json)
    requires new_.Obj?
    ensures ReportObject("", old_, new_, []) != [] <==> !SameObject(old_, new_)
  {
    ObjectAgrees("", old_, new_, []);
  }
}
