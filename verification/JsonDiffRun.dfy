/** The diff as it runs: loops over fields and positions, pushing into one shared list of
    changes, or stopping at the first difference when there is no list. */
module JsonDiffRun {
  import opened JsonDiff
  import opened Wrappers

  class ChangeList {
    var items: seq<Change>

    constructor ()
      ensures items == []
    {
      items := [];
    }

    method Push(path: string, name: string, newValue: Json, oldValue: Json, kind: ChangeType)
      modifies this
      ensures items == old(items) + [Change(path, name, newValue, oldValue, kind)]
    {
      items := items + [Change(path, name, newValue, oldValue, kind)];
    }
  }

  ghost function Frame(changes: ChangeList?): set<object> {
    if changes == null then {} else {changes}
  }

  lemma {:induction false} PropertyLoop(fields: seq<Field>, i: nat)
    requires i < |fields|
    ensures fields[i..][0] == fields[i] && fields[i..][1..] == fields[i + 1..]
  {
  }

  /** Without a list the answer is whether the documents differ; with a list the list is
      extended as the report says and the answer is whether it holds anything. */
  method CompareJson(path: string, oldJson: Json, newJson: Json, changes: ChangeList?) returns (changed: bool)
    requires newJson.Obj?
    modifies Frame(changes)
    ensures changes == null ==> changed == !SameObject(oldJson, newJson)
    ensures changes != null ==>
              && changes.items == ReportObject(path, oldJson, newJson, old(changes.items))
              && changed == (changes.items != [])
    decreases newJson, 0
  {
    var oldFields, newFields := Properties(oldJson), newJson.fields;
    var i := 0;
    while i < |oldFields|
      invariant 0 <= i <= |oldFields|
      invariant changes == null ==> forall k | 0 <= k < i :: KeptField(oldFields[k], newFields)
      invariant changes != null ==>
                  ReportRemoved(path, oldFields[i..], newFields, changes.items)
                  == ReportRemoved(path, oldFields, newFields, old(changes.items))
    {
      PropertyLoop(oldFields, i);
      var f := oldFields[i];
      if !KeptField(f, newFields) {
        if changes == null {
          return true;
        }
        changes.Push(path, f.name, Null, f.value, RemovedField);
      }
      i := i + 1;
    }
    ghost var acc := if changes == null then [] else changes.items;
    i := 0;
    while i < |newFields|
      invariant 0 <= i <= |newFields|
      invariant changes == null ==> forall k | 0 <= k < i :: SameField(oldFields, newFields[k])
      invariant changes != null ==>
                  ReportFields(path, oldFields, newFields[i..], changes.items)
                      == ReportFields(path, oldFields, newFields, acc)
    {
      PropertyLoop(newFields, i);
      var differs := CompareField(path, oldFields, newFields[i], changes);
      if changes == null && differs {
        return true;
      }
      i := i + 1;
    }
    return changes != null && changes.items != [];
  }

  /** One property of the new document; the answer matters only without a list. */
  method CompareField(path: string, oldFields: seq<Field>, f: Field, changes: ChangeList?) returns (differs: bool)
    modifies Frame(changes)
    ensures changes == null ==> differs == !SameField(oldFields, f)
    ensures changes != null ==> changes.items == ReportField(path, oldFields, f, old(changes.items))
    decreases f, 0
  {
    if f.value.Undefined? || Ignored(f.name) {
      return false;
    }
    if !Has(oldFields, f.name) {
      if changes != null {
        changes.Push(path, f.name, f.value, Null, NewField);
      }
      return true;
    }
    var newProp, oldProp := f.value, Get(oldFields, f.name);
    match newProp {
      case Undefined =>
        differs := false;
      case Null =>
        differs := !Falsy(oldProp);
        if differs && changes != null {
          changes.Push(path, f.name, Null, oldProp, FieldChanged);
        }
      case Arr(items) =>
        if !oldProp.Arr? {
          if changes != null {
            changes.Push(path, f.name, newProp, oldProp, FieldChanged);
          }
          return true;
        }
        differs := CompareJsonArray(Combine(path, f.name), f.name, oldProp.items, items, changes);
      case Obj(_) =>
        if Falsy(oldProp) {
          if changes != null {
            changes.Push(path, f.name, newProp, Null, FieldChanged);
          }
          return true;
        }
        differs := CompareJson(Combine(path, f.name), oldProp, newProp, changes);
      case _ =>
        differs := !StrictEquals(oldProp, newProp);
        if differs && changes != null {
          changes.Push(path, f.name, newProp, oldProp, FieldChanged);
        }
    }
  }

  method CompareJsonArray(path: string, name: string, oldArray: seq<Json>, newArray: seq<Json>, changes: ChangeList?)
    returns (changed: bool)
    modifies Frame(changes)
    ensures changes == null ==> changed == !SameArray(oldArray, newArray)
    ensures changes != null ==>
              (changed, changes.items) == ReportArray(path, name, oldArray, newArray, old(changes.items))
    decreases newArray, 0
  {
    if |oldArray| != |newArray| && changes == null {
      return true;
    }
    changed := false;
    var position := 0;
    while position < |oldArray| && position < |newArray|
      invariant 0 <= position <= |newArray| && position <= |oldArray|
      invariant changes == null ==> (changed <==> exists k | 0 <= k < position :: !SameItem(oldArray[k], newArray[k]))
      invariant changes != null ==>
                  ReportItems(path, name, oldArray, newArray, position, changed, changes.items)
                  == ReportItems(path, name, oldArray, newArray, 0, false, old(changes.items))
    {
      changed := CompareItem(AtIndex(path, position), name, oldArray[position], newArray[position], changed, changes);
      position := position + 1;
    }
    if changes == null {
      return;
    }
    PushRest(path, name, oldArray, newArray, position, changes);
  }

  method CompareItem(path: string, name: string, o: Json, n: Json, before: bool, changes: ChangeList?)
      returns (changed: bool)
    modifies Frame(changes)
    ensures changes == null ==> (changed <==> before || !SameItem(o, n))
    ensures changes != null ==> (changed, changes.items) == ReportItem(path, name, o, n, before, old(changes.items))
    decreases n, 1
  {
    changed := before;
    if o.Obj? {
      if n.Obj? {
        if !changed {
          changed := CompareJson(path, o, n, changes);
        }
      } else {
        changed := true;
        if changes != null {
          changes.Push(path, name, n, o, ArrayValueAdded);
        }
      }
    } else if o.Arr? {
      if n.Arr? {
        if !changed {
          changed := CompareJsonArray(path, name, o.items, n.items, changes);
        }
      } else {
        changed := true;
        if changes != null {
          changes.Push(path, name, n, o, ArrayValueChanged);
        }
      }
    } else if Falsy(o) {
      if !Falsy(n) {
        changed := true;
        if changes != null {
          changes.Push(path, name, n, o, ArrayValueAdded);
        }
      }
    } else if !StrictEquals(o, n) {
      if changes != null {
        changes.Push(path, name, n, o, ArrayValueChanged);
      }
      changed := true;
    }
  }

  /** The items by which one array is longer. */
  method PushRest(path: string, name: string, oldArray: seq<Json>, newArray: seq<Json>, start: nat, changes: ChangeList)
    requires start == if |oldArray| < |newArray| then |oldArray| else |newArray|
    modifies changes
    ensures changes.items == ReportRest(path, name, oldArray, newArray, old(changes.items))
  {
    var position := start;
    while position < |oldArray|
      invariant position >= start && (|oldArray| <= |newArray| ==> position == start)
      invariant ReportRemovedItems(path, name, oldArray, position, changes.items)
                == ReportRemovedItems(path, name, oldArray, start, old(changes.items))
    {
      changes.Push(path, name, Null, oldArray[position], ArrayValueRemoved);
      position := position + 1;
    }
    ghost var middle := changes.items;
    ghost var from := position;
    while position < |newArray|
      invariant position >= from
      invariant ReportAddedItems(path, name, newArray, position, changes.items)
                == ReportAddedItems(path, name, newArray, from, middle)
    {
      changes.Push(path, name, newArray[position], Null, ArrayValueAdded);
      position := position + 1;
    }
  }

  // ---------------------------------------------------------------------------------
  // The entry point

  /** `original` is the stored document, None for a new one. */
  method EntityChanged(newObj: Json, id: string, original: Option<Json>, report: bool,
                       changes: map<string, seq<Change>>)
    returns (changed: bool, changes': map<string, seq<Change>>)
    requires newObj.Obj?
    ensures changed <==> original.None? || !SameObject(original.value, newObj)
    ensures changes' ==
            if !report || !changed then changes
            else changes[id := if original.None? then [Change("", "", Null, Null, DocumentAdded)]
                               else ReportObject("", original.value, newObj, [])]
  {
    changes' := changes;
    match original {
      case Some(document) =>
        if report {
          var docChanges := new ChangeList();
          changed := CompareJson("", document, newObj, docChanges);
          ModesAgree(document, newObj);
          if changed {
            changes' := changes[id := docChanges.items];
          }
        } else {
          changed := CompareJson("", document, newObj, null);
        }
      case None =>
        changed := true;
        if report {
          changes' := changes[id := [Change("", "", Null, Null, DocumentAdded)]];
        }
    }
  }
}
