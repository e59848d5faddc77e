/** When the report of the diff is complete: the flag of an array stops the comparison of the
    objects and arrays that follow in it. */
module JsonDiffReport {
  import opened JsonDiff

  // ---------------------------------------------------------------------------------
  // The report without the short-circuit

  function FullObject(path: string, old_: Json, new_: Json): seq<Change>
    requires new_.Obj?
    decreases new_, 0
  {
    ReportRemoved(path, Properties(old_), new_.fields, []) + FullFields(path, Properties(old_), new_.fields)
  }

  function FullFields(path: string, oldFields: seq<Field>, newFields: seq<Field>): seq<Change>
    decreases newFields, 0
  {
    if newFields == [] then []
    else FullField(path, oldFields, newFields[0]) + FullFields(path, oldFields, newFields[1..])
  }

  function FullField(path: string, oldFields: seq<Field>, f: Field): seq<Change>
    decreases f, 0
  {
    if f.value.Undefined? || Ignored(f.name) then []
    else if !Has(oldFields, f.name) then [Change(path, f.name, f.value, Null, NewField)]
    else FullValue(path, f.name, Get(oldFields, f.name), f.value)
  }

  function FullValue(path: string, name: string, o: Json, n: Json): seq<Change>
    decreases n, 1
  {
    if n.Arr? && o.Arr? then FullArray(Combine(path, name), name, o.items, n.items)
    else if n.Obj? && !Falsy(o) then FullObject(Combine(path, name), o, n)
    else ReportValue(path, name, o, n, [])
  }

  function FullArray(path: string, name: string, os: seq<Json>, ns: seq<Json>): seq<Change>
    decreases ns, |ns| + 1
  {
    FullItems(path, name, os, ns, 0) + ReportRest(path, name, os, ns, [])
  }

  function FullItems(path: string, name: string, os: seq<Json>, ns: seq<Json>, position: nat): seq<Change>
    requires position <= |ns|
    decreases ns, |ns| - position
  {
    if position < |os| && position < |ns| then
      FullItem(AtIndex(path, position), name, os[position], ns[position])
      + FullItems(path, name, os, ns, position + 1)
    else []
  }

  function FullItem(path: string, name: string, o: Json, n: Json): seq<Change>
    decreases n, 1
  {
    if o.Obj? && n.Obj? then FullObject(path, o, n)
    else if o.Arr? && n.Arr? then FullArray(path, name, o.items, n.items)
    else ReportItem(path, name, o, n, false, []).1
  }

  // ---------------------------------------------------------------------------------
  // When the flag is set, and what is left out then

  ghost predicate DiffersBefore(os: seq<Json>, ns: seq<Json>, k: nat) {
    exists j | 0 <= j < k && j < |os| && j < |ns| :: !SameItem(os[j], ns[j])
  }

  /** Whether comparing two items sets the flag; `listed` tells that the list holds a change by
      then, no matter from where. Two objects set it for that reason alone; two arrays of
      different length do not set it. */
  ghost predicate Flags(listed: bool, o: Json, n: Json)
    decreases n, 1
  {
    if o.Obj? then !n.Obj? || listed || !SameObject(o, n)
    else if o.Arr? then !n.Arr? || FlagSet(listed, o.items, n.items, |n.items|)
    else !SameItem(o, n)
  }

  /** The flag is set before position k: by an item in front of it. */
  ghost predicate FlagSet(listed: bool, os: seq<Json>, ns: seq<Json>, k: nat)
    decreases ns, 0
  {
    exists j | 0 <= j < k && j < |os| && j < |ns| :: Flags(listed || DiffersBefore(os, ns, j), os[j], ns[j])
  }

  /** Two items of which nothing is left out: behind the flag, two objects or two arrays must be
      the same. */
  ghost predicate ItemComplete(flag: bool, listed: bool, o: Json, n: Json)
    decreases n, 1
  {
    if o.Obj? && n.Obj? then (if flag then SameObject(o, n) else ObjectComplete(listed, o, n))
    else if o.Arr? && n.Arr? then
      (if flag then SameArray(o.items, n.items) else ArrayComplete(listed, o.items, n.items))
    else true
  }

  /** No differing pair of objects or arrays stands behind a position that set the flag. */
  ghost predicate ArrayComplete(listed: bool, os: seq<Json>, ns: seq<Json>)
    decreases ns, 0
  {
    forall k | 0 <= k < |ns| && k < |os| ::
      ItemComplete(FlagSet(listed, os, ns, k), listed || DiffersBefore(os, ns, k), os[k], ns[k])
  }

  ghost predicate FieldDiffersBefore(oldFields: seq<Field>, newFields: seq<Field>, i: nat) {
    exists j | 0 <= j < i && j < |newFields| :: !SameField(oldFields, newFields[j])
  }

  ghost predicate AllKept(oldFields: seq<Field>, newFields: seq<Field>) {
    forall i | 0 <= i < |oldFields| :: KeptField(oldFields[i], newFields)
  }

  ghost predicate ObjectComplete(listed: bool, o: Json, n: Json)
    requires n.Obj?
    decreases n, 0
  {
    FieldsComplete(listed || !AllKept(Properties(o), n.fields), Properties(o), n.fields)
  }

  ghost predicate FieldsComplete(listed: bool, oldFields: seq<Field>, newFields: seq<Field>)
    decreases newFields, 0
  {
    forall i | 0 <= i < |newFields| ::
      FieldComplete(listed || FieldDiffersBefore(oldFields, newFields, i), oldFields, newFields[i])
  }

  ghost predicate FieldComplete(listed: bool, oldFields: seq<Field>, f: Field)
    decreases f, 0
  {
    Ignored(f.name) || f.value.Undefined? || !Has(oldFields, f.name)
    || ValueComplete(listed, Get(oldFields, f.name), f.value)
  }

  ghost predicate ValueComplete(listed: bool, o: Json, n: Json)
    decreases n, 1
  {
    if n.Arr? && o.Arr? then ArrayComplete(listed, o.items, n.items)
    else if n.Obj? && !Falsy(o) then ObjectComplete(listed, o, n)
    else true
  }

  // ---------------------------------------------------------------------------------
  // The full report is empty exactly when nothing differs

  lemma {:induction false} RemovedAppends(path: string, oldFields: seq<Field>, newFields: seq<Field>, acc: seq<Change>)
    ensures ReportRemoved(path, oldFields, newFields, acc)
         == acc + ReportRemoved(path, oldFields, newFields, [])
    decreases |oldFields|
  {
    if oldFields != [] {
      var f := oldFields[0];
      var one := if KeptField(f, newFields) then [] else [Change(path, f.name, Null, f.value, RemovedField)];
      assert acc + [] == acc;
      RemovedAppends(path, oldFields[1..], newFields, acc + one);
      RemovedAppends(path, oldFields[1..], newFields, one);
      assert [] + one == one;
      assert acc + one + ReportRemoved(path, oldFields[1..], newFields, [])
          == acc + (one + ReportRemoved(path, oldFields[1..], newFields, []));
    }
  }

  lemma {:induction false} RemovedItemsAppend(path: string, name: string, os: seq<Json>, position: nat,
                                              acc: seq<Change>)
    ensures ReportRemovedItems(path, name, os, position, acc)
         == acc + ReportRemovedItems(path, name, os, position, [])
    decreases |os| - position
  {
    if position < |os| {
      var one := [Change(path, name, Null, os[position], ArrayValueRemoved)];
      RemovedItemsAppend(path, name, os, position + 1, acc + one);
      RemovedItemsAppend(path, name, os, position + 1, one);
      assert [] + one == one;
      var rest := ReportRemovedItems(path, name, os, position + 1, []);
      assert acc + one + rest == acc + (one + rest);
    }
  }

  lemma {:induction false} AddedItemsAppend(path: string, name: string, ns: seq<Json>, position: nat,
                                            acc: seq<Change>)
    ensures ReportAddedItems(path, name, ns, position, acc)
         == acc + ReportAddedItems(path, name, ns, position, [])
    decreases |ns| - position
  {
    if position < |ns| {
      var one := [Change(path, name, ns[position], Null, ArrayValueAdded)];
      AddedItemsAppend(path, name, ns, position + 1, acc + one);
      AddedItemsAppend(path, name, ns, position + 1, one);
      assert [] + one == one;
      var rest := ReportAddedItems(path, name, ns, position + 1, []);
      assert acc + one + rest == acc + (one + rest);
    }
  }

  lemma {:induction false} RestAppends(path: string, name: string, os: seq<Json>, ns: seq<Json>, acc: seq<Change>)
    ensures ReportRest(path, name, os, ns, acc) == acc + ReportRest(path, name, os, ns, [])
  {
    RemovedItemsAppend(path, name, os, |ns|, acc);
    AddedItemsAppend(path, name, ns, |os|, acc);
  }

  lemma {:induction false} FullObjectEmpty(path: string, o: Json, n: Json)
    requires n.Obj?
    ensures FullObject(path, o, n) == [] <==> SameObject(o, n)
    decreases n, 0
  {
    RemovedAgrees(path, Properties(o), n.fields, []);
    FullFieldsEmpty(path, Properties(o), n.fields);
  }

  lemma {:induction false} FullFieldsEmpty(path: string, oldFields: seq<Field>, newFields: seq<Field>)
    ensures FullFields(path, oldFields, newFields) == []
            <==> forall i | 0 <= i < |newFields| :: SameField(oldFields, newFields[i])
    decreases newFields, 0
  {
    if newFields != [] {
      var rest := newFields[1..];
      FullFieldEmpty(path, oldFields, newFields[0]);
      FullFieldsEmpty(path, oldFields, rest);
      assert forall i | 1 <= i < |newFields| :: newFields[i] == rest[i - 1];
      assert forall i | 0 <= i < |rest| :: rest[i] == newFields[i + 1];
    }
  }

  lemma {:induction false} FullFieldEmpty(path: string, oldFields: seq<Field>, f: Field)
    ensures FullField(path, oldFields, f) == [] <==> SameField(oldFields, f)
    decreases f, 0
  {
    if !f.value.Undefined? && !Ignored(f.name) && Has(oldFields, f.name) {
      FullValueEmpty(path, f.name, Get(oldFields, f.name), f.value);
    }
  }

  lemma {:induction false} FullValueEmpty(path: string, name: string, o: Json, n: Json)
    ensures FullValue(path, name, o, n) == [] <==> SameValue(o, n)
    decreases n, 1
  {
    if n.Arr? && o.Arr? {
      FullArrayEmpty(Combine(path, name), name, o.items, n.items);
    } else if n.Obj? && !Falsy(o) {
      FullObjectEmpty(Combine(path, name), o, n);
    }
  }

  lemma {:induction false} FullArrayEmpty(path: string, name: string, os: seq<Json>, ns: seq<Json>)
    ensures FullArray(path, name, os, ns) == [] <==> SameArray(os, ns)
    decreases ns, |ns| + 1
  {
    FullItemsEmpty(path, name, os, ns, 0);
    assert |os| == |ns| ==> (SameArray(os, ns) <==> ItemsSameFrom(os, ns, 0));
  }

  lemma {:induction false} FullItemsEmpty(path: string, name: string, os: seq<Json>, ns: seq<Json>, position: nat)
    requires position <= |ns|
    ensures FullItems(path, name, os, ns, position) == [] <==> ItemsSameFrom(os, ns, position)
    decreases ns, |ns| - position
  {
    if position < |os| && position < |ns| {
      FullItemEmpty(AtIndex(path, position), name, os[position], ns[position]);
      FullItemsEmpty(path, name, os, ns, position + 1);
      ItemsSameStep(os, ns, position);
    }
  }

  lemma {:induction false} FullItemEmpty(path: string, name: string, o: Json, n: Json)
    ensures FullItem(path, name, o, n) == [] <==> SameItem(o, n)
    decreases n, 1
  {
    if o.Obj? && n.Obj? {
      FullObjectEmpty(path, o, n);
    } else if o.Arr? && n.Arr? {
      FullArrayEmpty(path, name, o.items, n.items);
    }
  }

  // ---------------------------------------------------------------------------------
  // The report against the full report

  /** What is left of a list when some of its changes are left out. */
  ghost predicate Within(some: seq<Change>, all: seq<Change>) {
    if all == [] then some == []
    else Within(some, all[1..]) || (some != [] && some[0] == all[0] && Within(some[1..], all[1..]))
  }

  lemma {:induction false} NoneWithin(all: seq<Change>)
    ensures Within([], all)
  {
    if all != [] {
      NoneWithin(all[1..]);
    }
  }

  lemma {:induction false} AllWithin(all: seq<Change>)
    ensures Within(all, all)
  {
    if all != [] {
      AllWithin(all[1..]);
    }
  }

  lemma {:induction false} BothWithin(some: seq<Change>, all: seq<Change>, some': seq<Change>, all': seq<Change>)
    requires Within(some, all) && Within(some', all')
    ensures Within(some + some', all + all')
  {
    if all == [] {
      assert some + some' == some' && all + all' == all';
    } else {
      assert (all + all')[1..] == all[1..] + all';
      if Within(some, all[1..]) {
        BothWithin(some, all[1..], some', all');
      } else {
        BothWithin(some[1..], all[1..], some', all');
        assert (some + some')[1..] == some[1..] + some';
      }
    }
  }

  lemma {:induction false} WithinMeansFrom(some: seq<Change>, all: seq<Change>, i: nat) returns (k: nat)
    requires Within(some, all) && i < |some|
    ensures k < |all| && all[k] == some[i]
  {
    if Within(some, all[1..]) {
      k := WithinMeansFrom(some, all[1..], i);
      k := k + 1;
    } else if i == 0 {
      k := 0;
    } else {
      k := WithinMeansFrom(some[1..], all[1..], i - 1);
      k := k + 1;
    }
  }

  /** The list went from `acc` to `acc'` by all of the changes, or by fewer of them. */
  ghost predicate Extends(acc: seq<Change>, acc': seq<Change>, all: seq<Change>, complete: bool) {
    && acc <= acc'
    && Within(acc'[|acc|..], all)
    && if complete then acc' == acc + all else |acc'| < |acc| + |all|
  }

  lemma {:induction false} ExtendsByAll(acc: seq<Change>, all: seq<Change>)
    ensures Extends(acc, acc + all, all, true)
  {
    assert (acc + all)[|acc|..] == all;
    AllWithin(all);
  }

  lemma {:induction false} ExtendsByNone(acc: seq<Change>, all: seq<Change>)
    ensures Extends(acc, acc, all, all == [])
  {
    assert acc[|acc|..] == [] && acc + [] == acc;
    NoneWithin(all);
  }

  lemma {:induction false} ExtendsTwice(a: seq<Change>, b: seq<Change>, c: seq<Change>, all: seq<Change>,
                                        more: seq<Change>, complete: bool, complete': bool)
    requires Extends(a, b, all, complete) && Extends(b, c, more, complete')
    ensures Extends(a, c, all + more, complete && complete')
  {
    assert c[|a|..] == b[|a|..] + c[|b|..];
    BothWithin(b[|a|..], all, c[|b|..], more);
    assert a + all + more == a + (all + more);
  }

  lemma {:induction false} ObjectReport(path: string, o: Json, n: Json, acc: seq<Change>)
    requires n.Obj?
    ensures Extends(acc, ReportObject(path, o, n, acc), FullObject(path, o, n), ObjectComplete(acc != [], o, n))
    decreases n, 0
  {
    var acc1 := ReportRemoved(path, Properties(o), n.fields, acc);
    var removed := ReportRemoved(path, Properties(o), n.fields, []);
    RemovedAppends(path, Properties(o), n.fields, acc);
    RemovedAgrees(path, Properties(o), n.fields, []);
    ExtendsByAll(acc, removed);
    FieldsReport(path, Properties(o), n.fields, acc1);
    ExtendsTwice(acc, acc1, ReportObject(path, o, n, acc), removed, FullFields(path, Properties(o), n.fields),
                 true, FieldsComplete(acc1 != [], Properties(o), n.fields));
  }

  /** Fields are complete when the first one is and the others are after it. */
  lemma {:induction false} FieldsCompleteStep(listed: bool, oldFields: seq<Field>, newFields: seq<Field>)
    requires newFields != []
    ensures FieldsComplete(listed, oldFields, newFields)
            <==> FieldComplete(listed, oldFields, newFields[0])
                 && FieldsComplete(listed || !SameField(oldFields, newFields[0]), oldFields, newFields[1..])
  {
    var rest, first := newFields[1..], !SameField(oldFields, newFields[0]);
    forall i | 0 <= i < |rest|
      ensures FieldDiffersBefore(oldFields, newFields, i + 1) <==> first || FieldDiffersBefore(oldFields, rest, i)
    {
      if FieldDiffersBefore(oldFields, newFields, i + 1) && !first {
        var j :| 0 <= j < i + 1 && j < |newFields| && !SameField(oldFields, newFields[j]);
        assert rest[j - 1] == newFields[j];
      }
      if FieldDiffersBefore(oldFields, rest, i) {
        var j :| 0 <= j < i && j < |rest| && !SameField(oldFields, rest[j]);
        assert newFields[j + 1] == rest[j];
      }
    }
    assert !FieldDiffersBefore(oldFields, newFields, 0);
    forall i | 0 <= i < |rest|
      ensures FieldComplete(listed || FieldDiffersBefore(oldFields, newFields, i + 1), oldFields, newFields[i + 1])
              <==> FieldComplete(listed || first || FieldDiffersBefore(oldFields, rest, i), oldFields, rest[i])
    {
    }
    if FieldsComplete(listed || first, oldFields, rest) && FieldComplete(listed, oldFields, newFields[0]) {
      forall i | 0 <= i < |newFields|
        ensures FieldComplete(listed || FieldDiffersBefore(oldFields, newFields, i), oldFields, newFields[i])
      {
        if i > 0 {
          assert FieldComplete(listed || first || FieldDiffersBefore(oldFields, rest, i - 1), oldFields, rest[i - 1]);
        }
      }
    }
  }

  lemma {:induction false} FieldsReport(path: string, oldFields: seq<Field>, newFields: seq<Field>, acc: seq<Change>)
    ensures Extends(acc, ReportFields(path, oldFields, newFields, acc), FullFields(path, oldFields, newFields),
                    FieldsComplete(acc != [], oldFields, newFields))
    decreases newFields, 0
  {
    if newFields == [] {
      ExtendsByNone(acc, []);
    } else {
      var f, rest := newFields[0], newFields[1..];
      var acc1 := ReportField(path, oldFields, f, acc);
      FieldReport(path, oldFields, f, acc);
      FieldAgrees(path, oldFields, f, acc);
      FieldsReport(path, oldFields, rest, acc1);
      FieldsCompleteStep(acc != [], oldFields, newFields);
      ExtendsTwice(acc, acc1, ReportFields(path, oldFields, newFields, acc), FullField(path, oldFields, f),
                   FullFields(path, oldFields, rest), FieldComplete(acc != [], oldFields, f),
                   FieldsComplete(acc1 != [], oldFields, rest));
    }
  }

  lemma {:induction false} FieldReport(path: string, oldFields: seq<Field>, f: Field, acc: seq<Change>)
    ensures Extends(acc, ReportField(path, oldFields, f, acc), FullField(path, oldFields, f),
                    FieldComplete(acc != [], oldFields, f))
    decreases f, 0
  {
    if !f.value.Undefined? && !Ignored(f.name) && Has(oldFields, f.name) {
      ValueReport(path, f.name, Get(oldFields, f.name), f.value, acc);
    } else {
      ExtendsByNone(acc, []);
      ExtendsByAll(acc, FullField(path, oldFields, f));
    }
  }

  lemma {:induction false} ValueReport(path: string, name: string, o: Json, n: Json, acc: seq<Change>)
    ensures Extends(acc, ReportValue(path, name, o, n, acc), FullValue(path, name, o, n),
                    ValueComplete(acc != [], o, n))
    decreases n, 1
  {
    if n.Arr? && o.Arr? {
      ArrayReport(Combine(path, name), name, o.items, n.items, acc);
    } else if n.Obj? && !Falsy(o) {
      ObjectReport(Combine(path, name), o, n, acc);
    } else {
      LeafReport(path, name, o, n, acc);
      ExtendsByAll(acc, ReportValue(path, name, o, n, []));
    }
  }

  lemma {:induction false} LeafReport(path: string, name: string, o: Json, n: Json, acc: seq<Change>)
    requires !(n.Arr? && o.Arr?) && !(n.Obj? && !Falsy(o))
    ensures ReportValue(path, name, o, n, acc) == acc + ReportValue(path, name, o, n, [])
  {
    assert acc + [] == acc;
  }

  /** An array comparison sets the flag exactly when one of its positions does, and its report is
      complete exactly when no differing pair stands behind such a position. */
  lemma {:induction false} ArrayReport(path: string, name: string, os: seq<Json>, ns: seq<Json>, acc: seq<Change>)
    ensures var (changed, acc') := ReportArray(path, name, os, ns, acc);
      && changed == FlagSet(acc != [], os, ns, |ns|)
      && Extends(acc, acc', FullArray(path, name, os, ns), ArrayComplete(acc != [], os, ns))
    decreases ns, |ns| + 1
  {
    ItemsReport(path, name, os, ns, 0, false, acc, acc != []);
    var acc1 := ReportItems(path, name, os, ns, 0, false, acc).1;
    RestAppends(path, name, os, ns, acc1);
    ExtendsByAll(acc1, ReportRest(path, name, os, ns, []));
    ExtendsTwice(acc, acc1, ReportRest(path, name, os, ns, acc1), FullItems(path, name, os, ns, 0),
                 ReportRest(path, name, os, ns, []), ArrayComplete(acc != [], os, ns), true);
  }

  ghost predicate CompleteFrom(listed: bool, os: seq<Json>, ns: seq<Json>, position: nat) {
    forall k | position <= k < |ns| && k < |os| ::
      ItemComplete(FlagSet(listed, os, ns, k), listed || DiffersBefore(os, ns, k), os[k], ns[k])
  }

  lemma {:induction false} OneMorePosition(listed: bool, os: seq<Json>, ns: seq<Json>, k: nat)
    requires k < |os| && k < |ns|
    ensures DiffersBefore(os, ns, k + 1) <==> DiffersBefore(os, ns, k) || !SameItem(os[k], ns[k])
    ensures FlagSet(listed, os, ns, k + 1)
            <==> FlagSet(listed, os, ns, k) || Flags(listed || DiffersBefore(os, ns, k), os[k], ns[k])
    ensures CompleteFrom(listed, os, ns, k)
            <==> ItemComplete(FlagSet(listed, os, ns, k), listed || DiffersBefore(os, ns, k), os[k], ns[k])
                 && CompleteFrom(listed, os, ns, k + 1)
  {
  }

  /** `listed` tells whether the list held a change when the array was entered. */
  lemma {:induction false} ItemsReport(path: string, name: string, os: seq<Json>, ns: seq<Json>, position: nat,
                                       changed: bool, acc: seq<Change>, listed: bool)
    requires position <= |ns| && position <= |os| + |ns|
    requires changed == FlagSet(listed, os, ns, position) && (changed ==> acc != [])
    requires acc != [] <==> listed || DiffersBefore(os, ns, position)
    ensures var (changed', acc') := ReportItems(path, name, os, ns, position, changed, acc);
      && changed' == FlagSet(listed, os, ns, |ns|)
      && Extends(acc, acc', FullItems(path, name, os, ns, position), CompleteFrom(listed, os, ns, position))
    decreases ns, |ns| - position
  {
    if position < |os| && position < |ns| {
      var o, n, at := os[position], ns[position], AtIndex(path, position);
      var (changed1, acc1) := ReportItem(at, name, o, n, changed, acc);
      ItemReport(at, name, o, n, changed, acc);
      ItemAgrees(at, name, o, n, changed, acc);
      OneMorePosition(listed, os, ns, position);
      ItemsReport(path, name, os, ns, position + 1, changed1, acc1, listed);
      ExtendsTwice(acc, acc1, ReportItems(path, name, os, ns, position, changed, acc).1,
                   FullItem(at, name, o, n), FullItems(path, name, os, ns, position + 1),
                   ItemComplete(changed, acc != [], o, n), CompleteFrom(listed, os, ns, position + 1));
    } else {
      ExtendsByNone(acc, []);
    }
  }

  lemma {:induction false} ItemReport(path: string, name: string, o: Json, n: Json, changed: bool, acc: seq<Change>)
    requires changed ==> acc != []
    ensures var (changed', acc') := ReportItem(path, name, o, n, changed, acc);
      && changed' == (changed || Flags(acc != [], o, n))
      && Extends(acc, acc', FullItem(path, name, o, n), ItemComplete(changed, acc != [], o, n))
    decreases n, 1
  {
    if o.Obj? && n.Obj? {
      if changed {
        FullObjectEmpty(path, o, n);
        ExtendsByNone(acc, FullObject(path, o, n));
      } else {
        ObjectReport(path, o, n, acc);
        ObjectAgrees(path, o, n, acc);
      }
    } else if o.Arr? && n.Arr? {
      if changed {
        FullArrayEmpty(path, name, o.items, n.items);
        ExtendsByNone(acc, FullArray(path, name, o.items, n.items));
      } else {
        ArrayReport(path, name, o.items, n.items, acc);
      }
    } else {
      ExtendsByAll(acc, FullItem(path, name, o, n));
      assert acc + [] == acc;
    }
  }

  /** What does not differ does not set the flag while the list is empty; neither does a
      difference in length between two arrays. */
  lemma {:induction false} SameSetsNoFlag(o: Json, n: Json)
    requires if o.Arr? && n.Arr? then ItemsSameFrom(o.items, n.items, 0) else SameItem(o, n)
    ensures !Flags(false, o, n)
    decreases n
  {
    if o.Arr? && n.Arr? {
      forall j | 0 <= j < |n.items| && j < |o.items|
        ensures !DiffersBefore(o.items, n.items, j) && !Flags(false, o.items[j], n.items[j])
      {
        var oj, nj := o.items[j], n.items[j];
        assert SameItem(oj, nj);
        assert oj.Arr? && nj.Arr? ==> SameArray(oj.items, nj.items);
        SameSetsNoFlag(oj, nj);
      }
    }
  }

  /** The flag that the comparison of two arrays holds when it reaches position k. */
  lemma {:induction false} FlagAtPosition(path: string, name: string, os: seq<Json>, ns: seq<Json>, k: nat,
                                          acc: seq<Change>)
    requires k <= |os| && k <= |ns|
    ensures ReportArray(path, name, os[..k], ns[..k], acc).0 == FlagSet(acc != [], os, ns, k)
  {
    ArrayReport(path, name, os[..k], ns[..k], acc);
    forall j | 0 <= j < k ensures DiffersBefore(os[..k], ns[..k], j) == DiffersBefore(os, ns, j) {
      assert forall i | 0 <= i < j :: os[..k][i] == os[i] && ns[..k][i] == ns[i];
    }
  }

  // ---------------------------------------------------------------------------------
  // Results

  /** The report of a document lists every difference exactly when in no array a differing pair of
      objects or arrays stands behind a position that set the flag; otherwise it is shorter. What
      it lists it lists in the same order. */
  lemma {:induction false} ReportCompleteExactlyWhen(old_: Json, new_: Json)
    requires new_.Obj?
    ensures ReportObject("", old_, new_, []) == FullObject("", old_, new_) <==> ObjectComplete(false, old_, new_)
    ensures !ObjectComplete(false, old_, new_) ==>
              |ReportObject("", old_, new_, [])| < |FullObject("", old_, new_)|
    ensures Within(ReportObject("", old_, new_, []), FullObject("", old_, new_))
  {
    var report := ReportObject("", old_, new_, []);
    ObjectReport("", old_, new_, []);
    assert [] + FullObject("", old_, new_) == FullObject("", old_, new_) && report[0..] == report;
  }

  /** Once the list holds a change, the first object of an array sets the flag although it is
      unchanged, and a changed object behind it is not reported. */
  lemma {:induction false} ListedChangeHidesObject(path: string, name: string, x: Json, o: Json, n: Json, c: Change)
    requires x.Obj? && SameObject(x, x) && o.Obj? && n.Obj?
    ensures ReportArray(path, name, [x, o], [x, n], [c]) == (true, [c])
  {
    var at := AtIndex(path, 0);
    ObjectReport(at, x, x, [c]);
    ObjectAgrees(at, x, x, [c]);
    FullObjectEmpty(at, x, x);
    assert [c] + [] == [c];
    var os, ns := [x, o], [x, n];
    assert ReportItem(at, name, os[0], ns[0], false, [c]) == (true, [c]);
    assert ReportItem(AtIndex(path, 1), name, os[1], ns[1], true, [c]) == (true, [c]);
    assert ReportItems(path, name, os, ns, 2, true, [c]) == (true, [c]);
    assert ReportItems(path, name, os, ns, 1, true, [c]) == (true, [c]);
  }

  /** A property that turned into another plain value, and a list of two objects. */
  function ValueAndList(name: string, value: Json, listName: string, x: Json, o: Json): Json {
    Obj([Field(name, value), Field(listName, Arr([x, o]))])
  }

  /** In a whole document a change of one property is enough: of the list behind it, whose first
      object is unchanged, no change of the second object is reported, whatever it is. */
  lemma {:induction false} EarlierChangeHidesObject(name: string, a: Json, b: Json, listName: string, x: Json,
                                                    o: Json, n: Json)
    requires name != listName && !Ignored(name) && !Ignored(listName)
    requires !a.Undefined? && !b.Undefined? && !b.Null? && !b.Arr? && !b.Obj? && !StrictEquals(a, b)
    requires x.Obj? && SameObject(x, x) && o.Obj? && n.Obj?
    ensures var old_, new_ := ValueAndList(name, a, listName, x, o), ValueAndList(name, b, listName, x, n);
      && ReportObject("", old_, new_, []) == [Change("", name, b, a, FieldChanged)]
      && (FullObject("", old_, new_) == ReportObject("", old_, new_, []) <==> SameObject(o, n))
  {
    var old_, new_ := ValueAndList(name, a, listName, x, o), ValueAndList(name, b, listName, x, n);
    var c, path := Change("", name, b, a, FieldChanged), Combine("", listName);
    var f, g, rest := new_.fields[0], new_.fields[1], new_.fields[1..];
    assert rest == [g] && rest[1..] == [];
    LookUpBoth(name, a, listName, x, o);
    LookUpBoth(name, b, listName, x, n);
    BothKept(old_, new_);
    assert ReportField("", old_.fields, f, []) == [] + [c] == [c];
    assert FullField("", old_.fields, f) == [] + [c] == [c];
    ListedChangeHidesObject(path, listName, x, o, n, c);
    assert ReportField("", old_.fields, g, [c]) == [c];
    assert ReportFields("", old_.fields, rest, [c]) == ReportFields("", old_.fields, rest[1..], [c]) == [c];
    assert ReportObject("", old_, new_, []) == ReportFields("", old_.fields, new_.fields, []) == [c];
    FullArrayEmpty(path, listName, [x, o], [x, n]);
    SameSecond(x, o, n);
    var full := FullArray(path, listName, [x, o], [x, n]);
    assert FullField("", old_.fields, rest[0]) == full;
    assert FullFields("", old_.fields, rest) == full + FullFields("", old_.fields, rest[1..]) == full + [];
    assert FullObject("", old_, new_) == [] + ([c] + (full + []));
  }

  lemma {:induction false} LookUpBoth(name: string, value: Json, listName: string, x: Json, o: Json)
    requires name != listName && !value.Undefined?
    ensures var fields := ValueAndList(name, value, listName, x, o).fields;
      Get(fields, name) == value && Get(fields, listName) == Arr([x, o])
  {
    var fields := ValueAndList(name, value, listName, x, o).fields;
    assert fields[1..] == [Field(listName, Arr([x, o]))];
    assert Get(fields[1..], listName) == Arr([x, o]);
  }

  lemma {:induction false} SameSecond(x: Json, o: Json, n: Json)
    requires x.Obj? && SameObject(x, x) && o.Obj? && n.Obj?
    ensures SameArray([x, o], [x, n]) <==> SameObject(o, n)
  {
    var os, ns := [x, o], [x, n];
    assert SameItem(os[0], ns[0]) && (SameItem(os[1], ns[1]) <==> SameObject(o, n));
  }

  lemma {:induction false} BothKept(old_: Json, new_: Json)
    requires old_.Obj? && new_.Obj? && |old_.fields| == 2
    requires Has(new_.fields, old_.fields[0].name) && Has(new_.fields, old_.fields[1].name)
    ensures ReportRemoved("", old_.fields, new_.fields, []) == []
  {
    var rest := old_.fields[1..];
    assert rest == [old_.fields[1]] && rest[1..] == [];
    assert ReportRemoved("", rest, new_.fields, []) == ReportRemoved("", rest[1..], new_.fields, []) == [];
  }
}
