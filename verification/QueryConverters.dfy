/** The ordered list of query value converters. */
module QueryConverters {
  import opened Wrappers

  // Registration places a converter before those of the same class and of its base classes, and
  // lookup takes the first that matches.

  /** A class knows its base class, so hierarchies have single inheritance. */
  datatype Class = Root(id: nat) | Derived(id: nat, base: Class)

  datatype Entry = Entry(type_: Class, converter: nat)

  /** Whether instances of the class are instances of the type. */
  predicate Inherits(c: Class, t: Class) {
    c == t || (c.Derived? && Inherits(c.base, t))
  }

  /** The class itself, its base class, the base class of that, up to the root. */
  function Chain(c: Class): seq<Class> {
    match c
    case Root(_) => [c]
    case Derived(_, base) => [c] + Chain(base)
  }

  predicate StrictlyInherits(c: Class, t: Class) {
    c != t && Inherits(c, t)
  }

  lemma {:induction false} InheritsTransitive(a: Class, b: Class, c: Class)
    requires Inherits(a, b) && Inherits(b, c)
    ensures Inherits(a, c)
  {
    if a != b {
      InheritsTransitive(a.base, b, c);
    }
  }

  function Depth(c: Class): nat {
    if c.Root? then 0 else 1 + Depth(c.base)
  }

  lemma {:induction false} InheritsDepth(a: Class, b: Class)
    requires Inherits(a, b)
    ensures Depth(a) >= Depth(b) && (a != b ==> Depth(a) > Depth(b))
  {
    if a != b {
      InheritsDepth(a.base, b);
    }
  }

  /** Single inheritance: the types of one instance form a chain. */
  lemma {:induction false} TypesFormChain(v: Class, a: Class, b: Class)
    requires Inherits(v, a) && Inherits(v, b)
    ensures Inherits(a, b) || Inherits(b, a)
  {
    if v != a && v != b {
      TypesFormChain(v.base, a, b);
    }
  }

  // ---------------------------------------------------------------------------------
  // Registration and lookup

  /** Where the converter of a class goes: in front of the first one its instances also match. */
  function Place(list: seq<Entry>, type_: Class): (index: nat)
    ensures index <= |list|
    ensures forall i | 0 <= i < index :: !Inherits(type_, list[i].type_)
    ensures index < |list| ==> Inherits(type_, list[index].type_)
  {
    if list == [] || Inherits(type_, list[0].type_) then 0 else 1 + Place(list[1..], type_)
  }

  function Register(list: seq<Entry>, e: Entry): seq<Entry> {
    list[..Place(list, e.type_)] + [e] + list[Place(list, e.type_)..]
  }

  function RegisterAll(history: seq<Entry>): seq<Entry> {
    if history == [] then [] else Register(RegisterAll(history[..|history| - 1]), history[|history| - 1])
  }

  predicate Matches(v: Option<Class>, e: Entry) {
    v.Some? && Inherits(v.value, e.type_)
  }

  /** A converter is for a value exactly when its class stands in the chain of the value's class. */
  lemma {:induction false} MatchesExactlyWhen(v: Option<Class>, e: Entry)
    ensures Matches(v, e) <==> v.Some? && e.type_ in Chain(v.value)
  {
    if v.Some? {
      InheritsExactlyWhen(v.value, e.type_);
    }
  }

  lemma {:induction false} InheritsExactlyWhen(c: Class, t: Class)
    ensures Inherits(c, t) <==> t in Chain(c)
  {
    if c.Derived? {
      InheritsExactlyWhen(c.base, t);
    }
  }

  /** The first entry that matches; values without a class match none. */
  function Lookup(list: seq<Entry>, v: Option<Class>): Option<Entry> {
    if list == [] then None
    else if Matches(v, list[0]) then Some(list[0])
    else Lookup(list[1..], v)
  }

  /** No converter precedes one for a strict subclass. */
  ghost predicate Ordered(list: seq<Entry>) {
    forall i, j | 0 <= i < j < |list| :: !StrictlyInherits(list[j].type_, list[i].type_)
  }

  lemma {:induction false} RegisterKeepsOrder(list: seq<Entry>, e: Entry)
    requires Ordered(list)
    ensures Ordered(Register(list, e))
  {
    var p := Place(list, e.type_);
    forall j | p <= j < |list| ensures !StrictlyInherits(list[j].type_, e.type_) {
      if StrictlyInherits(list[j].type_, e.type_) {
        InheritsTransitive(list[j].type_, e.type_, list[p].type_);
        InheritsDepth(list[j].type_, e.type_);
        InheritsDepth(e.type_, list[p].type_);
        assert list[j].type_ != list[p].type_;
        assert StrictlyInherits(list[j].type_, list[p].type_);
      }
    }
    var grown := Register(list, e);
    forall i, j | 0 <= i < j < |grown| ensures !StrictlyInherits(grown[j].type_, grown[i].type_) {
      assert i < p ==> grown[i] == list[i];
      assert i > p ==> grown[i] == list[i - 1];
      assert j < p ==> grown[j] == list[j];
      assert j > p ==> grown[j] == list[j - 1];
    }
  }

  lemma {:induction false} RegistrationsAreOrdered(history: seq<Entry>)
    ensures Ordered(RegisterAll(history))
  {
    if history != [] {
      RegistrationsAreOrdered(history[..|history| - 1]);
      RegisterKeepsOrder(RegisterAll(history[..|history| - 1]), history[|history| - 1]);
    }
  }

  // ---------------------------------------------------------------------------------
  // Lookup finds the most specific converter

  /** What lookup gives when the matching entries start at the index. */
  lemma {:induction false} LookupAt(list: seq<Entry>, v: Option<Class>, index: nat)
    requires index <= |list| && forall i | 0 <= i < index :: !Matches(v, list[i])
    ensures Lookup(list, v) ==
      if index == |list| then None
      else if Matches(v, list[index]) then Some(list[index]) else Lookup(list[index + 1..], v)
  {
    if index > 0 {
      LookupAt(list[1..], v, index - 1);
      assert index < |list| ==> list[1..][index - 1 + 1..] == list[index + 1..];
    }
  }

  lemma {:induction false} LookupIndex(list: seq<Entry>, v: Option<Class>) returns (index: nat)
    ensures index <= |list| && forall i | 0 <= i < index :: !Matches(v, list[i])
    ensures Lookup(list, v).None? <==> index == |list|
    ensures index < |list| ==> Matches(v, list[index]) && Lookup(list, v) == Some(list[index])
  {
    if list == [] {
      index := 0;
    } else if Matches(v, list[0]) {
      index := 0;
    } else {
      var rest := LookupIndex(list[1..], v);
      index := rest + 1;
      assert forall i | 0 < i < index :: list[i] == list[1..][i - 1];
    }
  }

  /** A new registration is looked up for a value exactly when it matches and is at least as
      specific as what was found before. */
  predicate Supersedes(e: Entry, found: Option<Entry>, v: Option<Class>) {
    Matches(v, e) && (found.None? || Inherits(e.type_, found.value.type_))
  }

  lemma {:induction false} LookupAfterRegister(list: seq<Entry>, e: Entry, v: Option<Class>)
    requires Ordered(list)
    ensures Lookup(Register(list, e), v) ==
      if Supersedes(e, Lookup(list, v), v) then Some(e) else Lookup(list, v)
  {
    var p := Place(list, e.type_);
    var k := LookupIndex(list, v);
    var grown := Register(list, e);
    if k < p {
      assert forall i | 0 <= i <= k :: grown[i] == list[i];
      LookupAt(grown, v, k);
    } else {
      assert forall i | 0 <= i < p :: grown[i] == list[i];
      if Matches(v, e) {
        LookupAt(grown, v, p);
        if k < |list| {
          FoundIsNoMoreSpecific(list, e, v, k);
        }
      } else {
        assert forall i | p < i < |grown| :: grown[i] == list[i - 1];
        if k < |list| {
          LookupAt(grown, v, k + 1);
        } else {
          LookupAt(grown, v, |grown|);
        }
      }
    }
  }

  /** What was found behind the place of a matching class is that class or a base of it. */
  lemma {:induction false} FoundIsNoMoreSpecific(list: seq<Entry>, e: Entry, v: Option<Class>, k: nat)
    requires Ordered(list) && Matches(v, e) && Place(list, e.type_) <= k < |list| && Matches(v, list[k])
    requires forall i | 0 <= i < k :: !Matches(v, list[i])
    ensures Inherits(e.type_, list[k].type_)
  {
    var p := Place(list, e.type_);
    InheritsTransitive(v.value, e.type_, list[p].type_);
    assert Matches(v, list[p]);
  }

  ghost predicate Best(history: seq<Entry>, v: Option<Class>, i: nat) {
    && i < |history| && Matches(v, history[i])
    && forall j | 0 <= j < |history| && Matches(v, history[j]) ::
         Inherits(history[i].type_, history[j].type_) && (history[j].type_ == history[i].type_ ==> j <= i)
  }

  /** The best of the history, or nothing when the index is its end. */
  ghost predicate BestOrNone(history: seq<Entry>, v: Option<Class>, i: nat) {
    if i < |history| then Best(history, v, i)
    else i == |history| && forall j | 0 <= j < |history| :: !Matches(v, history[j])
  }

  function Found(history: seq<Entry>, i: nat): Option<Entry> {
    if i < |history| then Some(history[i]) else None
  }

  /** A registration that supersedes the best one is the best one then. */
  lemma {:induction false} SupersedingIsBest(before: seq<Entry>, e: Entry, v: Option<Class>, k: nat)
    requires BestOrNone(before, v, k) && Supersedes(e, Found(before, k), v)
    ensures Best(before + [e], v, |before|)
  {
    forall j | 0 <= j < |before| && Matches(v, before[j]) ensures Inherits(e.type_, before[j].type_) {
      InheritsTransitive(e.type_, before[k].type_, before[j].type_);
    }
  }

  /** Any other registration leaves the best one, or that there is none, as it was. */
  lemma {:induction false} OtherwiseBestStays(before: seq<Entry>, e: Entry, v: Option<Class>, k: nat)
    requires BestOrNone(before, v, k) && !Supersedes(e, Found(before, k), v)
    ensures BestOrNone(before + [e], v, if k < |before| then k else k + 1)
  {
    if k < |before| && Matches(v, e) {
      TypesFormChain(v.value, e.type_, before[k].type_);
    }
  }

  /** After any registrations, lookup finds the converter of the most specific registered class of
      the value, and of several for that class the latest; it fails only if none matches. */
  lemma {:induction false} LookupIsMostSpecific(history: seq<Entry>, v: Option<Class>) returns (i: nat)
    ensures i <= |history|
    ensures i < |history| ==> Best(history, v, i) && Lookup(RegisterAll(history), v) == Some(history[i])
    ensures i == |history| ==>
      Lookup(RegisterAll(history), v) == None && forall j | 0 <= j < |history| :: !Matches(v, history[j])
  {
    if history == [] {
      i := 0;
    } else {
      var n := |history| - 1;
      var e, before := history[n], history[..n];
      assert history == before + [e];
      var k := LookupIsMostSpecific(before, v);
      RegistrationsAreOrdered(before);
      LookupAfterRegister(RegisterAll(before), e, v);
      if Supersedes(e, Found(before, k), v) {
        i := n;
        SupersedingIsBest(before, e, v, k);
      } else {
        i := if k < n then k else n + 1;
        OtherwiseBestStays(before, e, v, k);
      }
    }
  }

  // ---------------------------------------------------------------------------------
  // The conventions object

  class DocumentConventions {
    var converters: seq<Entry>
    var frozen: bool

    constructor ()
      ensures converters == RegisterAll([]) && !frozen
    {
      converters := [];
      frozen := false;
    }

    /** Frozen conventions refuse the registration. */
    method RegisterQueryValueConverter(e: Entry) returns (registered: bool)
      modifies this
      ensures registered == !old(frozen) && frozen == old(frozen)
      ensures converters == if registered then Register(old(converters), e) else old(converters)
    {
      if frozen {
        return false;
      }
      var index := 0;
      while index < |converters|
        invariant 0 <= index <= |converters|
        invariant index <= Place(converters, e.type_)
        invariant forall i | 0 <= i < index :: !Inherits(e.type_, converters[i].type_)
      {
        if Inherits(e.type_, converters[index].type_) {
          break;
        }
        index := index + 1;
      }
      converters := converters[..index] + [e] + converters[index..];
      return true;
    }

    method TryConvert(v: Option<Class>) returns (found: Option<Entry>)
      ensures found == Lookup(converters, v)
    {
      var i := 0;
      while i < |converters|
        invariant 0 <= i <= |converters|
        invariant Lookup(converters[i..], v) == Lookup(converters, v)
      {
        if Matches(v, converters[i]) {
          return Some(converters[i]);
        }
        assert converters[i..][1..] == converters[i + 1..];
        i := i + 1;
      }
      return None;
    }
  }
}
