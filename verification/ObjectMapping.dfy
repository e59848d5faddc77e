/** Writing a typed tree as plain JSON, recording the paths of its dates, and putting them back. */
module ObjectMapping {
  import opened Decimals
  import opened SortedTexts
  import opened Texts
  import opened Wrappers

  /** `SetOf` is a set object, which only comes up while reading. Its members are distinct as
      references: two of its objects may well be equal as trees. */
  datatype Value =
    | Undefined
    | Null
    | Bool(b: bool)
    | Number(n: real)
    | Text(s: string)
    | Date(t: int)
    | SetOf(members: seq<Value>)
    | Arr(items: seq<Value>)
    | Obj(fields: map<string, Value>)

  /** An exception, or a value. */
  datatype Outcome = Thrown | Got(value: Value)

  /** What lies outside: the text of a date, what parsing makes of a value, what the writer makes
      of an object that it takes for a set and of one with a key that sets its prototype, and the
      length that an object with such a property is taken to have as a list, unless that throws. */
  datatype Library = Library(print_: int -> string, parse: Value -> Outcome, asSet: Value -> Outcome,
                             inherit: Value -> Outcome, lengthOf: Value -> Option<nat>)

  const METADATA_KEY := "@metadata"

  /** Assigning to this key of a new object sets its prototype. */
  const PROTO_KEY := "__proto__"

  // ---------------------------------------------------------------------------------
  // Writing: the plain literal and the recorded paths

  /** Built-in types are recognised by the name of the constructor, which a plain object can have
      as a property of its own. */
  predicate Poses(v: Value, typeName: string) {
    v.Obj? && "constructor" in v.fields && v.fields["constructor"].Obj?
    && "name" in v.fields["constructor"].fields && v.fields["constructor"].fields["name"] == Text(typeName)
  }

  /** The plain tree: every date replaced by its text. Printing an object that poses as a date
      throws, since it has no date methods, and so does reading the entries of a would-be map. */
  function Write(lib: Library, v: Value): Outcome {
    match v
    case Date(t) => Got(Text(lib.print_(t)))
    case Arr(items) =>
      if forall i | 0 <= i < |items| :: Write(lib, items[i]).Got? then
        Got(Arr(seq(|items|, i requires 0 <= i < |items| => Write(lib, items[i]).value)))
      else Thrown
    case Obj(fields) =>
      if Poses(v, "Date") then Thrown
      else if Poses(v, "Set") then lib.asSet(v)
      else if Poses(v, "Map") then Thrown
      else if PROTO_KEY in fields then lib.inherit(v)
      else if forall k | k in fields :: Write(lib, fields[k]).Got? then
        Got(Obj(map k | k in fields :: Write(lib, fields[k]).value))
      else Thrown
    case _ => Got(v)
  }

  function Child(prefix: string, key: string): string {
    if prefix == "" then key else prefix + "." + key
  }

  function ItemPath(prefix: string, index: nat): string {
    prefix + "." + Decimal(index)
  }

  predicate InnerSkip(skip: bool, key: string) {
    skip || key == METADATA_KEY
  }

  /** The paths recorded with type "date", in a tree that is written as what it is. Metadata subtrees
      record nothing, but an array inside them starts recording again. */
  function Record(v: Value, prefix: string, skip: bool): set<string> {
    match v
    case Date(_) => if skip then {} else {prefix}
    case Arr(items) =>
      set i, p | 0 <= i < |items| && p in Record(items[i], ItemPath(prefix, i), false) :: p
    case Obj(fields) =>
      set k, p | k in fields && p in Record(fields[k], Child(prefix, k), InnerSkip(skip, k)) :: p
    case _ => {}
  }

  // ---------------------------------------------------------------------------------
  // Reading: path text to segments, and one typed property

  /** The text with an exclamation mark in front of every occurrence of the pattern. */
  function Mark(s: string, pattern: string): string
    requires pattern != ""
  {
    if s == "" then ""
    else if pattern <= s then "!" + pattern + Mark(s[|pattern|..], pattern)
    else [s[0]] + Mark(s[1..], pattern)
  }

  const SEPARATORS := {'!', '.'}

  function Marked(path: string): string {
    Mark(Mark(Mark(path, "["), "$MAP"), "$SET")
  }

  function Segments(path: string): (segments: seq<string>)
    ensures segments != []
  {
    Split(Marked(path), SEPARATORS)
  }

  predicate IsIndex(field: string, length: nat) {
    field != "" && AllDigits(field) && ValueOf(field) < length && Decimal(ValueOf(field)) == field
  }

  predicate HasOwn(v: Value, field: string) {
    match v
    case Arr(items) => IsIndex(field, |items|)
    case Obj(fields) => field in fields
    case _ => false
  }

  function Own(v: Value, field: string): (child: Value)
    requires HasOwn(v, field)
  {
    if v.Arr? then v.items[ValueOf(field)] else v.fields[field]
  }

  function Put(v: Value, field: string, child: Value): Value
    requires HasOwn(v, field)
  {
    if v.Arr? then Arr(v.items[ValueOf(field) := child]) else Obj(v.fields[field := child])
  }

  datatype TypeName = DateType | SetType

  predicate Primitive(v: Value) {
    v.Undefined? || v.Null? || v.Bool? || v.Number? || v.Text?
  }

  /** What a set holds after adding a value: primitives are held once. */
  function Added(members: seq<Value>, v: Value): seq<Value> {
    if Primitive(v) && v in members then members else members + [v]
  }

  function Removed(members: seq<Value>, v: Value): seq<Value> {
    if members == [] then []
    else if members[0] == v then members[1..]
    else [members[0]] + Removed(members[1..], v)
  }

  function Distinct(items: seq<Value>): seq<Value> {
    if items == [] then [] else Added(Distinct(items[..|items| - 1]), items[|items| - 1])
  }

  function Letters(s: string): seq<Value> {
    seq(|s|, i requires 0 <= i < |s| => Text([s[i]]))
  }

  /** What a property of the type becomes; a set is built from what can be iterated. */
  function Retype(lib: Library, v: Value, type_: TypeName): Outcome {
    if v == Undefined || v == Null then Got(v)
    else if type_ == DateType then lib.parse(v)
    else
      match v
      case Arr(items) => Got(SetOf(Distinct(items)))
      case Text(s) => Got(SetOf(Distinct(Letters(s))))
      case SetOf(_) => Got(v)
      case _ => Thrown
  }

  /** An own property of that name hides the method by which properties are looked up. */
  predicate HidesLookup(v: Value) {
    v.Obj? && "hasOwnProperty" in v.fields
  }

  predicate Falsy(v: Value) {
    match v
    case Undefined => true
    case Null => true
    case Bool(b) => !b
    case Number(n) => n == 0.0
    case Text(s) => s == ""
    case _ => false
  }

  // A segment can end in a mark that says what the rest of the path is about: all items of an
  // array, all members of a set or all values of a map.

  datatype Reach = Property | Items | Members | Entries

  predicate EndsWith(s: string, suffix: string) {
    |suffix| <= |s| && s[|s| - |suffix|..] == suffix
  }

  function Strip(s: string, suffix: string): string {
    if EndsWith(s, suffix) then s[..|s| - |suffix|] else s
  }

  function Kind(segment: string): Reach {
    if EndsWith(segment, "[]") then Items
    else if EndsWith(segment, "$SET") then Members
    else if EndsWith(segment, "$MAP") then Entries
    else Property
  }

  function Name(segment: string): string {
    Strip(Strip(Strip(segment, "[]"), "$SET"), "$MAP")
  }

  /** The tree with one child put back, or an exception. */
  function PutBack(v: Value, field: string, child: Outcome): Outcome
    requires HasOwn(v, field)
  {
    match child
    case Thrown => Thrown
    case Got(value) => Got(Put(v, field, value))
  }

  /** The tree after the type was applied to what the segments lead to. A collection mark looks
      into the property of its name, or into the value itself if there is no such property. */
  function Touch(lib: Library, v: Value, segments: seq<string>, type_: TypeName): Outcome
    decreases |segments|, 0
  {
    if segments == [] then Retype(lib, v, type_)
    else if Falsy(v) then Got(v)
    else if HidesLookup(v) then Thrown
    else
      var name, kind, rest := Name(segments[0]), Kind(segments[0]), segments[1..];
      if kind.Property? then
        if HasOwn(v, name) then PutBack(v, name, Touch(lib, Own(v, name), rest, type_)) else Got(v)
      else
        if HasOwn(v, name) then PutBack(v, name, TouchEach(lib, Own(v, name), kind, rest, type_))
        else TouchEach(lib, v, kind, rest, type_)
  }

  /** The type applied inside everything that a value holds. What is no collection of the kind
      throws, but anything except undefined and null can be read as a list, and an array has
      entries as well; setting a value that does not belong to the kind of collection throws. */
  function TouchEach(lib: Library, v: Value, kind: Reach, segments: seq<string>, type_: TypeName): Outcome
    requires !kind.Property?
    decreases |segments|, 1
  {
    match v
    case Undefined => Thrown
    case Null => Thrown
    case Arr(items) =>
      if segments == [] && !kind.Items? then NothingToSet(v, items)
      else if forall i | 0 <= i < |items| :: Touch(lib, items[i], segments, type_).Got? then
        Got(Arr(seq(|items|, i requires 0 <= i < |items| => Touch(lib, items[i], segments, type_).value)))
      else Thrown
    case SetOf(members) =>
      if kind.Items? then Thrown
      else if segments == [] then
        if kind.Members? then Replaced(lib, members, members, type_) else NothingToSet(v, members)
      else if forall i | 0 <= i < |members| :: Touch(lib, members[i], segments, type_).Got? then
        Got(SetOf(seq(|members|, i requires 0 <= i < |members| => Touch(lib, members[i], segments, type_).value)))
      else Thrown
    case Text(s) =>
      if !kind.Members? then Thrown
      else if segments == [] then NothingToSet(v, Letters(s))
      else if forall i | 0 <= i < |s| :: Touch(lib, Text([s[i]]), segments, type_).Got? then Got(v)
      else Thrown
    case Obj(fields) =>
      if !kind.Members? || ListLength(lib, fields).None? then Thrown
      else
        var n := ListLength(lib, fields).value;
        if segments == [] then
          if forall k | k in fields && IsIndex(k, n) :: fields[k] == Undefined then Got(v) else Thrown
        else if forall k | k in fields && IsIndex(k, n) :: Touch(lib, fields[k], segments, type_).Got? then
          Got(Obj(map k | k in fields ::
                    if IsIndex(k, n) then Touch(lib, fields[k], segments, type_).value else fields[k]))
        else Thrown
    case _ => if kind.Members? then Got(v) else Thrown
  }

  /** The length of an object read as a list. */
  function ListLength(lib: Library, fields: map<string, Value>): Option<nat> {
    if "length" in fields then lib.lengthOf(fields["length"]) else Some(0)
  }

  /** A collection that cannot take new values is left alone only if it holds nothing defined. */
  function NothingToSet(v: Value, items: seq<Value>): Outcome {
    if forall i | 0 <= i < |items| :: items[i] == Undefined then Got(v) else Thrown
  }

  /** A set in which the pending members are taken out and added again with the type, one by one. */
  function Replaced(lib: Library, pending: seq<Value>, members: seq<Value>, type_: TypeName): (o: Outcome)
    ensures o.Got? ==> o.value.SetOf?
    decreases |pending|
  {
    if pending == [] then Got(SetOf(members))
    else if pending[0] == Undefined then Replaced(lib, pending[1..], members, type_)
    else
      match Retype(lib, pending[0], type_)
      case Thrown => Thrown
      case Got(v) => Replaced(lib, pending[1..], Added(Removed(members, pending[0]), v), type_)
  }

  datatype Typed = Typed(path: string, type_: TypeName)

  function TouchAll(lib: Library, v: Value, types: seq<Typed>): Outcome
    decreases |types|
  {
    if types == [] then Got(v)
    else
      match Touch(lib, v, Segments(types[0].path), types[0].type_)
      case Thrown => Thrown
      case Got(v') => TouchAll(lib, v', types[1..])
  }

  /** The paths in the order in which they are applied. */
  function InOrder(nestedTypes: map<string, TypeName>): (types: seq<Typed>)
    ensures |types| == |Sorted(nestedTypes.Keys)|
  {
    var paths := Sorted(nestedTypes.Keys);
    seq(|paths|, i requires 0 <= i < |paths| => Typed(paths[i], nestedTypes[paths[i]]))
  }

  method ApplyNestedTypes(lib: Library, root: Value, nestedTypes: map<string, TypeName>) returns (outcome: Outcome)
    ensures outcome == TouchAll(lib, root, InOrder(nestedTypes))
  {
    if nestedTypes == map[] {
      return Got(root);
    }
    var obj := root;
    var paths := Sorted(nestedTypes.Keys);
    ghost var types := InOrder(nestedTypes);
    var i := 0;
    while i < |paths|
      invariant 0 <= i <= |paths|
      invariant TouchAll(lib, obj, types[i..]) == TouchAll(lib, root, types)
    {
      assert types[i..][0] == types[i] && types[i..][1..] == types[i + 1..];
      var touched := Touch(lib, obj, Segments(paths[i]), nestedTypes[paths[i]]);
      match touched {
        case Thrown => return Thrown;
        case Got(value) => obj := value;
      }
      i := i + 1;
    }
    return Got(obj);
  }

  /** The own properties of a value, copied into a new object. */
  function Assigned(v: Value): (obj: Value)
    ensures obj.Obj?
  {
    match v
    case Obj(_) => v
    case Arr(items) =>
      Obj(map k | k in Indices(|items|) && IsIndex(k, |items|) :: items[ValueOf(k)])
    case Text(s) =>
      Obj(map k | k in Indices(|s|) && IsIndex(k, |s|) :: Text([s[ValueOf(k)]]))
    case _ => Obj(map[])
  }

  function Indices(n: nat): set<string> {
    set i | 0 <= i < n :: Decimal(i)
  }

  /** Writing a tree and reading it with the given types. */
  function Restored(lib: Library, v: Value, types: seq<Typed>): Outcome {
    match Write(lib, v)
    case Thrown => Thrown
    case Got(raw) => TouchAll(lib, Assigned(raw), types)
  }
}
