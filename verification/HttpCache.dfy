/** The size-bounded response cache: an insertion-ordered map whose order is recency, a running
    total of weights, and eviction of the least recently used entries. */
module HttpCaching {
  import opened Wrappers

  datatype Item = Item(changeVector: string, payload: Option<string>)

  datatype Entry = Entry(url: string, item: Item)

  datatype Cache = Cache(entries: seq<Entry>, totalSize: int, maxSize: nat)

  datatype Command = Set(url: string, changeVector: string, payload: string) | SetNotFound(url: string)
                   | Get(url: string) | Clear

  const NOT_FOUND_RESPONSE := "404 Response"
  const ITEM_OVERHEAD := 20

  function Weigh(item: Item): nat {
    (if item.payload.Some? then |item.payload.value| else 0) + ITEM_OVERHEAD
  }

  function Weight(entries: seq<Entry>): nat {
    if entries == [] then 0 else Weigh(entries[0].item) + Weight(entries[1..])
  }

  function Lookup(entries: seq<Entry>, url: string): Option<Item> {
    if entries == [] then None
    else if entries[0].url == url then Some(entries[0].item)
    else Lookup(entries[1..], url)
  }

  function Delete(entries: seq<Entry>, url: string): seq<Entry> {
    if entries == [] then []
    else if entries[0].url == url then entries[1..]
    else [entries[0]] + Delete(entries[1..], url)
  }

  /** A new key goes to the end of an insertion-ordered map. */
  function MoveToEnd(entries: seq<Entry>, url: string, item: Item): seq<Entry> {
    Delete(entries, url) + [Entry(url, item)]
  }

  function Evict(c: Cache): Cache
    decreases |c.entries|
  {
    if c.totalSize > c.maxSize && c.entries != [] then
      Evict(Cache(c.entries[1..], c.totalSize - Weigh(c.entries[0].item), c.maxSize))
    else c
  }

  function Without(c: Cache, url: string): Cache {
    match Lookup(c.entries, url)
    case None => c
    case Some(existing) => Cache(Delete(c.entries, url), c.totalSize - Weigh(existing), c.maxSize)
  }

  predicate Fits(c: Cache, item: Item) {
    Weigh(item) <= c.maxSize
  }

  function Put(c: Cache, url: string, item: Item): Cache {
    var without := Without(c, url);
    if !Fits(c, item) then without
    else Evict(Cache(without.entries + [Entry(url, item)], without.totalSize + Weigh(item), c.maxSize))
  }

  function Touched(c: Cache, url: string): Cache {
    match Lookup(c.entries, url)
    case None => c
    case Some(item) => c.(entries := MoveToEnd(c.entries, url, item))
  }

  function Written(command: Command): Item
    requires command.Set? || command.SetNotFound?
  {
    if command.Set? then Item(command.changeVector, Some(command.payload)) else Item(NOT_FOUND_RESPONSE, None)
  }

  function Do(c: Cache, command: Command): Cache {
    match command
    case Get(url) => Touched(c, url)
    case Clear => Cache([], 0, c.maxSize)
    case _ => Put(c, command.url, Written(command))
  }

  // ---------------------------------------------------------------------------------
  // The references: a map that forgets nothing, and the list of uses that evicts nothing

  function Remember(m: map<string, Item>, command: Command): map<string, Item> {
    match command
    case Get(_) => m
    case Clear => map[]
    case _ => m[command.url := Written(command)]
  }

  /** All entries by their last write or hit, oldest first; what can never be stored is absent. */
  function Uses(uses: seq<Entry>, c: Cache, command: Command): seq<Entry> {
    match command
    case Get(url) =>
      (match Lookup(c.entries, url)
       case None => uses
       case Some(item) => MoveToEnd(uses, url, item))
    case Clear => []
    case _ =>
      if Fits(c, Written(command)) then MoveToEnd(uses, command.url, Written(command))
      else Delete(uses, command.url)
  }

  datatype Trace = Trace(cache: Cache, remembered: map<string, Item>, uses: seq<Entry>)

  function Next(t: Trace, command: Command): Trace {
    Trace(Do(t.cache, command), Remember(t.remembered, command), Uses(t.uses, t.cache, command))
  }

  function Run(t: Trace, commands: seq<Command>): Trace
    decreases |commands|
  {
    if commands == [] then t else Run(Next(t, commands[0]), commands[1..])
  }

  function Start(maxSize: nat): Trace {
    Trace(Cache([], 0, maxSize), map[], [])
  }

  ghost predicate Distinct(entries: seq<Entry>) {
    forall i, j | 0 <= i < j < |entries| :: entries[i].url != entries[j].url
  }

  ghost predicate Suffix(entries: seq<Entry>, uses: seq<Entry>) {
    |entries| <= |uses| && entries == uses[|uses| - |entries|..]
  }

  ghost predicate UpToDate(uses: seq<Entry>, remembered: map<string, Item>) {
    forall i | 0 <= i < |uses| :: uses[i].url in remembered && remembered[uses[i].url] == uses[i].item
  }

  ghost predicate Sized(c: Cache) {
    c.totalSize == Weight(c.entries) && c.totalSize <= c.maxSize
  }

  ghost predicate Inv(t: Trace) {
    Sized(t.cache) && Distinct(t.uses) && Suffix(t.cache.entries, t.uses) && UpToDate(t.uses, t.remembered)
  }

  // ---------------------------------------------------------------------------------
  // Lists of entries

  lemma {:induction false} WeightAppends(a: seq<Entry>, b: seq<Entry>)
    ensures Weight(a + b) == Weight(a) + Weight(b)
  {
    if a == [] {
      assert a + b == b;
    } else {
      WeightAppends(a[1..], b);
      assert (a + b)[1..] == a[1..] + b;
    }
  }

  lemma {:induction false} LookupIsMembership(entries: seq<Entry>, url: string)
    ensures Lookup(entries, url).None? ==> forall i | 0 <= i < |entries| :: entries[i].url != url
    ensures Lookup(entries, url).Some? ==> Entry(url, Lookup(entries, url).value) in entries
  {
    if entries != [] && entries[0].url != url {
      LookupIsMembership(entries[1..], url);
      assert forall i | 0 < i < |entries| :: entries[i] == entries[1..][i - 1];
    }
  }

  lemma {:induction false} DeleteMissing(entries: seq<Entry>, url: string)
    requires forall i | 0 <= i < |entries| :: entries[i].url != url
    ensures Delete(entries, url) == entries && Lookup(entries, url) == None
  {
    if entries != [] {
      DeleteMissing(entries[1..], url);
    }
  }

  lemma {:induction false} DeleteWeighs(entries: seq<Entry>, url: string)
    requires Lookup(entries, url).Some?
    ensures Weight(Delete(entries, url)) + Weigh(Lookup(entries, url).value) == Weight(entries)
  {
    if entries[0].url != url {
      DeleteWeighs(entries[1..], url);
      assert ([entries[0]] + Delete(entries[1..], url))[1..] == Delete(entries[1..], url);
    }
  }

  lemma {:induction false} DeleteKeeps(entries: seq<Entry>, url: string)
    requires Distinct(entries)
    ensures Distinct(Delete(entries, url)) && |Delete(entries, url)| <= |entries|
    ensures forall i | 0 <= i < |Delete(entries, url)| ::
      Delete(entries, url)[i] in entries && Delete(entries, url)[i].url != url
  {
    if entries != [] {
      DeleteKeeps(entries[1..], url);
      var rest := Delete(entries[1..], url);
      forall i | 0 <= i < |rest| ensures rest[i].url != entries[0].url && rest[i] in entries {
        var j :| 0 <= j < |entries[1..]| && entries[1..][j] == rest[i];
      }
    }
  }

  /** Deleting commutes with dropping the older part. */
  lemma {:induction false} DeleteInSuffix(older: seq<Entry>, entries: seq<Entry>, url: string)
    requires Distinct(older + entries)
    ensures Suffix(Delete(entries, url), Delete(older + entries, url))
  {
    var all := older + entries;
    if older == [] {
      assert all == entries;
    } else {
      assert all[1..] == older[1..] + entries;
      if all[0].url == url {
        assert forall i | 0 <= i < |entries| :: entries[i] == all[|older| + i];
        DeleteMissing(entries, url);
      } else {
        DeleteInSuffix(older[1..], entries, url);
      }
    }
  }

  lemma {:induction false} SuffixSplits(entries: seq<Entry>, uses: seq<Entry>) returns (older: seq<Entry>)
    requires Suffix(entries, uses)
    ensures uses == older + entries
  {
    older := uses[..|uses| - |entries|];
  }

  lemma {:induction false} SuffixGrows(entries: seq<Entry>, uses: seq<Entry>, last: Entry)
    requires Suffix(entries, uses)
    ensures Suffix(entries + [last], uses + [last])
  {
    var older := SuffixSplits(entries, uses);
    assert uses + [last] == older + (entries + [last]);
  }

  lemma {:induction false} SuffixOfSuffix(a: seq<Entry>, b: seq<Entry>, c: seq<Entry>)
    requires Suffix(a, b) && Suffix(b, c)
    ensures Suffix(a, c)
  {
  }

  // ---------------------------------------------------------------------------------
  // Eviction

  /** The list, and the lists without up to count - 1 of its oldest entries, are all too heavy. */
  ghost predicate AllHeavier(entries: seq<Entry>, count: int, limit: nat)
    decreases |entries|
  {
    count <= 0 || (entries != [] && Weight(entries) > limit && AllHeavier(entries[1..], count - 1, limit))
  }

  /** Dropping the i oldest entries does not bring the list within the limit. */
  predicate TooHeavyFrom(entries: seq<Entry>, i: nat, limit: nat) {
    i <= |entries| && Weight(entries[i..]) > limit
  }

  lemma {:induction false} AllHeavierAt(entries: seq<Entry>, count: int, limit: nat, i: nat)
    requires AllHeavier(entries, count, limit) && i < count
    ensures TooHeavyFrom(entries, i, limit)
    decreases i
  {
    if i == 0 {
      assert entries[0..] == entries;
    } else {
      AllHeavierAt(entries[1..], count - 1, limit, i - 1);
      assert entries[i..] == entries[1..][i - 1..];
    }
  }

  lemma {:induction false} EvictKeepsSuffix(c: Cache)
    requires c.totalSize == Weight(c.entries)
    ensures Sized(Evict(c)) && Evict(c).maxSize == c.maxSize && Suffix(Evict(c).entries, c.entries)
    decreases |c.entries|
  {
    if c.totalSize > c.maxSize && c.entries != [] {
      var rest := Cache(c.entries[1..], c.totalSize - Weigh(c.entries[0].item), c.maxSize);
      EvictKeepsSuffix(rest);
      SuffixOfSuffix(Evict(rest).entries, rest.entries, c.entries);
    }
  }

  lemma {:induction false} HeavierByOne(entries: seq<Entry>, kept: nat, limit: nat)
    requires entries != [] && Weight(entries) > limit
    requires AllHeavier(entries[1..], |entries[1..]| - kept, limit)
    ensures AllHeavier(entries, |entries| - kept, limit)
  {
    assert |entries| - kept - 1 == |entries[1..]| - kept;
  }

  /** What eviction keeps is the longest part that fits: every longer one is too heavy. */
  lemma {:induction false} EvictedOnlyIfTooHeavy(c: Cache)
    requires c.totalSize == Weight(c.entries)
    ensures AllHeavier(c.entries, |c.entries| - |Evict(c).entries|, c.maxSize)
    decreases |c.entries|
  {
    var kept := Evict(c);
    if c.totalSize > c.maxSize && c.entries != [] {
      var rest := Cache(c.entries[1..], c.totalSize - Weigh(c.entries[0].item), c.maxSize);
      assert kept == Evict(rest);
      EvictedOnlyIfTooHeavy(rest);
      HeavierByOne(c.entries, |kept.entries|, c.maxSize);
    } else {
      assert kept == c;
    }
  }

  lemma {:induction false} WithoutIsSized(c: Cache, url: string)
    requires Sized(c)
    ensures Sized(Without(c, url)) && Without(c, url).entries == Delete(c.entries, url)
  {
    LookupIsMembership(c.entries, url);
    if Lookup(c.entries, url).None? {
      DeleteMissing(c.entries, url);
    } else {
      DeleteWeighs(c.entries, url);
    }
  }

  lemma {:induction false} LastIsLightEnough(all: seq<Entry>, count: int, limit: nat)
    requires all != [] && Weigh(all[|all| - 1].item) <= limit
    requires AllHeavier(all, count, limit)
    ensures count < |all|
    decreases |all|
  {
    if count > 0 {
      assert Weight(all) == Weigh(all[0].item) + Weight(all[1..]);
      if |all| > 1 {
        LastIsLightEnough(all[1..], count - 1, limit);
      }
    }
  }

  lemma {:induction false} EvictKeepsLast(c: Cache)
    requires c.entries != [] && Evict(c).entries != []
    ensures Evict(c).entries[|Evict(c).entries| - 1] == c.entries[|c.entries| - 1]
    decreases |c.entries|
  {
    if c.totalSize > c.maxSize {
      EvictKeepsLast(Cache(c.entries[1..], c.totalSize - Weigh(c.entries[0].item), c.maxSize));
    }
  }

  lemma {:induction false} EvictionIsTight(full: Cache)
    requires full.totalSize == Weight(full.entries)
    requires full.entries != [] && Weigh(full.entries[|full.entries| - 1].item) <= full.maxSize
    ensures Evict(full).entries != []
    ensures Evict(full).entries[|Evict(full).entries| - 1] == full.entries[|full.entries| - 1]
    ensures AllHeavier(full.entries, |full.entries| - |Evict(full).entries|, full.maxSize)
  {
    EvictedOnlyIfTooHeavy(full);
    LastIsLightEnough(full.entries, |full.entries| - |Evict(full).entries|, full.maxSize);
    EvictKeepsLast(full);
  }

  lemma {:induction false} MoveWeighs(entries: seq<Entry>, url: string, item: Item)
    ensures Weight(MoveToEnd(entries, url, item)) == Weight(Delete(entries, url)) + Weigh(item)
  {
    WeightAppends(Delete(entries, url), [Entry(url, item)]);
    assert Weight([Entry(url, item)]) == Weigh(item);
  }

  lemma {:induction false} PutEvicts(c: Cache, url: string, item: Item) returns (full: Cache)
    requires Sized(c) && Fits(c, item)
    ensures full == Cache(MoveToEnd(c.entries, url, item), Weight(MoveToEnd(c.entries, url, item)), c.maxSize)
    ensures Put(c, url, item) == Evict(full)
  {
    WithoutIsSized(c, url);
    MoveWeighs(c.entries, url, item);
    full := Cache(MoveToEnd(c.entries, url, item), Weight(MoveToEnd(c.entries, url, item)), c.maxSize);
  }

  /** Storing an item that fits keeps it and exactly the longest run of most recently used
      entries that fits beside it. */
  lemma {:induction false} PutKeepsLongestSuffix(c: Cache, url: string, item: Item)
    requires Sized(c) && Fits(c, item)
    ensures Sized(Put(c, url, item)) && Suffix(Put(c, url, item).entries, MoveToEnd(c.entries, url, item))
    ensures Put(c, url, item).entries != []
    ensures Put(c, url, item).entries[|Put(c, url, item).entries| - 1] == Entry(url, item)
    ensures forall i: nat | i < |MoveToEnd(c.entries, url, item)| - |Put(c, url, item).entries| ::
              TooHeavyFrom(MoveToEnd(c.entries, url, item), i, c.maxSize)
  {
    var full := PutEvicts(c, url, item);
    EvictKeepsSuffix(full);
    EvictionIsTight(full);
    forall i: nat | i < |full.entries| - |Evict(full).entries| ensures TooHeavyFrom(full.entries, i, full.maxSize) {
      AllHeavierAt(full.entries, |full.entries| - |Evict(full).entries|, full.maxSize, i);
    }
  }

  /** An item heavier than the whole cache only pushes out what was stored under its own key. */
  lemma {:induction false} OversizePutOnlyDeletes(c: Cache, url: string, item: Item)
    requires Sized(c) && !Fits(c, item) && Distinct(c.entries)
    ensures Put(c, url, item).entries == Delete(c.entries, url) && Sized(Put(c, url, item))
    ensures Lookup(Put(c, url, item).entries, url) == None
  {
    WithoutIsSized(c, url);
    DeleteKeeps(c.entries, url);
    DeleteMissing(Delete(c.entries, url), url);
  }

  // ---------------------------------------------------------------------------------
  // Runs

  lemma {:induction false} UsesStayGood(uses: seq<Entry>, remembered: map<string, Item>, url: string, item: Item)
    requires Distinct(uses) && UpToDate(uses, remembered)
    ensures var grown := MoveToEnd(uses, url, item);
      Distinct(grown) && UpToDate(grown, remembered[url := item])
    ensures Distinct(Delete(uses, url)) && UpToDate(Delete(uses, url), remembered[url := item])
  {
    DeleteKeeps(uses, url);
    var rest := Delete(uses, url);
    forall i | 0 <= i < |rest| ensures rest[i].url in remembered && remembered[rest[i].url] == rest[i].item {
      var j :| 0 <= j < |uses| && uses[j] == rest[i];
    }
  }

  lemma {:induction false} DistinctSuffix(entries: seq<Entry>, uses: seq<Entry>)
    requires Suffix(entries, uses) && Distinct(uses)
    ensures Distinct(entries)
  {
  }

  lemma {:induction false} WriteKeepsInv(t: Trace, command: Command)
    requires Inv(t) && (command.Set? || command.SetNotFound?)
    ensures Inv(Next(t, command))
  {
    var url, item := command.url, Written(command);
    var older := SuffixSplits(t.cache.entries, t.uses);
    UsesStayGood(t.uses, t.remembered, url, item);
    DeleteInSuffix(older, t.cache.entries, url);
    if Fits(t.cache, item) {
      PutKeepsLongestSuffix(t.cache, url, item);
      SuffixGrows(Delete(t.cache.entries, url), Delete(t.uses, url), Entry(url, item));
      SuffixOfSuffix(Put(t.cache, url, item).entries, MoveToEnd(t.cache.entries, url, item),
                     MoveToEnd(t.uses, url, item));
    } else {
      DistinctSuffix(t.cache.entries, t.uses);
      OversizePutOnlyDeletes(t.cache, url, item);
    }
  }

  lemma {:induction false} GetKeepsInv(t: Trace, url: string)
    requires Inv(t)
    ensures Inv(Next(t, Get(url)))
  {
    var entries := t.cache.entries;
    var older := SuffixSplits(entries, t.uses);
    LookupIsMembership(entries, url);
    match Lookup(entries, url)
    case None =>
    case Some(item) =>
      DeleteWeighs(entries, url);
      WeightAppends(Delete(entries, url), [Entry(url, item)]);
      DeleteInSuffix(older, entries, url);
      SuffixGrows(Delete(entries, url), Delete(t.uses, url), Entry(url, item));
      assert Entry(url, item) in t.uses;
      assert t.remembered[url := item] == t.remembered;
      UsesStayGood(t.uses, t.remembered, url, item);
  }

  /** In every run the total is the sum of the weights and within the budget, the stored entries
      are the most recently used ones in order of use, and each holds the last value written. */
  lemma {:induction false} RunKeepsInv(t: Trace, commands: seq<Command>)
    requires Inv(t)
    ensures Inv(Run(t, commands))
    decreases |commands|
  {
    if commands != [] {
      if commands[0].Get? {
        GetKeepsInv(t, commands[0].url);
      } else if !commands[0].Clear? {
        WriteKeepsInv(t, commands[0]);
      }
      RunKeepsInv(Next(t, commands[0]), commands[1..]);
    }
  }

  /** A hit returns what a map that never evicts would return. */
  lemma {:induction false} HitsAreCurrent(maxSize: nat, commands: seq<Command>, url: string)
    ensures var t := Run(Start(maxSize), commands);
      var hit := Lookup(t.cache.entries, url);
      hit.Some? ==> url in t.remembered && t.remembered[url] == hit.value
  {
    RunKeepsInv(Start(maxSize), commands);
    var t := Run(Start(maxSize), commands);
    LookupIsMembership(t.cache.entries, url);
    var older := SuffixSplits(t.cache.entries, t.uses);
    if Lookup(t.cache.entries, url).Some? {
      assert Entry(url, Lookup(t.cache.entries, url).value) in t.uses;
    }
  }

  /** The payloads of the entries, one behind the other. */
  function Payloads(entries: seq<Entry>): string {
    if entries == [] then ""
    else
      (match entries[0].item.payload
       case None => ""
       case Some(payload) => payload)
      + Payloads(entries[1..])
  }

  lemma {:induction false} WeightOfPayloads(entries: seq<Entry>)
    ensures Weight(entries) == |Payloads(entries)| + 20 * |entries|
  {
    if entries != [] {
      WeightOfPayloads(entries[1..]);
    }
  }

  /** In every run the stored payloads, with an overhead of twenty for each entry, stay within the
      size the cache was made with. */
  lemma {:induction false} PayloadsStayWithinSize(maxSize: nat, commands: seq<Command>)
    ensures var c := Run(Start(maxSize), commands).cache;
      c.totalSize == |Payloads(c.entries)| + 20 * |c.entries| <= maxSize
  {
    RunKeepsInv(Start(maxSize), commands);
    SizeStays(Start(maxSize), commands);
    WeightOfPayloads(Run(Start(maxSize), commands).cache.entries);
  }

  lemma {:induction false} EvictKeepsSize(c: Cache)
    ensures Evict(c).maxSize == c.maxSize
    decreases |c.entries|
  {
    if c.totalSize > c.maxSize && c.entries != [] {
      EvictKeepsSize(Cache(c.entries[1..], c.totalSize - Weigh(c.entries[0].item), c.maxSize));
    }
  }

  lemma {:induction false} SizeStays(t: Trace, commands: seq<Command>)
    ensures Run(t, commands).cache.maxSize == t.cache.maxSize
    decreases |commands|
  {
    if commands != [] {
      var c, command := t.cache, commands[0];
      if command.Set? || command.SetNotFound? {
        var without, item := Without(c, command.url), Written(command);
        EvictKeepsSize(Cache(without.entries + [Entry(command.url, item)], without.totalSize + Weigh(item), c.maxSize));
      }
      SizeStays(Next(t, command), commands[1..]);
    }
  }

  lemma {:induction false} OneCommandMore(t: Trace, commands: seq<Command>, command: Command)
    ensures Run(t, commands + [command]) == Next(Run(t, commands), command)
    decreases |commands|
  {
    var all := commands + [command];
    if commands == [] {
      assert all[0] == command && all[1..] == [];
    } else {
      assert all[0] == commands[0] && all[1..] == commands[1..] + [command];
      OneCommandMore(Next(t, commands[0]), commands[1..], command);
    }
  }

  /** What was stored is found right away, unless it is too large for the whole cache: then nothing
      is found under its address. */
  lemma {:induction false} StoredIsFound(maxSize: nat, commands: seq<Command>, url: string, changeVector: string,
                                         payload: string)
    ensures Lookup(Run(Start(maxSize), commands + [Set(url, changeVector, payload)]).cache.entries, url)
         == if |payload| + 20 <= maxSize then Some(Item(changeVector, Some(payload))) else None
    ensures Lookup(Run(Start(maxSize), commands + [SetNotFound(url)]).cache.entries, url)
         == if 20 <= maxSize then Some(Item("404 Response", None)) else None
  {
    RunKeepsInv(Start(maxSize), commands);
    SizeStays(Start(maxSize), commands);
    OneCommandMore(Start(maxSize), commands, Set(url, changeVector, payload));
    OneCommandMore(Start(maxSize), commands, SetNotFound(url));
    PutIsFound(Run(Start(maxSize), commands), Set(url, changeVector, payload));
    PutIsFound(Run(Start(maxSize), commands), SetNotFound(url));
  }

  lemma {:induction false} PutIsFound(t: Trace, command: Command)
    requires Inv(t) && (command.Set? || command.SetNotFound?)
    ensures Lookup(Do(t.cache, command).entries, command.url)
         == if Fits(t.cache, Written(command)) then Some(Written(command)) else None
  {
    var c, url, item := t.cache, command.url, Written(command);
    DistinctSuffix(c.entries, t.uses);
    if Fits(c, item) {
      PutKeepsLongestSuffix(c, url, item);
      WriteKeepsInv(t, command);
      var after := Next(t, command);
      DistinctSuffix(after.cache.entries, after.uses);
      LookupIsMembership(after.cache.entries, url);
    } else {
      OversizePutOnlyDeletes(c, url, item);
    }
  }

  // ---------------------------------------------------------------------------------
  // The cache object

  class HttpCache {
    var items: seq<Entry>
    var totalSize: int
    const maxSize: nat

    ghost function Value(): Cache
      reads this
    {
      Cache(items, totalSize, maxSize)
    }

    constructor (maxSize: nat)
      ensures Value() == Start(maxSize).cache
    {
      items := [];
      totalSize := 0;
      this.maxSize := maxSize;
    }

    method ClearAll()
      modifies this
      ensures Value() == Do(old(Value()), Clear)
    {
      items := [];
      totalSize := 0;
    }

    method Store(url: string, changeVector: string, result: string)
      modifies this
      ensures Value() == Do(old(Value()), Set(url, changeVector, result))
    {
      PutItem(url, Item(changeVector, Some(result)));
    }

    method StoreNotFound(url: string)
      modifies this
      ensures Value() == Do(old(Value()), SetNotFound(url))
    {
      PutItem(url, Item(NOT_FOUND_RESPONSE, None));
    }

    method Fetch(url: string) returns (item: Option<Item>)
      modifies this
      ensures item == Lookup(old(items), url)
      ensures Value() == Do(old(Value()), Get(url))
    {
      item := Lookup(items, url);
      if item.Some? {
        items := Delete(items, url);
        items := items + [Entry(url, item.value)];
      }
    }

    method PutItem(url: string, item: Item)
      modifies this
      ensures Value() == Put(old(Value()), url, item)
    {
      var existing := Lookup(items, url);
      if existing.Some? {
        items := Delete(items, url);
        totalSize := totalSize - Weigh(existing.value);
      }
      if Weigh(item) > maxSize {
        return;
      }
      items := items + [Entry(url, item)];
      totalSize := totalSize + Weigh(item);
      while totalSize > maxSize && |items| > 0
        invariant Evict(Value()) == Put(old(Value()), url, item)
        decreases |items|
      {
        var oldest := items[0];
        items := items[1..];
        totalSize := totalSize - Weigh(oldest.item);
      }
    }
  }
}
