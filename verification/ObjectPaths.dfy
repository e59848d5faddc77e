/** The text of a path: how it is built from the keys on the way to a property, and when it can be
    taken apart again into the keys it was made of. */
module ObjectPaths {
  import opened Decimals
  import opened ObjectMapping
  import opened Texts

  type Address = seq<string>

  /** The path that the writer makes of an address, walking the tree. */
  function PathOf(v: Value, prefix: string, p: Address): string
    decreases |p|
  {
    if p == [] || !HasOwn(v, p[0]) then prefix
    else PathOf(Own(v, p[0]), if v.Arr? then ItemPath(prefix, ValueOf(p[0])) else Child(prefix, p[0]), p[1..])
  }

  /** The address leads somewhere. */
  predicate Leads(v: Value, p: Address)
    decreases |p|
  {
    p == [] || (HasOwn(v, p[0]) && Leads(Own(v, p[0]), p[1..]))
  }

  /** Every key with a dot in front of it. */
  function Dotted(p: Address): string {
    if p == [] then "" else "." + p[0] + Dotted(p[1..])
  }

  function Join(p: Address): string
    requires p != []
  {
    p[0] + Dotted(p[1..])
  }

  /** Under a prefix there is no difference between keys and indices. */
  lemma {:induction false} PathUnderPrefix(v: Value, prefix: string, p: Address)
    requires prefix != "" && Leads(v, p)
    ensures PathOf(v, prefix, p) == prefix + Dotted(p)
    decreases |p|
  {
    if p == [] {
      assert prefix + "" == prefix;
    } else {
      var longer := prefix + "." + p[0];
      PathUnderPrefix(Own(v, p[0]), longer, p[1..]);
      assert longer + Dotted(p[1..]) == prefix + ("." + p[0] + Dotted(p[1..]));
    }
  }

  /** At the root an empty key leaves no trace, unless an array follows. */
  lemma {:induction false} PathFromRoot(v: Value, p: Address)
    requires v.Obj? && p != [] && Leads(v, p)
    ensures p[0] != "" ==> PathOf(v, "", p) == Join(p)
    ensures p[0] == "" && |p| == 1 ==> PathOf(v, "", p) == ""
    ensures p[0] == "" && |p| > 1 && Own(v, "").Arr? ==> PathOf(v, "", p) == Join(p)
    ensures p[0] == "" && |p| > 1 && Own(v, "").Obj? ==> PathOf(v, "", p) == PathOf(Own(v, ""), "", p[1..])
  {
    var child, rest := Own(v, p[0]), p[1..];
    if p[0] != "" {
      PathUnderPrefix(child, p[0], rest);
    } else if |p| > 1 && child.Arr? {
      var first := "." + rest[0];
      assert ItemPath("", ValueOf(rest[0])) == first by { assert "" + "." == "."; }
      PathUnderPrefix(Own(child, rest[0]), first, rest[1..]);
      assert first + Dotted(rest[1..]) == "" + ("." + rest[0] + Dotted(rest[1..]));
    }
  }

  // ---------------------------------------------------------------------------------
  // Joined paths can be taken apart again

  predicate Occurs(s: string, pattern: string) {
    pattern <= s || (s != "" && Occurs(s[1..], pattern))
  }

  /** A key that survives being part of a path. */
  predicate Clean(key: string) {
    key != "" && FreeOf(key, SEPARATORS)
    && !Occurs(key, "[") && !Occurs(key, "$MAP") && !Occurs(key, "$SET")
  }

  /** A key is clean exactly when it is not empty and has no dot, exclamation mark or bracket that
      opens, and neither of the two other marks. */
  lemma {:induction false} CleanExactlyWhen(key: string)
    ensures Clean(key)
            <==> key != "" && '.' !in key && '!' !in key && '[' !in key
                 && forall i | 0 <= i < |key| :: !("$MAP" <= key[i..]) && !("$SET" <= key[i..])
  {
    OccursExactlyWhen(key, "[");
    OccursExactlyWhen(key, "$MAP");
    OccursExactlyWhen(key, "$SET");
    assert forall i | 0 <= i < |key| :: "[" <= key[i..] <==> key[i] == '[';
    assert FreeOf(key, SEPARATORS) <==> '.' !in key && '!' !in key;
  }

  lemma {:induction false} OccursExactlyWhen(s: string, pattern: string)
    requires pattern != ""
    ensures Occurs(s, pattern) <==> exists i :: 0 <= i < |s| && pattern <= s[i..]
  {
    if s != "" {
      OccursExactlyWhen(s[1..], pattern);
      assert s[0..] == s && forall i | 0 < i < |s| :: s[i..] == s[1..][i - 1..];
      if i :| 0 <= i < |s[1..]| && pattern <= s[1..][i..] {
        assert s[i + 1..] == s[1..][i..];
      }
      if i :| 0 <= i < |s| && pattern <= s[i..] {
        assert i > 0 ==> pattern <= s[1..][i - 1..];
      }
    }
  }

  predicate AllClean(segments: seq<string>) {
    forall i | 0 <= i < |segments| :: Clean(segments[i])
  }

  /** The path of a property that lies under the prefix, as the writer builds it. */
  function Joined(prefix: string, segments: seq<string>): string
    decreases |segments|
  {
    if segments == [] then prefix else Joined(Child(prefix, segments[0]), segments[1..])
  }

  lemma {:induction false} MarkIsIdle(s: string, pattern: string)
    requires pattern != "" && !Occurs(s, pattern)
    ensures Mark(s, pattern) == s
  {
    if s != "" {
      MarkIsIdle(s[1..], pattern);
    }
  }

  lemma {:induction false} StartsInFirstPart(a: string, b: string, pattern: string)
    requires '.' !in pattern
    ensures pattern <= a + "." + b ==> pattern <= a
  {
    var s := a + "." + b;
    assert s[|a|] == '.';
    if |a| < |pattern| <= |s| {
      assert pattern[|a|] in pattern;
      assert s[..|pattern|][|a|] == '.';
    }
  }

  lemma {:induction false} OccursInOnePart(a: string, b: string, pattern: string)
    requires pattern != "" && '.' !in pattern
    requires !Occurs(a, pattern) && !Occurs(b, pattern)
    ensures !Occurs(a + "." + b, pattern)
  {
    var s := a + "." + b;
    StartsInFirstPart(a, b, pattern);
    assert !(pattern <= a);
    if a == "" {
      assert s[1..] == b;
    } else {
      OccursInOnePart(a[1..], b, pattern);
      assert s[1..] == a[1..] + "." + b;
    }
  }

  /** What the prefix must be like for the segments to be found again. */
  predicate Plain(prefix: string) {
    !Occurs(prefix, "[") && !Occurs(prefix, "$MAP") && !Occurs(prefix, "$SET")
  }

  lemma {:induction false} ChildSplits(prefix: string, before: seq<string>, key: string)
    requires Clean(key) && Plain(prefix)
    requires if prefix == "" then before == [] else Split(prefix, SEPARATORS) == before
    ensures Child(prefix, key) != "" && Plain(Child(prefix, key))
    ensures Split(Child(prefix, key), SEPARATORS) == before + [key]
  {
    SplitOne(key, SEPARATORS);
    if prefix != "" {
      SplitTwo(prefix, '.', key, SEPARATORS);
      OccursInOnePart(prefix, key, "[");
      OccursInOnePart(prefix, key, "$MAP");
      OccursInOnePart(prefix, key, "$SET");
    }
  }

  lemma {:induction false} JoinedSplits(prefix: string, before: seq<string>, segments: seq<string>)
    requires AllClean(segments) && Plain(prefix)
    requires if prefix == "" then before == [] else Split(prefix, SEPARATORS) == before
    ensures Plain(Joined(prefix, segments))
    ensures before + segments != [] ==> Split(Joined(prefix, segments), SEPARATORS) == before + segments
    decreases |segments|
  {
    if segments == [] {
      assert before + segments == before;
    } else {
      var key, rest := segments[0], segments[1..];
      ChildSplits(prefix, before, key);
      assert AllClean(rest);
      JoinedSplits(Child(prefix, key), before + [key], rest);
      KeyThenRest(before, segments);
    }
  }

  lemma {:induction false} KeyThenRest(before: Address, segments: Address)
    requires segments != []
    ensures before + [segments[0]] + segments[1..] == before + segments
  {
  }

  /** Reading a joined path gives back the segments it was joined from. */
  lemma {:induction false} SegmentsUndoJoined(segments: seq<string>)
    requires segments != [] && AllClean(segments)
    ensures Segments(Joined("", segments)) == segments
  {
    var path := Joined("", segments);
    JoinedSplits("", [], segments);
    assert [] + segments == segments;
    MarkIsIdle(path, "[");
    MarkIsIdle(path, "$MAP");
    MarkIsIdle(path, "$SET");
  }

  lemma {:induction false} JoinedIsInjective(p: seq<string>, q: seq<string>)
    requires p != [] && q != [] && AllClean(p) && AllClean(q)
    requires Joined("", p) == Joined("", q)
    ensures p == q
  {
    SegmentsUndoJoined(p);
    SegmentsUndoJoined(q);
  }

  /** An address of clean keys has the joined text as its path. */
  lemma {:induction false} JoinedIsPath(v: Value, prefix: string, p: Address)
    requires Leads(v, p) && AllClean(p) && (prefix != "" || v.Obj?)
    ensures PathOf(v, prefix, p) == Joined(prefix, p)
    decreases |p|
  {
    if p != [] {
      assert Clean(p[0]);
      JoinedIsPath(Own(v, p[0]), Child(prefix, p[0]), p[1..]);
    }
  }

  /** Clean keys are found again. */
  lemma {:induction false} CleanIsFaithful(v: Value, p: Address)
    requires v.Obj? && p != [] && Leads(v, p) && AllClean(p)
    ensures Segments(PathOf(v, "", p)) == p
  {
    JoinedIsPath(v, "", p);
    SegmentsUndoJoined(p);
  }

  // ---------------------------------------------------------------------------------
  // What marking and splitting do to a text

  function Unmark(s: string): string {
    if s == "" then "" else (if s[0] == '!' then "" else [s[0]]) + Unmark(s[1..])
  }

  /** The text with every mark read as a dot. */
  function MarksAsDots(s: string): string {
    if s == "" then "" else [if s[0] == '!' then '.' else s[0]] + MarksAsDots(s[1..])
  }

  predicate StartsMark(c: char) {
    c == '[' || c == '$'
  }

  /** What stands behind an exclamation mark after so many of the three replacements. */
  predicate Follows(s: string, stage: nat) {
    if stage == 0 then false
    else if stage == 1 then "[" <= s
    else if stage == 2 then "[" <= s || "$MAP" <= s
    else s != "" && StartsMark(s[0])
  }

  predicate MarksFollowed(s: string, stage: nat) {
    s == "" || ((s[0] == '!' ==> Follows(s[1..], stage)) && MarksFollowed(s[1..], stage))
  }

  lemma {:induction false} UnmarkAppends(a: string, b: string)
    ensures Unmark(a + b) == Unmark(a) + Unmark(b)
  {
    if a == "" {
      assert a + b == b;
    } else {
      assert (a + b)[1..] == a[1..] + b;
      UnmarkAppends(a[1..], b);
    }
  }

  lemma {:induction false} UnmarkIdle(s: string)
    requires FreeOf(s, {'!'})
    ensures Unmark(s) == s && MarksAsDots(s) == s
  {
    if s != "" {
      UnmarkIdle(s[1..]);
    }
  }

  lemma {:induction false} UnmarkShortens(s: string)
    ensures |Unmark(s)| <= |s| == |MarksAsDots(s)|
    ensures |Unmark(s)| == |s| ==> Unmark(s) == s
  {
    if s != "" {
      UnmarkShortens(s[1..]);
    }
  }

  function Pattern(stage: nat): (pattern: string)
    requires stage < 3
    ensures pattern != "" && StartsMark(pattern[0]) && FreeOf(pattern, {'!'})
  {
    if stage == 0 then "[" else if stage == 1 then "$MAP" else "$SET"
  }

  lemma {:induction false} MarksFollowedSuffix(s: string, k: nat, stage: nat)
    requires k <= |s| && MarksFollowed(s, stage)
    ensures MarksFollowed(s[k..], stage)
  {
    if k > 0 {
      MarksFollowedSuffix(s[1..], k - 1, stage);
      assert s[1..][k - 1..] == s[k..];
    }
  }

  lemma {:induction false} MarksFollowedPrefix(a: string, s: string, stage: nat)
    requires FreeOf(a, {'!'}) && MarksFollowed(s, stage)
    ensures MarksFollowed(a + s, stage)
  {
    if a == "" {
      assert a + s == s;
    } else {
      assert (a + s)[1..] == a[1..] + s;
      MarksFollowedPrefix(a[1..], s, stage);
    }
  }

  lemma {:induction false} MarkedPattern(stage: nat, rest: string)
    requires stage < 3 && MarksFollowed(rest, stage + 1)
    ensures MarksFollowed("!" + Pattern(stage) + rest, stage + 1)
    ensures Unmark("!" + Pattern(stage) + rest) == Pattern(stage) + Unmark(rest)
  {
    var pattern := Pattern(stage);
    var s := "!" + pattern + rest;
    assert s[1..] == pattern + rest;
    assert pattern <= pattern + rest;
    MarksFollowedPrefix(pattern, rest, stage + 1);
    UnmarkAppends(pattern, rest);
    UnmarkIdle(pattern);
  }

  /** One replacement only adds marks, each in front of its pattern. */
  lemma {:induction false} MarkOnce(s: string, stage: nat)
    requires stage < 3 && MarksFollowed(s, stage)
    ensures MarksFollowed(Mark(s, Pattern(stage)), stage + 1)
    ensures Unmark(Mark(s, Pattern(stage))) == Unmark(s)
  {
    var pattern := Pattern(stage);
    if s == "" {
    } else if pattern <= s {
      var rest := s[|pattern|..];
      MarksFollowedSuffix(s, |pattern|, stage);
      MarkOnce(rest, stage);
      MarkedPattern(stage, Mark(rest, pattern));
      assert s == pattern + rest;
      UnmarkAppends(pattern, rest);
      UnmarkIdle(pattern);
    } else {
      var rest := Mark(s[1..], pattern);
      MarkOnce(s[1..], stage);
      assert Mark(s, pattern) == [s[0]] + rest && ([s[0]] + rest)[1..] == rest;
      if s[0] == '!' {
        assert !(pattern <= s[1..]) && rest[0] == s[1];
      }
    }
  }

  /** Marking adds exclamation marks and nothing else, each before a bracket or dollar sign. */
  lemma {:induction false} MarkedText(path: string)
    requires FreeOf(path, {'!'})
    ensures Unmark(Marked(path)) == path && MarksFollowed(Marked(path), 3)
  {
    NoMarks(path);
    MarkOnce(path, 0);
    MarkOnce(Mark(path, "["), 1);
    MarkOnce(Mark(Mark(path, "["), "$MAP"), 2);
    UnmarkIdle(path);
  }

  lemma {:induction false} NoMarks(s: string)
    requires FreeOf(s, {'!'})
    ensures MarksFollowed(s, 0)
  {
    if s != "" {
      NoMarks(s[1..]);
    }
  }

  lemma {:induction false} DottedGrow(c: char, rest: Address)
    requires rest != []
    ensures Join(Grow(c, rest, SEPARATORS)) == (if c in SEPARATORS then "." else [c]) + Join(rest)
  {
    var pieces := Grow(c, rest, SEPARATORS);
    if c in SEPARATORS {
      assert pieces[1..] == rest;
      assert "" + ("." + rest[0] + Dotted(rest[1..])) == "." + (rest[0] + Dotted(rest[1..]));
    } else {
      assert pieces[1..] == rest[1..];
      assert [c] + rest[0] + Dotted(rest[1..]) == [c] + (rest[0] + Dotted(rest[1..]));
    }
  }

  /** Joining the pieces of a text gives the text, its marks turned into dots. */
  lemma {:induction false} JoinUndoesSplit(s: string)
    ensures Join(Split(s, SEPARATORS)) == MarksAsDots(s)
  {
    if s != "" {
      JoinUndoesSplit(s[1..]);
      DottedGrow(s[0], Split(s[1..], SEPARATORS));
    }
  }
}
