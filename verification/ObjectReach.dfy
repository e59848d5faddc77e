/** What a path can reach: which texts it may turn into something else, and which keys no path
    ever finds, whatever it looks like. */
module ObjectReach {
  import opened Decimals
  import opened ObjectMapping
  import opened ObjectPaths
  import opened Texts

  ghost predicate Undoes(lib: Library) {
    forall t :: lib.parse(Text(lib.print_(t))) == Got(Date(t))
  }

  /** Parsing undoes printing and never yields an object or array; a would-be set is written as
      an array, if at all, and a key that sets the prototype is not written. */
  ghost predicate Honest(lib: Library) {
    && Undoes(lib)
    && (forall x :: lib.parse(x).Got? ==> !lib.parse(x).value.Obj? && !lib.parse(x).value.Arr?)
    && (forall x :: lib.asSet(x).Got? ==> lib.asSet(x).value.Arr?)
    && (forall x :: lib.inherit(x).Got? ==> lib.inherit(x).value.Obj? && PROTO_KEY !in lib.inherit(x).value.fields)
  }

  /** No segment asks for the contents of a collection. */
  predicate OnlyProperties(segments: seq<string>) {
    forall i | 0 <= i < |segments| :: Kind(segments[i]).Property?
  }

  lemma {:induction false} OwnAfterPut(v: Value, field: string, child: Value, other: string)
    requires HasOwn(v, field)
    ensures HasOwn(Put(v, field, child), other) == HasOwn(v, other)
    ensures HasOwn(v, other) ==>
      Own(Put(v, field, child), other) == if other == field then child else Own(v, other)
    ensures HidesLookup(Put(v, field, child)) == HidesLookup(v)
  {
  }

  // ---------------------------------------------------------------------------------
  // Where segments may lead

  /** The segments may lead to the address, through properties and the items of collections. */
  predicate MayReach(segments: seq<string>, p: Address)
    decreases |segments|, 0
  {
    if segments == [] then p == []
    else if p != [] && p[0] == Name(segments[0]) && Kind(segments[0]).Property? then MayReach(segments[1..], p[1..])
    else if Kind(segments[0]).Property? then false
    else
      || (p != [] && p[0] == Name(segments[0]) && MayReachItem(segments[1..], p[1..]))
      || MayReachItem(segments[1..], p)
  }

  predicate MayReachItem(segments: seq<string>, p: Address)
    decreases |segments|, 1
  {
    p != [] && p[0] != "" && AllDigits(p[0]) && MayReach(segments, p[1..])
  }

  /** The property at the address is a text, or cannot be reached any more. */
  predicate StillText(u: Value, p: Address)
    decreases |p|
  {
    if p == [] then u.Text? else !HasOwn(u, p[0]) || StillText(Own(u, p[0]), p[1..])
  }

  /** A text stays one when the type is applied to segments that cannot lead to it. */
  lemma {:induction false} TouchKeepsText(lib: Library, u: Value, p: Address, s: seq<string>, type_: TypeName)
    requires Honest(lib) && StillText(u, p) && !MayReach(s, p) && Touch(lib, u, s, type_).Got?
    ensures StillText(Touch(lib, u, s, type_).value, p)
    decreases |s|, 0
  {
    if s != [] && !Falsy(u) {
      var name, kind, rest := Name(s[0]), Kind(s[0]), s[1..];
      if kind.Property? {
        if HasOwn(u, name) && p != [] {
          var child := Touch(lib, Own(u, name), rest, type_);
          OwnAfterPut(u, name, child.value, p[0]);
          if p[0] == name {
            TouchKeepsText(lib, Own(u, name), p[1..], rest, type_);
          }
        }
      } else if !HasOwn(u, name) {
        EachKeepsText(lib, u, kind, p, rest, type_);
      } else if p != [] {
        var child := TouchEach(lib, Own(u, name), kind, rest, type_);
        OwnAfterPut(u, name, child.value, p[0]);
        if p[0] == name {
          EachKeepsText(lib, Own(u, name), kind, p[1..], rest, type_);
        }
      }
    }
  }

  lemma {:induction false} EachKeepsText(lib: Library, u: Value, kind: Reach, p: Address, s: seq<string>,
                                         type_: TypeName)
    requires Honest(lib) && StillText(u, p) && !MayReachItem(s, p)
    requires !kind.Property? && TouchEach(lib, u, kind, s, type_).Got?
    ensures StillText(TouchEach(lib, u, kind, s, type_).value, p)
    decreases |s|, 1
  {
    var u' := TouchEach(lib, u, kind, s, type_).value;
    if p != [] && HasOwn(u, p[0]) {
      var key := p[0];
      if u.Arr? {
        if s != [] || kind.Items? {
          assert Own(u', key) == Touch(lib, Own(u, key), s, type_).value;
          TouchKeepsText(lib, Own(u, key), p[1..], s, type_);
        }
      } else if s != [] && IsIndex(key, ListLength(lib, u.fields).value) {
        assert Own(u', key) == Touch(lib, Own(u, key), s, type_).value;
        TouchKeepsText(lib, Own(u, key), p[1..], s, type_);
      }
    }
  }

  // ---------------------------------------------------------------------------------
  // The pieces that a path is taken apart into

  /** No mark can start inside the key, since every mark is cut off from what precedes it. */
  predicate PieceKey(key: string) {
    FreeOf(key, SEPARATORS) && (key == "" || Plain(key[1..]))
  }

  /** A key that segments of paths can find: a piece that is no collection mark. */
  predicate Findable(key: string) {
    PieceKey(key) && Kind(key).Property?
  }

  predicate AllFindable(p: Address) {
    forall i | 0 <= i < |p| :: Findable(p[i])
  }

  lemma {:induction false} OccursAt(s: string, k: nat, pattern: string)
    requires k <= |s| && pattern <= s[k..]
    ensures Occurs(s, pattern)
    decreases k
  {
    if k > 0 {
      assert s[1..][k - 1..] == s[k..];
      OccursAt(s[1..], k - 1, pattern);
    }
  }

  /** A piece with a collection mark is nothing but the mark. */
  lemma {:induction false} MarkPieceHasNoName(key: string)
    requires PieceKey(key) && !Kind(key).Property?
    ensures Name(key) == ""
  {
    MarkAtEnd(key, "[]", "[");
    MarkAtEnd(key, "$SET", "$SET");
    MarkAtEnd(key, "$MAP", "$MAP");
  }

  lemma {:induction false} MarkAtEnd(key: string, mark: string, pattern: string)
    requires mark != "" && pattern <= mark && (key == "" || !Occurs(key[1..], pattern))
    ensures EndsWith(key, mark) ==> key == mark
  {
    if EndsWith(key, mark) && |key| > |mark| {
      var k := |key| - |mark| - 1;
      assert key[1..][k..] == mark;
      OccursAt(key[1..], k, pattern);
    }
  }

  lemma {:induction false} DigitsAreFindable(key: string)
    requires AllDigits(key)
    ensures Findable(key)
  {
    if key != "" {
      DigitsArePlain(key[1..]);
      assert IsDigit(key[|key| - 1]);
    }
  }

  lemma {:induction false} DigitsArePlain(s: string)
    requires AllDigits(s)
    ensures Plain(s)
  {
    if s != "" {
      assert IsDigit(s[0]);
      DigitsArePlain(s[1..]);
    }
  }

  /** Everything that pieces may lead to lies under findable keys. */
  lemma {:induction false} ReachedIsFindable(segments: seq<string>, p: Address)
    requires (forall i | 0 <= i < |segments| :: PieceKey(segments[i])) && MayReach(segments, p)
    ensures AllFindable(p)
    decreases |segments|, 0
  {
    if segments != [] {
      var rest := segments[1..];
      if Kind(segments[0]).Property? {
        ReachedIsFindable(rest, p[1..]);
        FindableCons(p);
      } else {
        MarkPieceHasNoName(segments[0]);
        if MayReachItem(rest, p) {
          ReachedItemIsFindable(rest, p);
        } else {
          ReachedItemIsFindable(rest, p[1..]);
          FindableCons(p);
        }
      }
    }
  }

  lemma {:induction false} ReachedItemIsFindable(segments: seq<string>, p: Address)
    requires (forall i | 0 <= i < |segments| :: PieceKey(segments[i])) && MayReachItem(segments, p)
    ensures AllFindable(p)
    decreases |segments|, 1
  {
    DigitsAreFindable(p[0]);
    ReachedIsFindable(segments, p[1..]);
    FindableCons(p);
  }

  lemma {:induction false} FindableCons(p: Address)
    requires p != [] && Findable(p[0]) && AllFindable(p[1..])
    ensures AllFindable(p)
  {
    assert forall i | 0 < i < |p| :: p[i] == p[1..][i - 1];
  }

  /** Segments that only name properties lead to one address. */
  lemma {:induction false} PropertiesReachThemselves(segments: seq<string>, p: Address)
    requires OnlyProperties(segments)
    ensures MayReach(segments, p) <==> segments == p
    decreases |segments|
  {
    if segments != [] && p != [] {
      PropertiesReachThemselves(segments[1..], p[1..]);
      assert segments == [segments[0]] + segments[1..] && p == [p[0]] + p[1..];
    }
  }

  /** An address with a collection mark as a key is not where its own keys lead. */
  lemma {:induction false} MarkedKeysMissThemselves(p: Address)
    requires !OnlyProperties(p)
    ensures !MayReach(p, p)
    decreases |p|
  {
    if Kind(p[0]).Property? {
      assert forall i | 0 <= i < |p[1..]| :: p[1..][i] == p[i + 1];
      MarkedKeysMissThemselves(p[1..]);
    } else {
      assert !IsDigit(p[0][|p[0]| - 1]);
    }
  }

  // ---------------------------------------------------------------------------------
  // Every piece of a path is a piece key

  predicate StartsPattern(s: string, stage: nat) {
    (stage > 0 && Pattern(0) <= s) || (stage > 1 && Pattern(1) <= s) || (stage > 2 && Pattern(2) <= s)
  }

  /** Every pattern of the first stages stands behind an exclamation mark. */
  predicate Cut(s: string, afterMark: bool, stage: nat) {
    s == "" || ((afterMark || !StartsPattern(s, stage)) && Cut(s[1..], s[0] == '!', stage))
  }

  lemma {:induction false} CutSuffix(s: string, afterMark: bool, stage: nat, k: nat)
    requires 0 < k <= |s| && Cut(s, afterMark, stage)
    ensures Cut(s[k..], s[k - 1] == '!', stage)
    decreases k
  {
    if k > 1 {
      CutSuffix(s[1..], s[0] == '!', stage, k - 1);
      assert s[1..][k - 1..] == s[k..];
    }
  }

  lemma {:induction false} CutBehindCalmText(a: string, rest: string, stage: nat)
    requires forall i | 0 <= i < |a| :: a[i] != '!' && !StartsMark(a[i])
    requires Cut(rest, false, stage)
    ensures Cut(a + rest, false, stage)
  {
    if a == "" {
      assert a + rest == rest;
    } else {
      assert (a + rest)[1..] == a[1..] + rest;
      CutBehindCalmText(a[1..], rest, stage);
    }
  }

  lemma {:induction false} CalmInside(stage: nat)
    requires stage < 3
    ensures forall i | 0 < i < |Pattern(stage)| :: Pattern(stage)[i] != '!' && !StartsMark(Pattern(stage)[i])
  {
  }

  lemma {:induction false} MarkingKeepsStart(q: string, s: string, pattern: string)
    requires FreeOf(q, {'!'}) && pattern != "" && q <= Mark(s, pattern)
    ensures q <= s
  {
    if q != "" && s != "" {
      assert q[0] == Mark(s, pattern)[0];
      if !(pattern <= s) {
        var rest := Mark(s[1..], pattern);
        assert Mark(s, pattern)[1..] == rest;
        assert q[1..] <= rest;
        MarkingKeepsStart(q[1..], s[1..], pattern);
      }
    }
  }

  /** A pattern behind its mark. */
  lemma {:induction false} MarkedPatternIsCut(stage: nat, rest: string, afterMark: bool)
    requires stage < 3 && Cut(rest, false, stage + 1)
    ensures Cut("!" + Pattern(stage) + rest, afterMark, stage + 1)
  {
    var pattern := Pattern(stage);
    var out := "!" + pattern + rest;
    CalmInside(stage);
    CutBehindCalmText(pattern[1..], rest, stage + 1);
    assert out[1..] == pattern + rest;
    assert out[1..][1..] == pattern[1..] + rest;
    assert out[1..][0] == pattern[0];
  }

  /** A character at which no mark is put. */
  lemma {:induction false} UnmarkedIsCut(s: string, out: string, afterMark: bool, stage: nat)
    requires stage < 3 && s != "" && Cut(s, afterMark, stage) && !(Pattern(stage) <= s)
    requires out != "" && out[0] == s[0] && Cut(out[1..], s[0] == '!', stage + 1)
    requires forall j: nat | j < 3 && Pattern(j) <= out :: Pattern(j) <= s
    ensures Cut(out, afterMark, stage + 1)
  {
    assert StartsPattern(out, stage + 1) ==> StartsPattern(s, stage);
  }

  lemma {:induction false} MarkCuts(s: string, afterMark: bool, stage: nat)
    requires stage < 3 && Cut(s, afterMark, stage)
    ensures Cut(Mark(s, Pattern(stage)), afterMark, stage + 1)
  {
    var pattern := Pattern(stage);
    if s != "" {
      if pattern <= s {
        CutSuffix(s, afterMark, stage, |pattern|);
        assert s[|pattern| - 1] == pattern[|pattern| - 1];
        MarkCuts(s[|pattern|..], false, stage);
        MarkedPatternIsCut(stage, Mark(s[|pattern|..], pattern), afterMark);
      } else {
        var out := Mark(s, pattern);
        MarkCuts(s[1..], s[0] == '!', stage);
        assert out[1..] == Mark(s[1..], pattern);
        forall j: nat | j < 3 && Pattern(j) <= out ensures Pattern(j) <= s {
          MarkingKeepsStart(Pattern(j), s, pattern);
        }
        UnmarkedIsCut(s, out, afterMark, stage);
      }
    }
  }

  lemma {:induction false} MarkedIsCut(path: string)
    ensures Cut(Marked(path), false, 3)
  {
    NothingCut(path);
    MarkCuts(path, false, 0);
    MarkCuts(Mark(path, "["), false, 1);
    MarkCuts(Mark(Mark(path, "["), "$MAP"), false, 2);
  }

  lemma {:induction false} NothingCut(s: string)
    ensures Cut(s, false, 0) && Cut(s, true, 0)
  {
    if s != "" {
      NothingCut(s[1..]);
    }
  }

  lemma {:induction false} FirstPieceStarts(s: string)
    ensures Split(s, SEPARATORS)[0] <= s
  {
    if s != "" {
      FirstPieceStarts(s[1..]);
    }
  }

  /** The pieces of a cut text are piece keys, and no pattern starts the first one unless a mark
      stands before it. */
  lemma {:induction false} PiecesOfCut(s: string, afterMark: bool)
    requires Cut(s, afterMark, 3)
    ensures var pieces := Split(s, SEPARATORS);
      && (forall i | 0 <= i < |pieces| :: PieceKey(pieces[i]))
      && (!afterMark ==> Plain(pieces[0]))
  {
    if s != "" {
      var rest := Split(s[1..], SEPARATORS);
      PiecesOfCut(s[1..], s[0] == '!');
      if s[0] !in SEPARATORS {
        var first := [s[0]] + rest[0];
        assert first[1..] == rest[0];
        assert FreeOf(rest[0], SEPARATORS);
        FirstPieceStarts(s[1..]);
        assert first <= s;
      }
    }
  }

  lemma {:induction false} SegmentsArePieceKeys(path: string)
    ensures forall i | 0 <= i < |Segments(path)| :: PieceKey(Segments(path)[i])
  {
    MarkedIsCut(path);
    PiecesOfCut(Marked(path), false);
  }

  // ---------------------------------------------------------------------------------
  // Findable keys make paths of properties only

  lemma {:induction false} PlainSuffix(s: string, k: nat, pattern: string)
    requires k <= |s| && !Occurs(s, pattern)
    ensures !Occurs(s[k..], pattern)
    decreases k
  {
    if k > 0 {
      PlainSuffix(s[1..], k - 1, pattern);
      assert s[1..][k - 1..] == s[k..];
    }
  }

  /** In a piece a mark can only be put in front. */
  lemma {:induction false} MarkOfPiece(key: string, pattern: string)
    requires pattern != "" && (key == "" || !Occurs(key[1..], pattern))
    ensures Mark(key, pattern) == if pattern <= key && key != "" then "!" + key else key
  {
    if key != "" {
      if pattern <= key {
        var rest := key[|pattern|..];
        PlainSuffix(key[1..], |pattern| - 1, pattern);
        assert key[1..][|pattern| - 1..] == rest;
        MarkIsIdle(rest, pattern);
        assert key == pattern + rest;
      } else {
        MarkIsIdle(key[1..], pattern);
      }
    }
  }

  lemma {:induction false} MarkBehindMark(s: string, pattern: string)
    requires pattern != "" && pattern[0] != '!'
    ensures Mark("!" + s, pattern) == "!" + Mark(s, pattern)
  {
    assert ("!" + s)[1..] == s;
  }

  lemma {:induction false} MarkedPiece(key: string)
    requires PieceKey(key)
    ensures Marked(key) in {key, "!" + key}
  {
    MarkOfPiece(key, "[");
    MarkOfPiece(key, "$MAP");
    MarkOfPiece(key, "$SET");
    MarkBehindMark(key, "$MAP");
    MarkBehindMark(key, "$SET");
  }

  lemma {:induction false} PieceOfFindable(key: string)
    requires Findable(key)
    ensures OnlyProperties(Segments(key))
  {
    MarkedPiece(key);
    SplitOne(key, SEPARATORS);
    SplitFirst("", '!', key, SEPARATORS);
    assert "" + ['!'] + key == "!" + key;
  }

  lemma {:induction false} Regrouped(first: string, rest: string, b: string)
    ensures first + (rest + "." + b) == first + rest + "." + b
  {
  }

  lemma {:induction false} MarkDistributes(a: string, b: string, pattern: string)
    requires pattern != "" && '.' !in pattern
    ensures Mark(a + "." + b, pattern) == Mark(a, pattern) + "." + Mark(b, pattern)
    decreases |a|
  {
    var s := a + "." + b;
    if a == "" {
      assert s[0] == '.' && s[1..] == b;
      assert !(pattern <= s);
    } else if pattern <= a {
      var rest := a[|pattern|..];
      MarkDistributes(rest, b, pattern);
      assert pattern <= s && s[|pattern|..] == rest + "." + b;
      Regrouped("!" + pattern, Mark(rest, pattern), Mark(b, pattern));
    } else {
      StartsInFirstPart(a, b, pattern);
      MarkDistributes(a[1..], b, pattern);
      assert s[0] == a[0] && s[1..] == a[1..] + "." + b;
      Regrouped([a[0]], Mark(a[1..], pattern), Mark(b, pattern));
    }
  }

  lemma {:induction false} SegmentsOfTwo(a: string, b: string)
    ensures Segments(a + "." + b) == Segments(a) + Segments(b)
  {
    MarkDistributes(a, b, "[");
    MarkDistributes(Mark(a, "["), Mark(b, "["), "$MAP");
    MarkDistributes(Mark(Mark(a, "["), "$MAP"), Mark(Mark(b, "["), "$MAP"), "$SET");
    SplitTwo(Marked(a), '.', Marked(b), SEPARATORS);
    assert Marked(a) + ['.'] + Marked(b) == Marked(a + "." + b);
  }

  lemma {:induction false} JoinCons(p: Address)
    requires p != []
    ensures Join(p) == if |p| == 1 then p[0] else p[0] + "." + Join(p[1..])
  {
    if |p| == 1 {
      assert p[1..] == [] && p[0] + "" == p[0];
    } else {
      var rest := p[1..];
      assert p[0] + ("." + rest[0] + Dotted(rest[1..])) == p[0] + "." + (rest[0] + Dotted(rest[1..]));
    }
  }

  lemma {:induction false} SegmentsOfJoin(p: Address)
    requires p != [] && AllFindable(p)
    ensures OnlyProperties(Segments(Join(p)))
    decreases |p|
  {
    PieceOfFindable(p[0]);
    JoinCons(p);
    if |p| > 1 {
      var rest := p[1..];
      assert forall i | 0 <= i < |rest| :: rest[i] == p[i + 1];
      SegmentsOfJoin(rest);
      SegmentsOfTwo(p[0], Join(rest));
    }
  }

  /** The recorded path of an address under findable keys asks for no collections. */
  lemma {:induction false} PathOfFindable(v: Value, p: Address)
    requires v.Obj? && p != [] && Leads(v, p) && AllFindable(p)
    ensures OnlyProperties(Segments(PathOf(v, "", p)))
    decreases |p|
  {
    PathFromRoot(v, p);
    SegmentsOfJoin(p);
    if p[0] == "" {
      var rest := p[1..];
      if rest == [] {
        PieceOfFindable("");
      } else {
        assert HasOwn(Own(v, ""), rest[0]);
        if Own(v, "").Obj? {
          assert forall i | 0 <= i < |rest| :: rest[i] == p[i + 1];
          PathOfFindable(Own(v, ""), rest);
        }
      }
    }
  }
}
