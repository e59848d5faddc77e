/** Whether the recorded paths lead to the dates can be decided one address at a time: no two
    dates can have each other's path. */
module ObjectAddresses {
  import opened Decimals
  import opened ObjectMapping
  import opened ObjectMappingRoundTrip
  import opened ObjectPaths
  import opened ObjectReach
  import opened Texts

  /** Where the path of an address leads when it is taken apart. */
  ghost function Image(v: Value, p: Address): Address {
    Segments(PathOf(v, "", p))
  }

  ghost function Images(v: Value, spots: set<Address>): set<Address> {
    set p | p in spots :: Image(v, p)
  }

  ghost predicate PathsFaithful(v: Value) {
    forall p | p in Spots(v, false) :: Image(v, p) == p
  }

  predicate KeysFree(p: Address) {
    forall i | 0 <= i < |p| :: FreeOf(p[i], SEPARATORS)
  }

  predicate TwoEmptyKeys(p: Address) {
    |p| > 1 && p[0] == "" && p[1] == ""
  }

  // ---------------------------------------------------------------------------------
  // The shape of a path

  lemma {:induction false} FreeAppends(a: string, b: string)
    requires FreeOf(a, {'!'}) && FreeOf(b, {'!'})
    ensures FreeOf(a + "." + b, {'!'})
  {
  }

  lemma {:induction false} PathHasNoMark(v: Value, prefix: string, p: Address)
    requires Leads(v, p) && KeysFree(p) && FreeOf(prefix, {'!'})
    ensures FreeOf(PathOf(v, prefix, p), {'!'})
    decreases |p|
  {
    if p != [] {
      assert FreeOf(p[0], SEPARATORS);
      FreeAppends(prefix, p[0]);
      PathHasNoMark(Own(v, p[0]), if v.Arr? then prefix + "." + p[0] else Child(prefix, p[0]), p[1..]);
    }
  }

  /** A path starts with a dot only if it starts in an array under an empty key, and then an
      index follows. */
  lemma {:induction false} FirstDot(v: Value, p: Address)
    requires v.Obj? && p != [] && Leads(v, p) && KeysFree(p)
    requires PathOf(v, "", p) != "" && PathOf(v, "", p)[0] == '.'
    ensures |PathOf(v, "", p)| > 1 && IsDigit(PathOf(v, "", p)[1])
    ensures !TwoEmptyKeys(p) ==> "" in v.fields && v.fields[""].Arr?
    decreases |p|
  {
    PathFromRoot(v, p);
    assert FreeOf(p[0], SEPARATORS);
    if p[0] == "" {
      var child, rest := Own(v, ""), p[1..];
      if child.Arr? {
        assert IsIndex(rest[0], |child.items|) && IsDigit(rest[0][0]);
        assert Join(p) == "" + ("." + rest[0] + Dotted(rest[1..]));
      } else {
        assert forall i | 0 <= i < |rest| :: rest[i] == p[i + 1];
        PathFromRoot(child, rest);
        assert FreeOf(rest[0], SEPARATORS);
        FirstDot(child, rest);
      }
    }
  }

  lemma {:induction false} FirstPiece(s: string)
    ensures Split(s, SEPARATORS)[0] == "" <==> s == "" || s[0] in SEPARATORS
    ensures s != "" && s[0] in SEPARATORS ==> Split(s, SEPARATORS)[1..] == Split(s[1..], SEPARATORS)
    ensures s == "" ==> |Split(s, SEPARATORS)| == 1
  {
  }

  lemma {:induction false} DigitIsNotMarked(s: string)
    requires MarksFollowed(s, 3) && Unmark(s) != "" && IsDigit(Unmark(s)[0])
    ensures s != "" && s[0] == Unmark(s)[0]
  {
  }

  /** A text without marks in which a digit follows a leading dot never splits into two empty
      pieces at its start. */
  lemma {:induction false} NoTwoEmptyPieces(text: string)
    requires FreeOf(text, {'!'})
    requires text != "" && text[0] == '.' ==> |text| > 1 && IsDigit(text[1])
    ensures !TwoEmptyKeys(Segments(text))
  {
    var x := Marked(text);
    MarkedText(text);
    FirstPiece(x);
    if x != "" && x[0] in SEPARATORS {
      var y := x[1..];
      FirstPiece(y);
      assert Split(x, SEPARATORS)[1..][0] == Split(y, SEPARATORS)[0] == Split(x, SEPARATORS)[1];
      if x[0] == '!' {
        assert Follows(y, 3);
      } else {
        assert text == "." + Unmark(y) && text[1..] == Unmark(y);
        DigitIsNotMarked(y);
      }
    }
  }

  // ---------------------------------------------------------------------------------
  // Taking a path apart never makes it shorter

  lemma {:induction false} ImageFree(v: Value, p: Address)
    ensures KeysFree(Image(v, p)) && Image(v, p) != []
  {
    PiecesAreFree(Marked(PathOf(v, "", p)), SEPARATORS);
  }

  ghost predicate GoodAddress(v: Value, p: Address) {
    p != [] && Leads(v, p) && KeysFree(p) && !TwoEmptyKeys(p)
  }

  lemma {:induction false} SecondStep(v: Value, q: Address)
    requires |q| > 1 && Leads(v, q)
    ensures Own(v, q[0]).Arr? || Own(v, q[0]).Obj?
  {
    assert Leads(Own(v, q[0]), q[1..]);
    assert HasOwn(Own(v, q[0]), q[1..][0]);
  }

  lemma {:induction false} ImageGrows(v: Value, p: Address)
    requires v.Obj? && GoodAddress(v, p) && GoodAddress(v, Image(v, p))
    ensures var text, text' := PathOf(v, "", p), PathOf(v, "", Image(v, p));
      |text'| >= |text| && (|text'| == |text| ==> text' == text)
  {
    var q, text := Image(v, p), PathOf(v, "", p);
    var x := Marked(text);
    PathHasNoMark(v, "", p);
    MarkedText(text);
    UnmarkShortens(x);
    UnmarkIdle(text);
    JoinUndoesSplit(x);
    PathFromRoot(v, q);
    if |q| > 1 {
      SecondStep(v, q);
    }
    if q[0] == "" && |q| > 1 && Own(v, "").Obj? {
      ElidedKey(v, p, x);
    } else if q[0] == "" && |q| == 1 {
      assert q[1..] == [] && Join(q) == "" + "";
    }
  }

  lemma {:induction false} NoFirstDot(v: Value, p: Address)
    requires v.Obj? && GoodAddress(v, p) && "" in v.fields && !v.fields[""].Arr?
    ensures PathOf(v, "", p) == "" || PathOf(v, "", p)[0] != '.'
  {
    if PathOf(v, "", p) != "" && PathOf(v, "", p)[0] == '.' {
      FirstDot(v, p);
    }
  }

  lemma {:induction false} WithoutFirstMark(x: string, joined: string, text: string)
    requires x != "" && x[0] == '!' && MarksAsDots(x) == "." + joined
    requires Unmark(x) == text && FreeOf(text, {'!'})
    ensures |joined| >= |text| && (|joined| == |text| ==> joined == text)
  {
    var y := x[1..];
    assert MarksAsDots(x) == "." + MarksAsDots(y);
    assert joined == ("." + joined)[1..] == ("." + MarksAsDots(y))[1..] == MarksAsDots(y);
    assert Unmark(x) == "" + Unmark(y) == Unmark(y);
    UnmarkShortens(y);
    UnmarkIdle(text);
  }

  /** The one case in which a key leaves no trace: a mark put in front of the whole text. */
  lemma {:induction false} ElidedKey(v: Value, p: Address, x: string)
    requires v.Obj? && GoodAddress(v, p) && GoodAddress(v, Image(v, p))
    requires x == Marked(PathOf(v, "", p)) && Unmark(x) == PathOf(v, "", p)
    requires FreeOf(PathOf(v, "", p), {'!'}) && Join(Image(v, p)) == MarksAsDots(x)
    requires Image(v, p)[0] == "" && |Image(v, p)| > 1 && Own(v, "").Obj?
    ensures var text, text' := PathOf(v, "", p), PathOf(v, "", Image(v, p));
      |text'| >= |text| && (|text'| == |text| ==> text' == text)
  {
    var q, text := Image(v, p), PathOf(v, "", p);
    var rest := q[1..];
    PathFromRoot(v, q);
    PathFromRoot(Own(v, ""), rest);
    JoinOfElided(q);
    FirstPiece(x);
    NoFirstDot(v, p);
    FirstOfUnmarked(x);
    WithoutFirstMark(x, Join(rest), text);
  }

  lemma {:induction false} JoinOfElided(q: Address)
    requires |q| > 1 && q[0] == ""
    ensures Join(q) == "." + Join(q[1..])
  {
    JoinCons(q);
    assert "" + "." == ".";
  }

  lemma {:induction false} FirstOfUnmarked(x: string)
    ensures x != "" && x[0] == '.' ==> Unmark(x) != "" && Unmark(x)[0] == '.'
  {
  }

  // ---------------------------------------------------------------------------------
  // A rearrangement that makes nothing shorter changes nothing

  lemma {:induction false} NoMoreImages(v: Value, spots: set<Address>)
    ensures |Images(v, spots)| <= |spots|
    decreases |spots|
  {
    if spots != {} {
      var p :| p in spots;
      var rest := spots - {p};
      NoMoreImages(v, rest);
      assert Images(v, spots) == Images(v, rest) + {Image(v, p)};
    }
  }

  /** Two addresses with one image leave fewer images than addresses. */
  lemma {:induction false} FewerImages(v: Value, spots: set<Address>, a: Address, b: Address)
    requires a in spots && b in spots && a != b && Image(v, a) == Image(v, b)
    ensures |Images(v, spots)| < |spots|
  {
    var rest := spots - {a};
    forall q | q in Images(v, spots) ensures q in Images(v, rest) {
      var p :| p in spots && Image(v, p) == q;
      assert (if p == a then b else p) in rest;
    }
    assert Images(v, spots) == Images(v, rest);
    NoMoreImages(v, rest);
  }

  /** The images of the addresses are these addresses again, no two with the same image. */
  ghost predicate Rearranges(v: Value, spots: set<Address>) {
    && (forall p {:trigger Image(v, p)} :: p in spots ==> Image(v, p) in spots)
    && (forall p, q {:trigger Image(v, p), Image(v, q)} ::
          p in spots && q in spots && Image(v, p) == Image(v, q) ==> p == q)
  }

  lemma {:induction false} OntoRearranges(v: Value, spots: set<Address>, images: set<Address>)
    requires images == Images(v, spots) && images == spots
    ensures Rearranges(v, spots)
  {
    forall p, q | p in spots && q in spots && Image(v, p) == Image(v, q) ensures p == q {
      if p != q {
        FewerImages(v, spots, p, q);
      }
    }
    forall p | p in spots ensures Image(v, p) in spots {
      assert Image(v, p) in images;
    }
  }

  ghost predicate LengthBound(v: Value, spots: set<Address>, bound: nat) {
    forall p | p in spots :: |PathOf(v, "", p)| <= bound
  }

  lemma {:induction false} SomeBound(v: Value, spots: set<Address>) returns (bound: nat)
    ensures LengthBound(v, spots, bound)
    decreases |spots|
  {
    if spots == {} {
      bound := 0;
    } else {
      var p :| p in spots;
      var rest := SomeBound(v, spots - {p});
      bound := if rest < |PathOf(v, "", p)| then |PathOf(v, "", p)| else rest;
    }
  }

  lemma {:induction false} NothingMoves(v: Value, spots: set<Address>, p: Address, bound: nat)
    requires v.Obj? && Rearranges(v, spots) && p in spots && LengthBound(v, spots, bound)
    requires forall q | q in spots :: GoodAddress(v, q)
    ensures Image(v, p) == p
    decreases bound - |PathOf(v, "", p)|
  {
    var q := Image(v, p);
    ImageGrows(v, p);
    if q != p {
      if Image(v, q) != q {
        NothingMoves(v, spots, q, bound);
      }
    }
  }

  lemma {:induction false} ImageOfFreeKeys(v: Value, p: Address)
    requires v.Obj? && p in Spots(v, false) && KeysFree(p)
    ensures KeysFree(Image(v, p)) && !TwoEmptyKeys(Image(v, p))
  {
    var text := PathOf(v, "", p);
    SpotsLead(v, false, p);
    ImageFree(v, p);
    PathHasNoMark(v, "", p);
    if text != "" && text[0] == '.' {
      FirstDot(v, p);
    }
    NoTwoEmptyPieces(text);
  }

  ghost function Origin(v: Value, spots: set<Address>, q: Address): (p: Address)
    requires Images(v, spots) == spots && q in spots
    ensures p in spots && Image(v, p) == q
  {
    assert q in Images(v, spots);
    var p :| p in spots && Image(v, p) == q;
    p
  }

  lemma {:induction false} SpotsAreGood(v: Value, p: Address)
    requires v.Obj? && Images(v, Spots(v, false)) == Spots(v, false) && p in Spots(v, false)
    ensures GoodAddress(v, p)
  {
    var p0 := Origin(v, Spots(v, false), p);
    ImageFree(v, Origin(v, Spots(v, false), p0));
    ImageOfFreeKeys(v, p0);
    SpotsLead(v, false, p);
  }

  /** The paths of all dates together lead to all dates exactly when each leads to its own. */
  lemma {:induction false} FaithfulExactlyWhen(v: Value)
    requires v.Obj?
    ensures Images(v, Spots(v, false)) == Spots(v, false) <==> PathsFaithful(v)
  {
    var spots := Spots(v, false);
    if Images(v, spots) == spots {
      forall p | p in spots ensures GoodAddress(v, p) {
        SpotsAreGood(v, p);
      }
      OntoRearranges(v, spots, Images(v, spots));
      var bound := SomeBound(v, spots);
      forall p | p in spots ensures Image(v, p) == p {
        NothingMoves(v, spots, p, bound);
      }
    }
    if PathsFaithful(v) {
      forall p ensures p in Images(v, spots) <==> p in spots {
        if p in spots {
          assert Image(v, p) in Images(v, spots);
        }
      }
    }
  }
}
