/** The order in which texts are sorted: by their UTF-16 code units. */
module SortedTexts {

  /** Characters outside the basic plane start with a surrogate, which sorts before U+E000. */
  function Rank(c: char): nat {
    if 0xE000 <= c as int < 0x1_0000 then c as int + 0x11_0000 else c as int
  }

  predicate AtMost(a: string, b: string) {
    a == "" || (b != "" && (Rank(a[0]) < Rank(b[0]) || (a[0] == b[0] && AtMost(a[1..], b[1..]))))
  }

  lemma {:induction false} RankIsInjective(a: char, b: char)
    ensures Rank(a) == Rank(b) ==> a == b
  {
  }

  lemma {:induction false} AtMostIsTotal(a: string, b: string)
    ensures AtMost(a, b) || AtMost(b, a)
  {
    if a != "" && b != "" {
      RankIsInjective(a[0], b[0]);
      AtMostIsTotal(a[1..], b[1..]);
    }
  }

  lemma {:induction false} AtMostIsAntisymmetric(a: string, b: string)
    ensures AtMost(a, b) && AtMost(b, a) ==> a == b
  {
    if a != "" && b != "" {
      AtMostIsAntisymmetric(a[1..], b[1..]);
      assert a == [a[0]] + a[1..] && b == [b[0]] + b[1..];
    }
  }

  lemma {:induction false} AtMostIsTransitive(a: string, b: string, c: string)
    requires AtMost(a, b) && AtMost(b, c)
    ensures AtMost(a, c)
  {
    if a != "" && b != "" && c != "" && a[0] == b[0] && b[0] == c[0] {
      AtMostIsTransitive(a[1..], b[1..], c[1..]);
    }
  }

  // ---------------------------------------------------------------------------------
  // The order is that of the code units

  /** The code units of a character: itself, or two surrogates. */
  function Units(c: char): (units: seq<nat>)
    ensures units != []
  {
    var n := c as int;
    if n < 0x1_0000 then [n] else [0xD800 + (n - 0x1_0000) / 0x400, 0xDC00 + (n - 0x1_0000) % 0x400]
  }

  function Encoded(s: string): seq<nat> {
    if s == "" then [] else Units(s[0]) + Encoded(s[1..])
  }

  predicate UnitsAtMost(a: seq<nat>, b: seq<nat>) {
    a == [] || (b != [] && (a[0] < b[0] || (a[0] == b[0] && UnitsAtMost(a[1..], b[1..]))))
  }

  lemma {:induction false} SameFront(front: seq<nat>, a: seq<nat>, b: seq<nat>)
    ensures UnitsAtMost(front + a, front + b) <==> UnitsAtMost(a, b)
  {
    if front == [] {
      assert front + a == a && front + b == b;
    } else {
      assert (front + a)[1..] == front[1..] + a && (front + b)[1..] == front[1..] + b;
      SameFront(front[1..], a, b);
    }
  }

  lemma {:induction false} DifferentFront(c: char, d: char, a: seq<nat>, b: seq<nat>)
    requires c != d
    ensures UnitsAtMost(Units(c) + a, Units(d) + b) <==> Rank(c) < Rank(d)
  {
    var x, y := Units(c) + a, Units(d) + b;
    assert x[0] == Units(c)[0] && y[0] == Units(d)[0];
    if |Units(c)| == 2 && |Units(d)| == 2 {
      assert x[1..] == [Units(c)[1]] + a && y[1..] == [Units(d)[1]] + b;
      assert x[1..][0] == Units(c)[1] && y[1..][0] == Units(d)[1];
      var m, n := c as int - 0x1_0000, d as int - 0x1_0000;
      assert m == 0x400 * (m / 0x400) + m % 0x400 && n == 0x400 * (n / 0x400) + n % 0x400;
    }
  }

  /** Texts are ordered by their UTF-16 code units, one by one. */
  lemma {:induction false} OrderedByUnits(a: string, b: string)
    ensures AtMost(a, b) <==> UnitsAtMost(Encoded(a), Encoded(b))
  {
    if a != "" && b != "" {
      if a[0] == b[0] {
        OrderedByUnits(a[1..], b[1..]);
        SameFront(Units(a[0]), Encoded(a[1..]), Encoded(b[1..]));
      } else {
        RankIsInjective(a[0], b[0]);
        DifferentFront(a[0], b[0], Encoded(a[1..]), Encoded(b[1..]));
      }
    }
  }

  predicate IsLeast(k: string, keys: set<string>) {
    k in keys && forall j | j in keys :: AtMost(k, j)
  }

  lemma {:induction false} SomeLeast(keys: set<string>) returns (k: string)
    requires keys != {}
    ensures IsLeast(k, keys)
    decreases |keys|
  {
    k :| k in keys;
    AtMostIsTotal(k, k);
    if keys != {k} {
      var rest := keys - {k};
      assert rest != {};
      var least := SomeLeast(rest);
      AtMostIsTotal(k, least);
      if AtMost(least, k) {
        k := least;
      } else {
        forall j | j in keys && j != k ensures AtMost(k, j) {
          AtMostIsTransitive(k, least, j);
        }
      }
    }
  }

  function Least(keys: set<string>): (k: string)
    requires keys != {}
    ensures IsLeast(k, keys)
  {
    assert exists k :: IsLeast(k, keys) by {
      var k := SomeLeast(keys);
    }
    assert forall k, j | IsLeast(k, keys) && IsLeast(j, keys) :: k == j by {
      forall k, j | IsLeast(k, keys) && IsLeast(j, keys) ensures k == j {
        AtMostIsAntisymmetric(k, j);
      }
    }
    var k :| IsLeast(k, keys);
    k
  }

  function Sorted(keys: set<string>): (sorted: seq<string>)
    ensures forall k :: k in sorted <==> k in keys
    ensures |sorted| == |keys|
    decreases |keys|
  {
    if keys == {} then [] else [Least(keys)] + Sorted(keys - {Least(keys)})
  }

  /** Nothing is lost or doubled, and the order is strict. */
  lemma {:induction false} SortedIsOrdered(keys: set<string>)
    ensures forall i, j | 0 <= i < j < |Sorted(keys)| ::
              AtMost(Sorted(keys)[i], Sorted(keys)[j]) && Sorted(keys)[i] != Sorted(keys)[j]
    decreases |keys|
  {
    if keys != {} {
      var k := Least(keys);
      var rest := Sorted(keys - {k});
      SortedIsOrdered(keys - {k});
      forall j | 0 <= j < |rest| ensures AtMost(k, rest[j]) && k != rest[j] {
        assert rest[j] in rest;
      }
    }
  }
}
