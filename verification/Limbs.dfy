/**
  Numbers held in limbs: element i of a sequence weighs base^i. Limbs may be
  negative or exceed the base; a carry pass turns them into proper digits.
*/
module Limbs {
  import opened Arith

  function Val(s: seq<int>, base: int): (r: int) {
    if s == [] then 0 else s[0] + base * Val(s[1..], base)
  }

  /** One carry pass, least significant limb first, with `carry` coming in. */
  function Digits(s: seq<int>, carry: int, base: int): (r: seq<int>)
    requires base > 0
    ensures |r| == |s|
  {
    if s == [] then []
    else [(s[0] + carry) % base] + Digits(s[1..], (s[0] + carry) / base, base)
  }

  /** The carry that leaves the most significant limb of that pass. */
  function CarryOut(s: seq<int>, carry: int, base: int): (r: int)
    requires base > 0
  {
    if s == [] then carry else CarryOut(s[1..], (s[0] + carry) / base, base)
  }

  ghost predicate AreDigits(s: seq<int>, base: int) {
    forall i :: 0 <= i < |s| ==> 0 <= s[i] < base
  }

  ghost predicate Within(s: seq<int>, lo: int, hi: int) {
    forall i :: 0 <= i < |s| ==> lo <= s[i] <= hi
  }

  /** A carry pass keeps the number: what leaves at the top is base^n times the carry out. */
  lemma {:induction false} DigitsVal(s: seq<int>, carry: int, base: int)
    requires base > 0
    ensures Val(Digits(s, carry, base), base) + Pow(base, |s|) * CarryOut(s, carry, base)
         == Val(s, base) + carry
    ensures AreDigits(Digits(s, carry, base), base)
  {
    if s != [] {
      var x := s[0] + carry;
      var c, out := x / base, CarryOut(s[1..], x / base, base);
      var rest := Digits(s[1..], c, base);
      DigitsVal(s[1..], c, base);
      assert Digits(s, carry, base)[1..] == rest;
      CarryStep(x, base, Val(rest, base), Pow(base, |s| - 1), out, Val(s[1..], base));
    }
  }

  lemma CarryStep(x: int, base: int, rest: int, pow: int, out: int, tail: int)
    requires base > 0
    requires rest + pow * out == tail + x / base
    ensures x % base + base * rest + base * pow * out == x + base * tail
  {
    MulAssoc(base, pow, out);
    MulDistr(base, rest, pow * out);
    MulDistr(base, tail, x / base);
  }

  /** Digits of an n-limb number are below base^n. */
  lemma {:induction false} DigitsBound(s: seq<int>, base: int)
    requires base > 0 && AreDigits(s, base)
    ensures 0 <= Val(s, base) < Pow(base, |s|)
  {
    if s != [] {
      DigitsBound(s[1..], base);
      BoundStep(s[0], base, Val(s[1..], base), Pow(base, |s| - 1));
    }
  }

  lemma BoundStep(d: int, base: int, v: int, p: int)
    requires 0 <= d < base && 0 <= v < p
    ensures 0 <= d + base * v < base * p
  {
    MulBound(base, v, base, p - 1);
    MulDistr(base, p, -1);
  }

  /** Two digit sequences of the same length and value are the same sequence. */
  lemma {:induction false} DigitsUnique(s: seq<int>, t: seq<int>, base: int)
    requires base > 0 && AreDigits(s, base) && AreDigits(t, base)
    requires |s| == |t| && Val(s, base) == Val(t, base)
    ensures s == t
  {
    if s != [] {
      DivModUnique(Val(s, base), base, Val(s[1..], base), s[0]);
      DivModUnique(Val(s, base), base, Val(t[1..], base), t[0]);
      DigitsUnique(s[1..], t[1..], base);
      assert s == [s[0]] + s[1..] && t == [t[0]] + t[1..];
    }
  }

  lemma {:induction false} ValConcat(s: seq<int>, t: seq<int>, base: int)
    ensures Val(s + t, base) == Val(s, base) + Pow(base, |s|) * Val(t, base)
  {
    if s == [] {
      assert s + t == t;
    } else {
      ValConcat(s[1..], t, base);
      assert (s + t)[1..] == s[1..] + t;
      MulDistr(base, Val(s[1..], base), Pow(base, |s| - 1) * Val(t, base));
      MulAssoc(base, Pow(base, |s| - 1), Val(t, base));
    }
  }

  /** Changing one limb changes the value by the difference times its weight. */
  lemma {:induction false} ValUpdate(s: seq<int>, i: nat, x: int, base: int)
    requires i < |s|
    ensures Val(s[i := x], base) == Val(s, base) + (x - s[i]) * Pow(base, i)
  {
    var s' := s[i := x];
    if i == 0 {
      assert s'[1..] == s[1..];
    } else {
      ValUpdate(s[1..], i - 1, x, base);
      assert s'[1..] == s[1..][i - 1 := x];
      var d, p := x - s[i], Pow(base, i - 1);
      MulDistr(base, Val(s[1..], base), d * p);
      assert base * (d * p) == d * (base * p) by {
        MulAssoc(base, d, p);
        MulAssoc(d, base, p);
      }
    }
  }

  lemma ValUpdateLow(s: seq<int>, x: int, base: int)
    requires s != []
    ensures Val(s[0 := x], base) == Val(s, base) + x - s[0]
  {
    assert s[0 := x][1..] == s[1..];
  }

  /** The value is additive and homogeneous, limb by limb. */
  lemma {:induction false} ValLinear(s: seq<int>, t: seq<int>, r: seq<int>, k: int, base: int)
    requires |s| == |t| == |r|
    requires forall i :: 0 <= i < |s| ==> r[i] == s[i] + k * t[i]
    ensures Val(r, base) == Val(s, base) + k * Val(t, base)
  {
    if s != [] {
      var vs, vt := Val(s[1..], base), Val(t[1..], base);
      assert r[0] == s[0] + k * t[0];
      forall i | 0 <= i < |s| - 1
        ensures r[1..][i] == s[1..][i] + k * t[1..][i]
      {
        assert r[i + 1] == s[i + 1] + k * t[i + 1];
      }
      ValLinear(s[1..], t[1..], r[1..], k, base);
      MulDistr(base, vs, k * vt);
      MulDistr(k, t[0], base * vt);
      assert base * (k * vt) == k * (base * vt) by {
        MulAssoc(base, k, vt);
        MulAssoc(k, base, vt);
      }
    }
  }

  lemma {:induction false} ValZero(s: seq<int>, base: int)
    requires forall i :: 0 <= i < |s| ==> s[i] == 0
    ensures Val(s, base) == 0
  {
    if s != [] {
      ValZero(s[1..], base);
    }
  }

  lemma ValAppend(s: seq<int>, x: int, base: int)
    ensures Val(s + [x], base) == Val(s, base) + Pow(base, |s|) * x
  {
    ValConcat(s, [x], base);
    assert Val([x], base) == x;
  }

  lemma ValSplit(s: seq<int>, i: nat, base: int)
    requires i <= |s|
    ensures Val(s, base) == Val(s[..i], base) + Pow(base, i) * Val(s[i..], base)
  {
    assert s == s[..i] + s[i..];
    ValConcat(s[..i], s[i..], base);
  }

  /** Unfolding the carry pass at position i, for loops that run over the limbs. */
  lemma {:induction false} DigitsAt(s: seq<int>, carry: int, base: int, i: nat)
    requires base > 0 && i < |s|
    ensures Digits(s, carry, base)[..i] == Digits(s[..i], carry, base)
    ensures Digits(s, carry, base)[i] == (s[i] + CarryOut(s[..i], carry, base)) % base
    ensures CarryOut(s[..i + 1], carry, base) == (s[i] + CarryOut(s[..i], carry, base)) / base
  {
    var c := (s[0] + carry) / base;
    if i == 0 {
      assert s[..1][1..] == [];
      assert CarryOut(s[..1], carry, base) == c;
    } else {
      DigitsAt(s[1..], c, base, i - 1);
      assert s[..i][1..] == s[1..][..i - 1];
      assert s[..i + 1][1..] == s[1..][..i];
    }
  }
}
