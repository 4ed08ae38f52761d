/** 64-bit constraint words, and the set of positions each one stands for. */
module Words {
  const WIDTH: nat := 64
  const TOP: bv64 := 0x8000_0000_0000_0000

  /** Whether two words share a set position. */
  predicate Meets(m: bv64, o: bv64) {
    m & o != 0
  }

  /** Exactly one position is set: x & (x - 1) clears the lowest one. */
  predicate OneHot(x: bv64) {
    x != 0 && x & (x - 1) == 0
  }

  function Doubled(x: bv64): bv64 {
    x << 1
  }

  /** Mask{1} << i, one place at a time. */
  function One(i: nat): bv64 {
    if i == 0 then 1 else Doubled(One(i - 1))
  }

  /** Whether position i is set, by masking. */
  predicate Bit(m: bv64, i: nat) {
    Meets(m, One(i))
  }

  /** The positions a word holds. */
  function Bits(m: bv64): (s: set<nat>) {
    set i: nat | i < WIDTH && Bit(m, i)
  }

  lemma MeetsAnd(o: bv64, a: bv64, b: bv64)
    requires OneHot(o)
    ensures Meets(a & b, o) <==> Meets(a, o) && Meets(b, o)
  {}

  lemma OrDistributes(o: bv64, a: bv64, b: bv64)
    ensures (a | b) & o == (a & o) | (b & o)
  {}

  lemma OrZero(a: bv64, b: bv64)
    ensures a | b == 0 <==> a == 0 && b == 0
  {}

  lemma MeetsOr(o: bv64, a: bv64, b: bv64)
    ensures Meets(a | b, o) <==> Meets(a, o) || Meets(b, o)
  {
    OrDistributes(o, a, b);
    OrZero(a & o, b & o);
  }

  lemma MeetsNot(o: bv64, b: bv64)
    requires OneHot(o)
    ensures Meets(!b, o) <==> !Meets(b, o)
  {}

  lemma MeetsAndNot(o: bv64, a: bv64, b: bv64)
    requires OneHot(o)
    ensures Meets(a & !b, o) <==> Meets(a, o) && !Meets(b, o)
  {
    MeetsNot(o, b);
    MeetsAnd(o, a, !b);
  }

  lemma MeetsOneHot(o: bv64, p: bv64)
    requires OneHot(o) && OneHot(p)
    ensures Meets(o, p) <==> o == p
  {}

  lemma DoubledOneHot(o: bv64)
    requires OneHot(o) && Doubled(o) != 0
    ensures OneHot(Doubled(o)) && o < Doubled(o)
  {}

  lemma OneStep(i: nat)
    ensures One(i + 1) == Doubled(One(i))
  {}

  function ByTwo(x: bv64): bv64 { x << 2 }

  function ByFour(x: bv64): bv64 { x << 4 }

  function ByEight(x: bv64): bv64 { x << 8 }

  lemma TwoSteps(a: bv64)
    ensures Doubled(Doubled(a)) == ByTwo(a)
  {}

  lemma FourSteps(a: bv64)
    ensures ByTwo(ByTwo(a)) == ByFour(a)
  {}

  lemma EightSteps(a: bv64)
    ensures ByFour(ByFour(a)) == ByEight(a)
  {}

  lemma OneTwoSteps(i: nat)
    ensures One(i + 2) == ByTwo(One(i))
  {
    OneStep(i);
    OneStep(i + 1);
    TwoSteps(One(i));
  }

  lemma OneFourSteps(i: nat)
    ensures One(i + 4) == ByFour(One(i))
  {
    OneTwoSteps(i);
    OneTwoSteps(i + 2);
    FourSteps(One(i));
  }

  lemma OneByte(i: nat)
    ensures One(i + 8) == ByEight(One(i))
  {
    OneFourSteps(i);
    OneFourSteps(i + 4);
    EightSteps(One(i));
  }

  lemma TopPlace()
    ensures One(63) == TOP
  {
    assert One(7) == 128 by {
      assert One(4) == 16;
    }
    OneByte(7); OneByte(15); OneByte(23); OneByte(31);
    OneByte(39); OneByte(47); OneByte(55);
  }

  /** Once shifted out, a word stays empty. */
  lemma {:induction false} StaysZero(i: nat, j: nat)
    requires i <= j && One(i) == 0
    ensures One(j) == 0
    decreases j - i
  {
    if i < j {
      OneStep(i);
      StaysZero(i + 1, j);
    }
  }

  lemma {:induction false} OneIsOneHot(i: nat)
    requires i < WIDTH
    ensures OneHot(One(i))
  {
    if i > 0 {
      OneIsOneHot(i - 1);
      OneStep(i - 1);
      if One(i) == 0 {
        StaysZero(i, 63);
        TopPlace();
        assert false;
      }
      DoubledOneHot(One(i - 1));
    }
  }

  lemma {:induction false} OneGrows(i: nat, j: nat)
    requires i < j < WIDTH
    ensures One(i) < One(j)
    decreases j - i
  {
    OneIsOneHot(i);
    OneIsOneHot(i + 1);
    OneStep(i);
    DoubledOneHot(One(i));
    if i + 1 < j {
      OneGrows(i + 1, j);
    }
  }

  lemma OneDiffers(i: nat, j: nat)
    requires i < WIDTH && j < WIDTH
    ensures One(i) == One(j) <==> i == j
  {
    if i < j {
      OneGrows(i, j);
    } else if j < i {
      OneGrows(j, i);
    }
  }

  /** Shifting one by i sets exactly position i. */
  lemma BitsOne(i: nat)
    requires i < WIDTH
    ensures Bits(One(i)) == {i}
  {
    var o := One(i);
    forall j: nat | j < WIDTH
      ensures Bit(o, j) <==> j == i
    {
      OneIsOneHot(i);
      OneIsOneHot(j);
      MeetsOneHot(o, One(j));
      OneDiffers(i, j);
    }
  }

  /** The word operators of the solver act as set operators on positions. */
  lemma BitsAnd(a: bv64, b: bv64)
    ensures Bits(a & b) == Bits(a) * Bits(b)
  {
    var c := a & b;
    forall i: nat | i < WIDTH
      ensures Bit(c, i) <==> Bit(a, i) && Bit(b, i)
    {
      OneIsOneHot(i);
      MeetsAnd(One(i), a, b);
    }
  }

  lemma BitsOr(a: bv64, b: bv64)
    ensures Bits(a | b) == Bits(a) + Bits(b)
  {
    var c := a | b;
    forall i: nat | i < WIDTH
      ensures Bit(c, i) <==> Bit(a, i) || Bit(b, i)
    {
      MeetsOr(One(i), a, b);
    }
  }

  lemma BitsAndNot(a: bv64, b: bv64)
    ensures Bits(a & !b) == Bits(a) - Bits(b)
  {
    var c := a & !b;
    forall i: nat | i < WIDTH
      ensures Bit(c, i) <==> Bit(a, i) && !Bit(b, i)
    {
      OneIsOneHot(i);
      MeetsAndNot(One(i), a, b);
    }
  }

  /** m |= Mask{1} << i. */
  function WithBit(m: bv64, i: nat): bv64 {
    m | One(i)
  }

  lemma BitsWithBit(m: bv64, i: nat)
    requires i < WIDTH
    ensures Bits(WithBit(m, i)) == Bits(m) + {i}
  {
    BitsOr(m, One(i));
    BitsOne(i);
  }

  /** m & ~c. */
  function Without(m: bv64, c: bv64): bv64 {
    m & !c
  }

  lemma BitsWithout(m: bv64, c: bv64)
    ensures Bits(Without(m, c)) == Bits(m) - Bits(c)
  {
    BitsAndNot(m, c);
  }

  lemma MeetsBits(a: bv64, b: bv64)
    ensures Meets(a, b) <==> Bits(a) * Bits(b) != {}
  {
    BitsAnd(a, b);
    BitsZero(a & b);
  }

  /** No position of m lies below that of the one-hot word o. */
  predicate ClearBelow(m: bv64, o: bv64) {
    m & (o - 1) == 0
  }

  lemma ClearBelowStep(m: bv64, o: bv64)
    requires OneHot(o) && Doubled(o) != 0
    requires ClearBelow(m, o) && !Meets(m, o)
    ensures ClearBelow(m, Doubled(o))
  {}

  lemma ClearBelowTop(m: bv64)
    requires ClearBelow(m, TOP) && !Meets(m, TOP)
    ensures m == 0
  {}

  lemma ClearBelowOne(m: bv64)
    ensures ClearBelow(m, 1)
  {}

  lemma {:induction false} NoBitBelow(m: bv64, k: nat)
    requires k < WIDTH
    requires forall i: nat | i < WIDTH :: !Bit(m, i)
    ensures ClearBelow(m, One(k))
  {
    if k == 0 {
      ClearBelowOne(m);
    } else {
      NoBitBelow(m, k - 1);
      OneIsOneHot(k - 1);
      OneIsOneHot(k);
      OneStep(k - 1);
      assert !Bit(m, k - 1);
      ClearBelowStep(m, One(k - 1));
    }
  }

  /** A word is zero exactly when it holds no position. */
  lemma BitsZero(m: bv64)
    ensures m == 0 <==> Bits(m) == {}
  {
    if Bits(m) == {} {
      forall i: nat | i < WIDTH
        ensures !Bit(m, i)
      {
        assert i !in Bits(m);
      }
      NoBitBelow(m, 63);
      TopPlace();
      assert !Bit(m, 63);
      ClearBelowTop(m);
    }
  }

  lemma DifferenceZero(a: bv64, b: bv64)
    requires a & !b == 0 && b & !a == 0
    ensures a == b
  {}

  /** Distinct words stand for distinct position sets. */
  lemma BitsInjective(a: bv64, b: bv64)
    requires Bits(a) == Bits(b)
    ensures a == b
  {
    BitsAndNot(a, b);
    BitsAndNot(b, a);
    BitsZero(a & !b);
    BitsZero(b & !a);
    DifferenceZero(a, b);
  }
}
