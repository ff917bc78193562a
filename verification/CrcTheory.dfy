/** Cyclic redundancy checks on strings of bits, for a register of any width: how they continue,
    that they are linear, and that they are the remainder of a division of polynomials over GF(2). */
module CrcTheory {
  import opened BitWords

  // ---------------------------------------------------------------- the register

  function XorBits(a: seq<bool>, b: seq<bool>): (r: seq<bool>)
    requires |a| == |b|
    ensures |r| == |a|
  {
    seq(|a|, i requires 0 <= i < |a| => a[i] != b[i])
  }

  /** One message bit: the register moves up by one place, and if the bit that drops out differs
      from the message bit, the polynomial is added. */
  function StepBits(reg: seq<bool>, b: bool, poly: seq<bool>): (r: seq<bool>)
    requires |reg| == |poly| > 0
    ensures |r| == |reg|
  {
    seq(|reg|, i requires 0 <= i < |reg| => (i + 1 < |reg| && reg[i + 1]) != (reg[0] != b && poly[i]))
  }

  function FeedBits(reg: seq<bool>, m: seq<bool>, poly: seq<bool>): (r: seq<bool>)
    requires |reg| == |poly| > 0
    ensures |r| == |reg|
  {
    if m == [] then reg else StepBits(FeedBits(reg, m[..|m| - 1], poly), m[|m| - 1], poly)
  }

  /** Processing a concatenation is continuing from the intermediate register. */
  lemma {:induction false} FeedConcat(reg: seq<bool>, m: seq<bool>, n: seq<bool>, poly: seq<bool>)
    requires |reg| == |poly| > 0
    ensures FeedBits(reg, m + n, poly) == FeedBits(FeedBits(reg, m, poly), n, poly)
    decreases |n|
  {
    if n == [] {
      assert m + n == m;
    } else {
      FeedConcat(reg, m, n[..|n| - 1], poly);
      assert (m + n)[..|m + n| - 1] == m + n[..|n| - 1];
    }
  }

  lemma StepLinear(r: seq<bool>, s: seq<bool>, b: bool, c: bool, poly: seq<bool>)
    requires |r| == |s| == |poly| > 0
    ensures StepBits(XorBits(r, s), b != c, poly) == XorBits(StepBits(r, b, poly), StepBits(s, c, poly))
  {
  }

  /** Linear over the exclusive or of registers and of messages of equal length. */
  lemma {:induction false} FeedLinear(r: seq<bool>, s: seq<bool>, m: seq<bool>, n: seq<bool>, poly: seq<bool>)
    requires |r| == |s| == |poly| > 0 && |m| == |n|
    ensures FeedBits(XorBits(r, s), XorBits(m, n), poly) == XorBits(FeedBits(r, m, poly), FeedBits(s, n, poly))
    decreases |m|
  {
    if m != [] {
      var k := |m| - 1;
      FeedLinear(r, s, m[..k], n[..k], poly);
      StepLinear(FeedBits(r, m[..k], poly), FeedBits(s, n[..k], poly), m[k], n[k], poly);
      XorPrefix(m, n, k);
      FeedLast(XorBits(r, s), XorBits(m, n), XorBits(m[..k], n[..k]), poly);
    }
  }

  lemma XorPrefix(m: seq<bool>, n: seq<bool>, k: nat)
    requires k <= |m| == |n|
    ensures XorBits(m, n)[..k] == XorBits(m[..k], n[..k])
  {
  }

  lemma FeedLast(reg: seq<bool>, m: seq<bool>, init: seq<bool>, poly: seq<bool>)
    requires |reg| == |poly| > 0 && m != [] && m[..|m| - 1] == init
    ensures FeedBits(reg, m, poly) == StepBits(FeedBits(reg, init, poly), m[|m| - 1], poly)
  {
  }

  /** Two messages of equal length have the same check exactly if their difference has check zero
      from a register that starts at zero. */
  lemma SameCheckIff(init: seq<bool>, m: seq<bool>, n: seq<bool>, poly: seq<bool>)
    requires |init| == |poly| > 0 && |m| == |n|
    ensures FeedBits(init, m, poly) == FeedBits(init, n, poly)
            <==> FeedBits(Clear(|init|), XorBits(m, n), poly) == Clear(|init|)
  {
    DifferenceFed(init, m, n, poly, FeedBits(init, m, poly), FeedBits(init, n, poly));
    XorClear(FeedBits(init, m, poly), FeedBits(init, n, poly));
  }

  lemma DifferenceFed(init: seq<bool>, m: seq<bool>, n: seq<bool>, poly: seq<bool>, a: seq<bool>, b: seq<bool>)
    requires |init| == |poly| > 0 && |m| == |n| && a == FeedBits(init, m, poly) && b == FeedBits(init, n, poly)
    ensures FeedBits(Clear(|init|), XorBits(m, n), poly) == XorBits(a, b)
  {
    XorSame(init);
    FeedLinear(init, init, m, n, poly);
  }

  lemma XorSame(a: seq<bool>)
    ensures XorBits(a, a) == Clear(|a|)
  {
  }

  lemma XorClear(a: seq<bool>, b: seq<bool>)
    requires |a| == |b|
    ensures XorBits(a, b) == Clear(|a|) <==> a == b
  {
    if XorBits(a, b) == Clear(|a|) {
      forall i: nat | i < |a| ensures a[i] == b[i] { assert XorBits(a, b)[i] == Clear(|a|)[i]; }
    }
  }

  /** Feeding a register its own upper bits adds no polynomial: they move out, zeros move in. */
  lemma {:induction false} SelfFeed(reg: seq<bool>, k: nat, poly: seq<bool>)
    requires |reg| == |poly| > 0 && k <= |reg|
    ensures FeedBits(reg, reg[..k], poly) == reg[k..] + Clear(k)
  {
    if k > 0 {
      SelfFeed(reg, k - 1, poly);
      assert reg[..k][..k - 1] == reg[..k - 1];
      var now := reg[k - 1..] + Clear(k - 1);
      assert now[0] == reg[k - 1];
      forall i: nat | i < |reg| ensures StepBits(now, reg[k - 1], poly)[i] == (reg[k..] + Clear(k))[i] {}
    }
  }

  lemma SelfFed(reg: seq<bool>, poly: seq<bool>)
    requires |reg| == |poly| > 0
    ensures FeedBits(reg, reg, poly) == Clear(|reg|)
  {
    SelfFeed(reg, |reg|, poly);
    assert reg[..|reg|] == reg && reg[|reg|..] + Clear(|reg|) == Clear(|reg|);
  }

  lemma ClearXor(a: seq<bool>)
    ensures XorBits(Clear(|a|), a) == a && XorBits(a, Clear(|a|)) == a
  {
  }

  /** A register cancels itself out of what is fed to it. */
  lemma ResidueAndMore(reg: seq<bool>, x: seq<bool>, poly: seq<bool>)
    requires |reg| == |poly| == |x| > 0
    ensures FeedBits(reg, XorBits(reg, x), poly) == FeedBits(Clear(|reg|), x, poly)
  {
    var fed := FeedBits(Clear(|reg|), x, poly);
    FeedLinear(reg, Clear(|reg|), reg, x, poly);
    ClearXor(reg);
    SelfFed(reg, poly);
    ClearXor(fed);
  }

  /** The message followed by the register leaves zero. */
  lemma Residue(init: seq<bool>, m: seq<bool>, poly: seq<bool>)
    requires |init| == |poly| > 0
    ensures FeedBits(init, m + FeedBits(init, m, poly), poly) == Clear(|init|)
  {
    var reg := FeedBits(init, m, poly);
    FeedConcat(init, m, reg, poly);
    SelfFeed(reg, |reg|, poly);
    assert reg[..|reg|] == reg && reg[|reg|..] + Clear(|reg|) == Clear(|reg|);
  }

  /** Adding a whole message to the register first, and then feeding zeros. */
  lemma AddFirst(reg: seq<bool>, m: seq<bool>, poly: seq<bool>)
    requires |reg| == |poly| == |m| > 0
    ensures FeedBits(XorBits(reg, m), Clear(|m|), poly) == FeedBits(reg, m, poly)
  {
    FeedLinear(reg, m, m, m, poly);
    SelfFeed(m, |m|, poly);
    assert m[..|m|] == m && m[|m|..] + Clear(|m|) == Clear(|m|);
    assert XorBits(m, m) == Clear(|m|);
    var f := FeedBits(reg, m, poly);
    assert XorBits(f, Clear(|m|)) == f;
  }

  // ---------------------------------------------------------------- polynomials over GF(2)

  /** The sum of two polynomials; the coefficient of x to the k is binary digit k. */
  function Xor(a: nat, b: nat): nat {
    if a == 0 && b == 0 then 0 else 2 * Xor(a / 2, b / 2) + if a % 2 != b % 2 then 1 else 0
  }

  function Digit(b: bool): nat { if b then 1 else 0 }

  lemma XorDigit(a: nat, s: bool, b: nat, t: bool)
    ensures Xor(2 * a + Digit(s), 2 * b + Digit(t)) == 2 * Xor(a, b) + Digit(s != t)
  {
    var x, y := 2 * a + Digit(s), 2 * b + Digit(t);
    assert x / 2 == a && y / 2 == b && x % 2 == Digit(s) && y % 2 == Digit(t);
  }

  lemma {:induction false} XorZero(a: nat)
    ensures Xor(a, 0) == a && Xor(0, a) == a
  {
    if a > 0 { XorZero(a / 2); }
  }

  lemma {:induction false} XorSelf(a: nat)
    ensures Xor(a, a) == 0
  {
    if a > 0 { XorSelf(a / 2); }
  }

  lemma {:induction false} XorSymmetric(a: nat, b: nat)
    ensures Xor(a, b) == Xor(b, a)
  {
    if a > 0 || b > 0 { XorSymmetric(a / 2, b / 2); }
  }

  lemma {:induction false} XorAssociative(a: nat, b: nat, c: nat)
    ensures Xor(Xor(a, b), c) == Xor(a, Xor(b, c))
    decreases a + b + c
  {
    if a > 0 || b > 0 || c > 0 {
      XorAssociative(a / 2, b / 2, c / 2);
      AssociativeStep(a / 2, a % 2 == 1, b / 2, b % 2 == 1, c / 2, c % 2 == 1);
    }
  }

  lemma AssociativeStep(a: nat, s: bool, b: nat, t: bool, c: nat, u: bool)
    requires Xor(Xor(a, b), c) == Xor(a, Xor(b, c))
    ensures Xor(Xor(2 * a + Digit(s), 2 * b + Digit(t)), 2 * c + Digit(u))
            == Xor(2 * a + Digit(s), Xor(2 * b + Digit(t), 2 * c + Digit(u)))
  {
    XorDigit(a, s, b, t);
    XorDigit(b, t, c, u);
    XorDigit(Xor(a, b), s != t, c, u);
    XorDigit(a, s, Xor(b, c), t != u);
  }

  /** Two sums of two, regrouped. */
  lemma XorFour(a: nat, b: nat, c: nat, d: nat)
    ensures Xor(Xor(a, b), Xor(c, d)) == Xor(Xor(a, c), Xor(b, d))
  {
    XorAssociative(a, b, Xor(c, d));
    XorAssociative(b, c, d);
    XorSymmetric(b, c);
    XorAssociative(c, b, d);
    XorAssociative(a, c, Xor(b, d));
  }

  lemma {:induction false} XorNothing(a: nat, b: nat)
    requires Xor(a, b) == 0
    ensures a == b
  {
    if a > 0 || b > 0 { XorNothing(a / 2, b / 2); }
  }

  /** The sum of polynomials of degree less than n, and of one of degree n with one of less. */
  lemma {:induction false} XorBelow(a: nat, b: nat, n: nat)
    requires b < Pow2(n)
    ensures a < Pow2(n) ==> Xor(a, b) < Pow2(n)
    ensures Pow2(n) <= a < 2 * Pow2(n) ==> Pow2(n) <= Xor(a, b) < 2 * Pow2(n)
  {
    if n > 0 {
      XorBelow(a / 2, b / 2, n - 1);
    } else {
      XorZero(a);
    }
  }

  /** The product of two polynomials. */
  function Times(q: nat, g: nat): nat {
    if q == 0 then 0 else Xor(2 * Times(q / 2, g), if q % 2 == 1 then g else 0)
  }

  lemma TimesDigit(q: nat, t: bool, g: nat)
    ensures Times(2 * q + Digit(t), g) == Xor(2 * Times(q, g), if t then g else 0)
  {
    var x := 2 * q + Digit(t);
    assert x / 2 == q && x % 2 == Digit(t);
    if x == 0 { XorZero(0); }
  }

  lemma AddedTwice(a: nat, s: bool, b: nat, t: bool, g: nat)
    ensures Xor(Xor(2 * a, if s then g else 0), Xor(2 * b, if t then g else 0)) == Xor(2 * Xor(a, b), if s != t then g else 0)
  {
    XorDigit(a, false, b, false);
    XorFour(2 * a, if s then g else 0, 2 * b, if t then g else 0);
    TopDigits(s, t, g);
  }

  lemma {:induction false} TimesDistributes(p: nat, q: nat, g: nat)
    ensures Times(Xor(p, q), g) == Xor(Times(p, g), Times(q, g))
    decreases p + q
  {
    if p > 0 || q > 0 {
      var s, t := p % 2 == 1, q % 2 == 1;
      TimesDistributes(p / 2, q / 2, g);
      TimesDigits(p / 2, s, q / 2, t, g);
      assert p == 2 * (p / 2) + Digit(s) && q == 2 * (q / 2) + Digit(t);
    } else {
      XorZero(0);
    }
  }

  lemma TimesDigits(a: nat, s: bool, b: nat, t: bool, g: nat)
    requires Times(Xor(a, b), g) == Xor(Times(a, g), Times(b, g))
    ensures Times(Xor(2 * a + Digit(s), 2 * b + Digit(t)), g)
            == Xor(Times(2 * a + Digit(s), g), Times(2 * b + Digit(t), g))
  {
    TimesDigit(a, s, g);
    TimesDigit(b, t, g);
    XorDigit(a, s, b, t);
    TimesDigit(Xor(a, b), s != t, g);
    AddedTwice(Times(a, g), s, Times(b, g), t, g);
  }

  /** A multiple of a polynomial of degree w, other than zero, has at least that degree. */
  lemma {:induction false} TimesDegree(q: nat, g: nat, w: nat) returns (k: nat)
    requires q > 0 && Pow2(w) <= g < Pow2(w + 1)
    ensures Pow2(w + k) <= Times(q, g) < Pow2(w + k + 1)
  {
    TimesDigit(q / 2, q % 2 == 1, g);
    if q == 1 {
      k := 0;
      XorZero(g);
    } else {
      var j := TimesDegree(q / 2, g, w);
      k := j + 1;
      DegreeStep(Times(q / 2, g), if q % 2 == 1 then g else 0, w, j);
    }
  }

  lemma DegreeStep(a: nat, b: nat, w: nat, j: nat)
    requires Pow2(w + j) <= a < Pow2(w + j + 1) && b < Pow2(w + 1)
    ensures Pow2(w + j + 1) <= Xor(2 * a, b) < Pow2(w + j + 2)
  {
    Pow2Grows(w + 1, w + j + 1);
    XorBelow(2 * a, b, w + j + 1);
  }

  /** Quotient and remainder are unique. */
  lemma DivisionUnique(q: nat, r: nat, q': nat, r': nat, g: nat, w: nat)
    requires Pow2(w) <= g < Pow2(w + 1) && r < Pow2(w) && r' < Pow2(w)
    requires Xor(Times(q, g), r) == Xor(Times(q', g), r')
    ensures q == q' && r == r'
  {
    var d, e := Xor(q, q'), Xor(r, r');
    XorFour(Times(q, g), r, Times(q', g), r');
    XorSelf(Xor(Times(q, g), r));
    TimesDistributes(q, q', g);
    XorNothing(Times(d, g), e);
    XorBelow(r, r', w);
    if d > 0 {
      var k := TimesDegree(d, g, w);
      Pow2Grows(w, w + k);
      assert false;
    }
    XorNothing(q, q');
    XorNothing(r, r');
  }

  // ---------------------------------------------------------------- the register as a remainder

  lemma {:induction false} ValXor(a: seq<bool>, b: seq<bool>)
    requires |a| == |b|
    ensures Val(XorBits(a, b)) == Xor(Val(a), Val(b))
    decreases |a|
  {
    if a != [] {
      var n := |a| - 1;
      ValXor(a[..n], b[..n]);
      assert XorBits(a, b)[..n] == XorBits(a[..n], b[..n]);
      XorDigit(Val(a[..n]), a[n], Val(b[..n]), b[n]);
    }
  }

  /** The polynomial of the check, with its leading coefficient. */
  function Generator(poly: seq<bool>): (g: nat)
  {
    Pow2(|poly|) + Val(poly)
  }

  /** The dividend: the message times x to the width, plus the initial register times x to the
      length of the message. */
  function Dividend(init: seq<bool>, m: seq<bool>, w: nat): nat {
    Xor(ShiftedUp(Val(init), |m|), ShiftedUp(Val(m), w))
  }

  function Quotient(init: seq<bool>, m: seq<bool>, poly: seq<bool>): nat
    requires |init| == |poly| > 0
  {
    if m == [] then 0
    else 2 * Quotient(init, m[..|m| - 1], poly) + Digit(FeedBits(init, m[..|m| - 1], poly)[0] != m[|m| - 1])
  }

  lemma {:induction false} ShiftedUpXor(a: nat, b: nat, n: nat)
    ensures ShiftedUp(Xor(a, b), n) == Xor(ShiftedUp(a, n), ShiftedUp(b, n))
  {
    if n > 0 {
      ShiftedUpXor(a, b, n - 1);
      XorDigit(ShiftedUp(a, n - 1), false, ShiftedUp(b, n - 1), false);
    }
  }

  lemma {:induction false} ShiftedUpDouble(a: nat, n: nat)
    ensures ShiftedUp(2 * a, n) == 2 * ShiftedUp(a, n)
  {
    if n > 0 { ShiftedUpDouble(a, n - 1); }
  }

  /** One more message bit in the dividend. */
  lemma DividendStep(init: seq<bool>, m: seq<bool>, b: bool, w: nat)
    ensures Dividend(init, m + [b], w) == Xor(2 * Dividend(init, m, w), ShiftedUp(Digit(b), w))
  {
    var i, v := ShiftedUp(Val(init), |m|), ShiftedUp(Val(m), w);
    MessageStep(m, b, w);
    XorDigit(i, false, v, false);
    XorAssociative(2 * i, 2 * v, ShiftedUp(Digit(b), w));
  }

  lemma MessageStep(m: seq<bool>, b: bool, w: nat)
    ensures ShiftedUp(Val(m + [b]), w) == Xor(2 * ShiftedUp(Val(m), w), ShiftedUp(Digit(b), w))
  {
    assert (m + [b])[..|m|] == m;
    XorZero(Val(m));
    XorDigit(Val(m), false, 0, b);
    ShiftedUpXor(2 * Val(m), Digit(b), w);
    ShiftedUpDouble(Val(m), w);
  }

  lemma {:induction false} ShiftedOne(n: nat)
    ensures ShiftedUp(1, n) == Pow2(n)
  {
    if n > 0 { ShiftedOne(n - 1); }
  }

  lemma XorPow(a: nat, n: nat)
    requires a < Pow2(n)
    ensures Xor(Pow2(n), a) == Pow2(n) + a
    decreases n
  {
    if n == 0 {
      XorZero(1);
    } else {
      XorPow(a / 2, n - 1);
      XorDigit(Pow2(n - 1), false, a / 2, a % 2 == 1);
    }
  }

  /** The bits of a register that moves up, with the bit that drops out kept in front. */
  lemma ValMoved(reg: seq<bool>)
    requires |reg| > 0
    ensures 2 * Val(reg) == Xor(if reg[0] then Pow2(|reg|) else 0, Val(reg[1..] + [false]))
    ensures Val(reg[1..] + [false]) < Pow2(|reg|)
  {
    var s := reg + [false];
    assert s[..|reg|] == reg;
    ValTop(s);
    assert s[1..] == reg[1..] + [false];
    XorZero(Val(s[1..]));
    XorPow(Val(s[1..]), |reg|);
  }

  lemma StepIsShiftAndAdd(reg: seq<bool>, b: bool, poly: seq<bool>)
    requires |reg| == |poly| > 0
    ensures StepBits(reg, b, poly) == XorBits(reg[1..] + [false], if reg[0] != b then poly else Clear(|reg|))
  {
  }

  lemma StepValue(reg: seq<bool>, b: bool, poly: seq<bool>)
    requires |reg| == |poly| > 0
    ensures Val(StepBits(reg, b, poly)) == Xor(Val(reg[1..] + [false]), if reg[0] != b then Val(poly) else 0)
  {
    StepIsShiftAndAdd(reg, b, poly);
    ValXor(reg[1..] + [false], if reg[0] != b then poly else Clear(|reg|));
    ValClear(|reg|);
  }

  lemma GeneratorAdded(poly: seq<bool>, t: bool)
    ensures (if t then Generator(poly) else 0) == Xor(if t then Pow2(|poly|) else 0, if t then Val(poly) else 0)
  {
    ValBelow(poly);
    XorPow(Val(poly), |poly|);
    XorZero(0);
  }

  lemma TopDigits(a: bool, b: bool, p: nat)
    ensures Xor(if a then p else 0, if b then p else 0) == if a != b then p else 0
  {
    XorZero(0);
    XorZero(p);
    XorSelf(p);
  }

  lemma ShiftedDigit(b: bool, w: nat)
    ensures ShiftedUp(Digit(b), w) == if b then Pow2(w) else 0
  {
    ShiftedOne(w);
    ZeroShifted(w);
  }

  /** One step: twice the register, plus the message bit, less the generator if it was added. */
  lemma StepRemainder(reg: seq<bool>, b: bool, poly: seq<bool>)
    requires |reg| == |poly| > 0
    ensures Xor(2 * Val(reg), ShiftedUp(Digit(b), |poly|))
            == Xor(if reg[0] != b then Generator(poly) else 0, Val(StepBits(reg, b, poly)))
  {
    var t, p := reg[0] != b, Pow2(|poly|);
    ValMoved(reg);
    ShiftedDigit(b, |poly|);
    StepValue(reg, b, poly);
    GeneratorAdded(poly, t);
    TopDigits(reg[0], b, p);
    RemainderAlgebra(if reg[0] then p else 0, Val(reg[1..] + [false]), if b then p else 0, if t then p else 0,
                     if t then Val(poly) else 0);
  }

  lemma RemainderAlgebra(top: nat, moved: nat, bit: nat, lead: nat, added: nat)
    requires Xor(top, bit) == lead
    ensures Xor(Xor(top, moved), bit) == Xor(Xor(lead, added), Xor(moved, added))
  {
    XorFour(lead, added, moved, added);
    XorSelf(added);
    XorZero(Xor(lead, moved));
    XorAssociative(top, moved, bit);
    XorSymmetric(moved, bit);
    XorAssociative(top, bit, moved);
  }

  /** The register is the remainder of the dividend, and with DivisionUnique, the only one. */
  lemma {:induction false} CrcIsRemainder(init: seq<bool>, m: seq<bool>, poly: seq<bool>)
    requires |init| == |poly| > 0
    ensures Dividend(init, m, |poly|)
            == Xor(Times(Quotient(init, m, poly), Generator(poly)), Val(FeedBits(init, m, poly)))
    ensures Val(FeedBits(init, m, poly)) < Pow2(|poly|) <= Generator(poly) < Pow2(|poly| + 1)
    decreases |m|
  {
    ValBelow(FeedBits(init, m, poly));
    GeneratorDegree(poly);
    if m == [] {
      EmptyDividend(init, |poly|);
      assert Times(0, Generator(poly)) == 0;
    } else {
      var n, b := m[..|m| - 1], m[|m| - 1];
      CrcIsRemainder(init, n, poly);
      assert m == n + [b];
      RemainderStep(init, n, b, poly, Quotient(init, n, poly), FeedBits(init, n, poly));
    }
  }

  lemma GeneratorDegree(poly: seq<bool>)
    ensures Pow2(|poly|) <= Generator(poly) < Pow2(|poly| + 1)
  {
    ValBelow(poly);
  }

  lemma EmptyDividend(init: seq<bool>, w: nat)
    ensures Dividend(init, [], w) == Xor(0, Val(init))
  {
    ZeroShifted(w);
    XorZero(Val(init));
  }

  /** One more bit of the message: one more digit of the quotient. */
  lemma RemainderStep(init: seq<bool>, n: seq<bool>, b: bool, poly: seq<bool>, q: nat, reg: seq<bool>)
    requires |reg| == |poly| > 0 && Dividend(init, n, |poly|) == Xor(Times(q, Generator(poly)), Val(reg))
    ensures Dividend(init, n + [b], |poly|)
            == Xor(Times(2 * q + Digit(reg[0] != b), Generator(poly)), Val(StepBits(reg, b, poly)))
  {
    var w, g := |poly|, Generator(poly);
    DividendStep(init, n, b, w);
    StepRemainder(reg, b, poly);
    DivisionStep(Times(q, g), Val(reg), ShiftedUp(Digit(b), w), if reg[0] != b then g else 0, Val(StepBits(reg, b, poly)));
    TimesDigit(q, reg[0] != b, g);
  }

  lemma DivisionStep(product: nat, r: nat, bit: nat, added: nat, r': nat)
    requires Xor(2 * r, bit) == Xor(added, r')
    ensures Xor(2 * Xor(product, r), bit) == Xor(Xor(2 * product, added), r')
  {
    XorDigit(product, false, r, false);
    XorAssociative(2 * product, 2 * r, bit);
    XorAssociative(2 * product, added, r');
  }

  /** A message has check zero, from a register that starts at zero, exactly if, shifted up by the
      width, it is a multiple of the generator. */
  lemma ZeroCheckIff(m: seq<bool>, poly: seq<bool>)
    requires poly != []
    ensures FeedBits(Clear(|poly|), m, poly) == Clear(|poly|)
            <==> exists q: nat :: Times(q, Generator(poly)) == ShiftedUp(Val(m), |poly|)
  {
    var w, g := |poly|, Generator(poly);
    var reg, q := FeedBits(Clear(w), m, poly), Quotient(Clear(w), m, poly);
    CrcIsRemainder(Clear(w), m, poly);
    ValClear(w);
    ZeroShifted(|m|);
    XorZero(ShiftedUp(Val(m), w));
    XorZero(Times(q, g));
    if reg == Clear(w) {
      assert Times(q, g) == ShiftedUp(Val(m), w);
    }
    if exists q': nat :: Times(q', g) == ShiftedUp(Val(m), w) {
      var q': nat :| Times(q', g) == ShiftedUp(Val(m), w);
      XorZero(Times(q', g));
      DivisionUnique(q, Val(reg), q', 0, g, w);
      ValInjective(reg, Clear(w));
    }
  }

  lemma {:induction false} ValInjective(a: seq<bool>, b: seq<bool>)
    requires |a| == |b| && Val(a) == Val(b)
    ensures a == b
    decreases |a|
  {
    if a != [] {
      var n := |a| - 1;
      ValInjective(a[..n], b[..n]);
      assert a == a[..n] + [a[n]] && b == b[..n] + [b[n]];
    }
  }
}
