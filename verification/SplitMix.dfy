/** The SplitMix64 generator behind the bootstrap, on plain non-negative integers. */
module SplitMix {

  const WORD := 0x1_0000_0000_0000_0000
  const GAMMA := 0x9E37_79B9_7F4A_7C15
  const FACTOR_A := 0xBF58_476D_1CE4_E5B9
  const FACTOR_B := 0x94D0_49BB_1331_11EB

  const SHIFT_A: nat := 30
  const SHIFT_B: nat := 27
  const SHIFT_C: nat := 31

  // Inverses modulo 2^64.
  const GAMMA_INVERSE := 0xF1DE_83E1_9937_733D
  const FACTOR_A_INVERSE := 0x96DE_1B17_3F11_9089
  const FACTOR_B_INVERSE := 0x3196_42B2_D24D_8EC3

  function Pow2(k: nat): (p: nat)
    ensures p > 0
  {
    if k == 0 then 1 else 2 * Pow2(k - 1)
  }

  /** Bitwise exclusive or. */
  function Xor(a: nat, b: nat): nat {
    if a == 0 && b == 0 then 0 else (a + b) % 2 + 2 * Xor(a / 2, b / 2)
  }

  function ShiftRight(x: nat, s: nat): nat { if s == 0 then x else ShiftRight(x / 2, s - 1) }

  function XorShift(x: nat, s: nat): nat { Xor(x, ShiftRight(x, s)) }

  /** `_next_u64`: the next state and the output. */
  function Next(state: nat): (nat, nat) { (NextState(state), Mix(NextState(state))) }

  function NextState(state: nat): nat { (state + GAMMA) % WORD }

  function Mix(s: nat): nat {
    var a := XorShift(s, SHIFT_A) * FACTOR_A % WORD;
    var b := XorShift(a, SHIFT_B) * FACTOR_B % WORD;
    XorShift(b, SHIFT_C)
  }

  // ---- Xor-shift ----

  lemma {:induction false} XorHalves(a: nat, b: nat)
    ensures Xor(a, b) % 2 == (a + b) % 2 && Xor(a, b) / 2 == Xor(a / 2, b / 2)
  {
    if a == 0 && b == 0 {
      assert Xor(0, 0) == 0;
    } else {
      var low, high := (a + b) % 2, Xor(a / 2, b / 2);
      assert Xor(a, b) == low + 2 * high;
    }
  }

  lemma {:induction false} XorBound(a: nat, b: nat, k: nat)
    requires a < Pow2(k) && b < Pow2(k)
    ensures Xor(a, b) < Pow2(k)
  {
    if k > 0 { XorBound(a / 2, b / 2, k - 1); }
  }

  lemma {:induction false} ShiftHalves(x: nat, s: nat)
    ensures ShiftRight(x, s) / 2 == ShiftRight(x / 2, s) && ShiftRight(x, s) <= x
  {
    if s > 0 { ShiftHalves(x / 2, s - 1); }
  }

  lemma {:induction false} XorShiftHalves(x: nat, s: nat)
    ensures XorShift(x, s) / 2 == XorShift(x / 2, s)
    ensures XorShift(x, s) % 2 == (x + ShiftRight(x, s)) % 2
  {
    XorHalves(x, ShiftRight(x, s));
    ShiftHalves(x, s);
  }

  lemma SameLowBit(x: nat, y: nat, z: nat)
    requires x / 2 == y / 2 && (x + z) % 2 == (y + z) % 2
    ensures x == y
  {
  }

  /** A xor-shift by at least one bit loses nothing. */
  lemma {:induction false} XorShiftInjective(x: nat, y: nat, s: nat)
    requires s >= 1 && XorShift(x, s) == XorShift(y, s)
    ensures x == y
    decreases x + y
  {
    if x == 0 && y == 0 {
      // done
    } else {
      XorShiftHalves(x, s);
      XorShiftHalves(y, s);
      XorShiftInjective(x / 2, y / 2, s);
      assert ShiftRight(x, s) == ShiftRight(x / 2, s - 1);
      assert ShiftRight(y, s) == ShiftRight(y / 2, s - 1);
      SameLowBit(x, y, ShiftRight(x, s));
    }
  }

  lemma XorShiftBound(x: nat, s: nat)
    requires x < WORD
    ensures XorShift(x, s) < WORD
  {
    WordIsPow2();
    ShiftHalves(x, s);
    XorBound(x, ShiftRight(x, s), 64);
  }

  lemma {:induction false} Pow2Adds(a: nat, b: nat)
    ensures Pow2(a + b) == Pow2(a) * Pow2(b)
  {
    if a > 0 { Pow2Adds(a - 1, b); }
  }

  lemma WordIsPow2()
    ensures Pow2(64) == WORD
  {
    assert Pow2(8) == 256 by {
      assert Pow2(0) == 1;
      assert Pow2(2) == 4;
      assert Pow2(4) == 16;
      assert Pow2(6) == 64;
    }
    Pow2Adds(8, 8);
    Pow2Adds(16, 16);
    Pow2Adds(32, 32);
  }

  // ---- Multiplication by an odd factor ----

  lemma ReduceFactor(a: nat, b: nat)
    ensures (a % WORD) * b % WORD == a * b % WORD
  {
    var q, r := a / WORD, a % WORD;
    assert a == WORD * q + r;
    assert a * b == WORD * (q * b) + r * b;
    DropMultiple(r * b, q * b);
  }

  lemma DropMultiple(x: nat, k: nat)
    ensures (x + WORD * k) % WORD == x % WORD
  {
  }

  lemma MultiplyBack(x: nat, factor: nat, inverse: nat, k: nat)
    requires x < WORD && factor * inverse == 1 + WORD * k
    ensures (x * factor % WORD) * inverse % WORD == x
  {
    ReduceFactor(x * factor, inverse);
    Associate(x, factor, inverse);
    Distribute(x, k);
    DropMultiple(x, x * k);
  }

  lemma Associate(x: nat, y: nat, z: nat)
    ensures x * y * z == x * (y * z)
  {
  }

  lemma Distribute(x: nat, k: nat)
    ensures x * (1 + WORD * k) == x + WORD * (x * k)
  {
  }

  lemma MultiplyInjective(x: nat, y: nat, factor: nat, inverse: nat, k: nat)
    requires x < WORD && y < WORD && factor * inverse == 1 + WORD * k
    requires x * factor % WORD == y * factor % WORD
    ensures x == y
  {
    MultiplyBack(x, factor, inverse, k);
    MultiplyBack(y, factor, inverse, k);
  }

  lemma Inverses()
    ensures FACTOR_A * FACTOR_A_INVERSE == 1 + WORD * 0x70C3_BCA7_8F27_F46C
    ensures FACTOR_B * FACTOR_B_INVERSE == 1 + WORD * 0x1CD3_36ED_A85F_1453
    ensures GAMMA * GAMMA_INVERSE == 1 + WORD * 0x957B_BF35_006E_D677
  {
  }

  // ---- The generator ----

  lemma MixBound(s: nat)
    requires s < WORD
    ensures Mix(s) < WORD
  {
    XorShiftBound(XorShift(XorShift(s, SHIFT_A) * FACTOR_A % WORD, SHIFT_B) * FACTOR_B % WORD, SHIFT_C);
  }

  /** The mixing step never maps two words to one. */
  lemma MixInjective(s: nat, t: nat)
    requires s < WORD && t < WORD
    ensures Mix(s) == Mix(t) ==> s == t
  {
    if Mix(s) == Mix(t) {
      Inverses();
      var a, a' := XorShift(s, SHIFT_A) * FACTOR_A % WORD, XorShift(t, SHIFT_A) * FACTOR_A % WORD;
      var b, b' := XorShift(a, SHIFT_B) * FACTOR_B % WORD, XorShift(a', SHIFT_B) * FACTOR_B % WORD;
      XorShiftInjective(b, b', SHIFT_C);
      XorShiftBound(a, SHIFT_B);
      XorShiftBound(a', SHIFT_B);
      MultiplyInjective(XorShift(a, SHIFT_B), XorShift(a', SHIFT_B), FACTOR_B, FACTOR_B_INVERSE, 0x1CD3_36ED_A85F_1453);
      XorShiftInjective(a, a', SHIFT_B);
      XorShiftBound(s, SHIFT_A);
      XorShiftBound(t, SHIFT_A);
      MultiplyInjective(XorShift(s, SHIFT_A), XorShift(t, SHIFT_A), FACTOR_A, FACTOR_A_INVERSE, 0x70C3_BCA7_8F27_F46C);
      XorShiftInjective(s, t, SHIFT_A);
    }
  }

  // ---- Undoing the mixer ----

  lemma {:induction false} XorCommutes(a: nat, b: nat)
    ensures Xor(a, b) == Xor(b, a)
    decreases a + b
  {
    if a != 0 || b != 0 {
      XorCommutes(a / 2, b / 2);
    }
  }

  lemma SameHalves(x: nat, y: nat)
    requires x / 2 == y / 2 && x % 2 == y % 2
    ensures x == y
  {
  }

  lemma SameParity(x: nat, y: nat, c: nat)
    requires x % 2 == y % 2
    ensures (x + c) % 2 == (y + c) % 2
  {
  }

  /** The low bit of a double xor, whichever way it is grouped, and its other bits. */
  lemma {:induction false} XorLeft(a: nat, b: nat, c: nat)
    ensures Xor(Xor(a, b), c) % 2 == (a + b + c) % 2
    ensures Xor(Xor(a, b), c) / 2 == Xor(Xor(a / 2, b / 2), c / 2)
  {
    XorHalves(a, b);
    XorHalves(Xor(a, b), c);
    SameParity(Xor(a, b), a + b, c);
  }

  lemma {:induction false} XorRight(a: nat, b: nat, c: nat)
    ensures Xor(a, Xor(b, c)) % 2 == (a + b + c) % 2
    ensures Xor(a, Xor(b, c)) / 2 == Xor(a / 2, Xor(b / 2, c / 2))
  {
    XorHalves(b, c);
    XorHalves(a, Xor(b, c));
    SameParity(Xor(b, c), b + c, a);
  }

  lemma {:induction false} XorAssociates(a: nat, b: nat, c: nat)
    ensures Xor(Xor(a, b), c) == Xor(a, Xor(b, c))
    decreases a + b + c
  {
    if a != 0 || b != 0 || c != 0 {
      XorAssociates(a / 2, b / 2, c / 2);
      XorLeft(a, b, c);
      XorRight(a, b, c);
      SameHalves(Xor(Xor(a, b), c), Xor(a, Xor(b, c)));
    }
  }

  lemma {:induction false} XorSelf(a: nat)
    ensures Xor(a, a) == 0 && Xor(a, 0) == a
    decreases a
  {
    if a != 0 {
      XorSelf(a / 2);
      XorHalves(a, a);
      XorHalves(a, 0);
    }
  }

  lemma {:induction false} ShiftXor(a: nat, b: nat, s: nat)
    ensures ShiftRight(Xor(a, b), s) == Xor(ShiftRight(a, s), ShiftRight(b, s))
    decreases s
  {
    if s > 0 {
      XorHalves(a, b);
      ShiftXor(a / 2, b / 2, s - 1);
    }
  }

  lemma {:induction false} ShiftTwice(x: nat, s: nat, t: nat)
    ensures ShiftRight(ShiftRight(x, s), t) == ShiftRight(x, s + t)
    decreases s
  {
    if s > 0 {
      ShiftTwice(x / 2, s - 1, t);
    }
  }

  lemma {:induction false} ShiftOut(x: nat, s: nat)
    requires x < Pow2(s)
    ensures ShiftRight(x, s) == 0
    decreases s
  {
    if s > 0 {
      ShiftOut(x / 2, s - 1);
    }
  }

  lemma {:induction false} ShiftZero(s: nat)
    ensures ShiftRight(0, s) == 0
    decreases s
  {
    if s > 0 {
      ShiftZero(s - 1);
    }
  }

  /** Undo a xor-shift whose third multiple shifts a word out. */
  function UndoShift(y: nat, s: nat): nat { Xor(y, Xor(ShiftRight(y, s), ShiftRight(y, s + s))) }

  lemma Cancel(x: nat, a: nat, b: nat)
    ensures Xor(Xor(x, a), Xor(Xor(a, b), b)) == x
  {
    XorAssociates(a, b, b);
    XorSelf(b);
    XorSelf(a);
    XorAssociates(x, a, a);
    XorSelf(x);
  }

  lemma ShiftUndone(x: nat, s: nat)
    requires x < WORD && s + s + s >= 64
    ensures UndoShift(XorShift(x, s), s) == x
  {
    var a, b := ShiftRight(x, s), ShiftRight(x, s + s);
    WordIsPow2();
    ShiftXor(x, a, s);
    ShiftTwice(x, s, s);
    ShiftXor(x, a, s + s);
    ShiftTwice(x, s, s + s);
    GoneAfter(x, s + (s + s));
    XorSelf(b);
    Cancel(x, a, b);
  }

  lemma GoneAfter(x: nat, s: nat)
    requires x < Pow2(64) && s >= 64
    ensures ShiftRight(x, s) == 0
  {
    ShiftOut(x, 64);
    ShiftTwice(x, 64, s - 64);
    ShiftZero(s - 64);
  }

  const UNSHIFT_A: nat := 30
  const UNSHIFT_B: nat := 27
  const UNSHIFT_C: nat := 31

  /** The mixer backwards: its three xor-shifts, by 30, 27 and 31, and its two factors undone. */
  function Unmix(z: nat): nat {
    var b := UndoShift(z, UNSHIFT_C) * FACTOR_B_INVERSE % WORD;
    var a := UndoShift(b, UNSHIFT_B) * FACTOR_A_INVERSE % WORD;
    UndoShift(a, UNSHIFT_A)
  }

  /** Every mixed word gives back the word it was mixed from. */
  lemma MixUndone(s: nat)
    requires s < WORD
    ensures Unmix(Mix(s)) == s
  {
    Inverses();
    var a := XorShift(s, SHIFT_A) * FACTOR_A % WORD;
    var b := XorShift(a, SHIFT_B) * FACTOR_B % WORD;
    XorShiftBound(s, SHIFT_A);
    XorShiftBound(a, SHIFT_B);
    ShiftUndone(b, UNSHIFT_C);
    MultiplyBack(XorShift(a, SHIFT_B), FACTOR_B, FACTOR_B_INVERSE, 0x1CD3_36ED_A85F_1453);
    ShiftUndone(a, UNSHIFT_B);
    MultiplyBack(XorShift(s, SHIFT_A), FACTOR_A, FACTOR_A_INVERSE, 0x70C3_BCA7_8F27_F46C);
    ShiftUndone(s, UNSHIFT_A);
  }

  /** The state before draw `k` (counting from zero). */
  function StateAt(seed: nat, k: nat): nat {
    if k == 0 then seed else NextState(StateAt(seed, k - 1))
  }

  /** Draw number `k`. */
  function Draw(seed: nat, k: nat): nat { Next(StateAt(seed, k)).1 }

  lemma {:induction false} StateIsLinear(seed: nat, k: nat)
    requires seed < WORD
    ensures StateAt(seed, k) == (seed + k * GAMMA) % WORD
  {
    if k > 0 {
      StateIsLinear(seed, k - 1);
      var x := seed + (k - 1) * GAMMA;
      assert seed + k * GAMMA == x + GAMMA;
      AddMod(x);
    }
  }

  lemma AddMod(x: nat)
    ensures (x % WORD + GAMMA) % WORD == (x + GAMMA) % WORD
  {
    DropMultiple(x % WORD + GAMMA, x / WORD);
  }

  lemma ModDifference(a: nat, d: nat)
    requires (a + d) % WORD == a % WORD
    ensures d % WORD == 0
  {
  }

  /** Two states agree only after a whole number of periods. */
  lemma StatesDiffer(seed: nat, i: nat, j: nat)
    requires seed < WORD && i < j < i + WORD
    ensures StateAt(seed, i) != StateAt(seed, j)
  {
    StateIsLinear(seed, i);
    StateIsLinear(seed, j);
    var a, d := seed + i * GAMMA, j - i;
    assert seed + j * GAMMA == a + d * GAMMA;
    StepsNeverCancel(d);
    if (a + d * GAMMA) % WORD == a % WORD {
      ModDifference(a, d * GAMMA);
    }
  }

  lemma StepsNeverCancel(d: nat)
    requires 0 < d < WORD
    ensures d * GAMMA % WORD != 0
  {
    Inverses();
    MultiplyBack(d, GAMMA, GAMMA_INVERSE, 0x957B_BF35_006E_D677);
  }

  /** No output repeats within 2^64 consecutive draws, from any seed. */
  lemma NoDrawRepeats(seed: nat, i: nat, j: nat)
    requires seed < WORD && i < j < i + WORD
    ensures Draw(seed, i) != Draw(seed, j)
  {
    StatesDiffer(seed, i + 1, j + 1);
    StateIsLinear(seed, i + 1);
    StateIsLinear(seed, j + 1);
    if Draw(seed, i) == Draw(seed, j) {
      MixInjective(StateAt(seed, i + 1), StateAt(seed, j + 1));
    }
  }

  // ---- Pigeonhole: within a period every word is drawn ----

  ghost function Drawn(seed: nat, from: nat, n: nat): set<nat> {
    set k | from <= k < from + n :: Draw(seed, k)
  }

  lemma DrawBound(seed: nat, k: nat)
    ensures Draw(seed, k) < WORD
  {
    MixBound((StateAt(seed, k) + GAMMA) % WORD);
  }

  lemma {:induction false} DrawnCount(seed: nat, from: nat, n: nat)
    requires seed < WORD && n <= WORD
    ensures |Drawn(seed, from, n)| == n
  {
    if n == 0 {
      assert Drawn(seed, from, 0) == {};
    } else {
      DrawnCount(seed, from, n - 1);
      DrawnOneMore(seed, from, n);
    }
  }

  lemma DrawnOneMore(seed: nat, from: nat, n: nat)
    requires seed < WORD && 0 < n <= WORD
    ensures var w := Draw(seed, from + n - 1);
            w !in Drawn(seed, from, n - 1) && Drawn(seed, from, n) == Drawn(seed, from, n - 1) + {w}
  {
    var last := from + n - 1;
    var before := Drawn(seed, from, n - 1);
    forall x | x in before ensures x != Draw(seed, last) {
      var k :| from <= k < last && Draw(seed, k) == x;
      NoDrawRepeats(seed, k, last);
    }
    forall x | x in Drawn(seed, from, n) ensures x in before + {Draw(seed, last)} {
      var k :| from <= k < from + n && Draw(seed, k) == x;
    }
  }

  ghost function Below(n: nat): (s: set<nat>)
    ensures |s| == n && forall k: nat :: k in s <==> k < n
  {
    if n == 0 then {} else Below(n - 1) + {n - 1}
  }

  lemma SubsetCount(a: set<nat>, b: set<nat>)
    requires a <= b && |a| == |b|
    ensures a == b
  {
    if a != b {
      var x :| x in b && x !in a;
      SubsetSize(a, b - {x});
      assert false;
    }
  }

  lemma {:induction false} SubsetSize(a: set<nat>, b: set<nat>)
    requires a <= b
    ensures |a| <= |b|
  {
    if a != {} {
      var x :| x in a;
      SubsetSize(a - {x}, b - {x});
    }
  }

  lemma DrawnIsEverything(seed: nat, from: nat, n: nat)
    requires seed < WORD && n == WORD
    ensures Drawn(seed, from, n) == Below(n)
  {
    DrawnCount(seed, from, n);
    forall x | x in Drawn(seed, from, n) ensures x in Below(n) {
      var k :| from <= k < from + n && Draw(seed, k) == x;
      DrawBound(seed, k);
    }
    SubsetCount(Drawn(seed, from, n), Below(n));
  }

  lemma DrawnSomewhere(seed: nat, from: nat, w: nat, n: nat) returns (k: nat)
    requires seed < WORD && w < n == WORD
    ensures from <= k < from + n && Draw(seed, k) == w
  {
    assert w in Drawn(seed, from, n) by { DrawnIsEverything(seed, from, n); }
    k :| from <= k < from + n && Draw(seed, k) == w;
  }

  /** SplitMix64 has full period: any 2^64 consecutive draws are a permutation of all words. */
  lemma EveryWordIsDrawnOnce(seed: nat, from: nat, w: nat)
    requires seed < WORD && w < WORD
    ensures exists k :: from <= k < from + WORD && Draw(seed, k) == w
    ensures forall i, j :: from <= i < j < from + WORD ==> Draw(seed, i) != Draw(seed, j)
  {
    var k := DrawnSomewhere(seed, from, w, WORD);
    forall i, j | from <= i < j < from + WORD ensures Draw(seed, i) != Draw(seed, j) { NoDrawRepeats(seed, i, j); }
  }
}
