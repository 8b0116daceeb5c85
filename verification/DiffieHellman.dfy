/**
 * Diffie-Hellman key exchange modulo the largest 64-bit prime (lua-crypt.c). The source computes in uint64_t:
 * every sum and product below is cut to 64 bits as there.
 */
module DiffieHellman {
  import opened Wrappers

  const P := 0xffff_ffff_ffff_ffc5
  const G := 5
  const WORD := 0x1_0000_0000_0000_0000

  type Word = x: int | 0 <= x < WORD

  // Products and residues, named so that proofs can keep them closed.
  function Times(a: int, b: int): int { a * b }

  function Mod(x: int): (r: int)
    ensures 0 <= r < P
  {
    x % P
  }

  function Power(a: int, b: nat): int {
    if b == 0 then 1 else Times(a, Power(a, b - 1))
  }

  // --- Congruence ---

  lemma Multiple(x: int, k: int)
    ensures Mod(x + k * P) == Mod(x)
  {
  }

  lemma Quotient(x: int) returns (q: int)
    ensures x == q * P + Mod(x)
  {
    q := x / P;
  }

  lemma Small(x: int)
    requires 0 <= x < P
    ensures Mod(x) == x
  {
  }

  lemma Commute(a: int, b: int)
    ensures Times(a, b) == Times(b, a)
  {
  }

  lemma Associate(a: int, b: int, c: int)
    ensures Times(a, Times(b, c)) == Times(Times(a, b), c)
  {
    assert a * (b * c) == (a * b) * c;
  }

  lemma Distribute(q: int, r: int, b: int)
    ensures Times(q * P + r, b) == Times(q, b) * P + Times(r, b)
  {
  }

  lemma MulMod(a: int, b: int)
    ensures Mod(Times(Mod(a), b)) == Mod(Times(a, b))
  {
    var q := Quotient(a);
    Distribute(q, Mod(a), b);
    hide Times, Mod;
    Multiple(Times(Mod(a), b), Times(q, b));
  }

  lemma MulModBoth(a: int, b: int)
    ensures Mod(Times(Mod(a), Mod(b))) == Mod(Times(a, b))
  {
    hide Times, Mod;
    MulMod(a, Mod(b));
    Commute(a, Mod(b));
    MulMod(b, a);
    Commute(b, a);
  }

  lemma {:induction false} PowerMod(a: int, b: nat)
    ensures Mod(Power(Mod(a), b)) == Mod(Power(a, b))
  {
    hide Times, Mod;
    if b > 0 {
      PowerMod(a, b - 1);
      MulMod(a, Power(Mod(a), b - 1));
      MulModBoth(a, Power(Mod(a), b - 1));
      MulModBoth(a, Power(a, b - 1));
    }
  }

  lemma {:induction false} PowerAdd(a: int, b: nat, c: nat)
    ensures Power(a, b + c) == Times(Power(a, b), Power(a, c))
  {
    if b == 0 {
      assert Times(1, Power(a, c)) == Power(a, c);
    } else {
      PowerAdd(a, b - 1, c);
      hide Times;
      Associate(a, Power(a, b - 1), Power(a, c));
    }
  }

  lemma {:induction false} PowerMul(a: int, b: nat, c: nat)
    ensures Power(Power(a, b), c) == Power(a, b * c)
  {
    if c > 0 {
      PowerMul(a, b, c - 1);
      assert b + b * (c - 1) == b * c && b * (c - 1) >= 0;
      hide Times;
      PowerAdd(a, b, b * (c - 1));
    }
  }

  lemma PowerOne(a: int)
    ensures Power(a, 1) == a
  {
    assert Power(a, 1) == Times(a, Power(a, 0));
  }

  // --- Multiplication by doubling ---

  // One round of the loop, from multiplier b on: a is doubled, and added to m when b is odd; both may be
  // reduced by P. What is still to be computed stays the same.
  lemma OneStep(a: int, b: nat, m: int, a': int, m': int, j: int, k: int)
    requires a' == 2 * a - j * P && m' == (if b % 2 == 1 then m + a else m) - k * P
    ensures Mod(m' + Times(a', b / 2)) == Mod(m + Times(a, b))
  {
    var h := b / 2;
    Distribute(-j, 2 * a, h);
    Halves(a, b);
    hide Times, Mod;
    Multiple(m + Times(a, b), Times(-j, h) - k);
  }

  lemma Halves(a: int, b: nat)
    ensures Times(a, b) == Times(2 * a, b / 2) + (if b % 2 == 1 then a else 0)
  {
    var h := b / 2;
    assert b == 2 * h + b % 2;
    assert a * (2 * h) == (2 * a) * h;
    assert a * (2 * h + b % 2) == a * (2 * h) + a * (b % 2);
  }

  // In 64 bits, doubling and subtracting P give the right word even when doubling alone overflows.
  lemma Doubled(a: Word)
    requires a <= P
    ensures (if P - a <= a then (a * 2 % WORD - P) % WORD else a * 2 % WORD) == (if P - a <= a then 2 * a - P else 2 * a)
  {
    if WORD <= 2 * a {
      assert a * 2 % WORD == 2 * a - WORD;
      assert (2 * a - WORD - P) % WORD == 2 * a - P;
    } else {
      assert a * 2 % WORD == 2 * a;
    }
  }

  // mul_mod_p
  method MulModP(a0: Word, b0: Word) returns (m: Word)
    requires a0 <= P
    ensures m == Mod(Times(a0, b0))
  {
    hide Times, Mod;
    var a: Word, b: Word := a0, b0;
    m := 0;
    while b != 0
      invariant a <= P && m < P
      invariant Mod(m + Times(a, b)) == Mod(Times(a0, b0))
      decreases b
    {
      ghost var a1, m1, j, k := a, m, 0, 0;
      if b % 2 == 1 {
        var t := P - a;
        if t <= m {
          m := m - t;
          k := 1;
        } else {
          m := (m + a) % WORD;
        }
      }
      Doubled(a);
      if P - a <= a {
        a := (a * 2 % WORD - P) % WORD;
        j := 1;
      } else {
        a := a * 2 % WORD;
      }
      OneStep(a1, b, m1, a, m, j, k);
      b := b / 2;
    }
    assert Times(a, 0) == 0 by { TimesZero(a); }
    Small(m);
  }

  lemma TimesZero(a: int)
    ensures Times(a, 0) == 0
  {
  }

  // Squaring halves the exponent.
  lemma SquareStep(a: int, b: nat, r: int)
    requires b >= 2 && Mod(r) == Mod(Power(a, b / 2))
    ensures var t := Mod(Times(r, r));
            Mod(if b % 2 == 1 then Times(t, a) else t) == Mod(Power(a, b))
  {
    hide Times, Mod;
    var half := Power(a, b / 2);
    MulModBoth(r, r);
    MulModBoth(half, half);
    PowerAdd(a, b / 2, b / 2);
    MulMod(Times(r, r), a);
    MulMod(Times(half, half), a);
    Commute(Times(half, half), a);
    ModMod(Times(r, r));
    if b % 2 == 1 {
      assert b - 1 == b / 2 + b / 2;
    } else {
      assert b == b / 2 + b / 2;
    }
  }

  lemma ModMod(x: int)
    ensures Mod(Mod(x)) == Mod(x)
  {
  }

  // pow_mod_p: square and multiply down to exponent 1, whose result is the base as it stands.
  method PowModP(a: Word, b: Word) returns (t: Word)
    requires a <= P && b != 0
    ensures Mod(t) == Mod(Power(a, b))
    ensures if b == 1 then t == a else t < P
    decreases b
  {
    hide Times, Mod;
    if b == 1 {
      PowerOne(a);
      return a;
    }
    var r := PowModP(a, b / 2);
    SquareStep(a, b, r);
    t := MulModP(r, r);
    if b % 2 == 1 {
      t := MulModP(t, a);
      ModMod(Times(Mod(Times(r, r)), a));
    }
  }

  // powmodp reduces a base above P, but not P itself. So the result is the power modulo P exactly unless the
  // base is P and the exponent 1.
  method PowModp(a0: Word, b: Word) returns (r: Word)
    requires b != 0
    ensures r == Mod(Power(a0, b)) <==> !(a0 == P && b == 1)
  {
    var a: Word := if a0 > P then a0 % P else a0;
    assert a0 > P ==> a == Mod(a0);
    assert Mod(P) == 0;
    hide Times, Mod;
    if a0 > P { PowerMod(a0, b); }
    PowerOne(a0);
    r := PowModP(a, b);
    if r < P { Small(r); }
  }

  // ldhexchange: the public value of a secret.
  method Exchange(x: Word) returns (r: Option<Word>)
    ensures r == if x == 0 then None else Some(Mod(Power(G, x)))
  {
    if x == 0 {
      return None;
    }
    var v := PowModp(G, x);
    r := Some(v);
  }

  // ldhsecret: the shared secret from the other side's public value and one's own secret.
  method Secret(x: Word, y: Word) returns (r: Option<Word>)
    ensures r == None <==> x == 0 || y == 0
    ensures r != None ==> (r == Some(Mod(Power(x, y))) <==> !(x == P && y == 1))
  {
    if x == 0 || y == 0 {
      return None;
    }
    var v := PowModp(x, y);
    r := Some(v);
  }

  // 5 times this number is 1 modulo P.
  const INVERSE := (2 * P + 1) / 5

  lemma Cancel(p: int)
    ensures Mod(Times(G, p)) == 0 ==> Mod(p) == 0
  {
    assert G * INVERSE == 2 * P + 1;
    if Mod(Times(G, p)) == 0 {
      var q := Quotient(Times(G, p));
      assert 5 * p == q * P;
      assert p == (q * INVERSE - 2 * p) * P;
      Multiple(0, q * INVERSE - 2 * p);
    }
  }

  // No public value is 0.
  lemma {:induction false} NeverZero(x: nat)
    ensures Mod(Power(G, x)) != 0
  {
    if x > 0 {
      NeverZero(x - 1);
      Cancel(Power(G, x - 1));
    }
  }

  lemma SecretPower(x: nat, y: nat)
    ensures Mod(Power(Mod(Power(G, x)), y)) == Mod(Power(G, x * y))
  {
    hide Mod, Power, Times;
    PowerMod(Power(G, x), y);
    PowerMul(G, x, y);
  }

  // Each side publishes its value and combines the other's with its own secret: neither step is refused, and
  // both arrive at 5^(xy) mod P.
  method Handshake(x: Word, y: Word) returns (mine: Option<Word>, theirs: Option<Word>)
    requires x != 0 && y != 0
    ensures x * y >= 0 && mine == theirs == Some(Mod(Power(G, x * y)))
  {
    hide Mod, Power, Times;
    var a := Exchange(x);
    var b := Exchange(y);
    NeverZero(x);
    NeverZero(y);
    SecretPower(x, y);
    SecretPower(y, x);
    assert x * y == y * x;
    mine := Secret(b.value, x);
    theirs := Secret(a.value, y);
  }
}
