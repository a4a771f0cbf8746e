/** The lane complement optimization (src/keccak.c:1011-1096, 1534-1542).

    The state is kept with six lanes inverted, which spares most of chi's complements. Theta, rho and
    pi only move the inversions around, because they are linear; this module says where to. Three
    masks matter: the one at rest between rounds, the one after theta, and the one chi is given. */
module KeccakMask {
  import opened KeccakSpec

  /** Which lanes are inverted, at index 5x + y. */
  type Mask = s: seq<bool> | |s| == 25 witness seq(25, _ => false)

  function Inv(a: Lane, c: bool): Lane {
    if c then Not(a) else a
  }

  function Flip(a: Lanes, m: Mask): Lanes {
    seq(25, k requires 0 <= k < 25 => Inv(a[k], m[k]))
  }

  function Marked(p: nat -> bool): Mask {
    seq(25, k requires 0 <= k < 25 => p(k))
  }

  /** a04 a10 a20 a22 a23 a31: inverted between rounds. */
  predicate Resting(k: nat) {
    k == 4 || k == 5 || k == 10 || k == 12 || k == 13 || k == 16
  }

  /** a00 a01 a02 a03 a10 a20 a22 a23 a30 a32 a33 a34: inverted after theta. */
  predicate AfterTheta(k: nat) {
    k == 0 || k == 1 || k == 2 || k == 3 || k == 5 || k == 10 || k == 12 || k == 13 || k == 15 || k == 17 ||
    k == 18 || k == 19
  }

  /** a00 a01 a02 a04 a13 a20 a21 a22 a30 a33 a34 a43: inverted when the chi macro starts. */
  predicate Entering(k: nat) {
    k == 0 || k == 1 || k == 2 || k == 4 || k == 8 || k == 10 || k == 11 || k == 12 || k == 15 || k == 18 ||
    k == 19 || k == 23
  }

  // ---------- Lane identities ----------

  lemma InvTwice(a: Lane, c: bool)
    ensures Inv(Inv(a, c), c) == a
  {
  }

  lemma XorInv(a: Lane, c: bool, b: Lane, d: bool)
    ensures Xor(Inv(a, c), Inv(b, d)) == Inv(Xor(a, b), c != d)
  {
  }

  lemma RolInv(a: Lane, c: bool, n: nat)
    requires n < 64
    ensures Rol(Inv(a, c), n) == Inv(Rol(a, n), c)
  {
  }

  // ---------- The mask through theta, rho and pi ----------

  function MaskAt(m: Mask, x: nat, y: nat): bool {
    m[5 * (x % 5) + y % 5]
  }

  function Parity(m: Mask, x: nat): bool {
    (((MaskAt(m, x, 0) != MaskAt(m, x, 1)) != MaskAt(m, x, 2)) != MaskAt(m, x, 3)) != MaskAt(m, x, 4)
  }

  /** What theta makes of a mask, being linear. */
  function ThetaMask(m: Mask): Mask {
    seq(25, k requires 0 <= k < 25 => m[k] != (Parity(m, k / 5 + 4) != Parity(m, k / 5 + 1)))
  }

  function PiMask(m: Mask): Mask {
    seq(25, k requires 0 <= k < 25 => MaskAt(m, k / 5 + 3 * (k % 5), k / 5))
  }

  lemma AtFlip(a: Lanes, m: Mask, x: nat, y: nat)
    ensures At(Flip(a, m), x, y) == Inv(At(a, x, y), MaskAt(m, x, y))
  {
  }

  lemma ColumnFlip(a: Lanes, m: Mask, x: nat)
    ensures Column(Flip(a, m), x) == Inv(Column(a, x), Parity(m, x))
  {
    hide Xor, Inv, At, MaskAt, Flip;
    AtFlip(a, m, x, 0);
    AtFlip(a, m, x, 1);
    AtFlip(a, m, x, 2);
    AtFlip(a, m, x, 3);
    AtFlip(a, m, x, 4);
    var a01 := Xor(At(a, x, 0), At(a, x, 1));
    var m01 := MaskAt(m, x, 0) != MaskAt(m, x, 1);
    XorInv(At(a, x, 0), MaskAt(m, x, 0), At(a, x, 1), MaskAt(m, x, 1));
    XorInv(a01, m01, At(a, x, 2), MaskAt(m, x, 2));
    XorInv(Xor(a01, At(a, x, 2)), m01 != MaskAt(m, x, 2), At(a, x, 3), MaskAt(m, x, 3));
    XorInv(Xor(Xor(a01, At(a, x, 2)), At(a, x, 3)), (m01 != MaskAt(m, x, 2)) != MaskAt(m, x, 3),
      At(a, x, 4), MaskAt(m, x, 4));
  }

  lemma EffectFlip(a: Lanes, m: Mask, x: nat)
    ensures Effect(Flip(a, m), x) == Inv(Effect(a, x), Parity(m, x + 4) != Parity(m, x + 1))
  {
    hide Xor, Inv, Column, Parity, Rol, Flip;
    ColumnFlip(a, m, x + 4);
    ColumnFlip(a, m, x + 1);
    RolInv(Column(a, x + 1), Parity(m, x + 1), 1);
    XorInv(Column(a, x + 4), Parity(m, x + 4), Rol(Column(a, x + 1), 1), Parity(m, x + 1));
  }

  lemma ThetaFlip(a: Lanes, m: Mask)
    ensures Theta(Flip(a, m)) == Flip(Theta(a), ThetaMask(m))
  {
    hide Effect, Xor, Inv, Parity;
    forall k | 0 <= k < 25
      ensures Theta(Flip(a, m))[k] == Flip(Theta(a), ThetaMask(m))[k]
    {
      EffectFlip(a, m, k / 5);
      XorInv(a[k], m[k], Effect(a, k / 5), Parity(m, k / 5 + 4) != Parity(m, k / 5 + 1));
    }
  }

  lemma RhoFlip(a: Lanes, m: Mask)
    ensures Rho(Flip(a, m)) == Flip(Rho(a), m)
  {
    hide Rol, Inv;
    forall k | 0 <= k < 25
      ensures Rho(Flip(a, m))[k] == Flip(Rho(a), m)[k]
    {
      RolInv(a[k], m[k], Offset(k));
    }
  }

  lemma PiFlip(a: Lanes, m: Mask)
    ensures Pi(Flip(a, m)) == Flip(Pi(a), PiMask(m))
  {
    hide Inv;
  }

  lemma FlipTwice(a: Lanes, m: Mask)
    ensures Flip(Flip(a, m), m) == a
  {
    hide Inv;
    forall k | 0 <= k < 25
      ensures Flip(Flip(a, m), m)[k] == a[k]
    {
      InvTwice(a[k], m[k]);
    }
  }

  lemma RestingParity(x: nat)
    ensures Parity(Marked(Resting), x) == (x % 5 != 4)
  {
    var m := Marked(Resting);
    assert MaskAt(m, x, 0) == Resting(5 * (x % 5));
    assert MaskAt(m, x, 1) == Resting(5 * (x % 5) + 1);
    assert MaskAt(m, x, 2) == Resting(5 * (x % 5) + 2);
    assert MaskAt(m, x, 3) == Resting(5 * (x % 5) + 3);
    assert MaskAt(m, x, 4) == Resting(5 * (x % 5) + 4);
    hide MaskAt;
  }

  lemma RestingToAfterTheta()
    ensures ThetaMask(Marked(Resting)) == Marked(AfterTheta)
  {
    hide Parity;
    forall k | 0 <= k < 25
      ensures ThetaMask(Marked(Resting))[k] == AfterTheta(k)
    {
      RestingParity(k / 5 + 4);
      RestingParity(k / 5 + 1);
      Spread(k / 5, k % 5);
    }
  }

  lemma Spread(x: nat, y: nat)
    requires x < 5 && y < 5
    ensures AfterTheta(5 * x + y) == (Resting(5 * x + y) != (((x + 4) % 5 != 4) != ((x + 1) % 5 != 4)))
  {
  }

  lemma AfterThetaToEntering()
    ensures PiMask(Marked(AfterTheta)) == Marked(Entering)
  {
    hide AfterTheta, Entering;
    forall k | 0 <= k < 25
      ensures PiMask(Marked(AfterTheta))[k] == Entering(k)
    {
      Moved(k / 5, k % 5);
    }
  }

  lemma Moved(x: nat, y: nat)
    requires x < 5 && y < 5
    ensures AfterTheta(5 * ((x + 3 * y) % 5) + x % 5) == Entering(5 * x + y)
  {
    MovedTo(x, y, (x + 3 * y) % 5, (x + 3 * y) / 5);
    hide AfterTheta, Entering;
  }

  lemma MovedTo(x: nat, y: nat, s: nat, q: nat)
    requires x < 5 && y < 5 && s < 5 && q < 4 && x + 3 * y == 5 * q + s
    ensures AfterTheta(5 * s + x) == Entering(5 * x + y)
  {
  }

  /** Theta, rho and pi turn the resting mask into the one the chi macro expects. */
  lemma LinearFlip(a: Lanes)
    ensures Pi(Rho(Theta(Flip(a, Marked(Resting))))) == Flip(Pi(Rho(Theta(a))), Marked(Entering))
  {
    hide *;
    ThetaFlip(a, Marked(Resting));
    RhoFlip(Theta(a), ThetaMask(Marked(Resting)));
    PiFlip(Rho(Theta(a)), ThetaMask(Marked(Resting)));
    RestingToAfterTheta();
    AfterThetaToEntering();
  }
}
