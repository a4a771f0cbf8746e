/** Keccak-f[1600] as sections 3.2 and 3.3 of FIPS 202 define it, on lanes of 64 bits.

    A lane is a list of bits, the least significant first, and a state lists the lane (x, y) at index
    5x + y. The rotation offsets are tabulated as the program has them and proved to be those of the
    walk in section 3.2.2. */
module KeccakSpec {

  // ---------- Lanes: 64-bit words, the least significant bit first ----------

  type Lane = s: seq<bool> | |s| == 64 witness seq(64, _ => false)

  function Zero(): Lane {
    seq(64, _ => false)
  }

  function Ones(): Lane {
    seq(64, _ => true)
  }

  function Xor(a: Lane, b: Lane): Lane {
    seq(64, i requires 0 <= i < 64 => a[i] != b[i])
  }

  function And(a: Lane, b: Lane): Lane {
    seq(64, i requires 0 <= i < 64 => a[i] && b[i])
  }

  function Or(a: Lane, b: Lane): Lane {
    seq(64, i requires 0 <= i < 64 => a[i] || b[i])
  }

  function Not(a: Lane): Lane {
    seq(64, i requires 0 <= i < 64 => !a[i])
  }

  /** Rotation by n places towards the most significant bit. */
  function Rol(a: Lane, n: nat): Lane
    requires n < 64
  {
    a[64 - n..] + a[..64 - n]
  }

  /** The n lowest bits of a number, the least significant first. */
  function Bits(v: nat, n: nat): (r: seq<bool>)
    ensures |r| == n
  {
    if n == 0 then [] else [v % 2 == 1] + Bits(v / 2, n - 1)
  }

  // ---------- The state: lane (x, y) at index 5x + y ----------

  type Lanes = s: seq<Lane> | |s| == 25 witness seq(25, _ => seq(64, _ => false))

  function At(a: Lanes, x: nat, y: nat): Lane {
    a[5 * (x % 5) + y % 5]
  }

  /** Section 3.2.1: the parity of a column, and what a lane is changed by. */
  function Column(a: Lanes, x: nat): Lane {
    Xor(Xor(Xor(Xor(At(a, x, 0), At(a, x, 1)), At(a, x, 2)), At(a, x, 3)), At(a, x, 4))
  }

  function Effect(a: Lanes, x: nat): Lane {
    Xor(Column(a, x + 4), Rol(Column(a, x + 1), 1))
  }

  function Theta(a: Lanes): Lanes {
    seq(25, k requires 0 <= k < 25 => Xor(a[k], Effect(a, k / 5)))
  }

  /** Section 3.2.2: the walk over the lanes, each rotated by the next triangular number. */
  function Walk(t: nat): (nat, nat) {
    if t == 0 then (1, 0) else var (x, y) := Walk(t - 1); (y, (2 * x + 3 * y) % 5)
  }

  /** The rotations it gives, at index 5x + y. */
  function Offset(k: nat): (n: nat)
    ensures n < 64
  {
    if k == 0 then 0 else if k == 1 then 36 else if k == 2 then 3 else if k == 3 then 41
    else if k == 4 then 18 else if k == 5 then 1 else if k == 6 then 44 else if k == 7 then 10
    else if k == 8 then 45 else if k == 9 then 2 else if k == 10 then 62
    else if k == 11 then 6 else if k == 12 then 43 else if k == 13 then 15
    else if k == 14 then 61 else if k == 15 then 28
    else if k == 16 then 55 else if k == 17 then 25 else if k == 18 then 21
    else if k == 19 then 56 else if k == 20 then 27 else if k == 21 then 20
    else if k == 22 then 39 else if k == 23 then 8
    else 14
  }

  function Rho(a: Lanes): Lanes {
    seq(25, k requires 0 <= k < 25 => Rol(a[k], Offset(k)))
  }

  /** Section 3.2.3. */
  function Pi(a: Lanes): Lanes {
    seq(25, k requires 0 <= k < 25 => At(a, k / 5 + 3 * (k % 5), k / 5))
  }

  /** Section 3.2.4: the new lane from the old one and the next two of its row. */
  function ChiLane(a: Lane, b: Lane, c: Lane): Lane {
    Xor(a, And(Not(b), c))
  }

  function ChiAt(a: Lanes, k: nat): Lane
    requires k < 25
  {
    ChiLane(a[k], At(a, k / 5 + 1, k % 5), At(a, k / 5 + 2, k % 5))
  }

  function Chi(a: Lanes): Lanes {
    seq(25, k requires 0 <= k < 25 => ChiAt(a, k))
  }

  /** Section 3.2.5. */
  function Iota(a: Lanes, rc: nat): Lanes {
    a[0 := Xor(a[0], Bits(rc, 64))]
  }

  function Round(a: Lanes, rc: nat): Lanes {
    Iota(Chi(Pi(Rho(Theta(a)))), rc)
  }

  // ---------- The round constants ----------

  /** The eight bits of the shift register of Algorithm 5. */
  datatype Register = Register(r0: bool, r1: bool, r2: bool, r3: bool, r4: bool, r5: bool, r6: bool, r7: bool)

  /** A zero comes in at the front, and the bit that falls off is added to bits 0, 4, 5 and 6. */
  function Shift(r: Register): Register {
    Register(r.r7, r.r0, r.r1, r.r2, r.r3 != r.r7, r.r4 != r.r7, r.r5 != r.r7, r.r6)
  }

  /** The register after t turns. */
  function Turned(t: nat): Register {
    if t == 0 then Register(true, false, false, false, false, false, false, false) else Shift(Turned(t - 1))
  }

  /** Algorithm 5. */
  predicate Rc(t: nat) {
    Turned(t % 255).r0
  }

  /** Bits 2^j - 1, for j up to 6, as section 3.2.5 sets them in round n, and no others. */
  function RoundConstant(n: nat): nat {
    Sevenfold(Rc(7 * n), Rc(1 + 7 * n), Rc(2 + 7 * n), Rc(3 + 7 * n), Rc(4 + 7 * n), Rc(5 + 7 * n), Rc(6 + 7 * n))
  }

  function Sevenfold(b0: bool, b1: bool, b2: bool, b3: bool, b4: bool, b5: bool, b6: bool): nat {
    (if b0 then 0x1 else 0) + (if b1 then 0x2 else 0) + (if b2 then 0x8 else 0) + (if b3 then 0x80 else 0)
    + (if b4 then 0x8000 else 0) + (if b5 then 0x8000_0000 else 0) + (if b6 then 0x8000_0000_0000_0000 else 0)
  }

  /** The first n rounds. */
  function Rounds(a: Lanes, n: nat): Lanes
    requires n <= 24
  {
    if n == 0 then a else Round(Rounds(a, n - 1), RoundConstant(n - 1))
  }

  function KeccakF(a: Lanes): Lanes {
    Rounds(a, 24)
  }

  /** Every lane but the first is met by the walk, and is rotated by the triangular number of its turn. */
  lemma OffsetsFollowWalk()
    ensures forall t | 0 <= t < 24 :: RotatedBy(t)
    ensures forall k | 1 <= k < 25 :: Met(k)
  {
    hide Walk, RotatedBy, Met;
    FirstHalf();
    WalkOn(12, 4, 0, 91);
    WalkOn(13, 0, 3, 105);
    WalkOn(14, 3, 4, 120);
    WalkOn(15, 4, 3, 136);
    WalkOn(16, 3, 2, 153);
    WalkOn(17, 2, 2, 171);
    WalkOn(18, 2, 0, 190);
    WalkOn(19, 0, 4, 210);
    WalkOn(20, 4, 2, 231);
    WalkOn(21, 2, 4, 253);
    WalkOn(22, 4, 1, 276);
    WalkOn(23, 1, 1, 300);
  }

  lemma FirstHalf()
    ensures Walk(12) == (4, 0) && forall t | 0 <= t < 12 :: RotatedBy(t)
    ensures Met(5) && Met(2) && Met(11) && Met(7) && Met(13) && Met(18)
    ensures Met(15) && Met(1) && Met(8) && Met(16) && Met(9) && Met(24)
  {
    hide Walk, RotatedBy, Met;
    FirstTurns();
    WalkOn(6, 3, 0, 28);
    WalkOn(7, 0, 1, 36);
    WalkOn(8, 1, 3, 45);
    WalkOn(9, 3, 1, 55);
    WalkOn(10, 1, 4, 66);
    WalkOn(11, 4, 4, 78);
  }

  lemma FirstTurns()
    ensures Walk(6) == (3, 0) && forall t | 0 <= t < 6 :: RotatedBy(t)
    ensures Met(5) && Met(2) && Met(11) && Met(7) && Met(13) && Met(18)
  {
    assert Walk(0) == (1, 0);
    hide Walk, RotatedBy, Met;
    WalkOn(0, 1, 0, 1);
    WalkOn(1, 0, 2, 3);
    WalkOn(2, 2, 1, 6);
    WalkOn(3, 1, 2, 10);
    WalkOn(4, 2, 3, 15);
    WalkOn(5, 3, 3, 21);
  }

  ghost predicate RotatedBy(t: nat) {
    var (x, y) := Walk(t);
    x < 5 && y < 5 && (x, y) != (0, 0) && Offset(5 * x + y) == (t + 1) * (t + 2) / 2 % 64
  }

  /** The lane at index k is met within the 24 turns. */
  ghost predicate Met(k: nat) {
    exists t: nat :: t < 24 && Walk(t) == (k / 5, k % 5)
  }

  lemma WalkOn(t: nat, x: nat, y: nat, turn: nat)
    requires t < 24 && x < 5 && y < 5 && (x, y) != (0, 0)
    requires Walk(t) == (x, y) && turn == (t + 1) * (t + 2) / 2 && Offset(5 * x + y) == turn % 64
    ensures RotatedBy(t) && Met(5 * x + y) && Walk(t + 1) == (y, (2 * x + 3 * y) % 5)
  {
    hide Offset;
    assert Walk(t) == ((5 * x + y) / 5, (5 * x + y) % 5);
  }
}
