/** One round as src/keccak.c:958-1137 computes it, in place and under the lane complement.

    Each macro becomes a method on the array of words that is given the order in which to name them.
    View reads the array in an order; Plain also undoes the complement. The macros are proved against
    the step mappings on the view, the round against the plain round. */
module KeccakRound {
  import opened KeccakSpec
  import opened KeccakMask
  import opened KeccakOrders

  /** The lanes in the order p names them. */
  function View(w: seq<Lane>, p: seq<nat>): Lanes
    requires |w| == 25 && IsOrder(p)
  {
    seq(25, k requires 0 <= k < 25 => w[p[k]])
  }

  lemma PutView(w: seq<Lane>, p: seq<nat>, k: nat, v: Lane)
    requires |w| == 25 && IsOrder(p) && k < 25
    ensures View(w[p[k] := v], p) == View(w, p)[k := v]
  {
  }

  lemma PiView(w: seq<Lane>, p: seq<nat>)
    requires |w| == 25 && IsOrder(p)
    ensures IsOrder(AfterPi(p)) && View(w, AfterPi(p)) == Pi(View(w, p))
  {
    hide AfterPi, PiTable;
    OrderAfterPi(p);
    forall k | 0 <= k < 25
      ensures View(w, AfterPi(p))[k] == Pi(View(w, p))[k]
    {
      AfterPiAt(p, k);
      hide IsOrder;
    }
  }

  /** The lane that p names k-th. */
  function Get(w: array<Lane>, p: seq<nat>, k: nat): (v: Lane)
    requires w.Length == 25 && IsOrder(p) && k < 25
    reads w
    ensures v == View(w[..], p)[k]
  {
    w[p[k]]
  }

  /** The statement b := v for the lane that p names k-th. */
  method Put(w: array<Lane>, p: seq<nat>, k: nat, v: Lane)
    requires w.Length == 25 && IsOrder(p) && k < 25
    modifies w
    ensures View(w[..], p) == View(old(w[..]), p)[k := v]
  {
    PutView(w[..], p, k, v);
    hide View;
    w[p[k]] := v;
  }

  function Sum(b0: Lane, b1: Lane, b2: Lane, b3: Lane, b4: Lane): Lane {
    Xor(Xor(Xor(Xor(b0, b1), b2), b3), b4)
  }

  method ThElt(c0: Lane, c1: Lane, c2: Lane, c3: Lane, c4: Lane, d0: Lane, d1: Lane, d2: Lane, d3: Lane, d4: Lane)
    returns (t: Lane)
    ensures t == Xor(Sum(c0, c1, c2, c3, c4), Rol(Sum(d0, d1, d2, d3, d4), 1))
  {
    var tt0 := Xor(d0, d1);
    var tt1 := Xor(d2, d3);
    tt0 := Xor(tt0, d4);
    tt0 := Xor(tt0, tt1);
    Regroup(d0, d1, d2, d3, d4);
    tt0 := Rol(tt0, 1);
    ghost var rotated := tt0;
    var tt2 := Xor(c0, c1);
    var tt3 := Xor(c2, c3);
    tt0 := Xor(tt0, c4);
    tt2 := Xor(tt2, tt3);
    t := Xor(tt0, tt2);
    RegroupWith(c0, c1, c2, c3, c4, rotated);
  }

  lemma Regroup(d0: Lane, d1: Lane, d2: Lane, d3: Lane, d4: Lane)
    ensures Xor(Xor(Xor(d0, d1), d4), Xor(d2, d3)) == Sum(d0, d1, d2, d3, d4)
  {
  }

  lemma RegroupWith(c0: Lane, c1: Lane, c2: Lane, c3: Lane, c4: Lane, r: Lane)
    ensures Xor(Xor(r, c4), Xor(Xor(c0, c1), Xor(c2, c3))) == Xor(Sum(c0, c1, c2, c3, c4), r)
  {
  }

  /** Lanes b_x0 to b_x4 xored with t. */
  function SheetXored(a: Lanes, x: nat, t: Lane): Lanes {
    seq(25, k requires 0 <= k < 25 => if k / 5 == x then Xor(a[k], t) else a[k])
  }

  method XorSheet(w: array<Lane>, p: seq<nat>, x: nat, t: Lane)
    requires w.Length == 25 && IsOrder(p) && x < 5
    modifies w
    ensures View(w[..], p) == SheetXored(View(old(w[..]), p), x, t)
  {
    hide View, IsOrder, Xor;
    Put(w, p, 5 * x, Xor(Get(w, p, 5 * x), t));
    Put(w, p, 5 * x + 1, Xor(Get(w, p, 5 * x + 1), t));
    Put(w, p, 5 * x + 2, Xor(Get(w, p, 5 * x + 2), t));
    Put(w, p, 5 * x + 3, Xor(Get(w, p, 5 * x + 3), t));
    Put(w, p, 5 * x + 4, Xor(Get(w, p, 5 * x + 4), t));
  }

  /** The first half of THETA: what each sheet is to be xored with. */
  method Effects(w: array<Lane>, p: seq<nat>) returns (t0: Lane, t1: Lane, t2: Lane, t3: Lane, t4: Lane)
    requires w.Length == 25 && IsOrder(p)
    ensures var a := View(w[..], p);
            t0 == Effect(a, 0) && t1 == Effect(a, 1) && t2 == Effect(a, 2) && t3 == Effect(a, 3) && t4 == Effect(a, 4)
  {
    hide View, IsOrder, Xor, Rol;
    t0 := ThElt(Get(w, p, 20), Get(w, p, 21), Get(w, p, 22), Get(w, p, 23), Get(w, p, 24),
                   Get(w, p, 5), Get(w, p, 6), Get(w, p, 7), Get(w, p, 8), Get(w, p, 9));
    t1 := ThElt(Get(w, p, 0), Get(w, p, 1), Get(w, p, 2), Get(w, p, 3), Get(w, p, 4),
                   Get(w, p, 10), Get(w, p, 11), Get(w, p, 12), Get(w, p, 13), Get(w, p, 14));
    t2 := ThElt(Get(w, p, 5), Get(w, p, 6), Get(w, p, 7), Get(w, p, 8), Get(w, p, 9),
                   Get(w, p, 15), Get(w, p, 16), Get(w, p, 17), Get(w, p, 18), Get(w, p, 19));
    t3 := ThElt(Get(w, p, 10), Get(w, p, 11), Get(w, p, 12), Get(w, p, 13), Get(w, p, 14),
                   Get(w, p, 20), Get(w, p, 21), Get(w, p, 22), Get(w, p, 23), Get(w, p, 24));
    t4 := ThElt(Get(w, p, 15), Get(w, p, 16), Get(w, p, 17), Get(w, p, 18), Get(w, p, 19),
                   Get(w, p, 0), Get(w, p, 1), Get(w, p, 2), Get(w, p, 3), Get(w, p, 4));
  }

  method ThetaMacro(w: array<Lane>, p: seq<nat>)
    requires w.Length == 25 && IsOrder(p)
    modifies w
    ensures View(w[..], p) == Theta(View(old(w[..]), p))
  {
    hide View, IsOrder, Xor, Effect;
    var t0, t1, t2, t3, t4 := Effects(w, p);
    XorSheet(w, p, 0, t0);
    XorSheet(w, p, 1, t1);
    XorSheet(w, p, 2, t2);
    XorSheet(w, p, 3, t3);
    XorSheet(w, p, 4, t4);
  }

  /** Lanes b_x0 to b_x4 rotated by the x-th row of the offsets. */
  function SheetRotated(a: Lanes, x: nat): Lanes {
    seq(25, k requires 0 <= k < 25 => if k / 5 == x then Rol(a[k], Offset(k)) else a[k])
  }

  /** The first x sheets rotated. */
  function SheetsRotated(a: Lanes, x: nat): Lanes {
    seq(25, k requires 0 <= k < 25 => if k / 5 < x then Rol(a[k], Offset(k)) else a[k])
  }

  lemma NextSheet(a: Lanes, x: nat)
    ensures SheetRotated(SheetsRotated(a, x), x) == SheetsRotated(a, x + 1)
  {
    hide Offset, Rol;
  }

  lemma AllSheets(a: Lanes)
    ensures SheetsRotated(a, 0) == a && SheetsRotated(a, 5) == Rho(a)
  {
    hide Offset, Rol;
  }

  method RotateSheet(w: array<Lane>, p: seq<nat>, x: nat, n0: nat, n1: nat, n2: nat, n3: nat, n4: nat)
    requires w.Length == 25 && IsOrder(p) && x < 5
    requires n0 == Offset(5 * x) && n1 == Offset(5 * x + 1) && n2 == Offset(5 * x + 2)
    requires n3 == Offset(5 * x + 3) && n4 == Offset(5 * x + 4)
    modifies w
    ensures View(w[..], p) == SheetRotated(View(old(w[..]), p), x)
  {
    hide View, IsOrder, Rol, Offset;
    Put(w, p, 5 * x, Rol(Get(w, p, 5 * x), n0));
    Put(w, p, 5 * x + 1, Rol(Get(w, p, 5 * x + 1), n1));
    Put(w, p, 5 * x + 2, Rol(Get(w, p, 5 * x + 2), n2));
    Put(w, p, 5 * x + 3, Rol(Get(w, p, 5 * x + 3), n3));
    Put(w, p, 5 * x + 4, Rol(Get(w, p, 5 * x + 4), n4));
  }

  method RhoMacro(w: array<Lane>, p: seq<nat>)
    requires w.Length == 25 && IsOrder(p)
    modifies w
    ensures View(w[..], p) == Rho(View(old(w[..]), p))
  {
    hide View, IsOrder, Rol, SheetRotated, SheetsRotated, Rho;
    ghost var a := View(w[..], p);
    AllSheets(a);
    NextSheet(a, 0);
    NextSheet(a, 1);
    NextSheet(a, 2);
    NextSheet(a, 3);
    NextSheet(a, 4);
    RotateSheet(w, p, 0, 0, 36, 3, 41, 18);
    RotateSheet(w, p, 1, 1, 44, 10, 45, 2);
    RotateSheet(w, p, 2, 62, 6, 43, 15, 61);
    RotateSheet(w, p, 3, 28, 55, 25, 21, 56);
    RotateSheet(w, p, 4, 27, 20, 39, 8, 14);
  }

  // ---------- KHI: chi under the lane complement ----------

  /** Lane (x, y) as it is meant when it is stored as a[5x + y]. */
  function Meant(a: Lanes, x: nat, y: nat): Lane
    requires x < 5 && y < 5
  {
    Inv(a[5 * x + y], Entering(5 * x + y))
  }

  /** What chi makes of lane (x, y), as it is to be stored. */
  function Stored(a: Lanes, x: nat, y: nat): Lane
    requires x < 5 && y < 5
  {
    Inv(ChiLane(Meant(a, x, y), Meant(a, (x + 1) % 5, y), Meant(a, (x + 2) % 5, y)), Resting(5 * x + y))
  }

  /** Row y done: lanes b_0y to b_4y. */
  function RowDone(a: Lanes, y: nat): Lanes {
    seq(25, k requires 0 <= k < 25 => if k % 5 == y then Stored(a, k / 5, y) else a[k])
  }

  method MoveRow(w: array<Lane>, p: seq<nat>, y: nat, c0: Lane, c1: Lane, c2: Lane, c3: Lane, c4: Lane)
    requires w.Length == 25 && IsOrder(p) && y < 5
    requires var a := View(w[..], p);
             && c0 == Stored(a, 0, y) && c1 == Stored(a, 1, y) && c2 == Stored(a, 2, y)
             && c3 == Stored(a, 3, y) && c4 == Stored(a, 4, y)
    modifies w
    ensures View(w[..], p) == RowDone(View(old(w[..]), p), y)
  {
    hide View, IsOrder, Stored;
    Put(w, p, y, c0);
    Put(w, p, 5 + y, c1);
    Put(w, p, 10 + y, c2);
    Put(w, p, 15 + y, c3);
    Put(w, p, 20 + y, c4);
  }

  method KhiRow0(w: array<Lane>, p: seq<nat>)
    requires w.Length == 25 && IsOrder(p)
    modifies w
    ensures View(w[..], p) == RowDone(View(old(w[..]), p), 0)
  {
    hide *;
    var b00 := Get(w, p, 0);
    var b10 := Get(w, p, 5);
    var b20 := Get(w, p, 10);
    var b30 := Get(w, p, 15);
    var b40 := Get(w, p, 20);
    var bnn := Not(b20);
    var c0 := Xor(b00, Or(b10, b20));
    var c1 := Xor(b10, Or(bnn, b30));
    var c2 := Xor(b20, And(b30, b40));
    var c3 := Xor(b30, Or(b40, b00));
    var c4 := Xor(b40, And(b00, b10));
    StoredRow0(View(w[..], p));
    MoveRow(w, p, 0, c0, c1, c2, c3, c4);
  }

  lemma StoredRow0(a: Lanes)
    ensures Stored(a, 0, 0) == Xor(a[0], Or(a[5], a[10]))
    ensures Stored(a, 1, 0) == Xor(a[5], Or(Not(a[10]), a[15]))
    ensures Stored(a, 2, 0) == Xor(a[10], And(a[15], a[20]))
    ensures Stored(a, 3, 0) == Xor(a[15], Or(a[20], a[0]))
    ensures Stored(a, 4, 0) == Xor(a[20], And(a[0], a[5]))
  {
    hide Xor, And, Or, Not, ChiLane;
    RowIdentities0(a[0], a[5], a[10], a[15], a[20]);
  }

  lemma RowIdentities0(b00: Lane, b10: Lane, b20: Lane, b30: Lane, b40: Lane)
    ensures Xor(b00, Or(b10, b20)) == ChiLane(Not(b00), b10, Not(b20))
    ensures Xor(b10, Or(Not(b20), b30)) == Not(ChiLane(b10, Not(b20), Not(b30)))
    ensures Xor(b20, And(b30, b40)) == Not(ChiLane(Not(b20), Not(b30), b40))
    ensures Xor(b30, Or(b40, b00)) == ChiLane(Not(b30), b40, Not(b00))
    ensures Xor(b40, And(b00, b10)) == ChiLane(b40, Not(b00), b10)
  {
  }

  method KhiRow1(w: array<Lane>, p: seq<nat>)
    requires w.Length == 25 && IsOrder(p)
    modifies w
    ensures View(w[..], p) == RowDone(View(old(w[..]), p), 1)
  {
    hide *;
    var b01 := Get(w, p, 1);
    var b11 := Get(w, p, 6);
    var b21 := Get(w, p, 11);
    var b31 := Get(w, p, 16);
    var b41 := Get(w, p, 21);
    var bnn := Not(b41);
    var c0 := Xor(b01, Or(b11, b21));
    var c1 := Xor(b11, And(b21, b31));
    var c2 := Xor(b21, Or(b31, bnn));
    var c3 := Xor(b31, Or(b41, b01));
    var c4 := Xor(b41, And(b01, b11));
    StoredRow1(View(w[..], p));
    MoveRow(w, p, 1, c0, c1, c2, c3, c4);
  }

  lemma StoredRow1(a: Lanes)
    ensures Stored(a, 0, 1) == Xor(a[1], Or(a[6], a[11]))
    ensures Stored(a, 1, 1) == Xor(a[6], And(a[11], a[16]))
    ensures Stored(a, 2, 1) == Xor(a[11], Or(a[16], Not(a[21])))
    ensures Stored(a, 3, 1) == Xor(a[16], Or(a[21], a[1]))
    ensures Stored(a, 4, 1) == Xor(a[21], And(a[1], a[6]))
  {
    hide Xor, And, Or, Not, ChiLane;
    RowIdentities1(a[1], a[6], a[11], a[16], a[21]);
  }

  lemma RowIdentities1(b01: Lane, b11: Lane, b21: Lane, b31: Lane, b41: Lane)
    ensures Xor(b01, Or(b11, b21)) == ChiLane(Not(b01), b11, Not(b21))
    ensures Xor(b11, And(b21, b31)) == ChiLane(b11, Not(b21), b31)
    ensures Xor(b21, Or(b31, Not(b41))) == ChiLane(Not(b21), b31, b41)
    ensures Xor(b31, Or(b41, b01)) == Not(ChiLane(b31, b41, Not(b01)))
    ensures Xor(b41, And(b01, b11)) == ChiLane(b41, Not(b01), b11)
  {
  }

  method KhiRow2(w: array<Lane>, p: seq<nat>)
    requires w.Length == 25 && IsOrder(p)
    modifies w
    ensures View(w[..], p) == RowDone(View(old(w[..]), p), 2)
  {
    hide *;
    var b02 := Get(w, p, 2);
    var b12 := Get(w, p, 7);
    var b22 := Get(w, p, 12);
    var b32 := Get(w, p, 17);
    var b42 := Get(w, p, 22);
    var bnn := Not(b32);
    var c0 := Xor(b02, Or(b12, b22));
    var c1 := Xor(b12, And(b22, b32));
    var c2 := Xor(b22, And(bnn, b42));
    var c3 := Xor(bnn, Or(b42, b02));
    var c4 := Xor(b42, And(b02, b12));
    StoredRow2(View(w[..], p));
    MoveRow(w, p, 2, c0, c1, c2, c3, c4);
  }

  lemma StoredRow2(a: Lanes)
    ensures Stored(a, 0, 2) == Xor(a[2], Or(a[7], a[12]))
    ensures Stored(a, 1, 2) == Xor(a[7], And(a[12], a[17]))
    ensures Stored(a, 2, 2) == Xor(a[12], And(Not(a[17]), a[22]))
    ensures Stored(a, 3, 2) == Xor(Not(a[17]), Or(a[22], a[2]))
    ensures Stored(a, 4, 2) == Xor(a[22], And(a[2], a[7]))
  {
    hide Xor, And, Or, Not, ChiLane;
    RowIdentities2(a[2], a[7], a[12], a[17], a[22]);
  }

  lemma RowIdentities2(b02: Lane, b12: Lane, b22: Lane, b32: Lane, b42: Lane)
    ensures Xor(b02, Or(b12, b22)) == ChiLane(Not(b02), b12, Not(b22))
    ensures Xor(b12, And(b22, b32)) == ChiLane(b12, Not(b22), b32)
    ensures Xor(b22, And(Not(b32), b42)) == Not(ChiLane(Not(b22), b32, b42))
    ensures Xor(Not(b32), Or(b42, b02)) == ChiLane(b32, b42, Not(b02))
    ensures Xor(b42, And(b02, b12)) == ChiLane(b42, Not(b02), b12)
  {
  }

  method KhiRow3(w: array<Lane>, p: seq<nat>)
    requires w.Length == 25 && IsOrder(p)
    modifies w
    ensures View(w[..], p) == RowDone(View(old(w[..]), p), 3)
  {
    hide *;
    var b03 := Get(w, p, 3);
    var b13 := Get(w, p, 8);
    var b23 := Get(w, p, 13);
    var b33 := Get(w, p, 18);
    var b43 := Get(w, p, 23);
    var bnn := Not(b33);
    var c0 := Xor(b03, And(b13, b23));
    var c1 := Xor(b13, Or(b23, b33));
    var c2 := Xor(b23, Or(bnn, b43));
    var c3 := Xor(bnn, And(b43, b03));
    var c4 := Xor(b43, Or(b03, b13));
    StoredRow3(View(w[..], p));
    MoveRow(w, p, 3, c0, c1, c2, c3, c4);
  }

  lemma StoredRow3(a: Lanes)
    ensures Stored(a, 0, 3) == Xor(a[3], And(a[8], a[13]))
    ensures Stored(a, 1, 3) == Xor(a[8], Or(a[13], a[18]))
    ensures Stored(a, 2, 3) == Xor(a[13], Or(Not(a[18]), a[23]))
    ensures Stored(a, 3, 3) == Xor(Not(a[18]), And(a[23], a[3]))
    ensures Stored(a, 4, 3) == Xor(a[23], Or(a[3], a[8]))
  {
    hide Xor, And, Or, Not, ChiLane;
    RowIdentities3(a[3], a[8], a[13], a[18], a[23]);
  }

  lemma RowIdentities3(b03: Lane, b13: Lane, b23: Lane, b33: Lane, b43: Lane)
    ensures Xor(b03, And(b13, b23)) == ChiLane(b03, Not(b13), b23)
    ensures Xor(b13, Or(b23, b33)) == ChiLane(Not(b13), b23, Not(b33))
    ensures Xor(b23, Or(Not(b33), b43)) == Not(ChiLane(b23, Not(b33), Not(b43)))
    ensures Xor(Not(b33), And(b43, b03)) == ChiLane(Not(b33), Not(b43), b03)
    ensures Xor(b43, Or(b03, b13)) == ChiLane(Not(b43), b03, Not(b13))
  {
  }

  method KhiRow4(w: array<Lane>, p: seq<nat>)
    requires w.Length == 25 && IsOrder(p)
    modifies w
    ensures View(w[..], p) == RowDone(View(old(w[..]), p), 4)
  {
    hide *;
    var b04 := Get(w, p, 4);
    var b14 := Get(w, p, 9);
    var b24 := Get(w, p, 14);
    var b34 := Get(w, p, 19);
    var b44 := Get(w, p, 24);
    var bnn := Not(b14);
    var c0 := Xor(b04, And(bnn, b24));
    var c1 := Xor(bnn, Or(b24, b34));
    var c2 := Xor(b24, And(b34, b44));
    var c3 := Xor(b34, Or(b44, b04));
    var c4 := Xor(b44, And(b04, b14));
    StoredRow4(View(w[..], p));
    MoveRow(w, p, 4, c0, c1, c2, c3, c4);
  }

  lemma StoredRow4(a: Lanes)
    ensures Stored(a, 0, 4) == Xor(a[4], And(Not(a[9]), a[14]))
    ensures Stored(a, 1, 4) == Xor(Not(a[9]), Or(a[14], a[19]))
    ensures Stored(a, 2, 4) == Xor(a[14], And(a[19], a[24]))
    ensures Stored(a, 3, 4) == Xor(a[19], Or(a[24], a[4]))
    ensures Stored(a, 4, 4) == Xor(a[24], And(a[4], a[9]))
  {
    hide Xor, And, Or, Not, ChiLane;
    RowIdentities4(a[4], a[9], a[14], a[19], a[24]);
  }

  lemma RowIdentities4(b04: Lane, b14: Lane, b24: Lane, b34: Lane, b44: Lane)
    ensures Xor(b04, And(Not(b14), b24)) == Not(ChiLane(Not(b04), b14, b24))
    ensures Xor(Not(b14), Or(b24, b34)) == ChiLane(b14, b24, Not(b34))
    ensures Xor(b24, And(b34, b44)) == ChiLane(b24, Not(b34), b44)
    ensures Xor(b34, Or(b44, b04)) == ChiLane(Not(b34), b44, Not(b04))
    ensures Xor(b44, And(b04, b14)) == ChiLane(b44, Not(b04), b14)
  {
  }

  /** The rows before y done. */
  function RowsDone(a: Lanes, y: nat): Lanes {
    seq(25, k requires 0 <= k < 25 => if k % 5 < y then Stored(a, k / 5, k % 5) else a[k])
  }

  lemma Split(x: nat, y: nat)
    requires x < 5 && y < 5
    ensures (5 * x + y) / 5 == x && (5 * x + y) % 5 == y
  {
  }

  lemma NotYet(a: Lanes, x: nat, y: nat)
    requires x < 5 && y < 5
    ensures RowsDone(a, y)[5 * x + y] == a[5 * x + y]
  {
    hide Stored;
    Split(x, y);
  }

  lemma SameRow(a: Lanes, b: Lanes, x: nat, y: nat)
    requires x < 5 && y < 5 && forall x' | 0 <= x' < 5 :: Meant(a, x', y) == Meant(b, x', y)
    ensures Stored(b, x, y) == Stored(a, x, y)
  {
    hide Inv, ChiLane, Resting, Meant;
  }

  lemma RowNext(a: Lanes, y: nat)
    requires y < 5
    ensures RowDone(RowsDone(a, y), y) == RowsDone(a, y + 1)
  {
    var b := RowsDone(a, y);
    forall x | 0 <= x < 5
      ensures Stored(b, x, y) == Stored(a, x, y)
    {
      forall x' | 0 <= x' < 5
        ensures Meant(a, x', y) == Meant(b, x', y)
      {
        NotYet(a, x', y);
        hide RowsDone, Inv;
      }
      SameRow(a, b, x, y);
    }
    hide Stored;
  }

  lemma ChiInRow(b: Lanes, x: nat, y: nat)
    requires x < 5 && y < 5
    ensures Chi(b)[5 * x + y] == ChiLane(b[5 * x + y], b[5 * ((x + 1) % 5) + y], b[5 * ((x + 2) % 5) + y])
  {
    hide *;
    var k := 5 * x + y;
    Split(x, y);
    assert k / 5 == x && k % 5 == y;
    ChiByIndex(b, k);
    AtIs(b, x + 1, y);
    AtIs(b, x + 2, y);
  }

  lemma ChiByIndex(b: Lanes, k: nat)
    requires k < 25
    ensures Chi(b)[k] == ChiLane(b[k], At(b, k / 5 + 1, k % 5), At(b, k / 5 + 2, k % 5))
  {
    hide Xor, And, Not, At, ChiLane;
  }

  lemma AtIs(b: Lanes, x: nat, y: nat)
    requires y < 5
    ensures At(b, x, y) == b[5 * (x % 5) + y]
  {
  }

  lemma StoredIsChi(a: Lanes, x: nat, y: nat)
    requires x < 5 && y < 5
    ensures Stored(a, x, y) == Flip(Chi(Flip(a, Marked(Entering))), Marked(Resting))[5 * x + y]
  {
    var b := Flip(a, Marked(Entering));
    hide Chi, Flip, ChiLane, Inv, Entering, Resting;
    FlipAt(Chi(b), Marked(Resting), 5 * x + y);
    ChiInRow(b, x, y);
    FlipAt(a, Marked(Entering), 5 * x + y);
    FlipAt(a, Marked(Entering), 5 * ((x + 1) % 5) + y);
    FlipAt(a, Marked(Entering), 5 * ((x + 2) % 5) + y);
  }

  lemma FlipAt(a: Lanes, m: Mask, k: nat)
    requires k < 25
    ensures Flip(a, m)[k] == Inv(a[k], m[k])
  {
  }

  lemma AllRowsDone(a: Lanes)
    ensures RowsDone(a, 5) == Flip(Chi(Flip(a, Marked(Entering))), Marked(Resting))
  {
    hide Stored, Flip, Chi;
    forall k | 0 <= k < 25
      ensures RowsDone(a, 5)[k] == Flip(Chi(Flip(a, Marked(Entering))), Marked(Resting))[k]
    {
      StoredIsChi(a, k / 5, k % 5);
    }
  }

  method KhiMacro(w: array<Lane>, p: seq<nat>)
    requires w.Length == 25 && IsOrder(p)
    modifies w
    ensures View(w[..], p) == Flip(Chi(Flip(View(old(w[..]), p), Marked(Entering))), Marked(Resting))
  {
    hide IsOrder, View, Flip, Chi, RowDone;
    ghost var a := View(w[..], p);
    NoRowDone(a);
    hide RowsDone;
    KhiRow0(w, p);
    RowNext(a, 0);
    KhiRow1(w, p);
    RowNext(a, 1);
    KhiRow2(w, p);
    RowNext(a, 2);
    KhiRow3(w, p);
    RowNext(a, 3);
    KhiRow4(w, p);
    RowNext(a, 4);
    AllRowsDone(a);
  }

  lemma NoRowDone(a: Lanes)
    ensures RowsDone(a, 0) == a
  {
    hide Stored;
  }

  // ---------- A whole round ----------

  /** KF_ELT: the lanes enter in the order of round r and leave in that of round r + 1; both times
      the six resting lanes are stored inverted. */
  method KfElt(w: array<Lane>, r: nat, rc: nat)
    requires w.Length == 25 && r < 8
    requires IsOrder(P(r)) && IsOrder(P(r + 1))
    modifies w
    ensures Plain(w[..], r + 1) == Round(Plain(old(w[..]), r), rc)
  {
    IsOrderP(r);
    IsOrderP(r + 1);
    ghost var w0 := w[..];
    ghost var a := Plain(w0, r);
    ghost var b := Pi(Rho(Theta(a)));
    assert View(w0, P(r)) == Flip(a, Marked(Resting)) by {
      FlipTwice(View(w0, P(r)), Marked(Resting));
    }
    hide *;
    ThetaMacro(w, P(r));
    RhoMacro(w, P(r));
    LinearFlip(a);
    Next(r);
    PiView(w[..], P(r));
    assert View(w[..], P(r + 1)) == Flip(b, Marked(Entering));
    KhiMacro(w, P(r + 1));
    FlipTwice(b, Marked(Entering));
    ghost var stored := Flip(Chi(b), Marked(Resting));
    assert View(w[..], P(r + 1)) == stored;
    Put(w, P(r + 1), 0, Xor(Get(w, P(r + 1), 0), Bits(rc, 64)));
    IotaFlip(Chi(b), rc);
    PlainIs(w[..], r + 1, Round(a, rc));
    RoundIs(a, rc);
  }

  lemma RoundIs(a: Lanes, rc: nat)
    ensures Round(a, rc) == Iota(Chi(Pi(Rho(Theta(a)))), rc)
  {
  }

  /** The state that the array stands for between rounds. */
  ghost function Plain(w: seq<Lane>, r: nat): Lanes
    requires |w| == 25 && r <= 8 && IsOrder(P(r))
  {
    Flip(View(w, P(r)), Marked(Resting))
  }

  lemma PlainIs(w: seq<Lane>, r: nat, a: Lanes)
    requires |w| == 25 && r <= 8 && IsOrder(P(r)) && View(w, P(r)) == Flip(a, Marked(Resting))
    ensures Plain(w, r) == a
  {
    FlipTwice(a, Marked(Resting));
  }

  /** Lane a00 is not among the inverted ones. */
  lemma IotaFlip(a: Lanes, rc: nat)
    ensures var s := Flip(a, Marked(Resting));
            s[0 := Xor(s[0], Bits(rc, 64))] == Flip(Iota(a, rc), Marked(Resting))
  {
    hide Xor, Not, Bits;
    var s, t := Flip(a, Marked(Resting)), Flip(Iota(a, rc), Marked(Resting));
    assert s[0] == a[0] && t[0] == Xor(a[0], Bits(rc, 64));
    assert forall k | 0 < k < 25 :: t[k] == s[k];
  }
}
