/** The table of round constants (src/keccak.c:136-149) against the shift register of FIPS 202.

    Section 3.2.5 sets seven bits of each constant from seven turns of a register of eight bits. The
    table is checked by turning the register 168 times, seven turns to a round; the first bit of the
    register is the one that is read off. */
module KeccakConstants {
  import opened KeccakSpec

  /** The table of the program. */
  function RC(n: nat): nat
    requires n < 24
  {
    if n == 0 then 0x0000000000000001
    else if n == 1 then 0x0000000000008082
    else if n == 2 then 0x800000000000808A
    else if n == 3 then 0x8000000080008000
    else if n == 4 then 0x000000000000808B
    else if n == 5 then 0x0000000080000001
    else if n == 6 then 0x8000000080008081
    else if n == 7 then 0x8000000000008009
    else if n == 8 then 0x000000000000008A
    else if n == 9 then 0x0000000000000088
    else if n == 10 then 0x0000000080008009
    else if n == 11 then 0x000000008000000A
    else if n == 12 then 0x000000008000808B
    else if n == 13 then 0x800000000000008B
    else if n == 14 then 0x8000000000008089
    else if n == 15 then 0x8000000000008003
    else if n == 16 then 0x8000000000008002
    else if n == 17 then 0x8000000000000080
    else if n == 18 then 0x000000000000800A
    else if n == 19 then 0x800000008000000A
    else if n == 20 then 0x8000000080008081
    else if n == 21 then 0x8000000000008080
    else if n == 22 then 0x0000000080000001
    else 0x8000000080008008
  }

  /** The register before round n. */
  function Before(n: nat): Register
    requires n <= 24
  {
    if n == 0 then Register(true, false, false, false, false, false, false, false)
    else if n == 1 then Register(false, false, false, false, false, false, false, true)
    else if n == 2 then Register(false, false, false, true, true, false, true, true)
    else if n == 3 then Register(false, true, false, true, true, false, false, false)
    else if n == 4 then Register(true, true, true, true, true, false, true, true)
    else if n == 5 then Register(true, false, false, true, false, false, false, false)
    else if n == 6 then Register(true, false, true, false, true, true, false, false)
    else if n == 7 then Register(true, true, true, true, false, false, true, false)
    else if n == 8 then Register(false, true, false, true, false, false, true, true)
    else if n == 9 then Register(false, false, false, false, true, true, true, false)
    else if n == 10 then Register(true, false, false, false, false, false, true, false)
    else if n == 11 then Register(false, false, true, true, false, true, true, true)
    else if n == 12 then Register(true, false, true, false, true, false, true, true)
    else if n == 13 then Register(true, false, true, true, false, false, true, true)
    else if n == 14 then Register(true, true, false, false, false, true, true, false)
    else if n == 15 then Register(true, true, false, true, false, true, false, true)
    else if n == 16 then Register(false, true, false, true, false, true, false, true)
    else if n == 17 then Register(false, true, false, true, false, true, false, false)
    else if n == 18 then Register(false, true, false, false, true, true, true, true)
    else if n == 19 then Register(false, false, false, true, false, true, true, true)
    else if n == 20 then Register(true, true, true, false, true, true, false, false)
    else if n == 21 then Register(false, true, true, true, true, true, false, false)
    else if n == 22 then Register(true, true, false, true, false, false, false, false)
    else if n == 23 then Register(false, false, true, false, false, false, true, false)
    else Register(false, true, true, true, false, false, false, true)
  }

  /** The constant read off the register in seven turns, and where they leave it. */
  function ReadOff(r: Register): nat {
    Sevenfold(r.r0, r.r7, r.r6, r.r5 != r.r7, (r.r4 != r.r7) != r.r6, (r.r3 != r.r6) != r.r5, (r.r2 != r.r5) != r.r4)
  }

  function Seven(r: Register): Register {
    Shift(Shift(Shift(Shift(Shift(Shift(Shift(r)))))))
  }

  lemma TurnOnce(t: nat)
    ensures Turned(t + 1) == Shift(Turned(t))
  {
  }

  lemma TurnTo(t: nat, r: Register)
    requires Turned(t) == r
    ensures Turned(t + 1) == Shift(r) && Turned(t + 2) == Shift(Shift(r)) && Turned(t + 3) == Shift(Shift(Shift(r)))
    ensures Turned(t + 4) == Shift(Shift(Shift(Shift(r))))
    ensures Turned(t + 5) == Shift(Shift(Shift(Shift(Shift(r)))))
    ensures Turned(t + 6) == Shift(Shift(Shift(Shift(Shift(Shift(r))))))
    ensures Turned(t + 7) == Seven(r)
  {
    hide Turned, Shift;
    TurnOnce(t);
    TurnOnce(t + 1);
    TurnOnce(t + 2);
    TurnOnce(t + 3);
    TurnOnce(t + 4);
    TurnOnce(t + 5);
    TurnOnce(t + 6);
  }

  lemma TurnSeven(n: nat, r: Register)
    requires n < 24 && Turned(7 * n) == r
    ensures Turned(7 * (n + 1)) == Seven(r) && RoundConstant(n) == ReadOff(r)
  {
    hide Turned, Sevenfold, Seven;
    TurnTo(7 * n, r);
  }

  lemma FirstSteps(n: nat)
    requires 0 <= n < 6
    ensures Before(n + 1) == Seven(Before(n)) && RC(n) == ReadOff(Before(n))
  {
    if n == 0 {
    } else if n == 1 {
    } else if n == 2 {
    } else if n == 3 {
    } else if n == 4 {
    }
  }

  lemma SecondSteps(n: nat)
    requires 6 <= n < 12
    ensures Before(n + 1) == Seven(Before(n)) && RC(n) == ReadOff(Before(n))
  {
    if n == 6 {
    } else if n == 7 {
    } else if n == 8 {
    } else if n == 9 {
    } else if n == 10 {
    }
  }

  lemma ThirdSteps(n: nat)
    requires 12 <= n < 18
    ensures Before(n + 1) == Seven(Before(n)) && RC(n) == ReadOff(Before(n))
  {
    if n == 12 {
    } else if n == 13 {
    } else if n == 14 {
    } else if n == 15 {
    } else if n == 16 {
    }
  }

  lemma FourthSteps(n: nat)
    requires 18 <= n < 24
    ensures Before(n + 1) == Seven(Before(n)) && RC(n) == ReadOff(Before(n))
  {
    if n == 18 {
    } else if n == 19 {
    } else if n == 20 {
    } else if n == 21 {
    } else if n == 22 {
    }
  }

  lemma Steps(n: nat)
    requires n < 24
    ensures Before(n + 1) == Seven(Before(n)) && RC(n) == ReadOff(Before(n))
  {
    hide *;
    if n < 6 {
      FirstSteps(n);
    } else if n < 12 {
      SecondSteps(n);
    } else if n < 18 {
      ThirdSteps(n);
    } else {
      FourthSteps(n);
    }
  }

  lemma {:induction false} RegisterBefore(n: nat)
    requires n <= 24
    ensures Turned(7 * n) == Before(n)
  {
    if n == 0 {
      assert Before(0) == Turned(0);
    } else {
      hide *;
      RegisterBefore(n - 1);
      TurnSeven(n - 1, Before(n - 1));
      Steps(n - 1);
    }
  }

  /** The constants of the table are those of section 3.2.5. */
  lemma ConstantsFollowRegister()
    ensures forall n | 0 <= n < 24 :: RC(n) == RoundConstant(n)
  {
    hide *;
    forall n | 0 <= n < 24
      ensures RC(n) == RoundConstant(n)
    {
      RegisterBefore(n);
      TurnSeven(n, Before(n));
      Steps(n);
    }
  }
}
