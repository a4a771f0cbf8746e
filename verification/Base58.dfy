/** Base58 in both directions (src/base58.h:25-161). */
module Base58 {
  import opened Arithmetic
  import opened Bytes
  import opened Options
  import opened Radix
  import opened Sequences
  import BigNum

  const pszBase58: string := "123456789" + "ABCDEFGH" + "JKLMN" + "PQRSTUVWXYZ" + "abcdefghijk" + "mnopqrstuvwxyz"

  // ---------- The alphabet ----------

  /** The character of a digit, by the runs the alphabet is made of: no 0, I, O or l. */
  function CharOf(d: nat): char
    requires d < 58
  {
    if d < 9 then '1' + d as char
    else if d < 17 then 'A' + (d - 9) as char
    else if d < 22 then 'J' + (d - 17) as char
    else if d < 33 then 'P' + (d - 22) as char
    else if d < 44 then 'a' + (d - 33) as char
    else 'm' + (d - 44) as char
  }

  lemma Alphabet(d: nat)
    requires d < 58
    ensures |pszBase58| == 58 && pszBase58[d] == CharOf(d)
  {
  }

  /** strchr: the first place of c in the alphabet. */
  function Strchr(s: string, c: char): (i: Option<nat>)
    ensures i.Some? ==> i.value < |s| && s[i.value] == c && forall j | 0 <= j < i.value :: s[j] != c
    ensures i == None ==> c !in s
  {
    if s == "" then None
    else if s[0] == c then Some(0)
    else match Strchr(s[1..], c) case None => None case Some(i) => Some(i + 1)
  }

  predicate InAlphabet(c: char) {
    Strchr(pszBase58, c).Some?
  }

  function DigitOf(c: char): (d: nat)
    requires InAlphabet(c)
    ensures d < 58 && CharOf(d) == c
  {
    var d := Strchr(pszBase58, c).value;
    Alphabet(d);
    d
  }

  lemma CharOfDigit(d: nat)
    requires d < 58
    ensures InAlphabet(CharOf(d)) && DigitOf(CharOf(d)) == d
  {
    Alphabet(d);
    assert CharOf(d) in pszBase58;
    var i := Strchr(pszBase58, CharOf(d)).value;
    Alphabet(i);
    CharsDiffer(i, d);
  }

  lemma CharsDiffer(i: nat, d: nat)
    requires i < 58 && d < 58 && CharOf(i) == CharOf(d)
    ensures i == d
  {
  }

  /** isspace in the C locale. */
  predicate IsSpace(c: char) {
    c == ' ' || ('\t' <= c <= '\r')
  }

  /** The six characters skipped: space, tab, line feed, vertical tab, form feed and carriage return. */
  lemma SpacesAre(c: char)
    ensures IsSpace(c) <==> c as int in {32, 9, 10, 11, 12, 13}
  {
  }

  /** The alphabet is the digits and letters of ASCII in order, without 0, I, O and l. */
  lemma AlphabetIs(c: char)
    ensures InAlphabet(c) <==>
            ('0' <= c <= '9' || 'A' <= c <= 'Z' || 'a' <= c <= 'z') && c !in {'0', 'I', 'O', 'l'}
  {
    if InAlphabet(c) {
      assert CharOf(DigitOf(c)) == c;
    } else if ('0' <= c <= '9' || 'A' <= c <= 'Z' || 'a' <= c <= 'z') && c !in {'0', 'I', 'O', 'l'} {
      var d := PlaceOf(c);
      CharOfDigit(d);
    }
  }

  lemma PlaceOf(c: char) returns (d: nat)
    requires ('0' <= c <= '9' || 'A' <= c <= 'Z' || 'a' <= c <= 'z') && c !in {'0', 'I', 'O', 'l'}
    ensures d < 58 && CharOf(d) == c
  {
    d := if c <= '9' then (c - '1') as nat
         else if c <= 'H' then 9 + (c - 'A') as nat
         else if c <= 'N' then 17 + (c - 'J') as nat
         else if c <= 'Z' then 22 + (c - 'P') as nat
         else if c <= 'k' then 33 + (c - 'a') as nat
         else 44 + (c - 'm') as nat;
  }

  lemma DigitsInOrder(c: char, c': char)
    requires InAlphabet(c) && InAlphabet(c')
    ensures DigitOf(c) < DigitOf(c') <==> c < c'
  {
    var d, d' := DigitOf(c), DigitOf(c');
    assert CharOf(d) == c && CharOf(d') == c';
    hide DigitOf, InAlphabet;
  }

  lemma SpaceNotInAlphabet(c: char)
    requires IsSpace(c)
    ensures !InAlphabet(c)
  {
    if InAlphabet(c) {
      var d := DigitOf(c);
    }
  }

  function ToChars(ds: seq<nat>): (s: string)
    requires AreDigits(58, ds)
    ensures |s| == |ds|
  {
    seq(|ds|, i requires 0 <= i < |ds| => CharOf(ds[i]))
  }

  predicate IsBase58(s: string) {
    forall i | 0 <= i < |s| :: InAlphabet(s[i])
  }

  function FromChars(s: string): (ds: seq<nat>)
    requires IsBase58(s)
    ensures |ds| == |s| && AreDigits(58, ds)
  {
    seq(|s|, i requires 0 <= i < |s| => DigitOf(s[i]))
  }

  lemma CharsBack(ds: seq<nat>)
    requires AreDigits(58, ds)
    ensures IsBase58(ToChars(ds)) && FromChars(ToChars(ds)) == ds
  {
    hide InAlphabet, DigitOf;
    forall i | 0 <= i < |ds|
      ensures InAlphabet(ToChars(ds)[i]) && DigitOf(ToChars(ds)[i]) == ds[i]
    {
      CharOfDigit(ds[i]);
    }
  }

  lemma DigitsBack(s: string)
    requires IsBase58(s)
    ensures ToChars(FromChars(s)) == s
  {
  }

  // ---------- Encoding ----------

  function Encode(v: seq<Byte>): (s: string) {
    ConvertDigits(256, 58, v);
    ToChars(Convert(256, 58, v))
  }

  lemma ConvertDigits(from: nat, to: nat, s: seq<nat>)
    requires from > 1 && to > 1
    ensures AreDigits(to, Convert(from, to, s))
  {
    WrittenFacts(to, Value(from, s));
  }

  lemma {:induction false} ValIsValue(v: seq<Byte>)
    ensures Val(v) == Value(256, v)
  {
    if v != [] {
      ValIsValue(v[..|v| - 1]);
    }
  }

  method EncodeBase58(v: seq<Byte>) returns (str: string)
    ensures str == Encode(v)
  {
    var vchTmp: seq<Byte> := Reverse(v) + [0];
    var bn := BigNum.Denoted(Reverse(vchTmp));
    PositiveDenoted(v, vchTmp);
    hide Value, Written, BigNum.Denoted;
    ghost var ds;
    str, ds := DivideOut(bn);
    var p := 0;
    LeadingCounts(v);
    WrittenFacts(58, bn);
    ghost var w := Written(58, bn);
    while p < |v| && v[p] == 0
      invariant p <= Leading(v) && AreDigits(58, ds) && str == ToChars(ds) && ds == Reverse(Zeros(p) + w)
    {
      hide Leading;
      Alphabet(0);
      str := str + [pszBase58[0]];
      MoreZeros(p, w);
      ds := ds + [0];
      p := p + 1;
    }
    assert p == Leading(v);
    ConvertDigits(256, 58, v);
    ReverseTwice(Zeros(p) + w);
    ReversedChars(ds);
    str := Reverse(str);
  }

  lemma MoreZeros(p: nat, w: seq<nat>)
    ensures Reverse(Zeros(p) + w) + [0] == Reverse(Zeros(p + 1) + w)
  {
    assert Zeros(p + 1) + w == [0] + (Zeros(p) + w);
  }

  lemma ReversedChars(ds: seq<nat>)
    requires AreDigits(58, ds)
    ensures AreDigits(58, Reverse(ds)) && Reverse(ToChars(ds)) == ToChars(Reverse(ds))
  {
  }

  /** The extra zero at the end makes the number positive: it is the value of v. */
  lemma PositiveDenoted(v: seq<Byte>, vchTmp: seq<Byte>)
    requires vchTmp == Reverse(v) + [0]
    ensures BigNum.Denoted(Reverse(vchTmp)) == Value(256, v)
  {
    assert Reverse(vchTmp) == [0] + v;
    hide Val, Value;
    LeadingZero(v);
    ValIsValue(v);
  }

  /** The division loop: the digits from the lowest up. */
  method DivideOut(n: nat) returns (str: string, ghost ds: seq<nat>)
    ensures AreDigits(58, ds) && str == ToChars(ds) && ds == Reverse(Written(58, n))
  {
    hide Written;
    var bn := n;
    str, ds := "", [];
    while bn > 0
      invariant AreDigits(58, ds) && str == ToChars(ds)
      invariant Written(58, n) == Written(58, bn) + Reverse(ds)
      decreases bn
    {
      WrittenOne(58, bn);
      var c := bn % 58;
      ghost var w := Written(58, bn / 58);
      bn := bn / 58;
      Alphabet(c);
      str := str + [pszBase58[c]];
      MoreDigits(w, c, ds);
      ds := ds + [c];
    }
    WrittenNone(58);
    ReverseTwice(ds);
    assert [] + Reverse(ds) == Reverse(ds);
  }

  lemma MoreDigits(w: seq<nat>, c: nat, ds: seq<nat>)
    ensures (w + [c]) + Reverse(ds) == w + Reverse(ds + [c])
  {
    assert Reverse(ds + [c]) == [c] + Reverse(ds);
  }

  /** The loops that count leading zeros stop exactly at Leading. */
  lemma LeadingCounts(s: seq<nat>)
    ensures forall i | 0 <= i < Leading(s) :: s[i] == 0
    ensures Leading(s) < |s| ==> s[Leading(s)] != 0
  {
    LeadingPart(s);
    assert forall i | 0 <= i < Leading(s) :: s[i] == (Zeros(Leading(s)) + s[Leading(s)..])[i];
  }

  // ---------- Decoding ----------

  /** The characters before the first NUL. */
  function CStr(s: string): string {
    if s == "" || s[0] == '\0' then "" else [s[0]] + CStr(s[1..])
  }

  function SkipSpaces(s: string): (r: string)
    ensures |r| <= |s|
  {
    if s != "" && IsSpace(s[0]) then SkipSpaces(s[1..]) else s
  }

  /** How many characters of the alphabet s starts with. */
  function Run(s: string): (n: nat)
    ensures n <= |s| && IsBase58(s[..n]) && (n < |s| ==> !InAlphabet(s[n]))
  {
    if s == "" || !InAlphabet(s[0]) then 0
    else
      var n := 1 + Run(s[1..]);
      assert s[..n] == [s[0]] + s[1..][..n - 1];
      n
  }

  /** Spaces, characters of the alphabet, spaces: the bytes they stand for. */
  function Decode(str: string): Option<seq<Byte>> {
    var psz := SkipSpaces(CStr(str));
    var n := Run(psz);
    if SkipSpaces(psz[n..]) == "" then Some(ToBytes(FromChars(psz[..n]))) else None
  }

  function ToBytes(ds: seq<nat>): (v: seq<Byte>)
    ensures v == Convert(58, 256, ds)
  {
    ConvertDigits(58, 256, ds);
    var v := Convert(58, 256, ds);
    assert forall i | 0 <= i < |v| :: v[i] < 256;
    v
  }

  method Skip(s: string) returns (r: string)
    ensures r == SkipSpaces(s)
  {
    r := s;
    while r != "" && IsSpace(r[0])
      invariant SkipSpaces(r) == SkipSpaces(s)
      decreases |r|
    {
      r := r[1..];
    }
  }

  method DecodeBase58(str: string) returns (ok: bool, vchRet: seq<Byte>)
    ensures ok <==> Decode(str).Some?
    ensures ok ==> vchRet == Decode(str).value
    ensures !ok ==> vchRet == []
  {
    hide IsSpace, CStr, SkipSpaces, Value;
    vchRet := [];
    var psz := Skip(CStr(str));
    ghost var n := Run(psz);
    ghost var ds := FromChars(psz[..n]);
    var bn := 0;
    var p := 0;
    NoValue(ds);
    while p < |psz|
      invariant p <= n && bn == Value(58, ds[..p])
    {
      var p1 := Strchr(pszBase58, psz[p]);
      if p1 == None {
        var rest := Skip(psz[p..]);
        if rest != "" {
          return false, [];
        }
        break;
      }
      ValueNext(ds, p);
      bn := bn * 58 + p1.value;
      p := p + 1;
    }
    NothingLeft(psz);
    assert p == n && ds[..n] == ds;
    var vchTmp := Trimmed(bn);
    var nLeadingZeros := LeadingOnes(psz);
    vchRet := seq(nLeadingZeros, _ => 0) + vchTmp;
    ok := true;
  }

  lemma NoValue(ds: seq<nat>)
    ensures Value(58, ds[..0]) == 0
  {
  }

  lemma ValueNext(ds: seq<nat>, p: nat)
    requires p < |ds|
    ensures Value(58, ds[..p + 1]) == 58 * Value(58, ds[..p]) + ds[p]
  {
    assert ds[..p + 1] == ds[..p] + [ds[p]];
    Extend(58, ds[..p], ds[p]);
  }

  lemma NothingLeft(psz: string)
    ensures SkipSpaces(psz[|psz|..]) == ""
  {
  }

  /** The bytes of bn from the top: the sign byte that getvch may add is cut off. */
  method Trimmed(bn: nat) returns (bytes: seq<Byte>)
    ensures bytes == Written(256, bn)
  {
    hide Written, BigNum.Body;
    BodyWritten(bn);
    var body := BigNum.Body(bn);
    var vchTmp := Reverse(body);
    var k := |vchTmp|;
    if k >= 2 && vchTmp[k - 1] == 0 && vchTmp[k - 2] >= 0x80 {
      vchTmp := vchTmp[..k - 1];
      assert Reverse(vchTmp) == body[1..];
    } else {
      ReverseTwice(body);
    }
    bytes := Reverse(vchTmp);
  }

  /** The body that getvch gives is what is written in base 256, or that after a zero for the sign. */
  lemma BodyWritten(n: nat)
    ensures var body := BigNum.Body(n);
            if |body| >= 2 && body[0] == 0 && body[1] >= 0x80 then body[1..] == Written(256, n)
            else body == Written(256, n)
  {
    var body, k := BigNum.Body(n), BigNum.Length(n);
    BigNum.LengthExact(n);
    DigitsVal(n, k);
    ValIsValue(body);
    if n == 0 {
      assert body == [];
    } else if body[0] != 0 {
      ValueWritten(256, body);
    } else {
      SecondByte(n, body);
      assert body == [0] + body[1..];
      LeadingZero(body[1..]);
      ValIsValue(body[1..]);
      ValueWritten(256, body[1..]);
    }
  }

  lemma SecondByte(n: nat, body: seq<Byte>)
    requires body != [] && body[0] == 0 && Val(body) == n && n > 0 && 2 * n >= Pow256(|body| - 1)
    ensures |body| >= 2 && body[1] >= 0x80
  {
    assert body == [0] + body[1..];
    LeadingZero(body[1..]);
    var rest := body[1..];
    assert rest == [] ==> Val(rest) == 0;
    SplitVal(rest, 1);
    BigNum.OneByte(rest[0]);
    assert rest[..1] == [rest[0]];
    HighByte(n, rest[0], Pow256(|rest| - 1), Val(rest[1..]));
  }

  lemma HighByte(n: nat, b: nat, p: nat, r: nat)
    requires p > 0 && n == b * p + r && r < p && 2 * n >= 256 * p
    ensures b >= 128
  {
    Scale(p, b - 127);
    assert p * (b - 127) == b * p - 127 * p;
  }

  method LeadingOnes(psz: string) returns (n: nat)
    ensures n == Leading(FromChars(psz[..Run(psz)]))
  {
    n := 0;
    ghost var ds := FromChars(psz[..Run(psz)]);
    LeadingCounts(ds);
    CharOfDigit(0);
    hide Leading;
    while n < |psz| && psz[n] == '1'
      invariant n <= Leading(ds)
    {
      assert InAlphabet(psz[n]);
      assert n < Run(psz);
      n := n + 1;
    }
    assert n < |ds| ==> psz[n] == CharOf(ds[n]);
  }

  // ---------- A bijection ----------

  lemma {:induction false} PlainCStr(s: string)
    requires IsBase58(s)
    ensures CStr(s) == s && SkipSpaces(s) == s && Run(s) == |s|
  {
    if s != "" {
      NulNotInAlphabet();
      if IsSpace(s[0]) {
        SpaceNotInAlphabet(s[0]);
      }
      PlainCStr(s[1..]);
    }
  }

  lemma NulNotInAlphabet()
    ensures !InAlphabet('\0')
  {
    if InAlphabet('\0') {
      var d := DigitOf('\0');
    }
  }

  lemma DecodePlain(s: string)
    requires IsBase58(s)
    ensures Decode(s) == Some(ToBytes(FromChars(s)))
  {
    hide IsBase58, CStr, ToBytes, FromChars;
    PlainCStr(s);
    assert s[..|s|] == s && s[|s|..] == "";
  }

  /** Every byte vector comes back. */
  lemma DecodeEncode(v: seq<Byte>)
    ensures IsBase58(Encode(v)) && Decode(Encode(v)) == Some(v)
  {
    hide Convert, IsBase58, Decode, InAlphabet, FromChars, ToChars;
    ConvertDigits(256, 58, v);
    CharsBack(Convert(256, 58, v));
    DecodePlain(Encode(v));
    ConvertBack(256, 58, v);
  }

  /** Every string over the alphabet comes back. */
  lemma EncodeDecode(s: string)
    requires IsBase58(s)
    ensures Decode(s).Some? && Encode(Decode(s).value) == s
  {
    hide Convert, IsBase58, Decode, InAlphabet, FromChars, ToChars;
    DecodePlain(s);
    ConvertBack(58, 256, FromChars(s));
    DigitsBack(s);
  }

  /** Leading zero bytes and leading ones match. */
  lemma LeadingMatch(v: seq<Byte>)
    ensures AreDigits(58, Convert(256, 58, v)) && Leading(Convert(256, 58, v)) == Leading(v)
  {
    ConvertDigits(256, 58, v);
    var w := Written(58, Value(256, v));
    WrittenFacts(58, Value(256, v));
    WrittenNone(58);
    hide Written, Value, Leading;
    LeadingIs(Leading(v), w);
  }

  predicate AreSpaces(s: string) {
    forall i | 0 <= i < |s| :: IsSpace(s[i])
  }

  lemma {:induction false} SkipAll(a: string, s: string)
    requires AreSpaces(a) && (s == "" || !IsSpace(s[0]))
    ensures SkipSpaces(a + s) == s
  {
    if a != "" {
      assert (a + s)[1..] == a[1..] + s;
      SkipAll(a[1..], s);
    } else {
      assert a + s == s;
    }
  }

  lemma {:induction false} SkipParts(s: string) returns (a: string)
    ensures s == a + SkipSpaces(s) && AreSpaces(a)
  {
    a := "";
    if s != "" && IsSpace(s[0]) {
      var b := SkipParts(s[1..]);
      a := [s[0]] + b;
      assert s == [s[0]] + s[1..];
    }
  }

  lemma {:induction false} RunIs(s: string, rest: string)
    requires IsBase58(s) && (rest == "" || !InAlphabet(rest[0]))
    ensures Run(s + rest) == |s|
  {
    if s != "" {
      assert (s + rest)[1..] == s[1..] + rest;
      RunIs(s[1..], rest);
    } else {
      assert s + rest == rest;
    }
  }

  /** Exactly the strings of the alphabet with spaces around them, up to a NUL, are accepted; the spaces do not
      matter. */
  lemma DecodeAccepts(str: string)
    ensures Decode(str).Some? <==>
            exists a, s, b :: CStr(str) == a + s + b && AreSpaces(a) && IsBase58(s) && AreSpaces(b)
  {
    hide Decode, CStr, AreSpaces, IsBase58;
    if Decode(str).Some? {
      var a, s, b := Accepted(str);
      assert CStr(str) == a + s + b;
    }
    if a, s, b :| CStr(str) == a + s + b && AreSpaces(a) && IsBase58(s) && AreSpaces(b) {
      SpacesAround(str, a, s, b);
    }
  }

  lemma Accepted(str: string) returns (a: string, s: string, b: string)
    requires Decode(str).Some?
    ensures CStr(str) == a + s + b && AreSpaces(a) && IsBase58(s) && AreSpaces(b)
  {
    hide *;
    var psz := AcceptedParts(str);
    a := SkipParts(CStr(str));
    s, b := psz[..Run(psz)], psz[Run(psz)..];
    var b' := SkipParts(b);
    assert b == b' + "" == b';
    assert a + (s + b) == a + s + b;
  }

  lemma AcceptedParts(str: string) returns (psz: string)
    requires Decode(str).Some?
    ensures psz == SkipSpaces(CStr(str)) && Run(psz) <= |psz| && SkipSpaces(psz[Run(psz)..]) == ""
    ensures psz == psz[..Run(psz)] + psz[Run(psz)..]
  {
    psz := SkipSpaces(CStr(str));
    hide CStr, SkipSpaces, Run;
  }

  /** What is left after the spaces in front. */
  lemma SkippedFront(a: string, s: string, b: string)
    requires AreSpaces(a) && IsBase58(s) && AreSpaces(b)
    ensures SkipSpaces(a + s + b) == if s == "" then "" else s + b
  {
    hide IsSpace, InAlphabet;
    if s == "" {
      assert a + s + b == (a + b) + "";
      SkipAll(a + b, "");
    } else {
      if IsSpace(s[0]) {
        SpaceNotInAlphabet(s[0]);
      }
      assert a + s + b == a + (s + b);
      SkipAll(a, s + b);
    }
  }

  lemma SpacesAround(str: string, a: string, s: string, b: string)
    requires CStr(str) == a + s + b && AreSpaces(a) && IsBase58(s) && AreSpaces(b)
    ensures Decode(str) == Some(ToBytes(FromChars(s)))
  {
    hide IsSpace, InAlphabet, ToBytes, FromChars, CStr;
    SkippedFront(a, s, b);
    if b != "" {
      SpaceNotInAlphabet(b[0]);
    }
    var rest := if s == "" then "" else b;
    RunIs(s, rest);
    assert rest + "" == rest && s + rest == if s == "" then "" else s + b;
    SkipAll(rest, "");
    assert (s + rest)[..|s|] == s && (s + rest)[|s|..] == rest;
    hide Run, SkipSpaces;
  }

  // ---------- The reserved size ----------

  /** Digits enough for m bytes: eleven for every eight, and a few for the rest. */
  function Enough(m: nat): nat {
    if m == 0 then 0 else if m == 1 then 2 else if m == 2 then 3 else if m == 3 then 5
    else if m == 4 then 6 else if m == 5 then 7 else if m == 6 then 9 else if m == 7 then 10
    else 11 + Enough(m - 8)
  }

  lemma {:induction false} EnoughIsEnough(m: nat)
    ensures Power(256, m) <= Power(58, Enough(m))
  {
    if m < 8 {
      Powers();
    } else {
      EnoughIsEnough(m - 8);
      EightBytes(m - 8);
      ElevenDigits(Enough(m - 8));
      var p, q := Power(256, m - 8), Power(58, Enough(m - 8));
      MoreFactor(18446744073709551616, 24986644000165537792, p, q);
    }
  }

  lemma MoreFactor(a: nat, b: nat, p: nat, q: nat)
    requires a <= b && p <= q
    ensures a * p <= b * q
  {
    assert b * q == a * q + (b - a) * q && (b - a) * q >= 0;
    assert a * q == a * p + a * (q - p) && a * (q - p) >= 0;
  }

  lemma Powers()
    ensures Power(256, 0) == 1 && Power(256, 1) == 256 && Power(256, 2) == 65536 && Power(256, 3) == 16777216
    ensures Power(256, 4) == 4294967296 && Power(256, 5) == 1099511627776 && Power(256, 6) == 281474976710656
    ensures Power(256, 7) == 72057594037927936
    ensures Power(58, 0) == 1 && Power(58, 2) == 3364 && Power(58, 3) == 195112 && Power(58, 5) == 656356768
    ensures Power(58, 6) == 38068692544 && Power(58, 7) == 2207984167552 && Power(58, 9) == 7427658739644928
    ensures Power(58, 10) == 430804206899405824
  {
    assert Power(256, 2) == 256 * Power(256, 1);
    assert Power(256, 4) == 256 * Power(256, 3);
    assert Power(256, 6) == 256 * Power(256, 5);
    assert Power(58, 2) == 58 * Power(58, 1);
    assert Power(58, 4) == 58 * Power(58, 3);
    assert Power(58, 6) == 58 * Power(58, 5);
    assert Power(58, 8) == 58 * Power(58, 7);
  }

  lemma EightBytes(k: nat)
    ensures Power(256, k + 8) == 18446744073709551616 * Power(256, k)
  {
    assert Power(256, k + 2) == 256 * Power(256, k + 1);
    assert Power(256, k + 4) == 256 * Power(256, k + 3);
    assert Power(256, k + 6) == 256 * Power(256, k + 5);
    assert Power(256, k + 8) == 256 * Power(256, k + 7);
  }

  lemma ElevenDigits(k: nat)
    ensures Power(58, k + 11) == 24986644000165537792 * Power(58, k)
  {
    assert Power(58, k + 2) == 58 * Power(58, k + 1);
    assert Power(58, k + 4) == 58 * Power(58, k + 3);
    assert Power(58, k + 6) == 58 * Power(58, k + 5);
    assert Power(58, k + 8) == 58 * Power(58, k + 7);
    assert Power(58, k + 10) == 58 * Power(58, k + 9);
  }

  lemma {:induction false} EnoughFits(m: nat)
    ensures Enough(m) <= m * 138 / 100 + 1
  {
    if m >= 8 {
      EnoughFits(m - 8);
    }
  }

  /** The string never outgrows the space reserved for it. */
  lemma EncodedSize(v: seq<Byte>)
    ensures |Encode(v)| <= |v| * 138 / 100 + 1
  {
    hide Value, Written, Power, Enough;
    var z := Leading(v);
    var rest := v[z..];
    var m := |rest|;
    LeadingPart(v);
    LeadingZeros(256, z, rest);
    ValueBelow(256, rest);
    EnoughIsEnough(m);
    WrittenLength(58, Value(256, rest), Enough(m));
    EnoughFits(m);
    assert |Encode(v)| == z + |Written(58, Value(256, v))|;
  }

  // ---------- With a checksum ----------

  /** The hash gives 32 bytes. */
  ghost predicate IsHash(hash: seq<Byte> -> seq<Byte>) {
    forall v :: |hash(v)| == 32
  }

  method EncodeBase58Check(hash: seq<Byte> -> seq<Byte>, vchIn: seq<Byte>) returns (str: string)
    requires IsHash(hash)
    ensures str == Encode(vchIn + hash(vchIn)[..4])
  {
    var vch := vchIn;
    var h := hash(vch);
    vch := vch + h[..4];
    str := EncodeBase58(vch);
  }

  /** What is accepted: data followed by the first four bytes of its hash. */
  function DecodeCheck(hash: seq<Byte> -> seq<Byte>, str: string): Option<seq<Byte>>
    requires IsHash(hash)
  {
    match Decode(str)
    case None => None
    case Some(v) =>
      if |v| < 4 || hash(v[..|v| - 4])[..4] != v[|v| - 4..] then None else Some(v[..|v| - 4])
  }

  method DecodeBase58Check(hash: seq<Byte> -> seq<Byte>, str: string) returns (ok: bool, vchRet: seq<Byte>)
    requires IsHash(hash)
    ensures ok <==> DecodeCheck(hash, str).Some?
    ensures ok ==> vchRet == DecodeCheck(hash, str).value
    ensures !ok ==> vchRet == []
  {
    ok, vchRet := DecodeBase58(str);
    if !ok {
      return false, [];
    }
    if |vchRet| < 4 {
      return false, [];
    }
    var h := hash(vchRet[..|vchRet| - 4]);
    if h[..4] != vchRet[|vchRet| - 4..] {
      return false, [];
    }
    vchRet := vchRet[..|vchRet| - 4];
  }

  /** Decoding accepts v for exactly the strings that decode to v and its checksum; the encoded one is among them. */
  lemma CheckRoundTrip(hash: seq<Byte> -> seq<Byte>, v: seq<Byte>, str: string)
    requires IsHash(hash)
    ensures DecodeCheck(hash, str) == Some(v) <==> Decode(str) == Some(v + hash(v)[..4])
    ensures DecodeCheck(hash, Encode(v + hash(v)[..4])) == Some(v)
  {
    var w := v + hash(v)[..4];
    assert w[..|w| - 4] == v && w[|w| - 4..] == hash(v)[..4];
    DecodeEncode(w);
    hide Decode, Encode;
    if DecodeCheck(hash, str) == Some(v) {
      var u := Decode(str).value;
      assert u == u[..|u| - 4] + u[|u| - 4..];
    }
  }
}
