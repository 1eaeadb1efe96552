/** Base58: both coders change the base of a number held in a digit buffer, keeping its leading zeros. */
module Base58 {
  import opened Numerals

  // ---------------------------------------------------------------- the alphabet

  /** Digits and letters in order, without "0", "I", "O" and "l". */
  function DigitChar(v: nat): char
    requires v < 58
  {
    if v < 9 then '1' + v as char
    else if v < 17 then 'A' + (v - 9) as char
    else if v < 22 then 'J' + (v - 17) as char
    else if v < 33 then 'P' + (v - 22) as char
    else if v < 44 then 'a' + (v - 33) as char
    else 'm' + (v - 44) as char
  }

  /** The digit of a character, -1 for one outside the alphabet. */
  function CharDigit(c: char): int {
    if '1' <= c <= '9' then c as int - '1' as int
    else if 'A' <= c <= 'H' then c as int - 'A' as int + 9
    else if 'J' <= c <= 'N' then c as int - 'J' as int + 17
    else if 'P' <= c <= 'Z' then c as int - 'P' as int + 22
    else if 'a' <= c <= 'k' then c as int - 'a' as int + 33
    else if 'm' <= c <= 'z' then c as int - 'm' as int + 44
    else -1
  }

  predicate IsSpace(c: char) {
    c == ' ' || 9 <= c as int <= 13
  }

  lemma CharDigitRange(c: char)
    ensures -1 <= CharDigit(c) < 58 && (CharDigit(c) >= 0 ==> DigitChar(CharDigit(c)) == c)
    ensures CharDigit(c) == 0 <==> c == '1'
    ensures IsSpace(c) || c == '\0' ==> CharDigit(c) == -1
  {
  }

  lemma DigitCharDigit(v: nat)
    requires v < 58
    ensures CharDigit(DigitChar(v)) == v
  {
  }

  // ---------------------------------------------------------------- change of base

  ghost function Zeros(n: nat): seq<nat> {
    seq(n, i => 0)
  }

  /** The number of leading zeros. */
  ghost function Lead(s: seq<nat>): (z: nat)
    ensures z <= |s| && (forall i | 0 <= i < z :: s[i] == 0) && (z < |s| ==> s[z] != 0)
  {
    if s == [] || s[0] != 0 then 0 else 1 + Lead(s[1..])
  }

  /** The number in base b, after as many zeros as its digits in base a begin with. */
  ghost function Rebase(a: nat, b: nat, s: seq<nat>): seq<nat>
    requires b >= 2
  {
    Zeros(Lead(s)) + Digits(b, Num(a, s[Lead(s)..]))
  }

  lemma LeadUnique(s: seq<nat>, z: nat)
    requires z <= |s| && (forall i | 0 <= i < z :: s[i] == 0) && (z < |s| ==> s[z] != 0)
    ensures Lead(s) == z
  {
  }

  /** Changing the base is undone by changing it back, whatever the bases. */
  lemma RebaseInverse(a: nat, b: nat, s: seq<nat>)
    requires a >= 2 && b >= 2 && DigitsOf(a, s)
    ensures DigitsOf(b, Rebase(a, b, s)) && Rebase(b, a, Rebase(a, b, s)) == s
  {
    hide Num, Digits;
    var z := Lead(s);
    var t := s[z..];
    var v := Num(a, t);
    var d := Digits(b, v);
    DigitsValue(b, v);
    DigitsUnique(a, t);
    DigitsNothing(b, v);
    if t == [] {
      NumNothing(a);
    } else {
      NumPositive(a, t);
    }
    var r := Zeros(z) + d;
    LeadUnique(r, z);
    assert r[z..] == d;
    assert s == Zeros(z) + t;
  }

  lemma NumNothing(a: nat)
    ensures Num(a, []) == 0
  {
  }

  lemma DigitsNothing(b: nat, v: nat)
    requires b >= 2
    ensures v == 0 ==> Digits(b, v) == []
  {
  }

  lemma {:induction false} DigitsGrow(b: nat, v: nat, w: nat)
    requires b >= 2 && v <= w
    ensures |Digits(b, v)| <= |Digits(b, w)|
    decreases w
  {
    if v > 0 {
      DivSmaller(w, b);
      DivGrow(v, w, b);
      DigitsGrow(b, v / b, w / b);
    }
  }

  lemma DivGrow(v: nat, w: nat, b: nat)
    requires b >= 2 && v <= w
    ensures v / b <= w / b
  {
    var q, p := v / b, w / b;
    assert v == q * b + v % b && w == p * b + w % b;
    assert (p - q) * b == p * b - q * b;
    AtLeastOnce(p - q, b);
  }

  /** A prefix never takes more digits than the whole. */
  lemma PrefixShorter(a: nat, b: nat, s: seq<nat>, q: nat)
    requires a >= 1 && b >= 2 && q <= |s|
    ensures |Rebase(a, b, s[..q])| <= |Rebase(a, b, s)|
  {
    hide Num, Digits;
    var z := Lead(s);
    if q <= z {
      LeadUnique(s[..q], q);
      assert s[..q][q..] == [];
      NumNothing(a);
      DigitsNothing(b, 0);
    } else {
      LeadUnique(s[..q], z);
      var t := s[..q][z..];
      assert s[z..] == t + s[q..];
      NumConcat(a, t, s[q..]);
      PowPositive(a, |s[q..]|);
      MulMono(Num(a, t), 1, Num(a, t), Pow(a, |s[q..]|));
      DigitsGrow(b, Num(a, t), Num(a, s[z..]));
    }
  }

  // ---------------------------------------------------------------- the buffers suffice

  lemma EncodeRatio()
    ensures Pow(256, 8) <= Pow(58, 11)
  {
    hide Pow;
    Small256();
    Small58();
    PowPlus(256, 4, 4);
    PowPlus(58, 4, 4);
    PowPlus(58, 8, 3);
  }

  lemma Small58()
    ensures Pow(58, 3) == 195112 && Pow(58, 4) == 11316496
  {
    assert Pow(58, 3) == 195112;
  }

  lemma Small256()
    ensures Pow(256, 4) == 4294967296
  {
    assert Pow(256, 2) == 65536;
  }

  lemma Powers58()
    ensures Pow(58, 7) == 2207984167552
    ensures Pow(58, 64) ==
            72342179355466901471258927612150153907721848234316445933056526044582001260898145151856420451025374266490194231296
  {
    hide Pow;
    Small58();
    PowPlus(58, 4, 3);
    PowPlus(58, 4, 4);
    PowPlus(58, 8, 8);
    PowPlus(58, 16, 16);
    PowPlus(58, 32, 32);
  }

  lemma Powers256()
    ensures Pow(256, 52) ==
            169230328010303641331690318856389386196071598838855992136870091590247882556495704531248437872567112920983350278405979725889536
  {
    hide Pow;
    Small256();
    PowPlus(256, 4, 4);
    PowPlus(256, 8, 8);
    PowPlus(256, 16, 16);
    PowPlus(256, 32, 16);
    PowPlus(256, 48, 4);
  }

  lemma DecodeRatio()
    ensures Pow(58, 71) <= Pow(256, 52)
  {
    hide Pow;
    Powers58();
    Powers256();
    PowPlus(58, 64, 7);
  }

  /** n bytes fit n * 138 / 100 + 1 base-58 digits. */
  lemma EncodeFits(n: nat)
    ensures Pow(256, n) < Pow(58, n * 138 / 100 + 1)
  {
    hide Pow;
    EncodeRatio();
    DigitsFit(256, 58, 8, 11, n, n * 138 / 100 + 1);
  }

  /** n base-58 digits fit n * 733 / 1000 + 1 bytes. */
  lemma DecodeFits(n: nat)
    ensures Pow(58, n) < Pow(256, n * 733 / 1000 + 1)
  {
    hide Pow;
    DecodeRatio();
    DigitsFit(58, 256, 71, 52, n, n * 733 / 1000 + 1);
  }

  // ---------------------------------------------------------------- the digit buffer

  /** The buffer holds its value in the last n places, and could not in fewer. */
  ghost predicate Tight(b: nat, s: seq<nat>, n: nat) {
    n <= |s| && (forall i | 0 <= i < |s| - n :: s[i] == 0) && (n > 0 ==> Pow(b, n - 1) <= Num(b, s))
  }

  lemma NumFront(b: nat, d: nat, t: seq<nat>)
    ensures Num(b, [d] + t) == d * Pow(b, |t|) + Num(b, t)
  {
    NumConcat(b, [d], t);
    assert Num(b, [d]) == d;
  }

  /** The last n places of a tight buffer are the digits of its value. */
  lemma TightDigits(b: nat, s: seq<nat>, n: nat)
    requires b >= 2 && DigitsOf(b, s) && Tight(b, s, n)
    ensures s[|s| - n..] == Digits(b, Num(b, s))
  {
    hide Num, Pow, Digits;
    var m := |s| - n;
    SuffixValue(b, s, n);
    if n > 0 && s[m] == 0 {
      assert s[m..] == [s[m]] + s[m + 1..];
      NumFront(b, s[m], s[m + 1..]);
      NumBound(b, s[m + 1..]);
    }
    DigitsUnique(b, s[m..]);
  }

  lemma SuffixValue(b: nat, s: seq<nat>, n: nat)
    requires n <= |s| && forall i | 0 <= i < |s| - n :: s[i] == 0
    ensures Num(b, s) == Num(b, s[|s| - n..])
  {
    hide Num, Pow;
    var m := |s| - n;
    assert s == s[..m] + s[m..];
    NumConcat(b, s[..m], s[m..]);
    NumZeros(b, s[..m]);
  }

  /** What the carry loop has done to the last places when the carry stands at c. */
  ghost predicate Carried(b: nat, mul: nat, add: nat, was: seq<nat>, now: seq<nat>, c: nat) {
    Num(b, now) + c * Pow(b, |now|) == mul * Num(b, was) + add
  }

  lemma CarryStep(b: nat, mul: nat, add: nat, was: seq<nat>, now: seq<nat>, c: nat, d: nat)
    requires b >= 2 && |was| == |now| && Carried(b, mul, add, was, now, c)
    ensures Carried(b, mul, add, [d] + was, [(c + mul * d) % b] + now, (c + mul * d) / b)
  {
    hide Num, Pow;
    var x := c + mul * d;
    var q, r := x / b, x % b;
    assert x == q * b + r;
    var p := Pow(b, |now|);
    NumFront(b, d, was);
    NumFront(b, r, now);
    PowStep(b, |now|);
    CarryAlgebra(b, mul, c, d, q, r, p, Num(b, was));
  }

  lemma PowStep(b: nat, n: nat)
    ensures Pow(b, n + 1) == b * Pow(b, n)
  {
  }

  lemma CarryAlgebra(b: nat, mul: nat, c: nat, d: nat, q: nat, r: nat, p: nat, w: nat)
    requires c + mul * d == q * b + r
    ensures r * p + q * (b * p) == c * p + mul * (d * p)
    ensures mul * (d * p + w) == mul * (d * p) + mul * w
  {
    assert r * p + q * (b * p) == (q * b + r) * p;
    assert c * p + mul * (d * p) == (c + mul * d) * p;
  }

  lemma CarryDone(b: nat, mul: nat, add: nat, was: seq<nat>, now: seq<nat>, i: nat)
    requires |was| == |now| && i <= |was| && was[..|was| - i] == now[..|was| - i]
    requires forall k | 0 <= k < |was| - i :: was[k] == 0
    requires Carried(b, mul, add, was[|was| - i..], now[|was| - i..], 0)
    ensures Num(b, now) == mul * Num(b, was) + add
  {
    hide Num, Pow;
    forall k | 0 <= k < |was| - i
      ensures now[k] == 0
    {
      assert now[..|was| - i][k] == was[..|was| - i][k];
    }
    SuffixValue(b, was, i);
    SuffixValue(b, now, i);
  }

  lemma CarryStart(b: nat, mul: nat, add: nat, was: seq<nat>, now: seq<nat>)
    requires was == [] && now == []
    ensures Carried(b, mul, add, was, now, add)
  {
  }

  lemma CarriedNothing(b: nat, mul: nat, add: nat, was: seq<nat>, now: seq<nat>)
    requires Num(b, now) == mul * Num(b, was) + add
    ensures Carried(b, mul, add, was, now, 0)
  {
  }

  lemma Digit(x: nat, b: nat)
    requires b >= 2
    ensures x % b < b && x / b >= 0 && (x > 0 ==> x % b > 0 || x / b > 0)
  {
  }

  lemma TightKept(b: nat, mul: nat, add: nat, was: seq<nat>, now: seq<nat>, length: nat, n: nat)
    requires mul >= 1 && |was| == |now| && Tight(b, was, length) && length <= n <= |was|
    requires was[..|was| - n] == now[..|was| - n] && Num(b, now) == mul * Num(b, was) + add
    requires n > length ==> now[|was| - n] > 0
    ensures Tight(b, now, n)
  {
    hide Num, Pow;
    forall k | 0 <= k < |was| - n
      ensures now[k] == 0
    {
      assert now[..|was| - n][k] == was[..|was| - n][k];
    }
    if n > length {
      TightGrown(b, now, n);
    } else {
      MulMono(1, Num(b, was), mul, Num(b, was));
    }
  }

  lemma TightGrown(b: nat, s: seq<nat>, i: nat)
    requires 0 < i <= |s| && s[|s| - i] > 0
    ensures Pow(b, i - 1) <= Num(b, s)
  {
    hide Num, Pow;
    var m := |s| - i;
    assert s == s[..m] + s[m..];
    NumConcat(b, s[..m], s[m..]);
    assert s[m..] == [s[m]] + s[m + 1..];
    NumFront(b, s[m], s[m + 1..]);
    MulMono(1, Pow(b, i - 1), s[m], Pow(b, i - 1));
  }

  /** Multiplies the number in the buffer by mul and adds to it, from the last digit up, going no
      further than the digits in use or a carry need. */
  method MulAdd(buf: array<nat>, b: nat, mul: nat, add: nat, length: nat) returns (n: nat, carry: nat)
    requires b >= 2 && mul >= 1 && DigitsOf(b, buf[..]) && Tight(b, buf[..], length)
    modifies buf
    ensures DigitsOf(b, buf[..]) && Carried(b, mul, add, old(buf[..]), buf[..], carry)
    ensures carry == 0 ==> Tight(b, buf[..], n)
  {
    hide Num, Pow;
    ghost var was := buf[..];
    var size := buf.Length;
    n, carry := 0, add;
    CarryStart(b, mul, add, was[size..], buf[size..]);
    while (carry != 0 || n < length) && n != size
      invariant n <= size && was[..size - n] == buf[..size - n] && DigitsOf(b, buf[..])
      invariant Carried(b, mul, add, was[size - n..], buf[size - n..], carry)
      invariant n > length ==> carry > 0 || buf[size - n] > 0
    {
      var k := size - 1 - n;
      CarryStep(b, mul, add, was[k + 1..], buf[k + 1..], carry, buf[k]);
      ghost var rest := buf[k + 1..];
      assert was[k..] == [was[k]] + was[k + 1..];
      assert was[..k + 1][k] == buf[..k + 1][k];
      var x := carry + mul * buf[k];
      Digit(x, b);
      buf[k] := x % b;
      carry := x / b;
      assert buf[k..] == [buf[k]] + rest;
      assert was[..k] == was[..k + 1][..k] == buf[..k];
      n := n + 1;
    }
    if carry == 0 {
      CarryDone(b, mul, add, was, buf[..], n);
      CarriedNothing(b, mul, add, was, buf[..]);
      TightKept(b, mul, add, was, buf[..], length, n);
    } else {
      assert was[0..] == was && buf[0..] == buf[..];
    }
  }
}
