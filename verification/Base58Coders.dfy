/** EncodeBase58 and DecodeBase58 over byte and character sequences, with and without the checksum. */
module Base58Coders {
  import opened Options
  import opened Numerals
  import opened Base58

  // ---------------------------------------------------------------- what the coders compute

  ghost predicate Spelled(s: string) {
    forall i | 0 <= i < |s| :: CharDigit(s[i]) >= 0
  }

  ghost function Spell(ds: seq<nat>): string
    requires DigitsOf(58, ds)
  {
    seq(|ds|, i requires 0 <= i < |ds| => DigitChar(ds[i]))
  }

  ghost function Values(s: string): (ds: seq<nat>)
    requires Spelled(s)
    ensures |ds| == |s| && DigitsOf(58, ds)
  {
    CharDigits(s);
    seq(|s|, i requires 0 <= i < |s| => CharDigit(s[i]) as nat)
  }

  lemma CharDigits(s: string)
    ensures forall i | 0 <= i < |s| :: CharDigit(s[i]) < 58
  {
    forall i | 0 <= i < |s|
      ensures CharDigit(s[i]) < 58
    {
      CharDigitRange(s[i]);
    }
  }

  ghost function TrimRight(s: string): string {
    if s != [] && IsSpace(s[|s| - 1]) then TrimRight(s[..|s| - 1]) else s
  }

  ghost function Trimmed(s: string): string {
    if s != [] && IsSpace(s[0]) then Trimmed(s[1..]) else TrimRight(s)
  }

  ghost function Encoded(input: seq<nat>): string
    requires DigitsOf(256, input)
  {
    RebaseInverse(256, 58, input);
    Spell(Rebase(256, 58, input))
  }

  /** The bytes a text without white space around it stands for, if there are not too many. */
  ghost function Reading(t: string, maxLength: int): Option<seq<nat>> {
    if !Spelled(t) then None
    else
      var bytes := Rebase(58, 256, Values(t));
      if t == [] || |bytes| <= maxLength then Some(bytes) else None
  }

  ghost function Decoded(s: string, maxLength: int): Option<seq<nat>> {
    Reading(Trimmed(s), maxLength)
  }

  lemma ValuesSpell(ds: seq<nat>)
    requires DigitsOf(58, ds)
    ensures Spelled(Spell(ds)) && Values(Spell(ds)) == ds
  {
    var s := Spell(ds);
    forall i | 0 <= i < |ds|
      ensures CharDigit(s[i]) == ds[i]
    {
      DigitCharDigit(ds[i]);
    }
  }

  lemma SpellValues(s: string)
    requires Spelled(s)
    ensures Spell(Values(s)) == s
  {
    forall i | 0 <= i < |s|
      ensures DigitChar(Values(s)[i]) == s[i]
    {
      CharDigitRange(s[i]);
    }
  }

  lemma SpelledTrimmed(s: string)
    requires Spelled(s)
    ensures Trimmed(s) == s
  {
    if s != [] {
      CharDigitRange(s[0]);
      CharDigitRange(s[|s| - 1]);
    }
  }

  // ---------------------------------------------------------------- round trips

  /** Decoding gives back every encoded byte string, if and only if the limit lets it through. */
  lemma DecodeEncoded(input: seq<nat>, maxLength: int)
    requires DigitsOf(256, input)
    ensures Decoded(Encoded(input), maxLength) == if input == [] || |input| <= maxLength then Some(input) else None
  {
    hide Rebase;
    RebaseInverse(256, 58, input);
    var ds := Rebase(256, 58, input);
    ValuesSpell(ds);
    SpelledTrimmed(Spell(ds));
    RebaseEmpty(256, 58, input);
  }

  lemma RebaseEmpty(a: nat, b: nat, s: seq<nat>)
    requires a >= 2 && b >= 2
    ensures Rebase(a, b, s) == [] <==> s == []
  {
    if s == [] {
      NumNothing(a);
    } else if Lead(s) == 0 {
      NumPositive(a, s);
      DigitsValue(b, Num(a, s));
      assert s[0..] == s;
    }
  }

  /** Whatever decodes, encodes back to the text without its surrounding white space. */
  lemma EncodeDecoded(s: string, maxLength: int)
    requires Decoded(s, maxLength).Some?
    ensures DigitsOf(256, Decoded(s, maxLength).value) && Encoded(Decoded(s, maxLength).value) == Trimmed(s)
  {
    hide Rebase;
    var t := Trimmed(s);
    RebaseInverse(58, 256, Values(t));
    SpellValues(t);
  }

  /** Two texts decode alike only if they differ in surrounding white space alone. */
  lemma DecodedInjective(s: string, t: string, maxLength: int)
    requires Decoded(s, maxLength).Some? && Decoded(s, maxLength) == Decoded(t, maxLength)
    ensures Trimmed(s) == Trimmed(t)
  {
    hide Decoded, Trimmed;
    EncodeDecoded(s, maxLength);
    EncodeDecoded(t, maxLength);
  }

  // ---------------------------------------------------------------- encoding

  lemma RebaseAt(a: nat, b: nat, s: seq<nat>, z: nat)
    requires b >= 2 && z <= |s| && (forall i | 0 <= i < z :: s[i] == 0) && (z < |s| ==> s[z] != 0)
    ensures Rebase(a, b, s) == Zeros(z) + Digits(b, Num(a, s[z..]))
  {
    LeadUnique(s, z);
  }

  lemma ZeroBuffer(b: nat, s: seq<nat>)
    requires b >= 2 && forall i | 0 <= i < |s| :: s[i] == 0
    ensures DigitsOf(b, s) && Num(b, s) == 0 && Tight(b, s, 0)
  {
    NumZeros(b, s);
  }

  /** One more digit of the source fits the buffer, so no carry is left over. */
  lemma NoCarry(a: nat, b: nat, ds: seq<nat>, k: nat, was: seq<nat>, now: seq<nat>, carry: nat)
    requires a >= 2 && b >= 2 && k < |ds| && DigitsOf(a, ds) && Pow(a, |ds|) < Pow(b, |now|)
    requires Num(b, was) == Num(a, ds[..k]) && Carried(b, a, ds[k], was, now, carry)
    ensures carry == 0 && Num(b, now) == Num(a, ds[..k + 1])
  {
    hide Num, Pow;
    assert ds[..k + 1] == ds[..k] + [ds[k]];
    NumAppend(a, ds[..k], ds[k]);
    NumBound(a, ds[..k + 1]);
    Commute(a, Num(a, ds[..k]));
    if k + 1 < |ds| {
      PowExponent(a, k + 1, |ds|);
    }
    AtLeastOnce(carry, Pow(b, |now|));
  }

  method CountZeros(input: seq<nat>) returns (z: nat)
    ensures z <= |input| && (forall i | 0 <= i < z :: input[i] == 0) && (z < |input| ==> input[z] != 0)
  {
    z := 0;
    while z < |input| && input[z] == 0
      invariant z <= |input| && forall i | 0 <= i < z :: input[i] == 0
    {
      z := z + 1;
    }
  }

  /** Writes the number of the given bytes into a fresh base-58 buffer. */
  method EncodeDigits(rest: seq<nat>) returns (b58: array<nat>, length: nat)
    requires DigitsOf(256, rest)
    ensures DigitsOf(58, b58[..]) && length <= b58.Length
    ensures b58[b58.Length - length..] == Digits(58, Num(256, rest))
  {
    hide Num, Pow, Digits, Tight, Carried;
    var size := |rest| * 138 / 100 + 1;
    b58 := new nat[size](i => 0);
    length := 0;
    var k := 0;
    ZeroBuffer(58, b58[..]);
    NumNothing(256);
    EncodeFits(|rest|);
    assert rest[..0] == [];
    while k < |rest|
      invariant k <= |rest| && DigitsOf(58, b58[..]) && Tight(58, b58[..], length)
      invariant Num(58, b58[..]) == Num(256, rest[..k])
    {
      ghost var was := b58[..];
      var n, carry := MulAdd(b58, 58, 256, rest[k], length);
      NoCarry(256, 58, rest, k, was, b58[..], carry);
      assert carry == 0;
      length, k := n, k + 1;
    }
    assert rest[..k] == rest;
    TightWithin(58, b58[..], length);
    TightDigits(58, b58[..], length);
  }

  lemma TightWithin(b: nat, s: seq<nat>, n: nat)
    requires Tight(b, s, n)
    ensures n <= |s|
  {
  }

  lemma SpellParts(z: nat, ds: seq<nat>)
    requires DigitsOf(58, ds)
    ensures DigitsOf(58, Zeros(z) + ds) && Spell(Zeros(z) + ds) == seq(z, i => '1') + Spell(ds)
  {
  }

  method SkipZeroDigits(buf: array<nat>, start: nat) returns (it: nat)
    requires start <= buf.Length
    ensures start <= it <= buf.Length && forall j | start <= j < it :: buf[j] == 0
    ensures it < buf.Length ==> buf[it] != 0
  {
    it := start;
    while it != buf.Length && buf[it] == 0
      invariant start <= it <= buf.Length && forall j | start <= j < it :: buf[j] == 0
    {
      it := it + 1;
    }
  }

  method EncodeBase58(input: seq<nat>) returns (str: string)
    requires DigitsOf(256, input)
    ensures str == Encoded(input)
  {
    hide Num, Digits, Rebase;
    var zeroes := CountZeros(input);
    var b58, length := EncodeDigits(input[zeroes..]);
    ghost var ds := Digits(58, Num(256, input[zeroes..]));
    DigitsValue(58, Num(256, input[zeroes..]));
    DigitsNothing(58, Num(256, input[zeroes..]));
    RebaseAt(256, 58, input, zeroes);
    SpellParts(zeroes, ds);
    var it := SkipZeroDigits(b58, b58.Length - length);
    assert length > 0 ==> b58[b58.Length - length] == ds[0];
    assert it == b58.Length - length;
    str := seq(zeroes, i => '1');
    while it != b58.Length
      invariant b58.Length - length <= it <= b58.Length
      invariant str == seq(zeroes, i => '1') + Spell(ds)[..it - (b58.Length - length)]
    {
      assert b58[it] == ds[it - (b58.Length - length)];
      str := str + [DigitChar(b58[it])];
      it := it + 1;
    }
  }

  // ---------------------------------------------------------------- decoding

  lemma {:induction false} TrimRightKeeps(s: string, k: nat)
    requires k < |s| && !IsSpace(s[k])
    ensures |TrimRight(s)| > k && TrimRight(s) <= s
  {
    if IsSpace(s[|s| - 1]) {
      TrimRightKeeps(s[..|s| - 1], k);
    }
  }

  lemma {:induction false} TrimRightAll(s: string, q: nat)
    requires q <= |s| && (q > 0 ==> !IsSpace(s[q - 1])) && forall i | q <= i < |s| :: IsSpace(s[i])
    ensures TrimRight(s) == s[..q]
  {
    if q < |s| {
      TrimRightAll(s[..|s| - 1], q);
      assert s[..|s| - 1][..q] == s[..q];
    }
  }

  /** A character that is neither white space nor in the alphabet spoils the text. */
  lemma Spoiled(s: string, k: nat)
    requires k < |s| && CharDigit(s[k]) == -1 && !IsSpace(s[k])
    ensures !Spelled(TrimRight(s))
  {
    TrimRightKeeps(s, k);
    assert TrimRight(s)[k] == s[k];
  }

  /** So does white space before a later character. */
  lemma Interrupted(s: string, q: nat, k: nat)
    requires q < k < |s| && IsSpace(s[q]) && !IsSpace(s[k])
    ensures !Spelled(TrimRight(s))
  {
    TrimRightKeeps(s, k);
    CharDigitRange(s[q]);
    assert TrimRight(s)[q] == s[q];
  }

  /** A text too long for the limit after some of its digits is too long as a whole. */
  lemma TooLong(s: string, q: nat, maxLength: int)
    requires 0 < q <= |s| && Spelled(s[..q]) && |Rebase(58, 256, Values(s[..q]))| > maxLength
    ensures Spelled(TrimRight(s)) ==> TrimRight(s) != [] && |Rebase(58, 256, Values(TrimRight(s)))| > maxLength
  {
    hide Rebase;
    assert !IsSpace(s[q - 1]) by {
      assert s[..q][q - 1] == s[q - 1];
      CharDigitRange(s[q - 1]);
    }
    TrimRightKeeps(s, q - 1);
    var t := TrimRight(s);
    if Spelled(t) {
      assert Values(t)[..q] == Values(s[..q]);
      PrefixShorter(58, 256, Values(t), q);
    }
  }

  method SkipSpaces(s: string, start: nat) returns (p: nat)
    requires start <= |s|
    ensures start <= p <= |s| && (forall i | start <= i < p :: IsSpace(s[i])) && (p < |s| ==> !IsSpace(s[p]))
  {
    p := start;
    while p < |s| && IsSpace(s[p])
      invariant start <= p <= |s| && forall i | start <= i < p :: IsSpace(s[i])
    {
      p := p + 1;
    }
  }

  lemma {:induction false} TrimmedAfter(s: string, p: nat)
    requires p <= |s| && (forall i | 0 <= i < p :: IsSpace(s[i])) && (p < |s| ==> !IsSpace(s[p]))
    ensures Trimmed(s) == TrimRight(s[p..])
  {
    if p > 0 {
      TrimmedAfter(s[1..], p - 1);
      assert s[1..][p - 1..] == s[p..];
    } else {
      assert s[0..] == s;
    }
  }

  lemma AllOnes(s: string, z: nat)
    requires z <= |s| && forall i | 0 <= i < z :: s[i] == '1'
    ensures Spelled(s[..z]) && |Rebase(58, 256, Values(s[..z]))| == z
  {
    var vs := Values(s[..z]);
    LeadUnique(vs, z);
    assert vs[z..] == [];
    NumNothing(58);
    DigitsNothing(256, 0);
  }

  method CountOnes(s: string, maxLength: int) returns (z: nat, ok: bool)
    ensures ok ==> z <= |s| && (forall i | 0 <= i < z :: s[i] == '1') && (z < |s| ==> s[z] != '1')
                   && (z == 0 || z <= maxLength)
    ensures !ok ==> Reading(TrimRight(s), maxLength) == None
  {
    hide Reading, TrimRight;
    z := 0;
    while z < |s| && s[z] == '1'
      invariant z <= |s| && (forall i | 0 <= i < z :: s[i] == '1') && (z == 0 || z <= maxLength)
    {
      z := z + 1;
      if z > maxLength {
        RestTooLong(s, z, maxLength);
        return z, false;
      }
    }
    ok := true;
  }

  lemma RestTooLong(s: string, z: nat, maxLength: int)
    requires 0 < z <= |s| && z > maxLength && forall i | 0 <= i < z :: s[i] == '1'
    ensures Reading(TrimRight(s), maxLength) == None
  {
    AllOnes(s, z);
    TooLong(s, z, maxLength);
  }

  /** The first q characters begin with z ones and no more, and the buffer holds the number of the others. */
  ghost predicate Holds(s: string, z: nat, q: nat, buf: seq<nat>, n: nat) {
    && z <= q <= |s| && Spelled(s[..q]) && (forall i | 0 <= i < z :: s[i] == '1') && (z < q ==> s[z] != '1')
    && DigitsOf(256, buf) && Tight(256, buf, n) && Num(256, buf) == Num(58, Values(s[..q])[z..])
  }

  lemma HoldsBytes(s: string, z: nat, q: nat, buf: seq<nat>, n: nat)
    requires Holds(s, z, q, buf, n)
    ensures n <= |buf| && Rebase(58, 256, Values(s[..q])) == Zeros(z) + buf[|buf| - n..]
  {
    hide Num, Digits, Rebase, Pow;
    var vs := Values(s[..q]);
    forall i | 0 <= i < q
      ensures vs[i] == 0 <==> s[i] == '1'
    {
      CharDigitRange(s[i]);
    }
    RebaseAt(58, 256, vs, z);
    TightDigits(256, buf, n);
  }

  lemma HoldsStart(s: string, z: nat, buf: seq<nat>)
    requires z <= |s| && (forall i | 0 <= i < z :: s[i] == '1') && forall i | 0 <= i < |buf| :: buf[i] == 0
    ensures Holds(s, z, z, buf, 0)
  {
    ZeroBuffer(256, buf);
    assert Values(s[..z])[z..] == [];
    NumNothing(58);
  }

  lemma HoldsStep(s: string, z: nat, q: nat, was: seq<nat>, now: seq<nat>, n: nat, m: nat, carry: nat)
    requires Holds(s, z, q, was, n) && q < |s| && CharDigit(s[q]) >= 0 && (z == q ==> s[z] != '1')
    requires Carried(256, 58, CharDigit(s[q]), was, now, carry) && Pow(58, |s| - z) < Pow(256, |now|)
    requires DigitsOf(256, now) && (carry == 0 ==> Tight(256, now, m))
    ensures carry == 0 && Holds(s, z, q + 1, now, m)
  {
    hide Num, Pow, Carried, Tight;
    var t := s[..q + 1];
    assert Spelled(t);
    var ds := Values(t)[z..];
    assert ds[..q - z] == Values(s[..q])[z..];
    assert ds[q - z] == CharDigit(s[q]);
    if q + 1 < |s| {
      PowExponent(58, |ds|, |s| - z);
    }
    NoCarry(58, 256, ds, q - z, was, now, carry);
    assert ds[..q - z + 1] == ds;
  }

  lemma RestNone(s: string, z: nat, q: nat, buf: seq<nat>, n: nat, maxLength: int)
    requires Holds(s, z, q, buf, n) && 0 < q && n + z > maxLength
    ensures Reading(TrimRight(s), maxLength) == None
  {
    hide Holds, Rebase;
    HoldsBytes(s, z, q, buf, n);
    HoldsSpelled(s, z, q, buf, n);
    TooLong(s, q, maxLength);
  }

  lemma HoldsSpelled(s: string, z: nat, q: nat, buf: seq<nat>, n: nat)
    requires Holds(s, z, q, buf, n)
    ensures z <= q <= |s| && Spelled(s[..q])
  {
  }

  lemma RestSome(s: string, z: nat, q: nat, buf: seq<nat>, n: nat, maxLength: int)
    requires Holds(s, z, q, buf, n) && (q == 0 || n + z <= maxLength)
    requires forall i | q <= i < |s| :: IsSpace(s[i])
    ensures n <= |buf| && Reading(TrimRight(s), maxLength) == Some(Zeros(z) + buf[|buf| - n..])
  {
    hide Holds, Rebase, TrimRight;
    HoldsBytes(s, z, q, buf, n);
    HoldsSpelled(s, z, q, buf, n);
    if q > 0 {
      assert s[..q][q - 1] == s[q - 1];
      CharDigitRange(s[q - 1]);
    }
    TrimRightAll(s, q);
  }

  /** Decoding from the first character that is not white space on. */
  method DecodeText(s: string, maxLength: int) returns (r: Option<seq<nat>>)
    ensures r == Reading(TrimRight(s), maxLength)
  {
    hide Reading, TrimRight, Holds, Carried, Pow, Num, Tight, DigitsOf, Spelled, CharDigit;
    var z, ok := CountOnes(s, maxLength);
    if !ok {
      return None;
    }
    var size := (|s| - z) * 733 / 1000 + 1;
    DecodeFits(|s| - z);
    var b256 := new nat[size](i => 0);
    var length: nat, q: nat := 0, z;
    HoldsStart(s, z, b256[..]);
    while q < |s| && !IsSpace(s[q])
      invariant z <= q <= |s| && Holds(s, z, q, b256[..], length) && (q == 0 || length + z <= maxLength)
    {
      var digit: int := CharDigit(s[q]);
      CharDigitRange(s[q]);
      if digit == -1 {
        SpoiledReading(s, q, maxLength);
        return None;
      }
      ghost var was := b256[..];
      HoldsBuffer(s, z, q, was, length);
      var n, carry := MulAdd(b256, 256, 58, digit, length);
      HoldsStep(s, z, q, was, b256[..], length, n, carry);
      assert carry == 0;
      length, q := n, q + 1;
      if length + z > maxLength {
        RestNone(s, z, q, b256[..], length, maxLength);
        return None;
      }
    }
    var end := SkipSpaces(s, q);
    if end != |s| {
      SpoiledEnd(s, q, end, maxLength);
      return None;
    }
    RestSome(s, z, q, b256[..], length, maxLength);
    r := Some(seq(z, i => 0) + b256[size - length..]);
  }

  lemma HoldsBuffer(s: string, z: nat, q: nat, buf: seq<nat>, n: nat)
    requires Holds(s, z, q, buf, n)
    ensures DigitsOf(256, buf) && Tight(256, buf, n)
  {
  }

  lemma SpoiledReading(s: string, k: nat, maxLength: int)
    requires k < |s| && CharDigit(s[k]) == -1 && !IsSpace(s[k])
    ensures Reading(TrimRight(s), maxLength) == None
  {
    Spoiled(s, k);
  }

  lemma SpoiledEnd(s: string, q: nat, end: nat, maxLength: int)
    requires q <= end < |s| && IsSpace(s[q]) && !IsSpace(s[end])
    ensures Reading(TrimRight(s), maxLength) == None
  {
    Interrupted(s, q, end);
  }

  lemma SpoiledNul(s: string)
    requires '\0' in s
    ensures !Spelled(Trimmed(s))
  {
    if IsSpace(s[0]) {
      SpoiledNul(s[1..]);
    } else {
      var k :| 0 <= k < |s| && s[k] == '\0';
      Spoiled(s, k);
    }
  }

  method DecodeBase58(str: string, maxLength: int) returns (r: Option<seq<nat>>)
    ensures r == Decoded(str, maxLength)
  {
    hide TrimRight;
    if '\0' in str {
      SpoiledNul(str);
      return None;
    }
    var p := SkipSpaces(str, 0);
    TrimmedAfter(str, p);
    r := DecodeText(str[p..], maxLength);
  }

  // ---------------------------------------------------------------- checksums

  const INT_MAX: int := 0x7fff_ffff

  /** The first four bytes of a hash, the hash itself being left open. */
  ghost predicate IsChecksum(sum: seq<nat> -> seq<nat>) {
    forall x :: |sum(x)| == 4 && DigitsOf(256, sum(x))
  }

  function CheckedLimit(maxLength: int): int {
    if maxLength > INT_MAX - 4 then INT_MAX else maxLength + 4
  }

  ghost function Checked(decoded: Option<seq<nat>>, sum: seq<nat> -> seq<nat>): Option<seq<nat>> {
    if decoded == None || |decoded.value| < 4 then None
    else
      var n := |decoded.value| - 4;
      if sum(decoded.value[..n]) == decoded.value[n..] then Some(decoded.value[..n]) else None
  }

  method EncodeBase58Check(input: seq<nat>, sum: seq<nat> -> seq<nat>) returns (str: string)
    requires DigitsOf(256, input) && IsChecksum(sum)
    ensures DigitsOf(256, input + sum(input)) && str == Encoded(input + sum(input))
  {
    str := EncodeBase58(input + sum(input));
  }

  method DecodeBase58Check(str: string, sum: seq<nat> -> seq<nat>, maxLength: int) returns (r: Option<seq<nat>>)
    ensures r == Checked(Decoded(str, CheckedLimit(maxLength)), sum)
  {
    hide Decoded;
    var d := DecodeBase58(str, CheckedLimit(maxLength));
    if d == None || |d.value| < 4 {
      return None;
    }
    var n := |d.value| - 4;
    if sum(d.value[..n]) != d.value[n..] {
      return None;
    }
    r := Some(d.value[..n]);
  }

  /** A text passes the check as the bytes b exactly when it is the checked encoding of b, up to
      white space around it, and b is within the limit. */
  lemma CheckedIff(str: string, sum: seq<nat> -> seq<nat>, maxLength: int, b: seq<nat>)
    requires IsChecksum(sum) && DigitsOf(256, b)
    ensures Checked(Decoded(str, CheckedLimit(maxLength)), sum) == Some(b)
            <==> Trimmed(str) == Encoded(b + sum(b)) && |b| + 4 <= CheckedLimit(maxLength)
  {
    hide Trimmed, Encoded, Reading;
    var limit := CheckedLimit(maxLength);
    var full := b + sum(b);
    DecodeEncoded(full, limit);
    EncodedTrimmed(full);
    if Decoded(str, limit).Some? {
      EncodeDecoded(str, limit);
      var d := Decoded(str, limit).value;
      DecodeEncoded(d, limit);
      if |d| >= 4 {
        assert d == d[..|d| - 4] + d[|d| - 4..];
      }
    }
    assert full[..|full| - 4] == b && full[|full| - 4..] == sum(b);
  }

  lemma EncodedTrimmed(b: seq<nat>)
    requires DigitsOf(256, b)
    ensures Trimmed(Encoded(b)) == Encoded(b)
  {
    hide Rebase;
    RebaseInverse(256, 58, b);
    ValuesSpell(Rebase(256, 58, b));
    SpelledTrimmed(Encoded(b));
  }
}
