/** Decimal integers as strconv formats and parses them, over bytes. */
module Decimal {
  import opened RemoteTree
  import opened Base64
  import opened Options
  import opened Limits

  /** The decimal digits of a number, most significant first. */
  function Digits(n: nat): (s: seq<nat>)
    ensures s != [] && forall i :: 0 <= i < |s| ==> s[i] < 10
  {
    if n < 10 then [n] else Digits(n / 10) + [n % 10]
  }

  lemma {:induction false} DigitsInjective(m: nat, n: nat)
    requires Digits(m) == Digits(n)
    ensures m == n
  {
    var s, t := Digits(m), Digits(n);
    assert s[|s| - 1] == m % 10 && t[|t| - 1] == n % 10;
    if m >= 10 && n >= 10 {
      assert s[..|s| - 1] == Digits(m / 10) && t[..|t| - 1] == Digits(n / 10);
      DigitsInjective(m / 10, n / 10);
    } else {
      assert m >= 10 ==> |s| > 1;
      assert n >= 10 ==> |t| > 1;
    }
  }

  predicate IsDigit(c: Byte) {
    48 <= c <= 57
  }

  predicate AllDigits(s: Text) {
    forall i | 0 <= i < |s| :: IsDigit(s[i])
  }

  function FormatNat(n: nat): (s: Text)
    ensures s != [] && AllDigits(s)
  {
    var d := Digits(n);
    seq(|d|, i requires 0 <= i < |d| => 48 + d[i])
  }

  function FormatInt(n: int): Text {
    if n < 0 then [45] + FormatNat(-n) else FormatNat(n)
  }

  function ValueOf(s: Text): nat
    requires AllDigits(s)
  {
    if s == [] then 0 else ValueOf(s[..|s| - 1]) * 10 + (s[|s| - 1] as int - 48)
  }

  /** An optional sign, at least one digit, nothing else, and the value must fit 64 bits. */
  function ParseInt(s: Text): Option<int> {
    var digits := if s != [] && (s[0] == 43 || s[0] == 45) then s[1..] else s;
    if digits == [] || !AllDigits(digits) then None
    else
      var n := if s[0] == 45 then -(ValueOf(digits) as int) else ValueOf(digits);
      if MIN64 <= n <= MAX64 then Some(n) else None
  }

  lemma {:induction false} ValueOfFormat(n: nat)
    ensures ValueOf(FormatNat(n)) == n
  {
    var s := FormatNat(n);
    if n < 10 {
      assert s[..0] == [];
    } else {
      ValueOfFormat(n / 10);
      assert s[..|s| - 1] == FormatNat(n / 10);
    }
  }

  lemma ParseFormat(n: int)
    requires MIN64 <= n <= MAX64
    ensures ParseInt(FormatInt(n)) == Some(n)
  {
    var s := FormatInt(n);
    if n < 0 {
      ValueOfFormat(-n);
      assert s[1..] == FormatNat(-n);
    } else {
      ValueOfFormat(n);
    }
  }

  lemma FormatSign(n: int)
    ensures FormatInt(n) != [] && (FormatInt(n)[0] == 45 <==> n < 0)
  {
    assert n >= 0 ==> IsDigit(FormatInt(n)[0]);
  }

  lemma FormatInjective(m: int, n: int)
    requires FormatInt(m) == FormatInt(n)
    ensures m == n
  {
    if m < 0 && n < 0 {
      assert FormatInt(m)[1..] == FormatNat(-m);
      assert FormatInt(n)[1..] == FormatNat(-n);
      ValueOfFormat(-m);
      ValueOfFormat(-n);
    } else if m >= 0 && n >= 0 {
      ValueOfFormat(m);
      ValueOfFormat(n);
    } else {
      FormatSign(m);
      FormatSign(n);
    }
  }

  lemma ParsedNoColon(s: Text)
    requires ParseInt(s).Some?
    ensures 58 !in s
  {
    var signed := s != [] && (s[0] == 43 || s[0] == 45);
    var digits := if signed then s[1..] else s;
    assert AllDigits(digits);
    assert signed ==> forall i :: 0 < i < |s| ==> s[i] == digits[i - 1];
  }

  lemma FormatNoColon(n: int)
    ensures 58 !in FormatInt(n)
  {
  }

  // ------------------------------------------------------- which texts are numbers

  function Zeros(k: nat): (s: Text)
    ensures |s| == k && AllDigits(s)
  {
    seq(k, i => 48)
  }

  function Padded(zeros: nat, m: nat): (s: Text)
    ensures s != [] && AllDigits(s)
  {
    Zeros(zeros) + FormatNat(m)
  }

  lemma PaddedValue(zeros: nat, m: nat)
    ensures ValueOf(Padded(zeros, m)) == m
  {
    ValueOfFormat(m);
    ValueOfZeros(zeros, FormatNat(m));
  }

  /** A sign or none, any number of leading zeros, and the number as it is formatted. */
  ghost predicate Spells(s: Text, n: int, sign: Text, zeros: nat) {
    && s == sign + Padded(zeros, if n < 0 then -n else n)
    && sign in {[], ['+' as int], ['-' as int]} && (n < 0 ==> sign == ['-' as int]) && (n > 0 ==> sign != ['-' as int])
  }

  lemma {:induction false} ValueOfZeros(k: nat, s: Text)
    requires AllDigits(s)
    ensures AllDigits(Zeros(k) + s) && ValueOf(Zeros(k) + s) == ValueOf(s)
    decreases |s|, k
  {
    var t := Zeros(k) + s;
    if s != [] {
      ValueOfZeros(k, s[..|s| - 1]);
      assert t[..|t| - 1] == Zeros(k) + s[..|s| - 1];
    } else if k > 0 {
      ValueOfZeros(k - 1, []);
      assert t[..|t| - 1] == Zeros(k - 1) + [];
    }
  }

  lemma MoreDigits(v: nat, c: Byte)
    requires v > 0 && IsDigit(c)
    ensures FormatNat(v * 10 + (c as int - 48)) == FormatNat(v) + [c]
  {
    var n := v * 10 + (c as int - 48);
    assert n / 10 == v && n % 10 == c as int - 48;
  }

  /** One more digit after a padded number: a zero becomes padding. */
  lemma PaddedMore(zeros: nat, v: nat, c: Byte)
    requires IsDigit(c)
    ensures Padded(zeros, v) + [c] == Padded(if v == 0 then zeros + 1 else zeros, v * 10 + (c as int - 48))
  {
    if v == 0 {
      assert Zeros(zeros + 1) == Zeros(zeros) + [48];
      assert FormatNat(0) == [48] && FormatNat(c as int - 48) == [c];
    } else {
      MoreDigits(v, c);
    }
  }

  /** Digits are leading zeros and the number they stand for. */
  lemma {:induction false} DigitsSpell(s: Text) returns (zeros: nat)
    requires AllDigits(s) && s != []
    ensures s == Padded(zeros, ValueOf(s))
  {
    var init, c := s[..|s| - 1], s[|s| - 1];
    assert s == init + [c];
    if init == [] {
      return 0;
    }
    zeros := DigitsSpell(init);
    PaddedMore(zeros, ValueOf(init), c);
    zeros := if ValueOf(init) == 0 then zeros + 1 else zeros;
  }

  /** What a sign and digits after it read as. */
  lemma SignedReads(s: Text, sign: Text, digits: Text)
    requires s == sign + digits && digits != [] && AllDigits(digits) && sign in {[], [43], [45]}
    ensures (var n := if sign == [45] then -(ValueOf(digits) as int) else ValueOf(digits);
      ParseInt(s) == if MIN64 <= n <= MAX64 then Some(n) else None)
  {
    assert IsDigit(digits[0]);
    if sign == [] {
      assert s == digits;
    } else {
      assert s[0] == sign[0] && s[1..] == digits;
    }
  }

  lemma SpelledReads(s: Text, n: int, sign: Text, zeros: nat)
    requires Spells(s, n, sign, zeros)
    ensures ParseInt(s) == if MIN64 <= n <= MAX64 then Some(n) else None
  {
    var m: nat := if n < 0 then -n else n;
    PaddedValue(zeros, m);
    SignedReads(s, sign, Padded(zeros, m));
  }

  lemma ParsedSpells(s: Text, n: int) returns (sign: Text, zeros: nat)
    requires ParseInt(s) == Some(n)
    ensures MIN64 <= n <= MAX64 && Spells(s, n, sign, zeros)
  {
    var signed := s[0] == 43 || s[0] == 45;
    sign := if signed then [s[0]] else [];
    var digits := if signed then s[1..] else s;
    assert s == sign + digits;
    SignedReads(s, sign, digits);
    zeros := PaddedDigits(digits, ValueOf(digits));
  }

  lemma PaddedDigits(digits: Text, v: nat) returns (zeros: nat)
    requires digits != [] && AllDigits(digits) && ValueOf(digits) == v
    ensures digits == Padded(zeros, v)
  {
    zeros := DigitsSpell(digits);
  }

  /** Exactly these texts are numbers, within 64 bits. */
  lemma ParsedIff(s: Text, n: int)
    ensures ParseInt(s) == Some(n) <==>
              -0x8000_0000_0000_0000 <= n <= 0x7fff_ffff_ffff_ffff && exists sign, zeros :: Spells(s, n, sign, zeros)
  {
    if ParseInt(s) == Some(n) {
      var sign, zeros := ParsedSpells(s, n);
    }
    forall sign, zeros | Spells(s, n, sign, zeros)
      ensures ParseInt(s) == if MIN64 <= n <= MAX64 then Some(n) else None
    {
      SpelledReads(s, n, sign, zeros);
    }
  }
}
