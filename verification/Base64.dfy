/** Unpadded base64url, RFC 4648 section 5, as Go's decoder reads it. */
module Base64 {
  import opened Options
  import opened RemoteTree

  type Text = seq<Byte>
  type Sextet = v: int | 0 <= v < 64

  function Digit(v: Sextet): Byte {
    if v < 26 then 65 + v
    else if v < 52 then 97 + (v - 26)
    else if v < 62 then 48 + (v - 52)
    else if v == 62 then 45
    else 95
  }

  function Sextets(c: Byte): Option<Sextet> {
    if 65 <= c <= 90 then Some(c - 65)
    else if 97 <= c <= 122 then Some(c - 97 + 26)
    else if 48 <= c <= 57 then Some(c - 48 + 52)
    else if c == 45 then Some(62)
    else if c == 95 then Some(63)
    else None
  }

  function Encode(s: seq<Byte>): Text {
    if s == [] then []
    else if |s| == 1 then [Digit(s[0] / 4), Digit(s[0] % 4 * 16)]
    else if |s| == 2 then [Digit(s[0] / 4), Digit(s[0] % 4 * 16 + s[1] / 16), Digit(s[1] % 16 * 4)]
    else
      [Digit(s[0] / 4), Digit(s[0] % 4 * 16 + s[1] / 16), Digit(s[1] % 16 * 4 + s[2] / 64), Digit(s[2] % 64)]
      + Encode(s[3..])
  }

  /** The decoder skips carriage returns and newlines wherever they stand. */
  function Skipped(t: Text): Text {
    if t == [] then []
    else if t[0] == 10 || t[0] == 13 then Skipped(t[1..])
    else [t[0]] + Skipped(t[1..])
  }

  function AllSextets(t: Text): Option<seq<Sextet>> {
    if t == [] then Some([])
    else match (Sextets(t[0]), AllSextets(t[1..]))
      case (Some(v), Some(rest)) => Some([v] + rest)
      case _ => None
  }

  function First(a: Sextet, b: Sextet): Byte {
    a as int * 4 + b as int / 16
  }

  function Second(b: Sextet, c: Sextet): Byte {
    b as int % 16 * 16 + c as int / 4
  }

  function Third(c: Sextet, d: Sextet): Byte {
    c as int % 4 * 64 + d as int
  }

  /** Strict decoding also insists that the bits left over at the end are zero. */
  function Unpack(v: seq<Sextet>, strict: bool): Option<seq<Byte>> {
    if v == [] then Some([])
    else if |v| == 1 then None
    else if |v| == 2 then
      if strict && v[1] % 16 != 0 then None else Some([First(v[0], v[1])])
    else if |v| == 3 then
      if strict && v[2] % 4 != 0 then None else Some([First(v[0], v[1]), Second(v[1], v[2])])
    else match Unpack(v[4..], strict)
      case None => None
      case Some(rest) => Some([First(v[0], v[1]), Second(v[1], v[2]), Third(v[2], v[3])] + rest)
  }

  function Decode(t: Text, strict: bool): Option<seq<Byte>> {
    match AllSextets(Skipped(t))
    case None => None
    case Some(v) => Unpack(v, strict)
  }

  // ------------------------------------------------------------------ round trip

  function Pack(s: seq<Byte>): seq<Sextet> {
    if s == [] then []
    else if |s| == 1 then [s[0] / 4, s[0] % 4 * 16]
    else if |s| == 2 then [s[0] / 4, s[0] % 4 * 16 + s[1] / 16, s[1] % 16 * 4]
    else [s[0] / 4, s[0] % 4 * 16 + s[1] / 16, s[1] % 16 * 4 + s[2] / 64, s[2] % 64] + Pack(s[3..])
  }

  function Digits(v: seq<Sextet>): (t: Text)
    ensures |t| == |v| && forall i :: 0 <= i < |v| ==> t[i] == Digit(v[i])
  {
    seq(|v|, i requires 0 <= i < |v| => Digit(v[i]))
  }

  lemma {:induction false} EncodeIsDigits(s: seq<Byte>)
    ensures Encode(s) == Digits(Pack(s))
  {
    if |s| > 2 {
      EncodeIsDigits(s[3..]);
      var four: seq<Sextet> := [s[0] / 4, s[0] % 4 * 16 + s[1] / 16, s[1] % 16 * 4 + s[2] / 64, s[2] % 64];
      assert Digits(four + Pack(s[3..])) == Digits(four) + Digits(Pack(s[3..]));
    }
  }

  /** No digit is a newline, and each digit reads back its value. */
  lemma {:induction false} DigitsRead(v: seq<Sextet>)
    ensures Skipped(Digits(v)) == Digits(v) && AllSextets(Digits(v)) == Some(v)
  {
    if v != [] {
      DigitsRead(v[1..]);
      assert Digits(v)[1..] == Digits(v[1..]);
      assert Sextets(Digit(v[0])) == Some(v[0]);
      assert [v[0]] + v[1..] == v;
    }
  }

  lemma {:induction false} UnpackPack(s: seq<Byte>, strict: bool)
    ensures Unpack(Pack(s), strict) == Some(s)
  {
    if |s| == 1 {
      UnpackOne(s[0], strict);
      assert s == [s[0]];
    } else if |s| == 2 {
      UnpackTwo(s[0], s[1], strict);
      assert s == [s[0], s[1]];
    } else if |s| > 2 {
      UnpackPack(s[3..], strict);
      UnpackFront(s[0], s[1], s[2], s[3..], strict);
      assert s == [s[0], s[1], s[2]] + s[3..];
    }
  }

  lemma UnpackOne(a: Byte, strict: bool)
    ensures Unpack(Pack([a]), strict) == Some([a])
  {
    var v := Pack([a]);
    assert v == [a / 4, a % 4 * 16];
    assert First(v[0], v[1]) == a;
  }

  lemma UnpackTwo(a: Byte, b: Byte, strict: bool)
    ensures Unpack(Pack([a, b]), strict) == Some([a, b])
  {
    var v := Pack([a, b]);
    assert v == [a / 4, a % 4 * 16 + b / 16, b % 16 * 4];
    assert First(v[0], v[1]) == a && Second(v[1], v[2]) == b;
  }

  lemma UnpackFront(a: Byte, b: Byte, c: Byte, rest: seq<Byte>, strict: bool)
    requires Unpack(Pack(rest), strict) == Some(rest)
    ensures Unpack(Pack([a, b, c] + rest), strict) == Some([a, b, c] + rest)
  {
    var s := [a, b, c] + rest;
    var v := Pack(s);
    assert s[3..] == rest;
    assert v == [a / 4, a % 4 * 16 + b / 16, b % 16 * 4 + c / 64, c % 64] + Pack(rest);
    assert v[4..] == Pack(rest);
    assert First(v[0], v[1]) == a && Second(v[1], v[2]) == b && Third(v[2], v[3]) == c;
  }

  lemma Quantum(a: Sextet, b: Sextet, c: Sextet, d: Sextet)
    ensures First(a, b) / 4 == a && First(a, b) % 4 * 16 + Second(b, c) / 16 == b
    ensures Second(b, c) % 16 * 4 + Third(c, d) / 64 == c && Third(c, d) % 64 == d
    ensures b % 16 == 0 ==> First(a, b) % 4 * 16 == b
    ensures c % 4 == 0 ==> Second(b, c) % 16 * 4 == c
  {
  }

  /** Strictly, only what packing produces unpacks. */
  lemma {:induction false} PackUnpack(v: seq<Sextet>)
    requires Unpack(v, true).Some?
    ensures Pack(Unpack(v, true).value) == v
  {
    if |v| == 2 {
      Quantum(v[0], v[1], 0, 0);
      assert v == [v[0], v[1]];
    } else if |v| == 3 {
      Quantum(v[0], v[1], v[2], 0);
      assert v == [v[0], v[1], v[2]];
    } else if |v| > 3 {
      PackUnpack(v[4..]);
      PackFront(v[0], v[1], v[2], v[3], Unpack(v[4..], true).value);
      assert v == [v[0], v[1], v[2], v[3]] + v[4..];
    }
  }

  lemma PackFront(a: Sextet, b: Sextet, c: Sextet, d: Sextet, rest: seq<Byte>)
    ensures Pack([First(a, b), Second(b, c), Third(c, d)] + rest) == [a, b, c, d] + Pack(rest)
  {
    Quantum(a, b, c, d);
    var s := [First(a, b), Second(b, c), Third(c, d)] + rest;
    assert s[3..] == rest;
  }

  lemma RoundTrip(s: seq<Byte>, strict: bool)
    ensures Decode(Encode(s), strict) == Some(s)
  {
    EncodeIsDigits(s);
    DigitsRead(Pack(s));
    UnpackPack(s, strict);
  }

  lemma EncodeInjective(s: seq<Byte>, t: seq<Byte>)
    requires Encode(s) == Encode(t)
    ensures s == t
  {
    RoundTrip(s, true);
    RoundTrip(t, true);
  }

  predicate Unbroken(t: Text) {
    10 !in t && 13 !in t
  }

  lemma {:induction false} SkippedUnbroken(t: Text)
    ensures Unbroken(Skipped(t)) && (Unbroken(t) <==> Skipped(t) == t) && |Skipped(t)| <= |t|
  {
    if t != [] {
      var rest := t[1..];
      SkippedUnbroken(rest);
      if t[0] == 10 || t[0] == 13 {
        assert |Skipped(t)| < |t|;
      } else {
        assert t == [t[0]] + rest && Skipped(t)[1..] == Skipped(rest);
        assert forall c :: c in t <==> c == t[0] || c in rest;
      }
    }
  }

  lemma {:induction false} SextetsDigits(t: Text)
    requires AllSextets(t).Some?
    ensures Digits(AllSextets(t).value) == t
  {
    if t != [] {
      SextetsDigits(t[1..]);
      var rest := AllSextets(t[1..]).value;
      assert Digits([Sextets(t[0]).value] + rest) == [t[0]] + Digits(rest);
    }
  }

  /** A strictly decodable text is the canonical one up to the line breaks it carries. */
  lemma StrictIsCanonical(t: Text)
    requires Decode(t, true).Some?
    ensures Encode(Decode(t, true).value) == Skipped(t)
  {
    var v := AllSextets(Skipped(t)).value;
    PackUnpack(v);
    EncodeIsDigits(Decode(t, true).value);
    SextetsDigits(Skipped(t));
  }

  // ------------------------------------------- the encoding and what is decodable

  /** The URL-safe alphabet of RFC 4648 section 5. */
  lemma DigitIs(v: Sextet)
    ensures v < 26 ==> Digit(v) == 'A' as int + v
    ensures 26 <= v < 52 ==> Digit(v) == 'a' as int + v - 26
    ensures 52 <= v < 62 ==> Digit(v) == '0' as int + v - 52
    ensures v == 62 ==> Digit(v) == '-' as int
    ensures v == 63 ==> Digit(v) == '_' as int
  {
  }

  /** Three bytes are one number of four digits to the base 64; what is left over is filled up with zero bits. */
  lemma GroupsAre(a: Byte, b: Byte, c: Byte, rest: seq<Byte>)
    ensures (var n := 65536 * a + 256 * b + c;
      Encode([a, b, c] + rest)
        == [Digit(n / 262144), Digit(n / 4096 % 64), Digit(n / 64 % 64), Digit(n % 64)] + Encode(rest))
    ensures (var n := 256 * a + b; Encode([a, b]) == [Digit(n / 1024), Digit(n / 16 % 64), Digit(n % 16 * 4)])
    ensures Encode([a]) == [Digit(a / 4), Digit(a % 4 * 16)] && Encode([]) == []
  {
    assert ([a, b, c] + rest)[3..] == rest;
    GroupDigits(a, b, c);
    PairDigits(a, b);
  }

  lemma GroupDigits(a: Byte, b: Byte, c: Byte)
    ensures (var n := 65536 * a + 256 * b + c;
      && n / 262144 == a / 4 && n / 4096 % 64 == a % 4 * 16 + b / 16
      && n / 64 % 64 == b % 16 * 4 + c / 64 && n % 64 == c % 64)
  {
    RadixDigits(a / 4, a % 4 * 16 + b / 16, b % 16 * 4 + c / 64, c % 64);
  }

  lemma PairDigits(a: Byte, b: Byte)
    ensures (var n := 256 * a + b; n / 1024 == a / 4 && n / 16 % 64 == a % 4 * 16 + b / 16 && n % 16 == b % 16)
  {
    PairRadix(a / 4, a % 4 * 16 + b / 16, b % 16);
  }

  lemma PairRadix(p: Sextet, q: Sextet, r: nat)
    requires r < 16
    ensures (var n := 1024 * p + 16 * q + r; n / 1024 == p && n / 16 % 64 == q && n % 16 == r)
  {
    assert (1024 * p + 16 * q + r) / 16 == 64 * p + q;
  }

  lemma RadixDigits(p: Sextet, q: Sextet, r: Sextet, t: Sextet)
    ensures (var n := 262144 * p + 4096 * q + 64 * r + t;
      n / 262144 == p && n / 4096 % 64 == q && n / 64 % 64 == r && n % 64 == t)
  {
    var n := 262144 * p + 4096 * q + 64 * r + t;
    assert n / 4096 == 64 * p + q;
    assert n / 64 == 4096 * p + 64 * q + r;
  }

  predicate Spelled(c: Byte) {
    'A' as int <= c <= 'Z' as int || 'a' as int <= c <= 'z' as int || '0' as int <= c <= '9' as int
    || c == '-' as int || c == '_' as int
  }

  lemma {:induction false} AllSextetsIff(t: Text)
    ensures AllSextets(t).Some? <==> forall c :: c in t ==> Spelled(c)
    ensures AllSextets(t).Some? ==> |AllSextets(t).value| == |t|
  {
    if t != [] {
      AllSextetsIff(t[1..]);
      assert t == [t[0]] + t[1..];
      assert Sextets(t[0]).Some? <==> Spelled(t[0]);
    }
  }

  lemma {:induction false} SkippedKeeps(t: Text)
    ensures forall c :: c in Skipped(t) <==> c in t && c != 10 && c != 13
  {
    if t != [] {
      SkippedKeeps(t[1..]);
      assert t == [t[0]] + t[1..];
    }
  }

  lemma {:induction false} UnpackIff(v: seq<Sextet>)
    ensures Unpack(v, false).Some? <==> |v| % 4 != 1
  {
    if |v| > 3 {
      UnpackIff(v[4..]);
      UnpackRest(v);
      FourLess(|v|);
    }
  }

  lemma UnpackRest(v: seq<Sextet>)
    requires |v| > 3
    ensures Unpack(v, false).Some? <==> Unpack(v[4..], false).Some?
  {
  }

  lemma FourLess(n: nat)
    requires n > 3
    ensures n % 4 == (n - 4) % 4
  {
  }

  /** Leniently, any text of the alphabet decodes, line breaks or not, unless one digit is left over. */
  lemma LenientIff(t: Text)
    ensures Decode(t, false).Some? <==>
              (forall c :: c in t ==> Spelled(c) || c == 10 || c == 13) && |Skipped(t)| % 4 != 1
  {
    SkippedKeeps(t);
    AllSextetsIff(Skipped(t));
    assert !Spelled(10) && !Spelled(13);
    if AllSextets(Skipped(t)).Some? {
      UnpackIff(AllSextets(Skipped(t)).value);
    }
  }

  lemma {:induction false} PackUnpackLenient(v: seq<Sextet>)
    requires Unpack(v, false).Some? && v != []
    ensures (var again := Pack(Unpack(v, false).value); |again| == |v| && again[..|v| - 1] == v[..|v| - 1])
  {
    if |v| == 2 {
      Quantum(v[0], v[1], 0, 0);
    } else if |v| == 3 {
      Quantum(v[0], v[1], v[2], 0);
    } else {
      var rest := Unpack(v[4..], false).value;
      PackFront(v[0], v[1], v[2], v[3], rest);
      if v[4..] != [] {
        PackUnpackLenient(v[4..]);
        assert v[..|v| - 1] == v[..4] + v[4..][..|v| - 5];
      }
    }
  }

  /** And what it decodes to encodes as the text did, but for the bits its last digit has too many. */
  lemma LenientIsNearlyCanonical(t: Text)
    requires Decode(t, false).Some? && Skipped(t) != []
    ensures (var again, read := Encode(Decode(t, false).value), Skipped(t);
      |again| == |read| && again[..|read| - 1] == read[..|read| - 1])
  {
    var v := AllSextets(Skipped(t)).value;
    AllSextetsIff(Skipped(t));
    PackUnpackLenient(v);
    EncodeIsDigits(Decode(t, false).value);
    SextetsDigits(Skipped(t));
    SameDigits(Pack(Decode(t, false).value), v, |v| - 1);
  }

  lemma SameDigits(a: seq<Sextet>, b: seq<Sextet>, n: nat)
    requires n <= |a| && n <= |b| && a[..n] == b[..n]
    ensures Digits(a)[..n] == Digits(b)[..n]
  {
    assert forall i :: 0 <= i < n ==> a[i] == a[..n][i] && b[i] == b[..n][i];
  }
}
