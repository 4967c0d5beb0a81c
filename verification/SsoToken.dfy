/** The encrypted login token: base64url of iv, tag and ciphertext, one spelling per wire value. */
module SsoToken {
  import opened RemoteTree
  import opened Base64
  import opened Options

  const IV := 12
  const TAG := 16

  datatype Payload = Payload(exp: int, rest: seq<Byte>)
  datatype Result = Ok(payload: Payload) | Invalid | Expired

  /** AES-GCM and JSON as given functions; `seal` returns the ciphertext followed by its tag. */
  datatype Cipher = Cipher(
    seal: (seq<Byte>, seq<Byte>) -> seq<Byte>, open: (seq<Byte>, seq<Byte>) -> Option<seq<Byte>>,
    show: Payload -> seq<Byte>, parse: seq<Byte> -> Option<Payload>)

  ghost predicate Lawful(c: Cipher) {
    && (forall iv, p :: |iv| == IV ==> |c.seal(iv, p)| == |p| + TAG && c.open(iv, c.seal(iv, p)) == Some(p))
    && (forall x :: c.show(x) != [] && c.parse(c.show(x)) == Some(x))
  }

  /** The wire puts the tag before the ciphertext, the cipher after it. */
  function Encrypt(c: Cipher, iv: seq<Byte>, x: Payload): Text
    requires |iv| == IV && |c.seal(iv, c.show(x))| >= TAG
  {
    var sealed := c.seal(iv, c.show(x));
    var cut := |sealed| - TAG;
    Encode(iv + sealed[cut..] + sealed[..cut])
  }

  function Decrypt(c: Cipher, raw: Text, now: int): Result {
    match Decode(raw, true)
    case None => Invalid
    case Some(wire) =>
      if Encode(wire) != raw || |wire| < IV + TAG + 1 then Invalid
      else match c.open(wire[..IV], wire[IV + TAG..] + wire[IV..IV + TAG])
        case None => Invalid
        case Some(plain) =>
          match c.parse(plain)
          case None => Invalid
          case Some(x) => if now > x.exp then Expired else Ok(x)
  }

  /** What was encrypted is read back, through its last second and not beyond. */
  lemma DecryptEncrypt(c: Cipher, iv: seq<Byte>, x: Payload, now: int)
    requires Lawful(c) && |iv| == IV
    ensures Decrypt(c, Encrypt(c, iv, x), now) == if now > x.exp then Expired else Ok(x)
  {
    var sealed := c.seal(iv, c.show(x));
    var cut := |sealed| - TAG;
    var wire := iv + sealed[cut..] + sealed[..cut];
    RoundTrip(wire, true);
    assert wire[..IV] == iv;
    assert wire[IV + TAG..] + wire[IV..IV + TAG] == sealed;
  }

  /** A token's bytes: 12 of the iv, 16 of the tag, then the ciphertext, of which there is some. */
  ghost predicate SealedAs(c: Cipher, raw: Text, x: Payload, iv: seq<Byte>, tag: seq<Byte>, body: seq<Byte>) {
    && |iv| == 12 && |tag| == 16 && body != [] && raw == Encode(iv + tag + body)
    && c.open(iv, body + tag).Some? && c.parse(c.open(iv, body + tag).value) == Some(x)
  }

  /** A token is accepted for a payload exactly when it is the encoding of such bytes and has not expired. */
  lemma AcceptedIffSealed(c: Cipher, raw: Text, now: int, x: Payload)
    ensures Decrypt(c, raw, now) == Ok(x)
            <==> now <= x.exp && exists iv, tag, body :: SealedAs(c, raw, x, iv, tag, body)
  {
    if Decrypt(c, raw, now) == Ok(x) {
      var wire := Decode(raw, true).value;
      var iv, tag, body := wire[..12], wire[12..28], wire[28..];
      assert wire == iv + tag + body;
      assert SealedAs(c, raw, x, iv, tag, body);
    }
    forall iv, tag, body | SealedAs(c, raw, x, iv, tag, body)
      ensures Decrypt(c, raw, now) == if now > x.exp then Expired else Ok(x)
    {
      SealedIsRead(c, raw, now, x, iv, tag, body);
    }
  }

  lemma SealedIsRead(c: Cipher, raw: Text, now: int, x: Payload, iv: seq<Byte>, tag: seq<Byte>, body: seq<Byte>)
    requires SealedAs(c, raw, x, iv, tag, body)
    ensures Decrypt(c, raw, now) == if now > x.exp then Expired else Ok(x)
  {
    var wire := iv + tag + body;
    RoundTrip(wire, true);
    assert wire[..12] == iv && wire[12..28] == tag && wire[28..] == body;
  }

  /** Issued tokens are of this form, whatever the cipher put into the tag. */
  lemma IssuedIsSealed(c: Cipher, iv: seq<Byte>, x: Payload)
    requires Lawful(c) && |iv| == 12
    ensures (var sealed := c.seal(iv, c.show(x));
      |sealed| > 16 && SealedAs(c, Encrypt(c, iv, x), x, iv, sealed[|sealed| - 16..], sealed[..|sealed| - 16]))
  {
    var sealed := c.seal(iv, c.show(x));
    assert sealed[..|sealed| - 16] + sealed[|sealed| - 16..] == sealed;
  }

  /** Strict decoding still skips line breaks; the comparison is what rules them out, and nothing else. */
  lemma ComparisonRulesOutBreaks(raw: Text)
    requires Decode(raw, true).Some?
    ensures Encode(Decode(raw, true).value) == raw <==> Unbroken(raw)
  {
    StrictIsCanonical(raw);
    SkippedUnbroken(raw);
  }

  /** Two accepted texts that decode to the same wire value are the same text. */
  lemma OneSpelling(c: Cipher, raw: Text, other: Text, now: int, later: int)
    requires !Decrypt(c, raw, now).Invalid? && !Decrypt(c, other, later).Invalid?
    ensures raw == other <==> Decode(raw, true) == Decode(other, true)
  {
  }

  /** Without the comparison every token would have further spellings. */
  lemma BrokenSpelling(wire: seq<Byte>)
    ensures Decode(Encode(wire) + [10], true) == Some(wire) && Encode(wire) + [10] != Encode(wire)
  {
    RoundTrip(wire, true);
    SkippedConcat(Encode(wire), [10]);
    assert Skipped([10]) == Skipped([10][1..]);
    assert Skipped(Encode(wire)) + [] == Skipped(Encode(wire));
  }

  lemma SkippedFront(t: Text)
    requires t != []
    ensures Skipped(t) == Skipped(t[..1]) + Skipped(t[1..])
  {
    assert t[..1][1..] == [] && Skipped([]) == [];
  }

  lemma {:induction false} SkippedConcat(a: Text, b: Text)
    ensures Skipped(a + b) == Skipped(a) + Skipped(b)
  {
    if a == [] {
      assert a + b == b;
    } else {
      SkippedConcat(a[1..], b);
      assert (a + b)[0] == a[0] && (a + b)[1..] == a[1..] + b;
      SkippedFront(a);
      SkippedFront(a + b);
    }
  }
}
