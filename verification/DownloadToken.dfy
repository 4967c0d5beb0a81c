/** The signed download token: base64url of subject:base64url(path):expiry:mac. */
module DownloadToken {
  import opened RemoteTree
  import opened Texts
  import opened Base64
  import opened Options
  import opened Decimal
  import opened Limits

  const COLON: Byte := 58

  datatype Result = Ok(subject: Text, path: seq<Byte>) | Invalid | Expired

  function Joined(a: Text, b: Text): Text {
    a + [COLON] + b
  }

  function Fields(subject: Text, path: seq<Byte>, expiry: int): seq<Text> {
    [subject, Encode(path), FormatInt(expiry)]
  }

  function Message(subject: Text, path: seq<Byte>, expiry: int): Text {
    Join(Fields(subject, path, expiry), COLON)
  }

  function IssueToken(mac: Text -> Text, subject: Text, path: seq<Byte>, expiry: int): Text {
    var message := Message(subject, path, expiry);
    Encode(Joined(message, mac(message)))
  }

  /** What precedes the first colon. */
  function Before(s: Text): (r: Text)
    ensures COLON !in r && r <= s
    ensures COLON in s ==> |r| < |s| && s[|r|] == COLON
  {
    if s == [] || s[0] == COLON then [] else [s[0]] + Before(s[1..])
  }

  function After(s: Text): (r: Text)
    requires COLON in s
    ensures s == Joined(Before(s), r) && |r| < |s|
  {
    s[|Before(s)| + 1..]
  }

  /** At most `n` parts, the last taking the rest. */
  function SplitN(s: Text, n: nat): (parts: seq<Text>)
    requires n > 0
    ensures 0 < |parts| <= n
    decreases n
  {
    if n == 1 || COLON !in s then [s] else [Before(s)] + SplitN(After(s), n - 1)
  }

  function ValidateToken(mac: Text -> Text, token: Text, now: int): Result {
    match Decode(token, false)
    case None => Invalid
    case Some(raw) => ValidateRaw(mac, raw, now)
  }

  function ValidateRaw(mac: Text -> Text, raw: Text, now: int): Result {
    var parts := SplitN(raw, 4);
    if |parts| != 4 || parts[3] != mac(Join(parts[..3], COLON)) then Invalid
    else ReadFields(parts[0], parts[1], parts[2], now)
  }

  function ReadFields(subject: Text, encoded: Text, stamp: Text, now: int): Result {
    match ParseInt(stamp)
    case None => Invalid
    case Some(expiry) =>
      if now > expiry then Expired
      else match Decode(encoded, false)
        case None => Invalid
        case Some(path) => Ok(subject, path)
  }

  // ------------------------------------------------------------------- splitting

  lemma {:induction false} FirstColon(a: Text, b: Text)
    requires COLON !in a
    ensures Before(Joined(a, b)) == a && After(Joined(a, b)) == b
  {
    var s := Joined(a, b);
    if a == [] {
      assert s[0] == COLON;
    } else {
      FirstColon(a[1..], b);
      assert s[1..] == Joined(a[1..], b);
    }
    assert s[|a|] == COLON && s[|a| + 1..] == b;
  }

  lemma SplitOnce(a: Text, b: Text, n: nat)
    requires COLON !in a && n > 1
    ensures SplitN(Joined(a, b), n) == [a] + SplitN(b, n - 1)
  {
    FirstColon(a, b);
    assert Joined(a, b)[|a|] == COLON;
  }

  ghost predicate FirstColonFree(parts: seq<Text>) {
    forall i :: 0 <= i < |parts| - 1 ==> COLON !in parts[i]
  }

  /** Joined parts split again into exactly these parts, whatever the last one holds. */
  lemma {:induction false} SplitNJoin(parts: seq<Text>)
    requires parts != [] && FirstColonFree(parts)
    ensures SplitN(Join(parts, COLON), |parts|) == parts
  {
    if |parts| > 1 {
      SplitNJoin(parts[1..]);
      SplitOnce(parts[0], Join(parts[1..], COLON), |parts|);
    }
  }

  /** Splitting loses nothing: the parts joined again are the text. */
  lemma {:induction false} JoinSplitN(s: Text, n: nat)
    requires n > 0
    ensures Join(SplitN(s, n), COLON) == s && FirstColonFree(SplitN(s, n))
    decreases n
  {
    if n > 1 && COLON in s {
      JoinSplitN(After(s), n - 1);
      var rest := SplitN(After(s), n - 1);
      assert SplitN(s, n) == [Before(s)] + rest;
      assert ([Before(s)] + rest)[1..] == rest;
    }
  }

  lemma JoinSnoc(parts: seq<Text>, last: Text)
    requires parts != []
    ensures Join(parts + [last], COLON) == Joined(Join(parts, COLON), last)
  {
    JoinAppend(parts, [last], COLON);
  }

  lemma MessageSnoc(a: Text, b: Text, c: Text)
    ensures Join([a, b, c], COLON) == Joined(Joined(a, b), c)
  {
    JoinSnoc([a, b], c);
    JoinSnoc([a], b);
    assert [a, b] + [c] == [a, b, c] && [a] + [b] == [a, b];
  }

  lemma {:induction false} EncodeNoColon(s: seq<Byte>)
    ensures COLON !in Encode(s)
  {
    EncodeIsDigits(s);
    assert forall v: Sextet :: Digit(v) != COLON;
  }

  // ------------------------------------------------------------------ the results

  /** An issued token is cut into its three fields and the mac. */
  lemma IssuedParts(mac: Text -> Text, subject: Text, path: seq<Byte>, expiry: int)
    requires COLON !in subject
    ensures (var message := Message(subject, path, expiry);
      SplitN(Joined(message, mac(message)), 4) == Fields(subject, path, expiry) + [mac(message)])
  {
    var fields := Fields(subject, path, expiry);
    var tag := mac(Message(subject, path, expiry));
    JoinSnoc(fields, tag);
    EncodeNoColon(path);
    FormatNoColon(expiry);
    assert |fields + [tag]| == 4;
    SplitNJoin(fields + [tag]);
  }

  lemma FieldsRead(subject: Text, path: seq<Byte>, expiry: int, now: int)
    requires MIN64 <= expiry <= MAX64
    ensures ReadFields(subject, Encode(path), FormatInt(expiry), now)
            == if now > expiry then Expired else Ok(subject, path)
  {
    RoundTrip(path, false);
    ParseFormat(expiry);
  }

  /** And the fields are read back. */
  lemma PartsValidate(mac: Text -> Text, raw: Text, subject: Text, path: seq<Byte>, expiry: int, now: int)
    requires MIN64 <= expiry <= MAX64
    requires SplitN(raw, 4) == Fields(subject, path, expiry) + [mac(Message(subject, path, expiry))]
    ensures ValidateRaw(mac, raw, now) == if now > expiry then Expired else Ok(subject, path)
  {
    var fields := Fields(subject, path, expiry);
    var parts := SplitN(raw, 4);
    assert parts[..3] == fields;
    FieldsRead(subject, path, expiry, now);
  }

  lemma ColonFreeRoundTrip(mac: Text -> Text, subject: Text, path: seq<Byte>, expiry: int, now: int)
    requires MIN64 <= expiry <= MAX64 && COLON !in subject
    ensures ValidateToken(mac, IssueToken(mac, subject, path, expiry), now)
            == if now > expiry then Expired else Ok(subject, path)
  {
    var message := Message(subject, path, expiry);
    RoundTrip(Joined(message, mac(message)), false);
    IssuedParts(mac, subject, path, expiry);
    PartsValidate(mac, Joined(message, mac(message)), subject, path, expiry, now);
  }

  function Colons(s: Text): nat {
    if s == [] then 0 else (if s[0] == COLON then 1 else 0) + Colons(s[1..])
  }

  lemma {:induction false} NoColons(s: Text)
    ensures COLON !in s <==> Colons(s) == 0
  {
    if s != [] {
      NoColons(s[1..]);
    }
  }

  lemma {:induction false} ColonsConcat(a: Text, b: Text)
    ensures Colons(a + b) == Colons(a) + Colons(b)
  {
    if a == [] {
      assert a + b == b;
    } else {
      ColonsConcat(a[1..], b);
      assert (a + b)[1..] == a[1..] + b;
    }
  }

  lemma ColonsJoined(a: Text, b: Text)
    ensures Colons(Joined(a, b)) == Colons(a) + 1 + Colons(b)
  {
    ColonsConcat(a, [COLON]);
    ColonsConcat(a + [COLON], b);
    assert [COLON][1..] == [];
  }

  /** A text with `n` colons leaves one in the last of `n` parts. */
  lemma {:induction false} LastPartColons(s: Text, n: nat)
    requires n > 0 && Colons(s) >= n
    ensures |SplitN(s, n)| == n && COLON in SplitN(s, n)[n - 1]
    decreases n
  {
    NoColons(s);
    if n > 1 {
      ColonsAfter(s);
      LastPartColons(After(s), n - 1);
      FirstPart(s, n);
    }
  }

  lemma ColonsAfter(s: Text)
    requires COLON in s
    ensures Colons(After(s)) == Colons(s) - 1
  {
    ColonsJoined(Before(s), After(s));
    NoColons(Before(s));
  }

  lemma FirstPart(s: Text, n: nat)
    requires COLON in s && n > 1
    ensures |SplitN(s, n)| == 1 + |SplitN(After(s), n - 1)|
    ensures SplitN(s, n)[|SplitN(s, n)| - 1] == SplitN(After(s), n - 1)[|SplitN(After(s), n - 1)| - 1]
  {
  }

  /**
   * What any issued token validates to, for every subject, path, expiry and clock; a
   * subject with a colon never validates, since the hex digest of a mac has none.
   */
  lemma IssuedValidates(mac: Text -> Text, subject: Text, path: seq<Byte>, expiry: int, now: int)
    requires MIN64 <= expiry <= MAX64 && forall m :: COLON !in mac(m)
    ensures ValidateToken(mac, IssueToken(mac, subject, path, expiry), now)
            == if COLON in subject then Invalid else if now > expiry then Expired else Ok(subject, path)
  {
    if COLON !in subject {
      ColonFreeRoundTrip(mac, subject, path, expiry, now);
    } else {
      var message := Message(subject, path, expiry);
      var raw := Joined(message, mac(message));
      RoundTrip(raw, false);
      NoColons(subject);
      MessageSnoc(subject, Encode(path), FormatInt(expiry));
      ColonsJoined(subject, Encode(path));
      ColonsJoined(Joined(subject, Encode(path)), FormatInt(expiry));
      ColonsJoined(message, mac(message));
      LastPartColons(raw, 4);
    }
  }

  /** Distinct subject, path and expiry are signed as distinct messages, colons or not. */
  lemma MessageInjective(s: Text, p: seq<Byte>, e: int, t: Text, q: seq<Byte>, f: int)
    requires Message(s, p, e) == Message(t, q, f)
    ensures s == t && p == q && e == f
  {
    EncodeNoColon(p);
    EncodeNoColon(q);
    FormatNoColon(e);
    FormatNoColon(f);
    MessageSnoc(s, Encode(p), FormatInt(e));
    MessageSnoc(t, Encode(q), FormatInt(f));
    LastColon(Joined(s, Encode(p)), FormatInt(e), Joined(t, Encode(q)), FormatInt(f));
    FormatInjective(e, f);
    LastColon(s, Encode(p), t, Encode(q));
    EncodeInjective(p, q);
  }

  lemma LaterColon(a: Text, x: Text, b: Text, y: Text)
    requires Joined(a, x) == Joined(b, y) && |a| < |b|
    ensures COLON in x
  {
    assert Joined(b, y)[|b|] == COLON;
    assert Joined(a, x)[|b|] == x[|b| - |a| - 1];
  }

  lemma LastColon(a: Text, x: Text, b: Text, y: Text)
    requires COLON !in x && COLON !in y && Joined(a, x) == Joined(b, y)
    ensures a == b && x == y
  {
    if |a| < |b| {
      LaterColon(a, x, b, y);
    } else if |b| < |a| {
      LaterColon(b, y, a, x);
    } else {
      var s := Joined(a, x);
      assert a == s[..|a|] && b == s[..|b|];
      assert x == s[|a| + 1..] && y == s[|b| + 1..];
    }
  }

  /** Three fields with a colon, which is byte 58, between them. */
  function Line(a: Text, b: Text, c: Text): Text {
    a + [58] + b + [58] + c
  }

  lemma LineIsMessage(a: Text, b: Text, c: Text)
    ensures Line(a, b, c) == Join([a, b, c], COLON)
  {
    MessageSnoc(a, b, c);
  }

  /** What an issued token holds, byte by byte. */
  lemma IssuedLayout(mac: Text -> Text, subject: Text, path: seq<Byte>, expiry: int)
    ensures (var line := subject + [58] + Encode(path) + [58] + FormatInt(expiry);
      IssueToken(mac, subject, path, expiry) == Encode(line + [58] + mac(line)))
  {
    LineIsMessage(subject, Encode(path), FormatInt(expiry));
  }

  /** An accepted token's text: its subject, an encoding of its path, a stamp not yet passed, and their mac. */
  ghost predicate SignedAs(mac: Text -> Text, token: Text, now: int, subject: Text, path: seq<Byte>, encoded: Text,
                           stamp: Text)
  {
    && Decode(token, false) == Some(Line(subject, encoded, stamp) + [58] + mac(Line(subject, encoded, stamp)))
    && 58 !in subject && 58 !in encoded && Decode(encoded, false) == Some(path)
    && ParseInt(stamp).Some? && now <= ParseInt(stamp).value
  }

  /** A token is accepted for a subject and a path exactly when it is signed for them and has not expired. */
  lemma AcceptedIffSigned(mac: Text -> Text, token: Text, now: int, subject: Text, path: seq<Byte>)
    ensures ValidateToken(mac, token, now) == Ok(subject, path)
            <==> exists encoded, stamp :: SignedAs(mac, token, now, subject, path, encoded, stamp)
  {
    if ValidateToken(mac, token, now) == Ok(subject, path) {
      var parts := SplitN(Decode(token, false).value, 4);
      AcceptedIsSigned(mac, token, now, subject, path);
      assert SignedAs(mac, token, now, subject, path, parts[1], parts[2]);
    }
    forall encoded, stamp | SignedAs(mac, token, now, subject, path, encoded, stamp)
      ensures ValidateToken(mac, token, now) == Ok(subject, path)
    {
      SignedIsAccepted(mac, token, now, subject, path, encoded, stamp);
    }
  }

  lemma AcceptedIsSigned(mac: Text -> Text, token: Text, now: int, subject: Text, path: seq<Byte>)
    requires ValidateToken(mac, token, now) == Ok(subject, path)
    ensures (var parts := SplitN(Decode(token, false).value, 4);
      |parts| == 4 && SignedAs(mac, token, now, subject, path, parts[1], parts[2]))
  {
    var raw := Decode(token, false).value;
    var parts := SplitN(raw, 4);
    FourParts(raw);
    assert parts[..3] == [parts[0], parts[1], parts[2]];
    LineIsMessage(parts[0], parts[1], parts[2]);
  }

  lemma SignedIsAccepted(mac: Text -> Text, token: Text, now: int, subject: Text, path: seq<Byte>, encoded: Text,
                         stamp: Text)
    requires SignedAs(mac, token, now, subject, path, encoded, stamp)
    ensures ValidateToken(mac, token, now) == Ok(subject, path)
  {
    var tag := mac(Line(subject, encoded, stamp));
    assert [subject, encoded, stamp, tag][..3] == [subject, encoded, stamp];
    LineIsMessage(subject, encoded, stamp);
    ParsedNoColon(stamp);
    LineSplits(subject, encoded, stamp, tag);
    CutIsAccepted(mac, Decode(token, false).value, now, [subject, encoded, stamp, tag], path);
  }

  lemma CutIsAccepted(mac: Text -> Text, raw: Text, now: int, p: seq<Text>, path: seq<Byte>)
    requires SplitN(raw, 4) == p && |p| == 4 && p[3] == mac(Join(p[..3], COLON))
    requires Decode(p[1], false) == Some(path) && ParseInt(p[2]).Some? && now <= ParseInt(p[2]).value
    ensures ValidateRaw(mac, raw, now) == Ok(p[0], path)
  {
  }

  lemma LineSplits(a: Text, b: Text, c: Text, d: Text)
    requires COLON !in a && COLON !in b && COLON !in c
    ensures SplitN(Line(a, b, c) + [58] + d, 4) == [a, b, c, d]
  {
    LineIsMessage(a, b, c);
    JoinSnoc([a, b, c], d);
    var parts := [a, b, c] + [d];
    assert parts == [a, b, c, d];
    SplitNJoin(parts);
  }

  lemma FourParts(raw: Text)
    requires |SplitN(raw, 4)| == 4
    ensures (var p := SplitN(raw, 4);
      raw == Joined(Join(p[..3], COLON), p[3]) && COLON !in p[0] && COLON !in p[1])
  {
    LastPart(raw, 4);
  }

  lemma LastPart(raw: Text, n: nat)
    requires n > 1 && |SplitN(raw, n)| == n
    ensures (var p := SplitN(raw, n); raw == Joined(Join(p[..n - 1], COLON), p[n - 1]) && FirstColonFree(p))
  {
    var p := SplitN(raw, n);
    JoinSplitN(raw, n);
    assert p == p[..n - 1] + [p[n - 1]];
    JoinSnoc(p[..n - 1], p[n - 1]);
  }

  ghost predicate Issuable(m: Text) {
    exists s, p, e :: MIN64 <= e <= MAX64 && COLON !in s && m == Message(s, p, e)
  }

  /** If only the macs of issued messages are known, what is accepted was issued, and has not expired. */
  lemma AcceptedWasIssued(mac: Text -> Text, token: Text, now: int, issued: set<Text>)
    requires ValidateToken(mac, token, now).Ok?
    requires forall m :: Decode(token, false) == Some(Joined(m, mac(m))) ==> m in issued
    requires forall m :: m in issued ==> Issuable(m)
    ensures (var r := ValidateToken(mac, token, now);
      exists e :: now <= e && Message(r.subject, r.path, e) in issued)
  {
    var r := ValidateToken(mac, token, now);
    AcceptedIsSigned(mac, token, now, r.subject, r.path);
    var parts := SplitN(Decode(token, false).value, 4);
    var encoded, stamp := parts[1], parts[2];
    LineIsMessage(r.subject, encoded, stamp);
    var m := Join([r.subject, encoded, stamp], COLON);
    assert m in issued;
    var s, p, e :| MIN64 <= e <= MAX64 && COLON !in s && m == Message(s, p, e);
    ParsedNoColon(stamp);
    FormatNoColon(e);
    MessageSnoc(r.subject, encoded, stamp);
    MessageSnoc(s, Encode(p), FormatInt(e));
    LastColon(Joined(r.subject, encoded), stamp, Joined(s, Encode(p)), FormatInt(e));
    EncodeNoColon(p);
    LastColon(r.subject, encoded, s, Encode(p));
    RoundTrip(p, false);
    ParseFormat(e);
  }
}
