/**
 Signed tokens: three base64url parts joined by dots, of which the third
 signs the first two. The keyed hash and the JSON codec are parameters.
 */
module Token {
  import opened Domain

  newtype byte = x: int | 0 <= x < 256
  newtype sextet = x: int | 0 <= x < 64

  // ---------- base64url without padding ----------

  /** The alphabet of section 5 of RFC 4648. */
  function Letter(v: sextet): char {
    if v < 26 then v as char + 'A'
    else if v < 52 then (v - 26) as char + 'a'
    else if v < 62 then (v - 52) as char + '0'
    else if v == 62 then '-' else '_'
  }

  function Sextet(c: char): Option<sextet> {
    if 'A' <= c <= 'Z' then Some((c - 'A') as sextet)
    else if 'a' <= c <= 'z' then Some((c - 'a') as sextet + 26)
    else if '0' <= c <= '9' then Some((c - '0') as sextet + 52)
    else if c == '-' then Some(62)
    else if c == '_' then Some(63)
    else None
  }

  /** The four sextets of three bytes. */
  function S0(a: byte): sextet { (a / 4) as sextet }
  function S1(a: byte, b: byte): sextet { ((a % 4) as int * 16 + (b / 16) as int) as sextet }
  function S2(b: byte, c: byte): sextet { ((b % 16) as int * 4 + (c / 64) as int) as sextet }
  function S3(c: byte): sextet { (c % 64) as sextet }

  /** The three bytes of four sextets. */
  function B0(s: sextet, t: sextet): byte { (s as int * 4 + t as int / 16) as byte }
  function B1(t: sextet, u: sextet): byte { (t as int % 16 * 16 + u as int / 4) as byte }
  function B2(u: sextet, v: sextet): byte { (u as int % 4 * 64 + v as int) as byte }

  function Sextets(s: seq<byte>): seq<sextet> {
    if s == [] then []
    else if |s| == 1 then [S0(s[0]), S1(s[0], 0)]
    else if |s| == 2 then [S0(s[0]), S1(s[0], s[1]), S2(s[1], 0)]
    else [S0(s[0]), S1(s[0], s[1]), S2(s[1], s[2]), S3(s[2])] + Sextets(s[3..])
  }

  /** Left-over bits of the last sextet are ignored; a single left-over sextet is an error. */
  function Bytes(t: seq<sextet>): Option<seq<byte>> {
    if t == [] then Some([])
    else if |t| == 1 then None
    else if |t| == 2 then Some([B0(t[0], t[1])])
    else if |t| == 3 then Some([B0(t[0], t[1]), B1(t[1], t[2])])
    else match Bytes(t[4..])
         case None => None
         case Some(rest) => Some([B0(t[0], t[1]), B1(t[1], t[2]), B2(t[2], t[3])] + rest)
  }

  function Letters(t: seq<sextet>): (r: string)
    ensures |r| == |t| && forall i | 0 <= i < |t| :: r[i] == Letter(t[i])
  {
    seq(|t|, i requires 0 <= i < |t| => Letter(t[i]))
  }

  /** Line breaks are skipped, any other foreign character is an error. */
  function FromLetters(s: string): Option<seq<sextet>> {
    if s == "" then Some([])
    else match FromLetters(s[..|s| - 1])
         case None => None
         case Some(before) =>
           var c := s[|s| - 1];
           if c == '\n' || c == '\r' then Some(before)
           else match Sextet(c)
                case None => None
                case Some(v) => Some(before + [v])
  }

  function Encode(s: seq<byte>): string {
    Letters(Sextets(s))
  }

  function Decode(s: string): Option<seq<byte>> {
    match FromLetters(s)
    case None => None
    case Some(t) => Bytes(t)
  }

  lemma {:induction false} LettersBack(t: seq<sextet>)
    ensures FromLetters(Letters(t)) == Some(t)
  {
    if t != [] {
      var init, v := t[..|t| - 1], t[|t| - 1];
      LettersBack(init);
      assert Letters(t)[..|t| - 1] == Letters(init);
      assert Sextet(Letter(v)) == Some(v);
      assert init + [v] == t;
    }
  }

  lemma BytesOfGroup(a: byte, b: byte, c: byte)
    ensures B0(S0(a), S1(a, b)) == a
    ensures B1(S1(a, b), S2(b, c)) == b
    ensures B2(S2(b, c), S3(c)) == c
  {
  }

  lemma {:induction false} BytesBack(s: seq<byte>)
    ensures Bytes(Sextets(s)) == Some(s)
  {
    hide S0, S1, S2, S3, B0, B1, B2;
    if s == [] {
    } else if |s| == 1 {
      BytesOfGroup(s[0], 0, 0);
      assert s == [s[0]];
    } else if |s| == 2 {
      BytesOfGroup(s[0], s[1], 0);
      assert s == [s[0], s[1]];
    } else {
      BytesOfGroup(s[0], s[1], s[2]);
      BytesBack(s[3..]);
      assert Sextets(s)[4..] == Sextets(s[3..]);
      assert [s[0], s[1], s[2]] + s[3..] == s;
    }
  }

  /** Decoding inverts encoding for every string of bytes, and no encoding contains a dot. */
  lemma EncodeRoundTrip(s: seq<byte>)
    ensures Decode(Encode(s)) == Some(s)
    ensures '.' !in Encode(s)
  {
    LettersBack(Sextets(s));
    BytesBack(s);
    assert forall v :: Letter(v) != '.';
  }

  /** Line breaks do not matter to decoding, wherever they are. */
  lemma {:induction false} LineBreaksAreSkipped(a: string, c: char, b: string)
    requires c in {'\n', '\r'}
    ensures FromLetters(a + [c] + b) == FromLetters(a + b) && Decode(a + [c] + b) == Decode(a + b)
  {
    var s, t := a + [c] + b, a + b;
    if b == "" {
      assert s[..|s| - 1] == a == t;
    } else {
      var init := b[..|b| - 1];
      LineBreaksAreSkipped(a, c, init);
      assert s[..|s| - 1] == a + [c] + init && t[..|t| - 1] == a + init && s[|s| - 1] == t[|t| - 1];
    }
  }

  /** The examples of section 10 of RFC 4648 and the two letters that set the alphabet of its section 5 apart. */
  lemma EncodeExamples()
    ensures Encode([]) == "" && Encode([102]) == "Zg" && Encode([102, 111]) == "Zm8" && Encode([102, 111, 111]) == "Zm9v"
    ensures Encode([251, 255, 191]) == "-_-_"
  {
    assert Sextets([102]) == [25, 32] && Letters([25, 32]) == "Zg";
    assert Sextets([102, 111]) == [25, 38, 60] && Letters([25, 38, 60]) == "Zm8";
    assert Sextets([102, 111, 111]) == [25, 38, 61, 47] && Letters([25, 38, 61, 47]) == "Zm9v";
    assert Sextets([251, 255, 191]) == [62, 63, 62, 63] && Letters([62, 63, 62, 63]) == "-_-_";
  }

  // ---------- tokens ----------

  /** Splitting at every dot. */
  function Split(s: string): (r: seq<string>)
    ensures r != []
  {
    if s == "" then [""]
    else
      var before, c := Split(s[..|s| - 1]), s[|s| - 1];
      if c == '.' then before + [""] else before[..|before| - 1] + [before[|before| - 1] + [c]]
  }

  lemma {:induction false} SplitDotless(x: string)
    requires '.' !in x
    ensures Split(x) == [x]
  {
    if x != "" {
      var init := x[..|x| - 1];
      SplitDotless(init);
      assert x == init + [x[|x| - 1]] && x[|x| - 1] in x;
    }
  }

  lemma {:induction false} SplitAppend(s: string, x: string)
    requires '.' !in x
    ensures Split(s + "." + x) == Split(s) + [x]
  {
    var t := s + "." + x;
    if x == "" {
      assert t[..|t| - 1] == s;
    } else {
      var init := x[..|x| - 1];
      SplitAppend(s, init);
      assert t[..|t| - 1] == s + "." + init;
      assert t[|t| - 1] == x[|x| - 1] && x[|x| - 1] in x;
      assert x == init + [x[|x| - 1]];
      assert (Split(s) + [init])[..|Split(s)|] == Split(s);
    }
  }

  function JoinDots(parts: seq<string>): string
    requires parts != []
  {
    if |parts| == 1 then parts[0] else JoinDots(parts[..|parts| - 1]) + "." + parts[|parts| - 1]
  }

  /** Joining the parts again gives the text back, and no part has a dot. */
  lemma {:induction false} SplitJoins(s: string)
    ensures JoinDots(Split(s)) == s
    ensures forall p | p in Split(s) :: '.' !in p
  {
    if s != "" {
      var init, c := s[..|s| - 1], s[|s| - 1];
      SplitJoins(init);
      var before := Split(init);
      assert s == init + [c];
      if c == '.' {
        assert (before + [""])[..|before|] == before;
      } else {
        var r := before[..|before| - 1] + [before[|before| - 1] + [c]];
        assert r[..|r| - 1] == before[..|before| - 1];
        assert before[|before| - 1] in before;
      }
    }
  }

  datatype Claims = Claims(sub: string, exp: int, iat: int)

  /** The keyed hash, the header and the JSON form of claims. */
  datatype Suite = Suite(mac: (string, string) -> seq<byte>, header: seq<byte>,
                         enc: Claims -> seq<byte>, dec: seq<byte> -> Option<Claims>)

  ghost predicate Lawful(k: Suite) {
    forall c :: k.dec(k.enc(c)) == Some(c)
  }

  const SECOND := 1_000_000_000

  /** Whole seconds of an instant in nanoseconds. */
  function Unix(t: int): int {
    t / SECOND
  }

  function Sign(k: Suite, secret: string, unsigned: string): string {
    Encode(k.mac(secret, unsigned))
  }

  function ClaimsAt(subject: string, ttl: int, now: int): Claims {
    Claims(subject, Unix(now + ttl), Unix(now))
  }

  function SignJWT(k: Suite, secret: string, subject: string, ttl: int, now: int): string {
    var unsigned := Encode(k.header) + "." + Encode(k.enc(ClaimsAt(subject, ttl, now)));
    unsigned + "." + Sign(k, secret, unsigned)
  }

  datatype Verdict = Verified(claims: Claims) | BadFormat | BadSignature | BadPayload | BadClaims | Expired

  function VerifyJWT(k: Suite, secret: string, token: string, now: int): Verdict {
    var parts := Split(token);
    if |parts| != 3 then BadFormat
    else if Sign(k, secret, parts[0] + "." + parts[1]) != parts[2] then BadSignature
    else match Decode(parts[1])
         case None => BadPayload
         case Some(payload) =>
           match k.dec(payload)
           case None => BadClaims
           case Some(claims) => if claims.exp < Unix(now) then Expired else Verified(claims)
  }

  /** A signed token has exactly its three parts. */
  lemma TokenParts(k: Suite, secret: string, subject: string, ttl: int, now: int)
    ensures var h, p := Encode(k.header), Encode(k.enc(ClaimsAt(subject, ttl, now)));
            Split(SignJWT(k, secret, subject, ttl, now)) == [h, p, Sign(k, secret, h + "." + p)]
  {
    var h, p := Encode(k.header), Encode(k.enc(ClaimsAt(subject, ttl, now)));
    EncodeRoundTrip(k.header);
    EncodeRoundTrip(k.enc(ClaimsAt(subject, ttl, now)));
    EncodeRoundTrip(k.mac(secret, h + "." + p));
    SplitDotless(h);
    SplitAppend(h, p);
    SplitAppend(h + "." + p, Sign(k, secret, h + "." + p));
    assert Split(h) + [p] == [h, p];
  }

  /** Verified with its own secret a token yields its claims through the whole second `exp` and is expired
      from the next second on. */
  lemma TokenRoundTrip(k: Suite, secret: string, subject: string, ttl: int, issued: int, now: int)
    requires Lawful(k)
    ensures VerifyJWT(k, secret, SignJWT(k, secret, subject, ttl, issued), now)
            == if now / 1_000_000_000 <= (issued + ttl) / 1_000_000_000
               then Verified(Claims(subject, (issued + ttl) / 1_000_000_000, issued / 1_000_000_000)) else Expired
    ensures now <= issued + ttl ==> VerifyJWT(k, secret, SignJWT(k, secret, subject, ttl, issued), now).Verified?
    ensures now >= issued + ttl + SECOND ==> VerifyJWT(k, secret, SignJWT(k, secret, subject, ttl, issued), now).Expired?
  {
    TokenParts(k, secret, subject, ttl, issued);
    EncodeRoundTrip(k.enc(ClaimsAt(subject, ttl, issued)));
  }

  /** Another secret is refused exactly when its keyed hash of the signed text differs. */
  lemma OtherSecretRefusedIff(k: Suite, secret: string, other: string, subject: string, ttl: int, issued: int, now: int)
    ensures var unsigned := Encode(k.header) + "." + Encode(k.enc(ClaimsAt(subject, ttl, issued)));
            VerifyJWT(k, other, SignJWT(k, secret, subject, ttl, issued), now) == BadSignature
            <==> k.mac(other, unsigned) != k.mac(secret, unsigned)
  {
    var unsigned := Encode(k.header) + "." + Encode(k.enc(ClaimsAt(subject, ttl, issued)));
    TokenParts(k, secret, subject, ttl, issued);
    EncodeRoundTrip(k.mac(other, unsigned));
    EncodeRoundTrip(k.mac(secret, unsigned));
  }

  /** Whatever is accepted is a text, a dot, an encoding of its unexpired claims, a dot, and the signature of the
      text before that dot under the secret. */
  lemma AcceptedIsSigned(k: Suite, secret: string, token: string, now: int) returns (head: string, payload: string)
    requires VerifyJWT(k, secret, token, now).Verified?
    ensures token == head + "." + payload + "." + Sign(k, secret, head + "." + payload)
    ensures '.' !in head && '.' !in payload
    ensures var claims := VerifyJWT(k, secret, token, now).claims;
            Decode(payload).Some? && k.dec(Decode(payload).value) == Some(claims) && Unix(now) <= claims.exp
  {
    var parts := Split(token);
    SplitJoins(token);
    head, payload := parts[0], parts[1];
    assert parts[..2] == [head, payload] && parts[..2][..1] == [head];
    assert JoinDots(parts[..2]) == head + "." + payload;
    assert head in parts && payload in parts;
  }
}
