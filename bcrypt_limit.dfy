/**
 * bcrypt's 72-byte limit and what it does to refresh-token rotation.
 *
 * bcrypt hashes only the first 72 bytes of its input, so bcrypt.compare
 * accepts any text that agrees with the hashed one on those bytes. The
 * refresh token that refreshTokens compares this way is a JWT in compact
 * form, base64url(header) "." base64url(payload) "." signature, whose
 * payload starts {"sub":"<user id>". Every token of one user therefore
 * starts with the same 72 characters, and the program as written accepts a
 * refresh token that rotation has replaced. Auth.AuthService.RefreshTokens
 * models the evidently intended check, which accepts only the stored token.
 */
module BcryptLimit {
  import opened Outcomes
  import opened Identity

  /** bcrypt reads at most this many bytes of its input. */
  const BcryptMaxBytes: nat := 72

  /** The part of `s` bcrypt reads; a character is a byte for ASCII text such as a token. */
  function Truncated(s: string): (r: string)
    ensures r <= s
    ensures |r| == if |s| < BcryptMaxBytes then |s| else BcryptMaxBytes
  {
    if |s| < BcryptMaxBytes then s else s[..BcryptMaxBytes]
  }

  /**
   * bcrypt.compare(plain, digest) as the library computes it: it accepts the
   * text the digest was made from, is exact when either text is shorter than
   * the limit, and otherwise looks at the first 72 bytes only.
   */
  predicate CompareAsWritten(plain: string, d: Digest): (ok: bool)
    ensures plain == d.secret ==> ok
    ensures ok && (|plain| < BcryptMaxBytes || |d.secret| < BcryptMaxBytes) ==> plain == d.secret
    ensures BcryptMaxBytes <= |plain| && BcryptMaxBytes <= |d.secret| ==>
              (ok <==> plain[..BcryptMaxBytes] == d.secret[..BcryptMaxBytes])
  {
    Truncated(plain) == Truncated(d.secret)
  }

  /** Within 72 bytes the library agrees with the idealised Compare the model uses. */
  lemma CompareAsWrittenWithinLimit(plain: string, password: string)
    requires |plain| <= BcryptMaxBytes && |password| <= BcryptMaxBytes
    ensures CompareAsWritten(plain, Hash(password)) <==> Compare(plain, Hash(password))
  {
  }

  /** Beyond 72 bytes it accepts texts the idealised Compare refuses. */
  lemma CompareAsWrittenIgnoresTail(plain: string, password: string)
    requires BcryptMaxBytes <= |plain| && BcryptMaxBytes <= |password|
    requires plain[..BcryptMaxBytes] == password[..BcryptMaxBytes]
    ensures CompareAsWritten(plain, Hash(password))
    ensures plain != password ==> !Compare(plain, Hash(password))
  {
  }

  type Byte = b: int | 0 <= b < 256

  /** The base64url alphabet: A-Z, a-z, 0-9, '-' and '_'. */
  function Base64UrlDigit(v: int): (c: char)
    requires 0 <= v < 64
  {
    if v < 26 then ('A' as int + v) as char
    else if v < 52 then ('a' as int + (v - 26)) as char
    else if v < 62 then ('0' as int + (v - 52)) as char
    else if v == 62 then '-'
    else '_'
  }

  /** Three bytes as four characters, six bits each. */
  function Quad(a: Byte, b: Byte, c: Byte): (r: string)
    ensures |r| == 4
  {
    var n := a as int * 65536 + b as int * 256 + c as int;
    [Base64UrlDigit(n / 262144), Base64UrlDigit(n / 4096 % 64), Base64UrlDigit(n / 64 % 64), Base64UrlDigit(n % 64)]
  }

  /** A two-byte tail: sixteen bits padded to eighteen, three characters. */
  function Triple(a: Byte, b: Byte): (r: string)
    ensures |r| == 3
  {
    var n := a as int * 1024 + b as int * 4;
    [Base64UrlDigit(n / 4096), Base64UrlDigit(n / 64 % 64), Base64UrlDigit(n % 64)]
  }

  /** A one-byte tail: eight bits padded to twelve, two characters. */
  function Pair(a: Byte): (r: string)
    ensures |r| == 2
  {
    var n := a as int * 16;
    [Base64UrlDigit(n / 64), Base64UrlDigit(n % 64)]
  }

  /** base64url without padding. */
  function Base64Url(s: seq<Byte>): (r: string)
    ensures |r| == (4 * |s| + 2) / 3
    decreases |s|
  {
    if |s| >= 3 then Quad(s[0], s[1], s[2]) + Base64Url(s[3..])
    else if |s| == 2 then Triple(s[0], s[1])
    else if |s| == 1 then Pair(s[0])
    else []
  }

  /** The first 4k characters of an encoding depend only on the first 3k bytes. */
  lemma {:induction false} Base64UrlPrefix(s: seq<Byte>, t: seq<Byte>, k: nat)
    requires 3 * k <= |s| && 3 * k <= |t| && s[..3 * k] == t[..3 * k]
    ensures Base64Url(s)[..4 * k] == Base64Url(t)[..4 * k]
  {
    if k > 0 {
      assert s[..3] == s[..3 * k][..3] == t[..3 * k][..3] == t[..3];
      assert s[0] == s[..3][0] && s[1] == s[..3][1] && s[2] == s[..3][2];
      assert t[0] == t[..3][0] && t[1] == t[..3][1] && t[2] == t[..3][2];
      assert s[3..][..3 * (k - 1)] == s[..3 * k][3..] == t[..3 * k][3..] == t[3..][..3 * (k - 1)];
      Base64UrlPrefix(s[3..], t[3..], k - 1);
      var q := Quad(s[0], s[1], s[2]);
      assert Base64Url(s)[..4 * k] == q + Base64Url(s[3..])[..4 * (k - 1)];
      assert Base64Url(t)[..4 * k] == q + Base64Url(t[3..])[..4 * (k - 1)];
    }
  }

  /** {"sub":" : the payload's first bytes, since the claims are written sub first. */
  const SubKey: seq<Byte> := [123, 34, 115, 117, 98, 34, 58, 34]

  /** The payload of a token for subject `sub`; `rest` holds email, role, iat and exp. */
  function Payload(sub: seq<Byte>, rest: seq<Byte>): (p: seq<Byte>)
    ensures |p| == |SubKey| + |sub| + |rest|
  {
    SubKey + sub + rest
  }

  /** base64url of {"alg":"HS256","typ":"JWT"}, the header of every token the service signs. */
  const JwtHeader := "eyJhbGciOiJIUzI1NiIsInR5cCI6IkpXVCJ9"

  /** A signed token in compact form. */
  function TokenText(payload: seq<Byte>, signature: string): (t: string)
    ensures |t| == |JwtHeader| + 1 + |Base64Url(payload)| + 1 + |signature|
  {
    JwtHeader + "." + Base64Url(payload) + "." + signature
  }

  /**
   * refreshTokens as written (src/auth/auth.service.ts:196-206): Access
   * Denied without a stored token, otherwise bcrypt.compare of the presented
   * token against the digest stored for the current one.
   */
  function RefreshCheckAsWritten(stored: Option<string>, presented: string): (ok: bool)
    ensures ok ==> stored.Some?
    ensures stored.Some? && presented == stored.value ==> ok
  {
    stored.Some? && CompareAsWritten(presented, Hash(stored.value))
  }

  /** What bcrypt reads of a token: the header, the dot and 35 characters of the encoded payload. */
  lemma TokenStart(p: seq<Byte>, signature: string)
    requires 27 <= |p|
    ensures |Base64Url(p)| >= 36
    ensures Truncated(TokenText(p, signature)) == JwtHeader + "." + Base64Url(p)[..35]
  {
    var b := Base64Url(p);
    var h := JwtHeader + ".";
    assert |h| == 37;
    assert TokenText(p, signature) == h + (b + "." + signature);
    assert (b + "." + signature)[..35] == b[..35];
  }

  /** Two tokens whose payloads share their first 27 bytes look the same to bcrypt. */
  lemma SharedPayloadStartSharedPrefix(p1: seq<Byte>, p2: seq<Byte>, s1: string, s2: string)
    requires 27 <= |p1| && 27 <= |p2| && p1[..27] == p2[..27]
    ensures Truncated(TokenText(p1, s1)) == Truncated(TokenText(p2, s2))
  {
    Base64UrlPrefix(p1, p2, 9);
    TokenStart(p1, s1);
    TokenStart(p2, s2);
    var b1, b2 := Base64Url(p1), Base64Url(p2);
    assert b1[..35] == b1[..36][..35];
    assert b2[..35] == b2[..36][..35];
  }

  /** Two tokens with payloads of one length and signatures of one length differ where their signatures do. */
  lemma SignatureTells(p1: seq<Byte>, p2: seq<Byte>, s1: string, s2: string)
    requires |p1| == |p2| && |s1| == |s2| && s1 != s2
    ensures TokenText(p1, s1) != TokenText(p2, s2)
  {
    var t1, t2 := TokenText(p1, s1), TokenText(p2, s2);
    var cut := |t1| - |s1|;
    assert t1[cut..] == s1;
    assert t2[cut..] == s2;
  }

  /** The payloads of two tokens of one user agree on their first 27 bytes. */
  lemma SameSubjectPayloads(sub: seq<Byte>, r1: seq<Byte>, r2: seq<Byte>)
    requires |sub| >= 19
    ensures Payload(sub, r1)[..27] == Payload(sub, r2)[..27]
  {
    assert Payload(sub, r1)[..27] == SubKey + sub[..19];
    assert Payload(sub, r2)[..27] == SubKey + sub[..19];
  }

  /**
   * Rotation does not retire a token as written: when the current token and
   * a replaced one belong to the same user (an id of at least 19 bytes; a
   * uuid has 36), the replaced token still passes the check, although it is
   * not the stored one.
   */
  lemma RotatedOutTokenAccepted(sub: seq<Byte>, oldRest: seq<Byte>, newRest: seq<Byte>,
                                oldSignature: string, newSignature: string)
    requires |sub| >= 19
    requires |oldRest| == |newRest| && |oldSignature| == |newSignature| && oldSignature != newSignature
    ensures var replaced := TokenText(Payload(sub, oldRest), oldSignature);
            var current := TokenText(Payload(sub, newRest), newSignature);
            replaced != current && RefreshCheckAsWritten(Some(current), replaced)
  {
    var p1, p2 := Payload(sub, oldRest), Payload(sub, newRest);
    SameSubjectPayloads(sub, oldRest, newRest);
    SharedPayloadStartSharedPrefix(p1, p2, oldSignature, newSignature);
    SignatureTells(p1, p2, oldSignature, newSignature);
  }
}
