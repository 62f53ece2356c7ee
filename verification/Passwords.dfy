/**
  Password hashes and their validation (apr-util/crypto/apr_passwd.c, and the salts and texts of
  apr-util/crypto/apr_md5.c and apr-util/crypto/apr_sha1.c). The digests and the cipher are parameters.
 */
module Passwords {
  import opened Bytes
  import opened Bcrypt
  import Base64
  import Sha1

  // ----- The three kinds of hash

  const APR1: seq<byte> := [36, 97, 112, 114, 49, 36]   // "$apr1$"
  const SHA: seq<byte> := [123, 83, 72, 65, 125]        // "{SHA}"
  const BCRYPT_A: seq<byte> := [36, 50, 97, 36]         // "$2a$"
  const BCRYPT_Y: seq<byte> := [36, 50, 121, 36]        // "$2y$"

  /** The characters of a salt: up to the first dollar, and eight at most. */
  function Upto(s: seq<byte>, limit: nat): (r: seq<byte>)
    ensures |r| <= limit && r <= s && DOLLAR !in r
  {
    if limit == 0 || s == [] || s[0] == DOLLAR then [] else [s[0]] + Upto(s[1..], limit - 1)
  }

  /** The salt in what is passed as one: a salt, or a hash made with one. */
  function Apr1Salt(s: seq<byte>): seq<byte> {
    Upto(if APR1 <= s then s[6..] else s, 8)
  }

  /** The refinement of the salt in `apr_md5_encode`: where it starts, and how long it is. */
  method RefineSalt(s: seq<byte>) returns (sp: nat, sl: nat)
    ensures sp + sl <= |s| && s[sp..sp + sl] == Apr1Salt(s)
  {
    sp := if APR1 <= s then 6 else 0;
    sl := CountSalt(s[sp..]);
    assert s[0..] == s;
    assert s[sp..][..sl] == s[sp..sp + sl];
  }

  method CountSalt(s: seq<byte>) returns (sl: nat)
    ensures sl <= |s| && s[..sl] == Upto(s, 8)
  {
    var ep := s;
    sl := 0;
    ghost var taken: seq<byte> := [];
    while ep != [] && ep[0] != DOLLAR && sl < 8
      invariant sl == |taken| <= 8 && s == taken + ep && Upto(s, 8) == taken + Upto(ep, 8 - sl)
      decreases |ep|
    {
      Assoc(taken, [ep[0]], ep[1..]);
      Assoc(taken, [ep[0]], Upto(ep[1..], 8 - sl - 1));
      assert ep == [ep[0]] + ep[1..];
      taken := taken + [ep[0]];
      ep, sl := ep[1..], sl + 1;
    }
    assert taken + [] == taken;
  }

  /** The text of the digest that `apr_md5_encode` makes of a password and a salt. */
  type Md5Text = (seq<byte>, seq<byte>) -> seq<byte>

  /** The 20 bytes of a SHA-1 digest. */
  type Sha1Digest = seq<byte> -> seq<byte>

  /** `apr_md5_encode`, with a buffer that holds the result. */
  function Apr1(md5: Md5Text, pw: seq<byte>, s: seq<byte>): seq<byte> {
    APR1 + Apr1Salt(s) + [DOLLAR] + md5(pw, Apr1Salt(s))
  }

  /** `apr_sha1_base64` */
  function ShaText(sha: Sha1Digest, pw: seq<byte>): seq<byte> {
    SHA + Base64.Encoded(sha(pw))
  }

  lemma {:induction false} UptoKept(salt: seq<byte>, rest: seq<byte>, limit: nat)
    requires |salt| <= limit && DOLLAR !in salt
    ensures Upto(salt + ([DOLLAR] + rest), limit) == salt
    decreases |salt|
  {
    if salt == [] {
      assert salt + ([DOLLAR] + rest) == [DOLLAR] + rest;
    } else {
      assert (salt + ([DOLLAR] + rest))[1..] == salt[1..] + ([DOLLAR] + rest);
      UptoKept(salt[1..], rest, limit - 1);
    }
  }

  /** A hash passed as a salt names the salt it was made with. */
  lemma {:induction false} Apr1SaltKept(md5: Md5Text, pw: seq<byte>, s: seq<byte>)
    ensures Apr1Salt(Apr1(md5, pw, s)) == Apr1Salt(s)
  {
    var salt, h := Apr1Salt(s), Apr1(md5, pw, s);
    var rest := md5(pw, salt);
    assert APR1 <= h && h[6..] == salt + ([DOLLAR] + rest);
    UptoKept(salt, rest, 8);
  }

  // ----- Validation

  datatype Status = Success | Mismatch | Error

  function Compared(sample: seq<byte>, hash: seq<byte>): Status {
    if sample == hash then Success else Mismatch
  }

  /** `_crypt_blowfish_rn`: nothing is returned when its self-test fails. */
  function CryptBlowfish(f: Cipher, selfTest: bool, key: seq<byte>, s: seq<byte>, size: nat): Option<seq<byte>> {
    if selfTest then Crypt(f, key, s, size, 4) else None
  }

  predicate IsBcrypt(hash: seq<byte>) {
    At(hash, 0) == DOLLAR && At(hash, 1) == TWO && (At(hash, 2) == 97 || At(hash, 2) == 121) && At(hash, 3) == DOLLAR
  }

  /** `apr_password_validate`; `other` is the answer of the platform's own `crypt`. */
  function Validate(f: Cipher, selfTest: bool, md5: Md5Text, sha: Sha1Digest, other: Status, pw: seq<byte>,
                    hash: seq<byte>): Status {
    if IsBcrypt(hash) then
      var r := CryptBlowfish(f, selfTest, pw, hash, 200);
      if r.None? then Error else Compared(r.value, hash)
    else if APR1 <= hash then Compared(Apr1(md5, pw, hash), hash)
    else if SHA <= hash then Compared(ShaText(sha, pw), hash)
    else other
  }

  /** `apr_bcrypt_encode` */
  function BcryptEncode(f: Cipher, selfTest: bool, pw: seq<byte>, count: nat, salt: seq<byte>,
                        outLen: nat): Option<seq<byte>> {
    var s := GenSalt(121, count, salt, 40);
    if s.None? then None else CryptBlowfish(f, selfTest, pw, s.value, outLen)
  }

  /** When a hash is made. */
  lemma {:induction false} BcryptEncodes(f: Cipher, selfTest: bool, pw: seq<byte>, count: nat, salt: seq<byte>,
                                         outLen: nat)
    ensures BcryptEncode(f, selfTest, pw, count, salt, outLen).Some?
      <==> selfTest && |salt| >= 16 && (count == 0 || 4 <= count <= 31) && outLen >= 61
  {
    var s := GenSalt(121, count, salt, 40);
    if s.Some? {
      NewSettingGood(121, if count == 0 then 5 else count, salt, 61);
      assert Accepted(s.value, outLen, 4) <==> outLen >= 61;
    }
  }

  /** It holds the first 16 bytes of the salt. */
  lemma {:induction false} BcryptHoldsSalt(f: Cipher, selfTest: bool, pw: seq<byte>, count: nat, salt: seq<byte>,
                                           outLen: nat)
    requires BcryptEncode(f, selfTest, pw, count, salt, outLen).Some?
    ensures |salt| >= 16 && SaltOf(BcryptEncode(f, selfTest, pw, count, salt, outLen).value) == Some(salt[..16])
  {
    var s := GenSalt(121, count, salt, 40).value;
    NewSettingGood(121, if count == 0 then 5 else count, salt, 61);
    HashSalt(f, pw, s);
  }

  /** The four tests find the hashes that start with one of the two markers. */
  lemma {:induction false} MarkedIs(hash: seq<byte>)
    ensures IsBcrypt(hash) <==> BCRYPT_A <= hash || BCRYPT_Y <= hash
  {
    if IsBcrypt(hash) {
      assert hash[..4] == [hash[0], hash[1], hash[2], hash[3]];
    }
  }

  /** What starts with none of the four markers is left to the platform. */
  lemma {:induction false} OtherKinds(f: Cipher, selfTest: bool, md5: Md5Text, sha: Sha1Digest, other: Status,
                                      tried: seq<byte>, hash: seq<byte>)
    requires !(BCRYPT_A <= hash) && !(BCRYPT_Y <= hash) && !(APR1 <= hash) && !(SHA <= hash)
    ensures Validate(f, selfTest, md5, sha, other, tried, hash) == other
  {
    MarkedIs(hash);
  }

  /**
    What is said of any hash of this kind. It is an error exactly when the self-test fails or the setting in
    front is not accepted; and it is the hash of the password exactly when it holds, in canonical letters, the
    bytes that the cipher makes of it.
   */
  lemma {:induction false} BcryptVerdict(f: Cipher, selfTest: bool, md5: Md5Text, sha: Sha1Digest, other: Status,
                                         tried: seq<byte>, hash: seq<byte>)
    requires BCRYPT_A <= hash || BCRYPT_Y <= hash
    ensures Validate(f, selfTest, md5, sha, other, tried, hash) == Error <==> !selfTest || !Accepted(hash, 200, 4)
    ensures Validate(f, selfTest, md5, sha, other, tried, hash) == Success <==>
      && selfTest && Accepted(hash, 200, 4)
      && |hash| == 60 && Code(hash[28]) % 16 == 0 && Code(hash[59]) % 4 == 0
      && Salt(hash[29..], 23) == Some(f(tried, SaltOf(hash).value, Flags(At(hash, 2)), Cost(hash)))
  {
    MarkedIs(hash);
    if Accepted(hash, 200, 4) {
      IsHashIff(f, tried, hash);
    }
  }

  function Answer(same: bool): Status {
    if same then Success else Mismatch
  }

  /**
    A hash under any accepted setting of the two kinds validates exactly the passwords of which the cipher
    makes the same; the others are a mismatch.
   */
  lemma {:induction false} HashValidates(f: Cipher, md5: Md5Text, sha: Sha1Digest, other: Status, pw: seq<byte>,
                                         s: seq<byte>, tried: seq<byte>)
    requires (BCRYPT_A <= s || BCRYPT_Y <= s) && Accepted(s, 200, 4)
    ensures var salt, flags, cost := SaltOf(s).value, Flags(At(s, 2)), Cost(s);
      Validate(f, true, md5, sha, other, tried, Hash(f, pw, s))
        == Answer(f(tried, salt, flags, cost) == f(pw, salt, flags, cost))
  {
    var h := Hash(f, pw, s);
    HashAsSetting(f, pw, s, 200, 4);
    AcceptedLong(s);
    HeaderKept(s, h);
    HashSalt(f, pw, s);
    assert h[..4] == s[..4];
    BcryptVerdict(f, true, md5, sha, other, tried, h);
    BcryptVerdict(f, true, md5, sha, other, pw, h);
  }

  /** The same of what `apr_bcrypt_encode` makes: 4 is the flag of `$2y$`, and 5 the cost for a count of 0. */
  lemma {:induction false} BcryptValidates(f: Cipher, selfTest: bool, md5: Md5Text, sha: Sha1Digest, other: Status,
                                           pw: seq<byte>, count: nat, salt: seq<byte>, outLen: nat, tried: seq<byte>)
    requires BcryptEncode(f, selfTest, pw, count, salt, outLen).Some?
    ensures var hash := BcryptEncode(f, selfTest, pw, count, salt, outLen).value;
      var cost := if count == 0 then 5 else count;
      |salt| >= 16 && Validate(f, selfTest, md5, sha, other, tried, hash)
        == Answer(f(tried, salt[..16], 4, cost) == f(pw, salt[..16], 4, cost))
  {
    var cost := if count == 0 then 5 else count;
    var s := NewSetting(121, cost, salt);
    NewSettingGood(121, cost, salt, 200);
    HashValidates(f, md5, sha, other, pw, s, tried);
  }

  /** A hash of `apr_md5_encode`, with any salt, validates exactly the passwords with the same text. */
  lemma {:induction false} Apr1Validates(f: Cipher, selfTest: bool, md5: Md5Text, sha: Sha1Digest, other: Status,
                                         pw: seq<byte>, s: seq<byte>, tried: seq<byte>)
    ensures Validate(f, selfTest, md5, sha, other, tried, Apr1(md5, pw, s))
      == Answer(md5(tried, Apr1Salt(s)) == md5(pw, Apr1Salt(s)))
  {
    Apr1SaltKept(md5, pw, s);
    var h, front := Apr1(md5, pw, s), APR1 + Apr1Salt(s) + [DOLLAR];
    assert APR1 <= h && h[1] == 97;
    assert Apr1(md5, tried, s)[|front|..] == md5(tried, Apr1Salt(s)) && h[|front|..] == md5(pw, Apr1Salt(s));
  }

  /** `sha` is the digest of SHA-1 over a transform. */
  ghost predicate IsSha(transform: Sha1.Transform, sha: Sha1Digest, msg: seq<byte>) {
    Sha1.IsDigest(transform, msg, sha(msg))
  }

  /** `apr_sha1_base64`: what the code of SHA-1 and of base 64 makes of a password, on either kind of machine. */
  method Sha1Base64(transform: Sha1.Transform, little: bool, clear: seq<byte>, ghost sha: Sha1Digest)
    returns (out: seq<byte>)
    requires |clear| < 0x1_0000_0000 && IsSha(transform, sha, clear)
    ensures out == ShaText(sha, clear) && |out| == 33
  {
    var digest := DigestOnce(transform, little, clear);
    DigestIs(transform, clear, digest, sha(clear));
    var coded := EncodeAll(digest);
    out := SHA + coded;
  }

  method DigestOnce(transform: Sha1.Transform, little: bool, clear: seq<byte>) returns (digest: seq<byte>)
    requires |clear| < 0x1_0000_0000
    ensures Sha1.IsDigest(transform, clear, digest)
  {
    var context := new Sha1.Context(transform, little);
    context.Update(clear);
    assert context.msg == clear;
    digest := context.Final();
  }

  method EncodeAll(digest: seq<byte>) returns (coded: seq<byte>)
    ensures coded == Base64.Encoded(digest)
  {
    var buffer := new byte[Base64.EncodeLen(|digest|)];
    var l := Base64.Encode(buffer, digest);
    assert buffer[..l][..l - 1] == Base64.Encoded(digest);
    coded := buffer[..l - 1];
  }

  lemma {:induction false} DigestIs(transform: Sha1.Transform, msg: seq<byte>, digest: seq<byte>, d: seq<byte>)
    requires Sha1.IsDigest(transform, msg, digest) && Sha1.IsDigest(transform, msg, d)
    ensures digest == d && |Base64.Encoded(digest)| == 28
  {
    Sha1.DigestUnique(transform, msg, digest, d);
    Base64.EncodedLength(digest);
    assert |digest| == 20;
  }

  /** A hash of `apr_sha1_base64` validates exactly the passwords with the digest it was made of. */
  lemma {:induction false} ShaValidates(f: Cipher, selfTest: bool, md5: Md5Text, sha: Sha1Digest, other: Status,
                                        pw: seq<byte>, tried: seq<byte>)
    ensures Validate(f, selfTest, md5, sha, other, tried, ShaText(sha, pw)) == Answer(sha(tried) == sha(pw))
  {
    var h := ShaText(sha, pw);
    assert SHA <= h && h[0] == 123;
    if ShaText(sha, tried) == h {
      assert Base64.Encoded(sha(tried)) == ShaText(sha, tried)[5..] == h[5..] == Base64.Encoded(sha(pw));
      Base64.RoundTrip(sha(tried), []);
      Base64.RoundTrip(sha(pw), []);
    }
  }
}
