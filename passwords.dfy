/**
 * Password material: the two password providers, the lower-case hex text
 * that Go's "%x" verb writes, the salted MD5 response a client must send,
 * and the slice of a password message that holds the password.
 */
module Passwords {
  import opened Wire

  type Digest = d: Bytes | |d| == 16 witness [0, 0, 0, 0, 0, 0, 0, 0, 0, 0, 0, 0, 0, 0, 0, 0]

  /** The MD5 digest function; the digest algorithm itself is not part of this model. */
  type Md5 = Bytes -> Digest

  /** The four random bytes the MD5 authenticator puts in its challenge. */
  type Salt = s: Bytes | |s| == 4 witness [0, 0, 0, 0]

  /** The credential store behind an authenticator, given a user name's bytes. */
  datatype PasswordProvider =
    | ConstantProvider(password: Bytes)    // the same password for every user
    | Md5ConstantProvider(password: Bytes) // MD5(password ++ user) of one shared password

  function GetPassword(pp: PasswordProvider, user: Bytes, md5: Md5): (credential: Bytes)
    ensures pp.ConstantProvider? ==> credential == pp.password
    ensures pp.Md5ConstantProvider? ==> |credential| == 16 && credential == md5(pp.password + user)
  {
    match pp
    case ConstantProvider(password) => password
    case Md5ConstantProvider(password) => md5(password + user)
  }

  /** The constant provider does not look at the user name. */
  lemma ConstantProviderIgnoresUser(password: Bytes, u: Bytes, v: Bytes, md5: Md5)
    ensures GetPassword(ConstantProvider(password), u, md5) == GetPassword(ConstantProvider(password), v, md5)
  {
  }

  predicate IsLowerHex(c: byte) {
    '0' as byte <= c <= '9' as byte || 'a' as byte <= c <= 'f' as byte
  }

  predicate IsHexText(h: Bytes) {
    |h| % 2 == 0 && forall i :: 0 <= i < |h| ==> IsLowerHex(h[i])
  }

  function HexDigit(n: nat): (c: byte)
    requires n < 16
    ensures IsLowerHex(c)
  {
    if n < 10 then ('0' as int + n) as byte else ('a' as int + n - 10) as byte
  }

  function HexValue(c: byte): (n: nat)
    requires IsLowerHex(c)
    ensures n < 16
  {
    if c <= '9' as byte then c as int - '0' as int else c as int - 'a' as int + 10
  }

  /** Go's "%x" of a byte string: two lower-case hex digits per byte, high nibble first. */
  function Hex(b: Bytes): (h: Bytes)
    ensures |h| == 2 * |b| && IsHexText(h)
    decreases |b|
  {
    if b == [] then [] else [HexDigit(b[0] as int / 16), HexDigit(b[0] as int % 16)] + Hex(b[1..])
  }

  function Unhex(h: Bytes): (b: Bytes)
    requires IsHexText(h)
    decreases |h|
  {
    if h == [] then [] else [(16 * HexValue(h[0]) + HexValue(h[1])) as byte] + Unhex(h[2..])
  }

  /** Hex text reads back as the bytes it was written from. */
  lemma {:induction false} UnhexHex(b: Bytes)
    ensures Unhex(Hex(b)) == b
    decreases |b|
  {
    if b != [] {
      UnhexHex(b[1..]);
      assert Hex(b)[2..] == Hex(b[1..]);
    }
  }

  const MD5_PREFIX: Bytes := ['m' as byte, 'd' as byte, '5' as byte]

  /**
   * The response the MD5 authenticator expects, given the stored
   * MD5(password ++ user) and the salt it sent: "md5" followed by the hex
   * text of MD5(hex(hash) ++ salt).
   */
  function HashWithSalt(hash: Bytes, salt: Bytes, md5: Md5): (r: Bytes)
    ensures |r| == 35 && r[..3] == MD5_PREFIX
    ensures IsHexText(r[3..]) && Unhex(r[3..]) == md5(Hex(hash) + salt)
  {
    var digest := md5(Hex(hash) + salt);
    UnhexHex(digest);
    assert (MD5_PREFIX + Hex(digest))[3..] == Hex(digest);
    MD5_PREFIX + Hex(digest)
  }

  /**
   * The password carried by a password message: what lies between the
   * 5-byte type-and-length header and the final terminator byte. Slicing
   * that range needs at least six bytes.
   */
  function ExtractPassword(m: Bytes): (password: Bytes)
    requires |m| >= 6
    ensures |password| == |m| - 6
    ensures m == m[..5] + password + [m[|m| - 1]]
  {
    m[5..|m| - 1]
  }
}
