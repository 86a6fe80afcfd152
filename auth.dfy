/**
 * The authenticators run at the start of every session. Each one sends
 * its own challenge and its own verdict over the connection; the caller
 * only ends the session when `ok` is false or `err` is an error.
 */
module Auth {
  import opened Wrappers
  import opened Wire
  import opened Passwords

  const AUTHENTICATION: byte := 'R' as byte
  const PASSWORD_MESSAGE: byte := 'p' as byte

  // Authentication request subtypes.
  const AUTH_OK: nat := 0
  const AUTH_CLEAR_TEXT: nat := 3
  const AUTH_MD5: nat := 5

  /** `m` is an authentication request of the given subtype with `extra` after the subtype field. */
  predicate IsAuthRequest(m: Bytes, subtype: nat, extra: Bytes) {
    && |m| == 9 + |extra|
    && m[0] == AUTHENTICATION
    && Uint32BE(m[1..5]) == |m| - 1
    && Uint32BE(m[5..9]) == subtype
    && m[9..] == extra
  }

  /** AuthenticationOk: the client is now authenticated. */
  function AuthOkMsg(): (m: Frame)
    ensures IsAuthRequest(m, AUTH_OK, [])
  {
    var m: Bytes := [AUTHENTICATION, 0, 0, 0, 8, 0, 0, 0, 0];
    assert m[1..5] == [0, 0, 0, 8] && m[5..9] == [0, 0, 0, 0];
    m
  }

  /** AuthenticationCleartextPassword. */
  function ClearTextRequest(): (m: Frame)
    ensures IsAuthRequest(m, AUTH_CLEAR_TEXT, [])
  {
    var m: Bytes := [AUTHENTICATION, 0, 0, 0, 8, 0, 0, 0, 3];
    assert m[1..5] == [0, 0, 0, 8] && m[5..9] == [0, 0, 0, 3];
    m
  }

  /** AuthenticationMD5Password carrying the salt: 13 bytes in all. */
  function Md5Request(salt: Salt): (m: Frame)
    ensures IsAuthRequest(m, AUTH_MD5, salt) && |m| == 13
  {
    var request: Bytes := [AUTHENTICATION, 0, 0, 0, 12, 0, 0, 0, 5];
    var m := request + salt;
    assert m[1..5] == [0, 0, 0, 12] && m[5..9] == [0, 0, 0, 5] && m[9..] == salt;
    m
  }

  /**
   * The connection an authenticator talks over (the msgReadWriter
   * interface); the query session and the protocol endpoint record their
   * writes the same way, each standing for its own interface. Every message handed to
   * Write is recorded in `sent`; the outcome of the k-th write and of
   * the k-th read are the connection's, given as `writeOutcome(k)` and
   * `readOutcome(k)`.
   */
  class Channel {
    var sent: seq<Message>
    var received: nat
    const writeOutcome: nat -> Option<Error>
    const readOutcome: nat -> Result<Frame, Error>

    constructor (writeOutcome: nat -> Option<Error>, readOutcome: nat -> Result<Frame, Error>)
      ensures sent == [] && received == 0
      ensures this.writeOutcome == writeOutcome && this.readOutcome == readOutcome
    {
      this.sent := [];
      this.received := 0;
      this.writeOutcome := writeOutcome;
      this.readOutcome := readOutcome;
    }

    method Write(m: Message) returns (err: Option<Error>)
      modifies this`sent
      ensures sent == old(sent) + [m]
      ensures err == writeOutcome(|old(sent)|)
    {
      err := writeOutcome(|sent|);
      sent := sent + [m];
    }

    method Read() returns (r: Result<Frame, Error>)
      modifies this`received
      ensures received == old(received) + 1
      ensures r == readOutcome(old(received))
    {
      r := readOutcome(received);
      received := received + 1;
    }
  }

  /**
   * The message an authenticator answers the client's reply with, when it
   * expects the password `expected` from `user`: AuthenticationOk exactly
   * when the reply is a password message carrying `expected`, and otherwise
   * one fatal error that never carries credential bytes.
   */
  function Verdict(reply: Frame, expected: Bytes, user: Bytes): (answer: Message)
    ensures answer == Raw(AuthOkMsg()) <==>
      reply[0] == PASSWORD_MESSAGE && |reply| >= 6 && ExtractPassword(reply) == expected
    ensures answer != Raw(AuthOkMsg()) ==>
      && answer.ErrorResponse? && answer.fatal
      && answer.cause in {UnexpectedMessage(reply[0]), MalformedPassword, PasswordMismatch(user)}
    ensures reply[0] != PASSWORD_MESSAGE ==> answer == ErrorResponse(UnexpectedMessage(reply[0]), true)
    ensures reply[0] == PASSWORD_MESSAGE && |reply| < 6 ==> answer == ErrorResponse(MalformedPassword, true)
    ensures reply[0] == PASSWORD_MESSAGE && |reply| >= 6 && ExtractPassword(reply) != expected ==>
      answer == ErrorResponse(PasswordMismatch(user), true)
  {
    if reply[0] != PASSWORD_MESSAGE then ErrorResponse(UnexpectedMessage(reply[0]), true)
    else if |reply| < 6 then ErrorResponse(MalformedPassword, true)
    else if ExtractPassword(reply) != expected then ErrorResponse(PasswordMismatch(user), true)
    else Raw(AuthOkMsg())
  }

  /**
   * The whole of a challenge/response exchange on `rw`, which had `w0`
   * written and `r0` reads done before: the challenge is written; if that
   * fails, or reading the one reply fails, the exchange ends with that
   * error; otherwise the verdict is written and its write outcome returned.
   */
  ghost predicate Exchanged(rw: Channel, w0: seq<Message>, r0: nat, challenge: Frame,
                            expected: Bytes, user: Bytes, ok: bool, err: Option<Error>)
    reads rw
  {
    var k := |w0|;
    if rw.writeOutcome(k).Some? then
      !ok && err == rw.writeOutcome(k) && rw.sent == w0 + [Raw(challenge)] && rw.received == r0
    else if rw.readOutcome(r0).Failure? then
      !ok && err == Some(rw.readOutcome(r0).error) && rw.sent == w0 + [Raw(challenge)] && rw.received == r0 + 1
    else
      var answer := Verdict(rw.readOutcome(r0).value, expected, user);
      && rw.sent == w0 + [Raw(challenge), answer]
      && rw.received == r0 + 1
      && ok == (answer == Raw(AuthOkMsg()))
      && err == rw.writeOutcome(k + 1)
  }

  /**
   * What every exchange guarantees: it accepts iff the challenge went out,
   * a reply came back, and the reply is a password message carrying exactly
   * the expected password; after the challenge it sent AuthenticationOk on
   * acceptance and otherwise at most one message, a fatal error.
   */
  lemma ExchangeAcceptsIff(rw: Channel, w0: seq<Message>, r0: nat, challenge: Frame,
                           expected: Bytes, user: Bytes, ok: bool, err: Option<Error>)
    requires Exchanged(rw, w0, r0, challenge, expected, user, ok, err)
    ensures ok <==>
      && rw.writeOutcome(|w0|).None?
      && rw.readOutcome(r0).Success?
      && var reply := rw.readOutcome(r0).value;
         reply[0] == PASSWORD_MESSAGE && |reply| >= 6 && ExtractPassword(reply) == expected
    ensures |w0| < |rw.sent| <= |w0| + 2 && rw.sent[..|w0| + 1] == w0 + [Raw(challenge)]
    ensures ok ==> rw.sent == w0 + [Raw(challenge), Raw(AuthOkMsg())]
    ensures !ok && |rw.sent| == |w0| + 2 ==> rw.sent[|w0| + 1].ErrorResponse? && rw.sent[|w0| + 1].fatal
  {
  }

  /** No password: answers AuthenticationOk at once and always succeeds. */
  method NoPasswordAuthenticate(rw: Channel) returns (ok: bool, err: Option<Error>)
    modifies rw
    ensures ok
    ensures rw.sent == old(rw.sent) + [Raw(AuthOkMsg())] && rw.received == old(rw.received)
    ensures err == rw.writeOutcome(|old(rw.sent)|)
  {
    ok := true;
    err := rw.Write(Raw(AuthOkMsg()));
  }

  /** Clear-text password: the reply must carry the provider's password for `user`. */
  method ClearTextAuthenticate(pp: PasswordProvider, md5: Md5, rw: Channel, user: Bytes)
    returns (ok: bool, err: Option<Error>)
    modifies rw
    ensures Exchanged(rw, old(rw.sent), old(rw.received), ClearTextRequest(),
                      GetPassword(pp, user, md5), user, ok, err)
  {
    var passwordRequest := ClearTextRequest();
    err := rw.Write(Raw(passwordRequest));
    if err.Some? {
      return false, err;
    }
    var m := rw.Read();
    if m.Failure? {
      return false, Some(m.error);
    }
    var reply := m.value;
    if reply[0] != PASSWORD_MESSAGE {
      err := rw.Write(ErrorResponse(UnexpectedMessage(reply[0]), true));
      return false, err;
    }
    if |reply| < 6 {
      err := rw.Write(ErrorResponse(MalformedPassword, true));
      return false, err;
    }
    var expectedPassword := GetPassword(pp, user, md5);
    var actualPassword := ExtractPassword(reply);
    if expectedPassword != actualPassword {
      err := rw.Write(ErrorResponse(PasswordMismatch(user), true));
      return false, err;
    }
    ok := true;
    err := rw.Write(Raw(AuthOkMsg()));
  }

  /**
   * MD5 password: the challenge carries `salt` (the random source is the
   * caller's) and the reply must be HashWithSalt of the provider's stored
   * hash with the very salt the challenge carried.
   */
  method Md5Authenticate(pp: PasswordProvider, md5: Md5, rw: Channel, user: Bytes, salt: Salt)
    returns (ok: bool, err: Option<Error>)
    modifies rw
    ensures Exchanged(rw, old(rw.sent), old(rw.received), Md5Request(salt),
                      HashWithSalt(GetPassword(pp, user, md5), Md5Request(salt)[9..], md5), user, ok, err)
  {
    var passwordRequest := Md5Request(salt);
    assert passwordRequest[9..] == salt;
    err := rw.Write(Raw(passwordRequest));
    if err.Some? {
      return false, err;
    }
    var m := rw.Read();
    if m.Failure? {
      return false, Some(m.error);
    }
    var reply := m.value;
    if reply[0] != PASSWORD_MESSAGE {
      err := rw.Write(ErrorResponse(UnexpectedMessage(reply[0]), true));
      return false, err;
    }
    if |reply| < 6 {
      err := rw.Write(ErrorResponse(MalformedPassword, true));
      return false, err;
    }
    var storedHash := GetPassword(pp, user, md5);
    var expectedHash := HashWithSalt(storedHash, salt, md5);
    var actualHash := ExtractPassword(reply);
    if expectedHash != actualHash {
      err := rw.Write(ErrorResponse(PasswordMismatch(user), true));
      return false, err;
    }
    ok := true;
    err := rw.Write(Raw(AuthOkMsg()));
  }

  /** The authenticator variants a server can be configured with. */
  datatype Authenticator =
    | NoPassword
    | ClearText(pp: PasswordProvider)
    | Md5Password(pp: PasswordProvider)

  /** Runs the configured variant; `salt` is used only by the MD5 variant. */
  method Authenticate(a: Authenticator, md5: Md5, rw: Channel, user: Bytes, salt: Salt)
    returns (ok: bool, err: Option<Error>)
    modifies rw
    ensures a.NoPassword? ==>
      && ok && rw.sent == old(rw.sent) + [Raw(AuthOkMsg())] && rw.received == old(rw.received)
      && err == rw.writeOutcome(|old(rw.sent)|)
    ensures a.ClearText? ==>
      Exchanged(rw, old(rw.sent), old(rw.received), ClearTextRequest(),
                GetPassword(a.pp, user, md5), user, ok, err)
    ensures a.Md5Password? ==>
      Exchanged(rw, old(rw.sent), old(rw.received), Md5Request(salt),
                HashWithSalt(GetPassword(a.pp, user, md5), salt, md5), user, ok, err)
  {
    match a
    case NoPassword =>
      ok, err := NoPasswordAuthenticate(rw);
    case ClearText(pp) =>
      ok, err := ClearTextAuthenticate(pp, md5, rw, user);
    case Md5Password(pp) =>
      ok, err := Md5Authenticate(pp, md5, rw, user, salt);
  }

  /**
   * The source slices the password out of any message whose type byte is
   * 'p'. A well-framed password message with an empty payload passes that
   * check, yet is too short for the slice, which needs six bytes.
   */
  lemma ShortPasswordMessagePassesTypeCheck()
    ensures var m: Bytes := [PASSWORD_MESSAGE, 0, 0, 0, 4];
      IsFrame(m) && m[0] == PASSWORD_MESSAGE && |m| < 6
  {
  }
}
