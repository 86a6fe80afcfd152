/**
 * The transaction buffer of the extended query flow: frontend messages
 * read through the protocol are kept in `incoming`, backend messages are
 * held back in `outgoing` until `Flush` hands them to the protocol in
 * order. Once an error message is buffered, later writes are dropped.
 */
module Transactions {
  import opened Wrappers
  import opened Wire

  const ERROR_TYPE: byte := 'E' as byte

  /**
   * The protocol endpoint a transaction talks through. Every message
   * handed to Write is recorded in `sent`; the outcome of the k-th write
   * and of the k-th frontend read are the connection's, given as
   * `writeOutcome(k)` and `readOutcome(k)`. It records writes as the
   * authenticators' channel does, but stands for the protocol's own
   * write and readFrontendMessage.
   */
  class Protocol {
    var sent: seq<Message>
    var received: nat
    const writeOutcome: nat -> Option<Error>
    const readOutcome: nat -> Result<Frame, Error>

    constructor (writeOutcome: nat -> Option<Error>, readOutcome: nat -> Result<Frame, Error>)
      ensures sent == [] && received == 0
      ensures this.writeOutcome == writeOutcome && this.readOutcome == readOutcome
    {
      this.sent := [];
      this.received := 0;
      this.writeOutcome := writeOutcome;
      this.readOutcome := readOutcome;
    }

    method Write(m: Message) returns (err: Option<Error>)
      modifies this`sent
      ensures sent == old(sent) + [m]
      ensures err == writeOutcome(|old(sent)|)
    {
      err := writeOutcome(|sent|);
      sent := sent + [m];
    }

    method ReadFrontendMessage() returns (r: Result<Frame, Error>)
      modifies this`received
      ensures received == old(received) + 1
      ensures r == readOutcome(old(received))
    {
      r := readOutcome(received);
      received := received + 1;
    }
  }

  // ------------------------------------------------- the outgoing buffer

  /** The buffer ends with an error message. */
  predicate Poisoned(out: seq<Message>) {
    |out| > 0 && out[|out| - 1].Type() == ERROR_TYPE
  }

  /** At most one error message, and only in last place. */
  predicate SingleTrailingError(out: seq<Message>) {
    forall i :: 0 <= i < |out| - 1 ==> out[i].Type() != ERROR_TYPE
  }

  /**
   * The buffer after writing `m`: unchanged once poisoned, else `m`
   * appended. Either way what was buffered stays, in place.
   */
  function Buffered(out: seq<Message>, m: Message): (out': seq<Message>)
    ensures |out| <= |out'| <= |out| + 1 && out'[..|out|] == out
    ensures |out'| == |out| + 1 <==> !Poisoned(out)
    ensures !Poisoned(out) ==> out' == out + [m]
  {
    if Poisoned(out) then out else out + [m]
  }

  /** The buffer after writing each of `ms` in turn. */
  function BufferAll(out: seq<Message>, ms: seq<Message>): seq<Message>
    decreases |ms|
  {
    if ms == [] then out else BufferAll(Buffered(out, ms[0]), ms[1..])
  }

  /** `ms` up to and including its first error message; all of `ms` when it has none. */
  function UpToFirstError(ms: seq<Message>): (cut: seq<Message>)
    ensures |cut| <= |ms| && cut == ms[..|cut|]
    ensures SingleTrailingError(cut)
    ensures |cut| < |ms| ==> Poisoned(cut)
    decreases |ms|
  {
    if ms == [] then []
    else if ms[0].Type() == ERROR_TYPE then [ms[0]]
    else [ms[0]] + UpToFirstError(ms[1..])
  }

  /** A write keeps the error message, if any, single and last. */
  lemma BufferedKeepsSingleTrailingError(out: seq<Message>, m: Message)
    requires SingleTrailingError(out)
    ensures SingleTrailingError(Buffered(out, m))
  {
    if !Poisoned(out) {
      var out' := out + [m];
      forall i | 0 <= i < |out'| - 1
        ensures out'[i].Type() != ERROR_TYPE
      {
        assert out'[i] == out[i];
      }
    }
  }

  /** Once an error message is buffered, no write changes the buffer. */
  lemma {:induction false} PoisonedAbsorbs(out: seq<Message>, ms: seq<Message>)
    requires Poisoned(out)
    ensures BufferAll(out, ms) == out
    decreases |ms|
  {
    if ms != [] {
      PoisonedAbsorbs(out, ms[1..]);
    }
  }

  /**
   * Writing `ms` into a buffer with no trailing error keeps exactly the
   * messages of `ms` up to and including the first error.
   */
  lemma {:induction false} BufferAllUpToFirstError(out: seq<Message>, ms: seq<Message>)
    requires !Poisoned(out)
    ensures BufferAll(out, ms) == out + UpToFirstError(ms)
    decreases |ms|
  {
    if ms == [] {
      assert out + [] == out;
    } else {
      var m, rest := ms[0], ms[1..];
      var out' := out + [m];
      assert BufferAll(out, ms) == BufferAll(out', rest);
      if m.Type() == ERROR_TYPE {
        assert UpToFirstError(ms) == [m];
        assert Poisoned(out');
        PoisonedAbsorbs(out', rest);
      } else {
        assert UpToFirstError(ms) == [m] + UpToFirstError(rest);
        assert !Poisoned(out');
        BufferAllUpToFirstError(out', rest);
        Associative(out, [m], UpToFirstError(rest));
      }
    }
  }

  /** A suffix of a buffer, as Flush leaves behind, keeps the error message single and last. */
  lemma SuffixKeepsSingleTrailingError(out: seq<Message>, j: nat)
    requires j <= |out| && SingleTrailingError(out)
    ensures SingleTrailingError(out[j..])
  {
    forall i | 0 <= i < |out[j..]| - 1
      ensures out[j..][i].Type() != ERROR_TYPE
    {
      assert out[j..][i] == out[j + i];
    }
  }

  /** Writing A, then an error E, then C keeps A and E and drops C. */
  lemma ErrorDropsLaterWrites(a: Message, e: Error, c: Message)
    requires a.Type() != ERROR_TYPE
    ensures BufferAll([], [a, ErrorResponse(e, false), c]) == [a, ErrorResponse(e, false)]
  {
    var ms := [a, ErrorResponse(e, false), c];
    assert ms[1..] == [ErrorResponse(e, false), c];
    assert ms[1..][1..] == [c];
    assert Buffered([], a) == [a];
    assert Buffered([a], ErrorResponse(e, false)) == [a, ErrorResponse(e, false)];
    PoisonedAbsorbs([a, ErrorResponse(e, false)], [c]);
  }

  // --------------------------------------------------------- transaction

  /** A transaction over protocol `p`: the frontend messages read so far and the backend messages held back. */
  class Transaction {
    const p: Protocol
    var incoming: seq<Frame>
    var outgoing: seq<Message>

    constructor (p: Protocol)
      ensures this.p == p && incoming == [] && outgoing == []
    {
      this.p := p;
      this.incoming := [];
      this.outgoing := [];
    }

    /** Reads the next frontend message through the protocol and keeps it when the read succeeds. */
    method NextFrontendMessage() returns (msg: Result<Frame, Error>)
      modifies this`incoming, p`received
      ensures p.received == old(p.received) + 1 && msg == p.readOutcome(old(p.received))
      ensures incoming == if msg.Success? then old(incoming) + [msg.value] else old(incoming)
      ensures outgoing == old(outgoing) && p.sent == old(p.sent)
    {
      msg := p.ReadFrontendMessage();
      if msg.Success? {
        incoming := incoming + [msg.value];
      }
    }

    /** Buffers `m` unless an error message is already last; never fails. */
    method Write(m: Message) returns (err: Option<Error>)
      modifies this`outgoing
      ensures err.None?
      ensures outgoing == Buffered(old(outgoing), m)
      ensures old(SingleTrailingError(outgoing)) ==> SingleTrailingError(outgoing)
      ensures incoming == old(incoming) && p.sent == old(p.sent)
    {
      if SingleTrailingError(outgoing) {
        BufferedKeepsSingleTrailingError(outgoing, m);
      }
      if |outgoing| > 0 && outgoing[|outgoing| - 1].Type() == ERROR_TYPE {
        return None;
      }
      outgoing := outgoing + [m];
      err := None;
    }

    /**
     * Hands the buffered messages to the protocol front to back, dropping
     * each one only once its write succeeded; stops at the first failing
     * write, which stays at the head of the buffer.
     */
    method Flush() returns (err: Option<Error>)
      modifies this`outgoing, p`sent
      ensures p.sent == old(p.sent) + Attempted(old(outgoing), |old(p.sent)|, p.writeOutcome)
      ensures err.None? ==>
        && outgoing == []
        && p.sent == old(p.sent) + old(outgoing)
        && WritesSucceed(p.writeOutcome, |old(p.sent)|, |p.sent|)
      ensures err.Some? ==>
        && |old(p.sent)| < |p.sent|
        && err == p.writeOutcome(|p.sent| - 1)
        && outgoing == old(outgoing)[|p.sent| - |old(p.sent)| - 1..]
      ensures old(SingleTrailingError(outgoing)) ==> SingleTrailingError(outgoing)
      ensures incoming == old(incoming)
    {
      ghost var out, k := outgoing, |p.sent|;
      ghost var done := 0;
      err := None;
      while |outgoing| > 0
        invariant 0 <= done <= |out| && outgoing == out[done..]
        invariant p.sent == old(p.sent) + out[..done]
        invariant WritesSucceed(p.writeOutcome, k, |p.sent|)
        invariant err.None?
        decreases |outgoing|
      {
        err := p.Write(outgoing[0]);
        if err.Some? {
          assert p.sent == old(p.sent) + out[..done + 1];
          AttemptedUpTo(out, k, p.writeOutcome, done);
          break;
        }
        outgoing := outgoing[1..];
        done := done + 1;
      }
      if err.None? {
        assert out[..done] == out;
        if out != [] {
          AttemptedUpTo(out, k, p.writeOutcome, done - 1);
        }
      }
      if old(SingleTrailingError(outgoing)) {
        SuffixKeepsSingleTrailingError(out, done);
      }
    }
  }
}
