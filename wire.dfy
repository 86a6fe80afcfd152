/**
 * Bytes, frames and the backend messages the protocol engine writes, plus
 * the one rule every writer in the engine follows: messages are written in
 * order and the sequence stops right after the first write that fails.
 */
module Wire {
  import opened Wrappers

  newtype byte = b: int | 0 <= b < 256

  type Bytes = seq<byte>

  /** Big-endian unsigned 32-bit integer held in four bytes. */
  function Uint32BE(b: Bytes): nat
    requires |b| == 4
  {
    ((b[0] as nat * 256 + b[1] as nat) * 256 + b[2] as nat) * 256 + b[3] as nat
  }

  /**
   * A typed frame as it travels on the wire: one type byte, then a 4-byte
   * length that counts itself and the payload, then the payload.
   */
  predicate IsFrame(m: Bytes) {
    |m| >= 5 && Uint32BE(m[1..5]) == |m| - 1
  }

  type Frame = m: Bytes | IsFrame(m) witness [0, 0, 0, 0, 4]

  /** Errors: those reported by collaborators are opaque, the rest are raised by the engine itself. */
  datatype Error =
    | External(code: nat)          // transport, parser or backend failure
    | UnexpectedMessage(got: byte) // a reply to a password request that is not a password message
    | PasswordMismatch(user: Bytes) // names the user, never the credential bytes
    | MalformedPassword            // a password message too short to hold its terminator

  /** Backend messages; the layouts of the last four are the codec's, which is not part of this model. */
  datatype Message =
    | Raw(frame: Frame)                    // a message already laid out as bytes
    | RowDescription(columns: seq<string>)
    | DataRow(values: seq<string>)
    | CommandComplete(tag: string)
    | ErrorResponse(cause: Error, fatal: bool)
  {
    /** The message's type byte. */
    function Type(): byte {
      match this
      case Raw(f) => f[0]
      case RowDescription(_) => 'T' as byte
      case DataRow(_) => 'D' as byte
      case CommandComplete(_) => 'C' as byte
      case ErrorResponse(_, _) => 'E' as byte
    }
  }

  /** Writes number `from` up to (not including) `to` all succeed. */
  predicate WritesSucceed(outcome: nat -> Option<Error>, from: nat, to: nat) {
    forall i :: from <= i < to ==> outcome(i).None?
  }

  /**
   * The messages actually handed to the writer when `ideal` is written in
   * order starting with write number `k`, where write number i fails iff
   * `outcome(i)` is an error: every message up to and including the first
   * one whose write fails.
   */
  function Attempted<T>(ideal: seq<T>, k: nat, outcome: nat -> Option<Error>): (sent: seq<T>)
    ensures |sent| <= |ideal|
    ensures ideal != [] ==> sent != []
    decreases |ideal|
  {
    if ideal == [] then []
    else if outcome(k).Some? then [ideal[0]]
    else [ideal[0]] + Attempted(ideal[1..], k + 1, outcome)
  }

  /** Concatenation regroups; a step the solver does not always take unprompted. */
  lemma Associative<T>(a: seq<T>, b: seq<T>, c: seq<T>)
    ensures a + (b + c) == (a + b) + c
  {
  }

  /** What is handed to the writer is a prefix of what was to be written. */
  lemma {:induction false} AttemptedIsPrefix<T>(ideal: seq<T>, k: nat, outcome: nat -> Option<Error>)
    ensures var sent := Attempted(ideal, k, outcome); sent == ideal[..|sent|]
    decreases |ideal|
  {
    if ideal != [] && outcome(k).None? {
      AttemptedIsPrefix(ideal[1..], k + 1, outcome);
    }
  }

  /** Every write before the last attempted one succeeded, and the sequence was cut short only by a failure. */
  lemma {:induction false} AttemptedStopsAtFirstFailure<T>(ideal: seq<T>, k: nat, outcome: nat -> Option<Error>)
    requires ideal != []
    ensures var n := |Attempted(ideal, k, outcome)|;
      && 1 <= n <= |ideal|
      && WritesSucceed(outcome, k, k + n - 1)
      && (n < |ideal| ==> outcome(k + n - 1).Some?)
    decreases |ideal|
  {
    if outcome(k).None? && |ideal| > 1 {
      AttemptedStopsAtFirstFailure(ideal[1..], k + 1, outcome);
    }
  }

  /**
   * The converse, in the form a writer's proof needs: after j successful
   * writes, writing ideal[j] ends the sequence if it fails or is the last.
   */
  lemma {:induction false} AttemptedUpTo<T>(ideal: seq<T>, k: nat, outcome: nat -> Option<Error>, j: nat)
    requires j < |ideal|
    requires WritesSucceed(outcome, k, k + j)
    requires outcome(k + j).Some? || j == |ideal| - 1
    ensures Attempted(ideal, k, outcome) == ideal[..j + 1]
    decreases j
  {
    if j > 0 {
      assert outcome(k).None?;
      AttemptedUpTo(ideal[1..], k + 1, outcome, j - 1);
      assert ideal[..j + 1] == [ideal[0]] + ideal[1..][..j];
    }
  }

  /** A first message written successfully is followed by the rest, attempted from the next write on. */
  lemma AttemptedAfterFirst<T>(first: T, rest: seq<T>, k: nat, outcome: nat -> Option<Error>)
    requires outcome(k).None?
    ensures Attempted([first] + rest, k, outcome) == [first] + Attempted(rest, k + 1, outcome)
  {
    assert ([first] + rest)[1..] == rest;
  }
}
