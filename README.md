# pgsrv core, modelled in Dafny

pgsrv is a PostgreSQL wire-protocol server library written in Go. This
project models three parts of it and proves properties of each.

- **Authentication** (`auth.go`). There are three authenticators: no
  password, clear-text password and MD5 password. They work with two
  password providers: a constant password, and MD5 of the password followed
  by the user name. The model also covers the fixed AuthenticationOk and
  challenge messages, the slicing of the password out of a password message,
  and the salted MD5 response `"md5" + hex(MD5(hex(hash) + salt))`.
  - Each authenticator runs over a `Channel` class. The class records every
    message written in `sent` and counts reads in `received`.
  - The outcome of the k-th write and of the k-th read come from the
    connection. They are given as functions of k.
- **Query dispatch** (`query.go`). `Run` parses a request and sends each
  statement to one of two paths:
  - the row path (`Query`): a row description, one data row per backend row,
    then `SELECT n`;
  - the command path (`Exec`): one completion tag, either the result's own
    or the one `tagger.Tag` builds from the statement kind and RowsAffected.

  The loop stops at the first statement whose path returns an error, and
  writes one error message for it. The session is a `Session` class with the
  write trace `sent` and a count of backend calls. Backend answers and write
  outcomes are functions of the call number.
- **The transaction buffer** (`protocol/transaction.go`). It has two parts:
  - `incoming`: the frontend messages read so far;
  - `outgoing`: the backend messages held back.

  `Write` drops every message once an error message is buffered. `Flush`
  hands the buffer to the protocol front to back and stops at the first
  failing write.

The writers `Query`, `WriteRows` and `Flush` follow one rule. They write
messages in order, and stop right after the first write that fails.
`Wire.Attempted` states that rule. Each of these writers is specified by
`Attempted` applied to a pure function of the messages it would write if
every write succeeded: `RowPathMessages`, `RowStream` and the buffer itself.
`Exec` writes exactly one message, `CommandPathMessage`, so no cut is
needed. The properties of the source are then proved about those functions.

The other operations are specified directly by a pure function:
- `Run` by `Batch`. Statements run in order, each writing as its path does.
  When a statement's last write fails, `Run` writes one more message, an
  error, and returns the outcome of that write.
- The authenticators by `Exchanged`: the challenge, one read, then the
  verdict.
- `Transaction.Write` by `Buffered`.

Files:
- `wrappers.dfy`: Option and Result.
- `wire.dfy`: bytes, frames, messages, `Attempted`.
- `decimal.dfy`: Go's `%d`.
- `passwords.dfy`: providers, `%x`, `hashWithSalt`, `extractPassword`.
- `auth.dfy`: the authenticators.
- `query.dfy`: the dispatcher and the tagger.
- `transaction.dfy`: the transaction buffer.

## Model

| member | source | states |
|---|---|---|
| Wire.Attempted | protocol/transaction.go:32-38 | What is handed to the writer when a sequence is written in order until a write fails: never longer than the sequence, and never empty when the sequence is not |
| Wire.AttemptedIsPrefix | protocol/transaction.go:32-38 | What is handed to the writer is a prefix of the sequence meant to be written |
| Wire.AttemptedStopsAtFirstFailure | query.go:68-71 | Every write before the last attempted one succeeded, and the sequence is cut short only when its last attempted write failed |
| Wire.AttemptedUpTo | query.go:89-92 | After j successful writes, writing message j ends the sequence exactly at j+1 messages if it fails or is the last |
| Wire.AttemptedAfterFirst | query.go:68-72 | A first message written successfully is followed by the rest, attempted from the next write number on |
| Decimal.IntToString | query.go:143 | `%d` text is an optional minus sign followed by digits, with no space |
| Decimal.ParseIntToString | query.go:143 | The `%d` text of any integer parses back to that integer |
| Decimal.NatToString | query.go:97 | `%d` of a natural number: at least one character, all of them decimal digits |
| Decimal.ParseNatToString | query.go:97 | The digit text of any natural number parses back to that number |
| Passwords.GetPassword | auth.go:55-57 | The constant provider returns its stored bytes. The MD5 provider returns the 16-byte MD5(password ++ user) |
| Passwords.ConstantProviderIgnoresUser | auth.go:55-57 | The constant provider gives the same password for any two user names |
| Passwords.Hex | auth.go:188 | `%x` of n bytes is 2n lower-case hex digits |
| Passwords.UnhexHex | auth.go:188 | Hex text reads back as the bytes it was written from, so `%x` loses nothing |
| Passwords.HashWithSalt | auth.go:185-192 | The MD5 response is 35 bytes: "md5", then hex text that decodes to exactly MD5(hex(hash) ++ salt) |
| Passwords.ExtractPassword | auth.go:178-181 | The password has length len(m)-6. The message is its 5-byte header, then the password, then one terminator byte. The slice needs six bytes |
| Auth.AuthOkMsg | auth.go:165-167 | AuthenticationOk is a 9-byte 'R' message whose length field is 8 and whose subtype is 0 |
| Auth.ClearTextRequest | auth.go:81-85 | The clear-text challenge is a 9-byte 'R' message whose length field is 8 and whose subtype is 3 |
| Auth.Md5Request | auth.go:125-131 | The MD5 challenge is 'R', length field 12, subtype 5, then exactly the 4 salt bytes: 13 bytes in all |
| Auth.Verdict | auth.go:97-113 | The answer to a reply is AuthenticationOk iff the reply is a 'p' message carrying exactly the expected password. Otherwise it is one fatal error, naming the unexpected type byte, the user or the malformed message, and never the credential. A non-'p' reply always gets the unexpected-message error. A 'p' reply shorter than six bytes gets the malformed-password error. A well-formed 'p' reply with the wrong password gets the error naming the user |
| Auth.Exchanged | auth.go:87-113 | The challenge/response exchange of both password authenticators. The challenge is written; a failed write ends it with that error. Otherwise one reply is read; a failed read ends it with that error. Otherwise the verdict is written, and the exchange returns that write's outcome, accepting iff the verdict is AuthenticationOk |
| Auth.ExchangeAcceptsIff | auth.go:87-113 | An exchange accepts iff the challenge write succeeded, a reply was read, and the reply carries exactly the expected password. On acceptance it writes the challenge and then AuthenticationOk. Otherwise, after the challenge, it writes at most one message, a fatal error |
| Auth.NoPasswordAuthenticate | auth.go:32-34 | Always accepts, writes exactly AuthenticationOk, reads nothing, and returns that write's outcome |
| Auth.ClearTextAuthenticate | auth.go:79-114 | Writes the clear-text challenge. A failed challenge write or reply read ends it with that error, writing nothing more. Otherwise it answers with the verdict for the provider's password and returns that write's outcome |
| Auth.Md5Authenticate | auth.go:123-162 | Like clear text, with the MD5 challenge carrying the salt. The expected reply is HashWithSalt of the stored hash and the very salt the challenge carried |
| Auth.Authenticate | auth.go:26 | The configured authenticator variant runs and behaves as its own contract states. For no password, it accepts, writes exactly AuthenticationOk and returns that write's outcome |
| Auth.ShortPasswordMessagePassesTypeCheck | auth.go:97 | A well-framed 5-byte 'p' message passes the type check but is shorter than the six bytes the password slice needs |
| QueryDispatch.Classify | query.go:42-46 | SHOW and SELECT go to the row path, and every other statement kind to the command path, both directions |
| QueryDispatch.FormatValue | query.go:86 | `%v` of a driver value: "<nil>" for NULL, "true"/"false", the decimal text of an integer, and text as is. An integer's text reads back as that integer |
| QueryDispatch.FormatRow | query.go:85-87 | One string per value, in place: string i is `%v` of value i |
| QueryDispatch.LastField | query.go:143 | The text after the last space is a space-free suffix, preceded by a space when it is not the whole text |
| QueryDispatch.ParseFormattedTag | query.go:143 | A tag written as words, a space and `%d` of n reads back as exactly those words and n |
| QueryDispatch.TagWords | query.go:131-141 | The tagger's switch: "INSERT 0", "SELECT" for CREATE TABLE AS, "DELETE", "FETCH", "COPY", and "UPDATE" for UpdateStmt and every other kind |
| QueryDispatch.Tag | query.go:125-129 | A tag is produced iff RowsAffected succeeded. Its error otherwise passes through unchanged |
| QueryDispatch.TagReadsBack | query.go:143 | Every tag the tagger builds reads back as the kind's command words and RowsAffected |
| QueryDispatch.TagTable | query.go:131-139 | The tags are "INSERT 0 n", "SELECT n", "DELETE n", "FETCH n" and "COPY n" for the kinds the switch names |
| QueryDispatch.TagTableFallback | query.go:139-140 | UpdateStmt and every kind the switch does not name, SHOW and SELECT included, get "UPDATE n" |
| QueryDispatch.SelectTag | query.go:97 | The row path's tag: "SELECT", one space, then `%d` of the count |
| QueryDispatch.SelectTagReadsBack | query.go:97 | "SELECT n" reads back as the SELECT command and n |
| QueryDispatch.DataRows | query.go:85-89 | One data row per backend row, in order, each the formatted row |
| QueryDispatch.RowPathMessages | query.go:56-99 | The row path always has at least one message to write |
| QueryDispatch.RowStream | query.go:76-98 | After the row description come exactly one message per row plus one closing message |
| QueryDispatch.RowPathOnQueryFailure | query.go:57-60 | A failed backend query writes only one error message: no row description, no data row, no tag |
| QueryDispatch.RowPathLayout | query.go:63-92 | A successful query writes the row description with the backend's columns in order, then one data row per backend row holding exactly one string per column, then one closing message |
| QueryDispatch.RowPathCountsDataRows | query.go:73-95 | The number of data rows written equals the number of backend rows |
| QueryDispatch.RowPathTagCountsDataRows | query.go:94-98 | When the rows end cleanly the last message is a completion tag reading "SELECT" and the number of data rows written, so an empty result gives "SELECT 0" |
| QueryDispatch.RowPathOnIterationFailure | query.go:76-82 | When iteration fails the data rows stay, the last message is that error, and no completion tag is written |
| QueryDispatch.RowPathExample | query.go:63-98 | Two columns and two rows give the row description, two data rows and "SELECT 2" |
| QueryDispatch.CompletionTag | query.go:107-112 | A result's own tag is used verbatim. Without one, the tagger's tag is used |
| QueryDispatch.CompletionTagFromTable | query.go:107-112 | Without its own tag, a command gets a tag reading back as its kind's words and RowsAffected, or RowsAffected's error |
| QueryDispatch.CommandPathMessage | query.go:101-118 | The command path writes a completion tag iff the backend call and the tag both succeed, with that tag. Otherwise it writes the backend's or the tag's error |
| QueryDispatch.NextRow | query.go:77 | The driver fills the reused row buffer with exactly the next row's values |
| QueryDispatch.FormatInto | query.go:85-87 | The reused strings buffer holds the `%v` of each slot of the row buffer |
| QueryDispatch.Query | query.go:56-99 | One backend query. The writes are the row path's messages cut short after the first failing write. Returns that last write's outcome |
| QueryDispatch.BuildColumns | query.go:63-66 | The columns are the backend's column names, one per name, in order |
| QueryDispatch.WriteRows | query.go:73-98 | The rows loop writes the data rows and the closing message, cut short after the first failing write, and returns that last write's outcome. It makes no backend call |
| QueryDispatch.WriteDataRow | query.go:77-92 | One turn of the rows loop that finds a row: the data row written is the formatted next backend row, as the next message of the row stream. If that write fails, what was written is the stream as attempted |
| QueryDispatch.WriteNextOf | query.go:89-92 | One more message of the stream is written. On failure, or at the stream's last message, what was written is the stream as attempted |
| QueryDispatch.Exec | query.go:101-118 | One backend exec and exactly one message, the command path's message. Returns that write's outcome |
| QueryDispatch.PathMessages | query.go:42-46 | Each statement's path has at least one message to write |
| QueryDispatch.Batch | query.go:39-53 | The statement loop of Run. Statements run in order, each writing what its path writes. The loop goes on while each statement's last write succeeds. At the first statement whose last write fails, it writes one error message, stops, and returns that write's outcome. Otherwise it returns nil |
| QueryDispatch.BatchStopsOnlyAfterFailure | query.go:39-53 | A batch runs a prefix of its statements, at least one when there is one. If it stops early, or returns an error, its last message is an error written after a failing write, and the returned error is that error message's write outcome |
| QueryDispatch.Chain | query.go:39-46 | The writes of n statements in order, each starting at the write number after the one before |
| QueryDispatch.BatchEarlierStatementsSucceed | query.go:48-51 | The loop goes past a statement only when that statement's last write succeeded. Every statement that ran before the last one ended with a successful write |
| QueryDispatch.SendsChain | query.go:48-53 | The shape a batch outcome takes: after the ran statements' writes comes one error message iff the last write failed, and the batch returns that message's write outcome. Otherwise every statement ran and the batch returns nil |
| QueryDispatch.BatchSendsChain | query.go:39-53 | What a batch sends is the ran statements' own writes, in order. When the last of them failed, one error message follows and its write outcome is returned. Otherwise all statements ran and nil is returned. With BatchEarlierStatementsSucceed, the loop stops at the first failing statement |
| QueryDispatch.SendsChainStep | query.go:48-51 | The batch's shape carries over past a first statement whose last write succeeded |
| QueryDispatch.BatchSendsChainContinues | query.go:48-51 | The inductive step of BatchSendsChain past a statement that succeeded |
| QueryDispatch.BatchContinues | query.go:48-51 | A statement whose last write succeeds lets the loop go on to the next statement |
| QueryDispatch.BatchStops | query.go:48-50 | A statement whose last write fails ends the loop with one error message. The loop returns the outcome of writing it |
| QueryDispatch.RunStatement | query.go:42-46 | A statement runs on the path its kind selects, with one backend call, and returns the outcome of that path's last write |
| QueryDispatch.RunNext | query.go:39-51 | One turn of the statement loop keeps what was written consistent with the whole batch's outcome, and on stopping has written all of it |
| QueryDispatch.RunStatements | query.go:39-53 | The loop writes exactly the batch's messages, makes one backend call per statement run, and returns the batch's error |
| QueryDispatch.Run | query.go:23-54 | A parse failure writes exactly one error message and runs no statement. Otherwise the statements run as a batch |
| Transactions.Poisoned | protocol/transaction.go:24 | Write's guard: the buffer is non-empty and its last message has type 'E' |
| Transactions.Buffered | protocol/transaction.go:23-29 | A write keeps everything buffered in place. It appends exactly one message iff the buffer does not end with an error message, and that message is the one written |
| Transactions.UpToFirstError | protocol/transaction.go:24-27 | A prefix of the messages holding at most one error message, last, that stops early only at an error message |
| Transactions.BufferedKeepsSingleTrailingError | protocol/transaction.go:24-27 | A write keeps "at most one error message, and only last" |
| Transactions.PoisonedAbsorbs | protocol/transaction.go:24-26 | Once an error message is buffered, no sequence of writes changes the buffer |
| Transactions.BufferAllUpToFirstError | protocol/transaction.go:23-29 | Writing messages into a buffer with no trailing error keeps exactly the messages up to and including the first error message |
| Transactions.SuffixKeepsSingleTrailingError | protocol/transaction.go:37 | Removing a prefix, as flush does, keeps "at most one error message, and only last" |
| Transactions.ErrorDropsLaterWrites | protocol/transaction.go:24-26 | Writing A, then an error E, then C buffers A and E only |
| Transactions.Transaction.NextFrontendMessage | protocol/transaction.go:15-20 | One read. Its message is appended to the incoming messages iff the read succeeds. The outgoing buffer and the sent messages do not change |
| Transactions.Transaction.Write | protocol/transaction.go:23-29 | Always returns nil, buffers as Buffered states, and keeps "at most one error, last". The incoming messages and the sent messages do not change |
| Transactions.Transaction.Flush | protocol/transaction.go:31-40 | Sends the buffer front to back until a write fails. On nil, the buffer is empty and all of it was sent. On an error, the buffer is the original suffix starting at the failed message, and the error is that write's outcome. It keeps "at most one error, last" and leaves the incoming messages alone |

## Left out

- The MD5 digest is a function parameter returning 16 bytes, not the MD5 algorithm. The salt that `crypto/rand` produces is a 4-byte parameter of the MD5 authenticator. Randomness and cryptographic strength are not modelled.
- The byte layouts of error, row description, data row and completion messages are the codec's (`errMsg`, `rowDescriptionMsg`, `dataRowMsg`, `completeMsg`), which is not part of this model. These messages are datatype constructors carrying their contents, with the message type byte. Error message texts (`fmt.Errorf`) are abstract: an error names its cause, not its text.
- `%v` of a driver value is modelled for null, booleans, integers and text only. Floating-point, byte-slice and time values are not modelled.
- The SQL parser is a function parameter of `Run`. A statement is its kind plus an opaque handle on the parser's node.
- The backend's `Query`/`Exec` answers, the `rows.Next` iterator and the connection's read and write outcomes are functions of the call number, fixed when the session or channel is created. The backend is not modelled beyond what it answers.
- `context.WithValue` has no observable effect here and is not modelled. The `args` map is replaced by the user name as bytes, so the failing type assertion on `args["user"]` is not modelled.
- The error a provider returns is ignored by the source and never produced by the two providers, so providers are total functions.
- Auth.Verdict: "the provider is not consulted for a non-'p' reply" is stated only as "the answer does not depend on the expected password". Providers are pure functions here, so whether one was called cannot be observed.
- Go's `int64` RowsAffected and row count are unbounded integers, and strings are sequences of characters with no UTF-8 encoding.
- TLS, deadlines, the listener, the session lifecycle, and the protocol's own framing (`Protocol.write`, `readFrontendMessage`) are not part of this model. A frontend message arrives as an already-framed byte sequence.
- QueryDispatch.Session.writes is a ghost field naming what each statement's path writes, and `Session.Valid` ties it to the session's oracles. It lets `Batch` be stated without the session. `Run` and its loop require `Valid`, which the constructor establishes.
- Transactions.Transaction.Write: the slice may share its backing array in Go. Aliasing between transactions is not modelled, because the buffer is a sequence value.

## Findings

| source | as written | input that shows it | evidently intended | confidence | as-written member | corrected member |
|---|---|---|---|---|---|---|
| auth.go:178-181 (reached from auth.go:97-105 and auth.go:143-153) | `extractPassword` slices `m[5:len(m)-1]` of any message whose type byte is 'p'. A well-framed 'p' message with an empty payload is 5 bytes long, so the slice `m[5:4]` is out of range and panics | the frame `'p', 0, 0, 0, 4` sent as the reply to a password challenge | a password message too short to hold a terminated password is rejected with a fatal error | not executed | Passwords.ExtractPassword (needs six bytes), exhibited by Auth.ShortPasswordMessagePassesTypeCheck | Auth.Verdict (answers MalformedPassword for replies shorter than six bytes) |
