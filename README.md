# gin-custom-recovery-handler: the recovery middleware, modelled in Dafny

`recovery.go` builds a gin middleware that catches a panic raised by the rest of
the handler chain. The deferred closure does four things with the recovered
value:

- It classifies the value as a broken connection or a genuine defect. A
  `*net.OpError` that wraps an `*os.SyscallError` whose lower-cased message
  contains "broken pipe" or "connection reset by peer" is a broken connection.
- When a writer was configured, it dumps the request, rewrites its
  `Authorization` lines, and logs one of two texts.
- It either attaches the error to the context and aborts it, or aborts it with
  status 500.
- It then calls the caller's hook with the wrapped error.

The model has four modules:

- `GoStrings` (`go_strings.dfy`) holds the parts of Go's `strings` package that
  the closure calls: `ToLower`, `Index`, `Contains` and `Split`. `Join` is there
  as the partner of `Split`. Their properties are proved: `Split` never returns
  an empty list, its head is the text before the first separator, and joining
  the pieces gives back the input.
- `Failures` (`failures.dfy`) holds the recovered value as a datatype. The
  two-level error chain is `OpError(prefix, SyscallError(..) | OtherError(..))`,
  and every other panic value is `Other(text)`. `Message` gives a value's
  text; a network error's text ends with the text of the error it wraps. The
  classifier `IsBroken` is a pure function over that datatype.
- `Headers` (`headers.dfy`) holds the header rewrite. `RewriteAuthorization` is
  the in-place loop over the `headers` slice, modelled as an array and proved
  against the function `Redacted`. `RedactedDump` is the corrected log input
  (see Findings).
- `Recovery` (`recovery.dfy`) holds the handler. The classes are `Context` (the
  part of `gin.Context` it touches), `Logger` and `RecoveryHandler`. The
  method `Handle` is the deferred closure. Its contract states the new log, the
  new context state and the hook call for every input. A recovered value of
  `None` means `c.Next()` returned normally.

`IsBroken` is a Dafny function, so classifying the same value twice always gives
the same answer. No lemma states this.

The code and the design text disagree in three places. The model follows the
code each time:

- The hook is called on the broken-connection path too (recovery.go:67).
- The broken-connection path calls `c.Abort()` (recovery.go:63).
- The logged dump is the unredacted one (recovery.go:53, recovery.go:56).

## Model

| member | source | states |
|---|---|---|
| GoStrings.Index | recovery.go:45-47 | the result is -1 or the position of an occurrence of the separator, and no occurrence starts before it |
| GoStrings.Contains | recovery.go:37 | true exactly when the substring occurs at some position |
| GoStrings.Split | recovery.go:45-47 | the list of pieces is never empty, so `current[0]` always exists |
| GoStrings.SplitPiecesFree | recovery.go:45-47 | no piece of a split holds the separator |
| GoStrings.JoinSplit | recovery.go:45 | joining the pieces with the separator gives back the split text |
| GoStrings.SplitHead | recovery.go:47-48 | the first piece is the text before the first separator (the whole line when there is none), and it is the only text with that property |
| GoStrings.ToLower | recovery.go:37 | the result has the input's length, differs from it only in letter case, and has no character left whose lower case is ASCII and different from itself |
| GoStrings.ToLowerIdempotent | recovery.go:37 | lower-casing twice is lower-casing once |
| GoStrings.ToLowerCaseBlind | recovery.go:37 | strings that differ only in letter case lower-case to the same string |
| Failures.SyscallText | recovery.go:37 | `se.Error()` starts with the system call's name, then ": ", and ends with the underlying error's text |
| Failures.Message | recovery.go:53 | the text of a network error that wraps a system-call error contains the system-call error's text |
| Failures.IsBroken | recovery.go:33-41 | only an `OpError` that wraps a `SyscallError` can be classified as broken |
| Failures.IsBrokenIff | recovery.go:35-38 | broken exactly when the value is an `OpError` wrapping a `SyscallError` and its lower-cased message has an occurrence of "broken pipe" or "connection reset by peer" |
| Failures.IsBrokenCaseBlind | recovery.go:37 | system-call messages that differ only in letter case classify alike |
| Failures.DeadPeerCauseIsBroken | recovery.go:36-38 | a system-call error whose cause reads "broken pipe" or "connection reset by peer", in any case, is broken whatever the system call and outer text |
| Failures.BrokenPipeClassified | recovery.go:37-38 | "broken pipe" and "Broken Pipe" both classify as broken |
| Failures.ConnectionResetClassified | recovery.go:37-38 | "connection reset by peer" classifies as broken |
| Failures.KelvinSignBroken | recovery.go:37 | a cause spelled with the Kelvin sign U+212A for its "k" still reads "broken pipe" once lower-cased, so it is broken |
| Failures.ShapeDecides | recovery.go:35-36 | a bare panic value, and an `OpError` that does not wrap a `SyscallError`, are never broken, whatever their texts |
| Headers.IsAuthorizationLine | recovery.go:47-48 | only a line that starts with "Authorization" can pass the test |
| Headers.RedactLine | recovery.go:47-49 | a line that passes the test becomes exactly "Authorization: *"; any other line is left as it is |
| Headers.Redacted | recovery.go:46-51 | the rewrite keeps the number of lines and rewrites line i from line i alone |
| Headers.AuthorizationLineShape | recovery.go:47-48 | the first `:`-segment equals "Authorization" exactly when the line is "Authorization" or starts with "Authorization:" (case-sensitive) |
| Headers.RedactLineIdempotent | recovery.go:47-49 | rewriting a rewritten line changes nothing |
| Headers.RedactedExactly | recovery.go:45-51 | the line count is kept; exactly the lines that are "Authorization" or start with "Authorization:" become "Authorization: *"; all others are untouched |
| Headers.RedactedIdempotent | recovery.go:46-50 | rewriting the lines twice gives the same lines as rewriting them once |
| Headers.RewriteLineAt | recovery.go:47-50 | one loop turn rewrites `headers[idx]` and no other element |
| Headers.RewriteAuthorization | recovery.go:46-51 | the array afterwards holds `Redacted` of its old contents |
| Headers.SplitJoinLines | recovery.go:45 | lines without CRLF, joined with CRLF and split again, come back unchanged |
| Headers.RedactedDump | recovery.go:44-51 | the corrected dump, split at CRLF, gives exactly the rewritten lines |
| Headers.RedactedDumpMasks | recovery.go:44-51 | in the corrected dump, every line that passes the Authorization test is "Authorization: *" |
| Headers.BearerTokenMasked | recovery.go:44-51 | for a dump with "Authorization: Bearer xyz", the token is in the dump but not in the corrected dump |
| Recovery.BrokenLogText | recovery.go:53 | the broken-connection text is the error's text and a newline, then the dump, then the colour reset; the dump can be read back from between them |
| Recovery.PanicLogText | recovery.go:55-56 | the panic text opens with "[Recovery] panic recovered:" and a blank line, the dump follows at once, the stack comes just before the closing colour reset |
| Recovery.LogText | recovery.go:52-57 | a broken connection's text opens with the error's text; any other panic's opens with the banner |
| Recovery.LogTextCarriesDumpAndError | recovery.go:52-57 | both log texts contain the request dump as it was dumped, and the error's text |
| Recovery.BrokenLogNamesSyscall | recovery.go:53 | a broken connection's log contains the failed system call's text, such as "write: broken pipe" |
| Recovery.StackOnlyForPanics | recovery.go:52-57 | a genuine panic is logged with its stack; a broken connection's text does not depend on the stack |
| Recovery.LoggedDumpKeepsCredentials | recovery.go:44-56 | anything in the dump, a credential included, is in the logged text |
| Recovery.BearerTokenLogged | recovery.go:44-56 | for a dump with "Authorization: Bearer xyz", the logged text contains "Bearer xyz" |
| Recovery.Context.Error | recovery.go:62 | `c.Error(err)` appends the error and changes nothing else |
| Recovery.Context.Abort | recovery.go:63 | `c.Abort()` marks the context aborted and changes nothing else |
| Recovery.Context.AbortWithStatus | recovery.go:65 | `c.AbortWithStatus(500)` sets the status and aborts, and touches neither errors nor hook calls |
| Recovery.Context.CallHook | recovery.go:67 | the hook call is recorded with the wrapped error and with the context state the hook sees |
| Recovery.Logger.Printf | recovery.go:53-56 | one printed text is appended to the log |
| Recovery.RecoveryHandler.WithWriter | recovery.go:22-26 | a logger exists exactly when the writer is non-nil |
| Recovery.RecoveryHandler.Default | recovery.go:17-26 | `Recovery` has a logger exactly when `gin.DefaultErrorWriter` is non-nil at the call |
| Recovery.RecoveryHandler.Handle | recovery.go:29-68 | with nothing recovered, nothing changes. Otherwise: one log entry if there is a logger. Broken connection: error appended, context aborted, status unchanged. Any other panic: status 500, context aborted, errors unchanged. In both cases: the hook is called exactly once with the wrapped error and sees the context already aborted |

## Findings

| source | as written | input that shows it | evidently intended | confidence | as-written member | corrected member |
|---|---|---|---|---|---|---|
| recovery.go:44-56 | the `Authorization` lines of `headers` are rewritten, but `headers` is never read again; both `Printf` calls format the original `httpRequest` | a request dump containing the line `Authorization: Bearer xyz` | the log shows the rewritten lines joined with CRLF, so no Authorization value reaches the log | high; not executed | Recovery.BearerTokenLogged | Headers.RedactedDump |

`RecoveryHandler.Handle` models the code, so it logs the text as written. The
corrected dump is `RedactedDump`. `RedactedDumpMasks` proves the intended
masking about it, and `BearerTokenMasked` shows that the token of the example
request no longer appears.

## Left out

- `defer`/`recover()` and `c.Next()` (recovery.go:29-30, recovery.go:70) are not control flow. `Handle` receives the recovered value as an `Option`.
- `httputil.DumpRequest` (recovery.go:44) is a library call. The dump is an input string, and the ignored error of that call is not modelled.
- `errors.Wrap` and `goErr.Stack()` from go-errors (recovery.go:34, recovery.go:56) are library code. The stack is an input string, and `goErr.Error()` is the recovered value's text.
- The text of a `*net.OpError` comes from Go's `net` package. The part before its final ": " (operation, network, addresses) is the opaque field `prefix`; what follows is the wrapped error's text, as `(*net.OpError).Error()` builds it. The text of an `*os.SyscallError` is modelled as its `Error()` method builds it: the call name, ": ", then the cause.
- `log.New`'s prefix `"\n\n\x1b[31m"`, the `LstdFlags` timestamp and the newline that `Printf` adds (recovery.go:25) are time-dependent output formatting. The log holds the message bodies only.
- `gin.DefaultErrorWriter` and the `gin.HandlerFunc` wiring (recovery.go:17-19, recovery.go:27) are framework plumbing. The global writer appears only as the `Default` constructor's flag saying whether it is non-nil.
- Typed nil values are not modelled: a panic with a nil `*net.OpError`, or an `OpError` whose `Err` is a nil `*os.SyscallError`. In Go the handler would itself panic at `ne.Err` or `se.Error()`. `Failure` has no nil cases.
- The assertion `err.(error)` at recovery.go:62 cannot fail on the broken path, because only an `OpError` is broken. It is not modelled as a possible panic.
- The hook `f` is caller code. The model records each call, its argument and the context state it sees. The hook's own effects and any panic it raises are not modelled.
- Failures of the log writer, and the concurrent use of one logger by several requests, are not modelled.
- The log and the context are separate objects. `Handle` states the final state of each one. The order "log first, then abort or status, then hook" is the order of the method body. The contract states only the part the hook can observe: when it runs, the context is already aborted and its status is already set.
- `AbortWithStatus` also writes the header to the response writer (`WriteHeaderNow`). The model keeps only the status value. `None` means this handler set no status.
- GoStrings.ToLower: maps A-Z, U+0130 and U+212A, the characters whose Unicode lower case is ASCII. Go's `strings.ToLower` also maps the other upper-case letters, to non-ASCII letters. Both phrases searched for are ASCII, so a non-ASCII character cannot be part of a match either way, and the result of the test at recovery.go:37 is the same. The model's lower-cased text is not Go's for those other letters.
- GoStrings.Split: requires a non-empty separator. Go's `strings.Split` with `""` splits into UTF-8 sequences. The handler only passes `":"` and `"\r\n"`.
- Strings are sequences of characters, not of bytes. `string(httpRequest)` and the byte slice that `%s` prints are the same text here.
