/** The middleware built by `RecoveryWithWriter` (recovery.go:21-72) and its
    default-writer wrapper `Recovery` (recovery.go:16-19). The panic itself and
    `c.Next()` are not control flow here: the handler is given what `recover()`
    returned, `None` when the rest of the chain returned normally. The request
    dump and the captured stack are given as text. */
module Recovery {
  import opened GoStrings
  import opened Failures
  import opened Headers

  datatype Option<T> = None | Some(value: T)

  /** `errors.Wrap(err, 2)`: the recovered value with the stack captured when
      it was recovered. */
  datatype StackError = StackError(cause: Failure, stack: string)

  /** `goErr.Error()`: the text of the wrapped value. */
  function ErrorText(e: StackError): string
  {
    Message(e.cause)
  }

  const StatusInternalServerError := 500

  /** The terminal colour reset, ESC '[' '0' 'm', that ends both log texts. */
  const Reset := "\U{1b}[0m"

  const PanicBanner := "[Recovery] panic recovered:\n\n"

  /** The log text of a broken connection: the error, a newline, the request
      dump and the reset; no stack. The dump can be read back from between the
      first line and the reset. */
  function BrokenLogText(err: Failure, dump: string): (r: string)
    ensures |r| == |Message(err)| + 1 + |dump| + |Reset|
    ensures r[..|Message(err)| + 1] == Message(err) + "\n"
    ensures r[|Message(err)| + 1..|r| - |Reset|] == dump
    ensures r[|r| - |Reset|..] == Reset
  {
    Message(err) + "\n" + dump + Reset
  }

  /** The log text of any other panic: the banner, the request dump, the error
      text, a blank line, the stack and the reset. The dump follows the banner,
      and the stack comes last before the reset. */
  function PanicLogText(goErr: StackError, dump: string): (r: string)
    ensures |r| == |PanicBanner| + |dump| + |ErrorText(goErr)| + 2 + |goErr.stack| + |Reset|
    ensures r[..|PanicBanner|] == PanicBanner
    ensures r[|PanicBanner|..|PanicBanner| + |dump|] == dump
    ensures r[|r| - |Reset| - |goErr.stack|..|r| - |Reset|] == goErr.stack
    ensures r[|r| - |Reset|..] == Reset
  {
    PanicBanner + dump + ErrorText(goErr) + "\n\n" + goErr.stack + Reset
  }

  /** The text the handler hands to the logger for a recovered value: a
      broken connection's opens with the error's text, any other panic's with
      the banner. */
  function LogText(err: Failure, dump: string, stack: string): (r: string)
    ensures IsBroken(err) ==> |r| > |Message(err)| && r[..|Message(err)|] == Message(err)
    ensures !IsBroken(err) ==> |r| > |PanicBanner| && r[..|PanicBanner|] == PanicBanner
  {
    if IsBroken(err) then BrokenLogText(err, dump) else PanicLogText(StackError(err, stack), dump)
  }

  /** Both log texts carry the request dump as it was dumped, and the error's
      text. */
  lemma LogTextCarriesDumpAndError(err: Failure, dump: string, stack: string)
    ensures Contains(LogText(err, dump, stack), dump)
    ensures Contains(LogText(err, dump, stack), Message(err))
  {
    var text := Message(err);
    ContainsSelf(dump);
    ContainsSelf(text);
    if IsBroken(err) {
      ContainsExtend(text + "\n", dump, dump);
      ContainsExtend(text, "\n", text);
      ContainsExtend(text + "\n", dump, text);
      ContainsExtend(text + "\n" + dump, Reset, dump);
      ContainsExtend(text + "\n" + dump, Reset, text);
    } else {
      var a := PanicBanner + dump;
      var b := a + text;
      var c := b + "\n\n";
      var d := c + stack;
      ContainsExtend(PanicBanner, dump, dump);
      ContainsExtend(a, text, dump);
      ContainsExtend(a, text, text);
      ContainsExtend(b, "\n\n", dump);
      ContainsExtend(b, "\n\n", text);
      ContainsExtend(c, stack, dump);
      ContainsExtend(c, stack, text);
      ContainsExtend(d, Reset, dump);
      ContainsExtend(d, Reset, text);
    }
  }

  /** A broken connection's log names the system call that failed and its
      message ("write: broken pipe"), because the network error's text ends
      with it. */
  lemma BrokenLogNamesSyscall(err: Failure, dump: string, stack: string)
    requires IsBroken(err)
    ensures Contains(LogText(err, dump, stack), SyscallText(err.err.syscall, err.err.cause))
  {
    LogTextCarriesDumpAndError(err, dump, stack);
    ContainsTransitive(LogText(err, dump, stack), Message(err), SyscallText(err.err.syscall, err.err.cause));
  }

  /** A genuine panic is logged with its stack; a broken connection is logged
      without one, so its text does not depend on the stack at all. */
  lemma StackOnlyForPanics(err: Failure, dump: string, stack: string, other: string)
    ensures !IsBroken(err) ==> Contains(LogText(err, dump, stack), stack)
    ensures IsBroken(err) ==> LogText(err, dump, stack) == LogText(err, dump, other)
  {
    if !IsBroken(err) {
      var c := PanicBanner + dump + Message(err) + "\n\n";
      ContainsSelf(stack);
      ContainsExtend(c, stack, stack);
      ContainsExtend(c + stack, Reset, stack);
    }
  }

  /** As written, the handler logs the dump it was given, so whatever the dump
      holds, an Authorization credential included, reaches the log. */
  lemma LoggedDumpKeepsCredentials(err: Failure, dump: string, stack: string, secret: string)
    requires Contains(dump, secret)
    ensures Contains(LogText(err, dump, stack), secret)
  {
    LogTextCarriesDumpAndError(err, dump, stack);
    ContainsTransitive(LogText(err, dump, stack), dump, secret);
  }

  /** A request whose Authorization header carries a bearer token: the token is
      in the logged text. */
  lemma BearerTokenLogged(err: Failure, stack: string)
    ensures Contains(LogText(err, "GET / HTTP/1.1\r\nAuthorization: Bearer xyz\r\n\r\n", stack), "Bearer xyz")
  {
    var dump := "GET / HTTP/1.1\r\nAuthorization: Bearer xyz\r\n\r\n";
    assert dump[31..41] == "Bearer xyz";
    assert OccursAt(dump, "Bearer xyz", 31);
    LoggedDumpKeepsCredentials(err, dump, stack, "Bearer xyz");
  }

  /** One call of the hook `f(c, goErr)`: the error it was passed, and the state
      of the context it was passed at that moment. */
  datatype HookCall = HookCall(err: StackError, sawAborted: bool, sawStatus: Option<int>, sawErrors: seq<Failure>)

  /** The part of `gin.Context` the handler touches. */
  class Context {
    var errors: seq<Failure>       // `c.Errors`
    var aborted: bool              // the handler chain was aborted
    var status: Option<int>        // the status written, None while unset
    var hookCalls: seq<HookCall>   // calls of the recovery hook, oldest first

    constructor ()
      ensures errors == [] && !aborted && status == None && hookCalls == []
    {
      errors, aborted, status, hookCalls := [], false, None, [];
    }

    /** `c.Error(err)`: attach an error to the request. */
    method Error(err: Failure)
      modifies this
      ensures errors == old(errors) + [err]
      ensures aborted == old(aborted) && status == old(status) && hookCalls == old(hookCalls)
    {
      errors := errors + [err];
    }

    /** `c.Abort()`: stop the rest of the handler chain. */
    method Abort()
      modifies this
      ensures aborted
      ensures errors == old(errors) && status == old(status) && hookCalls == old(hookCalls)
    {
      aborted := true;
    }

    /** `c.AbortWithStatus(code)`: write the status, then abort. */
    method AbortWithStatus(code: int)
      modifies this
      ensures status == Some(code) && aborted
      ensures errors == old(errors) && hookCalls == old(hookCalls)
    {
      status := Some(code);
      Abort();
    }

    /** The hook `f(c, goErr)`, seen from the context: it is called with the
        error and sees the context as it is now. */
    method CallHook(goErr: StackError)
      modifies this
      ensures hookCalls == old(hookCalls) + [HookCall(goErr, aborted, status, errors)]
      ensures errors == old(errors) && aborted == old(aborted) && status == old(status)
    {
      hookCalls := hookCalls + [HookCall(goErr, aborted, status, errors)];
    }
  }

  /** The `*log.Logger` built over the writer: the message bodies it printed. */
  class Logger {
    var entries: seq<string>

    constructor ()
      ensures entries == []
    {
      entries := [];
    }

    /** `logger.Printf`: one more entry. */
    method Printf(text: string)
      modifies this
      ensures entries == old(entries) + [text]
    {
      entries := entries + [text];
    }
  }

  /** The middleware: a logger exactly when a writer was given. */
  class RecoveryHandler {
    const logger: Logger?

    /** `RecoveryWithWriter(f, out)`: a logger is built only for a non-nil writer. */
    constructor WithWriter(hasWriter: bool)
      ensures (logger != null) == hasWriter
      ensures logger != null ==> fresh(logger) && logger.entries == []
    {
      if hasWriter {
        logger := new Logger();
      } else {
        logger := null;
      }
    }

    /** `Recovery(f)`: the writer is whatever `gin.DefaultErrorWriter` holds
        when it is called; it starts as standard error, and an application may
        set it to nil, which leaves the handler without a logger. */
    constructor Default(defaultWriterSet: bool)
      ensures (logger != null) == defaultWriterSet
      ensures logger != null ==> fresh(logger) && logger.entries == []
    {
      if defaultWriterSet {
        logger := new Logger();
      } else {
        logger := null;
      }
    }

    /** The deferred closure. With nothing recovered nothing happens. Otherwise:
        one log entry when there is a logger; on a broken connection the error is
        attached and the chain aborted with no status written; on any other
        panic the status becomes 500 and the chain is aborted, with no error
        attached; in both cases the hook is then called exactly once, with the
        wrapped error, and sees the context already aborted. */
    method Handle(c: Context, recovered: Option<Failure>, dump: string, stack: string)
      modifies c, logger
      ensures logger != null ==>
        logger.entries == old(logger.entries) + (if recovered.Some? then [LogText(recovered.value, dump, stack)] else [])
      ensures c.errors ==
        old(c.errors) + (if recovered.Some? && IsBroken(recovered.value) then [recovered.value] else [])
      ensures c.aborted == (old(c.aborted) || recovered.Some?)
      ensures c.status ==
        if recovered.Some? && !IsBroken(recovered.value) then Some(StatusInternalServerError) else old(c.status)
      ensures c.hookCalls == old(c.hookCalls) +
        (if recovered.Some? then [HookCall(StackError(recovered.value, stack), true, c.status, c.errors)] else [])
    {
      if recovered.Some? {
        var err := recovered.value;
        var brokenPipe := IsBroken(err);
        var goErr := StackError(err, stack);
        if logger != null {
          var lines := Split(dump, CRLF);
          var headers := new string[|lines|](i requires 0 <= i < |lines| => lines[i]);
          RewriteAuthorization(headers);
          if brokenPipe {
            logger.Printf(BrokenLogText(err, dump));
          } else {
            logger.Printf(PanicLogText(goErr, dump));
          }
        }
        if brokenPipe {
          c.Error(err);
          c.Abort();
        } else {
          c.AbortWithStatus(StatusInternalServerError);
        }
        c.CallHook(goErr);
      }
    }
  }

  /** Four ways a request can end, told through the handler's contract alone:
      a plain panic, a broken pipe, a broken pipe with no writer, and no panic. */
  method Scenarios(dump: string, stack: string, prefix: string)
  {
    var h := new RecoveryHandler.WithWriter(true);

    // A plain "boom" panic: logged under the banner, 500, hook called once.
    var c := new Context();
    h.Handle(c, Some(Other("boom")), dump, stack);
    assert c.status == Some(500) && c.aborted && c.errors == [];
    assert c.hookCalls == [HookCall(StackError(Other("boom"), stack), true, Some(500), [])];
    assert h.logger.entries == [PanicLogText(StackError(Other("boom"), stack), dump)];

    // A write on a closed pipe: error attached, no status, no stack logged,
    // and the log names the failed call.
    var broken := OpError(prefix, SyscallError("write", "broken pipe"));
    BrokenPipeClassified(prefix, "write");
    BrokenLogNamesSyscall(broken, dump, stack);
    var c2 := new Context();
    h.Handle(c2, Some(broken), dump, stack);
    assert c2.status == None && c2.aborted && c2.errors == [broken];
    assert |c2.hookCalls| == 1;
    assert h.logger.entries[1] == BrokenLogText(broken, dump);
    assert Contains(h.logger.entries[1], SyscallText("write", "broken pipe"));

    // No writer: nothing logged, the context is handled all the same.
    var quiet := new RecoveryHandler.WithWriter(false);
    var c3 := new Context();
    quiet.Handle(c3, Some(broken), dump, stack);
    assert c3.errors == [broken] && c3.aborted && |c3.hookCalls| == 1;

    // No panic: nothing at all.
    var c4 := new Context();
    h.Handle(c4, None, dump, stack);
    assert c4.errors == [] && !c4.aborted && c4.status == None && c4.hookCalls == [];
    assert |h.logger.entries| == 2;
  }
}
