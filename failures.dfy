/** The values a request handler can panic with, as far as the recovery handler
    looks into them, and the broken-connection classifier (recovery.go:33-41). */
module Failures {
  import opened GoStrings

  /** The error held in the `Err` field of a `*net.OpError`. */
  datatype Inner =
    | SyscallError(syscall: string, cause: string)  // an `*os.SyscallError`
    | OtherError(text: string)                      // any other error type

  /** A value recovered from a panic. `prefix` is what `(*net.OpError).Error()`
      writes before its final ": " and the wrapped error's text: the operation,
      the network and the addresses. `text` is what formatting any other value
      gives: `Error()` for an error, the value itself for a string. */
  datatype Failure =
    | OpError(prefix: string, err: Inner)  // a `*net.OpError`
    | Other(text: string)                  // any other panic value

  /** `se.Error()` of an `*os.SyscallError`: the system call's name, a colon
      and a space, then the text of the underlying error. */
  function SyscallText(syscall: string, cause: string): (r: string)
    ensures |r| == |syscall| + 2 + |cause|
    ensures r[..|syscall|] == syscall && r[|syscall| + 2..] == cause
  {
    syscall + ": " + cause
  }

  /** The text of a recovered value. A network error's text ends with ": " and
      the text of the error it wraps, so it carries the system call's message. */
  function Message(f: Failure): (r: string)
    ensures f.OpError? && f.err.SyscallError? ==>
      Contains(r, SyscallText(f.err.syscall, f.err.cause))
  {
    match f
    case OpError(p, SyscallError(syscall, cause)) =>
      var inner := SyscallText(syscall, cause);
      ContainsSelf(inner);
      ContainsExtend(p + ": ", inner, inner);
      p + ": " + inner
    case OpError(p, OtherError(text)) => p + ": " + text
    case Other(text) => text
  }

  const BrokenPipe := "broken pipe"
  const ConnectionReset := "connection reset by peer"

  /** The lower-cased message names a peer that has gone away. */
  predicate MentionsDeadPeer(msg: string)
  {
    Contains(ToLower(msg), BrokenPipe) || Contains(ToLower(msg), ConnectionReset)
  }

  /** The broken-connection test: a `*net.OpError` wrapping an
      `*os.SyscallError` whose message, case-insensitively, contains "broken
      pipe" or "connection reset by peer". Every other shape is a genuine
      defect; no shape makes the test fail. */
  function IsBroken(f: Failure): (r: bool)
    ensures r ==> f.OpError? && f.err.SyscallError?
  {
    match f
    case OpError(_, SyscallError(syscall, cause)) => MentionsDeadPeer(SyscallText(syscall, cause))
    case _ => false
  }

  /** Both directions of the classification, stated through an occurrence in
      the lower-cased system-call message. */
  lemma IsBrokenIff(f: Failure)
    ensures IsBroken(f) <==>
      (f.OpError? && f.err.SyscallError? &&
       ((exists i :: OccursAt(ToLower(SyscallText(f.err.syscall, f.err.cause)), BrokenPipe, i)) ||
        (exists i :: OccursAt(ToLower(SyscallText(f.err.syscall, f.err.cause)), ConnectionReset, i))))
  {
  }

  /** The test ignores letter case: two system-call messages that differ only in
      the case of their letters classify alike, whatever the outer error's text. */
  lemma {:induction false} IsBrokenCaseBlind(t1: string, sc1: string, c1: string,
                                              t2: string, sc2: string, c2: string)
    requires SameUpToCase(SyscallText(sc1, c1), SyscallText(sc2, c2))
    ensures IsBroken(OpError(t1, SyscallError(sc1, c1))) == IsBroken(OpError(t2, SyscallError(sc2, c2)))
  {
    ToLowerCaseBlind(SyscallText(sc1, c1), SyscallText(sc2, c2));
  }

  /** A system-call error whose underlying error reads "broken pipe" or
      "connection reset by peer", in any letter case, is a broken connection,
      whichever system call failed and whatever the outer error's text. */
  lemma {:induction false} DeadPeerCauseIsBroken(text: string, syscall: string, cause: string)
    requires ToLower(cause) == BrokenPipe || ToLower(cause) == ConnectionReset
    ensures IsBroken(OpError(text, SyscallError(syscall, cause)))
  {
    var head := syscall + ": ";
    ToLowerAppend(head, cause);
    var m := ToLower(SyscallText(syscall, cause));
    assert m == ToLower(head) + ToLower(cause);
    assert m[|head|..|head| + |cause|] == ToLower(cause);
    assert OccursAt(m, ToLower(cause), |head|);
  }

  /** A system call that fails on a closed pipe signals a broken connection,
      whatever the letter case of the message. */
  lemma BrokenPipeClassified(text: string, syscall: string)
    ensures IsBroken(OpError(text, SyscallError(syscall, "broken pipe")))
    ensures IsBroken(OpError(text, SyscallError(syscall, "Broken Pipe")))
  {
    assert ToLower("broken pipe") == BrokenPipe;
    assert ToLower("Broken Pipe") == BrokenPipe;
    DeadPeerCauseIsBroken(text, syscall, "broken pipe");
    DeadPeerCauseIsBroken(text, syscall, "Broken Pipe");
  }

  /** The test lower-cases beyond ASCII: a cause spelled with the Kelvin sign
      U+212A for its 'k' still reads "broken pipe". */
  lemma KelvinSignBroken(text: string, syscall: string)
    ensures IsBroken(OpError(text, SyscallError(syscall, "bro\U{212A}en pipe")))
  {
    assert ToLower("bro\U{212A}en pipe") == BrokenPipe;
    DeadPeerCauseIsBroken(text, syscall, "bro\U{212A}en pipe");
  }

  /** A system call on a connection the peer reset signals a broken connection. */
  lemma ConnectionResetClassified(text: string, syscall: string)
    ensures IsBroken(OpError(text, SyscallError(syscall, "connection reset by peer")))
  {
    ToLowerOfLower(ConnectionReset);
    DeadPeerCauseIsBroken(text, syscall, ConnectionReset);
  }

  /** The same message outside the two-level chain is a genuine defect: a bare
      panic value, or a network error that does not wrap a system-call error. */
  lemma ShapeDecides(msg: string, prefix: string, inner: string)
    ensures !IsBroken(Other(msg))
    ensures !IsBroken(OpError(prefix, OtherError(inner)))
  {
  }
}
