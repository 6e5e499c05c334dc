/** The header-line rewrite of the recovery handler (recovery.go:44-51): the
    dumped request is split into lines at CRLF, each line is split at ':', and a
    line whose first segment is exactly "Authorization" is replaced by
    "Authorization: *". */
module Headers {
  import opened GoStrings

  const CRLF := "\r\n"
  const Colon := ":"
  const AuthorizationName := "Authorization"
  const MaskedAuthorization := "Authorization: *"

  /** The handler's test `strings.Split(line, ":")[0] == "Authorization"`: only
      a line that starts with the name can pass it. */
  function IsAuthorizationLine(line: string): (r: bool)
    ensures r ==> |line| >= 13 && line[..13] == AuthorizationName
  {
    SplitHead(line, Colon, line);
    Split(line, Colon)[0] == AuthorizationName
  }

  /** The handler's replacement of one line: the first segment followed by ": *".
      A line that passes the test becomes exactly "Authorization: *"; any other
      line is left as it is. */
  function RedactLine(line: string): (r: string)
    ensures r == if IsAuthorizationLine(line) then MaskedAuthorization else line
  {
    var current := Split(line, Colon);
    if current[0] == AuthorizationName then current[0] + ": *" else line
  }

  /** The rewrite of every line, in order. */
  function Redacted(lines: seq<string>): (r: seq<string>)
    ensures |r| == |lines|
    ensures forall i :: 0 <= i < |lines| ==> r[i] == RedactLine(lines[i])
  {
    if lines == [] then [] else [RedactLine(lines[0])] + Redacted(lines[1..])
  }

  /** The test on the first segment, told without `Split`: the line is the bare
      name "Authorization", or it starts with "Authorization:". Letter case
      matters, and a space before the colon defeats the match. */
  lemma AuthorizationLineShape(line: string)
    ensures IsAuthorizationLine(line) <==>
      line == AuthorizationName || (|line| > 13 && line[..14] == AuthorizationName + Colon)
  {
    var name := AuthorizationName;
    assert Colon == [':'];
    forall j | 0 <= j ensures OccursAt(line, Colon, j) <==> j < |line| && line[j] == ':' {
      OccursAtChar(line, ':', j);
    }
    if line == name || (|line| > 13 && line[..14] == name + Colon) {
      assert forall j :: 0 <= j < 13 ==> line[j] == name[j] != ':';
      SplitHead(line, Colon, name);
    } else {
      SplitHead(line, Colon, name);
    }
  }

  /** Rewriting an already rewritten line changes nothing: "Authorization: *"
      itself has first segment "Authorization". */
  lemma RedactLineIdempotent(line: string)
    ensures RedactLine(RedactLine(line)) == RedactLine(line)
  {
  }

  /** The whole rewrite keeps the number of lines, masks exactly the lines whose
      text up to the first colon is "Authorization", and keeps every other line. */
  lemma RedactedExactly(lines: seq<string>, i: int)
    requires 0 <= i < |lines|
    ensures |Redacted(lines)| == |lines|
    ensures Redacted(lines)[i] ==
      if lines[i] == AuthorizationName || (|lines[i]| > 13 && lines[i][..14] == AuthorizationName + Colon)
      then MaskedAuthorization else lines[i]
  {
    var line := lines[i];
    assert Redacted(lines)[i] == RedactLine(line);
    AuthorizationLineShape(line);
  }

  /** Rewriting twice is rewriting once. */
  lemma {:induction false} RedactedIdempotent(lines: seq<string>)
    ensures Redacted(Redacted(lines)) == Redacted(lines)
  {
  }

  /** The first CRLF of `p + CRLF + rest` is the one after `p` when `p` holds
      none: no CRLF can straddle the end of `p`, because it starts with '\r'
      and CRLF's second character is not '\r'. */
  lemma IndexAfterLine(p: string, rest: string)
    requires !Contains(p, CRLF)
    ensures Index(p + CRLF + rest, CRLF) == |p|
  {
    var s := p + CRLF + rest;
    IndexIsFirst(s, CRLF);
    assert OccursAt(s, CRLF, |p|) by { assert s[|p|..|p| + 2] == CRLF; }
    forall j | 0 <= j < |p| ensures !OccursAt(s, CRLF, j) {
      if j + 2 <= |p| {
        assert s[j..j + 2] == p[j..j + 2];
        assert !OccursAt(p, CRLF, j);
      } else {
        assert s[j + 1] == '\r';
      }
    }
  }

  /** A line without CRLF, followed by CRLF and more text, splits off as the
      first piece. */
  lemma SplitFirstLine(p: string, rest: string)
    requires !Contains(p, CRLF)
    ensures Split(p + CRLF + rest, CRLF) == [p] + Split(rest, CRLF)
  {
    var s := p + CRLF + rest;
    IndexAfterLine(p, rest);
    assert s[..|p|] == p;
    assert s[|p| + 2..] == rest;
  }

  /** Joining lines that hold no CRLF and splitting the result again gives the
      same lines back. */
  lemma {:induction false} SplitJoinLines(lines: seq<string>)
    requires |lines| >= 1
    requires forall k :: 0 <= k < |lines| ==> !Contains(lines[k], CRLF)
    ensures Split(Join(lines, CRLF), CRLF) == lines
  {
    if |lines| == 1 {
      assert Index(lines[0], CRLF) < 0;
    } else {
      var p, tail := lines[0], lines[1..];
      SplitFirstLine(p, Join(tail, CRLF));
      SplitJoinLines(tail);
      assert lines == [p] + tail;
    }
  }

  /** What the handler evidently meant to log: the dump with its lines rewritten
      and joined again with CRLF. Split again, it gives back exactly the
      rewritten lines. */
  function RedactedDump(dump: string): (r: string)
    ensures Split(r, CRLF) == Redacted(Split(dump, CRLF))
  {
    var lines := Redacted(Split(dump, CRLF));
    SplitPiecesFree(dump, CRLF);
    assert !Contains(MaskedAuthorization, CRLF) by {
      NoSeparatorChar(MaskedAuthorization, CRLF);
    }
    assert forall k :: 0 <= k < |lines| ==> !Contains(lines[k], CRLF);
    SplitJoinLines(lines);
    Join(lines, CRLF)
  }

  /** In the redacted dump every line that passes the handler's Authorization
      test is the masked line, so no credential survives on such a line. */
  lemma RedactedDumpMasks(dump: string, i: int)
    requires 0 <= i < |Split(RedactedDump(dump), CRLF)|
    ensures var line := Split(RedactedDump(dump), CRLF)[i];
      IsAuthorizationLine(line) ==> line == MaskedAuthorization
  {
  }

  /** The lines of the example request, joined with CRLF, are its dump. */
  lemma ExampleLinesJoin(request: string, auth: string)
    ensures Join([request, auth, "", ""], CRLF) == request + CRLF + auth + CRLF + CRLF
  {
    assert [request, auth, "", ""] == [request] + [auth, "", ""];
    JoinCons(request, [auth, "", ""], CRLF);
    assert [auth, "", ""] == [auth] + ["", ""];
    JoinCons(auth, ["", ""], CRLF);
  }

  /** The rewrite of the example request masks its Authorization line only. */
  lemma ExampleLinesRedacted(request: string, token: string)
    requires request == "GET / HTTP/1.1" && token == "xyz"
    ensures Redacted([request, "Authorization: Bearer " + token, "", ""]) ==
      [request, MaskedAuthorization, "", ""]
  {
    var auth := "Authorization: Bearer " + token;
    assert request[0] != AuthorizationName[0];
    AuthorizationLineShape(auth);
    assert RedactLine("") == "";
  }

  /** The example request splits at CRLF into its four lines. */
  lemma ExampleDumpSplit(request: string, auth: string, dump: string)
    requires request == "GET / HTTP/1.1" && |auth| > 0 && auth[0] == 'A'
    requires forall i :: 0 <= i < |auth| ==> auth[i] != '\r'
    requires dump == request + CRLF + auth + CRLF + CRLF
    ensures Split(dump, CRLF) == [request, auth, "", ""]
  {
    var lines := [request, auth, "", ""];
    ExampleLinesJoin(request, auth);
    forall k | 0 <= k < |lines| ensures !Contains(lines[k], CRLF) {
      NoSeparatorChar(lines[k], CRLF);
    }
    SplitJoinLines(lines);
  }

  /** The corrected dump of the example request is its lines, the
      Authorization line masked, joined with CRLF. */
  lemma ExampleRedactedDump(request: string, token: string, dump: string)
    requires request == "GET / HTTP/1.1" && token == "xyz"
    requires dump == request + CRLF + "Authorization: Bearer " + token + CRLF + CRLF
    ensures RedactedDump(dump) == Join([request, MaskedAuthorization, "", ""], CRLF)
  {
    var auth := "Authorization: Bearer " + token;
    assert dump == request + CRLF + auth + CRLF + CRLF;
    ExampleDumpSplit(request, auth, dump);
    ExampleLinesRedacted(request, token);
  }

  /** The corrected dump of a request that carries a bearer token no longer
      holds the token, although the dump itself does. */
  lemma BearerTokenMasked(request: string, token: string, dump: string)
    requires request == "GET / HTTP/1.1" && token == "xyz"
    requires dump == request + CRLF + "Authorization: Bearer " + token + CRLF + CRLF
    ensures Contains(dump, token)
    ensures !Contains(RedactedDump(dump), token)
  {
    assert OccursAt(dump, token, 38) by { assert dump[38..41] == token; }
    var masked := [request, MaskedAuthorization, "", ""];
    ExampleRedactedDump(request, token, dump);
    JoinAvoids(masked, CRLF, token[0]);
    NoSeparatorChar(Join(masked, CRLF), token);
  }

  /** One turn of the handler's loop: split `headers[idx]` at ':' and mask it
      when its first segment is "Authorization". */
  method RewriteLineAt(headers: array<string>, idx: int)
    requires 0 <= idx < headers.Length
    modifies headers
    ensures headers[idx] == RedactLine(old(headers[idx]))
    ensures forall k :: 0 <= k < headers.Length && k != idx ==> headers[k] == old(headers[k])
  {
    var header := headers[idx];
    var current := Split(header, Colon);
    if current[0] == AuthorizationName {
      headers[idx] := current[0] + ": *";
    }
  }

  /** The loop `for idx, header := range headers` of the handler, which assigns
      `headers[idx]` in place. */
  method RewriteAuthorization(headers: array<string>)
    modifies headers
    ensures headers[..] == Redacted(old(headers[..]))
  {
    for idx := 0 to headers.Length
      invariant forall k :: 0 <= k < idx ==> headers[k] == RedactLine(old(headers[k]))
      invariant forall k :: idx <= k < headers.Length ==> headers[k] == old(headers[k])
    {
      RewriteLineAt(headers, idx);
    }
  }
}
