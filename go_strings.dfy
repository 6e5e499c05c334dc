/** The few functions of Go's `strings` package that the recovery handler relies on:
    `strings.ToLower`, `strings.Index`, `strings.Contains`, `strings.Split`, and
    `strings.Join` as the partner of `Split`. */
module GoStrings {

  /** `sep` occurs in `s` starting at position `i`. */
  predicate OccursAt(s: string, sep: string, i: int)
  {
    0 <= i && i + |sep| <= |s| && s[i..i + |sep|] == sep
  }

  /** The characters whose lower case is an ASCII letter: A-Z, U+0130 (capital
      I with dot above) and U+212A (Kelvin sign). */
  predicate IsUpper(c: char)
  {
    'A' <= c <= 'Z' || c == '\U{0130}' || c == '\U{212A}'
  }

  /** Lower-casing of one character, for every character whose lower case is
      ASCII: A-Z to a-z, U+0130 to 'i', U+212A to 'k'. */
  function LowerChar(c: char): char
  {
    if 'A' <= c <= 'Z' then (c as int - 'A' as int + 'a' as int) as char
    else if c == '\U{0130}' then 'i'
    else if c == '\U{212A}' then 'k'
    else c
  }

  /** No character of `s` has an ASCII lower case other than itself. */
  predicate HasNoUpper(s: string)
  {
    forall i :: 0 <= i < |s| ==> !IsUpper(s[i])
  }

  /** The two strings differ at most in the case of their letters. */
  predicate SameUpToCase(a: string, b: string)
  {
    |a| == |b| && forall i :: 0 <= i < |a| ==> LowerChar(a[i]) == LowerChar(b[i])
  }

  /** `strings.ToLower`: every character lower-cased, nothing added or removed. */
  function ToLower(s: string): (r: string)
    ensures |r| == |s| && SameUpToCase(r, s)
    ensures HasNoUpper(r)
  {
    seq(|s|, i requires 0 <= i < |s| => LowerChar(s[i]))
  }

  /** `strings.Index`: the position of the first occurrence of `sep` in `s`,
      or -1; `IndexIsFirst` shows that no occurrence comes before it. */
  function Index(s: string, sep: string): (r: int)
    ensures r >= -1
    ensures r >= 0 ==> OccursAt(s, sep, r)
    decreases |s|
  {
    if |s| < |sep| then -1
    else if s[..|sep|] == sep then 0
    else
      var k := Index(s[1..], sep);
      if k < 0 then -1 else OccursShift(s, sep, k); k + 1
  }

  /** No occurrence of `sep` starts before the one `Index` finds, and none at
      all when it finds none. */
  lemma {:induction false} IndexIsFirst(s: string, sep: string)
    ensures forall j :: 0 <= j && (Index(s, sep) < 0 || j < Index(s, sep)) ==> !OccursAt(s, sep, j)
    decreases |s|
  {
    if |s| >= |sep| && s[..|sep|] != sep {
      IndexIsFirst(s[1..], sep);
      assert !OccursAt(s, sep, 0) by { assert s[0..|sep|] == s[..|sep|]; }
      forall j | 1 <= j ensures OccursAt(s, sep, j) <==> OccursAt(s[1..], sep, j - 1) {
        OccursShift(s, sep, j - 1);
      }
    }
  }

  /** Dropping the first character moves every occurrence one place left. */
  lemma OccursShift(s: string, sep: string, j: int)
    requires |s| >= 1 && 0 <= j
    ensures OccursAt(s[1..], sep, j) <==> OccursAt(s, sep, j + 1)
  {
  }

  /** `strings.Contains`: `sub` occurs somewhere in `s`. */
  function Contains(s: string, sub: string): (r: bool)
    ensures r <==> exists i :: OccursAt(s, sub, i)
  {
    IndexIsFirst(s, sub);
    Index(s, sub) >= 0
  }

  /** `strings.Join`: the parts glued back together with `sep` between neighbours. */
  function Join(parts: seq<string>, sep: string): string
    requires |parts| >= 1
  {
    if |parts| == 1 then parts[0] else parts[0] + sep + Join(parts[1..], sep)
  }

  /** `strings.Split` for a non-empty separator: the text between successive
      non-overlapping occurrences of `sep`, found from the left. */
  function Split(s: string, sep: string): (r: seq<string>)
    requires |sep| > 0
    ensures |r| >= 1
    decreases |s|
  {
    var i := Index(s, sep);
    if i < 0 then [s] else [s[..i]] + Split(s[i + |sep|..], sep)
  }

  /** No piece of a split holds the separator. */
  lemma {:induction false} SplitPiecesFree(s: string, sep: string)
    requires |sep| > 0
    ensures forall k :: 0 <= k < |Split(s, sep)| ==> !Contains(Split(s, sep)[k], sep)
    decreases |s|
  {
    var i := Index(s, sep);
    IndexIsFirst(s, sep);
    if i >= 0 {
      assert !Contains(s[..i], sep) by {
        forall j | OccursAt(s[..i], sep, j) ensures OccursAt(s, sep, j) {
          assert s[..i][j..j + |sep|] == s[j..j + |sep|];
        }
      }
      SplitPiecesFree(s[i + |sep|..], sep);
    }
  }

  /** Text in which the separator's first character never appears holds no
      separator. */
  lemma NoSeparatorChar(s: string, sep: string)
    requires |sep| > 0
    requires forall i :: 0 <= i < |s| ==> s[i] != sep[0]
    ensures !Contains(s, sep)
  {
    forall j | 0 <= j && j + |sep| <= |s| ensures !OccursAt(s, sep, j) {
      assert s[j..j + |sep|][0] == s[j] != sep[0];
    }
  }

  /** Joining a list with a head is the head, the separator, and the rest joined. */
  lemma JoinCons(head: string, tail: seq<string>, sep: string)
    requires |tail| >= 1
    ensures Join([head] + tail, sep) == head + sep + Join(tail, sep)
  {
  }

  /** A character that is in no part and not in the separator is not in the
      joined text. */
  lemma {:induction false} JoinAvoids(parts: seq<string>, sep: string, c: char)
    requires |parts| >= 1
    requires forall k :: 0 <= k < |parts| ==> c !in parts[k]
    requires c !in sep
    ensures c !in Join(parts, sep)
  {
    if |parts| > 1 {
      JoinAvoids(parts[1..], sep, c);
    }
  }

  /** Splitting then joining with the same separator gives back the input. */
  lemma {:induction false} JoinSplit(s: string, sep: string)
    requires |sep| > 0
    ensures Join(Split(s, sep), sep) == s
    decreases |s|
  {
    var i := Index(s, sep);
    if i >= 0 {
      var head, rest := s[..i], s[i + |sep|..];
      var tail := Split(rest, sep);
      JoinSplit(rest, sep);
      assert Split(s, sep) == [head] + tail;
      JoinCons(head, tail, sep);
      assert s == head + s[i..i + |sep|] + rest;
    }
  }

  /** `h` is the text of `s` before the first occurrence of `sep`, or all of
      `s` when `sep` does not occur. */
  predicate IsHeadBefore(s: string, sep: string, h: string)
  {
    |h| <= |s| && h == s[..|h|] &&
    (forall j :: 0 <= j < |h| ==> !OccursAt(s, sep, j)) &&
    (|h| == |s| || OccursAt(s, sep, |h|))
  }

  /** The first piece of a split is the text before the first separator, and
      the whole input when it holds no separator; that text is the only one of
      its kind. */
  lemma SplitHead(s: string, sep: string, h: string)
    requires |sep| > 0
    ensures IsHeadBefore(s, sep, Split(s, sep)[0])
    ensures IsHeadBefore(s, sep, h) ==> Split(s, sep)[0] == h
  {
    var i := Index(s, sep);
    IndexIsFirst(s, sep);
    var h0 := Split(s, sep)[0];
    if i >= 0 {
      assert h0 == s[..i];
    } else {
      assert h0 == s;
    }
  }

  /** A one-character separator occurs exactly where that character stands. */
  lemma OccursAtChar(s: string, c: char, j: int)
    ensures OccursAt(s, [c], j) <==> 0 <= j < |s| && s[j] == c
  {
  }

  /** Text without capital letters is its own lower-case form. */
  lemma {:induction false} ToLowerOfLower(s: string)
    requires HasNoUpper(s)
    ensures ToLower(s) == s
  {
  }

  /** Lower-casing twice is lower-casing once. */
  lemma {:induction false} ToLowerIdempotent(s: string)
    ensures ToLower(ToLower(s)) == ToLower(s)
  {
  }

  /** Lower-casing works piece by piece. */
  lemma {:induction false} ToLowerAppend(a: string, b: string)
    ensures ToLower(a + b) == ToLower(a) + ToLower(b)
  {
  }

  /** Two strings that differ only in the case of their letters lower-case to
      the same string. */
  lemma {:induction false} ToLowerCaseBlind(a: string, b: string)
    requires SameUpToCase(a, b)
    ensures ToLower(a) == ToLower(b)
  {
  }

  /** What occurs in a text still occurs once more text is added on either side. */
  lemma ContainsExtend(a: string, b: string, x: string)
    ensures Contains(a, x) ==> Contains(a + b, x)
    ensures Contains(b, x) ==> Contains(a + b, x)
  {
    if Contains(a, x) {
      var i :| OccursAt(a, x, i);
      assert (a + b)[i..i + |x|] == a[i..i + |x|];
      assert OccursAt(a + b, x, i);
    }
    if Contains(b, x) {
      var i :| OccursAt(b, x, i);
      assert (a + b)[|a| + i..|a| + i + |x|] == b[i..i + |x|];
      assert OccursAt(a + b, x, |a| + i);
    }
  }

  /** Every text occurs in itself. */
  lemma ContainsSelf(s: string)
    ensures Contains(s, s)
  {
  }

  /** Containment is transitive. */
  lemma ContainsTransitive(a: string, b: string, c: string)
    requires Contains(a, b) && Contains(b, c)
    ensures Contains(a, c)
  {
    var i :| OccursAt(a, b, i);
    var j :| OccursAt(b, c, j);
    forall k | 0 <= k < |c| ensures a[i + j + k] == c[k] {
      assert a[i..i + |b|][j + k] == b[j + k];
      assert b[j..j + |c|][k] == c[k];
    }
    assert a[i + j..i + j + |c|] == c;
    assert OccursAt(a, c, i + j);
  }
}
