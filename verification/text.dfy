/**
  Python's string primitives used by the collector: `str.strip()`,
  `str.split()` (on runs of whitespace) and `str.split(sep)` (on one
  character), over `string` = `seq<char>`.

  Whitespace is the ASCII part of Python's `str.isspace`; the non-ASCII
  Unicode spaces Python also recognises are not modelled.
*/
module Text {

  /** ASCII characters for which Python's `str.isspace` holds. */
  predicate IsSpace(c: char) {
    c == ' ' || c == '\t' || c == '\n' || c == '\r'
    || c == '\U{B}' || c == '\U{C}' || ('\U{1C}' <= c <= '\U{1F}')
  }

  /** The digits `\d` stands for, restricted to ASCII. */
  predicate IsDigit(c: char) {
    '0' <= c <= '9'
  }

  predicate AllSpace(s: string) {
    forall i :: 0 <= i < |s| ==> IsSpace(s[i])
  }

  predicate NoSpace(s: string) {
    forall i :: 0 <= i < |s| ==> !IsSpace(s[i])
  }

  /** A string that `str.strip()` leaves as it is. */
  predicate IsStripped(s: string) {
    s == [] || (!IsSpace(s[0]) && !IsSpace(s[|s| - 1]))
  }

  /** Length of the longest prefix of `s` whose characters satisfy `keep`. */
  function Span(s: string, keep: char -> bool): (n: nat)
    ensures n <= |s|
    ensures forall i :: 0 <= i < n ==> keep(s[i])
    ensures n < |s| ==> !keep(s[n])
  {
    if s == [] || !keep(s[0]) then 0 else 1 + Span(s[1..], keep)
  }

  /** Length of the leading run of non-whitespace characters of `s`. */
  function TokenLength(s: string): (n: nat)
    ensures n <= |s|
    ensures NoSpace(s[..n])
    ensures n < |s| ==> IsSpace(s[n])
  {
    if s == [] || IsSpace(s[0]) then 0 else 1 + TokenLength(s[1..])
  }

  /** `str.lstrip()`: drops the leading whitespace and nothing else. */
  function TrimLeft(s: string): (r: string)
    ensures |r| <= |s| && r == s[|s| - |r|..]
    ensures AllSpace(s[..|s| - |r|])
    ensures r != [] ==> !IsSpace(r[0])
  {
    s[Span(s, IsSpace)..]
  }

  /** `str.rstrip()`: drops the trailing whitespace and nothing else. */
  function TrimRight(s: string): (r: string)
    ensures |r| <= |s| && r == s[..|r|]
    ensures AllSpace(s[|r|..])
    ensures r != [] ==> !IsSpace(r[|r| - 1])
    decreases |s|
  {
    if s != [] && IsSpace(s[|s| - 1]) then
      var init := s[..|s| - 1];
      var r := TrimRight(init);
      assert s[..|r|] == init[..|r|];
      assert s[|r|..] == init[|r|..] + [s[|s| - 1]];
      r
    else
      s
  }

  /** `str.strip()`: the string between the leading and the trailing whitespace. */
  function Strip(s: string): (r: string)
    ensures IsStripped(r)
    ensures r == [] <==> AllSpace(s)
    ensures exists k :: StrippedAt(s, k, r)
  {
    var t := TrimLeft(s);
    var r := TrimRight(t);
    StripParts(s, t, r);
    r
  }

  /** `r` is `s` with whitespace only before index `k` and after `r`. */
  predicate StrippedAt(s: string, k: nat, r: string) {
    k + |r| <= |s| && AllSpace(s[..k]) && s[k..k + |r|] == r && AllSpace(s[k + |r|..])
  }

  lemma StripParts(s: string, t: string, r: string)
    requires t == TrimLeft(s) && r == TrimRight(t)
    ensures StrippedAt(s, |s| - |t|, r)
    ensures r == [] <==> AllSpace(s)
  {
    var k := |s| - |t|;
    assert t == s[k..];
    assert r == t[..|r|];
    assert s[k..k + |r|] == r;
    assert s[k + |r|..] == t[|r|..];
    if r == [] {
      assert t[|r|..] == t;
      assert AllSpace(s) by {
        assert s == s[..k] + t;
      }
    } else {
      assert s[k] == r[0];
      assert !IsSpace(s[k]);
    }
  }

  /**
    A non-empty stripped slice with only whitespace around it is unique; so
    the contract of `Strip` determines its result.
  */
  lemma StrippedAtUnique(s: string, k1: nat, r1: string, k2: nat, r2: string)
    requires StrippedAt(s, k1, r1) && r1 != [] && IsStripped(r1)
    requires StrippedAt(s, k2, r2) && r2 != [] && IsStripped(r2)
    ensures r1 == r2
  {
    SliceAt(s, k1, r1);
    SliceAt(s, k2, r2);
    assert k1 == k2;
    var e := k1 + |r1|;
    assert s[e - 1] == r1[|r1| - 1] && s[k2 + |r2| - 1] == r2[|r2| - 1];
    assert e == k2 + |r2|;
  }

  /** Whatever non-empty stripped slice has only whitespace around it is `Strip`'s result. */
  lemma StripUnique(s: string, k: nat, r: string)
    requires StrippedAt(s, k, r) && r != [] && IsStripped(r)
    ensures Strip(s) == r
  {
    var k0: nat :| StrippedAt(s, k0, Strip(s));
    assert !AllSpace(s) by {
      assert s[k] == s[k..k + |r|][0];
    }
    StrippedAtUnique(s, k0, Strip(s), k, r);
  }

  /**
    `t` is the first whitespace-delimited token of `s`: only whitespace
    precedes it, it is non-empty, holds no whitespace, and is followed by
    whitespace or by the end of `s`.
  */
  ghost predicate IsFirstToken(s: string, t: string) {
    exists k: nat :: TokenAt(s, k, t)
  }

  /** `t` is the first token of `s` and starts at index `k`. */
  predicate TokenAt(s: string, k: nat, t: string) {
    k + |t| <= |s| && AllSpace(s[..k]) && s[k..k + |t|] == t
    && t != [] && NoSpace(t) && (k + |t| == |s| || IsSpace(s[k + |t|]))
  }

  /** `str.strip()` is idempotent: a stripped string is its own strip. */
  lemma StripStripped(s: string)
    requires IsStripped(s)
    ensures Strip(s) == s
  {
    assert Span(s, IsSpace) == 0;
    assert TrimLeft(s) == s;
  }

  /** `str.split()` with no argument: the maximal runs of non-whitespace, in order. */
  function Words(s: string): (ws: seq<string>)
    ensures forall i :: 0 <= i < |ws| ==> ws[i] != [] && NoSpace(ws[i])
    ensures ws == [] <==> AllSpace(s)
    decreases |s|
  {
    var t := TrimLeft(s);
    TrimLeftBlank(s);
    if t == [] then []
    else [t[..TokenLength(t)]] + Words(t[TokenLength(t)..])
  }

  /** Left-trimming empties exactly the all-whitespace strings. */
  lemma TrimLeftBlank(s: string)
    ensures TrimLeft(s) == [] <==> AllSpace(s)
  {
    var t := TrimLeft(s);
    var k := |s| - |t|;
    assert s == s[..k] + t;
    if t != [] {
      assert s[k] == t[0];
    }
  }

  /** The first word `str.split()` returns is the first token of the string. */
  lemma FirstWordIsFirstToken(s: string)
    requires !AllSpace(s)
    ensures Words(s) != [] && IsFirstToken(s, Words(s)[0])
  {
    var t := TrimLeft(s);
    var k := |s| - |t|;
    var n := TokenLength(t);
    assert Words(s)[0] == t[..n];
    assert TokenAt(s, k, t[..n]) by {
      assert t == s[k..];
      LeadingToken(s, k, n);
    }
  }

  /** The non-whitespace run at the end of a whitespace prefix is a first token. */
  lemma LeadingToken(s: string, k: nat, n: nat)
    requires k < |s| && AllSpace(s[..k]) && !IsSpace(s[k])
    requires n == TokenLength(s[k..])
    ensures TokenAt(s, k, s[k..][..n])
  {
    var t := s[k..];
    var w := t[..n];
    assert n > 0;
    assert s[k..k + n] == w;
    assert k + n < |s| ==> IsSpace(s[k + n]) by {
      if k + n < |s| { assert s[k + n] == t[n]; }
    }
  }

  /** A string has at most one first token. */
  lemma FirstTokenUnique(s: string, t1: string, t2: string)
    requires IsFirstToken(s, t1) && IsFirstToken(s, t2)
    ensures t1 == t2
  {
    var k1: nat :| TokenAt(s, k1, t1);
    var k2: nat :| TokenAt(s, k2, t2);
    SpaceRuns(s, k1, t1);
    SpaceRuns(s, k2, t2);
    assert !IsSpace(s[k1]) && !IsSpace(s[k2]);
    assert k1 == k2;
    var e1, e2 := k1 + |t1|, k2 + |t2|;
    assert e1 < |s| ==> IsSpace(s[e1]);
    assert e2 < |s| ==> IsSpace(s[e2]);
    assert |t1| == |t2|;
    assert t1 == s[k1..k1 + |t1|];
  }

  /** Index-wise reading of one first-token witness. */
  lemma SpaceRuns(s: string, k: nat, t: string)
    requires k + |t| <= |s| && AllSpace(s[..k]) && s[k..k + |t|] == t && NoSpace(t)
    ensures forall i :: 0 <= i < k ==> IsSpace(s[i])
    ensures forall i :: k <= i < k + |t| ==> !IsSpace(s[i])
  {
    forall i | 0 <= i < k ensures IsSpace(s[i]) {
      assert s[i] == s[..k][i];
    }
    forall i | k <= i < k + |t| ensures !IsSpace(s[i]) {
      assert s[i] == t[i - k];
    }
  }

  /** A non-empty string without whitespace is its own first token. */
  lemma WholeTokenIsFirst(t: string)
    requires t != [] && NoSpace(t)
    ensures IsFirstToken(t, t)
  {
    assert t[0..0 + |t|] == t;
    assert AllSpace(t[..0]);
    assert TokenAt(t, 0, t);
  }

  /** Stripping the surrounding whitespace does not change the first token. */
  lemma StripKeepsFirstToken(s: string, t: string)
    requires IsFirstToken(Strip(s), t)
    ensures IsFirstToken(s, t)
  {
    var r := Strip(s);
    var k0: nat :| StrippedAt(s, k0, r);
    var k1: nat :| TokenAt(r, k1, t);
    ShiftToken(s, k0, r, k1, t);
  }

  /** A first token of `r` is a first token of `r` padded with whitespace. */
  lemma ShiftToken(s: string, k0: nat, r: string, k1: nat, t: string)
    requires k0 + |r| <= |s| && s[k0..k0 + |r|] == r
    requires AllSpace(s[..k0]) && AllSpace(s[k0 + |r|..])
    requires TokenAt(r, k1, t)
    ensures TokenAt(s, k0 + k1, t)
  {
    SliceAt(s, k0, r);
    var k := k0 + k1;
    assert AllSpace(s[..k]) by {
      forall i | 0 <= i < k ensures IsSpace(s[..k][i]) {
        if i < k0 {
          assert s[..k][i] == s[..k0][i];
        } else {
          assert s[..k][i] == r[..k1][i - k0];
        }
      }
    }
    assert s[k..k + |t|] == t by {
      forall i | 0 <= i < |t| ensures s[k..k + |t|][i] == t[i] {
        assert t[i] == r[k1..k1 + |t|][i] == r[k1 + i];
      }
    }
    assert k + |t| == |s| || IsSpace(s[k + |t|]) by {
      if k + |t| < |s| {
        if k1 + |t| == |r| {
          assert s[k + |t|] == s[k0 + |r|..][0];
        } else {
          var j := k1 + |t|;
          assert s[k0 + j] == r[j];
        }
      }
    }
  }

  /** Pointwise reading of `s[k..k + |r|] == r`. */
  lemma SliceAt(s: string, k: nat, r: string)
    requires k + |r| <= |s| && s[k..k + |r|] == r
    ensures forall j :: 0 <= j < |r| ==> s[k + j] == r[j]
  {
    forall j | 0 <= j < |r| ensures s[k + j] == r[j] {
      assert r[j] == s[k..k + |r|][j];
    }
  }

  /** `sep.join(parts)`: the parts with `sep` between consecutive ones. */
  function Join(parts: seq<string>, sep: char): string {
    if |parts| == 0 then []
    else if |parts| == 1 then parts[0]
    else parts[0] + [sep] + Join(parts[1..], sep)
  }

  /** `str.split(sep)`: the pieces between occurrences of `sep`, empty ones included. */
  function SplitOn(s: string, sep: char): (parts: seq<string>)
    ensures |parts| >= 1
    ensures forall i :: 0 <= i < |parts| ==> sep !in parts[i]
    ensures Join(parts, sep) == s
    decreases |s|
  {
    var i := Span(s, c => c != sep);
    if i == |s| then
      assert sep !in s by {
        forall j | 0 <= j < |s| ensures s[j] != sep { }
      }
      [s]
    else
      var head := s[..i];
      assert sep !in head by {
        forall j | 0 <= j < |head| ensures head[j] != sep { assert head[j] == s[j]; }
      }
      var tail := SplitOn(s[i + 1..], sep);
      assert s == head + [sep] + s[i + 1..];
      [head] + tail
  }

  /** Splitting undoes joining when no part holds the separator. */
  lemma {:induction false} SplitJoin(parts: seq<string>, sep: char)
    requires |parts| >= 1
    requires forall i :: 0 <= i < |parts| ==> sep !in parts[i]
    ensures SplitOn(Join(parts, sep), sep) == parts
    decreases |parts|
  {
    var s := Join(parts, sep);
    if |parts| == 1 {
      SpanToSeparator(parts[0], sep, []);
    } else {
      var rest := Join(parts[1..], sep);
      assert s == parts[0] + [sep] + rest;
      SpanToSeparator(parts[0], sep, [sep] + rest);
      assert s[..|parts[0]|] == parts[0];
      assert s[|parts[0]| + 1..] == rest;
      SplitJoin(parts[1..], sep);
    }
  }

  /** The run of non-separator characters ends exactly where `head` does. */
  lemma SpanToSeparator(head: string, sep: char, rest: string)
    requires sep !in head
    requires rest == [] || rest[0] == sep
    ensures Span(head + rest, c => c != sep) == |head|
  {
    var s := head + rest;
    var n := Span(s, c => c != sep);
    forall j | 0 <= j < |head| ensures s[j] != sep {
      assert s[j] == head[j];
    }
    if |head| < |s| {
      assert s[|head|] == rest[0];
    }
  }
}
