/**
  The proxy shape `^\d{1,3}\.\d{1,3}\.\d{1,3}\.\d{1,3}:\d{1,5}$`.

  The reference definition is an `Endpoint` of five digit groups rendered
  as `a.b.c.d:port`; `Parse` is the matcher, reading one maximal run of
  digits per group. Because no group can contain the `.` or `:` that ends
  it, a backtracking regex match and the maximal-run reading accept the
  same strings. The check is syntactic only: a group's numeric value is
  never bounded (`999` is an acceptable octet, `99999` an acceptable port).
*/
module Pattern {
  import opened Text
  import opened Wrappers

  /** The four address groups and the port group, as digit strings. */
  datatype Endpoint = Endpoint(a: string, b: string, c: string, d: string, port: string)

  predicate AllDigits(s: string) {
    forall i :: 0 <= i < |s| ==> IsDigit(s[i])
  }

  /** `\d{1,maxLen}` */
  predicate DigitGroup(s: string, maxLen: nat) {
    1 <= |s| <= maxLen && AllDigits(s)
  }

  predicate WellFormed(e: Endpoint) {
    DigitGroup(e.a, 3) && DigitGroup(e.b, 3) && DigitGroup(e.c, 3) && DigitGroup(e.d, 3)
    && DigitGroup(e.port, 5)
  }

  /** The text of an endpoint: `a.b.c.d:port`. */
  function Render(e: Endpoint): string {
    e.a + "." + e.b + "." + e.c + "." + e.d + ":" + e.port
  }

  /** `Render` read group by group from the left. */
  lemma RenderNested(e: Endpoint)
    ensures Render(e) == e.a + ['.'] + (e.b + ['.'] + (e.c + ['.'] + (e.d + [':'] + e.port)))
  {
  }

  /**
    One `\d{1,maxLen}` group that must be followed by `sep`: the group and
    the text after the separator, or `None` when the shape is not there.
  */
  function Group(s: string, maxLen: nat, sep: char): (r: Option<(string, string)>)
    requires !IsDigit(sep)
    ensures r.Some? ==> DigitGroup(r.value.0, maxLen) && s == r.value.0 + [sep] + r.value.1
  {
    var n := Span(s, IsDigit);
    if 1 <= n <= maxLen && n < |s| && s[n] == sep then
      assert s == s[..n] + [sep] + s[n + 1..];
      Some((s[..n], s[n + 1..]))
    else
      None
  }

  /** A digit group followed by its separator is the group `Group` reads. */
  lemma GroupOf(g: string, maxLen: nat, sep: char, rest: string)
    requires !IsDigit(sep) && DigitGroup(g, maxLen)
    ensures Group(g + [sep] + rest, maxLen, sep) == Some((g, rest))
  {
    var s := g + [sep] + rest;
    DigitsThenStop(s, g);
    assert s[..|g|] == g;
    assert s[|g| + 1..] == rest;
  }

  /** `Span` over digits stops at the first non-digit after a digit prefix. */
  lemma DigitsThenStop(s: string, g: string)
    requires AllDigits(g) && |g| < |s| && s[..|g|] == g && !IsDigit(s[|g|])
    ensures Span(s, IsDigit) == |g|
  {
  }

  /** The last group, `\d{1,5}$`: all that is left must be digits. */
  function PortGroup(s: string): (r: Option<string>)
    ensures r == (if DigitGroup(s, 5) then Some(s) else None)
  {
    var n := Span(s, IsDigit);
    if 1 <= n <= 5 && n == |s| then Some(s) else None
  }

  /** The anchored match of the proxy pattern against a whole token. */
  function Parse(t: string): (r: Option<Endpoint>)
    ensures r.Some? ==> WellFormed(r.value) && Render(r.value) == t
  {
    match Group(t, 3, '.')
    case None => None
    case Some((a, t1)) =>
      match Group(t1, 3, '.')
      case None => None
      case Some((b, t2)) =>
        match Group(t2, 3, '.')
        case None => None
        case Some((c, t3)) =>
          match Group(t3, 3, ':')
          case None => None
          case Some((d, t4)) =>
            match PortGroup(t4)
            case None => None
            case Some(port) =>
              var e := Endpoint(a, b, c, d, port);
              RenderNested(e);
              Some(e)
  }

  /**
    `re.match(pattern, token)` succeeds, for a token without whitespace.
    Python's `$` also matches just before a final newline, so the regex
    accepts `1.2.3.4:80` followed by a newline and this predicate does not;
    the tokens `filter_proxies` matches never hold a newline.
  */
  predicate IsProxy(t: string) {
    Parse(t).Some?
  }

  /** Parsing the text of a well-formed endpoint gives that endpoint back. */
  lemma ParseRender(e: Endpoint)
    requires WellFormed(e)
    ensures Parse(Render(e)) == Some(e)
  {
    var t := Render(e);
    var t3 := e.d + [':'] + e.port;
    var t2 := e.c + ['.'] + t3;
    var t1 := e.b + ['.'] + t2;
    RenderNested(e);
    GroupOf(e.a, 3, '.', t1);
    GroupOf(e.b, 3, '.', t2);
    GroupOf(e.c, 3, '.', t3);
    GroupOf(e.d, 3, ':', e.port);
  }

  /** A token is accepted exactly when it is the text of a well-formed endpoint. */
  lemma IsProxyIff(t: string)
    ensures IsProxy(t) <==> exists e :: WellFormed(e) && Render(e) == t
  {
    if e :| WellFormed(e) && Render(e) == t {
      ParseRender(e);
    }
  }

  /** An accepted token is non-empty and holds no whitespace. */
  lemma ProxyHasNoSpace(t: string)
    requires IsProxy(t)
    ensures t != [] && NoSpace(t)
  {
    var e := Parse(t).value;
    forall i | 0 <= i < |t| ensures !IsSpace(t[i]) {
      assert IsDigit(t[i]) || t[i] == '.' || t[i] == ':' by {
        CharsOfRender(e, i);
      }
    }
  }

  /** Every character of a well-formed endpoint's text is a digit, `.` or `:`. */
  lemma CharsOfRender(e: Endpoint, i: nat)
    requires WellFormed(e) && i < |Render(e)|
    ensures IsDigit(Render(e)[i]) || Render(e)[i] == '.' || Render(e)[i] == ':'
  {
    var t := Render(e);
    var o1 := |e.a| + 1;
    var o2 := o1 + |e.b| + 1;
    var o3 := o2 + |e.c| + 1;
    var o4 := o3 + |e.d| + 1;
    if i < o1 - 1 { assert t[i] == e.a[i]; }
    else if i < o1 { }
    else if i < o2 - 1 { assert t[i] == e.b[i - o1]; }
    else if i < o2 { }
    else if i < o3 - 1 { assert t[i] == e.c[i - o2]; }
    else if i < o3 { }
    else if i < o4 - 1 { assert t[i] == e.d[i - o3]; }
    else if i < o4 { }
    else { assert t[i] == e.port[i - o4]; }
  }

  /** Once four address groups have been read, acceptance rests on the port group. */
  lemma ParseAfterAddress(a: string, b: string, c: string, d: string, port: string)
    requires DigitGroup(a, 3) && DigitGroup(b, 3) && DigitGroup(c, 3) && DigitGroup(d, 3)
    ensures IsProxy(a + ['.'] + (b + ['.'] + (c + ['.'] + (d + [':'] + port))))
            <==> DigitGroup(port, 5)
  {
    var t3 := d + [':'] + port;
    var t2 := c + ['.'] + t3;
    var t1 := b + ['.'] + t2;
    GroupOf(a, 3, '.', t1);
    GroupOf(b, 3, '.', t2);
    GroupOf(c, 3, '.', t3);
    GroupOf(d, 3, ':', port);
  }

  /** With the address `1.2.3.4` fixed, acceptance depends on the port group alone. */
  lemma PortDecides(port: string)
    ensures IsProxy("1.2.3.4:" + port) <==> DigitGroup(port, 5)
  {
    assert "1.2.3.4:" + port == "1" + ['.'] + ("2" + ['.'] + ("3" + ['.'] + ("4" + [':'] + port)));
    assert DigitGroup("1", 3) && DigitGroup("2", 3) && DigitGroup("3", 3) && DigitGroup("4", 3);
    ParseAfterAddress("1", "2", "3", "4", port);
  }

  /** Digit counts are all that is checked: out-of-range octets and ports pass. */
  lemma AcceptsOutOfRangeValues()
    ensures IsProxy("999.999.999.999:99999")
  {
    var big := Endpoint("999", "999", "999", "999", "99999");
    assert Render(big) == "999.999.999.999:99999";
    assert Parse(Render(big)).Some? by { ParseRender(big); }
  }

  lemma AcceptsPlainEndpoint()
    ensures IsProxy("1.2.3.4:80")
  {
    assert "1.2.3.4:" + "80" == "1.2.3.4:80";
    assert IsProxy("1.2.3.4:" + "80") by { PortDecides("80"); }
  }

  /** A non-numeric character after the port digits is not allowed. */
  lemma RejectsTrailingGarbage()
    ensures !IsProxy("1.2.3.4:80x")
  {
    PortDecides("80x");
    assert "1.2.3.4:" + "80x" == "1.2.3.4:80x";
    assert !IsDigit("80x"[2]);
  }

  /** A port has at most five digits. */
  lemma RejectsSixDigitPort()
    ensures !IsProxy("1.2.3.4:123456")
  {
    PortDecides("123456");
    assert "1.2.3.4:" + "123456" == "1.2.3.4:123456";
  }

  /** The port is required. */
  lemma RejectsMissingPort()
    ensures !IsProxy("1.2.3.4")
  {
    assert "1.2.3.4" == "1" + ['.'] + "2.3.4";
    GroupOf("1", 3, '.', "2.3.4");
    assert "2.3.4" == "2" + ['.'] + "3.4";
    GroupOf("2", 3, '.', "3.4");
    assert "3.4" == "3" + ['.'] + "4";
    GroupOf("3", 3, '.', "4");
    assert Group("4", 3, ':') == None;
  }

  /** An address group has at most three digits. */
  lemma RejectsFourDigitOctet()
    ensures !IsProxy("1234.1.1.1:80")
  {
    var long := "1234.1.1.1:80";
    DigitsThenStop(long, "1234");
    assert Group(long, 3, '.') == None;
  }
}
