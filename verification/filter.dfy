/**
  `filter_proxies`: each line is stripped, blank lines are skipped, and the
  first whitespace-delimited token of the rest is kept when it matches the
  proxy pattern. Kept tokens appear in the order of their lines.
*/
module Filter {
  import opened Text
  import opened Pattern
  import opened Wrappers

  /** One pass of the loop body: the token `line` contributes, if any. */
  function AcceptLine(line: string): (r: Option<string>)
    ensures AllSpace(line) ==> r == None
    ensures r.Some? ==> IsProxy(r.value) && IsFirstToken(line, r.value)
  {
    var stripped := Strip(line);
    if stripped == [] then None
    else
      var parts := Words(stripped);
      if parts != [] && IsProxy(parts[0]) then
        FirstWordIsFirstToken(stripped);
        StripKeepsFirstToken(line, parts[0]);
        Some(parts[0])
      else None
  }

  /** A line contributes `t` exactly when `t` is its first token and matches the pattern. */
  lemma AcceptLineIff(line: string, t: string)
    ensures AcceptLine(line) == Some(t) <==> IsFirstToken(line, t) && IsProxy(t)
  {
    if IsFirstToken(line, t) && IsProxy(t) {
      var stripped := Strip(line);
      var k: nat :| TokenAt(line, k, t);
      assert !AllSpace(line) by {
        assert line[k] == line[k..k + |t|][0];
      }
      FirstWordIsFirstToken(stripped);
      StripKeepsFirstToken(line, Words(stripped)[0]);
      FirstTokenUnique(line, t, Words(stripped)[0]);
    }
  }

  /** A token that matches the pattern passes through the filter as it is. */
  lemma AcceptProxy(t: string)
    requires IsProxy(t)
    ensures AcceptLine(t) == Some(t)
  {
    ProxyHasNoSpace(t);
    WholeTokenIsFirst(t);
    AcceptLineIff(t, t);
  }

  /**
    The loop shape of `filter_proxies`: visit the items in order and append
    what `f` gives for each, skipping the items it gives nothing for.
  */
  function Choose<T, U>(xs: seq<T>, f: T -> Option<U>): (r: seq<U>)
    ensures |r| <= |xs|
    decreases |xs|
  {
    if xs == [] then []
    else
      match f(xs[0])
      case None => Choose(xs[1..], f)
      case Some(y) => [y] + Choose(xs[1..], f)
  }

  /** `Choose` works item by item: it distributes over concatenation. */
  lemma {:induction false} ChooseConcat<T, U>(a: seq<T>, b: seq<T>, f: T -> Option<U>)
    ensures Choose(a + b, f) == Choose(a, f) + Choose(b, f)
    decreases |a|
  {
    if a == [] {
      assert a + b == b;
    } else {
      assert (a + b)[1..] == a[1..] + b;
      ChooseConcat(a[1..], b, f);
    }
  }

  /** A value is chosen exactly when some item gives it. */
  lemma {:induction false} ChooseMembership<T, U>(xs: seq<T>, f: T -> Option<U>, y: U)
    ensures y in Choose(xs, f) <==> exists i :: 0 <= i < |xs| && f(xs[i]) == Some(y)
    decreases |xs|
  {
    if xs != [] {
      ChooseMembership(xs[1..], f, y);
      if exists i :: 0 <= i < |xs| && f(xs[i]) == Some(y) {
        var i :| 0 <= i < |xs| && f(xs[i]) == Some(y);
        if i > 0 {
          assert xs[1..][i - 1] == xs[i];
        }
      }
      if exists i :: 0 <= i < |xs[1..]| && f(xs[1..][i]) == Some(y) {
        var i :| 0 <= i < |xs[1..]| && f(xs[1..][i]) == Some(y);
        assert xs[i + 1] == xs[1..][i];
      }
    }
  }

  /** The indices, counted from `base`, of the items that give a value, in increasing order. */
  function Origins<T, U>(xs: seq<T>, f: T -> Option<U>, base: nat): seq<nat>
    decreases |xs|
  {
    if xs == [] then []
    else if f(xs[0]).Some? then [base] + Origins(xs[1..], f, base + 1)
    else Origins(xs[1..], f, base + 1)
  }

  /**
    The output is exactly the values of the items that give one, in item
    order: the k-th value comes from item `Origins(xs, f, 0)[k]`, those
    indices increase, and every item that gives a value is among them.
  */
  lemma ChooseKeepsOrder<T, U>(xs: seq<T>, f: T -> Option<U>)
    ensures var o, r := Origins(xs, f, 0), Choose(xs, f);
      && |o| == |r|
      && (forall k :: 0 <= k < |o| ==> o[k] < |xs| && f(xs[o[k]]) == Some(r[k]))
      && (forall k, l :: 0 <= k < l < |o| ==> o[k] < o[l])
      && (forall i :: 0 <= i < |xs| && f(xs[i]).Some? ==> i in o)
  {
    OriginsSound(xs, f, 0);
    OriginsIncreasing(xs, f, 0);
    OriginsComplete(xs, f, 0);
  }

  lemma {:induction false} OriginsSound<T, U>(xs: seq<T>, f: T -> Option<U>, base: nat)
    ensures var o, r := Origins(xs, f, base), Choose(xs, f);
      && |o| == |r|
      && (forall k :: 0 <= k < |o| ==> base <= o[k] < base + |xs| && f(xs[o[k] - base]) == Some(r[k]))
    decreases |xs|
  {
    if xs != [] {
      OriginsSound(xs[1..], f, base + 1);
      var o' := Origins(xs[1..], f, base + 1);
      assert forall k :: 0 <= k < |o'| ==> xs[o'[k] - base] == xs[1..][o'[k] - (base + 1)];
    }
  }

  lemma {:induction false} OriginsIncreasing<T, U>(xs: seq<T>, f: T -> Option<U>, base: nat)
    ensures forall k :: 0 <= k < |Origins(xs, f, base)| ==> base <= Origins(xs, f, base)[k]
    ensures forall k, l :: 0 <= k < l < |Origins(xs, f, base)| ==>
              Origins(xs, f, base)[k] < Origins(xs, f, base)[l]
    decreases |xs|
  {
    if xs != [] {
      OriginsIncreasing(xs[1..], f, base + 1);
      var o, o' := Origins(xs, f, base), Origins(xs[1..], f, base + 1);
      if f(xs[0]).Some? {
        assert o == [base] + o';
        forall k, l | 0 <= k < l < |o| ensures o[k] < o[l] {
          if k > 0 {
            assert o[k] == o'[k - 1] && o[l] == o'[l - 1];
          } else {
            assert o[l] == o'[l - 1];
          }
        }
      }
    }
  }

  lemma {:induction false} OriginsComplete<T, U>(xs: seq<T>, f: T -> Option<U>, base: nat)
    ensures forall i :: 0 <= i < |xs| && f(xs[i]).Some? ==> base + i in Origins(xs, f, base)
    decreases |xs|
  {
    if xs != [] {
      OriginsComplete(xs[1..], f, base + 1);
      forall i | 0 < i < |xs| && f(xs[i]).Some?
        ensures base + i in Origins(xs[1..], f, base + 1)
      {
        assert xs[1..][i - 1] == xs[i];
      }
    }
  }

  /** Choosing again from chosen values that `f` maps to themselves changes nothing. */
  lemma {:induction false} ChooseIdempotent<T>(xs: seq<T>, f: T -> Option<T>)
    requires forall y :: y in Choose(xs, f) ==> f(y) == Some(y)
    ensures Choose(Choose(xs, f), f) == Choose(xs, f)
    decreases |xs|
  {
    if xs != [] {
      var r := Choose(xs, f);
      match f(xs[0])
      case None =>
        ChooseIdempotent(xs[1..], f);
      case Some(y) =>
        assert r[0] == y && r[1..] == Choose(xs[1..], f);
        ChooseIdempotent(xs[1..], f);
    }
  }

  /** Items that `f` maps to themselves pass through `Choose` unchanged. */
  lemma {:induction false} ChooseFixed<T>(xs: seq<T>, f: T -> Option<T>)
    requires forall i :: 0 <= i < |xs| ==> f(xs[i]) == Some(xs[i])
    ensures Choose(xs, f) == xs
    decreases |xs|
  {
    if xs != [] {
      ChooseFixed(xs[1..], f);
      assert xs == [xs[0]] + xs[1..];
    }
  }

  /** `filter_proxies(proxy_lines)` */
  function FilterProxies(lines: seq<string>): (r: seq<string>)
    ensures |r| <= |lines|
    ensures forall t :: t in r <==> exists i :: 0 <= i < |lines| && AcceptLine(lines[i]) == Some(t)
    ensures forall i :: 0 <= i < |r| ==> IsProxy(r[i])
  {
    var r := Choose(lines, AcceptLine);
    assert forall t :: t in r <==> exists i :: 0 <= i < |lines| && AcceptLine(lines[i]) == Some(t) by {
      forall t ensures t in r <==> exists i :: 0 <= i < |lines| && AcceptLine(lines[i]) == Some(t) {
        ChooseMembership(lines, AcceptLine, t);
      }
    }
    assert forall i :: 0 <= i < |r| ==> IsProxy(r[i]) by {
      forall i | 0 <= i < |r| ensures IsProxy(r[i]) {
        assert r[i] in r;
        var j :| 0 <= j < |lines| && AcceptLine(lines[j]) == Some(r[i]);
      }
    }
    r
  }

  /** Filtering works line by line: it distributes over concatenation. */
  lemma FilterConcat(a: seq<string>, b: seq<string>)
    ensures FilterProxies(a + b) == FilterProxies(a) + FilterProxies(b)
  {
    ChooseConcat(a, b, AcceptLine);
  }

  /**
    The output is exactly the tokens of the lines that have one, in line
    order: the k-th output comes from line `Origins(lines, AcceptLine, 0)[k]`,
    those indices increase, and every line with a token is among them.
  */
  lemma FilterKeepsLineOrder(lines: seq<string>)
    ensures var o, r := Origins(lines, AcceptLine, 0), FilterProxies(lines);
      && |o| == |r|
      && (forall k :: 0 <= k < |o| ==> o[k] < |lines| && AcceptLine(lines[o[k]]) == Some(r[k]))
      && (forall k, l :: 0 <= k < l < |o| ==> o[k] < o[l])
      && (forall i :: 0 <= i < |lines| && AcceptLine(lines[i]).Some? ==> i in o)
  {
    ChooseKeepsOrder(lines, AcceptLine);
  }

  /** Filtering its own output changes nothing. */
  lemma FilterIdempotent(lines: seq<string>)
    ensures FilterProxies(FilterProxies(lines)) == FilterProxies(lines)
  {
    var r := FilterProxies(lines);
    forall t | t in r ensures AcceptLine(t) == Some(t) {
      AcceptProxy(t);
    }
    ChooseIdempotent(lines, AcceptLine);
  }

  /** Blank and whitespace-only lines contribute nothing. */
  lemma BlankLinesIgnored(lines: seq<string>, blank: string)
    requires AllSpace(blank)
    ensures FilterProxies(lines + [blank]) == FilterProxies(lines)
    ensures FilterProxies([blank] + lines) == FilterProxies(lines)
  {
    FilterConcat(lines, [blank]);
    FilterConcat([blank], lines);
    assert FilterProxies([blank]) == [];
  }
}
