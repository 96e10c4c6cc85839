/**
  `collect_proxies` and the helpers it calls: the category table, reading
  the URL list, turning one HTTP reply into lines, and the merge of all
  sources' lines into one sorted, duplicate-free list of proxies.

  The network is a parameter: `fetch` gives the `Response` each URL would
  produce. The source directory is a map from file name to file text.
*/
module Collector {
  import opened Text
  import opened Pattern
  import opened Filter
  import opened Order
  import opened Wrappers

  /** The `proxy_files` table: menu key to (URL list file, output file). */
  const ProxyFiles: map<string, (string, string)> := map[
    "1" := ("http.txt", "http_proxies.txt"),
    "2" := ("socks4.txt", "socks4_proxies.txt"),
    "3" := ("socks5.txt", "socks5_proxies.txt")
  ]

  /** Exactly the keys 1, 2 and 3 select a category, and no two share a file. */
  lemma ProxyFilesTable()
    ensures ProxyFiles.Keys == {"1", "2", "3"}
    ensures forall k1, k2 :: k1 in ProxyFiles && k2 in ProxyFiles && k1 != k2 ==>
              ProxyFiles[k1].0 != ProxyFiles[k2].0 && ProxyFiles[k1].1 != ProxyFiles[k2].1
    ensures forall k1, k2 :: k1 in ProxyFiles && k2 in ProxyFiles ==> ProxyFiles[k1].0 != ProxyFiles[k2].1
  {
  }

  /**
    The kept value of one line of the URL file: the line without its
    surrounding whitespace, or nothing when the line is blank.
  */
  function StripNonBlank(line: string): (r: Option<string>)
    ensures r.Some? <==> !AllSpace(line)
    ensures r.Some? ==> r.value != [] && IsStripped(r.value)
    ensures r.Some? ==> exists k :: StrippedAt(line, k, r.value)
  {
    var s := Strip(line);
    if s == [] then None else Some(s)
  }

  /** The URL list of a file: each non-blank line, stripped, in file order. */
  function CleanUrls(lines: seq<string>): (urls: seq<string>)
    ensures |urls| <= |lines|
    ensures forall i :: 0 <= i < |urls| ==> urls[i] != [] && IsStripped(urls[i])
    ensures forall u :: u in urls <==> exists i :: 0 <= i < |lines| && StripNonBlank(lines[i]) == Some(u)
  {
    var urls := Choose(lines, StripNonBlank);
    forall u ensures u in urls <==> exists i :: 0 <= i < |lines| && StripNonBlank(lines[i]) == Some(u) {
      ChooseMembership(lines, StripNonBlank, u);
    }
    forall i | 0 <= i < |urls| ensures urls[i] != [] && IsStripped(urls[i]) {
      assert urls[i] in urls;
      var j :| 0 <= j < |lines| && StripNonBlank(lines[j]) == Some(urls[i]);
    }
    urls
  }

  /** Cleaning an already clean URL list changes nothing. */
  lemma CleanUrlsIdempotent(lines: seq<string>)
    ensures CleanUrls(CleanUrls(lines)) == CleanUrls(lines)
  {
    var urls := CleanUrls(lines);
    forall u | u in urls ensures StripNonBlank(u) == Some(u) {
      var i :| 0 <= i < |urls| && urls[i] == u;
      StripStripped(u);
    }
    ChooseIdempotent(lines, StripNonBlank);
  }

  /** `read_urls_from_file`: the URL list held in the text of a source file. */
  function ReadUrls(text: string): seq<string> {
    CleanUrls(SplitOn(text, '\n'))
  }

  /** A URL file written as lines joined by newlines is read back as those lines, cleaned. */
  lemma ReadUrlsOfLines(lines: seq<string>)
    requires |lines| >= 1
    requires forall i :: 0 <= i < |lines| ==> '\n' !in lines[i]
    ensures ReadUrls(Join(lines, '\n')) == CleanUrls(lines)
  {
    SplitJoin(lines, '\n');
  }

  /** What one GET of a source gives: a reply with its status, or a failure to connect. */
  datatype Response = Reply(status: int, body: string) | ConnectionFailed

  /**
    `fetch_proxy_list` after the request: a 200 reply gives its stripped
    body split at each newline; any other status or a failed connection gives
    no lines.
  */
  function FetchLines(resp: Response): (lines: seq<string>)
    ensures !(resp.Reply? && resp.status == 200) ==> lines == []
    ensures resp.Reply? && resp.status == 200 ==>
              |lines| >= 1 && Join(lines, '\n') == Strip(resp.body)
              && forall i :: 0 <= i < |lines| ==> '\n' !in lines[i]
  {
    match resp
    case Reply(status, body) => if status == 200 then SplitOn(Strip(body), '\n') else []
    case ConnectionFailed => []
  }

  /** A 200 reply whose body is already stripped gives back the lines it was joined from. */
  lemma FetchLinesOfBody(lines: seq<string>)
    requires |lines| >= 1
    requires forall i :: 0 <= i < |lines| ==> '\n' !in lines[i]
    requires IsStripped(Join(lines, '\n'))
    ensures FetchLines(Reply(200, Join(lines, '\n'))) == lines
  {
    StrippedReply(Join(lines, '\n'));
    SplitJoin(lines, '\n');
  }

  lemma StrippedReply(body: string)
    requires IsStripped(body)
    ensures FetchLines(Reply(200, body)) == SplitOn(body, '\n')
  {
    StripStripped(body);
  }

  /** The batches concatenated in order. */
  function Flatten<T(!new)>(batches: seq<seq<T>>): (items: seq<T>)
    ensures forall x :: x in items <==> exists b :: b in batches && x in b
  {
    if batches == [] then []
    else
      var rest := Flatten(batches[1..]);
      forall x, b | b in batches && x in b ensures x in batches[0] + rest {
        if b != batches[0] {
          assert b in batches[1..];
        }
      }
      batches[0] + rest
  }

  /** Choosing from the flattened batches keeps what choosing from some batch keeps. */
  lemma ChooseFlatten<T(!new), U>(batches: seq<seq<T>>, f: T -> Option<U>, y: U)
    ensures y in Choose(Flatten(batches), f) <==> exists b :: b in batches && y in Choose(b, f)
  {
    var flat := Flatten(batches);
    ChooseMembership(flat, f, y);
    if y in Choose(flat, f) {
      var j :| 0 <= j < |flat| && f(flat[j]) == Some(y);
      assert flat[j] in flat;
      var b :| b in batches && flat[j] in b;
      var k :| 0 <= k < |b| && b[k] == flat[j];
      ChooseMembership(b, f, y);
    }
    if exists b :: b in batches && y in Choose(b, f) {
      var b :| b in batches && y in Choose(b, f);
      ChooseMembership(b, f, y);
      var k :| 0 <= k < |b| && f(b[k]) == Some(y);
      assert b[k] in flat;
      var j :| 0 <= j < |flat| && flat[j] == b[k];
    }
  }

  /** A proxy that some batch on its own yields. */
  ghost predicate FromSomeBatch(batches: seq<seq<string>>, x: string) {
    exists b :: b in batches && x in FilterProxies(b)
  }

  /**
    The merge in `collect_proxies`: `sorted(set(filter_proxies(flat)))`.
    The result is strictly increasing, holds only proxies, and holds exactly
    the proxies that some batch yields by itself.
  */
  function Merge(batches: seq<seq<string>>): (r: seq<string>)
    ensures StrictlyIncreasing(r)
    ensures forall i :: 0 <= i < |r| ==> IsProxy(r[i])
    ensures forall x :: x in r <==> FromSomeBatch(batches, x)
  {
    var flat := Flatten(batches);
    var r := SortedSet(FilterProxies(flat));
    forall x ensures x in r <==> FromSomeBatch(batches, x) {
      ChooseFlatten(batches, AcceptLine, x);
    }
    forall i | 0 <= i < |r| ensures IsProxy(r[i]) {
      assert r[i] in FilterProxies(flat);
    }
    r
  }

  /**
    The merge depends only on which non-empty batches occur: not on their
    order, their repetition, or on empty batches.
  */
  lemma MergeSameNonEmptyBatches(b1: seq<seq<string>>, b2: seq<seq<string>>)
    requires forall b :: b != [] ==> (b in b1 <==> b in b2)
    ensures Merge(b1) == Merge(b2)
  {
    forall x ensures FromSomeBatch(b1, x) <==> FromSomeBatch(b2, x) {
      if FromSomeBatch(b1, x) {
        var b :| b in b1 && x in FilterProxies(b);
        assert b != [];
      }
      if FromSomeBatch(b2, x) {
        var b :| b in b2 && x in FilterProxies(b);
        assert b != [];
      }
    }
    SortedSetCanonical(Merge(b1), Merge(b2));
  }

  /** The merge depends only on which batches occur, not on their order or repetition. */
  lemma MergeSameBatches(b1: seq<seq<string>>, b2: seq<seq<string>>)
    requires forall b :: b in b1 <==> b in b2
    ensures Merge(b1) == Merge(b2)
  {
    MergeSameNonEmptyBatches(b1, b2);
  }

  /** Batches arriving in any order give the same result. */
  lemma MergeCommutative(b1: seq<seq<string>>, b2: seq<seq<string>>)
    requires multiset(b1) == multiset(b2)
    ensures Merge(b1) == Merge(b2)
  {
    forall b ensures b in b1 <==> b in b2 {
      assert b in b1 <==> b in multiset(b1);
      assert b in b2 <==> b in multiset(b2);
    }
    MergeSameBatches(b1, b2);
  }

  /** A batch that arrives twice counts once. */
  lemma MergeAbsorbsDuplicate(batches: seq<seq<string>>, b: seq<string>)
    requires b in batches
    ensures Merge(batches + [b]) == Merge(batches)
  {
    MergeSameBatches(batches + [b], batches);
  }

  /** Merging the same batches twice over gives what merging them once gives. */
  lemma MergeIdempotent(batches: seq<seq<string>>)
    ensures Merge(batches + batches) == Merge(batches)
  {
    MergeSameBatches(batches + batches, batches);
  }

  /** A failed source adds an empty batch, which removes and adds nothing. */
  lemma FailedSourceIsolated(before: seq<seq<string>>, after: seq<seq<string>>, resp: Response)
    requires !(resp.Reply? && resp.status == 200)
    ensures Merge(before + [FetchLines(resp)] + after) == Merge(before + after)
  {
    var all := before + [FetchLines(resp)] + after;
    forall b | b != [] ensures b in all <==> b in before + after {
      assert b in all <==> b in before || b == FetchLines(resp) || b in after;
    }
    MergeSameNonEmptyBatches(all, before + after);
  }

  /** Collecting from the saved list alone reproduces that list. */
  lemma MergeOfOwnOutput(batches: seq<seq<string>>)
    ensures Merge([Merge(batches)]) == Merge(batches)
  {
    var r := Merge(batches);
    assert FilterProxies(r) == r by {
      FilterOfProxies(r);
    }
    assert Flatten([r]) == r;
    SortedSetOfSorted(r);
  }

  /** A list of proxies passes the filter unchanged. */
  lemma FilterOfProxies(xs: seq<string>)
    requires forall i :: 0 <= i < |xs| ==> IsProxy(xs[i])
    ensures FilterProxies(xs) == xs
  {
    forall i | 0 <= i < |xs| ensures AcceptLine(xs[i]) == Some(xs[i]) {
      AcceptProxy(xs[i]);
    }
    ChooseFixed(xs, AcceptLine);
  }

  /**
    Fetching every listed URL and gathering the results: one batch per list
    entry, in list order. Every GET of one URL within a run is taken to get
    the same reply.
  */
  function FetchAll(urls: seq<string>, fetch: string -> Response): (batches: seq<seq<string>>)
    ensures |batches| == |urls|
    ensures forall i :: 0 <= i < |urls| ==> batches[i] == FetchLines(fetch(urls[i]))
    ensures forall b :: b in batches <==> exists u :: u in urls && b == FetchLines(fetch(u))
  {
    var batches := seq(|urls|, i requires 0 <= i < |urls| => FetchLines(fetch(urls[i])));
    MapMembership(urls, u => FetchLines(fetch(u)), batches);
    batches
  }

  /** The elements of an element-wise image are the images of the elements. */
  lemma MapMembership<A, B>(xs: seq<A>, g: A -> B, ys: seq<B>)
    requires |ys| == |xs| && forall i :: 0 <= i < |xs| ==> ys[i] == g(xs[i])
    ensures forall y :: y in ys <==> exists x :: x in xs && y == g(x)
  {
    forall y ensures y in ys <==> exists x :: x in xs && y == g(x) {
      if y in ys {
        var i :| 0 <= i < |ys| && ys[i] == y;
        assert xs[i] in xs;
      }
      if x :| x in xs && y == g(x) {
        var i :| 0 <= i < |xs| && xs[i] == x;
        assert ys[i] == y;
      }
    }
  }

  /** Fetching two URL lists one after the other is fetching their concatenation. */
  lemma FetchAllConcat(u1: seq<string>, u2: seq<string>, fetch: string -> Response)
    ensures FetchAll(u1 + u2, fetch) == FetchAll(u1, fetch) + FetchAll(u2, fetch)
  {
    var all, b1, b2 := FetchAll(u1 + u2, fetch), FetchAll(u1, fetch), FetchAll(u2, fetch);
    forall i | 0 <= i < |all| ensures all[i] == (b1 + b2)[i] {
      if i < |u1| {
        assert (u1 + u2)[i] == u1[i];
      } else {
        assert (u1 + u2)[i] == u2[i - |u1|];
      }
    }
  }

  /**
    Reordering the URL list does not change the result; nor does listing a
    URL more than once, since every GET of one URL gets the same reply.
  */
  lemma UrlOrderIrrelevant(u1: seq<string>, u2: seq<string>, fetch: string -> Response)
    requires forall u :: u in u1 <==> u in u2
    ensures Merge(FetchAll(u1, fetch)) == Merge(FetchAll(u2, fetch))
  {
    var b1, b2 := FetchAll(u1, fetch), FetchAll(u2, fetch);
    forall b ensures b in b1 <==> b in b2 {
      if b in b1 {
        var u :| u in u1 && b == FetchLines(fetch(u));
        assert u in u2;
      }
      if b in b2 {
        var u :| u in u2 && b == FetchLines(fetch(u));
        assert u in u1;
      }
    }
    MergeSameBatches(b1, b2);
  }

  /** A proxy is merged exactly when the lines of some listed URL yield it. */
  lemma FetchedMembership(urls: seq<string>, fetch: string -> Response, x: string)
    ensures x in Merge(FetchAll(urls, fetch)) <==>
              exists u :: u in urls && x in FilterProxies(FetchLines(fetch(u)))
  {
    SomeFetched(urls, fetch, b => x in FilterProxies(b));
  }

  /** Some fetched batch has property `p` exactly when the batch of some listed URL has it. */
  lemma SomeFetched(urls: seq<string>, fetch: string -> Response, p: seq<string> -> bool)
    ensures (exists b :: b in FetchAll(urls, fetch) && p(b)) <==>
            (exists u :: u in urls && p(FetchLines(fetch(u))))
  {
    var batches := FetchAll(urls, fetch);
    if exists b :: b in batches && p(b) {
      var b :| b in batches && p(b);
      var i :| 0 <= i < |batches| && batches[i] == b;
      assert urls[i] in urls;
    }
    if exists u :: u in urls && p(FetchLines(fetch(u))) {
      var u :| u in urls && p(FetchLines(fetch(u)));
      var i :| 0 <= i < |urls| && urls[i] == u;
      assert batches[i] in batches;
    }
  }

  /** Counters the run prints: sources, raw lines, lines that passed, unique proxies. */
  datatype Counts = Counts(sources: nat, lines: nat, filtered: nat, unique: nat)

  /** What one call of `collect_proxies` ends with. */
  datatype Outcome =
    | InvalidChoice
    | SourcesMissing(file: string)
    | Saved(file: string, proxies: seq<string>, counts: Counts)

  /**
    `collect_proxies(proxy_type, ...)`: an unknown key stops before anything
    is read; a missing URL file stops before anything is fetched; otherwise
    every URL is fetched, the lines are merged, and the result is what is
    written to the category's output file.
  */
  function CollectProxies(key: string, sourceDir: map<string, string>, fetch: string -> Response)
    : (out: Outcome)
    ensures out.InvalidChoice? <==> key !in ProxyFiles
    ensures out.SourcesMissing? <==> key in ProxyFiles && ProxyFiles[key].0 !in sourceDir
    ensures out.Saved? ==>
              && key in ProxyFiles && ProxyFiles[key].0 in sourceDir
              && out.file == ProxyFiles[key].1
              && StrictlyIncreasing(out.proxies)
              && (forall i :: 0 <= i < |out.proxies| ==> IsProxy(out.proxies[i]))
              && (forall x :: x in out.proxies <==>
                    exists u :: u in ReadUrls(sourceDir[ProxyFiles[key].0])
                                && x in FilterProxies(FetchLines(fetch(u))))
              && out.counts.sources == |ReadUrls(sourceDir[ProxyFiles[key].0])|
              && out.counts.unique == |out.proxies|
              && out.counts.unique <= out.counts.filtered <= out.counts.lines
  {
    if key !in ProxyFiles then InvalidChoice
    else
      var (urlsFile, proxiesFile) := ProxyFiles[key];
      if urlsFile !in sourceDir then SourcesMissing(urlsFile)
      else
        var urls := ReadUrls(sourceDir[urlsFile]);
        var batches := FetchAll(urls, fetch);
        var flat := Flatten(batches);
        var filtered := FilterProxies(flat);
        var unique := SortedSet(filtered);
        assert unique == Merge(batches);
        assert forall x :: x in unique <==> exists u :: u in urls && x in FilterProxies(FetchLines(fetch(u))) by {
          forall x ensures x in unique <==> exists u :: u in urls && x in FilterProxies(FetchLines(fetch(u))) {
            FetchedMembership(urls, fetch, x);
          }
        }
        Saved(proxiesFile, unique, Counts(|urls|, |flat|, |filtered|, |unique|))
  }
}
