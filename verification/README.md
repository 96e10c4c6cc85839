# Proxy collector core, in Dafny

This project models the core of `main.py` of the proxy collector.

For one category (HTTP, SOCKS4 or SOCKS5), the collector does the following:

- reads a list of source URLs from a text file;
- downloads every source concurrently;
- keeps, from every line it receives, the first whitespace-delimited token when that token has the shape `^\d{1,3}\.\d{1,3}\.\d{1,3}\.\d{1,3}:\d{1,5}$`;
- writes the distinct tokens in ascending string order to the category's output file.

The model is split into modules:

- `Text` covers the Python string primitives involved: `str.strip()`, `str.split()` and `str.split('\n')`.
- `Pattern` covers the proxy pattern. It is a parser whose reference definition is an `Endpoint` of five digit groups rendered as `a.b.c.d:port`.
- `Filter` covers `filter_proxies`, built on `Choose`, a generic "map and keep the present values" loop.
- `Order` covers Python string order and `sorted(set(...))`.
- `Collector` covers the following:
  - the category table;
  - reading the URL list;
  - turning one HTTP reply into lines;
  - the merge of all sources;
  - `collect_proxies` itself.

The network is a parameter, `fetch: string -> Response`. A `Response` is either a reply with a status and a decoded body, or a failed connection. The source directory is a map from file name to file text. The outcome of `collect_proxies` is a value:

- `InvalidChoice` for an unknown key;
- `SourcesMissing` when the URL file is absent;
- `Saved` with the output file name, the list that would be written and the counters the run prints.

The code keeps no count of failed sources and has no error value. On an unknown key or a missing URL file it prints a message and returns. It prints four counters: sources, raw lines, lines that passed the filter, and unique proxies.

## Model

| member | source | states |
|---|---|---|
| Text.Strip | main.py:105 | The result has no leading or trailing whitespace. It is empty exactly when the input is all whitespace. Otherwise it is a contiguous slice of the input with only whitespace around it. |
| Text.StrippedAtUnique | main.py:105 | A string has at most one non-empty stripped slice with only whitespace around it. |
| Text.StripUnique | main.py:105 | Any non-empty stripped slice with only whitespace around it is the result of `Strip`, so the contract of `Strip` determines it. |
| Text.TrimLeftBlank | main.py:105-107 | Removing leading whitespace leaves nothing exactly when the string is all whitespace. |
| Text.StripStripped | main.py:80 | Stripping an already stripped string changes nothing. |
| Text.Words | main.py:109 | `str.split()` yields non-empty words without whitespace, and yields none exactly when the string is all whitespace. |
| Text.FirstWordIsFirstToken | main.py:109-111 | For a string that is not all whitespace, `parts[0]` is the first token: only whitespace before it, and whitespace or the end after it. |
| Text.FirstTokenUnique | main.py:109-111 | A string has at most one first token, so the token the filter keeps is determined by the line alone. |
| Text.StripKeepsFirstToken | main.py:105-111 | The first token of `line.strip()` is the first token of `line`. |
| Text.WholeTokenIsFirst | main.py:111 | A non-empty string without whitespace is its own first token. |
| Text.SplitOn | main.py:93 | `str.split('\n')` returns at least one piece. No piece contains a newline. Joining the pieces with newlines gives the input back. |
| Text.SplitJoin | main.py:93 | Splitting at newlines undoes joining with newlines, for pieces that hold no newline. |
| Pattern.Group | main.py:102 | A `\d{1,n}` group followed by its separator: when found, the group is 1 to n digits and the input is the group, the separator and the rest. |
| Pattern.GroupOf | main.py:102 | A digit group of at most n digits followed by its separator is always read as exactly that group. |
| Pattern.PortGroup | main.py:102 | The anchored last group `\d{1,5}$` accepts exactly a run of 1 to 5 digits with nothing after it, for the whitespace-free text it is given. |
| Pattern.Parse | main.py:102 | Any parsed endpoint is well formed (four groups of 1-3 digits and a port of 1-5 digits) and renders back to the token. |
| Pattern.ParseRender | main.py:102 | Parsing the text of a well-formed endpoint gives that endpoint back (round trip). |
| Pattern.IsProxyIff | main.py:102 | A token matches exactly when it is the text of some well-formed endpoint. |
| Pattern.ProxyHasNoSpace | main.py:102 | A matching token is non-empty and holds no whitespace, since it holds only digits, `.` and `:`. |
| Pattern.ParseAfterAddress | main.py:102 | Once four address groups have been read, the match succeeds exactly when what is left is 1-5 digits. |
| Pattern.PortDecides | main.py:102 | `1.2.3.4:` followed by `p` matches exactly when `p` is 1-5 digits. |
| Pattern.AcceptsOutOfRangeValues | main.py:102 | `999.999.999.999:99999` matches: only digit counts are checked, never numeric ranges. |
| Pattern.AcceptsPlainEndpoint | main.py:102 | `1.2.3.4:80` matches. |
| Pattern.RejectsTrailingGarbage | main.py:102 | `1.2.3.4:80x` does not match: the pattern is anchored at the end. |
| Pattern.RejectsSixDigitPort | main.py:102 | `1.2.3.4:123456` does not match. |
| Pattern.RejectsMissingPort | main.py:102 | `1.2.3.4` does not match: the port is required. |
| Pattern.RejectsFourDigitOctet | main.py:102 | `1234.1.1.1:80` does not match. |
| Filter.AcceptLine | main.py:104-113 | A blank or whitespace-only line contributes nothing. A kept token matches the pattern and is the line's first token. |
| Filter.AcceptLineIff | main.py:104-113 | A line contributes `t` exactly when `t` is its first token and `t` matches the pattern. |
| Filter.AcceptProxy | main.py:104-113 | A token that matches the pattern is kept unchanged from a line holding only it. |
| Filter.Choose | main.py:103-114 | The accumulate-and-append loop yields no more values than items. |
| Filter.ChooseConcat | main.py:103-114 | The loop over `a + b` yields the loop over `a` followed by the loop over `b`. |
| Filter.ChooseMembership | main.py:103-114 | A value is appended exactly when some item gives it. |
| Filter.ChooseKeepsOrder | main.py:103-114 | The k-th value comes from item `o[k]`, the indices `o[k]` increase, and every item that gives a value is among them. |
| Filter.ChooseIdempotent | main.py:103-114 | Running the loop on its own output changes nothing when the kept values map to themselves. |
| Filter.ChooseFixed | main.py:103-114 | Items that map to themselves pass through the loop unchanged. |
| Filter.FilterProxies | main.py:101-114 | The output is no longer than the input. It holds exactly the tokens that some line contributes. Each of them matches the pattern. |
| Filter.FilterConcat | main.py:101-114 | Filtering works line by line: the filter of `a + b` is the filter of `a` followed by the filter of `b`. |
| Filter.FilterKeepsLineOrder | main.py:101-114 | Output tokens appear in the order of the lines they come from, one per contributing line, and every contributing line is represented. |
| Filter.FilterIdempotent | main.py:101-114 | Filtering the filter's output changes nothing. |
| Filter.BlankLinesIgnored | main.py:105-107 | Adding a blank or whitespace-only line before or after the input does not change the output. |
| Order.LessIrreflexive | main.py:151 | No string sorts before itself. |
| Order.LessTransitive | main.py:151 | String order is transitive. |
| Order.LessTotal | main.py:151 | Two different strings are ordered one way or the other. |
| Order.LessAsymmetric | main.py:151 | String order is asymmetric. |
| Order.NoDuplicates | main.py:151 | A strictly increasing list has no repeated element. |
| Order.Insert | main.py:151 | Adding one string to a strictly increasing list keeps it strictly increasing and adds exactly that string. |
| Order.SortedSet | main.py:151 | `sorted(set(xs))` is strictly increasing, holds exactly the elements of `xs`, and is no longer than `xs`. |
| Order.SortedSetCanonical | main.py:151 | Two strictly increasing lists with the same elements are equal. |
| Order.SortedSetOfSameElements | main.py:151 | `sorted(set(xs))` depends only on the set of elements of `xs`. |
| Order.SortedSetOfSorted | main.py:151 | A strictly increasing list is its own `sorted(set(...))`. |
| Order.SortedSetLength | main.py:151-152 | The length of `sorted(set(xs))` is the number of distinct elements of `xs`. |
| Collector.ProxyFilesTable | main.py:117-121 | Exactly the keys `1`, `2` and `3` select a category. No two categories share a URL file or an output file, and no output file is a URL file. |
| Collector.StripNonBlank | main.py:80 | A line of the URL file is kept exactly when it is not all whitespace. The kept value is non-empty and stripped, and it is a slice of the line with only whitespace around it, which with `Text.StripUnique` makes it the line's `strip()`. |
| Collector.CleanUrls | main.py:80 | Every URL read is stripped and non-empty. A URL is read exactly when some line strips to it. |
| Collector.CleanUrlsIdempotent | main.py:80 | Cleaning an already cleaned URL list changes nothing. |
| Collector.ReadUrlsOfLines | main.py:78-80 | A URL file made of lines joined by newlines is read back as those lines, cleaned. |
| Collector.FetchLines | main.py:87-99 | Any status other than 200, or a failed connection, gives no lines. A 200 reply gives at least one line. No line holds a newline, and joining the lines with newlines gives the stripped body. |
| Collector.FetchLinesOfBody | main.py:90-93 | A 200 reply whose body is stripped lines joined by newlines gives back exactly those lines. |
| Collector.Flatten | main.py:145 | An item is in the flat list exactly when it is in some batch. |
| Collector.ChooseFlatten | main.py:145-148 | Filtering the flat list yields a value exactly when filtering some single batch yields it. |
| Collector.Merge | main.py:145-151 | The merged list is strictly increasing and holds only matching tokens. It holds exactly the proxies that some batch yields on its own. |
| Collector.MergeSameNonEmptyBatches | main.py:145-151 | The merge depends only on which non-empty batches occur. |
| Collector.MergeSameBatches | main.py:145-151 | The merge depends only on which batches occur. |
| Collector.MergeCommutative | main.py:141-151 | Batches arriving in any order give the same merged list. |
| Collector.MergeAbsorbsDuplicate | main.py:145-151 | A batch that occurs twice counts once. |
| Collector.MergeIdempotent | main.py:145-151 | Merging every batch twice gives what merging each once gives. |
| Collector.FailedSourceIsolated | main.py:94-99 | A source that fails, or answers with a status other than 200, neither removes nor adds anything to what the other sources give. |
| Collector.MergeOfOwnOutput | main.py:145-151 | Collecting from the saved list alone reproduces that list. |
| Collector.FilterOfProxies | main.py:101-114 | A list of matching tokens passes the filter unchanged. |
| Collector.FetchAll | main.py:139-142 | There is one batch per list entry, in list order. A batch occurs exactly when some listed URL's reply gives it. |
| Collector.FetchAllConcat | main.py:139-142 | Fetching two URL lists one after the other gives the batches of fetching their concatenation. |
| Collector.UrlOrderIrrelevant | main.py:134-151 | Reordering the URL list does not change the result. Listing a URL more than once does not change it either, given that every GET of one URL in a run gets the same reply. |
| Collector.FetchedMembership | main.py:139-151 | A proxy is in the result exactly when the lines of some listed URL yield it. |
| Collector.SomeFetched | main.py:139-142 | Some fetched batch has a property exactly when the batch of some listed URL has it. |
| Collector.CollectProxies | main.py:116-156 | An unknown key gives `InvalidChoice`, and only an unknown key does. A known key whose URL file is missing gives `SourcesMissing`, and only such a key does. Otherwise the result is written to the category's output file. That result is strictly increasing and holds only matching tokens, exactly those that some listed URL yields. The counters satisfy sources = number of URLs, unique = length of the result, and unique ≤ filtered ≤ lines. |

## Left out

- HTTP itself (`aiohttp`, the session, the 30-second timeout, exceptions while reading) is the `fetch` parameter. A timeout or any exception is the `ConnectionFailed` response.
- Decoding the body with `errors='ignore'` is left out: a `Reply` body is the already decoded text.
- `asyncio.gather` concurrency is left out. The model keeps the batches in list order, which is what `gather` returns. The merge is proved independent of batch order.
- Collector.FetchAll: the network is a function of the URL, so every GET of one URL in a run is taken to get the same reply. The code issues one GET per list entry, and a URL listed twice can get two different replies (one timing out, one succeeding).
- Collector.UrlOrderIrrelevant: the part about a URL listed more than once holds only under the one-reply-per-URL assumption of `Collector.FetchAll`. With two different replies to the same URL, the code's result can differ.
- Pattern.IsProxy: Python's `$` also matches just before a final newline, so the regex accepts a token such as `1.2.3.4:80` followed by a newline, and the model does not. This never matters in `filter_proxies`, whose tokens come from `str.split()` and hold no whitespace.
- The diagnostic messages (`green_print`, console colours, the window title, the banner) are left out. They do not affect any result.
- File I/O is left out: `os.path.exists`, `os.makedirs`, opening and writing files, and `save_proxies_to_file`. The source directory is a map from file name to text. The `Saved` outcome carries what would be written and the output file name.
- An existing URL file that cannot be read raises an exception in the code. The model has no such state.
- The menu loop, `create_url_file` and the default URL lists are left out. They are presentation and setup around the core.
- Text.IsSpace and Text.IsDigit cover ASCII only. Python's `str.isspace`/`str.split()` and the regex's `\d` also accept non-ASCII Unicode whitespace and digits.
- Collector.ReadUrls splits the file text at `\n` only. Python's universal-newline reading also ends a line at a lone `\r`; a `\r\n` ending is still handled, because stripping removes the `\r`.
- Collector.CollectProxies states the `lines` and `filtered` counters only through their order, not as sums over batches.
