# Namespace-enforcing Prometheus proxy — Dafny model

This project models the request handling of a small HTTP proxy that sits in front of a
Prometheus server on OpenShift. A caller arrives with a forwarded bearer token. The proxy
lists the caller's projects (namespaces) and builds the label matcher
`namespace=~"ns1|ns2|…"`. It then serves two paths:

- `/federate` rewrites every `match[]` selector so that it carries that matcher, and relays
  the upstream federation reply;
- `/jobs` asks upstream for `count({<matcher>}) by (job)` and answers with one quoted job
  label per line, sorted.

It also models the proxy's start-up configuration: the `UPSTREAM` URL, the `SSL_VERIFY`
mode and the service-account token.

Modules, one per concern of `app.py`:

- `Wrappers` (`wrappers.dfy`): `Option` and `Result`.
- `Strings` (`strings.dfy`): `str.join`, `str.split` and `str.partition` on a single separator character.
- `Selector` (`selector.dfy`): the full match of a `match[]` argument against the pattern
  `([a-zA-Z_:][a-zA-Z0-9_:]*)?({.*})?`, written as `Parse`. It is proved equal to the
  pattern's full-match relation (`FullMatch`). It also holds the splice of the namespace
  matcher into the label block.
- `Jobs` (`jobs.dfy`): Python's string order, the `/jobs` line format, and `list.sort()` as
  an in-place insertion sort on an array. That sort is proved sorted, a permutation of its
  input, and equal to the reference order `SortedLines`.
- `Config` (`config.dfy`): `ProxyConfig`'s handling of its environment and of the
  `authorization` value.
- `Proxy` (`proxy.dfy`): the `do_GET` dispatch (`Route`) and the `get_federate` loop, which
  overwrites `match[]` entries in place in an array (`RewriteMatchArgs`). It also holds
  `get_jobs` and the whole handler (`DoGet`). Each is specified by a function (`Federation`,
  `JobList`, `Handle`) that gives the responses written and the upstream queries made.

Inputs that come from outside are parameters:

- the project listing (`ProjectList`: the names, or the API error);
- the parsed request (path, the query-string map, and the `X-Forwarded-User` and
  `Content-Type` headers);
- upstream Prometheus, as a function from `Query` to `Reply`. A `Reply` holds the status, the
  raw content and, for an instant query, the `job` label of each result.

Everything the handler writes is a sequence of `Response` values, in the order it writes them.

Behaviour of the handler worth knowing:

- An argument that fails the selector pattern is not rejected as a whole request. A 400
  naming the argument is written and the loop continues. The argument stays unchanged in
  the list, and the list is still forwarded upstream (`InvalidArgStillForwarded`).
- Only status 200 from upstream counts as success. Every other status, other 2xx codes
  included, is mirrored with upstream's content and a `text/plain` content type.
- `/jobs` sorts the formatted lines `'<job>'\n`, not the bare labels. The two orders agree
  when no label contains a character below the quote (`FormattedOrderIsLabelOrder`), and
  differ otherwise (`FormattedOrderDiffersFromLabelOrder`).
- When the project listing fails, for a missing or rejected bearer token among other
  causes, the handler passes on the API's status, body and content type (`ApiErrorPassedOn`).

## Model

| member | source | states |
|---|---|---|
| `Strings.Partition` | app.py:48 | `partition(' ')`: found iff the text has a space; then text = before + space + after with no space before; else before = text, after = `''` |
| `Strings.Join` | app.py:86 | `'\|'.join(names)`: a single name is the result; with more, the result starts with the first name followed by the separator |
| `Strings.SplitJoin` | app.py:86 | joining names that contain no `\|` with `\|` is undone by splitting on `\|` |
| `Strings.JoinExcludes` | app.py:86 | a character that is in no name and is not the separator is not in the joined text |
| `Selector.NameEnd` | app.py:53 | the name group's run of `[a-zA-Z0-9_:]` characters ends at the first other character |
| `Selector.Parse` | app.py:106-112 | a successful match yields a name (empty or a metric name) and an optional brace block, which together give back the argument |
| `Selector.ParseIsFullMatch` | app.py:53 | `Parse` succeeds exactly when some split of the argument matches both optional groups of the pattern in full (`.` excluding newline) |
| `Selector.ParseText` | app.py:111-112 | the split into name and block is unique: parsing the text of a well-formed selector returns that selector |
| `Selector.RewriteSplicesIntoBlock` | app.py:113-114 | a matching argument whose block is not `{}` becomes the argument minus its last character, then `,` + matcher + `}` |
| `Selector.RewriteWrapsName` | app.py:113-116 | a matching argument with no block, or with `{}`, becomes its name (possibly empty) + `{` + matcher + `}` |
| `Selector.Rewrite` | app.py:111-116 | the new text starts with the metric name; for a well-formed selector a label block follows that ends with the matcher right after `{` or `,` |
| `Selector.RewriteArg` | app.py:105-116 | one loop iteration: an argument that fails the match is kept, a matching one becomes its name followed by a label block ending with the matcher |
| `Selector.EmptyArgGetsBareBlock` | app.py:111-116 | the empty argument matches and becomes `{<matcher>}` |
| `Selector.InvalidArgUnchanged` | app.py:106-110 | an argument that fails the full match is left as it was |
| `Selector.InvalidExamples` | app.py:53 | `1up` (leading digit) and `up{a="b"}x` (text after the brace) fail the match and stay unchanged |
| `Selector.RewriteIsSelector` | app.py:111-116 | for a matcher without newlines, a rewritten argument matches the pattern again, with the same metric name, and its block closes with the matcher right after `{` or `,` |
| `Jobs.LexLeTransitive` | app.py:140 | Python's string order is transitive (with `LexLeTotal`, `LexLeAntisymmetric`: a total order) |
| `Jobs.FormatJob` | app.py:139 | the line is a quote, the label (`''` when absent), a quote and a newline, so the label can be read back from it |
| `Jobs.FormatJobRecoversLabel` | app.py:139 | two results give the same line exactly when their labels, with a missing one read as `''`, are equal; a missing and an empty label are indistinguishable |
| `Jobs.FormatAll` | app.py:139 | one line per query result, in result order, each `'` + label (or `''` when absent) + `'\n` |
| `Jobs.Concat` | app.py:145 | `''.join(jobs)`: the body starts with the first line |
| `Jobs.SortedLines` | app.py:140 | the reference order of the lines: ascending and a permutation of the formatted lines |
| `Jobs.InsertLast` | app.py:140 | one insertion step in place: the prefix up to the new line is sorted, the array holds the same lines, the rest is untouched |
| `Jobs.SortInPlace` | app.py:140 | `jobs.sort()` in place: the array ends ascending and a permutation of what it held |
| `Jobs.SortedPermutationUnique` | app.py:140 | two ascending arrangements of the same lines are equal, so the sorted body is determined by the results |
| `Jobs.RenderJobs` | app.py:139-145 | the `/jobs` body is the concatenation of the formatted lines in ascending order |
| `Jobs.JobsBodyLineCount` | app.py:139-145 | when no label holds a newline, the body has exactly one line per query result |
| `Jobs.FormattedOrderIsLabelOrder` | app.py:139-140 | for labels with no character below `'`, formatted lines compare as their labels do |
| `Jobs.FormattedOrderDiffersFromLabelOrder` | app.py:139-140 | label `a b` sorts before label `a` once formatted, though `a` < `a b` |
| `Jobs.JobsExample` | app.py:139-145 | results labelled `b`, `a` and unlabelled give the body `''\n'a'\n'b'\n` |
| `Config.SslVerifyModes` | app.py:31-40 | unset means verify; a set value is read ignoring case: `true` verifies, `false` does not, `service` uses the service CA bundle path, anything else is rejected |
| `Config.SslVerifyIgnoresCase` | app.py:31 | the mode depends only on the lower-cased value |
| `Config.Lower` | app.py:31 | `.lower()` on ASCII: same length, no upper-case ASCII letter left, each upper-case letter mapped to its lower-case counterpart, every other character kept |
| `Config.ParseSslVerify` | app.py:31-40 | unset means verify; `service` selects the service CA bundle path; every rejection carries the message as the program prints it |
| `Config.InvalidSslVerifyMessageNamesValue` | app.py:39 | corrected: the intended message determines the rejected value |
| `Config.AsWrittenMessageOmitsValue` | app.py:39 | as written, every rejected value gets one and the same message, and it is the intended message only for the value that reads `{self.ssl_verify}` |
| `Config.ServiceAccountToken` | app.py:48 | the token is what follows the first space of the authorization value, or `''` when it has none |
| `Config.TokenRoundTrip` | app.py:48 | the token is recovered from `Bearer <token>` whatever it contains |
| `Config.LoadConfig` | app.py:26-48 | succeeds exactly when `UPSTREAM` is set and non-empty and `SSL_VERIFY` is unset or one of the three words in any case; a missing upstream fails with its message, a rejected mode with the literal message of line 39; on success the upstream is recorded as given, the mode matches the word, and the token is the text after the first space of the `authorization` value (`''` without a space) |
| `Proxy.NamespaceSelectorLists` | app.py:86 | the matcher is `namespace=~"` + names joined by `\|` + `"`, and the names can be read back from it |
| `Proxy.NamespaceSelector` | app.py:86 | the matcher starts with `namespace=~"` and ends with `"`, and holds no newline when no name does |
| `Proxy.NoNamespacesForbidden` | app.py:82-84 | with no projects the decision is 403 naming `X-Forwarded-User` (or `<unknown>`), the same for every path and query |
| `Proxy.NoNamespacesMessage` | app.py:83 | the 403 text starts `Account '`, quotes the forwarded user (or `<unknown>`) right after, and ends with a newline |
| `Proxy.RouteByPath` | app.py:86-97 | with projects, `/federate` and `/jobs` go to their handlers with that matcher, any other path gets 404, and nothing else is sent |
| `Proxy.ApiErrorPassedOn` | app.py:77-80 | a failed project listing is answered with the API's status and body, and with the content type the API named, `text/plain` when it named none |
| `Proxy.Route` | app.py:77-97 | a response is sent directly exactly on an API error, no projects, or an unknown path (403 and 404 respectively for the last two); otherwise `/federate` or `/jobs` is served with the matcher of the caller's projects |
| `Proxy.RewriteAll` | app.py:105-116 | the rewritten list has the same length, and each index holds the rewrite of its own argument |
| `Proxy.InvalidArgErrorsExact` | app.py:106-109 | the loop writes only 400s, and none exactly when every argument matches |
| `Proxy.FailingIndices` | app.py:105-110 | the indices of the arguments that fail the match, all within range |
| `Proxy.FailingIndicesExact` | app.py:105-110 | `FailingIndices` holds exactly the indices of the arguments that fail the full match, strictly ascending |
| `Proxy.InvalidArgErrors` | app.py:105-109 | one 400 per failing argument: the k-th response is `Error(400, …)` quoting the k-th failing argument, in index order |
| `Proxy.InvalidSelectorMessage` | app.py:108 | the 400 text quotes the whole argument between a fixed prefix and `'!` |
| `Proxy.Relay` | app.py:121-129 | the client gets upstream's status and content; the content type is `text/plain` on an error and the request's `Content-Type` (default `text/plain`) on 200 |
| `Proxy.Federation` | app.py:99-129 | at most one query, and none exactly when `match[]` is missing or empty (then only the 400); otherwise the query keeps the parameter names, the loop's 400s come first and the relayed upstream reply last |
| `Proxy.JobList` | app.py:131-145 | exactly the `count({<matcher>}) by (job)` query and one response carrying upstream's status; any status but 200 is sent as an error with upstream's content, 200 with the request's content type |
| `Proxy.Handle` | app.py:68-97 | at most one upstream query, only for a caller with at least one project on `/federate` or `/jobs`; something is always written (when upstream answers) |
| `Proxy.RewriteMatchArgs` | app.py:105-116 | the loop overwrites the array in place with `RewriteAll` of its old contents and writes one 400 per non-matching argument, in order |
| `Proxy.RewriteAt` | app.py:106-116 | one iteration in place: only entry `i` changes, to its rewrite; the 400 quoting it is returned exactly when it fails the match |
| `Proxy.GetFederate` | app.py:99-129 | `get_federate` writes and asks exactly what `Federation` gives |
| `Proxy.GetJobs` | app.py:131-145 | `get_jobs` writes and asks exactly what `JobList` gives |
| `Proxy.DoGet` | app.py:68-97 | `do_GET` writes and asks exactly what `Handle` gives |
| `Proxy.EmptyProjectsForbidden` | app.py:82-84 | a caller without projects gets only the 403, and upstream is never asked |
| `Proxy.UnknownPathNotFound` | app.py:94-97 | other paths get 404 `Not found` and no upstream query |
| `Proxy.MissingMatchRejected` | app.py:100-104 | `/federate` with no or an empty `match[]` gets 400 `Missing match[] parameter` and no upstream query |
| `Proxy.FederateForwardsConfinedArgs` | app.py:105-120 | one query is forwarded. Other parameters are unchanged. `match[]` keeps its length and order. Matching arguments are confined by the matcher under their own name, and other arguments are forwarded as they came. The client gets one 400 per non-matching argument, then the relayed reply |
| `Proxy.InvalidArgStillForwarded` | app.py:106-110 | `match[]=1up` gets a 400, yet `1up` reaches upstream without the namespace matcher |
| `Proxy.FederateExample` | app.py:86-116 | project `team-a` and `match[]=up` forward `up{namespace=~"team-a"}` |
| `Proxy.JobsQueryConfined` | app.py:131-145 | `/jobs` asks only `count({<matcher>}) by (job)`, and answers with one response: the mirrored error, or 200 with the sorted lines |
| `Proxy.JobsQuery` | app.py:132 | the instant query is `count({` + matcher + `}) by (job)`, with the matcher read back from between the fixed parts |
| `Proxy.UpstreamStatusMirrored` | app.py:121-123 | a status other than 200 from upstream reaches the client as that status with upstream's content |

## Left out

- The HTTP server, its threads and the writing of status lines, headers and bodies are
  modelled only as the sequence of `Response` values written. Chunked streaming of the
  federation body is one body.
- Building the Kubernetes and OpenShift clients and listing projects are calls into
  libraries. Their result, or their `ApiException` status, body and content type, is a
  `ProjectList` input. The bearer-token header itself is therefore not modelled.
- The `requests` calls to upstream are a function parameter `Query -> Reply`. `json.loads`
  and the reading of `data.result[*].metric.job` are replaced by the `jobLabels` field.
  Malformed JSON, which raises inside the handler, is not modelled.
- Proxy.Handle, Proxy.Federation, Proxy.JobList: the upstream function always answers. The
  calls at app.py:120 and app.py:133 run outside any `try` and without a timeout, so a
  connection error ends `do_GET` with an exception and a stalled upstream blocks the thread.
  Neither is modelled. "Something is always written" and "the relayed reply comes last" hold
  only when upstream answers: with upstream unreachable, `/federate` writes only the loop's
  400s and `/jobs` writes nothing.
- `urlparse`, `parse_qs` and `urlencode` are library code. The request arrives as a path and
  a parameter map. The blank-value dropping of `parse_qs` and the encoding of the forwarded
  query are not modelled.
- The namespace set is a sequence in the set's iteration order. Python's set order is not
  modelled.
- `Config.Lower` lower-cases ASCII letters only. Python's `str.lower()` also maps other
  letters. This changes no accepted `SSL_VERIFY` value, and the rejection message does not
  depend on the value.
- Loading the cluster configuration (`KUBERNETES_PORT`, in-cluster or kube config) is
  library code. The `authorization` value is an input, and a missing key is not modelled.
- app.py:63 stores each caller's token in the one client configuration object that all
  request threads share. A concurrent request can replace it between that line and the
  project listing at line 75, so a listing may run with another caller's token. The model
  handles one request at a time and does not capture this interleaving.
- Access logging (`log_message`), the `print(url.path)` of an unknown path (app.py:95) and
  the `traceback.print_exc()` of a failed listing (app.py:78) write only to the server's
  own output and are not modelled.
- PromQL semantics are not modelled. The model proves where the matcher lands in the
  rewritten text (`Selector.ConfinedBy`), not which series the selector matches. A block
  such as `{a="}` ends inside an open quoted string, so the appended matcher lands inside
  that string.
- `sys.exit(1)` on a bad configuration is the `Err` result of `LoadConfig`.

## Findings

| source | as written | input that shows it | evidently intended | confidence | as-written member | corrected member |
|---|---|---|---|---|---|---|
| app.py:39 | the rejection message for `SSL_VERIFY` is a plain string literal, not an f-string, so it prints the braces text literally and does not name the value | `SSL_VERIFY=yes` | the message names the rejected (lower-cased) value | high; not executed | `Config.AsWrittenMessageOmitsValue` | `Config.InvalidSslVerifyMessageNamesValue` |
