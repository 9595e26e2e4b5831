/**
 * The request handler of the proxy: the caller's projects become a namespace
 * matcher; `/federate` rewrites every `match[]` selector to carry it and relays
 * the upstream federation reply; `/jobs` asks upstream for the jobs seen in those
 * namespaces and lists them. Everything the handler writes back is a sequence of
 * responses, and everything it asks of upstream is a sequence of queries.
 */
module Proxy {
  import opened Wrappers
  import Strings
  import Selector
  import Jobs

  /** One response written to the client: status line, `Content-Type` and body. */
  datatype Response = Response(status: int, contentType: string, body: string)

  /** A request to upstream Prometheus: `/federate` with its query parameters, or `/api/v1/query` with one query. */
  datatype Query = Federate(params: map<string, seq<string>>) | Instant(query: string)

  /** Upstream's answer: status, raw content and, for an instant query, the `job` label of each result. */
  datatype Reply = Reply(status: int, content: string, jobLabels: seq<Option<string>>)

  /** The parts of an inbound GET the handler reads: URL path, parsed query string and three headers. */
  datatype Request = Request(
    path: string,
    params: map<string, seq<string>>,
    user: Option<string>,        // X-Forwarded-User
    contentType: Option<string>) // Content-Type

  /** Result of listing the caller's projects with their bearer token: the project names, or the API error. */
  datatype ProjectList = Projects(names: seq<string>) | ApiError(status: int, body: string, contentType: Option<string>)

  /** What `do_GET` decides before any upstream call. */
  datatype Action = Send(response: Response) | ServeFederate(selector: string) | ServeJobs(selector: string)

  /** All responses written and all upstream queries made while handling one request, in order. */
  datatype Exchange = Exchange(sent: seq<Response>, queries: seq<Query>)

  const StatusOk := 200
  const PlainText := "text/plain"
  const MatchKey := "match[]"
  const MissingMatchMessage := "Missing match[] parameter\n"
  const NotFoundMessage := "Not found"

  /** `send_error` with the default content type. */
  function Error(status: int, message: string): Response {
    Response(status, PlainText, message)
  }

  /** The label matcher that confines a selector to the caller's namespaces. */
  function NamespaceSelector(namespaces: seq<string>): (s: string)
    ensures |s| >= 13 && s[..12] == "namespace=~\"" && s[|s| - 1] == '"'
    ensures (forall k :: 0 <= k < |namespaces| ==> '\n' !in namespaces[k]) ==> '\n' !in s
  {
    var joined := Strings.Join(namespaces, '|');
    assert (forall k :: 0 <= k < |namespaces| ==> '\n' !in namespaces[k]) ==> '\n' !in joined by {
      if forall k :: 0 <= k < |namespaces| ==> '\n' !in namespaces[k] {
        Strings.JoinExcludes(namespaces, '|', '\n');
      }
    }
    "namespace=~\"" + joined + "\""
  }

  /** The 403 text: names the forwarded user, or `<unknown>`, in single quotes. */
  function NoNamespacesMessage(user: Option<string>): (m: string)
    ensures var u := user.GetOr("<unknown>");
      |m| == |u| + 50 && m[..9] == "Account '" && m[9..9 + |u|] == u && m[|m| - 1] == '\n'
  {
    "Account '" + user.GetOr("<unknown>") + "' doesn't have access to any namespaces!\n"
  }

  /** The 400 text for a failing `match[]` argument, which it quotes in full. */
  function InvalidSelectorMessage(arg: string): (m: string)
    ensures |m| == |arg| + 32 && m[30..|m| - 2] == arg
  {
    "Not a valid vector selector: '" + arg + "'!"
  }

  /** The instant query behind `/jobs`. */
  function JobsQuery(selector: string): (q: string)
    ensures |q| == |selector| + 18 && q[..7] == "count({" && q[7..|q| - 11] == selector
    ensures q[|q| - 11..] == "}) by (job)"
  {
    "count({" + selector + "}) by (job)"
  }

  /** The namespace names can be read back from the matcher when none of them contains `|`. */
  lemma NamespaceSelectorLists(namespaces: seq<string>)
    requires |namespaces| > 0
    requires forall k :: 0 <= k < |namespaces| ==> '|' !in namespaces[k]
    ensures var s := NamespaceSelector(namespaces);
      |s| >= 13 && s[..12] == "namespace=~\"" && s[|s| - 1] == '"' &&
      Strings.Split(s[12..|s| - 1], '|') == namespaces
  {
    var joined := Strings.Join(namespaces, '|');
    var s := NamespaceSelector(namespaces);
    assert s[12..|s| - 1] == joined;
    Strings.SplitJoin(namespaces, '|');
  }

  /** The decision `do_GET` takes from the project list and the path. */
  function Route(projects: ProjectList, req: Request): (a: Action)
    ensures a.Send? <==>
      projects.ApiError? || projects.names == [] || (req.path != "/federate" && req.path != "/jobs")
    ensures a.ServeFederate? ==>
      req.path == "/federate" && projects.Projects? && a.selector == NamespaceSelector(projects.names)
    ensures a.ServeJobs? ==>
      req.path == "/jobs" && projects.Projects? && a.selector == NamespaceSelector(projects.names)
    ensures a.Send? && projects.Projects? ==> a.response.status == (if projects.names == [] then 403 else 404)
  {
    match projects
    case ApiError(status, body, contentType) => Send(Response(status, contentType.GetOr(PlainText), body))
    case Projects(names) =>
      if names == [] then Send(Error(403, NoNamespacesMessage(req.user)))
      else if req.path == "/federate" then ServeFederate(NamespaceSelector(names))
      else if req.path == "/jobs" then ServeJobs(NamespaceSelector(names))
      else Send(Error(404, NotFoundMessage))
  }

  /** A caller without projects gets 403 naming their forwarded user, whatever the path and query. */
  lemma NoNamespacesForbidden(req: Request, other: Request)
    requires req.user == other.user
    ensures Route(Projects([]), req) == Send(Error(403, NoNamespacesMessage(req.user)))
    ensures Route(Projects([]), req) == Route(Projects([]), other)
  {
  }

  /**
   * With at least one project, `/federate` and `/jobs` go to their handlers with
   * the namespace matcher of exactly those projects, every other path gets 404,
   * and 403 is never chosen.
   */
  lemma RouteByPath(names: seq<string>, req: Request)
    requires names != []
    ensures Route(Projects(names), req) == ServeFederate(NamespaceSelector(names)) <==> req.path == "/federate"
    ensures Route(Projects(names), req) == ServeJobs(NamespaceSelector(names)) <==> req.path == "/jobs"
    ensures Route(Projects(names), req) == Send(Error(404, NotFoundMessage)) <==>
      req.path != "/federate" && req.path != "/jobs"
    ensures Route(Projects(names), req).Send? ==> Route(Projects(names), req).response.status == 404
  {
  }

  /** A failed project listing is passed on with the API's status and body. */
  lemma ApiErrorPassedOn(status: int, body: string, contentType: Option<string>, req: Request)
    ensures Route(ApiError(status, body, contentType), req).Send?
    ensures var r := Route(ApiError(status, body, contentType), req).response;
      r.status == status && r.body == body && r.contentType == contentType.GetOr(PlainText)
  {
  }

  /** The `match[]` list after the loop: each argument replaced by its own rewrite, in place. */
  function RewriteAll(args: seq<string>, selector: string): (r: seq<string>)
    ensures |r| == |args|
    ensures forall i :: 0 <= i < |args| ==> r[i] == Selector.RewriteArg(args[i], selector)
  {
    if |args| == 0 then []
    else RewriteAll(args[..|args| - 1], selector) + [Selector.RewriteArg(args[|args| - 1], selector)]
  }

  /** The indices of the arguments that fail the match, in index order. */
  function FailingIndices(args: seq<string>): (r: seq<nat>)
    ensures forall k :: 0 <= k < |r| ==> r[k] < |args|
  {
    if |args| == 0 then []
    else
      FailingIndices(args[..|args| - 1]) + (if Selector.Parse(args[|args| - 1]).None? then [|args| - 1] else [])
  }

  lemma {:induction false} FailingIndicesSound(args: seq<string>)
    ensures forall k :: 0 <= k < |FailingIndices(args)| ==> Selector.Parse(args[FailingIndices(args)[k]]).None?
    decreases |args|
  {
    if |args| > 0 {
      var init := args[..|args| - 1];
      var r0 := FailingIndices(init);
      var r := FailingIndices(args);
      assert r == r0 + (if Selector.Parse(args[|args| - 1]).None? then [|args| - 1] else []);
      FailingIndicesSound(init);
      forall k | 0 <= k < |r0| ensures Selector.Parse(args[r[k]]).None? {
        assert r[k] == r0[k] && init[r0[k]] == args[r0[k]];
      }
    }
  }

  lemma {:induction false} FailingIndicesComplete(args: seq<string>)
    ensures forall i :: 0 <= i < |args| && Selector.Parse(args[i]).None? ==> i in FailingIndices(args)
    decreases |args|
  {
    if |args| > 0 {
      var last := |args| - 1;
      var init := args[..last];
      var r0 := FailingIndices(init);
      var r := FailingIndices(args);
      assert r == r0 + (if Selector.Parse(args[last]).None? then [last] else []);
      FailingIndicesComplete(init);
      forall i | 0 <= i < last && Selector.Parse(args[i]).None? ensures i in r {
        assert init[i] == args[i];
        assert i in r0;
      }
    }
  }

  lemma {:induction false} FailingIndicesAscending(args: seq<string>)
    ensures forall k, l :: 0 <= k < l < |FailingIndices(args)| ==> FailingIndices(args)[k] < FailingIndices(args)[l]
    decreases |args|
  {
    if |args| > 0 {
      var init := args[..|args| - 1];
      var r0 := FailingIndices(init);
      var r := FailingIndices(args);
      assert r == r0 + (if Selector.Parse(args[|args| - 1]).None? then [|args| - 1] else []);
      FailingIndicesAscending(init);
    }
  }

  /** `FailingIndices` lists exactly the arguments that fail the match, each once, ascending. */
  lemma FailingIndicesExact(args: seq<string>)
    ensures forall k :: 0 <= k < |FailingIndices(args)| ==> !Selector.FullMatch(args[FailingIndices(args)[k]])
    ensures forall i :: 0 <= i < |args| && !Selector.FullMatch(args[i]) ==> i in FailingIndices(args)
    ensures forall k, l :: 0 <= k < l < |FailingIndices(args)| ==> FailingIndices(args)[k] < FailingIndices(args)[l]
  {
    FailingIndicesSound(args);
    FailingIndicesComplete(args);
    FailingIndicesAscending(args);
    forall i | 0 <= i < |args| ensures Selector.Parse(args[i]).None? <==> !Selector.FullMatch(args[i]) {
      Selector.ParseIsFullMatch(args[i]);
    }
  }

  /** The 400 responses the loop writes: the k-th quotes the k-th argument that fails the match. */
  function InvalidArgErrors(args: seq<string>): (r: seq<Response>)
    ensures |r| == |FailingIndices(args)|
    ensures forall k :: 0 <= k < |r| ==> r[k] == Error(400, InvalidSelectorMessage(args[FailingIndices(args)[k]]))
  {
    if |args| == 0 then []
    else
      var last := args[|args| - 1];
      assert forall i :: 0 <= i < |args| - 1 ==> args[..|args| - 1][i] == args[i];
      InvalidArgErrors(args[..|args| - 1]) +
        (if Selector.Parse(last).None? then [Error(400, InvalidSelectorMessage(last))] else [])
  }

  /** Every loop-written response is a 400, and there is none exactly when every argument matches. */
  lemma InvalidArgErrorsExact(args: seq<string>)
    ensures forall k :: 0 <= k < |InvalidArgErrors(args)| ==> InvalidArgErrors(args)[k].status == 400
    ensures InvalidArgErrors(args) == [] <==> forall i :: 0 <= i < |args| ==> Selector.FullMatch(args[i])
  {
    FailingIndicesExact(args);
    if FailingIndices(args) != [] {
      assert !Selector.FullMatch(args[FailingIndices(args)[0]]);
    }
  }

  /** The upstream reply as the client sees it: any status but 200 is mirrored as an error, 200 streams the content. */
  function Relay(reply: Reply, contentType: Option<string>): (r: Response)
    ensures r.status == reply.status && r.body == reply.content
    ensures reply.status != StatusOk ==> r.contentType == PlainText
    ensures reply.status == StatusOk ==> r.contentType == contentType.GetOr(PlainText)
  {
    if reply.status != StatusOk then Error(reply.status, reply.content)
    else Response(StatusOk, contentType.GetOr(PlainText), reply.content)
  }

  /** What `get_federate` writes and asks. */
  function Federation(params: map<string, seq<string>>, selector: string, contentType: Option<string>, upstream: Query -> Reply): (ex: Exchange)
    ensures |ex.queries| <= 1 && ex.sent != []
    ensures ex.queries == [] <==> MatchKey !in params || params[MatchKey] == []
    ensures ex.queries == [] ==> ex.sent == [Error(400, MissingMatchMessage)]
    ensures ex.queries != [] ==>
      ex.queries[0].Federate? && ex.queries[0].params.Keys == params.Keys &&
      ex.sent[..|ex.sent| - 1] == InvalidArgErrors(params[MatchKey]) &&
      ex.sent[|ex.sent| - 1] == Relay(upstream(ex.queries[0]), contentType)
  {
    if MatchKey !in params || params[MatchKey] == [] then Exchange([Error(400, MissingMatchMessage)], [])
    else
      var args := params[MatchKey];
      var query := Federate(params[MatchKey := RewriteAll(args, selector)]);
      Exchange(InvalidArgErrors(args) + [Relay(upstream(query), contentType)], [query])
  }

  /** What `get_jobs` writes and asks. */
  function JobList(selector: string, contentType: Option<string>, upstream: Query -> Reply): (ex: Exchange)
    ensures ex.queries == [Instant(JobsQuery(selector))] && |ex.sent| == 1
    ensures var reply := upstream(ex.queries[0]);
      ex.sent[0].status == reply.status &&
      (reply.status != StatusOk ==> ex.sent[0] == Error(reply.status, reply.content)) &&
      (reply.status == StatusOk ==> ex.sent[0].contentType == contentType.GetOr(PlainText))
  {
    var query := Instant(JobsQuery(selector));
    var reply := upstream(query);
    if reply.status != StatusOk then Exchange([Error(reply.status, reply.content)], [query])
    else
      var body := Jobs.Concat(Jobs.SortedLines(Jobs.FormatAll(reply.jobLabels)));
      Exchange([Response(StatusOk, contentType.GetOr(PlainText), body)], [query])
  }

  /** What `do_GET` writes and asks. */
  function Handle(projects: ProjectList, req: Request, upstream: Query -> Reply): (ex: Exchange)
    ensures |ex.queries| <= 1 && |ex.sent| >= 1
    ensures ex.queries != [] ==>
      projects.Projects? && projects.names != [] && (req.path == "/federate" || req.path == "/jobs")
  {
    match Route(projects, req)
    case Send(response) => Exchange([response], [])
    case ServeFederate(selector) => Federation(req.params, selector, req.contentType, upstream)
    case ServeJobs(selector) => JobList(selector, req.contentType, upstream)
  }

  /** One more loop iteration extends the rewritten prefix by that argument's rewrite. */
  lemma RewriteAllStep(args: seq<string>, i: nat, selector: string)
    requires i < |args|
    ensures RewriteAll(args[..i + 1], selector) == RewriteAll(args[..i], selector) + [Selector.RewriteArg(args[i], selector)]
  {
    assert args[..i + 1][..i] == args[..i];
  }

  /** One more loop iteration extends the reported errors by that argument's 400, if it fails the match. */
  lemma InvalidArgErrorsStep(args: seq<string>, i: nat)
    requires i < |args|
    ensures InvalidArgErrors(args[..i + 1]) == InvalidArgErrors(args[..i]) +
      (if Selector.Parse(args[i]).None? then [Error(400, InvalidSelectorMessage(args[i]))] else [])
  {
    assert args[..i + 1][..i] == args[..i];
  }

  /** The array part of the loop invariant of `RewriteMatchArgs` survives one call of `RewriteAt`. */
  lemma LoopStep(original: seq<string>, before: seq<string>, after: seq<string>, i: nat, selector: string)
    requires i < |original| == |before|
    requires before[..i] == RewriteAll(original[..i], selector) && before[i..] == original[i..]
    requires after == before[i := Selector.RewriteArg(before[i], selector)]
    ensures after[..i + 1] == RewriteAll(original[..i + 1], selector) && after[i + 1..] == original[i + 1..]
  {
    assert before[i] == original[i] by {
      assert before[i..][0] == original[i..][0];
    }
    assert after[..i + 1] == RewriteAll(original[..i + 1], selector) by {
      RewriteAllStep(original, i, selector);
      assert after[..i + 1] == before[..i] + [after[i]];
    }
    assert after[i + 1..] == before[i + 1..];
    assert before[i + 1..] == before[i..][1..];
  }

  /** The body of the loop at index `i`: rewrite the argument in place when it matches, report it otherwise. */
  method RewriteAt(a: array<string>, i: nat, selector: string) returns (error: seq<Response>)
    requires i < a.Length
    modifies a
    ensures a[..] == old(a[..])[i := Selector.RewriteArg(old(a[i]), selector)]
    ensures error == if Selector.Parse(old(a[i])).None? then [Error(400, InvalidSelectorMessage(old(a[i])))] else []
  {
    match Selector.Parse(a[i])
    case None =>
      error := [Error(400, InvalidSelectorMessage(a[i]))];
    case Some(v) =>
      a[i] := Selector.Rewrite(v, selector);
      error := [];
  }

  /** The `for i, match_arg in enumerate(match_args)` loop: overwrites each matching argument in place, reports each other one. */
  method RewriteMatchArgs(a: array<string>, selector: string) returns (errors: seq<Response>)
    modifies a
    ensures a[..] == RewriteAll(old(a[..]), selector)
    ensures errors == InvalidArgErrors(old(a[..]))
  {
    ghost var original := a[..];
    errors := [];
    for i := 0 to a.Length
      invariant a[..i] == RewriteAll(original[..i], selector)
      invariant a[i..] == original[i..]
      invariant errors == InvalidArgErrors(original[..i])
    {
      ghost var before := a[..];
      var error := RewriteAt(a, i, selector);
      LoopStep(original, before, a[..], i, selector);
      assert before[i] == original[i] by {
        assert before[i..][0] == original[i..][0];
      }
      InvalidArgErrorsStep(original, i);
      errors := errors + error;
    }
    assert original[..a.Length] == original;
  }

  method GetFederate(params: map<string, seq<string>>, selector: string, contentType: Option<string>, upstream: Query -> Reply)
    returns (ex: Exchange)
    ensures ex == Federation(params, selector, contentType, upstream)
  {
    if MatchKey !in params || params[MatchKey] == [] {
      return Exchange([Error(400, MissingMatchMessage)], []);
    }
    var args := params[MatchKey];
    var a := new string[|args|](i requires 0 <= i < |args| => args[i]);
    assert a[..] == args;
    var errors := RewriteMatchArgs(a, selector);
    var query := Federate(params[MatchKey := a[..]]);
    var reply := upstream(query);
    ex := Exchange(errors + [Relay(reply, contentType)], [query]);
  }

  method GetJobs(selector: string, contentType: Option<string>, upstream: Query -> Reply) returns (ex: Exchange)
    ensures ex == JobList(selector, contentType, upstream)
  {
    var query := Instant(JobsQuery(selector));
    var reply := upstream(query);
    if reply.status != StatusOk {
      return Exchange([Error(reply.status, reply.content)], [query]);
    }
    var body := Jobs.RenderJobs(reply.jobLabels);
    ex := Exchange([Response(StatusOk, contentType.GetOr(PlainText), body)], [query]);
  }

  method DoGet(projects: ProjectList, req: Request, upstream: Query -> Reply) returns (ex: Exchange)
    ensures ex == Handle(projects, req, upstream)
  {
    match Route(projects, req)
    case Send(response) =>
      ex := Exchange([response], []);
    case ServeFederate(selector) =>
      ex := GetFederate(req.params, selector, req.contentType, upstream);
    case ServeJobs(selector) =>
      ex := GetJobs(selector, req.contentType, upstream);
  }

  /** A caller without projects gets only the 403, and upstream is never asked. */
  lemma EmptyProjectsForbidden(req: Request, upstream: Query -> Reply)
    ensures Handle(Projects([]), req, upstream) == Exchange([Error(403, NoNamespacesMessage(req.user))], [])
  {
  }

  /** Any path other than `/federate` and `/jobs` gets 404 "Not found" and no upstream query. */
  lemma UnknownPathNotFound(names: seq<string>, req: Request, upstream: Query -> Reply)
    requires names != [] && req.path != "/federate" && req.path != "/jobs"
    ensures Handle(Projects(names), req, upstream) == Exchange([Error(404, NotFoundMessage)], [])
  {
  }

  /** `/federate` without a (non-empty) `match[]` list gets 400 and no upstream query. */
  lemma MissingMatchRejected(names: seq<string>, req: Request, upstream: Query -> Reply)
    requires names != [] && req.path == "/federate"
    requires MatchKey !in req.params || req.params[MatchKey] == []
    ensures Handle(Projects(names), req, upstream) == Exchange([Error(400, MissingMatchMessage)], [])
  {
  }

  /**
   * `/federate` with a `match[]` list forwards one query: every other parameter
   * unchanged, the list of the same length in the same order, each matching
   * argument confined by the namespace matcher under its own metric name, each
   * other argument forwarded as it came. The client gets one 400 per
   * non-matching argument and then the upstream reply, relayed.
   */
  lemma FederateForwardsConfinedArgs(names: seq<string>, req: Request, upstream: Query -> Reply)
    requires names != [] && req.path == "/federate"
    requires MatchKey in req.params && req.params[MatchKey] != []
    requires forall k :: 0 <= k < |names| ==> '\n' !in names[k]
    ensures var ex := Handle(Projects(names), req, upstream);
      var args := req.params[MatchKey];
      var selector := NamespaceSelector(names);
      |ex.queries| == 1 && ex.queries[0].Federate? &&
      var forwarded := ex.queries[0].params;
      forwarded.Keys == req.params.Keys &&
      (forall key :: key in forwarded && key != MatchKey ==> forwarded[key] == req.params[key]) &&
      |forwarded[MatchKey]| == |args| &&
      (forall i :: 0 <= i < |args| && Selector.FullMatch(args[i]) ==>
        Selector.ConfinedBy(forwarded[MatchKey][i], selector) &&
        Selector.Parse(forwarded[MatchKey][i]).value.name == Selector.Parse(args[i]).value.name) &&
      (forall i :: 0 <= i < |args| && !Selector.FullMatch(args[i]) ==> forwarded[MatchKey][i] == args[i]) &&
      ex.sent == InvalidArgErrors(args) + [Relay(upstream(ex.queries[0]), req.contentType)]
  {
    var args := req.params[MatchKey];
    var selector := NamespaceSelector(names);
    forall i | 0 <= i < |args|
      ensures Selector.FullMatch(args[i]) ==>
        Selector.ConfinedBy(RewriteAll(args, selector)[i], selector) &&
        Selector.Parse(RewriteAll(args, selector)[i]).value.name == Selector.Parse(args[i]).value.name
      ensures !Selector.FullMatch(args[i]) ==> RewriteAll(args, selector)[i] == args[i]
    {
      Selector.ParseIsFullMatch(args[i]);
      if Selector.FullMatch(args[i]) {
        Selector.RewriteIsSelector(args[i], selector);
      }
    }
  }

  lemma RewriteInvalidExample(selector: string)
    ensures RewriteAll(["1up"], selector) == ["1up"]
    ensures InvalidArgErrors(["1up"]) == [Error(400, InvalidSelectorMessage("1up"))]
  {
    Selector.InvalidExamples(selector);
    Selector.ParseIsFullMatch("1up");
    assert ["1up"][..0] == [];
  }

  lemma FederateInvalidExample(selector: string, upstream: Query -> Reply)
    ensures var params := map[MatchKey := ["1up"]];
      Federation(params, selector, None, upstream) ==
        Exchange([Error(400, InvalidSelectorMessage("1up")), Relay(upstream(Federate(params)), None)], [Federate(params)])
  {
    var params := map[MatchKey := ["1up"]];
    var ex := Federation(params, selector, None, upstream);
    RewriteInvalidExample(selector);
    assert ex.queries == [Federate(params)] by {
      assert params[MatchKey := ["1up"]] == params;
    }
    assert ex.sent == [Error(400, InvalidSelectorMessage("1up")), Relay(upstream(Federate(params)), None)];
  }

  /** An argument that fails the match is reported with 400, yet reaches upstream unchanged, without the namespace matcher. */
  lemma InvalidArgStillForwarded(upstream: Query -> Reply)
    ensures var req := Request("/federate", map[MatchKey := ["1up"]], None, None);
      var ex := Handle(Projects(["team-a"]), req, upstream);
      ex.queries == [Federate(map[MatchKey := ["1up"]])] &&
      ex.sent[0] == Error(400, "Not a valid vector selector: '1up'!")
  {
    var req := Request("/federate", map[MatchKey := ["1up"]], None, None);
    var selector := NamespaceSelector(["team-a"]);
    assert Handle(Projects(["team-a"]), req, upstream) == Federation(req.params, selector, None, upstream) by {
      assert Route(Projects(["team-a"]), req) == ServeFederate(selector);
    }
    FederateInvalidExample(selector, upstream);
  }

  lemma RewriteUpExample(selector: string)
    ensures RewriteAll(["up"], selector) == ["up{" + selector + "}"]
  {
    assert Selector.Parse("up") == Some(Selector.VectorSelector("up", None)) by {
      assert Selector.NameEnd("up", 2) == 2;
      assert Selector.NameEnd("up", 1) == 2;
    }
    assert Selector.RewriteArg("up", selector) == "up" + "{" + selector + "}";
    assert "up" + "{" + selector + "}" == "up{" + selector + "}";
    assert ["up"][..0] == [];
  }

  lemma FederateUpExample(selector: string, upstream: Query -> Reply)
    ensures Federation(map[MatchKey := ["up"]], selector, None, upstream).queries ==
      [Federate(map[MatchKey := ["up{" + selector + "}"]])]
  {
    var params := map[MatchKey := ["up"]];
    var forwarded := "up{" + selector + "}";
    RewriteUpExample(selector);
    assert params[MatchKey := [forwarded]] == map[MatchKey := [forwarded]];
  }

  /** A caller with project `team-a` asking for `up` makes upstream federate `up{namespace=~"team-a"}`. */
  lemma FederateExample(upstream: Query -> Reply)
    ensures var req := Request("/federate", map[MatchKey := ["up"]], None, None);
      Handle(Projects(["team-a"]), req, upstream).queries ==
        [Federate(map[MatchKey := ["up{namespace=~\"team-a\"}"]])]
  {
    var req := Request("/federate", map[MatchKey := ["up"]], None, None);
    var selector := NamespaceSelector(["team-a"]);
    assert Handle(Projects(["team-a"]), req, upstream) == Federation(req.params, selector, None, upstream) by {
      assert Route(Projects(["team-a"]), req) == ServeFederate(selector);
    }
    FederateUpExample(selector, upstream);
    TeamASelector();
  }

  lemma TeamASelector()
    ensures "up{" + NamespaceSelector(["team-a"]) + "}" == "up{namespace=~\"team-a\"}"
  {
    assert NamespaceSelector(["team-a"]) == "namespace=~\"team-a\"";
  }

  /** `/jobs` asks upstream only for jobs counted within the caller's namespaces, and answers with one response. */
  lemma JobsQueryConfined(names: seq<string>, req: Request, upstream: Query -> Reply)
    requires names != [] && req.path == "/jobs"
    ensures var ex := Handle(Projects(names), req, upstream);
      ex.queries == [Instant("count({" + NamespaceSelector(names) + "}) by (job)")] &&
      |ex.sent| == 1 &&
      var reply := upstream(ex.queries[0]);
      (reply.status != StatusOk ==> ex.sent[0] == Error(reply.status, reply.content)) &&
      (reply.status == StatusOk ==>
        ex.sent[0].status == StatusOk &&
        ex.sent[0].body == Jobs.Concat(Jobs.SortedLines(Jobs.FormatAll(reply.jobLabels))))
  {
  }

  /** A status other than 200 from upstream reaches the client as that status with upstream's content. */
  lemma UpstreamStatusMirrored(names: seq<string>, req: Request, upstream: Query -> Reply)
    requires names != [] && (req.path == "/federate" || req.path == "/jobs")
    ensures var ex := Handle(Projects(names), req, upstream);
      ex.queries != [] ==>
        var reply := upstream(ex.queries[0]);
        var last := ex.sent[|ex.sent| - 1];
        last.status == reply.status &&
        (reply.status != StatusOk ==> last == Error(reply.status, reply.content))
  {
    var selector := NamespaceSelector(names);
    if req.path == "/federate" {
      assert Handle(Projects(names), req, upstream) == Federation(req.params, selector, req.contentType, upstream);
    } else {
      assert Handle(Projects(names), req, upstream) == JobList(selector, req.contentType, upstream);
    }
  }
}
