/** The control flow of the command: start-up checks (`init`), the action
    lookup and index search, the single HTTP call with its status test
    (`callAPI`), and the dispatch on the lower-cased action that renders the
    result. Every process exit becomes a value of `Exit`. */
module Cli {
  import opened Text
  import opened Registry
  import opened DebugSort
  import opened Devices

  datatype Option<T> = None | Some(value: T)

  /** The parsed command-line flags. `action` is `None` when the flag was
      not given; `interval` already holds the parser's default "5m" when it
      was not given. */
  datatype Flags = Flags(help: bool, debug: bool, action: Option<string>, interval: string)

  /** What became of the one HTTP request: it could not be built, the
      transport failed, reading the body failed, or a response arrived. */
  datatype HttpOutcome =
    | RequestError
    | TransportError
    | ReadError
    | Response(status: int, body: string)

  /** The pair `callAPI` returns: a success flag and the raw body. */
  datatype CallResult = CallResult(success: bool, body: string)

  /** What `json.Unmarshal` made of a body. */
  datatype Decoded = Decoded(value: V1Devices) | DecodeError(message: string)

  /** What a successful run produced. */
  datatype Report =
    | DeviceTable(total: nat, rows: seq<Row>)
    | SitesAck

  /** Why the process exits with status 1. */
  datatype Failure =
    | NoAction
    | MissingKey
    | InvalidInterval
    | InvalidAction
    | ActionNotFound(action: string)
    | CallFailed(requestName: string)
    | DecodeFailed(message: string)
    | UnknownAction(action: string)

  /** How the process ends: status 0 with a report, status 0 after the help
      text, or status 1 with a reason. */
  datatype Exit = Ok(report: Report) | Help | Exit1(reason: Failure)

  /** The process exit status of an outcome. */
  function ExitStatus(e: Exit): (code: int)
    ensures code == 0 || code == 1
    ensures code == 1 <==> e.Exit1?
  {
    match e
    case Ok(_) => 0
    case Help => 0
    case Exit1(_) => 1
  }

  /** `callAPI` after the network: only a response with a status in
      [200, 300) succeeds; a response with any other status still hands back
      its body; every earlier failure yields `(false, "")`. */
  function CallApi(outcome: HttpOutcome): (r: CallResult)
    ensures r.success <==> outcome.Response? && 200 <= outcome.status < 300
    ensures outcome.Response? ==> r.body == outcome.body
    ensures !outcome.Response? ==> r == CallResult(false, "")
  {
    match outcome
    case Response(status, body) => CallResult(status >= 200 && status < 300, body)
    case _ => CallResult(false, "")
  }

  /** The switch on the lower-cased action after a successful call. */
  function Render(action: string, body: string, unmarshal: string -> Decoded): (e: Exit)
    ensures e.Ok? <==> ToLower(action) == "getsites" || (ToLower(action) == "getdevices" && unmarshal(body).Decoded?)
    ensures e == Ok(SitesAck) <==> ToLower(action) == "getsites"
    ensures e.Ok? && e.report.DeviceTable? ==>
              var hosts := unmarshal(body).value.data;
              e.report.total == DeviceCount(hosts) == |e.report.rows| &&
              forall k :: 0 <= k < |e.report.rows| ==> e.report.rows[k] == RowOf(k + 1, AllDevices(hosts)[k])
    ensures e.Exit1? ==> e.reason.DecodeFailed? || e.reason == UnknownAction(action)
    ensures e.Exit1? && e.reason.UnknownAction? <==> ToLower(action) != "getdevices" && ToLower(action) != "getsites"
    ensures ToLower(action) == "getdevices" && unmarshal(body).DecodeError? ==>
              e == Exit1(DecodeFailed(unmarshal(body).message))
  {
    var folded := ToLower(action);
    if folded == "getdevices" then
      match unmarshal(body)
      case DecodeError(msg) => Exit1(DecodeFailed(msg))
      case Decoded(v) => Ok(DeviceTable(DeviceCount(v.data), DeviceRows(v.data)))
    else if folded == "getsites" then
      Ok(SitesAck)
    else
      Exit1(UnknownAction(action))
  }

  /** Issue the one request for `target` and render what comes back. */
  function Dispatch(target: ApiRequest, action: string, server: (string, string) -> HttpOutcome,
                    unmarshal: string -> Decoded): (e: Exit)
    ensures e == Exit1(CallFailed(target.name)) <==> !CallApi(server(target.url, target.httpMethod)).success
    ensures e.Ok? ==> CallApi(server(target.url, target.httpMethod)).success
    ensures CallApi(server(target.url, target.httpMethod)).success ==>
              e == Render(action, CallApi(server(target.url, target.httpMethod)).body, unmarshal)
  {
    var call := CallApi(server(target.url, target.httpMethod));
    if !call.success then Exit1(CallFailed(target.name))
    else Render(action, call.body, unmarshal)
  }

  /** `main` after start-up, as written: validate the action, search its
      index, then call the endpoint of registry entry 0, whichever entry the
      search found, and report a failure under entry 0's name. */
  function RunMain(reqs: seq<ApiRequest>, action: string, server: (string, string) -> HttpOutcome,
                   unmarshal: string -> Decoded): (e: Exit)
    ensures !e.Help?
    ensures e == Exit1(InvalidAction) <==> !CheckAction(reqs, action)
    ensures !(e.Exit1? && e.reason.ActionNotFound?)
    ensures e.Exit1? ==> e.reason.InvalidAction? || e.reason.CallFailed? || e.reason.DecodeFailed? || e.reason.UnknownAction?
    ensures e.Exit1? && e.reason.CallFailed? ==>
              |reqs| > 0 && e.reason.requestName == reqs[0].name &&
              !CallApi(server(reqs[0].url, reqs[0].httpMethod)).success
    ensures e.Ok? ==> CheckAction(reqs, action) && CallApi(server(reqs[0].url, reqs[0].httpMethod)).success
    ensures CheckAction(reqs, action) && !CallApi(server(reqs[0].url, reqs[0].httpMethod)).success ==>
              e == Exit1(CallFailed(reqs[0].name))
    ensures CheckAction(reqs, action) && CallApi(server(reqs[0].url, reqs[0].httpMethod)).success ==>
              e == Render(action, CallApi(server(reqs[0].url, reqs[0].httpMethod)).body, unmarshal)
  {
    if !CheckAction(reqs, action) then Exit1(InvalidAction)
    else if FindApiIndex(reqs, action) == -1 then Exit1(ActionNotFound(action))
    else Dispatch(reqs[0], action, server, unmarshal)
  }

  /** `main` with the call aimed at the entry the search found. */
  function RunMainCorrected(reqs: seq<ApiRequest>, action: string, server: (string, string) -> HttpOutcome,
                            unmarshal: string -> Decoded): (e: Exit)
    ensures !e.Help?
    ensures e == Exit1(InvalidAction) <==> !CheckAction(reqs, action)
    ensures !(e.Exit1? && e.reason.ActionNotFound?)
    ensures e.Exit1? && e.reason.CallFailed? ==>
              exists i :: 0 <= i < |reqs| && NameMatches(reqs[i], action) &&
                e.reason.requestName == reqs[i].name &&
                !CallApi(server(reqs[i].url, reqs[i].httpMethod)).success
    ensures CheckAction(reqs, action) ==>
              var t := reqs[FindApiIndex(reqs, action)];
              var call := CallApi(server(t.url, t.httpMethod));
              e == if call.success then Render(action, call.body, unmarshal) else Exit1(CallFailed(t.name))
  {
    if !CheckAction(reqs, action) then Exit1(InvalidAction)
    else
      var idx := FindApiIndex(reqs, action);
      if idx == -1 then Exit1(ActionNotFound(action))
      else Dispatch(reqs[idx], action, server, unmarshal)
  }

  /** What `init` decides: stop with an exit, or go on with the (possibly
      sorted) registry and the action string. */
  datatype Startup = Stop(exit: Exit) | Proceed(registry: seq<ApiRequest>, action: string)

  /** `init`: help first, then a missing action, then a missing API key;
      debug mode sorts the registry; finally the interval is checked. */
  function Init(flags: Flags, apiKey: string, reqs: seq<ApiRequest>): (s: Startup)
    ensures flags.help ==> s == Stop(Help)
    ensures s == Stop(Exit1(NoAction)) <==> !flags.help && flags.action.None?
    ensures s == Stop(Exit1(MissingKey)) <==> !flags.help && flags.action.Some? && apiKey == ""
    ensures s == Stop(Exit1(InvalidInterval)) <==>
              !flags.help && flags.action.Some? && apiKey != "" && !CheckInterval(flags.interval)
    ensures s.Proceed? <==>
              !flags.help && flags.action.Some? && apiKey != "" && (flags.interval == "5m" || flags.interval == "1h")
    ensures s.Proceed? ==> s.action == flags.action.value && multiset(s.registry) == multiset(reqs)
    ensures s.Proceed? && !flags.debug ==> s.registry == reqs
    ensures s.Proceed? && flags.debug ==> SortedByName(s.registry)
  {
    if flags.help then Stop(Help)
    else if flags.action.None? then Stop(Exit1(NoAction))
    else if apiKey == "" then Stop(Exit1(MissingKey))
    else
      var registry := if flags.debug then SortByName(reqs) else reqs;
      if !CheckInterval(flags.interval) then Stop(Exit1(InvalidInterval))
      else Proceed(registry, flags.action.value)
  }

  /** The flags and key pass every start-up check. */
  predicate StartsUp(flags: Flags, apiKey: string)
  {
    !flags.help && flags.action.Some? && apiKey != "" && CheckInterval(flags.interval)
  }

  /** Over the shipped registry, start-up goes on exactly when its checks pass,
      and it goes on with the registry unchanged, debug mode or not. */
  lemma ShippedInit(flags: Flags, apiKey: string)
    ensures Init(flags, apiKey, ApiRequests).Proceed? <==> StartsUp(flags, apiKey)
    ensures StartsUp(flags, apiKey) ==> Init(flags, apiKey, ApiRequests) == Proceed(ApiRequests, flags.action.value)
  {
    ShippedRegistrySortIsIdentity();
  }

  /** The whole program over the shipped registry. Once start-up passes and
      the action is accepted, the request goes to GetDevices' endpoint
      whatever the action, with or without `--debug`. */
  function Program(flags: Flags, apiKey: string, server: (string, string) -> HttpOutcome,
                   unmarshal: string -> Decoded): (e: Exit)
    ensures e == Help <==> flags.help
    ensures e == Exit1(NoAction) <==> !flags.help && flags.action.None?
    ensures e == Exit1(MissingKey) <==> !flags.help && flags.action.Some? && apiKey == ""
    ensures e == Exit1(InvalidInterval) <==>
              !flags.help && flags.action.Some? && apiKey != "" && !CheckInterval(flags.interval)
    ensures e == Exit1(InvalidAction) <==> StartsUp(flags, apiKey) && !CheckAction(ApiRequests, flags.action.value)
    ensures StartsUp(flags, apiKey) && CheckAction(ApiRequests, flags.action.value) ==>
              var call := CallApi(server(ApiRequests[0].url, ApiRequests[0].httpMethod));
              e == if call.success then Render(flags.action.value, call.body, unmarshal)
                   else Exit1(CallFailed("GetDevices"))
  {
    ShippedInit(flags, apiKey);
    match Init(flags, apiKey, ApiRequests)
    case Stop(e) => e
    case Proceed(reqs, action) => RunMain(reqs, action, server, unmarshal)
  }

  /** Every action the shipped registry accepts has a branch in the result
      switch, so the "unknown action" exit is never taken. */
  lemma ShippedActionsAreRendered(action: string)
    requires CheckAction(ApiRequests, action)
    ensures ToLower(action) == "getdevices" || ToLower(action) == "getsites"
  {
    var i :| 0 <= i < |ApiRequests| && NameMatches(ApiRequests[i], action);
    ShippedNamesFold();
  }

  /** Over any reordering of the shipped registry, `main` never takes the
      "unknown action" exit. */
  lemma RunMainNeverUnknownAction(reqs: seq<ApiRequest>, action: string,
                                  server: (string, string) -> HttpOutcome, unmarshal: string -> Decoded)
    requires multiset(reqs) == multiset(ApiRequests)
    ensures var e := RunMain(reqs, action, server, unmarshal); !(e.Exit1? && e.reason.UnknownAction?)
  {
    if CheckAction(reqs, action) {
      PermutationKeepsCheckAction(reqs, ApiRequests, action);
      ShippedActionsAreRendered(action);
      var call := CallApi(server(reqs[0].url, reqs[0].httpMethod));
      if call.success {
        assert RunMain(reqs, action, server, unmarshal) == Render(action, call.body, unmarshal);
      }
    }
  }

  /** The defensive "unknown action" exit of the whole program is dead code. */
  lemma ProgramNeverUnknownAction(flags: Flags, apiKey: string, server: (string, string) -> HttpOutcome,
                                  unmarshal: string -> Decoded)
    ensures var e := Program(flags, apiKey, server, unmarshal); !(e.Exit1? && e.reason.UnknownAction?)
  {
    var s := Init(flags, apiKey, ApiRequests);
    if s.Proceed? {
      RunMainNeverUnknownAction(s.registry, s.action, server, unmarshal);
    }
  }

  /** Debug mode only sorts the registry, which for the shipped registry
      changes nothing: the outcome is the same with or without it. */
  lemma DebugDoesNotChangeOutcome(flags: Flags, apiKey: string, server: (string, string) -> HttpOutcome,
                                  unmarshal: string -> Decoded)
    ensures Program(flags.(debug := true), apiKey, server, unmarshal) ==
            Program(flags.(debug := false), apiKey, server, unmarshal)
  {
    ShippedRegistrySortIsIdentity();
  }

  /** The call made by `main` depends only on entry 0: two networks that
      answer entry 0's request alike give the same outcome for every action. */
  lemma OutcomeDependsOnlyOnEntryZero(reqs: seq<ApiRequest>, action: string,
                                      server1: (string, string) -> HttpOutcome,
                                      server2: (string, string) -> HttpOutcome,
                                      unmarshal: string -> Decoded)
    requires |reqs| > 0
    requires server1(reqs[0].url, reqs[0].httpMethod) == server2(reqs[0].url, reqs[0].httpMethod)
    ensures RunMain(reqs, action, server1, unmarshal) == RunMain(reqs, action, server2, unmarshal)
  {
  }

  /** A non-2xx answer to entry 0's request (a 404, say) ends every accepted
      action with the call-failure exit naming entry 0. */
  lemma NonSuccessStatusFails(reqs: seq<ApiRequest>, action: string, server: (string, string) -> HttpOutcome,
                              unmarshal: string -> Decoded, status: int, body: string)
    requires CheckAction(reqs, action)
    requires server(reqs[0].url, reqs[0].httpMethod) == Response(status, body)
    requires !(200 <= status < 300)
    ensures RunMain(reqs, action, server, unmarshal) == Exit1(CallFailed(reqs[0].name))
    ensures ExitStatus(RunMain(reqs, action, server, unmarshal)) == 1
  {
  }

  /** A network on which only the sites endpoint answers. */
  function SitesOnly(url: string, httpMethod: string): HttpOutcome
  {
    if url == "https://api.ui.com/v1/sites" then Response(200, "[]") else Response(404, "")
  }

  /** As written, `--action GetSites` requests the devices endpoint: with only
      the sites endpoint up, the run fails and blames GetDevices. */
  lemma GetSitesCallsDevicesEndpoint(unmarshal: string -> Decoded)
    ensures RunMain(ApiRequests, "GetSites", SitesOnly, unmarshal) == Exit1(CallFailed("GetDevices"))
  {
    var devices := ApiRequests[0];
    assert NameMatches(ApiRequests[1], "GetSites");
    assert devices.url[23] != "https://api.ui.com/v1/sites"[23];
    assert SitesOnly(devices.url, devices.httpMethod) == Response(404, "");
  }

  /** With the call aimed at the found entry, the same run succeeds. */
  lemma CorrectedGetSitesCallsSitesEndpoint(unmarshal: string -> Decoded)
    ensures RunMainCorrected(ApiRequests, "GetSites", SitesOnly, unmarshal) == Ok(SitesAck)
  {
    var sites := ApiRequests[1];
    assert NameMatches(sites, "GetSites");
    ShippedNamesUnique();
    FoundIndexIsOnlyMatch(ApiRequests, "GetSites", 1);
    ShippedNamesFold();
    assert SitesOnly(sites.url, sites.httpMethod) == Response(200, "[]");
    assert ToLower("GetSites") == "getsites";
  }
}
