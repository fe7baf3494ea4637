/**
 * The decisions of the two HTTP routes (main.py): the API-key gate shared by
 * both (`check_api_key`, core_functions.py, lines 68-72), `/start`
 * (`start_conversation`) and `/chat` (`chat`).
 *
 * A route is a function from the request and the values the outside world
 * supplies (the client address, the geolocation text, the new thread's id,
 * the run-status snapshots) to the response and the ordered list of effects
 * the route has on the outside world. A response of None means the request
 * is still blocked in the polling loop when the snapshots run out.
 */
module Routes {
  import opened Wrappers
  import PyStrings
  import ToolDispatch
  import ReplyCleaning
  import ToolRegistry

  const DefaultPlatform := "Not Specified"
  const MissingThreadId := "Missing thread_id"
  const SheetNotDefined := "Sheet not defined"

  /** The process-wide configuration the routes read. */
  datatype Settings = Settings(
    customApiKey: Option<string>,   // CUSTOM_API_KEY, None when unset
    assistantId: string,            // ASSISTANT_ID
    sheetAvailable: bool)           // whether `sheet` is not None

  /** The JSON body a route answers with. */
  datatype Body =
    | Unauthorized                                                    // the 401 handler's body
    | InternalServerError                                             // the 500 handler's body
    | ErrorMessage(error: string)                                     // {"error": ...}
    | Started(threadId: string, userIp: string, locationInfo: string) // the /start result
    | ChatResult(outcome: ToolDispatch.Outcome)                       // the loop's result, as it is

  datatype Response = Response(status: int, body: Body)

  /** What a route does to the outside world, in order. */
  datatype Effect<A> =
    | Geolocate(ip: string)
    | CreateThread
    | AddSheetRow(threadId: string, platform: string, userAgent: Option<string>, ip: string, location: string)
    | AddAirtableRecord(threadId: string, platform: string, userAgent: Option<string>, ip: string, location: string)
    | CreateMessage(threadId: string, content: string)
    | CreateRun(threadId: string, assistantId: string)
    | Dispatch(event: ToolDispatch.Event<A>)

  datatype Handled<A> = Handled(response: Option<Response>, effects: seq<Effect<A>>)

  /** `check_api_key`: the `X-API-KEY` header, absent or not, must equal CUSTOM_API_KEY, set or not. */
  predicate ApiKeyAccepted(header: Option<string>, configured: Option<string>) {
    header == configured
  }

  function Rejected<A>(): Handled<A> {
    Handled(Some(Response(401, Unauthorized)), [])
  }

  // ------------------------------------------------------------------
  // The client address
  // ------------------------------------------------------------------

  /** The text before the first `c`, or all of `s` when there is none. */
  function BeforeFirst(s: string, c: char): (r: string)
    ensures |r| <= |s| && r == s[..|r|]
    ensures forall i :: 0 <= i < |r| ==> r[i] != c
    ensures |r| < |s| <==> c in s
    ensures |r| < |s| ==> s[|r|] == c
    decreases |s|
  {
    if s == [] || s[0] == c then []
    else [s[0]] + BeforeFirst(s[1..], c)
  }

  /** `user_ip.split(',')[0].strip()` when the address holds a comma, the address itself otherwise. */
  function FirstIp(ip: string): (r: string)
    ensures |r| <= |ip|
  {
    if ',' in ip then PyStrings.Trim(BeforeFirst(ip, ',')) else ip
  }

  /** An address without a comma is kept as it is. */
  lemma FirstIpWithoutComma(ip: string)
    requires ',' !in ip
    ensures FirstIp(ip) == ip
  {
  }

  /**
   * An address list yields its first entry: the text before the first comma,
   * with the whitespace at both ends removed and nothing else changed.
   */
  lemma FirstIpWithComma(ip: string)
    requires ',' in ip
    ensures var r := FirstIp(ip);
      exists n :: 0 <= n < |ip| && ip[n] == ',' && ',' !in ip[..n]
        && r == PyStrings.Trim(ip[..n])
        && PyStrings.IsStrippedSlice(ip[..n], r, PyStrings.LeadingSpaces(ip[..n]))
        && (r == [] || (!PyStrings.IsSpace(r[0]) && !PyStrings.IsSpace(r[|r| - 1])))
  {
    var head := BeforeFirst(ip, ',');
    var n := |head|;
    assert ip[..n] == head;
    PyStrings.TrimIsStrippedSlice(head);
  }

  /** The first address holds no comma, so taking it again changes nothing. */
  lemma FirstIpIdempotent(ip: string)
    ensures ',' !in FirstIp(ip)
    ensures FirstIp(FirstIp(ip)) == FirstIp(ip)
  {
    if ',' in ip {
      var head := BeforeFirst(ip, ',');
      var r := FirstIp(ip);
      PyStrings.TrimIsStrippedSlice(head);
      var a := PyStrings.LeadingSpaces(head);
      forall i | 0 <= i < |r| ensures r[i] != ',' {
        assert r[i] == head[a + i];
      }
    }
  }

  // ------------------------------------------------------------------
  // /start
  // ------------------------------------------------------------------

  /**
   * `start_conversation`. `platform` is the query parameter, `clientIp` what
   * `get_client_ip()` returns, `location` what `get_geolocation` returns and
   * `threadId` the id of the thread the provider creates.
   */
  function StartConversation<A>(settings: Settings, apiKey: Option<string>, platform: Option<string>,
                                userAgent: Option<string>, clientIp: string, location: string,
                                threadId: string): (r: Handled<A>)
    ensures r.response == Some(Response(401, Unauthorized)) <==> !ApiKeyAccepted(apiKey, settings.customApiKey)
    ensures !ApiKeyAccepted(apiKey, settings.customApiKey) ==> r.effects == []
  {
    if !ApiKeyAccepted(apiKey, settings.customApiKey) then Rejected()
    else
      var platformName := platform.GetOr(DefaultPlatform);
      var ip := FirstIp(clientIp);
      var begun := [Geolocate(ip), CreateThread];
      if !settings.sheetAvailable then
        Handled(Some(Response(500, ErrorMessage(SheetNotDefined))), begun)
      else
        Handled(Some(Response(200, Started(threadId, ip, location))),
                begun + [AddSheetRow(threadId, platformName, userAgent, ip, location),
                          AddAirtableRecord(threadId, platformName, userAgent, ip, location)])
  }

  // ------------------------------------------------------------------
  // /chat
  // ------------------------------------------------------------------

  /** The loop's events as effects of the route. */
  function Lift<A>(events: seq<ToolDispatch.Event<A>>): seq<Effect<A>> {
    seq(|events|, i requires 0 <= i < |events| => Dispatch(events[i]))
  }

  /**
   * `chat`. `data` is the JSON body, `snapshots` what the status polls of the
   * new run return.
   */
  function Chat<A, O>(settings: Settings, tb: ToolDispatch.Toolbox<A, O>, apiKey: Option<string>,
                      data: map<string, string>, snapshots: seq<ToolDispatch.Snapshot>): (r: Handled<A>)
    ensures r.response == Some(Response(401, Unauthorized)) <==> !ApiKeyAccepted(apiKey, settings.customApiKey)
    ensures !ApiKeyAccepted(apiKey, settings.customApiKey) ==> r.effects == []
  {
    if !ApiKeyAccepted(apiKey, settings.customApiKey) then Rejected()
    else if "thread_id" !in data || data["thread_id"] == "" then
      Handled(Some(Response(400, ErrorMessage(MissingThreadId))), [])
    else
      var threadId := data["thread_id"];
      var message := if "message" in data then data["message"] else "";
      var poll := ToolDispatch.Poll(tb, snapshots);
      Handled(
        match poll.outcome
        case StillPolling => None
        // the loop's "failed" result is already a Flask response, which `jsonify` cannot serialise
        case Failed => Some(Response(500, InternalServerError))
        case Completed(_) => Some(Response(200, ChatResult(poll.outcome))),
        [CreateMessage(threadId, message), CreateRun(threadId, settings.assistantId)] + Lift(poll.events))
  }

  // ------------------------------------------------------------------
  // Properties
  // ------------------------------------------------------------------

  /** A key that does not match answers 401 on both routes, before any other effect. */
  lemma WrongKeyRejectedFirst<A, O>(settings: Settings, apiKey: Option<string>,
                                    platform: Option<string>, userAgent: Option<string>, clientIp: string,
                                    location: string, threadId: string,
                                    tb: ToolDispatch.Toolbox<A, O>, data: map<string, string>,
                                    snapshots: seq<ToolDispatch.Snapshot>)
    requires apiKey != settings.customApiKey
    ensures StartConversation<A>(settings, apiKey, platform, userAgent, clientIp, location, threadId)
            == Handled(Some(Response(401, Unauthorized)), [])
    ensures Chat(settings, tb, apiKey, data, snapshots) == Handled(Some(Response(401, Unauthorized)), [])
  {
  }

  /**
   * CUSTOM_API_KEY unset admits exactly the requests without the header, and
   * a set key admits exactly the requests that send it.
   */
  lemma ApiKeyGate(header: Option<string>, configured: Option<string>)
    ensures configured.None? ==> (ApiKeyAccepted(header, configured) <==> header.None?)
    ensures configured.Some? ==> (ApiKeyAccepted(header, configured) <==> header == Some(configured.value))
  {
  }

  /** `/chat` without a `thread_id`, or with an empty one, answers 400 and touches nothing. */
  lemma MissingThreadIdRejected<A, O>(settings: Settings, tb: ToolDispatch.Toolbox<A, O>,
                                      data: map<string, string>, snapshots: seq<ToolDispatch.Snapshot>)
    requires "thread_id" !in data || data["thread_id"] == ""
    ensures Chat(settings, tb, settings.customApiKey, data, snapshots)
            == Handled(Some(Response(400, ErrorMessage("Missing thread_id"))), [])
  {
  }

  /**
   * An accepted `/chat` posts the message (empty when absent, never
   * rejected), starts a run on the configured assistant, then runs the
   * polling loop. A completed run's result is the response body, with status
   * 200; a failed run ends in the 500 handler, because `chat` hands the
   * response the loop returned to `jsonify` again.
   */
  lemma ChatPostsThenPolls<A, O>(settings: Settings, tb: ToolDispatch.Toolbox<A, O>,
                                 data: map<string, string>, snapshots: seq<ToolDispatch.Snapshot>)
    requires "thread_id" in data && data["thread_id"] != ""
    ensures var h := Chat(settings, tb, settings.customApiKey, data, snapshots);
      var poll := ToolDispatch.Poll(tb, snapshots);
      && |h.effects| == 2 + |poll.events|
      && h.effects[0] == CreateMessage(data["thread_id"], if "message" in data then data["message"] else "")
      && h.effects[1] == CreateRun(data["thread_id"], settings.assistantId)
      && (forall i :: 0 <= i < |poll.events| ==> h.effects[2 + i] == Dispatch(poll.events[i]))
      && (poll.outcome.StillPolling? <==> h.response.None?)
      && (poll.outcome.Completed? ==> h.response == Some(Response(200, ChatResult(poll.outcome))))
      && (poll.outcome.Failed? ==> h.response == Some(Response(500, InternalServerError)))
  {
    var h := Chat(settings, tb, settings.customApiKey, data, snapshots);
    var poll := ToolDispatch.Poll(tb, snapshots);
    var threadId := data["thread_id"];
    var message := if "message" in data then data["message"] else "";
    var head := [CreateMessage(threadId, message), CreateRun(threadId, settings.assistantId)];
    assert h.effects == head + Lift(poll.events);
    forall i | 0 <= i < |poll.events| ensures h.effects[2 + i] == Dispatch(poll.events[i]) {
      assert h.effects[2 + i] == Lift(poll.events)[i];
    }
  }

  /**
   * When the run ends at snapshot `t` with "completed", `/chat` answers 200
   * with the cleaned latest message, after t + 1 status polls.
   */
  lemma ChatRepliesWithCleanedMessage<A, O>(settings: Settings, tb: ToolDispatch.Toolbox<A, O>,
                                            data: map<string, string>, snapshots: seq<ToolDispatch.Snapshot>, t: nat)
    requires "thread_id" in data && data["thread_id"] != ""
    requires t < |snapshots| && snapshots[t].status == ToolDispatch.StatusCompleted
    requires forall i :: 0 <= i < t ==> !ToolDispatch.IsTerminal(snapshots[i].status)
    ensures var h := Chat(settings, tb, settings.customApiKey, data, snapshots);
      && h.response == Some(Response(200, ChatResult(
           ToolDispatch.Completed(ReplyCleaning.CleanReply(snapshots[t].latestMessage)))))
      && ToolDispatch.CountRetrieves(ToolDispatch.Poll(tb, snapshots).events) == t + 1
  {
    ToolDispatch.PollStopsAtFirstTerminal(tb, snapshots, t);
  }

  /**
   * When the run ends at snapshot `t` with "failed", `/chat` answers with the
   * 500 handler's body, after t + 1 status polls.
   */
  lemma ChatFailedRunAnswers500<A, O>(settings: Settings, tb: ToolDispatch.Toolbox<A, O>,
                                      data: map<string, string>, snapshots: seq<ToolDispatch.Snapshot>, t: nat)
    requires "thread_id" in data && data["thread_id"] != ""
    requires t < |snapshots| && snapshots[t].status == ToolDispatch.StatusFailed
    requires forall i :: 0 <= i < t ==> !ToolDispatch.IsTerminal(snapshots[i].status)
    ensures var h := Chat(settings, tb, settings.customApiKey, data, snapshots);
      && h.response == Some(Response(500, InternalServerError))
      && ToolDispatch.CountRetrieves(ToolDispatch.Poll(tb, snapshots).events) == t + 1
  {
    ToolDispatch.PollStopsAtFirstTerminal(tb, snapshots, t);
  }

  /**
   * The registry that start-up loads from the plugin modules is the one the
   * loop consults: a pending call is invoked and answered exactly when some
   * Python module defines a callable of that name outside the dunder names,
   * and then with the handler of the last module that defines it.
   */
  lemma LoadedToolsAreDispatched<C, A, O>(mods: seq<ToolRegistry.PluginModule<C, A -> O>>,
                                          tb: ToolDispatch.Toolbox<A, O>, call: ToolDispatch.ToolCall)
    requires tb.functionMap == ToolRegistry.Assign(ToolRegistry.Registrations(mods))
    ensures ToolDispatch.CallEvents(tb, call) != [] <==>
      exists m, a, h :: 0 <= m < |mods| && ToolRegistry.Registers(mods[m], a, call.name, h)
    ensures var writes := ToolRegistry.Registrations(mods);
      forall i :: 0 <= i < |writes| && writes[i].0 == call.name && ToolRegistry.IsLastWrite(writes, i) ==>
        var arguments := ToolDispatch.ArgumentsOf(tb, call);
        ToolDispatch.CallEvents(tb, call)
        == [ToolDispatch.Invoke(call.name, arguments), ToolDispatch.Submit(call.id, tb.dumps(writes[i].1(arguments)))]
  {
    ToolRegistry.RegisteredIff(mods, call.name);
    ToolRegistry.AssignLastWins(ToolRegistry.Registrations(mods));
  }

  /**
   * Without a sheet, `/start` answers 500 after it has already created the
   * thread, and never reaches Airtable.
   */
  lemma MissingSheetFailsAfterThreadCreated<A>(settings: Settings, platform: Option<string>,
                                               userAgent: Option<string>, clientIp: string,
                                               location: string, threadId: string)
    requires !settings.sheetAvailable
    ensures var h := StartConversation<A>(settings, settings.customApiKey, platform, userAgent, clientIp, location, threadId);
      && h.response == Some(Response(500, ErrorMessage("Sheet not defined")))
      && h.effects == [Geolocate(FirstIp(clientIp)), CreateThread]
      && forall e :: e in h.effects ==> !e.AddAirtableRecord? && !e.AddSheetRow?
  {
  }

  /**
   * With a sheet, `/start` records the thread in the sheet and then in
   * Airtable, under the first client address and the platform ("Not
   * Specified" when the parameter is absent), and answers with the thread id.
   */
  lemma StartRecordsThread<A>(settings: Settings, platform: Option<string>, userAgent: Option<string>,
                              clientIp: string, location: string, threadId: string)
    requires settings.sheetAvailable
    ensures var h := StartConversation<A>(settings, settings.customApiKey, platform, userAgent, clientIp, location, threadId);
      var name := if platform.Some? then platform.value else "Not Specified";
      && h.response == Some(Response(200, Started(threadId, FirstIp(clientIp), location)))
      && h.effects == [Geolocate(FirstIp(clientIp)), CreateThread,
                       AddSheetRow(threadId, name, userAgent, FirstIp(clientIp), location),
                       AddAirtableRecord(threadId, name, userAgent, FirstIp(clientIp), location)]
  {
  }
}
