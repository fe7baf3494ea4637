# Assistant gateway core, modelled in Dafny

The system is a small Flask gateway to an OpenAI assistant. `/start` checks an
API key, records a new conversation thread in a Google sheet and in Airtable,
and answers with the thread id. `/chat` checks the key, posts the user's
message to the thread, starts a run, and then polls the run. When the run
needs tools, the gateway calls handlers that were loaded at start-up from a
directory of plugin files and submits their outputs. When the run completes,
the gateway returns the assistant's latest message with citation marks removed
and whitespace tidied. One plugin, `purchase_intent`, collects a customer's
contact details and posts them to a webhook.

This project models the deterministic logic that remains once the vendor
calls are abstracted away:

- `wrappers.dfy`: `Option`.
- `pystrings.dfy`: Python's whitespace class and `str.strip` / `str.join`.
- `reply_cleaning.dfy`: the two `re.sub` passes and the `strip` of a completed reply, written as scanners.
- `tool_dispatch.dfy`: the polling loop `process_tool_calls`. `Await` and `Poll` are the specification functions. `ProcessToolCalls`, `PollOnce` and `SubmitToolOutputs` are the loops as the source runs them.
- `tool_registry.dfy`: `load_tools_from_directory` over an abstract list of plugin modules. The nested loops are kept as methods, and `Registrations`, `Configs` and `Assign` specify them.
- `percent_decoding.dfy`: `urllib.parse.unquote` for ASCII escapes.
- `purchase_intent.dfy`: the lead-capture tool and its `tool_config`.
- `routes.dfy`: the decisions of `/start` and `/chat`. Each route is a function returning the response and the ordered list of effects on the outside world.

Some values come from the outside world and are passed in as parameters:

- the run-status snapshots that successive `runs.retrieve` calls return;
- the handlers, `json.loads` and `json.dumps`;
- the webhook outcome;
- the client address, geolocation text and new thread id;
- whether the sheet could be opened.

The snapshot sequence also bounds the otherwise unbounded polling loop. When the snapshots run out first, the outcome is `StillPolling`, meaning the request is still blocked in the loop.

## Model

| member | source | states |
|---|---|---|
| `ToolDispatch.ProcessToolCalls` | core_functions.py:125-170 | The loop's result and its whole ordered trace of status polls, message reads, handler calls, submissions and waits are those of the specification `Poll` over the snapshots. |
| `ToolDispatch.PollOnce` | core_functions.py:127-170 | One pass of the `while True` body stops exactly on "completed" or "failed", with the cleaned reply or the failure. Otherwise it is one poll, the tool round when the status is "requires_action", and one wait. |
| `ToolDispatch.SubmitToolOutputs` | core_functions.py:141-165 | The inner `for` loop over the pending calls produces the round's events `RoundEvents`, call by call, in order. |
| `ToolDispatch.PollNonTerminalStep` | core_functions.py:140-170 | A snapshot that is neither "completed" nor "failed" yields a poll, its round if it requires action, a wait, and then the rest of the loop. |
| `ToolDispatch.PollTerminalStep` | core_functions.py:130-139 | A "completed" snapshot ends the loop with the cleaned latest message after one poll and one message read. A "failed" snapshot ends it with the failure after one poll. |
| `ToolDispatch.PollStopsAtFirstTerminal` | core_functions.py:126-170 | Only "completed" and "failed" end the loop. The first such snapshot `t` decides the result whatever follows it, after exactly t + 1 polls and t waits. |
| `ToolDispatch.PollWithoutTerminalKeepsPolling` | core_functions.py:126-170 | Without a "completed" or "failed" snapshot there is no result, and every snapshot costs exactly one poll and one wait. |
| `ToolDispatch.InProgressThenCompleted` | core_functions.py:126-170 | An in-progress run that then completes gives one poll, one wait, a poll, a message read and the cleaned reply. |
| `ToolDispatch.RoundSubmitsOncePerResolvableCall` | core_functions.py:141-162 | A round submits exactly one output per call that has a handler, in call order. Each output carries the call's own id and the serialised handler result. |
| `ToolDispatch.UnknownToolIsSkipped` | core_functions.py:153-165 | A call with no handler invokes and submits nothing, and the calls after it in the same round are still processed. |
| `ToolDispatch.MalformedArgumentsRunWithEmpty` | core_functions.py:144-162 | Arguments that do not decode make the handler run on `{}`, and its output is still submitted. |
| `ToolDispatch.RoundEventsAppend` | core_functions.py:141-165 | A round over two lists of calls is the round over the first followed by the round over the second. |
| `ToolDispatch.RoundNeitherPollsNorSleeps` | core_functions.py:141-165 | A tool round contains no status poll and no wait. |
| `ReplyCleaning.CleanReply` | core_functions.py:135-137 | The text the loop returns for a completed run: citations deleted, blank runs collapsed, then stripped. It is never longer than the message. `CleanReplyIsClean` states its shape. |
| `ReplyCleaning.StripCitations` | core_functions.py:135 | `re.sub(r"【.*?†.*?】", '', ...)` as a left-to-right scan that deletes each span `CitationLength` finds. Its behaviour is stated by `StripCitationsShortens`, `StripCitationsKeepsOrder`, `StripCitationsLeavesNoCitation`, `StripCitationsIdempotent`, `StripCitationsIdentity` and `StripCitationsByLine`. |
| `ReplyCleaning.StripCitationsShortens` | core_functions.py:135 | The deletion pass never lengthens the text. |
| `ReplyCleaning.CollapseBlanks` | core_functions.py:136-137 | `re.sub(r'[^\S\r\n]+', ' ', ...)`: it never lengthens the text, it is empty exactly when its input is, and it starts with a blank exactly when its input does. The `CollapseBlanks…` lemmas below state the rest. |
| `ReplyCleaning.CleanReplyIsClean` | core_functions.py:135-137 | The cleaned reply has no whitespace at either end and no blank other than a single plain space. It is the slice of the collapsed text left after cutting whitespace from both ends. |
| `ReplyCleaning.CitationLengthIsShortestMatch` | core_functions.py:135 | The scanner finds a span of 【.*?†.*?】 at the start of a text whenever the pattern matches there, and the span it finds is the shortest one, as the lazy match selects. |
| `ReplyCleaning.StripCitationsLeavesNoCitation` | core_functions.py:135 | After the deletion pass the pattern matches nowhere in the text. |
| `ReplyCleaning.StripCitationsIdempotent` | core_functions.py:135 | Running the deletion pass twice changes nothing more. |
| `ReplyCleaning.StripCitationsKeepsOrder` | core_functions.py:135 | The deletion pass only deletes: what is left is a subsequence of the input. |
| `ReplyCleaning.StripCitationsKeepsPlainPrefix` | core_functions.py:135 | Text without an opening bracket is kept unchanged, and scanning resumes after it. |
| `ReplyCleaning.StripCitationsIdentity` | core_functions.py:135 | A text in which the pattern matches nowhere is left unchanged. |
| `ReplyCleaning.StripCitationsByLine` | core_functions.py:135 | Line feeds are kept and no deleted span crosses one, so each line is cleaned on its own. |
| `ReplyCleaning.CitationLengthStopsAtLineFeed` | core_functions.py:135 | The span found at the start of a text never reaches past its first line feed. |
| `ReplyCleaning.FailedOpenBlocksLine` | core_functions.py:135 | On one line, an opening bracket where the pattern fails means the pattern matches nowhere later on that line. |
| `ReplyCleaning.CollapseBlanksIsCollapsed` | core_functions.py:136-137 | After the substitution every blank is a plain space and no two blanks are adjacent. |
| `ReplyCleaning.CollapseBlanksKeepsCollapsed` | core_functions.py:136-137 | A text that is already collapsed is left unchanged. |
| `ReplyCleaning.CollapseBlanksRunIsOneSpace` | core_functions.py:136-137 | Each run of blanks counts as one space: replacing any non-empty run by a single space leaves the result unchanged. |
| `ReplyCleaning.CollapseBlanksKeepsNonBlanks` | core_functions.py:136-137 | Every character that is not a blank, including `\r` and `\n`, is kept, in order. |
| `PyStrings.TrimIsStrippedSlice` | core_functions.py:137 | `strip()` neither starts nor ends with whitespace. It is the slice left after removing only whitespace from both ends. |
| `PyStrings.TrimStartSpec` | core_functions.py:137 | The left strip drops a whitespace prefix and nothing else. |
| `PyStrings.TrimEndSpec` | core_functions.py:137 | The right strip drops a whitespace suffix and nothing else. |
| `ToolRegistry.LoadTools` | core_functions.py:173-193 | The nested loops build exactly `Configs(mods)`, the configs of the Python modules in listing order, and the map left by performing the writes `Registrations(mods)` in order. |
| `ToolRegistry.RegisterAttributes` | core_functions.py:188-191 | The loop over `dir(module)` performs exactly the writes of the callable attributes whose names do not start with `__`, in order. |
| `ToolRegistry.AssignLastWins` | core_functions.py:191 | A name is in the map exactly when some write names it, and it maps to the handler of the last such write. |
| `ToolRegistry.AssignAppend` | core_functions.py:191 | Two batches of writes give the first batch's map overridden by the second's. |
| `ToolRegistry.LaterModulesWin` | core_functions.py:176-191 | When a later module defines a name again, its handler replaces the earlier one. |
| `ToolRegistry.NonPythonFileIgnored` | core_functions.py:177 | A file not ending in `.py` contributes neither a config nor a handler. |
| `ToolRegistry.RegistrationsSpec` | core_functions.py:176-191 | A write of (name, handler) is made exactly when some Python module has a callable attribute of that name, not starting with `__`, holding that handler. |
| `ToolRegistry.RegisteredIff` | core_functions.py:176-191 | A name is registered exactly when some Python module has a callable attribute of that name that does not start with `__`. |
| `ToolRegistry.EligibleSpec` | core_functions.py:188-191 | One module's writes are exactly its callable attributes whose names do not start with `__`. |
| `ToolRegistry.RegistrationsAppend` | core_functions.py:176-191 | The writes of two module lists are those of the first list followed by those of the second. |
| `ToolRegistry.ConfigsAppend` | core_functions.py:185-186 | The configs of two module lists are those of the first list followed by those of the second. |
| `ToolRegistry.PurchaseIntentDirWrites` | core_functions.py:188-191 | Of the fifteen names `dir` lists for `purchase_intent.py`, in sorted order, only `purchase_intent` and the imported `unquote` are written into the map. |
| `ToolRegistry.PurchaseIntentFileRegistersUnquote` | core_functions.py:185-191 | Loading `purchase_intent.py` registers its config and exactly two tools, `purchase_intent` and the imported `unquote`. |
| `ToolRegistry.EligibleAppend` | core_functions.py:188-191 | The writes of two runs of attributes are those of the first run followed by those of the second. |
| `ToolRegistry.EligibleWithoutCallables` | core_functions.py:189-190 | Attributes none of which is callable make no write. |
| `PercentDecoding.Unquote` | utility_tools/purchase_intent.py:51 | Decoding never lengthens the text, and only the empty text decodes to the empty text. |
| `PercentDecoding.UnquoteQuote` | utility_tools/purchase_intent.py:51 | Decoding undoes the ASCII reference encoder `Quote`, whatever its safe set. `Quote` always escapes "%", escapes the other ASCII characters outside the safe set as "%XX", and leaves non-ASCII characters as they are. Every text survives the round trip. |
| `PercentDecoding.UnquoteWithoutPercent` | utility_tools/purchase_intent.py:51 | A text without "%" is left unchanged. |
| `PercentDecoding.DoubleUnquote` | utility_tools/purchase_intent.py:51 | The double decode of the name recovers a text encoded twice by the reference encoder `Quote`, whatever the two safe sets. |
| `PurchaseIntent.PurchaseIntent` | utility_tools/purchase_intent.py:41-88 | The tool function: it either prompts for the missing fields without posting, or posts the payload and replies as the webhook outcome selects. `MissingFieldsPrompt`, `EmptyArgumentsAskForEverything`, `CompleteArgumentsPost` and `WebhookRepliesDiffer` state its behaviour. |
| `PurchaseIntent.CollectMissingFields` | utility_tools/purchase_intent.py:57-65 | The four successive checks build exactly the labels of the empty values, in field order. |
| `PurchaseIntent.Values` | utility_tools/purchase_intent.py:51-54 | There are four values. The last three are the arguments as given, or "" when absent. |
| `PurchaseIntent.MissingLabelsSpec` | utility_tools/purchase_intent.py:57-65 | A label is reported exactly when its value is empty. Only labels are reported, never more than there are. The list is empty exactly when every value is present. |
| `PurchaseIntent.MissingFourLabels` | utility_tools/purchase_intent.py:57-65 | The missing list is the concatenation of the four checks' contributions, in order. |
| `PurchaseIntent.FieldLabelsDistinct` | utility_tools/purchase_intent.py:59-65 | The four labels are distinct. |
| `PurchaseIntent.NameMissingIffRawEmpty` | utility_tools/purchase_intent.py:51-58 | The name counts as missing exactly when the raw `name` argument is absent or empty, even after the two decodes. |
| `PurchaseIntent.MissingFieldsPrompt` | utility_tools/purchase_intent.py:67-68 | With a field missing, the reply is "Por favor proporciona tu " + the missing labels joined with " y " + ".", and nothing is posted. |
| `PurchaseIntent.EmptyArgumentsAskForEverything` | utility_tools/purchase_intent.py:51-68 | With no arguments, as after a failed decode, the reply asks for all four fields in order and nothing is posted. |
| `PurchaseIntent.CompleteArgumentsPost` | utility_tools/purchase_intent.py:67-88 | With every field present, the payload has exactly the four required keys, with the name decoded and the rest as given. The reply is the one the webhook outcome selects. |
| `PurchaseIntent.PayloadKeys` | utility_tools/purchase_intent.py:71-76 | The payload's keys are exactly the schema's required parameters. |
| `PurchaseIntent.PayloadEntries` | utility_tools/purchase_intent.py:71-76 | The payload carries the twice-decoded name and the other three arguments unchanged. |
| `PurchaseIntent.WebhookRepliesDiffer` | utility_tools/purchase_intent.py:83-88 | Status 200 gives the success message, any other status the rejection text with the body, a transport failure the failure text with the reason. The three are distinct. |
| `PurchaseIntent.RequiredMatchesChecks` | utility_tools/purchase_intent.py:35 | The schema's `required` list names exactly the keys the function checks and posts. |
| `Routes.ApiKeyAccepted` | core_functions.py:68-72 | `check_api_key`: the `X-API-KEY` header, present or not, must equal CUSTOM_API_KEY, set or not. `ApiKeyGate` states both cases. |
| `Routes.StartConversation` | main.py:57-83 | `start_conversation` as a function from the request and the outside world's answers to the response and the ordered effects. It answers 401 exactly when the key is refused, and then has no effect. `MissingSheetFailsAfterThreadCreated` and `StartRecordsThread` state the other two paths. |
| `Routes.Chat` | main.py:85-106 | `chat` as a function from the request, the registry and the run's snapshots to the response and the ordered effects. It answers 401 exactly when the key is refused, and then has no effect. `MissingThreadIdRejected`, `ChatPostsThenPolls`, `ChatRepliesWithCleanedMessage` and `ChatFailedRunAnswers500` state the rest. |
| `Routes.FirstIp` | main.py:65-66 | The address `start_conversation` records: the stripped text before the first comma when there is one, otherwise the address itself. It is never longer than the address. `FirstIpWithComma`, `FirstIpWithoutComma` and `FirstIpIdempotent` state the two cases. |
| `Routes.ApiKeyGate` | core_functions.py:68-72 | An unset key admits exactly the requests without the header. A set key admits exactly the requests that send it. |
| `Routes.WrongKeyRejectedFirst` | main.py:57-106 | A key that does not match gives 401 on both routes, before any other effect. |
| `Routes.MissingThreadIdRejected` | main.py:89-95 | `/chat` without a `thread_id`, or with an empty one, answers 400 "Missing thread_id" and has no effect. |
| `Routes.ChatPostsThenPolls` | main.py:87-106 | An accepted `/chat` posts the message (empty when absent), starts a run on the configured assistant, and then runs the loop, whose events follow one for one. A completed result is returned as it is with status 200. A failed result ends in the 500 handler, because `chat` passes the `Response` the loop returned to `jsonify` again. |
| `Routes.ChatFailedRunAnswers500` | main.py:105-106 | When the run first ends with "failed" at snapshot `t`, `/chat` answers with the 500 handler's body after t + 1 polls. |
| `Routes.LoadedToolsAreDispatched` | main.py:35 | With the registry that start-up loads, a pending call is invoked and answered exactly when some Python module defines a callable of that name outside the dunders. The handler used is the last module's definition. |
| `Routes.ChatRepliesWithCleanedMessage` | main.py:101-106 | When the run first ends with "completed" at snapshot `t`, `/chat` answers with that cleaned message after t + 1 polls. |
| `Routes.MissingSheetFailsAfterThreadCreated` | main.py:71-78 | Without a sheet, `/start` answers 500 "Sheet not defined" after the thread was created, with no sheet or Airtable write. |
| `Routes.StartRecordsThread` | main.py:59-83 | With a sheet, `/start` records the thread in the sheet and then in Airtable. Both records carry the first client address and the platform ("Not Specified" when absent), and the response carries the thread id. |
| `Routes.FirstIpWithComma` | main.py:65-66 | An address list yields the text before its first comma, with the whitespace at both ends removed and nothing else changed. |
| `Routes.FirstIpWithoutComma` | main.py:65-66 | An address without a comma is kept as it is. |
| `Routes.FirstIpIdempotent` | main.py:65-66 | The extracted address holds no comma, so extracting again changes nothing. |
| `Routes.BeforeFirst` | main.py:66 | `split(',')[0]` is the longest prefix without a comma. It is shorter than the text exactly when the text holds a comma, and a comma follows it. |

## Left out

- Vendor calls: the OpenAI client, gspread and Google Drive, the Airtable and webhook HTTP requests, and geolocation. Their results are parameters and their calls are effects in a trace. The helpers main.py imports from code that is not part of this model are opaque: `add_thread_to_sheet_with_user_agent`, `add_thread_to_airtable`, `get_client_ip`, `get_geolocation`, `open_spreadsheet_in_folder` and `get_folder_by_id`.
- `add_thread_to_sheet` and `add_thread` (core_functions.py:76-121): thin wrappers over gspread and HTTP, not used by the routes.
- Logging, Flask-Limiter rate limits, CORS, the Flask error handlers and their bodies (401 is modelled as a bare `Unauthorized` body), and `check_openai_version`.
- `time.sleep(4)` is a `Sleep` event, not time.
- Importing and executing plugin files (`importlib`, `exec_module`, `dir`, `getattr`, `callable`) is replaced by a list of modules with their attributes in `dir` order. A plugin that raises while loading, which aborts start-up, is not modelled.
- `json.loads` and `json.dumps` are function-valued parameters. The decoded arguments of `purchase_intent` are a map from strings to strings, so non-string JSON values are not modelled.
- `PercentDecoding.Unquote` decodes only escapes of ASCII characters (section 2.1 of RFC 3986). An escape of an octet of 0x80 or more is kept as written, while Python decodes such octets as UTF-8 with replacement characters.
- The "completed" branch reads `messages.data[0].content[0].text.value`. The model takes that text as part of the snapshot, so an empty message list (an `IndexError` in the source) is not modelled.
- The "failed" branch returns a Flask `Response` built by `jsonify`, and `chat` passes it to `jsonify` again, which raises `TypeError`. The model keeps only the outcome: `/chat` answers 500 with the 500 handler's body. The exception and its logging are not modelled.
- Exceptions inside the loop are not modelled. Handlers and `json.dumps` are total functions here, and provider calls always return. In the source, a handler that raises ends `process_tool_calls` partway through a round and the request with a 500. So do a `json.dumps` that cannot serialise the output and a failing `runs.retrieve`, `messages.list` or `submit_tool_outputs`. One case is the imported `unquote`, registered as a tool, which raises when it is called with the decoded argument dictionary.
- `request.json` failing on a body that is not JSON, and a JSON body that is not an object, are not modelled. The body is a map from strings to strings.
- The loop is unbounded in the source. Here it is bounded by the snapshot sequence, and `StillPolling` stands for a request still waiting when the snapshots run out.
- Whitespace is Python's concrete `str.isspace` set. It is shared by `\s` and `strip()` on `str`.
