/** One chat turn with tool calling. The conversation is seeded with the system and user
    prompts, a first completion request offers the tool catalog, the assistant's reply is
    appended, each requested tool is run in order and answered with a `tool` message, and a
    final completion request without tools produces the answer. Alongside the answer the turn
    reports the model keys of the last dictionary-shaped tool result. The language model is an
    oracle from request to reply; the JSON parser of tool arguments is an oracle too. */
module LlmService {
  import opened Common
  import opened Json
  import opened Tools
  import opened VcelldbService
  import VcelldbSchema

  /** One tool invocation the model asks for. */
  datatype ToolCall = ToolCall(id: string, name: string, arguments: string)

  /** What a completion returns: optional text and the tool calls it asks for. */
  datatype Reply = Reply(content: Option<string>, toolCalls: seq<ToolCall>)

  datatype Message =
    | System(text: string)
    | User(text: string)
    | Assistant(reply: Reply)
    | ToolAnswer(callId: string, content: string)

  /** A completion request: the conversation, and the tool catalog with its choice mode when
      tools are offered. */
  datatype Request = Request(messages: seq<Message>, tools: Option<seq<ToolDef>>, toolChoice: Option<string>)

  /** The language model. */
  type Complete = Request -> Reply

  /** The JSON parser of tool arguments; `None` is a decoding failure. */
  type ParseArgs = string -> Option<Value>

  /** The tool executor: a tool name and its decoded arguments to the tool's result. */
  type Execute = (string, Value) -> Value

  /** The executor of this system: the dispatcher over the three tools with the HTTP client
      `fetch`. A name outside the catalog answers `{}`; arguments that are not a dictionary
      answer the tool's sentinel; the simulation tool answers the decoded body of the
      simulation URL of its two string identifiers, or `[]`. */
  function Dispatcher(fetch: Fetch): (execute: Execute)
    ensures forall name, args: Value :: name !in ToolNames(Catalog) ==> execute(name, args) == EmptyObj
    ensures forall name, args: Value :: !args.Obj? ==> execute(name, args) == Sentinel(name)
    ensures forall entries, bmId, simId ::
              Get(entries, "bmId") == Some(Str(bmId)) && Get(entries, "simId") == Some(Str(simId)) ==>
                execute(SimulationTool, Obj(entries)) ==
                  (if Send(fetch, SimulationUrl(bmId, simId)).Ok? && fetch(SimulationUrl(bmId, simId)).response.json.Some?
                   then fetch(SimulationUrl(bmId, simId)).response.json.value else EmptyArr)
    ensures forall entries ::
              VcelldbSchema.ValidateSimulationParams(entries).Err? ==> execute(SimulationTool, Obj(entries)) == EmptyArr
  {
    CatalogShape();
    (name, args) => ExecuteTool(name, args, fetch).result
  }

  /** The two messages every conversation starts from. */
  function Seed(systemPrompt: string, userPrompt: string): seq<Message> {
    [System(systemPrompt), User(userPrompt)]
  }

  // ---------------------------------------------------------------- plain completion

  /** `get_llm_response`: one request without tools from the two prompts; the answer is the
      reply's text. */
  function GetLlmResponse(systemPrompt: string, userPrompt: string, complete: Complete)
    : (r: (Request, Option<string>))
    ensures r.0.messages == Seed(systemPrompt, userPrompt)
    ensures r.0.tools.None? && r.0.toolChoice.None?
    ensures r.1 == complete(r.0).content
  {
    var request := Request(Seed(systemPrompt, userPrompt), None, None);
    (request, complete(request).content)
  }

  // ---------------------------------------------------------------- tool-calling turn

  /** The first request of a turn: the seed, the whole catalog, automatic tool choice. */
  function FirstRequest(systemPrompt: string, userPrompt: string): Request {
    Request(Seed(systemPrompt, userPrompt), Some(Catalog), Some("auto"))
  }

  /** Every call's arguments decode. */
  predicate AllParse(calls: seq<ToolCall>, parse: ParseArgs) {
    forall i :: 0 <= i < |calls| ==> parse(calls[i].arguments).Some?
  }

  /** What running one call yields. */
  function CallResult(call: ToolCall, parse: ParseArgs, execute: Execute): Value
    requires parse(call.arguments).Some?
  {
    execute(call.name, parse(call.arguments).value)
  }

  /** The key list a dictionary result carries, `[]` when it has none. */
  function KeysEntry(entries: seq<(string, Value)>): (v: Value)
    ensures KeysField !in Keys(entries) ==> v == EmptyArr
    ensures KeysField in Keys(entries) ==> exists i :: 0 <= i < |entries| && entries[i] == (KeysField, v)
  {
    GetSpec(entries, KeysField);
    Get(entries, KeysField).GetOr(EmptyArr)
  }

  /** The model keys after a sequence of tool results: the entry of the last dictionary among
      them; `[]` when there is none. */
  function LatestKeys(results: seq<Value>): Value {
    if |results| == 0 then EmptyArr
    else if results[|results| - 1].Obj? then KeysEntry(results[|results| - 1].entries)
    else LatestKeys(results[..|results| - 1])
  }

  /** The results of running `calls` in order. */
  function Results(calls: seq<ToolCall>, parse: ParseArgs, execute: Execute): (rs: seq<Value>)
    requires AllParse(calls, parse)
    ensures |rs| == |calls|
    ensures forall i :: 0 <= i < |calls| ==> rs[i] == CallResult(calls[i], parse, execute)
  {
    if |calls| == 0 then []
    else [CallResult(calls[0], parse, execute)] + Results(calls[1..], parse, execute)
  }

  /** The tool messages answering `calls`, one per call, in order. */
  predicate AnswersCalls(msgs: seq<Message>, calls: seq<ToolCall>, parse: ParseArgs, execute: Execute)
    requires AllParse(calls, parse)
  {
    && |msgs| == |calls|
    && forall i :: 0 <= i < |calls| ==>
         msgs[i] == ToolAnswer(calls[i].id, PyStr(CallResult(calls[i], parse, execute)))
  }

  /** The record of a finished turn: both requests made, the final conversation, the answer
      and the model keys. */
  datatype Turn = Turn(requests: seq<Request>, messages: seq<Message>, answer: Option<string>, bmkeys: Value)

  /** `get_response_with_tools`. A tool call whose arguments do not decode aborts the turn. */
  method GetResponseWithTools(systemPrompt: string, userPrompt: string, complete: Complete,
                              parse: ParseArgs, execute: Execute)
    returns (r: Result<Turn, string>)
    ensures var calls := complete(FirstRequest(systemPrompt, userPrompt)).toolCalls;
            r.Ok? <==> AllParse(calls, parse)
    ensures r.Ok? ==>
              var calls := complete(FirstRequest(systemPrompt, userPrompt)).toolCalls;
              var t := r.value;
              && |t.requests| == 2
              && t.requests[0] == FirstRequest(systemPrompt, userPrompt)
              && t.requests[1] == Request(t.messages, None, None)
              && t.answer == complete(t.requests[1]).content
              && |t.messages| == 3 + |calls|
              && t.messages[..2] == Seed(systemPrompt, userPrompt)
              && t.messages[2] == Assistant(complete(t.requests[0]))
              && AnswersCalls(t.messages[3..], calls, parse, execute)
              && t.bmkeys == LatestKeys(Results(calls, parse, execute))
  {
    var first := FirstRequest(systemPrompt, userPrompt);
    var reply := complete(first);
    var run := RunToolCalls(reply.toolCalls, parse, execute);
    if run.None? {
      return Err("JSONDecodeError");
    }
    var (answers, bmkeys) := run.value;
    var messages := Seed(systemPrompt, userPrompt) + [Assistant(reply)] + answers;
    assert messages[3..] == answers;
    var last := Request(messages, None, None);
    var answer := complete(last).content;
    r := Ok(Turn([first, last], messages, answer, bmkeys));
  }

  /** The tool loop: runs `calls` in order, answering each with a `tool` message and tracking
      the model keys; `None` when some call's arguments do not decode. */
  method RunToolCalls(calls: seq<ToolCall>, parse: ParseArgs, execute: Execute)
    returns (r: Option<(seq<Message>, Value)>)
    ensures r.Some? <==> AllParse(calls, parse)
    ensures r.Some? ==> AnswersCalls(r.value.0, calls, parse, execute)
    ensures r.Some? ==> r.value.1 == LatestKeys(Results(calls, parse, execute))
  {
    var messages: seq<Message> := [];
    var bmkeys := EmptyArr;
    var results: seq<Value> := [];
    var i := 0;
    while i < |calls|
      invariant 0 <= i <= |calls|
      invariant Collected(calls, parse, execute, results, messages, i)
      invariant bmkeys == LatestKeys(results)
    {
      var call := calls[i];
      var parsed := parse(call.arguments);
      if parsed.None? {
        assert !parse(calls[i].arguments).Some?;
        return None;
      }
      var result := execute(call.name, parsed.value);
      if result.Obj? {
        bmkeys := KeysEntry(result.entries);
      }
      KeysStep(results, result);
      CollectStep(calls, parse, execute, results, messages, i);
      results := results + [result];
      messages := messages + [ToolAnswer(call.id, PyStr(result))];
      i := i + 1;
    }
    RunComplete(calls, parse, execute, results, messages);
    r := Some((messages, bmkeys));
  }

  /** The first `n` calls decoded, ran, and were answered, in order. */
  predicate Collected(calls: seq<ToolCall>, parse: ParseArgs, execute: Execute,
                      results: seq<Value>, messages: seq<Message>, n: nat)
  {
    && n <= |calls| && |results| == n && |messages| == n
    && (forall j :: 0 <= j < n ==> parse(calls[j].arguments).Some?)
    && (forall j :: 0 <= j < n ==> results[j] == execute(calls[j].name, parse(calls[j].arguments).value))
    && (forall j :: 0 <= j < n ==> messages[j] == ToolAnswer(calls[j].id, PyStr(results[j])))
  }

  /** Running the next call extends what was collected by one. */
  lemma CollectStep(calls: seq<ToolCall>, parse: ParseArgs, execute: Execute,
                    results: seq<Value>, messages: seq<Message>, n: nat)
    requires Collected(calls, parse, execute, results, messages, n)
    requires n < |calls| && parse(calls[n].arguments).Some?
    ensures var result := execute(calls[n].name, parse(calls[n].arguments).value);
            Collected(calls, parse, execute, results + [result],
                      messages + [ToolAnswer(calls[n].id, PyStr(result))], n + 1)
  {
  }

  /** One more result moves the keys to it when it is a dictionary, and leaves them otherwise. */
  lemma KeysStep(results: seq<Value>, result: Value)
    ensures LatestKeys(results + [result]) ==
              if result.Obj? then KeysEntry(result.entries) else LatestKeys(results)
  {
    assert (results + [result])[..|results|] == results;
  }

  /** Results and answers collected for every call are the turn's results and answers. */
  lemma RunComplete(calls: seq<ToolCall>, parse: ParseArgs, execute: Execute,
                    results: seq<Value>, messages: seq<Message>)
    requires Collected(calls, parse, execute, results, messages, |calls|)
    ensures AllParse(calls, parse)
    ensures results == Results(calls, parse, execute)
    ensures AnswersCalls(messages, calls, parse, execute)
  {
  }

  // ---------------------------------------------------------------- the model keys

  /** Without a dictionary among the results the keys stay `[]`, in particular when the model
      asked for no tool at all. */
  lemma {:induction false} NoDictNoKeys(results: seq<Value>)
    requires forall i :: 0 <= i < |results| ==> !results[i].Obj?
    ensures LatestKeys(results) == EmptyArr
  {
    if |results| > 0 {
      NoDictNoKeys(results[..|results| - 1]);
    }
  }

  /** The last dictionary wins: whatever came before it, the keys are its entry, and results
      after it that are text or lists leave them unchanged. */
  lemma {:induction false} LastDictWins(results: seq<Value>, k: nat)
    requires k < |results| && results[k].Obj?
    requires forall i :: k < i < |results| ==> !results[i].Obj?
    ensures LatestKeys(results) == KeysEntry(results[k].entries)
  {
    if |results| - 1 != k {
      LastDictWins(results[..|results| - 1], k);
    }
  }

  /** A dictionary without the key list resets the keys to `[]`, such as the `{}` a failing
      tool returns. */
  lemma EmptyDictResets(results: seq<Value>)
    requires |results| > 0 && results[|results| - 1] == EmptyObj
    ensures LatestKeys(results) == EmptyArr
  {
  }

  /** A search result reports the keys it extracted. */
  lemma SearchResultKeys(params: seq<(string, Value)>, biomodels: Value, models: seq<seq<(string, Value)>>)
    ensures KeysEntry(SearchResult(params, biomodels, models).entries) == Arr(ModelKeys(models))
  {
    var entries := SearchResult(params, biomodels, models).entries;
    assert entries[0].0 != KeysField && entries[1].0 != KeysField;
    assert Get(entries[2..], KeysField) == Some(Arr(ModelKeys(models)));
    assert Get(entries[1..], KeysField) == Get(entries[2..], KeysField);
  }
}
