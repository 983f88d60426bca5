/** The three tools offered to the language model: their fixed catalog (names, parameters,
    required lists, enumerations) and the dispatcher that runs one call, normalising the search
    arguments in place and turning every failure into the tool's sentinel. */
module Tools {
  import opened Common
  import opened Json
  import opened VcelldbSchema
  import opened VcelldbService

  // ---------------------------------------------------------------- the catalog

  /** One parameter of a tool's JSON schema (descriptions are not modelled). */
  datatype ParamDef = ParamDef(name: string, typ: string, enumValues: Option<seq<string>>,
                               default: Option<Value>, format: Option<string>)

  /** One function tool: its parameters, the required names, whether extra properties are
      refused, and strict mode. */
  datatype ToolDef = ToolDef(name: string, params: seq<ParamDef>, required: seq<string>,
                             additionalProperties: bool, strict: bool)

  const SearchTool: string := "fetch_biomodels"
  const SimulationTool: string := "fetch_simulation_details"
  const VcmlTool: string := "get_vcml_file"

  function Text(name: string, default: Option<Value>, format: Option<string>): ParamDef {
    ParamDef(name, "string", None, default, format)
  }

  /** `fetch_biomodels`: the nine search fields, every one required. */
  const SearchDef: ToolDef :=
    ToolDef(SearchTool,
            [ Text("bmId", Some(Str("")), None),
              Text("bmName", Some(Str("")), None),
              ParamDef("category", "string", Some(["all", "public", "shared", "tutorial", "educational"]), None, None),
              Text("owner", Some(Str("")), None),
              Text("savedLow", Some(Str("")), Some("date")),
              Text("savedHigh", Some(Str("")), Some("date")),
              ParamDef("startRow", "integer", None, Some(Num(1)), None),
              ParamDef("maxRows", "integer", None, Some(Num(1000)), None),
              ParamDef("orderBy", "string", Some(["date_desc", "date_asc", "name_desc", "name_asc"]),
                       Some(Str("date_desc")), None) ],
            ["bmId", "bmName", "category", "owner", "savedLow", "savedHigh", "startRow", "maxRows", "orderBy"],
            false, true)

  /** `fetch_simulation_details`: a model id and a simulation id. */
  const SimulationDef: ToolDef :=
    ToolDef(SimulationTool, [Text("bmId", None, None), Text("simId", None, None)], ["bmId", "simId"], false, true)

  /** `get_vcml_file`: a model id. */
  const VcmlDef: ToolDef :=
    ToolDef(VcmlTool, [Text("biomodel_id", None, None)], ["biomodel_id"], false, true)

  const Catalog: seq<ToolDef> := [SearchDef, SimulationDef, VcmlDef]

  function ToolNames(ts: seq<ToolDef>): (r: seq<string>)
    ensures |r| == |ts| && forall i :: 0 <= i < |ts| ==> r[i] == ts[i].name
  {
    if |ts| == 0 then [] else [ts[0].name] + ToolNames(ts[1..])
  }

  /** A tool definition that refuses extra properties, runs in strict mode and requires every
      parameter it declares, in declaration order. */
  predicate StrictAndComplete(t: ToolDef) {
    && !t.additionalProperties && t.strict
    && |t.required| == |t.params|
    && forall i :: 0 <= i < |t.params| ==> t.required[i] == t.params[i].name
  }

  /** The catalog holds exactly the three tools, under distinct names, each strict and
      requiring all of its parameters. */
  lemma CatalogShape()
    ensures ToolNames(Catalog) == [SearchTool, SimulationTool, VcmlTool]
    ensures forall i, j :: 0 <= i < j < |Catalog| ==> Catalog[i].name != Catalog[j].name
    ensures forall i :: 0 <= i < |Catalog| ==> StrictAndComplete(Catalog[i])
  {
    SearchDefShape();
    assert StrictAndComplete(SimulationDef);
    assert StrictAndComplete(VcmlDef);
  }

  /** The search tool's parameters are the nine fields of the search record, and its two
      enumerations list exactly the wire values of the category and sort-order enumerations;
      the row limit defaults to 1000 and the first row to 1. */
  lemma SearchDefShape()
    ensures StrictAndComplete(SearchDef)
    ensures forall k :: k in SearchDef.required <==> k in BiomodelFieldNames
    ensures SearchDef.params[2].name == "category" && SearchDef.params[2].enumValues == Some(CategoryValues)
    ensures SearchDef.params[8].name == "orderBy" && SearchDef.params[8].enumValues == Some(OrderByValues)
    ensures SearchDef.params[6].name == "startRow" && SearchDef.params[6].default == Some(Num(1))
    ensures SearchDef.params[7].name == "maxRows" && SearchDef.params[7].default == Some(Num(1000))
  {
  }

  // ---------------------------------------------------------------- argument normalisation

  /** The search arguments as the dispatcher rewrites them: an empty-string date bound becomes
      `None`, and the row limit is forced to 1000. */
  function NormaliseSearchArgs(args: seq<(string, Value)>): (r: seq<(string, Value)>)
    ensures Get(r, "maxRows") == Some(Num(1000))
    ensures Get(r, "savedLow") ==
              (if Get(args, "savedLow") == Some(Str("")) then Some(Null) else Get(args, "savedLow"))
    ensures Get(r, "savedHigh") ==
              (if Get(args, "savedHigh") == Some(Str("")) then Some(Null) else Get(args, "savedHigh"))
    ensures forall k :: k != "maxRows" && k != "savedLow" && k != "savedHigh" ==> Get(r, k) == Get(args, k)
  {
    var a1 := if Get(args, "savedLow") == Some(Str("")) then Set(args, "savedLow", Null) else args;
    var a2 := if Get(a1, "savedHigh") == Some(Str("")) then Set(a1, "savedHigh", Null) else a1;
    var r := Set(a2, "maxRows", Num(1000));
    forall k ensures Get(a1, k) == (if k == "savedLow" && Get(args, "savedLow") == Some(Str("")) then Some(Null) else Get(args, k)) {
      GetSet(args, "savedLow", Null, k);
    }
    forall k ensures Get(a2, k) == (if k == "savedHigh" && Get(a1, "savedHigh") == Some(Str("")) then Some(Null) else Get(a1, k)) {
      GetSet(a1, "savedHigh", Null, k);
    }
    forall k ensures Get(r, k) == (if k == "maxRows" then Some(Num(1000)) else Get(a2, k)) {
      GetSet(a2, "maxRows", Num(1000), k);
    }
    r
  }

  /** Normalisation keeps every key where it was and adds at most `maxRows`, at the end. */
  lemma NormalisedKeys(args: seq<(string, Value)>)
    ensures "maxRows" in Keys(args) ==> Keys(NormaliseSearchArgs(args)) == Keys(args)
    ensures "maxRows" !in Keys(args) ==> Keys(NormaliseSearchArgs(args)) == Keys(args) + ["maxRows"]
  {
    var a1 := if Get(args, "savedLow") == Some(Str("")) then Set(args, "savedLow", Null) else args;
    var a2 := if Get(a1, "savedHigh") == Some(Str("")) then Set(a1, "savedHigh", Null) else a1;
    if Get(args, "savedLow") == Some(Str("")) {
      GetSpec(args, "savedLow");
      KeysSet(args, "savedLow", Null);
    }
    if Get(a1, "savedHigh") == Some(Str("")) {
      GetSpec(a1, "savedHigh");
      KeysSet(a1, "savedHigh", Null);
    }
    KeysSet(a2, "maxRows", Num(1000));
  }

  // ---------------------------------------------------------------- dispatch

  /** The value a call returns together with the argument dictionary as it stands afterwards
      (the search branch rewrites it in place). */
  datatype Outcome = Outcome(result: Value, args: Value)

  /** The sentinel a failing call returns: `[]` for the two fetch tools, `{}` otherwise. */
  function Sentinel(name: string): (v: Value)
    ensures v == EmptyArr || v == EmptyObj
  {
    if name == SearchTool || name == SimulationTool then EmptyArr else EmptyObj
  }

  /** `execute_tool(name, args)` with the HTTP client `fetch`. */
  function ExecuteTool(name: string, args: Value, fetch: Fetch): (o: Outcome)
    ensures name != SearchTool ==> o.args == args
    ensures name != SearchTool && name != SimulationTool && name != VcmlTool ==> o.result == EmptyObj
    ensures name == SearchTool && args.Obj? ==> o.args == Obj(NormaliseSearchArgs(args.entries))
    ensures !args.Obj? ==> o == Outcome(Sentinel(name), args)
    ensures name == SearchTool && args.Obj? ==>
              var p := ValidateBiomodelParams(NormaliseSearchArgs(args.entries));
              o.result == (if p.Ok? && FetchBiomodels(p.value, fetch).Ok? then FetchBiomodels(p.value, fetch).value
                           else EmptyArr)
    ensures name == SimulationTool && args.Obj? ==>
              var p := ValidateSimulationParams(args.entries);
              o.result == (if p.Ok? && FetchSimulationDetails(p.value, fetch).Ok? then FetchSimulationDetails(p.value, fetch).value
                           else EmptyArr)
  {
    if name == SearchTool then
      match args
      case Obj(entries) =>
        var normalised := NormaliseSearchArgs(entries);
        var result :=
          match ValidateBiomodelParams(normalised)
          case Err(_) => Sentinel(name)
          case Ok(p) =>
            match FetchBiomodels(p, fetch)
            case Err(_) => Sentinel(name)
            case Ok(v) => v;
        Outcome(result, Obj(normalised))
      case _ => Outcome(Sentinel(name), args)
    else if name == SimulationTool then
      var result :=
        match args
        case Obj(entries) =>
          (match ValidateSimulationParams(entries)
           case Err(_) => Sentinel(name)
           case Ok(p) =>
             match FetchSimulationDetails(p, fetch)
             case Err(_) => Sentinel(name)
             case Ok(v) => v)
        case _ => Sentinel(name);
      Outcome(result, args)
    else if name == VcmlTool then
      var result :=
        match args
        case Obj(entries) =>
          (match Get(entries, "biomodel_id")
           case None => Sentinel(name)
           case Some(id) =>
             match GetVcmlFile(PyStr(id), fetch)
             case Err(_) => Sentinel(name)
             case Ok(text) => Str(text))
        case _ => Sentinel(name);
      Outcome(result, args)
    else
      Outcome(EmptyObj, args)
  }

  /** An unknown tool returns `{}` without touching the client: its outcome is the same for
      every client. */
  lemma UnknownToolIgnoresClient(name: string, args: Value, f1: Fetch, f2: Fetch)
    requires name != SearchTool && name != SimulationTool && name != VcmlTool
    ensures ExecuteTool(name, args, f1) == ExecuteTool(name, args, f2) == Outcome(EmptyObj, args)
  {
  }

  /** The search call sends the normalised arguments: whatever row limit was asked for, the
      validated parameters carry 1000 rows. */
  lemma SearchRowsCapped(entries: seq<(string, Value)>)
    requires ValidateBiomodelParams(NormaliseSearchArgs(entries)).Ok?
    ensures ValidateBiomodelParams(NormaliseSearchArgs(entries)).value.maxRows == Some(1000)
  {
    ValidateKeepsGiven(NormaliseSearchArgs(entries));
  }

  /** A lower date bound given as "" reaches the search absent. */
  lemma EmptySavedLowDropped(entries: seq<(string, Value)>)
    requires ValidateBiomodelParams(NormaliseSearchArgs(entries)).Ok?
    requires Get(entries, "savedLow") == Some(Str(""))
    ensures ValidateBiomodelParams(NormaliseSearchArgs(entries)).value.savedLow.None?
  {
    ValidateKeepsGiven(NormaliseSearchArgs(entries));
  }

  /** An upper date bound given as "" reaches the search absent. */
  lemma EmptySavedHighDropped(entries: seq<(string, Value)>)
    requires ValidateBiomodelParams(NormaliseSearchArgs(entries)).Ok?
    requires Get(entries, "savedHigh") == Some(Str(""))
    ensures ValidateBiomodelParams(NormaliseSearchArgs(entries)).value.savedHigh.None?
  {
    ValidateKeepsGiven(NormaliseSearchArgs(entries));
  }

  /** A validated record carries the row limit and the date bounds as given. */
  lemma ValidateKeepsGiven(args: seq<(string, Value)>)
    requires ValidateBiomodelParams(args).Ok?
    ensures Get(args, "maxRows") == Some(Num(1000)) ==> ValidateBiomodelParams(args).value.maxRows == Some(1000)
    ensures Get(args, "savedLow") == Some(Null) ==> ValidateBiomodelParams(args).value.savedLow.None?
    ensures Get(args, "savedHigh") == Some(Null) ==> ValidateBiomodelParams(args).value.savedHigh.None?
  {
  }

  /** Any failure of the search call, a refused argument set included, yields `[]`. */
  lemma SearchFailureIsEmptyList(entries: seq<(string, Value)>, fetch: Fetch)
    requires ValidateBiomodelParams(NormaliseSearchArgs(entries)).Err? ||
             FetchBiomodels(ValidateBiomodelParams(NormaliseSearchArgs(entries)).value, fetch).Err?
    ensures ExecuteTool(SearchTool, Obj(entries), fetch).result == EmptyArr
    ensures ExecuteTool(SearchTool, Obj(entries), fetch).args == Obj(NormaliseSearchArgs(entries))
  {
  }

  /** Every failure of a simulation call yields `[]`: arguments that are not a dictionary, a
      `bmId` or `simId` that is missing or not a string, and a failed fetch. */
  lemma SimulationFailureIsEmptyList(args: Value, fetch: Fetch)
    requires || !args.Obj?
             || !GivenText(args.entries, "bmId")
             || !GivenText(args.entries, "simId")
             || FetchSimulationDetails(ValidateSimulationParams(args.entries).value, fetch).Err?
    ensures ExecuteTool(SimulationTool, args, fetch).result == EmptyArr
  {
  }

  /** A simulation call with both identifiers as strings asks for the simulation URL of those
      identifiers, and yields the decoded body when the request succeeds. */
  lemma SimulationSuccess(entries: seq<(string, Value)>, bmId: string, simId: string, fetch: Fetch)
    requires Get(entries, "bmId") == Some(Str(bmId)) && Get(entries, "simId") == Some(Str(simId))
    requires Send(fetch, SimulationUrl(bmId, simId)).Ok? && fetch(SimulationUrl(bmId, simId)).response.json.Some?
    ensures ExecuteTool(SimulationTool, Obj(entries), fetch).result == fetch(SimulationUrl(bmId, simId)).response.json.value
  {
  }

  /** A search call whose normalised arguments validate to `p` yields what the search returns
      for `p` when it succeeds. */
  lemma SearchSuccess(entries: seq<(string, Value)>, p: BiomodelParams, fetch: Fetch)
    requires ValidateBiomodelParams(NormaliseSearchArgs(entries)) == Ok(p)
    requires FetchBiomodels(p, fetch).Ok?
    ensures ExecuteTool(SearchTool, Obj(entries), fetch).result == FetchBiomodels(p, fetch).value
    ensures p.maxRows == Some(1000)
  {
    SearchResultOf(entries, p, fetch);
    SearchRowsCapped(entries);
  }

  lemma SearchResultOf(entries: seq<(string, Value)>, p: BiomodelParams, fetch: Fetch)
    requires ValidateBiomodelParams(NormaliseSearchArgs(entries)) == Ok(p)
    requires FetchBiomodels(p, fetch).Ok?
    ensures ExecuteTool(SearchTool, Obj(entries), fetch).result == FetchBiomodels(p, fetch).value
  {
  }

  /** A VCML call without `biomodel_id`, or whose download fails, yields `{}`; a successful one
      yields the downloaded text. */
  lemma VcmlOutcomes(entries: seq<(string, Value)>, fetch: Fetch)
    ensures Get(entries, "biomodel_id").None? ==> ExecuteTool(VcmlTool, Obj(entries), fetch).result == EmptyObj
    ensures Get(entries, "biomodel_id").Some? ==>
              var file := GetVcmlFile(PyStr(Get(entries, "biomodel_id").value), fetch);
              ExecuteTool(VcmlTool, Obj(entries), fetch).result ==
                (if file.Ok? then Str(file.value) else EmptyObj)
  {
  }
}
