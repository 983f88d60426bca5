/** The request records of the biomodel database API and their validation: the category and
    sort-order enumerations, the search parameters with their defaults and the simulation-detail
    parameters. Validation follows the model library's lax mode on JSON-shaped input; unknown
    keys are ignored. */
module VcelldbSchema {
  import opened Common
  import opened Strings
  import opened Json
  import opened Validation
  import opened Dates

  // ---------------------------------------------------------------- enumerations

  datatype Category = All | Public | Shared | Tutorials | Educational

  /** The wire value of each category; the member `Tutorials` travels as "tutorial". */
  function CategoryValue(c: Category): string {
    match c
    case All => "all"
    case Public => "public"
    case Shared => "shared"
    case Tutorials => "tutorial"
    case Educational => "educational"
  }

  const CategoryValues: seq<string> := ["all", "public", "shared", "tutorial", "educational"]

  function ParseCategory(s: string): (r: Option<Category>)
    ensures r.Some? ==> CategoryValue(r.value) == s
  {
    if s == "all" then Some(All)
    else if s == "public" then Some(Public)
    else if s == "shared" then Some(Shared)
    else if s == "tutorial" then Some(Tutorials)
    else if s == "educational" then Some(Educational)
    else None
  }

  /** Exactly five categories with five distinct wire values: parsing accepts exactly the listed
      values and recovers every category from its value. */
  lemma CategoryEnumeration(c: Category, s: string)
    ensures ParseCategory(CategoryValue(c)) == Some(c)
    ensures ParseCategory(s).Some? <==> s in CategoryValues
    ensures CategoryValue(c) in CategoryValues
    ensures |CategoryValues| == 5
    ensures forall i, j :: 0 <= i < j < |CategoryValues| ==> CategoryValues[i] != CategoryValues[j]
  {
  }

  datatype OrderBy = DateDesc | DateAsc | NameDesc | NameAsc

  function OrderByValue(o: OrderBy): string {
    match o
    case DateDesc => "date_desc"
    case DateAsc => "date_asc"
    case NameDesc => "name_desc"
    case NameAsc => "name_asc"
  }

  const OrderByValues: seq<string> := ["date_desc", "date_asc", "name_desc", "name_asc"]

  function ParseOrderBy(s: string): (r: Option<OrderBy>)
    ensures r.Some? ==> OrderByValue(r.value) == s
  {
    if s == "date_desc" then Some(DateDesc)
    else if s == "date_asc" then Some(DateAsc)
    else if s == "name_desc" then Some(NameDesc)
    else if s == "name_asc" then Some(NameAsc)
    else None
  }

  /** Exactly four sort orders with four distinct wire values. */
  lemma OrderByEnumeration(o: OrderBy, s: string)
    ensures ParseOrderBy(OrderByValue(o)) == Some(o)
    ensures ParseOrderBy(s).Some? <==> s in OrderByValues
    ensures OrderByValue(o) in OrderByValues
    ensures |OrderByValues| == 4
    ensures forall i, j :: 0 <= i < j < |OrderByValues| ==> OrderByValues[i] != OrderByValues[j]
  {
  }

  // ---------------------------------------------------------------- field validators

  function OptCategory(v: Value): Option<Option<Category>> {
    match v
    case Null => Some(None)
    case Str(s) => (match ParseCategory(s) case None => None case Some(c) => Some(Some(c)))
    case _ => None
  }

  function OptOrderBy(v: Value): Option<Option<OrderBy>> {
    match v
    case Null => Some(None)
    case Str(s) => (match ParseOrderBy(s) case None => None case Some(o) => Some(Some(o)))
    case _ => None
  }

  /** An optional date field: `null` is absent, text must be a full date, a `date` object is
      kept, anything else fails. */
  function OptDate(v: Value): (r: Option<Option<Date>>)
    ensures v.Null? ==> r == Some(None)
    ensures v.Str? ==> (r.Some? <==> ParseDate(v.s).Some?)
    ensures v.DateObj? ==> (r.Some? <==> ValidDate(v.d))
    ensures !v.Null? && !v.Str? && !v.DateObj? ==> r.None?
    ensures r.Some? && r.value.Some? ==> (v.Str? || v.DateObj?) && ValidDate(r.value.value)
    ensures r.Some? && r.value.Some? && v.Str? ==> ParseDate(v.s) == r.value
    ensures r.Some? && r.value.Some? && v.DateObj? ==> r.value.value == v.d
  {
    match v
    case Null => Some(None)
    case Str(s) => (match ParseDate(s) case None => None case Some(d) => Some(Some(d)))
    case DateObj(d) => if ValidDate(d) then Some(Some(d)) else None
    case _ => None
  }

  // ---------------------------------------------------------------- search parameters

  datatype BiomodelParams = BiomodelParams(
    bmName: Option<string>,
    bmId: Option<string>,
    category: Option<Category>,
    owner: Option<string>,
    savedLow: Option<Date>,
    savedHigh: Option<Date>,
    startRow: Option<int>,
    maxRows: Option<int>,
    orderBy: Option<OrderBy>)

  /** The record built from no arguments at all. */
  const DefaultBiomodelParams: BiomodelParams :=
    BiomodelParams(None, None, Some(All), None, None, None, Some(1), Some(100), Some(DateDesc))

  /** The search-parameter record built from keyword arguments; a failure lists every field
      that fails, in declaration order. */
  function ValidateBiomodelParams(args: seq<(string, Value)>): (r: Result<BiomodelParams, seq<string>>)
    ensures r.Ok? ==> DatesValid(r.value)
    ensures r.Err? ==> r.error != [] && forall e :: e in r.error ==> e in BiomodelFieldNames
  {
    BuildBiomodelParams(Get(args, "bmName"), Get(args, "bmId"), Get(args, "category"),
                        Get(args, "owner"), Get(args, "savedLow"), Get(args, "savedHigh"),
                        Get(args, "startRow"), Get(args, "maxRows"), Get(args, "orderBy"))
  }

  /** The record from the value given for each field (`None` when the key is absent). */
  function BuildBiomodelParams(bmName: Option<Value>, bmId: Option<Value>, category: Option<Value>,
                               owner: Option<Value>, savedLow: Option<Value>,
                               savedHigh: Option<Value>, startRow: Option<Value>,
                               maxRows: Option<Value>, orderBy: Option<Value>)
    : (r: Result<BiomodelParams, seq<string>>)
    ensures r.Ok? ==> DatesValid(r.value)
    ensures r.Err? ==> r.error != [] && forall e :: e in r.error ==> e in BiomodelFieldNames
  {
    var d := DefaultBiomodelParams;
    var bmName := Field("bmName", bmName, d.bmName, OptText(bmName.GetOr(Null)));
    var bmId := Field("bmId", bmId, d.bmId, OptText(bmId.GetOr(Null)));
    var category := Field("category", category, d.category, OptCategory(category.GetOr(Null)));
    var owner := Field("owner", owner, d.owner, OptText(owner.GetOr(Null)));
    var savedLow := Field("savedLow", savedLow, d.savedLow, OptDate(savedLow.GetOr(Null)));
    var savedHigh := Field("savedHigh", savedHigh, d.savedHigh, OptDate(savedHigh.GetOr(Null)));
    var startRow := Field("startRow", startRow, d.startRow, OptInt(startRow.GetOr(Null)));
    var maxRows := Field("maxRows", maxRows, d.maxRows, OptInt(maxRows.GetOr(Null)));
    var orderBy := Field("orderBy", orderBy, d.orderBy, OptOrderBy(orderBy.GetOr(Null)));
    var errors := Errs(bmName) + Errs(bmId) + Errs(category) + Errs(owner) + Errs(savedLow)
                  + Errs(savedHigh) + Errs(startRow) + Errs(maxRows) + Errs(orderBy);
    if errors != [] then Err(errors)
    else Ok(BiomodelParams(bmName.value, bmId.value, category.value, owner.value, savedLow.value,
                           savedHigh.value, startRow.value, maxRows.value, orderBy.value))
  }

  function CategoryDump(o: Option<Category>): Value {
    match o case None => Null case Some(c) => Str(CategoryValue(c))
  }

  function DateDump(o: Option<Date>): Value {
    match o case None => Null case Some(d) => DateObj(d)
  }

  function OrderByDump(o: Option<OrderBy>): Value {
    match o case None => Null case Some(x) => Str(OrderByValue(x))
  }

  /** The record dumped back to keyword form (`params.dict()`), fields in declaration order and
      enumerations as their values. A date bound stays a `date` object. */
  function BiomodelParamsDict(p: BiomodelParams): (r: seq<(string, Value)>)
    ensures Keys(r) == BiomodelFieldNames
  {
    [ ("bmName", TextValue(p.bmName)),
      ("bmId", TextValue(p.bmId)),
      ("category", CategoryDump(p.category)),
      ("owner", TextValue(p.owner)),
      ("savedLow", DateDump(p.savedLow)),
      ("savedHigh", DateDump(p.savedHigh)),
      ("startRow", IntValue(p.startRow)),
      ("maxRows", IntValue(p.maxRows)),
      ("orderBy", OrderByDump(p.orderBy)) ]
  }

  predicate DatesValid(p: BiomodelParams) {
    (p.savedLow.Some? ==> ValidDate(p.savedLow.value)) &&
    (p.savedHigh.Some? ==> ValidDate(p.savedHigh.value))
  }

  /** Validating a dumped record rebuilds the record. */
  lemma BiomodelParamsRoundTrip(p: BiomodelParams)
    requires DatesValid(p)
    ensures ValidateBiomodelParams(BiomodelParamsDict(p)) == Ok(p)
  {
    DictLookups(p);
    ValidateFromLookups(BiomodelParamsDict(p), p);
  }

  /** Any argument dictionary in which every field holds the dumped form of `p`'s field
      validates to `p`. */
  lemma ValidateFromLookups(args: seq<(string, Value)>, p: BiomodelParams)
    requires DatesValid(p)
    requires Get(args, "bmName") == Some(TextValue(p.bmName))
    requires Get(args, "bmId") == Some(TextValue(p.bmId))
    requires Get(args, "category") == Some(CategoryDump(p.category))
    requires Get(args, "owner") == Some(TextValue(p.owner))
    requires Get(args, "savedLow") == Some(DateDump(p.savedLow))
    requires Get(args, "savedHigh") == Some(DateDump(p.savedHigh))
    requires Get(args, "startRow") == Some(IntValue(p.startRow))
    requires Get(args, "maxRows") == Some(IntValue(p.maxRows))
    requires Get(args, "orderBy") == Some(OrderByDump(p.orderBy))
    ensures ValidateBiomodelParams(args) == Ok(p)
  {
    DumpsValidate(p.category, p.orderBy, p.savedLow);
    DumpsValidate(p.category, p.orderBy, p.savedHigh);
    BuildAllGiven(p, Get(args, "bmName"), Get(args, "bmId"), Get(args, "category"),
                  Get(args, "owner"), Get(args, "savedLow"), Get(args, "savedHigh"),
                  Get(args, "startRow"), Get(args, "maxRows"), Get(args, "orderBy"));
  }

  /** When every field is given and accepted, the record holds exactly the accepted values. */
  lemma BuildAllGiven(p: BiomodelParams, bmName: Option<Value>, bmId: Option<Value>,
                      category: Option<Value>, owner: Option<Value>, savedLow: Option<Value>,
                      savedHigh: Option<Value>, startRow: Option<Value>, maxRows: Option<Value>,
                      orderBy: Option<Value>)
    requires bmName.Some? && OptText(bmName.value) == Some(p.bmName)
    requires bmId.Some? && OptText(bmId.value) == Some(p.bmId)
    requires category.Some? && OptCategory(category.value) == Some(p.category)
    requires owner.Some? && OptText(owner.value) == Some(p.owner)
    requires savedLow.Some? && OptDate(savedLow.value) == Some(p.savedLow)
    requires savedHigh.Some? && OptDate(savedHigh.value) == Some(p.savedHigh)
    requires startRow.Some? && OptInt(startRow.value) == Some(p.startRow)
    requires maxRows.Some? && OptInt(maxRows.value) == Some(p.maxRows)
    requires orderBy.Some? && OptOrderBy(orderBy.value) == Some(p.orderBy)
    ensures BuildBiomodelParams(bmName, bmId, category, owner, savedLow, savedHigh, startRow,
                                maxRows, orderBy) == Ok(p)
  {
  }

  /** Each dumped field value passes its validator and yields the field back. */
  lemma DumpsValidate(c: Option<Category>, o: Option<OrderBy>, d: Option<Date>)
    requires d.Some? ==> ValidDate(d.value)
    ensures OptCategory(CategoryDump(c)) == Some(c)
    ensures OptOrderBy(OrderByDump(o)) == Some(o)
    ensures OptDate(DateDump(d)) == Some(d)
  {
    if c.Some? { CategoryEnumeration(c.value, ""); }
    if o.Some? { OrderByEnumeration(o.value, ""); }
  }

  lemma DictLookups(p: BiomodelParams)
    ensures var args := BiomodelParamsDict(p);
      && Get(args, "bmName") == Some(args[0].1)
      && Get(args, "bmId") == Some(args[1].1)
      && Get(args, "category") == Some(args[2].1)
      && Get(args, "owner") == Some(args[3].1)
      && Get(args, "savedLow") == Some(args[4].1)
      && Get(args, "savedHigh") == Some(args[5].1)
      && Get(args, "startRow") == Some(args[6].1)
      && Get(args, "maxRows") == Some(args[7].1)
      && Get(args, "orderBy") == Some(args[8].1)
  {
    var args := BiomodelParamsDict(p);
    forall k | 0 <= k < 9 ensures Get(args, args[k].0) == Some(args[k].1) {
      UniqueKeyGet(args, k);
    }
  }

  /** In a dictionary whose keys are distinct, `get` of the k-th key finds the k-th value. */
  lemma {:induction false} UniqueKeyGet(entries: seq<(string, Value)>, k: nat)
    requires k < |entries|
    requires forall i, j :: 0 <= i < j < |entries| ==> entries[i].0 != entries[j].0
    ensures Get(entries, entries[k].0) == Some(entries[k].1)
  {
    if k > 0 {
      assert entries[0].0 != entries[k].0;
      UniqueKeyGet(entries[1..], k - 1);
    }
  }

  /** The names of the search-parameter fields, in declaration order. */
  const BiomodelFieldNames: seq<string> :=
    ["bmName", "bmId", "category", "owner", "savedLow", "savedHigh", "startRow", "maxRows", "orderBy"]

  /** Keys that name no field are ignored: adding one changes nothing. */
  lemma ExtraKeysIgnored(args: seq<(string, Value)>, k: string, v: Value)
    requires k !in BiomodelFieldNames
    ensures ValidateBiomodelParams(args + [(k, v)]) == ValidateBiomodelParams(args)
  {
    GetAppendOther(args, k, v, "bmName");
    GetAppendOther(args, k, v, "bmId");
    GetAppendOther(args, k, v, "category");
    GetAppendOther(args, k, v, "owner");
    GetAppendOther(args, k, v, "savedLow");
    GetAppendOther(args, k, v, "savedHigh");
    GetAppendOther(args, k, v, "startRow");
    GetAppendOther(args, k, v, "maxRows");
    GetAppendOther(args, k, v, "orderBy");
  }

  /** With no arguments every field takes its declared default: category `all`, first row 1,
      100 rows, newest first, and no name, id, owner or dates. */
  lemma BiomodelDefaults()
    ensures ValidateBiomodelParams([]) == Ok(DefaultBiomodelParams)
    ensures DefaultBiomodelParams.category == Some(All) && DefaultBiomodelParams.startRow == Some(1)
    ensures DefaultBiomodelParams.maxRows == Some(100) && DefaultBiomodelParams.orderBy == Some(DateDesc)
    ensures DefaultBiomodelParams.bmName.None? && DefaultBiomodelParams.bmId.None?
    ensures DefaultBiomodelParams.owner.None?
    ensures DefaultBiomodelParams.savedLow.None? && DefaultBiomodelParams.savedHigh.None?
  {
  }

  /** A saved-date bound given as text must be a full-date; otherwise validation fails and the
      failure names that bound. */
  lemma DateFieldsMustBeDates(args: seq<(string, Value)>, s: string)
    requires ParseDate(s).None?
    requires Get(args, "savedLow") == Some(Str(s)) || Get(args, "savedHigh") == Some(Str(s))
    ensures ValidateBiomodelParams(args).Err?
    ensures Get(args, "savedLow") == Some(Str(s)) ==> "savedLow" in ValidateBiomodelParams(args).error
    ensures Get(args, "savedHigh") == Some(Str(s)) ==> "savedHigh" in ValidateBiomodelParams(args).error
  {
  }

  /** A category outside the five values fails validation, and the failure names the category. */
  lemma CategoryMustBeListed(args: seq<(string, Value)>, s: string)
    requires s !in CategoryValues
    requires Get(args, "category") == Some(Str(s))
    ensures ValidateBiomodelParams(args).Err?
    ensures "category" in ValidateBiomodelParams(args).error
  {
    CategoryEnumeration(All, s);
  }

  // ---------------------------------------------------------------- simulation parameters

  datatype SimulationParams = SimulationParams(bmId: string, simId: string)

  /** `key` is given and holds a string. */
  predicate GivenText(args: seq<(string, Value)>, key: string) {
    Get(args, key).Some? && Get(args, key).value.Str?
  }

  /** Both identifiers are required strings; a failure lists each one that is missing or not a
      string. */
  function ValidateSimulationParams(args: seq<(string, Value)>): (r: Result<SimulationParams, seq<string>>)
    ensures r.Ok? <==> GivenText(args, "bmId") && GivenText(args, "simId")
    ensures r.Ok? ==> (Get(args, "bmId") == Some(Str(r.value.bmId))
                       && Get(args, "simId") == Some(Str(r.value.simId)))
    ensures r.Err? ==> ("bmId" in r.error <==> !GivenText(args, "bmId"))
    ensures r.Err? ==> ("simId" in r.error <==> !GivenText(args, "simId"))
  {
    var bmIdArg := Get(args, "bmId");
    var simIdArg := Get(args, "simId");
    var bmId := Required("bmId", bmIdArg, TextOf(bmIdArg.GetOr(Null)));
    var simId := Required("simId", simIdArg, TextOf(simIdArg.GetOr(Null)));
    var errors := Errs(bmId) + Errs(simId);
    if errors != [] then Err(errors) else Ok(SimulationParams(bmId.value, simId.value))
  }

  /** A request without `simId` is refused. */
  lemma SimIdRequired(args: seq<(string, Value)>)
    requires Get(args, "simId").None?
    ensures ValidateSimulationParams(args).Err?
    ensures "simId" in ValidateSimulationParams(args).error
  {
  }
}
