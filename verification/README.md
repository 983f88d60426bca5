# VCell-AI decision core in Dafny

This project models the deterministic core of VCell-AI, the chat assistant for the VCell
biomodel database. It has a FastAPI backend and a React frontend. I/O is abstracted away, and
what remains is modelled as immutable datatypes and pure functions, plus one loop method per
algorithm:

- **Tool-calling turn** (`LlmService`). The conversation is seeded and one completion is
  requested with the tool catalog. Each tool call is answered in order with a `tool` message.
  The model keys (`bmkeys`) are tracked, and one final completion is requested. The language
  model and the tool executor are function-typed parameters.
- **Tool dispatch** (`Tools`). This covers the fixed three-tool catalog and the closed dispatch
  on the tool name. It also covers the search-argument normalisation and the per-tool failure
  sentinels.
- **Database service** (`VcelldbService`):
  - the form-encoded search URL and the resource URLs;
  - the status check;
  - the shaping of the search result: list versus `{"data": …}` body, record count, and the
    ordered, non-deduplicated key list.
- **Request schemas** (`VcelldbSchema`, `QdrantSchema`, `Validation`, `Dates`):
  - enumerations and defaults;
  - full-date fields and Python `date` values;
  - required fields and range constraints;
  - dump/validate round trips.
- **Controllers** (`KbController`, `VcelldbController`): input checks, the status mapping, and
  the exception-to-HTTP-error mapping.
- **Client cells** (`Singleton`): lazy, construct-once clients.
- **Frontend helpers**:
  - the chat box's key linking and send handler (`ChatBox`);
  - the XML re-indenter (`XmlViewer`) and the JSON token renderer (`JsonViewer`);
  - the sign-up validator (`Signup`) and the onboarding step machine (`Onboarding`);
  - the tool-parameter record (`ToolParameters`);
  - the file fetcher's quote stripping (`FileFetcher`);
  - the knowledge-base page's list logic (`KnowledgeBasePage`).

Supporting modules:

- `Strings`: JavaScript whitespace and `trim`, ASCII case mapping, substring search,
  split/join, and decimal text.
- `Json`: Python JSON-shaped values, plus the `date` objects a dumped record keeps;
  `dict.get` and assignment; and `str()`.
- `UriEncoding`: UTF-8, `quote_plus` form encoding and `encodeURIComponent`, with their round
  trips.
- `Common`: `Option` and `Result`.

Behaviour of the code that a reader might not expect:

- **Model keys.** Every dictionary-shaped tool result overwrites the keys with its
  `unique_model_keys (bmkey)` entry, or `[]` without one. This includes a simulation-details
  dictionary and the `{}` failure sentinel. The keys are not harvested from the search tool
  alone.
- **VCML download.** `get_vcml_file` has neither retry with backoff nor a truncation flag.
- **Invalid tool arguments.** They are not rejected before dispatch. The validation error is
  raised inside `execute_tool` and becomes that tool's sentinel.
- **Undecodable arguments.** A tool call whose arguments `json.loads` cannot decode aborts the
  turn. Nothing catches that error.

## Model

| member | source | states |
|---|---|---|
| LlmService.GetLlmResponse | backend/app/services/llms_service.py:36-55 | The only request is the seed `[system, user]`, sent without tools and without a tool choice. The answer is the completion's content. |
| LlmService.GetResponseWithTools | backend/app/services/llms_service.py:58-117 | The turn succeeds exactly when every tool call's arguments decode. Then: exactly two requests are made; the first is the seed with the full catalog and `tool_choice="auto"`; the conversation is the seed, the assistant reply, then one `tool` message per call in call order; the second request carries that conversation without tools; the answer is its content; `bmkeys` are the keys of the last dictionary result. |
| LlmService.RunToolCalls | backend/app/services/llms_service.py:83-103 | The loop answers call i with `tool_call_id` = id i and content `str(result i)`, one message per call. It yields the latest keys, and it fails exactly when some call's arguments do not decode. |
| LlmService.Results | backend/app/services/llms_service.py:84-92 | There is one result per call, in call order, each the executor's result on that call's decoded arguments. |
| LlmService.Dispatcher | backend/app/utils/tools_utils.py:132-167 | The executor the loop is given answers `{}` for every name outside the catalog and the tool's sentinel for arguments that are not a dictionary. A simulation call with both identifiers as strings answers the decoded body at the simulation URL of those identifiers, or `[]` when the request or decoding fails. A simulation call whose arguments do not validate answers `[]`. |
| LlmService.KeysStep | backend/app/services/llms_service.py:96-98 | A dictionary result moves the keys to its key-list entry. Any other result leaves them as they were. |
| LlmService.KeysEntry | backend/app/services/llms_service.py:98 | The key list of a dictionary result is the value stored under `unique_model_keys (bmkey)`, or `[]` when the key is absent. |
| LlmService.NoDictNoKeys | backend/app/services/llms_service.py:81-98 | Without any dictionary result, in particular with no tool calls at all, the keys stay `[]`. |
| LlmService.LastDictWins | backend/app/services/llms_service.py:96-98 | The keys are the entry of the last dictionary result, whatever came before it. |
| LlmService.EmptyDictResets | backend/app/services/llms_service.py:96-98 | A trailing `{}` result, such as a failing VCML call's, resets the keys to `[]`. |
| LlmService.SearchResultKeys | backend/app/services/vcelldb_service.py:45-51 | The key-list entry of a search result is exactly the list of extracted model keys. |
| Tools.CatalogShape | backend/app/utils/tools_utils.py:12-128 | The catalog holds exactly the search, simulation and VCML tools, under distinct names. Each is strict, forbids extra properties and requires every parameter it declares. |
| Tools.SearchDefShape | backend/app/utils/tools_utils.py:12-85 | The search tool requires exactly the nine search fields. `category` and `orderBy` are restricted to their enumerations, and `startRow` and `maxRows` default to 1 and 1000. |
| Tools.ToolNames | backend/app/utils/tools_utils.py:12-128 | The name list has one name per tool definition, in catalog order. |
| Tools.NormaliseSearchArgs | backend/app/utils/tools_utils.py:145-149 | After normalisation `maxRows` is 1000. A `""` date bound becomes `None`, and any other bound is kept. Every other key keeps its value. |
| Tools.NormalisedKeys | backend/app/utils/tools_utils.py:145-149 | Normalisation keeps every key in its place. It only appends `maxRows` when it was absent. |
| Tools.Sentinel | backend/app/utils/tools_utils.py:163-167 | The failure value is `[]` or `{}`. |
| Tools.ExecuteTool | backend/app/utils/tools_utils.py:132-167 | Only the search branch rewrites its arguments, to the normalised ones. Arguments that are not a dictionary give the tool's sentinel. An unknown name gives `{}`. A search call gives the search result for the validated normalised arguments when validation and the request both succeed, and `[]` otherwise. A simulation call gives the details for the validated arguments when validation and the request both succeed, and `[]` otherwise. |
| Tools.UnknownToolIgnoresClient | backend/app/utils/tools_utils.py:160-161 | An unknown tool yields `{}` with its arguments untouched, and the outcome is the same whatever the HTTP client would do. |
| Tools.SearchRowsCapped | backend/app/utils/tools_utils.py:149-151 | The validated search record always has `maxRows` 1000, whatever was requested. |
| Tools.EmptySavedLowDropped | backend/app/utils/tools_utils.py:145-146 | A lower date bound given as `""` reaches the search as absent. |
| Tools.EmptySavedHighDropped | backend/app/utils/tools_utils.py:147-148 | An upper date bound given as `""` reaches the search as absent. |
| Tools.ValidateKeepsGiven | backend/app/schemas/vcelldb_schema.py:28-31 | Validation keeps a given row limit and reads a `null` date bound as absent. |
| Tools.SearchFailureIsEmptyList | backend/app/utils/tools_utils.py:150-151 | Any failure of the search branch yields `[]`, including a refused argument set or a failed request. The normalised arguments are still recorded. |
| Tools.SearchSuccess | backend/app/utils/tools_utils.py:145-151 | A search call whose normalised arguments validate, and whose request succeeds, yields the search result for the validated record. That record asks for 1000 rows. |
| Tools.SimulationFailureIsEmptyList | backend/app/utils/tools_utils.py:153-155 | A simulation call yields `[]` when its arguments are not a dictionary, when `bmId` or `simId` is missing or not a string, or when the request fails. |
| Tools.SimulationSuccess | backend/app/utils/tools_utils.py:153-155 | A simulation call with both identifiers as strings yields the decoded body at the simulation URL of those identifiers when the request succeeds. |
| Tools.VcmlOutcomes | backend/app/utils/tools_utils.py:157-167 | A VCML call without `biomodel_id`, or whose download fails, yields `{}`. A successful download yields the file text. |
| VcelldbService.Send | backend/app/services/vcelldb_service.py:36-39 | Any status outside 2xx raises a status error carrying that status. A 2xx response is passed on. |
| VcelldbService.JsonBody | backend/app/services/vcelldb_service.py:39 | Decoding succeeds exactly when the body is JSON, and then yields the decoded value. A failure is an ordinary exception, not a status error. |
| VcelldbService.SearchParams | backend/app/services/vcelldb_service.py:22 | The sent parameters are the nine fields in declaration order. Every absent field is sent as `""`. |
| VcelldbService.Pieces | backend/app/services/vcelldb_service.py:27 | There is one encoded `key=value` pair per parameter, in order. |
| VcelldbService.SearchUrl | backend/app/services/vcelldb_service.py:27-30 | The search URL is the base, then `/biomodel?`, then the encoded query. |
| VcelldbService.SentTexts | backend/app/services/vcelldb_service.py:22 | There is one text per parameter, each the `str()` of its value. |
| VcelldbService.QueryPairSplits | backend/app/services/vcelldb_service.py:27 | An encoded pair splits back at its only `=` into the encoded name and the encoded value. |
| VcelldbService.QueryRoundTrip | backend/app/services/vcelldb_service.py:22-30 | Reading the encoded query back gives every parameter name with the text of its value, in order. |
| VcelldbService.SearchUrlCarriesParams | backend/app/services/vcelldb_service.py:22-30 | The search URL's query reads back as all nine parameters, in declaration order, each with its text. |
| VcelldbService.QuotePlusKeepsAlnum | backend/app/services/vcelldb_service.py:27 | ASCII letters and digits pass through the form encoding unchanged. |
| VcelldbService.DateBoundForms | backend/app/services/vcelldb_service.py:22-30 | A date bound is a `date` object in the parameters the result reports, and the query sends its ISO `YYYY-MM-DD` text. |
| VcelldbService.SearchParamsAsWritten | backend/app/services/vcelldb_service.py:22-27 | The parameters as the code sends them have the nine field names in order. They differ from the model's only where the arguments leave out `category` or `orderBy`, and those go as `CategoryEnum.all` and `OrderByEnum.date_desc`. |
| VcelldbService.DefaultsKept | backend/app/schemas/vcelldb_schema.py:26-34 | A validated record whose arguments leave out `category` or `orderBy` has category `all` or order `date_desc`. |
| VcelldbService.DefaultEnumsSentAsMembers | backend/app/schemas/vcelldb_schema.py:23-34 | As written, a left-out `category` or `orderBy` validates to its default value, yet the query sends the member's text, which parses as no listed value. |
| VcelldbService.SentEnumsParse | backend/app/services/vcelldb_service.py:22-27 | The model's query sends each given category and order as its listed value, which parses back to the record's field. |
| VcelldbService.SearchUrlNamesModel | backend/app/services/vcelldb_service.py:22-30 | A search by an alphanumeric model name begins its query with `bmName=<name>`. |
| VcelldbService.ResourceUrlSegments | backend/app/services/vcelldb_service.py:67-134 | For identifiers without `/`, every resource URL lies under the base. Its path is `biomodel/{id}/simulation/{simId}`, or `biomodel/{id}` followed by `biomodel.vcml`, `biomodel.sbml` or `diagram`. |
| VcelldbService.SimulationSegments | backend/app/services/vcelldb_service.py:67 | The simulation URL's path is `biomodel/{id}/simulation/{simId}`. |
| VcelldbService.SimulationUrlAmbiguous | backend/app/services/vcelldb_service.py:67 | The identifiers are inserted into the path unescaped, so two different identifier pairs can produce the same URL. |
| VcelldbService.ModelKeys | backend/app/services/vcelldb_service.py:48-50 | There is at most one key per record, and every key is truthy. |
| VcelldbService.ModelKeysAppend | backend/app/services/vcelldb_service.py:48-50 | The key list of concatenated records is the concatenation of the key lists. |
| VcelldbService.ModelKeysMembership | backend/app/services/vcelldb_service.py:48-50 | A value is listed exactly when it is truthy and is some record's `bmKey`. |
| VcelldbService.ModelKeysAllKeyed | backend/app/services/vcelldb_service.py:48-50 | When every record has a truthy key, the list has one key per record, in order. |
| VcelldbService.Biomodels | backend/app/services/vcelldb_service.py:42 | A list body is the data itself. A dictionary contributes its `data` entry, or `[]` when it has none. Any other body fails. |
| VcelldbService.Records | backend/app/services/vcelldb_service.py:42-50 | A list of dictionaries gives one record per element. Any other element makes the iteration fail. |
| VcelldbService.BiomodelRecords | backend/app/services/vcelldb_service.py:45-50 | A list is accepted exactly when every element is a dictionary, giving one record per element in order. Apart from lists, only the empty dictionary and the empty string are iterable with no records. Anything else fails. |
| VcelldbService.SearchResult | backend/app/services/vcelldb_service.py:45-52 | The result dictionary has exactly the keys `search_params`, `models_count`, `unique_model_keys (bmkey)` and `data`, in that order. They hold the sent parameters, the record count, the model keys and the data. |
| VcelldbService.FetchBiomodels | backend/app/services/vcelldb_service.py:11-52 | The search GETs the search URL. A failed status check or a non-JSON body is that error. Otherwise the result holds the parameters with `None` as `""` and date bounds as `date` objects, the data, its count and its key list. |
| VcelldbService.ShapeListBody | backend/app/services/vcelldb_service.py:42-50 | For a list body, the count is the number of records, including those without a key. The keys are the model keys. |
| VcelldbService.ShapeDataBody | backend/app/services/vcelldb_service.py:42-51 | A `{"data": …}` body is shaped as its list. A dictionary without `data` is shaped as the empty list. |
| VcelldbService.ShapeEmptyBody | backend/app/services/vcelldb_service.py:42-52 | An empty body gives `data=[]`, a count of 0 and no keys. |
| VcelldbService.MissingAndRepeatedKeys | backend/app/services/vcelldb_service.py:47-50 | A record without `bmKey` is counted but contributes no key. Repeated keys are kept. |
| VcelldbService.FetchSimulationDetails | backend/app/services/vcelldb_service.py:55-70 | The result is the JSON body at the simulation URL, or the status or decoding error. |
| VcelldbService.GetVcmlFile | backend/app/services/vcelldb_service.py:73-88 | The result is the text at the VCML URL, or the status error. |
| VcelldbService.GetSbmlFile | backend/app/services/vcelldb_service.py:91-106 | The result is the text at the SBML URL, or the status error. |
| VcelldbService.GetDiagramImage | backend/app/services/vcelldb_service.py:122-137 | The result is the bytes at the diagram URL, or the status error. |
| VcelldbService.NonSuccessPropagates | backend/app/services/vcelldb_service.py:36-39 | At every call, a status outside 2xx yields that status error and no result. |
| VcelldbSchema.ParseCategory | backend/app/schemas/vcelldb_schema.py:7-12 | A parsed category carries exactly the parsed text as its wire value. |
| VcelldbSchema.CategoryEnumeration | backend/app/schemas/vcelldb_schema.py:7-12 | There are exactly five distinct wire values. Parsing accepts exactly these values and inverts the wire value of every category. |
| VcelldbSchema.ParseOrderBy | backend/app/schemas/vcelldb_schema.py:15-19 | A parsed order carries exactly the parsed text as its wire value. |
| VcelldbSchema.OrderByEnumeration | backend/app/schemas/vcelldb_schema.py:15-19 | There are exactly four distinct wire values. Parsing accepts exactly these and inverts every order's wire value. |
| Dates.PadDigits | backend/app/schemas/vcelldb_schema.py:28-29 | A padded number has exactly the requested number of decimal digits. |
| Dates.PadDigitsValue | backend/app/schemas/vcelldb_schema.py:28-29 | Reading back a padded number gives the number back when it fits the width. |
| Dates.DigitsValuePad | backend/app/schemas/vcelldb_schema.py:28-29 | Padding the value of a digit string gives the string back. |
| Dates.FormatDate | backend/app/schemas/vcelldb_schema.py:28-29 | A date is written in the ten-character `YYYY-MM-DD` form. |
| Dates.ParseDate | backend/app/schemas/vcelldb_schema.py:28-29 | Every date the `YYYY-MM-DD` text form accepts is a real calendar date. |
| VcelldbSchema.OptDate | backend/app/schemas/vcelldb_schema.py:28-29 | An optional date field reads `null` as absent. It accepts text exactly when the text is a full date, and keeps a `date` object that is a real calendar date. It refuses anything else. An accepted date is a real calendar date. |
| Dates.DateRoundTrip | backend/app/schemas/vcelldb_schema.py:28-29 | Parsing a formatted date gives the date back. |
| Dates.DateCanonical | backend/app/schemas/vcelldb_schema.py:28-29 | Formatting a parsed date gives the accepted text back. |
| VcelldbSchema.BiomodelParamsDict | backend/app/schemas/vcelldb_schema.py:23-34 | The dumped record's keys are the nine field names, in declaration order. Date bounds stay `date` objects. |
| VcelldbSchema.BiomodelParamsRoundTrip | backend/app/schemas/vcelldb_schema.py:23-34 | Validating a dumped record rebuilds the record. |
| VcelldbSchema.ValidateBiomodelParams | backend/app/schemas/vcelldb_schema.py:23-34 | A validated record has real calendar dates as its bounds. A refusal lists at least one field, and only names of the nine fields. |
| VcelldbSchema.BuildBiomodelParams | backend/app/schemas/vcelldb_schema.py:23-34 | The record built from the nine given values has real calendar dates as its bounds. A refusal lists at least one field, and only names of the nine fields. |
| VcelldbSchema.ValidateFromLookups | backend/app/schemas/vcelldb_schema.py:23-34 | Any argument dictionary whose fields hold a record's dumped values validates to that record. |
| VcelldbSchema.BuildAllGiven | backend/app/schemas/vcelldb_schema.py:23-34 | When every field is given and accepted, the record holds exactly the accepted values. |
| VcelldbSchema.DumpsValidate | backend/app/schemas/vcelldb_schema.py:23-34 | Each dumped field passes its own validator and yields the field back. |
| VcelldbSchema.DictLookups | backend/app/schemas/vcelldb_schema.py:23-34 | In the dumped dictionary, looking up each field name finds that field's dumped value. |
| VcelldbSchema.UniqueKeyGet | backend/app/schemas/vcelldb_schema.py:23-34 | In a dictionary with distinct keys, looking up the k-th key finds the k-th value. |
| VcelldbSchema.ExtraKeysIgnored | backend/app/schemas/vcelldb_schema.py:23-34 | A key that names no field changes nothing in validation. |
| VcelldbSchema.BiomodelDefaults | backend/app/schemas/vcelldb_schema.py:24-34 | With no arguments the defaults are: category `all`, `startRow` 1, `maxRows` 100, order `date_desc`, and no name, id, owner or date bounds. |
| VcelldbSchema.DateFieldsMustBeDates | backend/app/schemas/vcelldb_schema.py:28-29 | A date bound given as text that is not a full `YYYY-MM-DD` date is refused, and the failure names that field. Midnight timestamps and midnight datetime text are not modelled (see Left out). |
| VcelldbSchema.CategoryMustBeListed | backend/app/schemas/vcelldb_schema.py:26 | A category outside the five values fails, and the failure names `category`. |
| VcelldbSchema.ValidateSimulationParams | backend/app/schemas/vcelldb_schema.py:37-39 | Both identifiers are required strings. A failure lists each one that is missing or wrongly typed. |
| VcelldbSchema.SimIdRequired | backend/app/schemas/vcelldb_schema.py:37-39 | A request without `simId` is refused. |
| Validation.LaxInt | backend/app/schemas/vcelldb_schema.py:30-31 | An integer field accepts numbers as they are. It refuses `null`, lists and objects. |
| Validation.LaxIntReadsDecimal | backend/app/schemas/vcelldb_schema.py:30-31 | An integer written as decimal text, in either sign, is read as that integer. |
| Validation.OptInt | backend/app/schemas/vcelldb_schema.py:30-31 | An optional integer field reads `null` as absent. Any other value is accepted exactly when the lax integer coercion accepts it, and then keeps the coerced number. |
| Validation.Field | backend/app/schemas/vcelldb_schema.py:24-34 | A field with a default takes the default when absent. It fails exactly when it is given and its coercion refuses it, and then the failure is named after the field. A given, accepted field holds the coerced value. |
| Validation.Required | backend/app/schemas/qdrant_schema.py:7-30 | A required field succeeds exactly when it is given and its coercion accepts it, holding the coerced value. Otherwise the failure is named after the field. |
| Validation.Errs | backend/app/schemas/vcelldb_schema.py:23-34 | One field contributes no error name when it succeeds, and exactly its own name when it fails. |
| QdrantSchema.ValidateCreateCollection | backend/app/schemas/qdrant_schema.py:5-9 | A create request is accepted exactly when it has a collection name, a strictly positive `vector_size` and a distance of `cosine` or `dot`. |
| QdrantSchema.DistanceOf | backend/app/schemas/qdrant_schema.py:9 | A distance is accepted exactly when it is text matching `cosine` or `dot`, and it is kept as given. |
| QdrantSchema.ValidateInsertPoint | backend/app/schemas/qdrant_schema.py:12-17 | An insert request is accepted exactly when it has a text collection name, an integer `point_id` in lax mode, a vector and a `payload` dictionary. The payload is kept as given. |
| QdrantSchema.VectorOf | backend/app/schemas/qdrant_schema.py:16 | A vector is accepted exactly when it is a list whose every element the lax number coercion accepts: numbers, booleans and decimal digit strings. Each component is that coercion's value, in order. |
| QdrantSchema.LaxVectorComponents | backend/app/schemas/qdrant_schema.py:16 | `[true, "15", -2]` validates to the components 1, 15 and -2. A list holding `null` is refused. |
| QdrantSchema.ValidateSearchPoints | backend/app/schemas/qdrant_schema.py:20-24 | A search request needs the collection name and a vector. `limit` defaults to 10 and must lie in 1..100. |
| QdrantSchema.LimitOf | backend/app/schemas/qdrant_schema.py:24 | An optional limit reads `null` as absent. Any other value is accepted exactly when it coerces to an integer in 1..100, and then keeps that integer. |
| QdrantSchema.SearchLimitOutOfRange | backend/app/schemas/qdrant_schema.py:24 | A limit outside 1..100 is refused, and the failure names `limit`. |
| QdrantSchema.ValidateDeleteDocument | backend/app/schemas/qdrant_schema.py:27-30 | A delete request needs the collection name and `file_name`. |
| QdrantSchema.CollectionNameRequired | backend/app/schemas/qdrant_schema.py:5-30 | Each of the four requests is refused without `collection_name`. |
| QdrantSchema.CreateCollectionRoundTrip | backend/app/schemas/qdrant_schema.py:5-9 | A valid create request, dumped, validates back to itself. |
| QdrantSchema.SearchPointsRoundTrip | backend/app/schemas/qdrant_schema.py:20-24 | A search request, dumped, validates back to itself. |
| KbController.Guarded | backend/app/controllers/knowledge_base_controller.py:23-28 | A success-status result comes back unchanged with 200, and any other status with 500. A raised error becomes a 500 whose detail is prefixed. |
| KbController.HttpExceptionText | backend/app/controllers/knowledge_base_controller.py:27-28 | The text an `HTTPException` gives when quoted into a detail starts with its status code and ends with a colon, a space and its detail. |
| KbController.StatusOf | backend/app/controllers/knowledge_base_controller.py:23 | Reading a dictionary's `status` succeeds exactly when the key is present, and yields the value stored under it. A missing key fails with the quoted key as text. |
| KbController.HttpExceptionHandling | backend/app/controllers/knowledge_base_controller.py:27-28 | Creating a collection turns a service `HTTPException` into a 500 quoting it. Deleting a file raises it again with its own status and detail. |
| KbController.StatusMapping | backend/app/controllers/knowledge_base_controller.py:23-26 | The reply's code is 200 exactly when the service status is `"success"`, and the body is the result unchanged. |
| KbController.CreateCollection | backend/app/controllers/knowledge_base_controller.py:17-28 | The service outcome goes through the status mapping with the prefix `Error creating collection: `: 200 for status `"success"` and 500 otherwise, with the result as body. Every exception, an `HTTPException` included, becomes a 500 whose detail starts with that prefix. |
| KbController.GetFiles | backend/app/controllers/knowledge_base_controller.py:31-42 | The service outcome goes through the status mapping with the prefix `Error getting files: `. Every exception, an `HTTPException` included, becomes a 500 whose detail starts with that prefix. |
| KbController.Upload | backend/app/controllers/knowledge_base_controller.py:52-75 | A name whose lower-cased form does not end with the expected extension is refused with 400, before the service is consulted. A missing name fails with 500. Otherwise the service's outcome goes through the status mapping. |
| KbController.UploadPdf | backend/app/controllers/knowledge_base_controller.py:45-82 | A missing name fails with 500 on `None.lower()`. A name not ending in `.pdf` in lower case is refused with 400 `File must be a PDF`. Otherwise the service outcome goes through the status mapping with the prefix `Error uploading PDF: `, and a service `HTTPException` is raised again unchanged. |
| KbController.UploadText | backend/app/controllers/knowledge_base_controller.py:85-121 | A missing name fails with 500 on `None.lower()`. A name not ending in `.txt` in lower case is refused with 400 `File must be a text file`. Otherwise the service outcome goes through the status mapping with the prefix `Error uploading text file: `, and a service `HTTPException` is raised again unchanged. |
| KbController.OnFile | backend/app/controllers/knowledge_base_controller.py:129-130 | An empty file name is refused with 400 before the service is consulted. |
| KbController.DeleteFile | backend/app/controllers/knowledge_base_controller.py:124-140 | An empty file name is refused with 400. Otherwise the deletion outcome goes through the status mapping with the prefix `Error deleting file: `, and a service `HTTPException` is raised again unchanged. |
| KbController.GetFileChunks | backend/app/controllers/knowledge_base_controller.py:165-181 | An empty file name is refused with 400. Otherwise the chunk listing goes through the status mapping with the prefix `Error getting file chunks: `, and a service `HTTPException` is raised again unchanged. |
| KbController.GetSimilar | backend/app/controllers/knowledge_base_controller.py:143-162 | An empty query is refused with 400 first. Then a limit (10 when absent) outside 1..100 is refused with 400. Otherwise the search outcome goes through the status mapping with the prefix `Error getting similar chunks: `, and a service `HTTPException` is raised again unchanged. |
| KbController.RejectionSkipsService | backend/app/controllers/knowledge_base_controller.py:148-152 | A 400 reply never depends on the service. |
| KbController.QueryCheckedFirst | backend/app/controllers/knowledge_base_controller.py:148-152 | An empty query is refused for itself, whatever the limit. |
| KbController.UploadExtension | backend/app/controllers/knowledge_base_controller.py:52-53 | An upload refusal names the expected type. A name with the right extension in any case gets past the check. |
| VcelldbController.ToHttpError | backend/app/controllers/vcelldb_controller.py:22-27 | A status error keeps its status code. A transport failure becomes 500 with the fixed message, and any other error becomes 500 with its text. |
| VcelldbController.Forward | backend/app/controllers/vcelldb_controller.py:20-27 | A success is passed through unchanged, and a failure is mapped to its HTTP error. |
| VcelldbController.GetBiomodels | backend/app/controllers/vcelldb_controller.py:13-27 | The search controller forwards the service answer. |
| VcelldbController.GetSimulationDetails | backend/app/controllers/vcelldb_controller.py:30-44 | The simulation controller forwards the service answer. |
| VcelldbController.UrlController | backend/app/controllers/vcelldb_controller.py:53-56 | A URL controller returns the provider's URL, or a 500 with its fixed message on any failure. |
| VcelldbController.GetVcmlUrl | backend/app/controllers/vcelldb_controller.py:47-56 | The VCML URL is the provider's, or a 500 with the fixed VCML message. |
| VcelldbController.GetSbmlUrl | backend/app/controllers/vcelldb_controller.py:59-68 | The SBML URL is the provider's, or a 500 with the fixed SBML message. |
| VcelldbController.GetDiagramUrl | backend/app/controllers/vcelldb_controller.py:71-80 | The diagram controller always answers with the diagram URL. |
| VcelldbController.StatusCodeForwarded | backend/app/controllers/vcelldb_controller.py:22-23 | An upstream status error reaches the caller with its own status code, from both data controllers. |
| VcelldbController.TransportFailureIs500 | backend/app/controllers/vcelldb_controller.py:24-25 | A transport failure is a 500 with the fixed message. |
| Singleton.Connect | backend/app/core/singleton.py:10-18 | A client is built only into an unset cell. The returned client is the cell's, and the other cell is unchanged. |
| Singleton.GetClient | backend/app/core/singleton.py:21-24 | After a read the cell is set, and the returned client is what it holds. |
| Singleton.ConnectIdempotent | backend/app/core/singleton.py:10-24 | A second connect changes nothing and returns the same client. |
| Singleton.Run | backend/app/core/singleton.py:10-37 | A run of calls returns one client per call. |
| Singleton.InitialConsistent | backend/app/core/singleton.py:5-6 | Both cells start unset, with nothing built. |
| Singleton.RunBuildsOnce | backend/app/core/singleton.py:10-37 | Over any run, each client is built at most once, and every call to a service returns the same instance. |
| Singleton.ConnectConsistent | backend/app/core/singleton.py:10-37 | One connect keeps each cell set exactly when its client was built once. |
| ChatBox.ReplaceAllMatches | frontend/components/ChatBox.tsx:58-62 | For a non-empty key and any list of places meeting the match conditions, the global replace copies the text between the places unchanged and puts the link in place of each one. The conditions are: in order, not overlapping, each a whole-word match, and every whole-word match one of them or inside one. |
| ChatBox.ScanPositionsMatch | frontend/components/ChatBox.tsx:58-62 | The places the left-to-right scan takes meet the match conditions. |
| ChatBox.ScanUnique | frontend/components/ChatBox.tsx:58-62 | Only one list of places meets the match conditions: the scan's. |
| ChatBox.ReplaceKeySpliced | frontend/components/ChatBox.tsx:58-62 | Replacing one key splices its link into the text at every place the scan takes, and copies everything else. |
| ChatBox.ReplaceSplits | frontend/components/ChatBox.tsx:58-62 | Replacing a word key distributes over any split of the text that does not fall between two word characters. |
| ChatBox.Tokenize | frontend/components/ChatBox.tsx:58 | Every text divides into alternating maximal runs of word characters and other characters, which join back to the text. |
| ChatBox.LinkedWords | frontend/components/ChatBox.tsx:52-66 | For distinct word keys none of which is a word of the link text, applying the keys one after the other equals replacing, in the text divided into words and gaps, every word that is one of the keys by its link. The result does not depend on the keys' order. |
| ChatBox.FormatLinksWords | frontend/components/ChatBox.tsx:52-66 | The same holds for the text's division into maximal runs of word and other characters. |
| ChatBox.LinkShape | frontend/components/ChatBox.tsx:60-61 | A key becomes `[k](/analyze/k?prompt=Describe%20model)`. |
| ChatBox.PromptEncoded | frontend/components/ChatBox.tsx:60 | The link's prompt is the percent-encoding of `Describe model`. |
| ChatBox.EncodeSpaced | frontend/components/ChatBox.tsx:60 | Two alphanumeric words joined by a space encode with `%20` between them. |
| ChatBox.NoMatchUnchanged | frontend/components/ChatBox.tsx:59-62 | Text without a whole-word occurrence of the key comes back unchanged. |
| ChatBox.UnmatchedKeysUnchanged | frontend/components/ChatBox.tsx:52-66 | Text with no whole-word occurrence of any key is shown unchanged. |
| ChatBox.EmbeddedNotMatched | frontend/components/ChatBox.tsx:59 | An occurrence glued to a word character on either side is no match. |
| ChatBox.WholeKeyLinked | frontend/components/ChatBox.tsx:58-63 | A message that is just the key becomes its link. |
| ChatBox.KeyInSentenceLinked | frontend/components/ChatBox.tsx:58-63 | A key between spaces in a sentence is replaced by its link, and the text around it is kept. |
| ChatBox.ReplaceOneMatch | frontend/components/ChatBox.tsx:59-62 | A text with exactly one whole-word occurrence has that occurrence, and nothing else, replaced. |
| ChatBox.PrefixCopied | frontend/components/ChatBox.tsx:62 | Positions before the first match are copied unchanged. |
| ChatBox.FinalPrompt | frontend/components/ChatBox.tsx:86 | With no prefix, or an empty one, the prompt is the message. Otherwise it starts with the prefix and ends with a space and the message. |
| ChatBox.AssistantText | frontend/components/ChatBox.tsx:95-116 | A failure shows the fixed error text. A reply without keys shows its `response`, or the fixed apology when that is missing or empty. |
| ChatBox.HandleSendMessage | frontend/components/ChatBox.tsx:73-123 | A blank message changes nothing and sends nothing. Otherwise the old messages are kept, and exactly one user message, then one assistant message, are appended. The query URL carries the encoded final prompt. |
| ChatBox.FailedSendExplains | frontend/components/ChatBox.tsx:110-119 | A send that fails still ends with one assistant message holding the fixed error text. |
| XmlViewer.InsertBreaks | frontend/components/xml-viewer.tsx:197 | The result has no `>` immediately followed by `<`. |
| XmlViewer.InsertBreaksOnlyBreaks | frontend/components/xml-viewer.tsx:197 | Line breaks are the only change: without them the input and output read alike. |
| XmlViewer.InsertBreaksIdentity | frontend/components/xml-viewer.tsx:197 | Text in which no tags touch passes through unchanged. |
| XmlViewer.SplitNoJunction | frontend/components/xml-viewer.tsx:198 | Splitting text with no touching tags gives pieces with none. |
| XmlViewer.TrimClean | frontend/components/xml-viewer.tsx:199 | Trimming such a piece gives a clean line or nothing. |
| XmlViewer.Clean | frontend/components/xml-viewer.tsx:199-200 | The kept lines are clean, trimmed and non-empty, and there are no more of them than pieces. |
| XmlViewer.XmlLines | frontend/components/xml-viewer.tsx:196-200 | Every line the re-indenter works on is clean. |
| XmlViewer.Layout | frontend/components/xml-viewer.tsx:202-221 | There is one written line per input line. |
| XmlViewer.IndentLines | frontend/components/xml-viewer.tsx:202-221 | The loop writes line i after two spaces for each level of the running depth at that line. |
| XmlViewer.LevelStep | frontend/components/xml-viewer.tsx:206-220 | A line moves the running level from its value before the line to its value after. |
| XmlViewer.OpenThenNext | frontend/components/xml-viewer.tsx:206-220 | After an opening tag, a closing tag lines up with it, and any other line is one level deeper. |
| XmlViewer.LeafThenNext | frontend/components/xml-viewer.tsx:206-220 | Text, self-closing tags, comments and declarations leave the level alone. |
| XmlViewer.TrimIndented | frontend/components/xml-viewer.tsx:199-210 | Trimming an indented clean line gives the line back. |
| XmlViewer.IndentedClean | frontend/components/xml-viewer.tsx:197-210 | An indented clean line has no touching tags or line breaks. |
| XmlViewer.CleanLayout | frontend/components/xml-viewer.tsx:199-210 | Cleaning indented lines gives back the lines that were indented. |
| XmlViewer.LayoutCleans | frontend/components/xml-viewer.tsx:199-223 | The written lines are clean of junctions and breaks, and cleaning them gives back the input lines. |
| XmlViewer.ReadBack | frontend/components/xml-viewer.tsx:196-223 | Splitting formatted text back into lines gives the lines it was formatted from. |
| XmlViewer.FormatIdempotent | frontend/components/xml-viewer.tsx:195-224 | Formatting keeps the lines, and formatting formatted XML changes nothing. |
| JsonViewer.Unpadded | frontend/components/json-viewer.tsx:26-40 | Removing layout leaves no line breaks or pads. |
| JsonViewer.LayoutOnly | frontend/components/json-viewer.tsx:24-135 | Without its breaks and pads, the rendering of any value at any level is the value's compact token form. Arrays and objects have commas only between elements, strings are quoted verbatim, and scalars are shown as themselves. |
| JsonViewer.LayoutList | frontend/components/json-viewer.tsx:28-60 | An array shows `[`, its items separated by n−1 commas, then `]`. |
| JsonViewer.LayoutObject | frontend/components/json-viewer.tsx:61-107 | An object shows `{`, then each entry as key, `: `, value, with commas between entries, then `}`. |
| JsonViewer.SameContent | frontend/components/json-viewer.tsx:24-135 | The renderer as written and the corrected one show the same content. |
| JsonViewer.ElementPadAsWritten | frontend/components/json-viewer.tsx:37-54 | As written, an array's first element is padded to the same level as its closing bracket. |
| JsonViewer.ElementPadNested | frontend/components/json-viewer.tsx:26-54 | Corrected, the first element is one level deeper than the closing bracket. |
| JsonViewer.OneElementListAsWritten | frontend/components/json-viewer.tsx:28-60 | As written, `[x]` at the top level displays as `[`, a newline, x unindented, a newline and `]`. |
| JsonViewer.OneElementListNested | frontend/components/json-viewer.tsx:28-60 | Corrected, `[x]` displays with x indented by two spaces. |
| KnowledgeBasePage.Filter | frontend/app/admin/knowledge-base/page.tsx:245-250 | A file is kept exactly when it is listed and the lower-cased term occurs in its lower-cased name, description or some tag. |
| KnowledgeBasePage.FilterAppend | frontend/app/admin/knowledge-base/page.tsx:245-250 | Filtering preserves order: a concatenation filters part by part. |
| KnowledgeBasePage.FilterKeepsMatching | frontend/app/admin/knowledge-base/page.tsx:245-250 | A list whose every file matches is shown whole. |
| KnowledgeBasePage.FilterIdempotent | frontend/app/admin/knowledge-base/page.tsx:245-250 | Filtering twice with one term is filtering once. |
| KnowledgeBasePage.EmptyTermShowsAll | frontend/app/admin/knowledge-base/page.tsx:245-250 | An empty search shows every file. |
| KnowledgeBasePage.SearchIgnoresCase | frontend/app/admin/knowledge-base/page.tsx:246-248 | Terms that lower-case alike show the same files. |
| KnowledgeBasePage.HandleDeleteFile | frontend/app/admin/knowledge-base/page.tsx:324-331 | A cancelled confirmation changes nothing. A confirmed delete keeps exactly the entries with another ID. |
| KnowledgeBasePage.DeleteCount | frontend/app/admin/knowledge-base/page.tsx:330 | The list shrinks by the number of entries with the ID, and is unchanged when there are none. |
| KnowledgeBasePage.DeleteIdempotent | frontend/app/admin/knowledge-base/page.tsx:330 | Deleting twice is deleting once. |
| KnowledgeBasePage.DeleteThenFilter | frontend/app/admin/knowledge-base/page.tsx:245-330 | Deleting and filtering commute. |
| KnowledgeBasePage.DeleteAppend | frontend/app/admin/knowledge-base/page.tsx:330 | Deletion keeps order: a concatenation is deleted from part by part. |
| KnowledgeBasePage.FileKind | frontend/app/admin/knowledge-base/page.tsx:307 | A type is non-empty and contains no dot. |
| KnowledgeBasePage.FileKindOfName | frontend/app/admin/knowledge-base/page.tsx:307 | A dotted name's type is its lower-cased text after the last dot, or `other` when that is empty. A name without a dot gives the whole lower-cased name. |
| KnowledgeBasePage.NewEntry | frontend/app/admin/knowledge-base/page.tsx:304-313 | The new entry has the picked name and size, the time-stamp ID, the derived type, active status, no tags and the `Uploaded file:` description. |
| KnowledgeBasePage.HandleFileUpload | frontend/app/admin/knowledge-base/page.tsx:295-322 | Without a picked file nothing changes. Otherwise exactly one entry, for the first file, is put in front of the unchanged list. |
| KnowledgeBasePage.UploadThenFilterAndDelete | frontend/app/admin/knowledge-base/page.tsx:245-330 | After an upload the search shows the new entry first exactly when it matches. Deleting its fresh ID restores the list. |
| KnowledgeBasePage.FormatFileSize | frontend/app/admin/knowledge-base/page.tsx:287-288 | A size of 0 shows as `0 Bytes`. |
| Signup.ValidateForm | frontend/app/signup/page.tsx:31-57 | The form passes exactly when first name, last name and email are not blank, the email has the required shape, the password has at least 8 UTF-16 units, and the confirmation equals it. |
| Signup.FirstFailureReported | frontend/app/signup/page.tsx:31-56 | Check p is reported exactly when every earlier check passes and p fails. The order is first name, last name, email present, email shape, password length, confirmation. |
| Signup.Message | frontend/app/signup/page.tsx:33-53 | Every failed check sets a non-empty message. |
| Signup.Blank | frontend/app/signup/page.tsx:32-40 | A text is blank exactly when trimming leaves nothing. |
| Signup.TestEmail | frontend/app/signup/page.tsx:44 | The scan answers yes exactly when some substring matches non-space+ `@` non-space+ `.` non-space+. |
| Signup.EmailFrom | frontend/app/signup/page.tsx:44 | The scan from a position finds a match exactly when some `@` at or after it starts one. |
| Signup.DotFrom | frontend/app/signup/page.tsx:44 | The scan after an `@` finds a dot exactly when one completes a match. |
| Signup.AddressWithoutAtRefused | frontend/app/signup/page.tsx:44-47 | A filled form whose address has no `@` is refused for the address shape. |
| Signup.UnanchoredMatch | frontend/app/signup/page.tsx:44 | The pattern is not anchored: an address padded with spaces or inside other text passes. |
| Signup.Utf16Length | frontend/app/signup/page.tsx:48 | A length counts UTF-16 code units, so it lies between the number of characters and twice that number. |
| Signup.AstralPasswordLength | frontend/app/signup/page.tsx:48 | Four characters beyond the BMP pass the 8-character rule. |
| Signup.HandleSubmit | frontend/app/signup/page.tsx:59-80 | Submitting moves on to sign-in, with no error, exactly when the form validates. Otherwise it shows the failed check's non-empty message. Loading always ends. |
| Signup.EmptyFormRefused | frontend/app/signup/page.tsx:15-35 | The untouched form is refused by the first-name check. |
| Onboarding.NextStep | frontend/components/onboarding-modal.tsx:316-320 | Next advances by one below the last step, and does nothing on it. |
| Onboarding.PrevStep | frontend/components/onboarding-modal.tsx:322-326 | Previous goes back one above the first step, and does nothing on it. |
| Onboarding.HandleClose | frontend/components/onboarding-modal.tsx:328-331 | Closing returns to step 0 and asks the host to close. |
| Onboarding.Step | frontend/components/onboarding-modal.tsx:316-331 | One event keeps a valid step valid, and asks the host to close exactly when it is a close. |
| Onboarding.Run | frontend/components/onboarding-modal.tsx:316-331 | A run of events asks to close at most once per event. |
| Onboarding.RunStaysValid | frontend/components/onboarding-modal.tsx:316-326 | The step always names one of the four steps, whatever the user does. |
| Onboarding.ClosesCounted | frontend/components/onboarding-modal.tsx:328-331 | The host is asked to close once per close event and never otherwise. |
| Onboarding.NextPrevInverse | frontend/components/onboarding-modal.tsx:316-326 | Away from the ends, Previous undoes Next and Next undoes Previous. |
| Onboarding.NextPressesReach | frontend/components/onboarding-modal.tsx:30-320 | From the initial step 0, k Next presses reach step min(k, 3). |
| Onboarding.CloseResets | frontend/components/onboarding-modal.tsx:328-331 | A run that ends with a close leaves the dialog on step 0. |
| Onboarding.Progress | frontend/components/onboarding-modal.tsx:348-357 | Segment i is filled exactly when i ≤ step. |
| Onboarding.ProgressFilled | frontend/components/onboarding-modal.tsx:348-357 | On step s the bar has s + 1 filled segments. |
| Onboarding.Caption | frontend/components/onboarding-modal.tsx:358-360 | The caption starts with `Step ` and ends with ` of 4`. |
| Onboarding.CaptionNumber | frontend/components/onboarding-modal.tsx:358-360 | The caption's number is the step counted from one. |
| Onboarding.Title | frontend/components/onboarding-modal.tsx:341 | The title shown is one of the four step titles. |
| Onboarding.ButtonsOf | frontend/components/onboarding-modal.tsx:366-380 | Previous is disabled exactly on step 0. The primary button closes exactly on the last step, and is never Previous. |
| Onboarding.ButtonsAlwaysAct | frontend/components/onboarding-modal.tsx:366-380 | The primary button always changes the state. An enabled Previous goes back one step, and a Next primary advances one step. |
| ToolParameters.UpdateParameter | frontend/components/ToolParameters.tsx:31-33 | The named field takes the new value, and every other field keeps its value. |
| ToolParameters.UpdateLaws | frontend/components/ToolParameters.tsx:31-33 | Writing a field's own value changes nothing. A second write to a field replaces the first, and writes to different fields commute. |
| ToolParameters.ClearAllParameters | frontend/components/ToolParameters.tsx:35-45 | Every field takes its default value. |
| ToolParameters.ClearAbsorbs | frontend/components/ToolParameters.tsx:35-45 | Clearing gives the same record whatever came before. It is idempotent and absorbs any earlier edit. |
| ToolParameters.DigitRun | frontend/components/ToolParameters.tsx:185 | The digit run is the longest prefix of digits in the radix. |
| ToolParameters.ParseIntOfDecimal | frontend/components/ToolParameters.tsx:185 | `parseInt` reads back any rendered integer, even with trailing text that ends the entry. |
| ToolParameters.HexEntry | frontend/components/ToolParameters.tsx:185 | An entry with a `0x` prefix is read in base 16. |
| ToolParameters.MaxRowsEntry | frontend/components/ToolParameters.tsx:185 | The entry is never 0. A non-zero parse is kept, and NaN or 0 becomes 10. |
| ToolParameters.MaxRowsFallback | frontend/components/ToolParameters.tsx:185 | A positive number is kept, and a zero entry becomes 10. |
| ToolParameters.NoDigitsFallback | frontend/components/ToolParameters.tsx:185 | An entry without digits, including the emptied input, becomes 10. |
| ToolParameters.ControlFor | frontend/components/ToolParameters.tsx:74-185 | Every field has a control that writes it. |
| ToolParameters.OnChange | frontend/components/ToolParameters.tsx:74-185 | A control writes only its own field. A text control stores the text, and Max Results stores a non-zero number. |
| ToolParameters.ControlsOwnTheirKeys | frontend/components/ToolParameters.tsx:74-185 | Different controls write different fields, so an edit through one survives an edit through another. |
| FileFetcher.FileUrl | frontend/components/file-fetcher.tsx:47 | The request path is `/biomodel/{id}/biomodel.{ext}` under the API base, with the ID as typed. |
| FileFetcher.StripQuotes | frontend/components/file-fetcher.tsx:52-56 | A quoted body loses its first and last characters, and a lone quote becomes empty. Any other body is kept verbatim. |
| FileFetcher.StripWrapped | frontend/components/file-fetcher.tsx:52-55 | Wrapping a text in quotes and stripping them gives the text back. |
| FileFetcher.StripKeepsIffUnquoted | frontend/components/file-fetcher.tsx:52-56 | A body is stored unchanged exactly when it is not quoted. |
| FileFetcher.StripOneLayer | frontend/components/file-fetcher.tsx:53-54 | Only one layer of quotes is stripped. |
| FileFetcher.HandleRetrieve | frontend/components/file-fetcher.tsx:38-64 | A blank ID sets the missing-ID error and makes no request. Otherwise the request goes to the file URL. A success stores the stripped body and clears the error. A failure sets the fetch error and clears the content. |
| FileFetcher.FailureClearsContent | frontend/components/file-fetcher.tsx:48-60 | A non-OK response and a thrown failure both leave no content and the same state. |
| FileFetcher.BlankIdKeepsContent | frontend/components/file-fetcher.tsx:39-42 | A blank ID makes no request and keeps the content on screen. |
| FileFetcher.HandleDownload | frontend/components/file-fetcher.tsx:66-72 | There is nothing to download exactly when there is no content. Otherwise the file holds the content and is named `biomodel_{id}.{ext}`. |
| FileFetcher.RetrievedThenDownloadable | frontend/components/file-fetcher.tsx:52-72 | After a successful retrieval of a non-empty body, the download offers exactly the stored body. |
| Strings.Trim | frontend/components/ChatBox.tsx:75 | The trimmed text starts and ends with non-whitespace, or is empty. |
| Strings.TrimSpec | frontend/components/xml-viewer.tsx:199 | `trim` removes exactly the leading and trailing whitespace: everything cut is whitespace, and the rest is a slice of the text. |
| Strings.TrimEmptyIffAllSpace | frontend/app/signup/page.tsx:32 | Trimming leaves nothing exactly when the text is all whitespace. |
| Strings.TrimIdempotent | frontend/components/xml-viewer.tsx:199 | Trimming twice is trimming once. |
| Strings.ToLower | frontend/app/admin/knowledge-base/page.tsx:246 | Lower-casing keeps the length and maps each character. |
| Strings.ToUpper | frontend/components/file-fetcher.tsx:49 | Upper-casing keeps the length and maps each character. |
| Strings.Contains | frontend/app/admin/knowledge-base/page.tsx:246 | `includes` is true exactly when the substring occurs at some position. |
| Strings.Split | frontend/components/xml-viewer.tsx:198 | A split has at least one piece, and no piece contains the separator. |
| Strings.JoinSplit | frontend/components/xml-viewer.tsx:198-223 | Joining the pieces of a split on the separator gives the text back. |
| Strings.SplitJoin | frontend/components/xml-viewer.tsx:198-223 | Splitting a join of separator-free pieces gives the pieces back. |
| Strings.Repeat | frontend/components/xml-viewer.tsx:210 | `"  ".repeat(n)` has 2n characters. |
| Strings.NatToString | frontend/app/admin/knowledge-base/page.tsx:305 | A rendered number is a non-empty digit string without a leading zero. |
| Strings.DigitsValueOfNatToString | frontend/app/admin/knowledge-base/page.tsx:305 | Reading back a rendered number gives it back. |
| Json.GetSpec | backend/app/utils/tools_utils.py:145-147 | `get` finds nothing exactly when the key is not present. Otherwise what it finds is paired with the key in some entry. |
| Json.Keys | backend/app/utils/tools_utils.py:145-149 | The key list has one key per entry, in insertion order. |
| Json.Set | backend/app/utils/tools_utils.py:146-149 | Assigning an existing key keeps the number of entries. Assigning a new key appends it with its value at the end. |
| Json.GetSet | backend/app/utils/tools_utils.py:145-149 | After an assignment the key holds the new value, and every other key is unchanged. |
| Json.KeysSet | backend/app/utils/tools_utils.py:145-149 | Assigning a present key keeps the key order, and assigning a new key appends it. |
| Json.PyStr | backend/app/services/llms_service.py:102 | `str()` of a string is the string itself, `str()` of a `date` is its ISO text, and anything else is its `repr`. `{}` and `[]` render as themselves. |
| Json.DateStrAndRepr | backend/app/services/llms_service.py:100-102 | `str()` of the date 2020-01-01 is `2020-01-01`, while `str()` of a dictionary holding it shows `datetime.date(2020, 1, 1)`, as the tool message does. |
| UriEncoding.Utf8RoundTrip | frontend/components/ChatBox.tsx:88 | Decoding the UTF-8 encoding of any text gives the text back. |
| UriEncoding.EncodeRoundTrip | backend/app/services/vcelldb_service.py:27 | Percent-decoding the form or component encoding of any text gives the text back. |
| UriEncoding.EncodeBytesAscii | frontend/components/ChatBox.tsx:88 | Every character of the encoding is ASCII: a character the encoder keeps, `%`, or `+`. |
| UriEncoding.EncodeAvoids | backend/app/services/vcelldb_service.py:27 | A character the encoder never writes, such as `&` or `=`, never occurs in an encoding, so pairs can be split back. |
| UriEncoding.EncodeAppend | backend/app/services/vcelldb_service.py:27 | Encoding a concatenation is concatenating the encodings. |
| UriEncoding.EncodeAlnum | backend/app/services/vcelldb_service.py:27 | ASCII letters and digits encode as themselves. |

## Left out

- Network I/O. The HTTP GETs, the frontend `fetch` calls and their JSON decoding are
  function-typed parameters returning a response or an error. HTTP itself is not modelled.
- Language-model and embedding calls. The completion is a parameter. The `analyse_vcml`,
  `analyse_biomodel` and `analyse_diagram` wrappers (backend/app/services/llms_service.py:119-230)
  are string concatenation around such a call and are not modelled.
- `json.loads` of tool arguments is a parameter that may fail.
- The regular-expression engine is not modelled. The two patterns used, `\bk\b` and the sign-up
  e-mail pattern, are written out as scans.
- ChatBox.FormatBiomodelIds: only models keys without regular-expression metacharacters, which
  read as literal text. The service's keys are numeric identifiers.
- ChatBox.LinkedWords: the word-by-word characterisation covers distinct keys made of word
  characters, none of them a word of the link text (`analyze`, `prompt`, `Describe`,
  `20model`). Other key lists are covered only by the key-by-key definition, because a later
  key can then match inside an earlier key's link.
- Vector store, chunking and embedding services. They are thin wrappers over LangChain and the
  Qdrant client. The knowledge-base controller's service calls are parameters.
- Wiring the code does not define:
  - The knowledge-base controller imports functions and signatures that the service does not
    define. Its controllers are modelled over a service parameter.
  - The vcelldb controller imports `get_vcml_url` and `get_sbml_url`, which the service does not
    define. Those two controllers are modelled over a URL provider.
- Routers, `JSONResponse`, temporary files, logging, configuration and prompt text are plumbing.
- Concurrency is not modelled. The tool loop is sequential.
- Rendering is not modelled: JSX, the markdown renderer, sidebar and layout, the
  mock-data pages, `setTimeout`, the clipboard, `localStorage` and `URL.createObjectURL`.
- The XML viewer's span tokenizer (frontend/components/xml-viewer.tsx:26-192) produces
  presentation only and is not modelled.
- KnowledgeBasePage.FormatFileSize: only the 0-byte case is stated. Other sizes go through
  `Math.log`, `Math.pow` and `toFixed` in floating point.
- Message IDs and timestamps are not modelled. `Date.now()`, the ISO upload date and the
  delete confirmation are parameters.
- The knowledge-base upload and the sign-up request are simulated in the source, with a
  `setTimeout` and no request. Only the state changes around them are modelled.
- JavaScript numbers are modelled as unbounded integers.
- ToolParameters.ParseIntOfDecimal: does not model the loss of precision above 2^53.
- QdrantSchema.VectorOf: Qdrant vectors (`List[float]`) are modelled as lists of integers. The
  lax float coercion of float numbers and of fractional or exponent text such as `"1.5"` is
  not modelled, because the value model has no floating-point numbers.
- QdrantSchema.ValidateInsertPoint: inherits the integer-only vector components above.
- Strings.ToLower, Strings.ToUpper: ASCII letters only; others are returned unchanged.
- Json.Value: every JSON and Python number is an integer. Float bodies, such as simulation
  times and search scores, Python's `str()` of floats (`1.0`, `1e-05`) and JavaScript's
  rendering of fractions are not modelled.
- JsonViewer.Render: object entries are rendered in the order given. JavaScript's
  `Object.entries` lists integer-like keys first, in ascending order, and then the other keys in
  insertion order. That reordering is not modelled.
- Dates.ParseDate: only the `YYYY-MM-DD` text form is accepted. When that parse fails,
  pydantic's lax `date` retries the input as a datetime and accepts it when the time is exactly
  midnight. Two such inputs are not modelled:
  - an integer or a digit string read as a Unix timestamp at midnight (`"0"` is 1970-01-01);
  - datetime text whose time is exactly midnight, with any UTC offset, such as
    `"2020-01-01T00:00:00"` or `"2020-01-01 00:00:00Z"`.
- VcelldbSchema.OptDate: inherits both missing midnight paths of Dates.ParseDate.
- VcelldbSchema.DateFieldsMustBeDates: the model refuses all text that Dates.ParseDate
  refuses. The program refuses less: it accepts a midnight Unix timestamp and midnight datetime
  text, which the model refuses.
- Json.PyStr: Python's `repr` of nested values is approximated. Quote choice and the common
  escapes are modelled. Non-ASCII characters are assumed printable.
- Validation.LaxInt: models pydantic's lax integer mode for numbers, booleans and digit strings
  with an optional minus sign only. Pydantic also accepts these, which the model refuses:
  - a leading `+`, as in `"+5"`;
  - surrounding whitespace, as in `" 5 "`;
  - a fractional part of zeros, as in `"5.0"`;
  - float numbers with no fractional part.

  QdrantSchema.VectorOf and the `startRow` and `maxRows` fields of
  VcelldbSchema.ValidateBiomodelParams inherit the gap.
- VcelldbSchema.BiomodelParamsDict: a `category` or `orderBy` left out of the arguments is
  dumped as its value. The program keeps the enum member, because defaults are not validated.
  So its `search_params` shows `<CategoryEnum.all: 'all'>`, and its query sends
  `CategoryEnum.all` (see Findings). The rest of the model uses the value. Only the query as
  written is modelled, in VcelldbService.SearchParamsAsWritten.
- Not implemented by the modelled code, so not modelled:
  - VCML retry and truncation;
  - application-file URL encoding;
  - publication and knowledge-base search tools.

## Findings

| source | as written | input that shows it | evidently intended | confidence | as-written member | corrected member |
|---|---|---|---|---|---|---|
| frontend/components/json-viewer.tsx:37-40 | Each array or object element is padded with the container's own `indentStr`. That is the same pad as the closing bracket (52-54), even though the element is rendered at `indent + 1`. | `[true]` at indent 0 displays as `[`, newline, `true`, newline, `]`, with the element not indented. | Elements one level deeper than their brackets: `[`, newline, two spaces, `true`, newline, `]`. | not executed | JsonViewer.OneElementListAsWritten | JsonViewer.OneElementListNested |
| backend/app/schemas/vcelldb_schema.py:23-34 | `use_enum_values=True` converts only validated values, and defaults are not validated. A search that leaves out `category` or `orderBy` keeps the member `CategoryEnum.all` or `OrderByEnum.date_desc`. `params.dict()` keeps it, and `urlencode` writes its `str()` (backend/app/services/vcelldb_service.py:22-27). | Search arguments without `category` and `orderBy`: the query holds `category=CategoryEnum.all` and `orderBy=OrderByEnum.date_desc`. | `category=all` and `orderBy=date_desc`, the values the enumerations list. | not executed | VcelldbService.DefaultEnumsSentAsMembers | VcelldbService.SentEnumsParse |
