/** The knowledge-base controllers: each validates its input, calls one service operation, and
    maps the service's answer to an HTTP reply: status "success" gives 200, any other status
    gives 500 with the same body, a validation failure is a 400 error raised as is, and any
    other failure is a 500 error whose detail is a fixed prefix followed by the exception text.
    The services are oracles. */
module KbController {
  import opened Common
  import opened Strings
  import opened Json

  /** What a service call does: return a value, raise an `HTTPException` with a status and a
      detail, or raise any other exception, whose `str()` is `text`. */
  datatype ServiceOutcome =
    | Returned(result: Value)
    | RaisedHttp(status: nat, detail: string)
    | Raised(text: string)

  /** What a controller does: answer with a status and a JSON body, or raise an HTTP error. */
  datatype Reply = Respond(status: int, body: Value) | HttpError(status: int, detail: string)

  /** `str()` of an `HTTPException`: the status code, a colon, a space and the detail. */
  function HttpExceptionText(status: nat, detail: string): (t: string)
    ensures StartsWith(t, NatToString(status)) && EndsWith(t, ": " + detail)
  {
    NatToString(status) + ": " + detail
  }

  /** Reading `result["status"]`: the value under "status" of a dictionary. A dictionary without
      the key raises a `KeyError`, whose text is the quoted key. Any other value raises a
      `TypeError`; its message depends on the value's type and the interpreter, and the fixed
      text "TypeError" stands in for it. */
  function StatusOf(result: Value): (r: Result<Value, string>)
    ensures result.Obj? ==> (r.Ok? <==> "status" in Keys(result.entries))
    ensures r.Ok? ==> result.Obj? && Get(result.entries, "status") == Some(r.value)
    ensures result.Obj? && r.Err? ==> r.error == "'status'"
  {
    match result
    case Obj(entries) =>
      (GetSpec(entries, "status");
       match Get(entries, "status")
       case Some(s) => Ok(s)
       case None => Err("'status'"))
    case _ => Err("TypeError")
  }

  /** The reply a controller owes a service outcome. A returned value's "status" decides the
      code: 200 for "success", 500 for anything else, with the value as body. A value whose
      status cannot be read, and any exception, give a 500 error with `prefix` before the
      exception's text, except that an `HTTPException` passes through as is when the
      controller re-raises those (`reraise`). */
  predicate Mapped(prefix: string, reraise: bool, outcome: ServiceOutcome, r: Reply) {
    match outcome
    case Returned(result) =>
      if StatusOf(result).Ok? then
        r == Respond(if StatusOf(result).value == Str("success") then 200 else 500, result)
      else r == HttpError(500, prefix + StatusOf(result).error)
    case RaisedHttp(status, detail) =>
      if reraise then r == HttpError(status, detail)
      else r == HttpError(500, prefix + HttpExceptionText(status, detail))
    case Raised(text) => r == HttpError(500, prefix + text)
  }

  /** The `try` block around a service call and its status check. */
  function Guarded(prefix: string, reraise: bool, outcome: ServiceOutcome): (r: Reply)
    ensures Mapped(prefix, reraise, outcome, r)
    ensures r.Respond? <==> outcome.Returned? && StatusOf(outcome.result).Ok?
    ensures r.Respond? ==> r.body == outcome.result
    ensures r.Respond? ==> (r.status == 200 <==> StatusOf(outcome.result).value == Str("success"))
    ensures r.Respond? ==> r.status == 200 || r.status == 500
    ensures r.HttpError? && !outcome.RaisedHttp? ==> r.status == 500 && StartsWith(r.detail, prefix)
    ensures !reraise && r.HttpError? ==> r.status == 500 && StartsWith(r.detail, prefix)
  {
    match outcome
    case RaisedHttp(status, detail) =>
      if reraise then HttpError(status, detail)
      else HttpError(500, prefix + HttpExceptionText(status, detail))
    case Raised(text) => HttpError(500, prefix + text)
    case Returned(result) =>
      match StatusOf(result)
      case Err(text) => HttpError(500, prefix + text)
      case Ok(status) => if status == Str("success") then Respond(200, result) else Respond(500, result)
  }

  // ---------------------------------------------------------------- the seven controllers

  /** `create_collection_controller`: no `except HTTPException` clause, so every exception of
      the service becomes a 500. */
  function CreateCollection(create: ServiceOutcome): (r: Reply)
    ensures Mapped("Error creating collection: ", false, create, r)
    ensures r.Respond? ==> create == Returned(r.body)
    ensures r.HttpError? ==> r.status == 500 && StartsWith(r.detail, "Error creating collection: ")
  {
    Guarded("Error creating collection: ", false, create)
  }

  /** `get_files_controller`: as above, every exception becomes a 500. */
  function GetFiles(list: ServiceOutcome): (r: Reply)
    ensures Mapped("Error getting files: ", false, list, r)
    ensures r.Respond? ==> list == Returned(r.body)
    ensures r.HttpError? ==> r.status == 500 && StartsWith(r.detail, "Error getting files: ")
  {
    Guarded("Error getting files: ", false, list)
  }

  /** The text of the exception `None.lower()` raises. */
  const NoLower: string := "'NoneType' object has no attribute 'lower'"

  /** An upload whose (optional) file name must end with `extension`, compared in lower case.
      The refusal is an `HTTPException` raised inside the `try`, and the `except HTTPException`
      clause raises it again; so does it any `HTTPException` of the service. A missing name
      fails on `None.lower()`. */
  function Upload(filename: Option<string>, extension: string, refusal: string, prefix: string,
                  upload: string -> ServiceOutcome): (r: Reply)
    ensures filename.None? ==> r == HttpError(500, prefix + NoLower)
    ensures filename.Some? && !EndsWith(ToLower(filename.value), extension) ==> r == HttpError(400, refusal)
    ensures filename.Some? && EndsWith(ToLower(filename.value), extension) ==>
              Mapped(prefix, true, upload(filename.value), r)
  {
    match filename
    case None => HttpError(500, prefix + NoLower)
    case Some(name) =>
      if !EndsWith(ToLower(name), extension) then HttpError(400, refusal)
      else Guarded(prefix, true, upload(name))
  }

  /** `upload_pdf_controller`. */
  function UploadPdf(filename: Option<string>, upload: string -> ServiceOutcome): (r: Reply)
    ensures filename.None? ==> r == HttpError(500, "Error uploading PDF: " + NoLower)
    ensures filename.Some? && !EndsWith(ToLower(filename.value), ".pdf") ==> r == HttpError(400, "File must be a PDF")
    ensures filename.Some? && EndsWith(ToLower(filename.value), ".pdf") ==>
              Mapped("Error uploading PDF: ", true, upload(filename.value), r)
    ensures r.Respond? ==> filename.Some? && upload(filename.value) == Returned(r.body)
  {
    Upload(filename, ".pdf", "File must be a PDF", "Error uploading PDF: ", upload)
  }

  /** `upload_text_controller`. */
  function UploadText(filename: Option<string>, upload: string -> ServiceOutcome): (r: Reply)
    ensures filename.None? ==> r == HttpError(500, "Error uploading text file: " + NoLower)
    ensures filename.Some? && !EndsWith(ToLower(filename.value), ".txt") ==> r == HttpError(400, "File must be a text file")
    ensures filename.Some? && EndsWith(ToLower(filename.value), ".txt") ==>
              Mapped("Error uploading text file: ", true, upload(filename.value), r)
    ensures r.Respond? ==> filename.Some? && upload(filename.value) == Returned(r.body)
  {
    Upload(filename, ".txt", "File must be a text file", "Error uploading text file: ", upload)
  }

  /** A controller on a file name, which must not be empty; `HTTPException`s are raised again. */
  function OnFile(fileName: string, prefix: string, service: string -> ServiceOutcome): (r: Reply)
    ensures fileName == [] ==> r == HttpError(400, "File name is required")
    ensures fileName != [] ==> Mapped(prefix, true, service(fileName), r)
  {
    if fileName == [] then HttpError(400, "File name is required")
    else Guarded(prefix, true, service(fileName))
  }

  /** `delete_file_controller`. */
  function DeleteFile(fileName: string, delete: string -> ServiceOutcome): (r: Reply)
    ensures fileName == [] ==> r == HttpError(400, "File name is required")
    ensures fileName != [] ==> Mapped("Error deleting file: ", true, delete(fileName), r)
    ensures r.Respond? ==> delete(fileName) == Returned(r.body)
  {
    OnFile(fileName, "Error deleting file: ", delete)
  }

  /** `get_file_chunks_controller`. */
  function GetFileChunks(fileName: string, chunks: string -> ServiceOutcome): (r: Reply)
    ensures fileName == [] ==> r == HttpError(400, "File name is required")
    ensures fileName != [] ==> Mapped("Error getting file chunks: ", true, chunks(fileName), r)
    ensures r.Respond? ==> chunks(fileName) == Returned(r.body)
  {
    OnFile(fileName, "Error getting file chunks: ", chunks)
  }

  const DefaultLimit: int := 10

  /** Whether the similarity search refuses its input: an empty query, or a limit (10 when not
      given) outside 1..100. */
  predicate SimilarRefused(query: string, limit: Option<int>) {
    query == [] || !(0 < limit.GetOr(DefaultLimit) <= 100)
  }

  /** `get_similar_controller`: the query is checked first, then the limit; both refusals and
      any `HTTPException` of the service are raised again as they are. */
  function GetSimilar(query: string, limit: Option<int>, search: (string, int) -> ServiceOutcome): (r: Reply)
    ensures query == [] ==> r == HttpError(400, "Query is required")
    ensures query != [] && SimilarRefused(query, limit) ==> r == HttpError(400, "Limit must be between 1 and 100")
    ensures !SimilarRefused(query, limit) ==>
              Mapped("Error getting similar chunks: ", true, search(query, limit.GetOr(DefaultLimit)), r)
    ensures r.Respond? ==> search(query, limit.GetOr(DefaultLimit)) == Returned(r.body)
  {
    var n := limit.GetOr(DefaultLimit);
    if query == [] then HttpError(400, "Query is required")
    else if n <= 0 || n > 100 then HttpError(400, "Limit must be between 1 and 100")
    else Guarded("Error getting similar chunks: ", true, search(query, n))
  }

  // ---------------------------------------------------------------- properties

  /** The status mapping: a service result whose status is "success" comes back unchanged with
      200, one with any other status comes back unchanged with 500. */
  lemma StatusMapping(prefix: string, reraise: bool, entries: seq<(string, Value)>, status: Value)
    requires Get(entries, "status") == Some(status)
    ensures Guarded(prefix, reraise, Returned(Obj(entries))) ==
              Respond(if status == Str("success") then 200 else 500, Obj(entries))
  {
  }

  /** An `HTTPException` of the service is answered differently by the two groups of
      controllers: creating a collection turns it into a 500 whose detail quotes it, while
      deleting a file raises it again with its own status and detail. */
  lemma HttpExceptionHandling(status: nat, detail: string, fileName: string)
    requires fileName != []
    ensures CreateCollection(RaisedHttp(status, detail)) ==
              HttpError(500, "Error creating collection: " + NatToString(status) + ": " + detail)
    ensures DeleteFile(fileName, (n: string) => RaisedHttp(status, detail)) == HttpError(status, detail)
  {
  }

  /** A refusal of the similarity search is raised before the service is consulted: two
      services give the same 400 reply. */
  lemma RejectionSkipsService(query: string, limit: Option<int>, s1: (string, int) -> ServiceOutcome,
                              s2: (string, int) -> ServiceOutcome)
    requires SimilarRefused(query, limit)
    ensures GetSimilar(query, limit, s2) == GetSimilar(query, limit, s1)
    ensures GetSimilar(query, limit, s1).HttpError? && GetSimilar(query, limit, s1).status == 400
  {
  }

  /** The query is checked before the limit: an empty query is refused for its own sake,
      whatever the limit. */
  lemma QueryCheckedFirst(limit: Option<int>, search: (string, int) -> ServiceOutcome)
    ensures GetSimilar([], limit, search).detail == "Query is required"
  {
  }

  /** Upload refusals name the expected type, whatever the upload service would do; a name
      differing only in letter case is accepted. */
  lemma UploadExtension(name: string, upload: string -> ServiceOutcome)
    ensures EndsWith(ToLower(name), ".pdf") ==> UploadPdf(Some(name), upload) == Guarded("Error uploading PDF: ", true, upload(name))
    ensures !EndsWith(ToLower(name), ".pdf") ==> UploadPdf(Some(name), upload) == HttpError(400, "File must be a PDF")
    ensures UploadPdf(Some("Notes.PDF"), upload) == Guarded("Error uploading PDF: ", true, upload("Notes.PDF"))
  {
    assert ToLower("Notes.PDF") == "notes.pdf";
  }
}
