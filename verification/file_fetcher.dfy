/** The SBML/VCML file page: retrieve a biomodel's file from the backend, drop one pair of
    surrounding double quotes from the body (the backend sends the file as a JSON string), show
    an error and no content when the request fails, and offer the content for download under
    a name built from the biomodel ID. The HTTP exchange is a parameter: the outcome the
    request would have. */
module FileFetcher {
  import opened Common
  import opened Strings

  datatype FileType = Sbml | Vcml

  /** The `fileType` property's text. */
  function TypeName(t: FileType): string {
    match t
    case Sbml => "sbml"
    case Vcml => "vcml"
  }

  /** The page's state. */
  datatype Fetcher = Fetcher(biomodelId: string, content: string, error: string, loading: bool)

  /** The page as first shown, with the ID the user typed. */
  function Fresh(biomodelId: string): Fetcher {
    Fetcher(biomodelId, "", "", false)
  }

  /** How the request ended: a response (its `ok` flag and body text), or a thrown failure. */
  datatype Outcome = Response(ok: bool, body: string) | Thrown

  const MissingId: string := "Please enter a biomodel ID"

  /** The message shown for a failed request. */
  function FetchFailed(t: FileType): string {
    "Failed to fetch " + ToUpper(TypeName(t)) + " from backend."
  }

  /** The address requested: the ID goes in as typed, neither trimmed nor encoded. */
  function FileUrl(api: string, biomodelId: string, ext: string): (url: string)
    ensures StartsWith(url, api + "/biomodel/" + biomodelId)
    ensures EndsWith(url, "/biomodel." + ext)
  {
    var url := api + "/biomodel/" + biomodelId + "/biomodel." + ext;
    assert url[..|api + "/biomodel/" + biomodelId|] == api + "/biomodel/" + biomodelId;
    assert url[|url| - |"/biomodel." + ext|..] == "/biomodel." + ext;
    url
  }

  /** Surrounded by double quotes: starts with one and ends with one (one character that is a
      quote does both). */
  predicate Quoted(text: string) {
    |text| > 0 && text[0] == '"' && text[|text| - 1] == '"'
  }

  /** `text.slice(1, -1)` on a quoted body, else the body as it is. A lone quote slices to
      the empty text. */
  function StripQuotes(text: string): (r: string)
    ensures Quoted(text) && |text| >= 2 ==> r == text[1..|text| - 1]
    ensures Quoted(text) && |text| == 1 ==> r == ""
    ensures !Quoted(text) ==> r == text
  {
    if Quoted(text) then (if |text| >= 2 then text[1..|text| - 1] else "") else text
  }

  /** Wrapping any text in quotes and stripping them gives the text back. */
  lemma StripWrapped(s: string)
    ensures StripQuotes("\"" + s + "\"") == s
  {
    var w := "\"" + s + "\"";
    assert Quoted(w);
    assert w[1..|w| - 1] == s;
  }

  /** A body is stored unchanged exactly when it is not quoted; otherwise it loses two
      characters, or its single one. */
  lemma StripKeepsIffUnquoted(text: string)
    ensures StripQuotes(text) == text <==> !Quoted(text)
    ensures Quoted(text) ==> |StripQuotes(text)| == if |text| >= 2 then |text| - 2 else 0
  {
  }

  /** Only one layer is stripped: a doubly quoted body keeps its inner quotes. */
  lemma StripOneLayer(s: string)
    ensures StripQuotes("\"" + ("\"" + s + "\"") + "\"") == "\"" + s + "\""
  {
    StripWrapped("\"" + s + "\"");
  }

  /** `handleRetrieve`: the new state and the address requested, if any. */
  function HandleRetrieve(st: Fetcher, t: FileType, ext: string, api: string, outcome: Outcome)
    : (r: (Fetcher, Option<string>))
    ensures AllSpace(st.biomodelId) ==> r == (st.(error := MissingId), None)
    ensures !AllSpace(st.biomodelId) ==>
              r.1 == Some(FileUrl(api, st.biomodelId, ext)) && !r.0.loading
              && r.0.biomodelId == st.biomodelId
    ensures !AllSpace(st.biomodelId) && outcome.Response? && outcome.ok ==>
              r.0.error == "" && r.0.content == StripQuotes(outcome.body)
    ensures !AllSpace(st.biomodelId) && !(outcome.Response? && outcome.ok) ==>
              r.0.error == FetchFailed(t) && r.0.content == ""
  {
    TrimEmptyIffAllSpace(st.biomodelId);
    if Trim(st.biomodelId) == [] then (st.(error := MissingId), None)
    else
      var url := FileUrl(api, st.biomodelId, ext);
      var settled :=
        match outcome
        case Response(ok, body) =>
          if !ok then st.(error := FetchFailed(t), content := "")
          else st.(error := "", content := StripQuotes(body))
        case Thrown => st.(error := FetchFailed(t), content := "");
      (settled.(loading := false), Some(url))
  }

  /** A failed retrieval never leaves old content on screen, whatever was shown before. */
  lemma FailureClearsContent(st: Fetcher, t: FileType, ext: string, api: string, status: string)
    requires !AllSpace(st.biomodelId)
    ensures HandleRetrieve(st, t, ext, api, Thrown).0.content == ""
    ensures HandleRetrieve(st, t, ext, api, Response(false, status)).0.content == ""
    ensures HandleRetrieve(st, t, ext, api, Thrown).0 == HandleRetrieve(st, t, ext, api, Response(false, status)).0
  {
  }

  /** A blank ID makes no request and keeps whatever content was on screen. */
  lemma BlankIdKeepsContent(st: Fetcher, t: FileType, ext: string, api: string, outcome: Outcome)
    requires AllSpace(st.biomodelId)
    ensures HandleRetrieve(st, t, ext, api, outcome).1.None?
    ensures HandleRetrieve(st, t, ext, api, outcome).0.content == st.content
  {
  }

  /** The file `handleDownload` offers: none while there is no content, otherwise the content
      under `biomodel_<id>.<ext>`. */
  datatype Download = Download(fileName: string, data: string)

  function HandleDownload(st: Fetcher, ext: string): (d: Option<Download>)
    ensures d.None? <==> st.content == ""
    ensures d.Some? ==> d.value.data == st.content
    ensures d.Some? ==> StartsWith(d.value.fileName, "biomodel_" + st.biomodelId)
                        && EndsWith(d.value.fileName, "." + ext)
  {
    if st.content == "" then None
    else
      var name := "biomodel_" + st.biomodelId + "." + ext;
      assert name[..|"biomodel_" + st.biomodelId|] == "biomodel_" + st.biomodelId;
      assert name[|name| - |"." + ext|..] == "." + ext;
      Some(Download(name, st.content))
  }

  /** After a successful retrieval of a body that is more than a pair of quotes, there is
      something to download, and it is the stripped body. */
  lemma RetrievedThenDownloadable(st: Fetcher, t: FileType, ext: string, api: string, body: string)
    requires !AllSpace(st.biomodelId)
    requires StripQuotes(body) != ""
    ensures var after := HandleRetrieve(st, t, ext, api, Response(true, body)).0;
            HandleDownload(after, ext).Some?
            && HandleDownload(after, ext).value.data == StripQuotes(body)
  {
  }
}
