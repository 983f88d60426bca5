/** The client of the public biomodel database API: the search URL with its form-encoded query,
    the resource URLs of one biomodel, the status check on every response, and the shaping of a
    search response into the result record the tools hand to the language model. The HTTP GET
    itself is a parameter (`Fetch`). */
module VcelldbService {
  import opened Common
  import opened Strings
  import opened Json
  import opened UriEncoding
  import opened Validation
  import opened VcelldbSchema
  import opened Dates

  const BaseUrl: string := "https://vcell.cam.uchc.edu/api/v0"

  // ---------------------------------------------------------------- the GET oracle

  /** What a GET delivers: the status code, the body as text, the body decoded as JSON (`None`
      when it is not JSON) and the raw bytes of the body. */
  datatype Response = Response(status: int, text: string, json: Option<Value>, content: seq<Byte>)

  datatype Fetched = Delivered(response: Response) | TransportFailure(reason: string)

  /** The HTTP client: a URL in, a response or a transport failure out. */
  type Fetch = string -> Fetched

  /** What a service call raises: a status error carrying the response's code, a transport
      error, or any other exception (named by its class). */
  datatype ServiceError = StatusError(code: int) | RequestError(reason: string) | OtherError(message: string)

  predicate IsSuccess(status: int) {
    200 <= status < 300
  }

  /** The GET followed by the status check: any status outside 2xx raises a status error. */
  function Send(fetch: Fetch, url: string): (r: Result<Response, ServiceError>)
    ensures r.Ok? <==> fetch(url).Delivered? && IsSuccess(fetch(url).response.status)
    ensures r.Ok? ==> r.value == fetch(url).response
    ensures fetch(url).Delivered? && !IsSuccess(fetch(url).response.status) ==>
              r == Err(StatusError(fetch(url).response.status))
    ensures fetch(url).TransportFailure? ==> r == Err(RequestError(fetch(url).reason))
  {
    match fetch(url)
    case TransportFailure(reason) => Err(RequestError(reason))
    case Delivered(resp) => if IsSuccess(resp.status) then Ok(resp) else Err(StatusError(resp.status))
  }

  /** `response.json()`: a body that is not JSON raises. */
  function JsonBody(resp: Response): (r: Result<Value, ServiceError>)
    ensures r.Ok? <==> resp.json.Some?
    ensures r.Ok? ==> resp.json == Some(r.value)
    ensures r.Err? ==> r.error.OtherError?
  {
    match resp.json
    case Some(v) => Ok(v)
    case None => Err(OtherError("JSONDecodeError"))
  }

  // ---------------------------------------------------------------- the search URL

  /** The search parameters as sent: the record dumped in declaration order, with every
      `None` replaced by the empty string. */
  function SearchParams(p: BiomodelParams): (r: seq<(string, Value)>)
    ensures Keys(r) == BiomodelFieldNames
    ensures forall i :: 0 <= i < |r| ==> r[i].1 != Null
    ensures forall i :: 0 <= i < |r| ==>
              r[i].1 == (if BiomodelParamsDict(p)[i].1 == Null then Str("") else BiomodelParamsDict(p)[i].1)
  {
    var d := BiomodelParamsDict(p);
    var r := seq(|d|, i requires 0 <= i < |d| => (d[i].0, if d[i].1 == Null then Str("") else d[i].1));
    assert forall i :: 0 <= i < |r| ==> Keys(r)[i] == Keys(d)[i];
    r
  }

  /** One `key=value` pair of the query, both sides form-encoded, the value through `str()`. */
  function QueryPair(pair: (string, Value)): string {
    QuotePlus(pair.0) + "=" + QuotePlus(PyStr(pair.1))
  }

  /** The encoded pairs, in order. */
  function Pieces(pairs: seq<(string, Value)>): (r: seq<string>)
    ensures |r| == |pairs|
    ensures forall i :: 0 <= i < |pairs| ==> r[i] == QueryPair(pairs[i])
  {
    if |pairs| == 0 then [] else [QueryPair(pairs[0])] + Pieces(pairs[1..])
  }

  /** `urlencode(pairs)`: the encoded pairs joined with `&`. */
  function UrlEncode(pairs: seq<(string, Value)>): string {
    Join(Pieces(pairs), "&")
  }

  const SearchPrefix: string := BaseUrl + "/biomodel?"

  function SearchUrl(p: BiomodelParams): (url: string)
    ensures StartsWith(url, SearchPrefix)
    ensures url[|SearchPrefix|..] == UrlEncode(SearchParams(p))
  {
    SearchPrefix + UrlEncode(SearchParams(p))
  }

  /** The reading of a query string: split on `&`, each piece split on `=` into exactly two
      sides, each side form-decoded. */
  function ParseQuery(q: string): Option<seq<(string, string)>> {
    ParsePairs(Split(q, '&'))
  }

  function ParsePairs(pieces: seq<string>): Option<seq<(string, string)>> {
    if |pieces| == 0 then Some([])
    else
      var sides := Split(pieces[0], '=');
      if |sides| != 2 then None
      else match (Decode(Form, sides[0]), Decode(Form, sides[1]), ParsePairs(pieces[1..]))
        case (Some(k), Some(v), Some(rest)) => Some([(k, v)] + rest)
        case _ => None
  }

  /** The text each parameter carries. */
  function SentTexts(pairs: seq<(string, Value)>): (r: seq<(string, string)>)
    ensures |r| == |pairs|
    ensures forall i :: 0 <= i < |pairs| ==> r[i] == (pairs[i].0, PyStr(pairs[i].1))
  {
    if |pairs| == 0 then [] else [(pairs[0].0, PyStr(pairs[0].1))] + SentTexts(pairs[1..])
  }

  /** One encoded pair splits back into its two encoded sides. */
  lemma QueryPairSplits(pair: (string, Value))
    ensures '&' !in QueryPair(pair)
    ensures Split(QueryPair(pair), '=') == [QuotePlus(pair.0), QuotePlus(PyStr(pair.1))]
  {
    EncodeAvoids(Form, pair.0, '&');
    EncodeAvoids(Form, PyStr(pair.1), '&');
    EncodeAvoids(Form, pair.0, '=');
    EncodeAvoids(Form, PyStr(pair.1), '=');
    var parts := [QuotePlus(pair.0), QuotePlus(PyStr(pair.1))];
    assert Join(parts, "=") == QueryPair(pair);
    SplitJoin(parts, '=');
  }

  lemma {:induction false} ParseEncodedPairs(pairs: seq<(string, Value)>)
    ensures ParsePairs(Pieces(pairs)) == Some(SentTexts(pairs))
  {
    if |pairs| > 0 {
      QueryPairSplits(pairs[0]);
      EncodeRoundTrip(Form, pairs[0].0);
      EncodeRoundTrip(Form, PyStr(pairs[0].1));
      ParseEncodedPairs(pairs[1..]);
      assert Pieces(pairs)[1..] == Pieces(pairs[1..]);
    }
  }

  /** Reading the encoded query gives back every parameter name with the text of its value, in
      order: `&` and `=` never occur inside an encoded name or value. */
  lemma QueryRoundTrip(pairs: seq<(string, Value)>)
    requires |pairs| > 0
    ensures ParseQuery(UrlEncode(pairs)) == Some(SentTexts(pairs))
  {
    var pieces := Pieces(pairs);
    forall k | 0 <= k < |pieces| ensures '&' !in pieces[k] {
      QueryPairSplits(pairs[k]);
    }
    SplitJoin(pieces, '&');
    ParseEncodedPairs(pairs);
  }

  /** The search URL carries all nine parameters, in declaration order, each with the text of
      its value and the empty string for an absent one. */
  lemma SearchUrlCarriesParams(p: BiomodelParams)
    ensures ParseQuery(SearchUrl(p)[|SearchPrefix|..]) == Some(SentTexts(SearchParams(p)))
    ensures |SentTexts(SearchParams(p))| == 9
  {
    QueryRoundTrip(SearchParams(p));
  }

  /** Names and values made of ASCII letters and digits travel unchanged. */
  predicate AsciiAlnumText(s: string) {
    forall i :: 0 <= i < |s| ==> ('0' <= s[i] <= '9') || ('A' <= s[i] <= 'Z') || ('a' <= s[i] <= 'z')
  }

  lemma {:induction false} QuotePlusKeepsAlnum(s: string)
    requires AsciiAlnumText(s)
    ensures QuotePlus(s) == s
  {
    if |s| > 0 {
      QuotePlusKeepsAlnum(s[1..]);
      assert Utf8Encode(s) == Utf8Char(s[0]) + Utf8Encode(s[1..]);
      assert Utf8Char(s[0]) == [s[0] as int];
      assert [s[0]] + s[1..] == s;
    }
  }

  /** A search by an alphanumeric name puts `bmName=<name>` first in the query. */
  lemma SearchUrlNamesModel(p: BiomodelParams, name: string)
    requires p.bmName == Some(name) && AsciiAlnumText(name)
    ensures StartsWith(SearchUrl(p)[|SearchPrefix|..], "bmName=" + name)
  {
    var pairs := SearchParams(p);
    FirstSearchParam(p, name);
    var key := pairs[0].0;
    NameKeyAlnum(key);
    AlnumPair(key, name);
    FirstPiece(pairs, key + "=" + name);
    var q := SearchUrl(p)[|SearchPrefix|..];
    assert q == UrlEncode(pairs);
    assert key + "=" + name == "bmName=" + name by {
      NameKeyEquals(key, name);
    }
  }

  lemma NameKeyEquals(key: string, name: string)
    requires key == "bmName"
    ensures key + "=" + name == "bmName=" + name
  {
    assert key + "=" == "bmName=";
  }

  lemma FirstSearchParam(p: BiomodelParams, name: string)
    requires p.bmName == Some(name)
    ensures |SearchParams(p)| >= 1 && SearchParams(p)[0] == ("bmName", Str(name))
  {
    assert BiomodelParamsDict(p)[0] == ("bmName", Str(name));
  }

  /** A date bound stays a `date` object in the parameters the search result reports, so
      `str()` of the result shows it as `datetime.date(Y, M, D)`, while the query sends its ISO
      text. */
  lemma DateBoundForms(p: BiomodelParams)
    ensures |SearchParams(p)| == 9
    ensures p.savedLow.Some? ==> SearchParams(p)[4] == ("savedLow", DateObj(p.savedLow.value))
    ensures p.savedLow.Some? ==> SentTexts(SearchParams(p))[4] == ("savedLow", FormatDate(p.savedLow.value))
    ensures p.savedHigh.Some? ==> SearchParams(p)[5] == ("savedHigh", DateObj(p.savedHigh.value))
    ensures p.savedHigh.Some? ==> SentTexts(SearchParams(p))[5] == ("savedHigh", FormatDate(p.savedHigh.value))
  {
    assert |Keys(SearchParams(p))| == 9;
    var d := BiomodelParamsDict(p);
    assert d[4] == ("savedLow", DateDump(p.savedLow)) && d[5] == ("savedHigh", DateDump(p.savedHigh));
  }

  // ---------------------------------------------------------------- defaulted enumerations

  /** `str()` of the class defaults of the two enumerated fields. The record library does not
      validate defaults, so a field left out keeps its enum member, which the value conversion
      never reaches, and `str()` of a member is `<class>.<member>`. */
  const DefaultCategoryMember: string := "CategoryEnum.all"
  const DefaultOrderByMember: string := "OrderByEnum.date_desc"

  /** The search parameters as the code sends them: as `SearchParams`, except that a category or
      sort order the arguments leave out goes as the default member's text. */
  function SearchParamsAsWritten(args: seq<(string, Value)>, p: BiomodelParams): (r: seq<(string, Value)>)
    ensures Keys(r) == BiomodelFieldNames
    ensures forall i :: 0 <= i < |r| && i != 2 && i != 8 ==> r[i] == SearchParams(p)[i]
    ensures Get(args, "category").Some? ==> r[2] == SearchParams(p)[2]
    ensures Get(args, "orderBy").Some? ==> r[8] == SearchParams(p)[8]
    ensures Get(args, "category").None? ==> r[2] == ("category", Str(DefaultCategoryMember))
    ensures Get(args, "orderBy").None? ==> r[8] == ("orderBy", Str(DefaultOrderByMember))
  {
    var d := SearchParams(p);
    assert |Keys(d)| == 9;
    var c := if Get(args, "category").None? then ("category", Str(DefaultCategoryMember)) else d[2];
    var o := if Get(args, "orderBy").None? then ("orderBy", Str(DefaultOrderByMember)) else d[8];
    var r := d[2 := c][8 := o];
    assert forall i :: 0 <= i < 9 ==> Keys(r)[i] == Keys(d)[i];
    r
  }

  /** As written, a category or sort order that the arguments leave out is validated as the
      default value, yet the query carries the member's text, which is none of the values the
      database lists. */
  lemma DefaultEnumsSentAsMembers(args: seq<(string, Value)>, p: BiomodelParams)
    requires ValidateBiomodelParams(args) == Ok(p)
    ensures var sent := SentTexts(SearchParamsAsWritten(args, p));
      Get(args, "category").None? ==>
        && p.category == Some(All)
        && sent[2] == ("category", DefaultCategoryMember)
        && ParseCategory(sent[2].1).None?
    ensures var sent := SentTexts(SearchParamsAsWritten(args, p));
      Get(args, "orderBy").None? ==>
        && p.orderBy == Some(DateDesc)
        && sent[8] == ("orderBy", DefaultOrderByMember)
        && ParseOrderBy(sent[8].1).None?
  {
    if Get(args, "category").None? { DefaultCategorySent(args, p); }
    if Get(args, "orderBy").None? { DefaultOrderBySent(args, p); }
  }

  lemma DefaultCategorySent(args: seq<(string, Value)>, p: BiomodelParams)
    requires ValidateBiomodelParams(args) == Ok(p)
    requires Get(args, "category").None?
    ensures p.category == Some(All)
    ensures |SearchParamsAsWritten(args, p)| == 9
    ensures SentTexts(SearchParamsAsWritten(args, p))[2] == ("category", DefaultCategoryMember)
    ensures ParseCategory(DefaultCategoryMember).None?
  {
    var r := SearchParamsAsWritten(args, p);
    assert |Keys(r)| == 9;
    DefaultsKept(args, p);
    MemberTextsUnlisted();
  }

  lemma DefaultOrderBySent(args: seq<(string, Value)>, p: BiomodelParams)
    requires ValidateBiomodelParams(args) == Ok(p)
    requires Get(args, "orderBy").None?
    ensures p.orderBy == Some(DateDesc)
    ensures |SearchParamsAsWritten(args, p)| == 9
    ensures SentTexts(SearchParamsAsWritten(args, p))[8] == ("orderBy", DefaultOrderByMember)
    ensures ParseOrderBy(DefaultOrderByMember).None?
  {
    var r := SearchParamsAsWritten(args, p);
    assert |Keys(r)| == 9;
    DefaultsKept(args, p);
    MemberTextsUnlisted();
  }

  lemma DefaultsKept(args: seq<(string, Value)>, p: BiomodelParams)
    requires ValidateBiomodelParams(args) == Ok(p)
    ensures Get(args, "category").None? ==> p.category == Some(All)
    ensures Get(args, "orderBy").None? ==> p.orderBy == Some(DateDesc)
  {
  }

  lemma MemberTextsUnlisted()
    ensures ParseCategory(DefaultCategoryMember).None?
    ensures ParseOrderBy(DefaultOrderByMember).None?
  {
  }

  /** The query the model sends carries each enumerated field as a value the database lists,
      which parses back to the record's field, defaulted or given. */
  lemma SentEnumsParse(p: BiomodelParams)
    ensures var sent := SentTexts(SearchParams(p));
      p.category.Some? ==>
        sent[2] == ("category", CategoryValue(p.category.value)) && ParseCategory(sent[2].1) == p.category
    ensures var sent := SentTexts(SearchParams(p));
      p.orderBy.Some? ==>
        sent[8] == ("orderBy", OrderByValue(p.orderBy.value)) && ParseOrderBy(sent[8].1) == p.orderBy
  {
    assert |Keys(SearchParams(p))| == 9;
    var d := BiomodelParamsDict(p);
    assert d[2] == ("category", CategoryDump(p.category)) && d[8] == ("orderBy", OrderByDump(p.orderBy));
    if p.category.Some? { CategoryEnumeration(p.category.value, ""); }
    if p.orderBy.Some? { OrderByEnumeration(p.orderBy.value, ""); }
  }

  lemma NameKeyAlnum(key: string)
    requires key == "bmName"
    ensures AsciiAlnumText(key)
  {
    assert |key| == 6;
    assert key[0] == 'b' && key[1] == 'm' && key[2] == 'N' && key[3] == 'a' && key[4] == 'm' && key[5] == 'e';
  }

  /** An alphanumeric name with an alphanumeric text value encodes as `key=value`. */
  lemma AlnumPair(key: string, value: string)
    requires AsciiAlnumText(key) && AsciiAlnumText(value)
    ensures QueryPair((key, Str(value))) == key + "=" + value
  {
    QuotePlusKeepsAlnum(key);
    QuotePlusKeepsAlnum(value);
  }

  /** The query starts with the first pair's encoding. */
  lemma FirstPiece(pairs: seq<(string, Value)>, head: string)
    requires |pairs| >= 1 && QueryPair(pairs[0]) == head
    ensures StartsWith(UrlEncode(pairs), head)
  {
    var pieces := Pieces(pairs);
    assert pieces[0] == head;
    JoinHead(pieces, "&");
  }

  lemma JoinHead(parts: seq<string>, sep: string)
    requires |parts| >= 1
    ensures StartsWith(Join(parts, sep), parts[0])
  {
    if |parts| > 1 {
      assert Join(parts, sep) == parts[0] + (sep + Join(parts[1..], sep));
    }
  }

  // ---------------------------------------------------------------- resource URLs

  function SimulationUrl(bmId: string, simId: string): string {
    BaseUrl + "/biomodel/" + bmId + "/simulation/" + simId
  }

  function VcmlUrl(bmId: string): string {
    BaseUrl + "/biomodel/" + bmId + "/biomodel.vcml"
  }

  function SbmlUrl(bmId: string): string {
    BaseUrl + "/biomodel/" + bmId + "/biomodel.sbml"
  }

  /** `get_diagram_url`: the address of the diagram image, also what `get_diagram_image`
      fetches. */
  function DiagramUrl(bmId: string): string {
    BaseUrl + "/biomodel/" + bmId + "/diagram"
  }

  /** The path segments after the base URL. */
  function PathSegments(url: string): seq<string>
    requires StartsWith(url, BaseUrl)
  {
    Split(url[|BaseUrl|..], '/')
  }

  /** Every resource URL lies under the base and names the biomodel in its second path segment;
      identifiers free of `/` can be read back, so distinct such identifiers give distinct URLs. */
  lemma ResourceUrlSegments(bmId: string, simId: string)
    requires '/' !in bmId && '/' !in simId
    ensures StartsWith(SimulationUrl(bmId, simId), BaseUrl)
    ensures PathSegments(SimulationUrl(bmId, simId)) == ["", "biomodel", bmId, "simulation", simId]
    ensures StartsWith(VcmlUrl(bmId), BaseUrl)
    ensures PathSegments(VcmlUrl(bmId)) == ["", "biomodel", bmId, "biomodel.vcml"]
    ensures StartsWith(SbmlUrl(bmId), BaseUrl)
    ensures PathSegments(SbmlUrl(bmId)) == ["", "biomodel", bmId, "biomodel.sbml"]
    ensures StartsWith(DiagramUrl(bmId), BaseUrl)
    ensures PathSegments(DiagramUrl(bmId)) == ["", "biomodel", bmId, "diagram"]
  {
    SimulationSegments(bmId, simId);
    ThreeSegments(bmId, "biomodel.vcml", VcmlUrl(bmId));
    ThreeSegments(bmId, "biomodel.sbml", SbmlUrl(bmId));
    ThreeSegments(bmId, "diagram", DiagramUrl(bmId));
  }

  lemma SimulationSegments(bmId: string, simId: string)
    requires '/' !in bmId && '/' !in simId
    ensures StartsWith(SimulationUrl(bmId, simId), BaseUrl)
    ensures PathSegments(SimulationUrl(bmId, simId)) == ["", "biomodel", bmId, "simulation", simId]
  {
    FiveSegments("", "biomodel", bmId, "simulation", simId, SimulationUrl(bmId, simId));
  }

  lemma FiveSegments(a: string, b: string, c: string, d: string, e: string, url: string)
    requires '/' !in a && '/' !in b && '/' !in c && '/' !in d && '/' !in e
    requires url == BaseUrl + a + "/" + b + "/" + c + "/" + d + "/" + e
    ensures StartsWith(url, BaseUrl) && PathSegments(url) == [a, b, c, d, e]
  {
    var segs := [a, b, c, d, e];
    JoinCons(d, [e], "/");
    JoinCons(c, [d, e], "/");
    JoinCons(b, [c, d, e], "/");
    JoinCons(a, [b, c, d, e], "/");
    assert [a] + [b, c, d, e] == segs;
    var x1 := BaseUrl + a + "/" + b;
    var x2 := x1 + "/" + c;
    HeadGlue(BaseUrl, a, b + "/" + (c + "/" + (d + "/" + e)));
    SlashStep(BaseUrl + a, b, c + "/" + (d + "/" + e));
    SlashStep(x1, c, d + "/" + e);
    SlashStep(x2, d, e);
    SegmentsOf(segs, url);
  }

  /** A base glued to a segment and the rest of a path. */
  lemma HeadGlue(base: string, a: string, rest: string)
    ensures base + (a + "/" + rest) == base + a + "/" + rest
  {
  }

  /** One more segment moved from the rest of a path onto its front. */
  lemma SlashStep(x: string, y: string, rest: string)
    ensures x + "/" + (y + "/" + rest) == x + "/" + y + "/" + rest
  {
  }

  lemma ThreeSegments(bmId: string, last: string, url: string)
    requires '/' !in bmId && '/' !in last
    requires url == BaseUrl + "/biomodel/" + bmId + "/" + last
    ensures StartsWith(url, BaseUrl) && PathSegments(url) == ["", "biomodel", bmId, last]
  {
    FourSegments("", "biomodel", bmId, last, url);
  }

  lemma FourSegments(a: string, b: string, c: string, d: string, url: string)
    requires '/' !in a && '/' !in b && '/' !in c && '/' !in d
    requires url == BaseUrl + a + "/" + b + "/" + c + "/" + d
    ensures StartsWith(url, BaseUrl) && PathSegments(url) == [a, b, c, d]
  {
    var segs := [a, b, c, d];
    JoinCons(c, [d], "/");
    JoinCons(b, [c, d], "/");
    JoinCons(a, [b, c, d], "/");
    assert [a] + [b, c, d] == segs;
    SegmentsOf(segs, url);
  }

  /** Joining a head onto a non-empty rest puts one separator between them. */
  lemma JoinCons(x: string, rest: seq<string>, sep: string)
    requires |rest| >= 1
    ensures Join([x] + rest, sep) == x + sep + Join(rest, sep)
  {
    assert ([x] + rest)[1..] == rest;
  }

  lemma SegmentsOf(segs: seq<string>, url: string)
    requires |segs| >= 1
    requires forall k :: 0 <= k < |segs| ==> '/' !in segs[k]
    requires url == BaseUrl + Join(segs, "/")
    ensures StartsWith(url, BaseUrl) && PathSegments(url) == segs
  {
    assert url[|BaseUrl|..] == Join(segs, "/");
    SplitJoin(segs, '/');
  }

  /** Identifiers are inserted into the path unescaped: an identifier containing `/` can make
      two different (biomodel, simulation) pairs share one URL. */
  lemma SimulationUrlAmbiguous()
    ensures SimulationUrl("a/simulation/b", "c") == SimulationUrl("a", "b/simulation/c")
  {
  }

  // ---------------------------------------------------------------- shaping a search response

  const KeysField: string := "unique_model_keys (bmkey)"

  /** `model.get("bmKey")`. */
  function KeyOf(model: seq<(string, Value)>): Value {
    Get(model, "bmKey").GetOr(Null)
  }

  /** The truthy `bmKey` values of the records, in record order, duplicates kept. */
  function ModelKeys(models: seq<seq<(string, Value)>>): (keys: seq<Value>)
    ensures |keys| <= |models|
    ensures forall i :: 0 <= i < |keys| ==> Truthy(keys[i])
  {
    if |models| == 0 then []
    else (if Truthy(KeyOf(models[0])) then [KeyOf(models[0])] else []) + ModelKeys(models[1..])
  }

  /** The key list of a concatenation is the concatenation of the key lists: records are
      visited in order and each contributes on its own. */
  lemma {:induction false} ModelKeysAppend(a: seq<seq<(string, Value)>>, b: seq<seq<(string, Value)>>)
    ensures ModelKeys(a + b) == ModelKeys(a) + ModelKeys(b)
  {
    if |a| > 0 {
      assert (a + b)[0] == a[0];
      assert (a + b)[1..] == a[1..] + b;
      ModelKeysAppend(a[1..], b);
    } else {
      assert a + b == b;
    }
  }

  /** A value is in the key list exactly when it is truthy and is the `bmKey` of some record. */
  lemma {:induction false} ModelKeysMembership(models: seq<seq<(string, Value)>>, k: Value)
    ensures k in ModelKeys(models) <==> Truthy(k) && exists i :: 0 <= i < |models| && KeyOf(models[i]) == k
  {
    if |models| > 0 {
      ModelKeysMembership(models[1..], k);
      if exists i :: 0 <= i < |models[1..]| && KeyOf(models[1..][i]) == k {
        var i :| 0 <= i < |models[1..]| && KeyOf(models[1..][i]) == k;
        assert KeyOf(models[i + 1]) == k;
      }
      if exists i :: 0 <= i < |models| && KeyOf(models[i]) == k {
        var i :| 0 <= i < |models| && KeyOf(models[i]) == k;
        if i > 0 {
          assert KeyOf(models[1..][i - 1]) == k;
        }
      }
    }
  }

  /** When every record has a truthy key, the key list has one entry per record, in order, so
      repeated keys are repeated. */
  lemma {:induction false} ModelKeysAllKeyed(models: seq<seq<(string, Value)>>)
    requires forall i :: 0 <= i < |models| ==> Truthy(KeyOf(models[i]))
    ensures ModelKeys(models) == seq(|models|, i requires 0 <= i < |models| => KeyOf(models[i]))
  {
    if |models| > 0 {
      ModelKeysAllKeyed(models[1..]);
    }
  }

  /** The records of the response body's list; a list element that is not a dictionary makes
      `model.get` raise. */
  function Records(items: seq<Value>): (r: Option<seq<seq<(string, Value)>>>)
    ensures r.Some? <==> forall i :: 0 <= i < |items| ==> items[i].Obj?
    ensures r.Some? ==> |r.value| == |items| && forall i :: 0 <= i < |items| ==> items[i] == Obj(r.value[i])
  {
    if forall i :: 0 <= i < |items| ==> items[i].Obj? then
      Some(seq(|items|, i requires 0 <= i < |items| => items[i].entries))
    else None
  }

  /** `raw_data if isinstance(raw_data, list) else raw_data.get("data", [])`. */
  function Biomodels(raw: Value): (r: Result<Value, ServiceError>)
    ensures raw.Arr? ==> r == Ok(raw)
    ensures raw.Obj? ==> r == Ok(Get(raw.entries, "data").GetOr(EmptyArr))
    ensures !raw.Arr? && !raw.Obj? ==> r.Err?
  {
    match raw
    case Arr(_) => Ok(raw)
    case Obj(entries) => Ok(Get(entries, "data").GetOr(EmptyArr))
    case _ => Err(OtherError("AttributeError"))
  }

  /** `len(biomodels)` and the iteration over it: a list of dictionaries has its records; an
      empty dictionary or string has none; iterating a non-empty dictionary or string meets
      text, which has no `get`, and anything else has no length. */
  function BiomodelRecords(biomodels: Value): (r: Result<seq<seq<(string, Value)>>, ServiceError>)
    ensures biomodels.Arr? ==> (r.Ok? <==> forall i :: 0 <= i < |biomodels.items| ==> biomodels.items[i].Obj?)
    ensures biomodels.Arr? && r.Ok? ==>
              |r.value| == |biomodels.items| &&
              forall i :: 0 <= i < |biomodels.items| ==> biomodels.items[i] == Obj(r.value[i])
    ensures !biomodels.Arr? ==> (r.Ok? <==> biomodels in {EmptyObj, Str([])})
    ensures !biomodels.Arr? && r.Ok? ==> r.value == []
  {
    match biomodels
    case Arr(items) => (match Records(items) case Some(ms) => Ok(ms) case None => Err(OtherError("AttributeError")))
    case Obj(entries) => if entries == [] then Ok([]) else Err(OtherError("AttributeError"))
    case Str(s) => if s == [] then Ok([]) else Err(OtherError("AttributeError"))
    case _ => Err(OtherError("TypeError"))
  }

  /** The result record: the parameters sent, the number of records, their key list and the
      records themselves. */
  function SearchResult(params: seq<(string, Value)>, biomodels: Value, models: seq<seq<(string, Value)>>): (r: Value)
    ensures r.Obj? && Keys(r.entries) == ["search_params", "models_count", KeysField, "data"]
    ensures Get(r.entries, "search_params") == Some(Obj(params))
    ensures Get(r.entries, "models_count") == Some(Num(|models|))
    ensures Get(r.entries, KeysField) == Some(Arr(ModelKeys(models)))
    ensures Get(r.entries, "data") == Some(biomodels)
  {
    var es := [("search_params", Obj(params)),
               ("models_count", Num(|models|)),
               (KeysField, Arr(ModelKeys(models))),
               ("data", biomodels)];
    assert es[2..][1..] == [("data", biomodels)];
    assert Get(es[2..], KeysField) == Some(Arr(ModelKeys(models)));
    assert Get(es[2..], "data") == Some(biomodels);
    Obj(es)
  }

  function Shape(params: seq<(string, Value)>, raw: Value): Result<Value, ServiceError> {
    match Biomodels(raw)
    case Err(e) => Err(e)
    case Ok(biomodels) =>
      match BiomodelRecords(biomodels)
      case Err(e) => Err(e)
      case Ok(models) => Ok(SearchResult(params, biomodels, models))
  }

  /** `fetch_biomodels`: the GET of the search URL, the status check, the JSON body, the
      shaping. */
  function FetchBiomodels(p: BiomodelParams, fetch: Fetch): (r: Result<Value, ServiceError>)
    ensures Send(fetch, SearchUrl(p)).Err? ==> r == Err(Send(fetch, SearchUrl(p)).error)
    ensures r.Ok? ==> fetch(SearchUrl(p)).Delivered? && IsSuccess(fetch(SearchUrl(p)).response.status)
    ensures r.Ok? ==> fetch(SearchUrl(p)).response.json.Some?
    ensures Send(fetch, SearchUrl(p)).Ok? && fetch(SearchUrl(p)).response.json.Some? ==>
              r == Shape(SearchParams(p), fetch(SearchUrl(p)).response.json.value)
  {
    match Send(fetch, SearchUrl(p))
    case Err(e) => Err(e)
    case Ok(resp) =>
      match JsonBody(resp)
      case Err(e) => Err(e)
      case Ok(raw) => Shape(SearchParams(p), raw)
  }

  /** A list body of records: the count is the number of records, including those without a
      key; the key list holds the truthy keys in order; the data is the list itself. */
  lemma ShapeListBody(params: seq<(string, Value)>, items: seq<Value>)
    requires forall i :: 0 <= i < |items| ==> items[i].Obj?
    ensures Shape(params, Arr(items)).Ok?
    ensures Shape(params, Arr(items)).value ==
              SearchResult(params, Arr(items), Records(items).value)
    ensures |Records(items).value| == |items|
  {
  }

  /** A `{"data": [...]}` body is shaped as its list; a dictionary without `data` as the empty
      list. */
  lemma ShapeDataBody(params: seq<(string, Value)>, entries: seq<(string, Value)>)
    ensures Get(entries, "data").None? ==>
              Shape(params, Obj(entries)) == Shape(params, EmptyArr)
    ensures Get(entries, "data").Some? && Get(entries, "data").value.Arr? ==>
              Shape(params, Obj(entries)) == Shape(params, Get(entries, "data").value)
  {
  }

  /** An empty body gives no data, a count of zero and no keys. */
  lemma ShapeEmptyBody(params: seq<(string, Value)>)
    ensures Shape(params, EmptyArr) == Ok(Obj([("search_params", Obj(params)), ("models_count", Num(0)),
                                              (KeysField, EmptyArr), ("data", EmptyArr)]))
  {
    assert Records([]) == Some([]);
  }

  /** A record without `bmKey` counts but contributes no key; duplicates are kept. */
  lemma MissingAndRepeatedKeys()
    ensures ModelKeys([[("bmKey", Str("123"))], [("name", Str("x"))], [("bmKey", Str("123"))]])
            == [Str("123"), Str("123")]
  {
    var ms := [[("bmKey", Str("123"))], [("name", Str("x"))], [("bmKey", Str("123"))]];
    assert KeyOf(ms[1]) == Null;
    assert ModelKeys(ms[2..]) == [Str("123")];
    assert ModelKeys(ms[1..]) == [Str("123")];
  }

  // ---------------------------------------------------------------- the other calls

  /** `fetch_simulation_details`: the JSON body at the simulation URL. */
  function FetchSimulationDetails(p: SimulationParams, fetch: Fetch): (r: Result<Value, ServiceError>)
    ensures r.Ok? <==> Send(fetch, SimulationUrl(p.bmId, p.simId)).Ok?
                       && fetch(SimulationUrl(p.bmId, p.simId)).response.json.Some?
    ensures r.Ok? ==> r.value == fetch(SimulationUrl(p.bmId, p.simId)).response.json.value
  {
    match Send(fetch, SimulationUrl(p.bmId, p.simId))
    case Err(e) => Err(e)
    case Ok(resp) => JsonBody(resp)
  }

  /** `get_vcml_file`: the text at the VCML URL. */
  function GetVcmlFile(bmId: string, fetch: Fetch): (r: Result<string, ServiceError>)
    ensures r.Ok? <==> Send(fetch, VcmlUrl(bmId)).Ok?
    ensures r.Ok? ==> r.value == fetch(VcmlUrl(bmId)).response.text
    ensures r.Err? ==> r.error == Send(fetch, VcmlUrl(bmId)).error
  {
    match Send(fetch, VcmlUrl(bmId))
    case Err(e) => Err(e)
    case Ok(resp) => Ok(resp.text)
  }

  /** `get_sbml_file`: the text at the SBML URL. */
  function GetSbmlFile(bmId: string, fetch: Fetch): (r: Result<string, ServiceError>)
    ensures r.Ok? <==> Send(fetch, SbmlUrl(bmId)).Ok?
    ensures r.Ok? ==> r.value == fetch(SbmlUrl(bmId)).response.text
    ensures r.Err? ==> r.error == Send(fetch, SbmlUrl(bmId)).error
  {
    match Send(fetch, SbmlUrl(bmId))
    case Err(e) => Err(e)
    case Ok(resp) => Ok(resp.text)
  }

  /** `get_diagram_image`: the bytes at the diagram URL. */
  function GetDiagramImage(bmId: string, fetch: Fetch): (r: Result<seq<Byte>, ServiceError>)
    ensures r.Ok? <==> Send(fetch, DiagramUrl(bmId)).Ok?
    ensures r.Ok? ==> r.value == fetch(DiagramUrl(bmId)).response.content
    ensures r.Err? ==> r.error == Send(fetch, DiagramUrl(bmId)).error
  {
    match Send(fetch, DiagramUrl(bmId))
    case Err(e) => Err(e)
    case Ok(resp) => Ok(resp.content)
  }

  /** A status outside 2xx at any of the calls yields that status error and no result. */
  lemma NonSuccessPropagates(p: BiomodelParams, s: SimulationParams, bmId: string, fetch: Fetch, code: int)
    requires !IsSuccess(code)
    requires forall url :: fetch(url).Delivered? && fetch(url).response.status == code
    ensures FetchBiomodels(p, fetch) == Err(StatusError(code))
    ensures FetchSimulationDetails(s, fetch) == Err(StatusError(code))
    ensures GetVcmlFile(bmId, fetch) == Err(StatusError(code))
    ensures GetSbmlFile(bmId, fetch) == Err(StatusError(code))
    ensures GetDiagramImage(bmId, fetch) == Err(StatusError(code))
  {
    assert fetch(SearchUrl(p)).response.status == code;
    assert fetch(SimulationUrl(s.bmId, s.simId)).response.status == code;
    assert fetch(VcmlUrl(bmId)).response.status == code;
    assert fetch(SbmlUrl(bmId)).response.status == code;
    assert fetch(DiagramUrl(bmId)).response.status == code;
  }
}
