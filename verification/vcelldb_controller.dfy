/** The VCell database controllers: each calls one service operation and turns its failure into
    an HTTP error. An upstream status error keeps its status code, a transport failure becomes
    500 with a fixed message, and any other failure becomes 500 with the failure's own text;
    the URL controllers turn any failure into 500 with a fixed per-resource message. */
module VcelldbController {
  import opened Common
  import opened Json
  import opened VcelldbSchema
  import opened VcelldbService

  /** The HTTP error a controller raises. */
  datatype HttpError = HttpError(status: int, detail: string)

  const TransportDetail: string := "Error communicating with VCell API."

  /** The HTTP error for a service failure; `statusDetail` is the controller's message for an
      upstream status error. The detail of any other error is Python's `str(e)`; the service
      model carries fixed texts such as "JSONDecodeError" or "AttributeError" in its place, so
      those details are placeholders for the interpreter's message. */
  function ToHttpError(e: ServiceError, statusDetail: string): (h: HttpError)
    ensures e.StatusError? ==> h == HttpError(e.code, statusDetail)
    ensures e.RequestError? ==> h == HttpError(500, TransportDetail)
    ensures e.OtherError? ==> h == HttpError(500, e.message)
  {
    match e
    case StatusError(code) => HttpError(code, statusDetail)
    case RequestError(_) => HttpError(500, TransportDetail)
    case OtherError(message) => HttpError(500, message)
  }

  /** A service answer passed through: success unchanged, failure mapped. */
  function Forward<T>(r: Result<T, ServiceError>, statusDetail: string): (c: Result<T, HttpError>)
    ensures c.Ok? <==> r.Ok?
    ensures c.Ok? ==> c.value == r.value
    ensures c.Err? ==> c.error == ToHttpError(r.error, statusDetail)
  {
    match r
    case Ok(v) => Ok(v)
    case Err(e) => Err(ToHttpError(e, statusDetail))
  }

  /** `get_biomodels_controller`. */
  function GetBiomodels(p: BiomodelParams, fetch: Fetch): (c: Result<Value, HttpError>)
    ensures c.Ok? <==> FetchBiomodels(p, fetch).Ok?
    ensures c.Ok? ==> c.value == FetchBiomodels(p, fetch).value
    ensures c.Err? && FetchBiomodels(p, fetch).error.StatusError? ==>
              c.error == HttpError(FetchBiomodels(p, fetch).error.code, "Error fetching biomodels.")
    ensures c.Err? && !FetchBiomodels(p, fetch).error.StatusError? ==> c.error.status == 500
  {
    Forward(FetchBiomodels(p, fetch), "Error fetching biomodels.")
  }

  /** `get_simulation_details_controller`. */
  function GetSimulationDetails(p: SimulationParams, fetch: Fetch): (c: Result<Value, HttpError>)
    ensures c.Ok? <==> FetchSimulationDetails(p, fetch).Ok?
    ensures c.Ok? ==> c.value == FetchSimulationDetails(p, fetch).value
    ensures c.Err? && FetchSimulationDetails(p, fetch).error.StatusError? ==>
              c.error == HttpError(FetchSimulationDetails(p, fetch).error.code, "Error fetching simulation details.")
    ensures c.Err? && !FetchSimulationDetails(p, fetch).error.StatusError? ==> c.error.status == 500
  {
    Forward(FetchSimulationDetails(p, fetch), "Error fetching simulation details.")
  }

  /** A URL controller: the provider's URL, or 500 with `detail` whatever the failure. */
  function UrlController(provided: Result<string, string>, detail: string): (c: Result<string, HttpError>)
    ensures c.Ok? <==> provided.Ok?
    ensures c.Ok? ==> c.value == provided.value
    ensures c.Err? ==> c.error == HttpError(500, detail)
  {
    match provided
    case Ok(url) => Ok(url)
    case Err(_) => Err(HttpError(500, detail))
  }

  /** `get_vcml_url_controller`, over the provider of the URL (the service defines none). */
  function GetVcmlUrl(provided: Result<string, string>): (c: Result<string, HttpError>)
    ensures c.Err? ==> c.error == HttpError(500, "Error fetching VCML URL.")
    ensures c.Ok? ==> provided == Ok(c.value)
  {
    UrlController(provided, "Error fetching VCML URL.")
  }

  /** `get_sbml_url_controller`, over the provider of the URL (the service defines none). */
  function GetSbmlUrl(provided: Result<string, string>): (c: Result<string, HttpError>)
    ensures c.Err? ==> c.error == HttpError(500, "Error fetching SBML URL.")
    ensures c.Ok? ==> provided == Ok(c.value)
  {
    UrlController(provided, "Error fetching SBML URL.")
  }

  /** `get_diagram_url_controller`: the diagram address never fails to build. */
  function GetDiagramUrl(bmId: string): (c: Result<string, HttpError>)
    ensures c.Ok? && c.value == BaseUrl + "/biomodel/" + bmId + "/diagram"
  {
    UrlController(Ok(DiagramUrl(bmId)), "Error fetching diagram URL.")
  }

  /** An upstream status error reaches the caller with its own status code, from both data
      controllers; transport failures are 500 with the fixed message. */
  lemma StatusCodeForwarded(p: BiomodelParams, s: SimulationParams, fetch: Fetch, code: int)
    requires !IsSuccess(code)
    requires forall url :: fetch(url).Delivered? && fetch(url).response.status == code
    ensures GetBiomodels(p, fetch) == Err(HttpError(code, "Error fetching biomodels."))
    ensures GetSimulationDetails(s, fetch) == Err(HttpError(code, "Error fetching simulation details."))
  {
    NonSuccessPropagates(p, s, s.bmId, fetch, code);
  }

  /** A transport failure of every request is a 500 with the fixed message. */
  lemma TransportFailureIs500(p: BiomodelParams, fetch: Fetch)
    requires forall url :: fetch(url).TransportFailure?
    ensures GetBiomodels(p, fetch) == Err(HttpError(500, TransportDetail))
  {
    assert Send(fetch, SearchUrl(p)).Err?;
  }
}
