/** The two lazily built client cells (language model and vector store). Each starts unset; a
    `connect` builds its client only when the cell is unset and returns the stored client; a
    `get` connects and then reads the cell. Clients are identified by their instance number;
    the instance a construction would produce is a parameter. */
module Singleton {
  import opened Common

  /** A client instance, by identity. */
  type Client = nat

  datatype Service = OpenAi | Qdrant

  /** The two cells, and the log of every construction so far. */
  datatype Cells = Cells(openai: Option<Client>, qdrant: Option<Client>, built: seq<(Service, Client)>)

  const Initial: Cells := Cells(None, None, [])

  function Cell(c: Cells, s: Service): Option<Client> {
    match s case OpenAi => c.openai case Qdrant => c.qdrant
  }

  function Store(c: Cells, s: Service, client: Client): Cells {
    match s
    case OpenAi => c.(openai := Some(client), built := c.built + [(s, client)])
    case Qdrant => c.(qdrant := Some(client), built := c.built + [(s, client)])
  }

  /** `connect_openai` / `connect_qdrant`: build into the cell only when it is unset; return the
      cell's client. */
  function Connect(c: Cells, s: Service, candidate: Client): (r: (Cells, Client))
    ensures Cell(c, s).Some? ==> r == (c, Cell(c, s).value)
    ensures Cell(c, s).None? ==> r.1 == candidate && r.0.built == c.built + [(s, candidate)]
    ensures Cell(r.0, s) == Some(r.1)
    ensures forall t :: t != s ==> Cell(r.0, t) == Cell(c, t)
  {
    match Cell(c, s)
    case Some(client) => (c, client)
    case None => (Store(c, s, candidate), candidate)
  }

  /** `get_openai_client` / `get_qdrant_client`: connect, then read the cell. */
  function GetClient(c: Cells, s: Service, candidate: Client): (r: (Cells, Client))
    ensures Cell(r.0, s) == Some(r.1)
    ensures Cell(c, s).Some? ==> r == (c, Cell(c, s).value)
  {
    var (after, _) := Connect(c, s, candidate);
    (after, Cell(after, s).value)
  }

  /** A second connect changes nothing and returns the same client, whatever instance it would
      have built. */
  lemma ConnectIdempotent(c: Cells, s: Service, f1: Client, f2: Client)
    ensures Connect(Connect(c, s, f1).0, s, f2) == Connect(c, s, f1)
    ensures GetClient(GetClient(c, s, f1).0, s, f2) == GetClient(c, s, f1)
  {
  }

  // ---------------------------------------------------------------- any run of calls

  /** One call: which cell, whether through `get`, and the instance a construction would build. */
  datatype Call = Call(service: Service, viaGet: bool, candidate: Client)

  /** The state after `calls` and the client each call returned. */
  function Run(c: Cells, calls: seq<Call>): (r: (Cells, seq<Client>))
    ensures |r.1| == |calls|
    decreases |calls|
  {
    if |calls| == 0 then (c, [])
    else
      var call := calls[0];
      var (next, client) := if call.viaGet then GetClient(c, call.service, call.candidate)
                            else Connect(c, call.service, call.candidate);
      var (last, rest) := Run(next, calls[1..]);
      (last, [client] + rest)
  }

  /** How many constructions of service `s` the log holds. */
  function Builds(log: seq<(Service, Client)>, s: Service): nat {
    if |log| == 0 then 0
    else (if log[|log| - 1].0 == s then 1 else 0) + Builds(log[..|log| - 1], s)
  }

  /** A cell is set exactly when its client has been built once, and it holds that build. */
  predicate Consistent(c: Cells) {
    forall s :: if Cell(c, s).None? then Builds(c.built, s) == 0 else Builds(c.built, s) == 1
  }

  lemma InitialConsistent()
    ensures Consistent(Initial)
    ensures Initial.openai.None? && Initial.qdrant.None?
  {
  }

  /** Construct-once: over any run of calls from a consistent state, each client is built at
      most once, every call on a service returns the one client its cell ends up holding, and
      a cell that was set keeps its client. */
  lemma {:induction false} RunBuildsOnce(c: Cells, calls: seq<Call>)
    requires Consistent(c)
    decreases |calls|
    ensures Consistent(Run(c, calls).0)
    ensures forall s :: Builds(Run(c, calls).0.built, s) <= 1
    ensures forall i :: 0 <= i < |calls| ==>
              Cell(Run(c, calls).0, calls[i].service) == Some(Run(c, calls).1[i])
    ensures forall s :: Cell(c, s).Some? ==> Cell(Run(c, calls).0, s) == Cell(c, s)
  {
    if |calls| > 0 {
      var call := calls[0];
      var (next, client) := if call.viaGet then GetClient(c, call.service, call.candidate)
                            else Connect(c, call.service, call.candidate);
      ConnectConsistent(c, call.service, call.candidate);
      RunBuildsOnce(next, calls[1..]);
      var (last, rest) := Run(next, calls[1..]);
      assert Run(c, calls) == (last, [client] + rest);
      forall i | 0 <= i < |calls|
        ensures Cell(last, calls[i].service) == Some(([client] + rest)[i])
      {
        if i > 0 {
          assert calls[i] == calls[1..][i - 1];
        }
      }
    }
  }

  /** One connect keeps the cells consistent. */
  lemma ConnectConsistent(c: Cells, s: Service, candidate: Client)
    requires Consistent(c)
    ensures Consistent(Connect(c, s, candidate).0)
  {
    if Cell(c, s).None? {
      var log := Connect(c, s, candidate).0.built;
      assert log[..|log| - 1] == c.built;
      forall t ensures Builds(log, t) == Builds(c.built, t) + (if t == s then 1 else 0) {
      }
    }
  }
}
