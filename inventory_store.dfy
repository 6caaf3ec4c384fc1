/**
 * The server side of both update thunks, as the client sees it: one
 * revisioned inventory document behind a GET and a conditional PUT
 * (`?rev=<_rev>`), and the outcomes an async thunk can settle with.
 * The body the server answers a stale revision with is part of the store
 * (`staleRevision`), so a 409 whose body does not parse to
 * `{"status": 409}` is modelled as well.
 *
 * The network and the other seats are not modelled as processes.  Instead
 * the store carries a `script`: one event per request, saying whether the
 * request is served, fails with a given error, is served with its answer
 * lost, or is preceded by another client's successful write (which bumps
 * the revision).  When the
 * script is exhausted every request is served.  Every request and its
 * response are appended to `log`, which the thunks' contracts talk about.
 */
module InventoryStore {
  import opened Common
  import opened Inventory

  /**
   * What `JSON.parse(error.message)` makes of an error's message: a value
   * with a numeric `status`, any other JSON value (a number, a string, an
   * object without `status`), or text that is not JSON, on which it throws.
   */
  datatype ParsedBody = StatusField(status: int) | NoStatusField | Unparsable

  /**
   * A failed request.  `HttpError`: the server answered with a status that
   * is not ok; `message` is the response text, or `HTTP error! status: N`
   * when it is empty.  `NetworkError`: `fetch` itself rejected; `message`
   * is the engine's `TypeError` text.
   */
  datatype Failure =
    | HttpError(message: string, parsed: ParsedBody)
    | NetworkError(message: string, parsed: ParsedBody)

  datatype Request = Get | Put(body: Doc, rev: nat)

  datatype Response = Ok(doc: Doc) | Err(failure: Failure)

  datatype Exchange = Exchange(request: Request, response: Response)

  /** What happens to the next request. */
  datatype NetEvent =
    | Deliver
    | Drop(failure: Failure)   // the request fails before the server acts on it
    | Lost(failure: Failure)   // the server acts on the request (a PUT may commit), but the answer is lost
    | Race(other: Doc)         // another seat commits `other` just before this request

  /** The client receives no answer from the server. */
  predicate Unanswered(e: NetEvent)
  {
    e.Drop? || e.Lost?
  }

  /** A stale-revision answer whose message parses to `{status: 409}`, as the unit tests mock it. */
  const JsonConflict: Failure := HttpError("{\"status\":409}", StatusField(409))

  /** A stale-revision answer with an empty body: `api.fetch` throws `HTTP error! status: 409`. */
  const EmptyBodyConflict: Failure := HttpError("HTTP error! status: 409", Unparsable)

  /** A failure that the economy thunk treats as a revision conflict. */
  predicate IsConflict(f: Failure)
  {
    f.parsed == StatusField(409)
  }

  function NextEvent(script: seq<NetEvent>): NetEvent
  {
    if script == [] then Deliver else script[0]
  }

  function RestOf(script: seq<NetEvent>): (r: seq<NetEvent>)
    ensures |r| == if script == [] then 0 else |script| - 1
  {
    if script == [] then [] else script[1..]
  }

  /** The document after the event's interference, if any. */
  function Interfere(current: Doc, e: NetEvent): (r: Doc)
    ensures e.Race? ==> r.rev == current.rev + 1
    ensures !e.Race? ==> r == current
  {
    if e.Race? then Doc(current.rev + 1, e.other.categories) else current
  }

  /** Every document another seat may commit is well formed. */
  ghost predicate ScriptWellFormed(script: seq<NetEvent>)
  {
    forall i :: 0 <= i < |script| && script[i].Race? ==> WellFormed(script[i].other)
  }

  /** Every document another seat may commit respects every meal's capacity. */
  ghost predicate ScriptWithinCapacity(script: seq<NetEvent>)
  {
    forall i :: 0 <= i < |script| && script[i].Race? ==> WithinCapacity(script[i].other)
  }

  /** How an async thunk settles: `fulfilled`, `rejectWithValue(...)`, or a thrown error. */
  datatype RejectValue =
    | OutOfStockReject(message: string, items: seq<OutOfStockItem>)   // an object payload
    | MessageReject(message: string)                                  // a string payload

  datatype Outcome = Fulfilled(doc: Doc) | RejectedWithValue(value: RejectValue) | Rejected(message: string)

  /** The `error.message` of the action Redux Toolkit dispatches when a thunk returns `rejectWithValue(...)`. */
  const RejectedActionMessage: string := "Rejected"

  /** `action.error.message` of the settling action: absent when fulfilled. */
  function ActionErrorMessage(o: Outcome): Option<string>
  {
    match o
    case Fulfilled(_) => None
    case RejectedWithValue(_) => Some(RejectedActionMessage)
    case Rejected(message) => Some(message)
  }

  class Store {
    var current: Doc
    var script: seq<NetEvent>
    var log: seq<Exchange>
    /** The failure a PUT with a stale revision receives: an HTTP 409 with the server's body. */
    var staleRevision: Failure

    ghost predicate Valid()
      reads this
    {
      WellFormed(current) && ScriptWellFormed(script) && staleRevision.HttpError?
    }

    constructor (initial: Doc, events: seq<NetEvent>, conflict: Failure)
      requires WellFormed(initial) && ScriptWellFormed(events) && conflict.HttpError?
      ensures Valid()
      ensures current == initial && script == events && log == [] && staleRevision == conflict
    {
      current, script, log, staleRevision := initial, events, [], conflict;
    }

    /** GET: answer with the current document, unless the event drops the request or loses the answer. */
    method Fetch() returns (r: Response)
      requires Valid()
      modifies this
      ensures Valid()
      ensures staleRevision == old(staleRevision)
      ensures script == RestOf(old(script))
      ensures current == Interfere(old(current), NextEvent(old(script)))
      ensures r == if Unanswered(NextEvent(old(script))) then Err(NextEvent(old(script)).failure) else Ok(current)
      ensures log == old(log) + [Exchange(Get, r)]
    {
      var e := NextEvent(script);
      script := RestOf(script);
      current := Interfere(current, e);
      r := if Unanswered(e) then Err(e.failure) else Ok(current);
      log := log + [Exchange(Get, r)];
    }

    /**
     * PUT `?rev=rev`: the write succeeds only when `rev` is the revision the
     * store holds when the request arrives; a stale revision is a 409.  When
     * the answer is lost, the client sees the event's failure whatever the
     * server did, and a write the server accepted stands.
     */
    method WriteConditional(body: Doc, rev: nat) returns (r: Response)
      requires Valid() && WellFormed(body)
      modifies this
      ensures Valid()
      ensures staleRevision == old(staleRevision)
      ensures script == RestOf(old(script))
      ensures var e := NextEvent(old(script));
              var base := Interfere(old(current), e);
              if e.Drop? then r == Err(e.failure) && current == base
              else if rev != base.rev then r == Err(if e.Lost? then e.failure else staleRevision) && current == base
              else current == Doc(base.rev + 1, body.categories) && r == if e.Lost? then Err(e.failure) else Ok(current)
      ensures r.Ok? ==> current.categories == body.categories
      ensures r.Err? ==> current == Interfere(old(current), NextEvent(old(script))) ||
                         (NextEvent(old(script)).Lost? && current.categories == body.categories)
      ensures log == old(log) + [Exchange(Put(body, rev), r)]
    {
      var e := NextEvent(script);
      script := RestOf(script);
      current := Interfere(current, e);
      if e.Drop? {
        r := Err(e.failure);
      } else if rev != current.rev {
        r := Err(if e.Lost? then e.failure else staleRevision);
      } else {
        current := Doc(current.rev + 1, body.categories);
        r := if e.Lost? then Err(e.failure) else Ok(current);
      }
      log := log + [Exchange(Put(body, rev), r)];
    }
  }
}
