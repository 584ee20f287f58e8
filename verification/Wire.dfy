/** What passes between an adapter and the remote API it drives.

    A run never sees more of the remote than the replies it gets, so a remote is
    an arbitrary stream of replies: whatever an adaptive remote answered in one
    run is one stream.  Time is an arbitrary stream too.

    A body is any JSON value.  Where the Python code calls `.get` on a value that
    is not an object, the call raises; `Outcome.Raised` is that exception.
 */
module Wire {

  datatype Json =
    | Null
    | Bool(b: bool)
    | Num(n: real)
    | Str(s: string)
    | Arr(elems: seq<Json>)
    | Obj(fields: map<string, Json>)
  {
    /** Python's truth value. */
    predicate Truthy() {
      match this
      case Null => false
      case Bool(b) => b
      case Num(n) => n != 0.0
      case Str(s) => s != ""
      case Arr(elems) => elems != []
      case Obj(fields) => fields != map[]
    }

    /** `dict.get(key, default)` */
    function Get(key: string, default: Json): Json
      requires Obj?
    {
      if key in fields then fields[key] else default
    }

    /** `a or b` */
    function Or(other: Json): Json {
      if Truthy() then this else other
    }
  }

  /** Several texts contain `value[:n]`, which raises for anything but a string or a list. */
  predicate Sliceable(value: Json) {
    value.Str? || value.Arr?
  }

  /** A Python call either returns or raises. */
  datatype Outcome<+T> = Raised | Returned(value: T) {
    predicate IsFailure() {
      Raised?
    }

    function PropagateFailure<U>(): Outcome<U>
      requires Raised?
    {
      Raised
    }

    function Extract(): T
      requires Returned?
    {
      value
    }
  }

  datatype Response = Response(code: int, body: Json)

  datatype Action = Start | Stop | Reboot | ApplyArtifact | RollbackArtifact

  datatype Request =
    | GetStatus
    | GetBootId
    | GetTask(upid: Json)
    | GetStorageContent
    | PostAction(action: Action)
    | PutConfig

  type Replies = m: imap<nat, Response> | forall k: nat :: k in m
    ghost witness imap k: nat :: Response(0, Null)

  type Stopwatch = m: imap<nat, real> | forall k: nat :: k in m
    ghost witness imap k: nat :: 0.0

  /** - `reply[k]` answers the k-th request of the session;
      - `elapsed[k]` is the time since the polling loop started, as the loop reads it
        once k requests have been sent (it reads it at most once for each k);
      - `bootIdOf` is base64 and UTF-8 decoding followed by strip, "" where that raises. */
  datatype Remote = Remote(reply: Replies, elapsed: Stopwatch, bootIdOf: Json -> string)

  /** What a call does to the outside, and how it ends. */
  datatype Run<+T> = Run(requests: seq<Request>, result: Outcome<T>)

  /** `body.get("data")` of a 200 reply; null for any other status code. */
  function DataOf(r: Response): Outcome<Json> {
    if r.code != 200 then Returned(Null)
    else if !r.body.Obj? then Raised
    else Returned(r.body.Get("data", Null))
  }

  /** The `status` field as the pre-state and post-state checks read it. */
  function StatusField(r: Response): Outcome<Json> {
    var data :- DataOf(r);
    if !data.Truthy() then Returned(Str("unknown"))
    else if !data.Obj? then Raised
    else Returned(data.Get("status", Str("unknown")))
  }

  /** The same inside `try: ... except Exception: pass`. */
  function StatusFieldOrUnknown(r: Response): Json {
    match StatusField(r)
    case Raised => Str("unknown")
    case Returned(s) => s
  }

  // ----- JSON in Python's eyes

  predicate Blank(v: Json) {
    v == Null || v == Bool(false) || v == Num(0.0) || v == Str("") || v == Arr([]) || v == Obj(map[])
  }

  lemma TruthyIff(v: Json)
    ensures v.Truthy() <==> !Blank(v)
  {
  }

  /** The value of a field, or `default` if it is not there. */
  ghost predicate Has(fields: map<string, Json>, key: string, default: Json, v: Json) {
    (key in fields && v == fields[key]) || (key !in fields && v == default)
  }

  lemma GetIff(fields: map<string, Json>, key: string, default: Json, v: Json)
    ensures Obj(fields).Get(key, default) == v <==> Has(fields, key, default, v)
  {
  }

  lemma OrIff(a: Json, b: Json, v: Json)
    ensures a.Or(b) == v <==> (!Blank(a) && v == a) || (Blank(a) && v == b)
  {
  }

  // ----- replies

  /** A 200 reply whose body is an object; `data` is its field of that name, null if it is not
      there. */
  ghost predicate Carries(r: Response, data: Json) {
    r.code == 200 && r.body.Obj? && Has(r.body.fields, "data", Null, data)
  }

  lemma DataOfIff(r: Response, data: Json)
    ensures DataOf(r) == Returned(data) <==> Carries(r, data) || (r.code != 200 && data == Null)
    ensures DataOf(r).Raised? <==> r.code == 200 && !r.body.Obj?
  {
  }

  /** The connection of one adapter: requests go out one by one, the k-th request
      sent gets the k-th reply. */
  class Session {
    const remote: Remote
    var trace: seq<Request>

    constructor (remote: Remote)
      ensures this.remote == remote && trace == []
    {
      this.remote := remote;
      trace := [];
    }

    method Send(request: Request) returns (r: Response)
      modifies this
      ensures trace == old(trace) + [request]
      ensures r == remote.reply[|old(trace)|]
    {
      r := remote.reply[|trace|];
      trace := trace + [request];
    }
  }
}
