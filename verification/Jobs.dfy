/** One job on one worker: its route, its chain of handlers and its single response. */
module Jobs {
  import opened Options

  type Value = int
  type Error = int

  /** The fields of a job that its handlers read and write. */
  datatype Fields = Fields(payload: Option<Value>, result: Option<Value>, err: Option<Error>)

  /** How a handler ends: with an error or none, or in a panic; and how it leaves the job. */
  datatype Outcome =
    | Returned(fields: Fields, error: Option<Error>)
    | Panicked(fields: Fields, cause: Error)

  type Handler = Fields -> Outcome
  type Middleware = Handler -> Handler

  datatype Route = Route(middlewares: seq<Middleware>, handlers: seq<Handler>)

  datatype Answer = Failed(error: Error) | Result(value: Option<Value>)

  /** The result of one stage is the payload of the next. */
  function Continue(f: Fields): Fields { f.(payload := f.result, result := None) }

  predicate GoesOn(o: Outcome) { o.Returned? && o.error.None? }

  function Chain(first: Handler, next: Handler): Handler {
    (f: Fields) => var o := first(f); if GoesOn(o) then next(Continue(o.fields)) else o
  }

  /** The handlers chained two by two from the left. */
  function ChainAll(hs: seq<Handler>): Handler
    requires hs != []
  {
    if |hs| == 1 then hs[0] else Chain(ChainAll(hs[..|hs| - 1]), hs[|hs| - 1])
  }

  /** The first middleware is the outermost. */
  function WrapAll(ms: seq<Middleware>, h: Handler): Handler {
    if ms == [] then h else ms[0](WrapAll(ms[1..], h))
  }

  // ----- what a chain does --------------------------------------------------------------

  /** The fields that stage `k` starts from, when every stage before it has gone on. */
  function Given(hs: seq<Handler>, f: Fields, k: nat): Fields
    requires k < |hs|
  {
    if k == 0 then f else Continue(hs[k - 1](Given(hs, f, k - 1)).fields)
  }

  function Stage(hs: seq<Handler>, f: Fields, k: nat): Outcome
    requires k < |hs|
  {
    hs[k](Given(hs, f, k))
  }

  /** `k` is the first stage that fails or panics, or the last stage if none does. */
  predicate StopsAt(hs: seq<Handler>, f: Fields, k: nat) {
    && k < |hs|
    && (forall i :: 0 <= i < k ==> GoesOn(Stage(hs, f, i)))
    && (GoesOn(Stage(hs, f, k)) ==> k == |hs| - 1)
  }

  lemma {:induction false} GivenByPrefix(hs: seq<Handler>, n: nat, f: Fields, k: nat)
    requires k < n <= |hs|
    ensures Given(hs[..n], f, k) == Given(hs, f, k)
    ensures Stage(hs[..n], f, k) == Stage(hs, f, k)
  {
    if k != 0 {
      GivenByPrefix(hs, n, f, k - 1);
    }
  }

  /** A chain runs its stages in order, each on the result of the one before, up to the first
      that does not go on, and ends as that stage ends. */
  lemma {:induction false} ChainStops(hs: seq<Handler>, f: Fields) returns (k: nat)
    requires hs != []
    ensures StopsAt(hs, f, k)
    ensures ChainAll(hs)(f) == Stage(hs, f, k)
    decreases |hs|
  {
    var n := |hs| - 1;
    if n == 0 {
      k := 0;
    } else {
      k := ChainStops(hs[..n], f);
      forall i | 0 <= i <= k
        ensures Stage(hs[..n], f, i) == Stage(hs, f, i)
      {
        GivenByPrefix(hs, n, f, i);
      }
      if GoesOn(Stage(hs, f, k)) {
        k := n;
      }
    }
  }

  /** The first stage starts from the job's own fields; each further one has the result of the stage
      before as its payload, no result yet, and what error the stage before left. A stage goes on when
      it returns without an error. */
  lemma StagesInWords(hs: seq<Handler>, f: Fields, k: nat)
    requires k < |hs|
    ensures Stage(hs, f, 0) == hs[0](f)
    ensures k > 0 ==>
      var before := Stage(hs, f, k - 1).fields;
      Stage(hs, f, k) == hs[k](Fields(before.result, None, before.err))
    ensures StopsAt(hs, f, k) <==>
      && (forall i :: 0 <= i < k ==> Stage(hs, f, i).Returned? && Stage(hs, f, i).error == None)
      && (k == |hs| - 1 || Stage(hs, f, k).Panicked? || Stage(hs, f, k).error != None)
  {
  }

  /** Middlewares before others are around them. */
  lemma {:induction false} MiddlewaresWrap(a: seq<Middleware>, b: seq<Middleware>, h: Handler)
    ensures WrapAll([], h) == h && (|a| == 1 ==> WrapAll(a, h) == a[0](h))
    ensures WrapAll(a + b, h) == WrapAll(a, WrapAll(b, h))
  {
    if a == [] {
      assert a + b == b;
    } else {
      assert (a + b)[1..] == a[1..] + b;
      MiddlewaresWrap(a[1..], b, h);
    }
  }

  // ----- the job ------------------------------------------------------------------------

  function AnswerOf(f: Fields): Answer {
    if f.err.Some? then Failed(f.err.value) else Result(f.result)
  }

  /** What a job is answered when its handler ends like this. */
  function AnswerTo(o: Outcome): Answer {
    match o
    case Returned(f, None) => AnswerOf(f)
    case Returned(_, Some(e)) => Failed(e)
    case Panicked(_, e) => Failed(e)
  }

  /** An error that is returned, or the cause of a panic, is the answer; without one it is an error that
      the handler has set on the job, and otherwise its result. */
  lemma AnswersInWords(f: Fields, e: Error)
    ensures AnswerTo(Panicked(f, e)) == AnswerTo(Returned(f, Some(e))) == Failed(e)
    ensures AnswerTo(Returned(f.(err := Some(e)), None)) == Failed(e)
    ensures AnswerTo(Returned(f.(err := None), None)) == Result(f.result)
  {
  }

  method JobHandler(route: Route) returns (handler: Handler)
    requires route.handlers != []
    ensures handler == WrapAll(route.middlewares, ChainAll(route.handlers))
  {
    handler := route.handlers[0];
    var n := 1;
    while n < |route.handlers|
      invariant 1 <= n <= |route.handlers|
      invariant handler == ChainAll(route.handlers[..n])
    {
      handler := Chain(handler, route.handlers[n]);
      assert route.handlers[..n + 1][..n] == route.handlers[..n];
      n := n + 1;
    }
    assert route.handlers[..n] == route.handlers;
    ghost var inner := handler;
    var i := |route.middlewares|;
    while i > 0
      invariant 0 <= i <= |route.middlewares|
      invariant handler == WrapAll(route.middlewares[i..], inner)
    {
      i := i - 1;
      handler := route.middlewares[i](handler);
      assert route.middlewares[i..][1..] == route.middlewares[i + 1..];
    }
  }

  class Job {
    const verb: string
    var fields: Fields
    var response: seq<Answer>   // a channel with room for one answer

    constructor (verb: string, payload: Option<Value>)
      ensures this.verb == verb && fields == Fields(payload, None, None) && response == []
    {
      this.verb := verb;
      fields := Fields(payload, None, None);
      response := [];
    }

    /** Sends on the response channel, which must have room for the answer. */
    method Respond()
      requires response == []
      modifies `response
      ensures response == [AnswerOf(fields)]
    {
      response := response + [AnswerOf(fields)];
    }

    /** Runs the handler. Whether it returns, fails or panics, the job gets exactly one answer. */
    method Do(handler: Handler)
      requires response == []
      modifies this
      ensures match handler(old(fields))
        case Returned(f, None) =>
          fields == f && response == [if f.err.Some? then Failed(f.err.value) else Result(f.result)]
        case Returned(f, Some(e)) => fields == f.(err := Some(e)) && response == [Failed(e)]
        case Panicked(f, e) => fields == f.(err := Some(e)) && response == [Failed(e)]
      ensures response == [AnswerTo(handler(old(fields)))]
    {
      match handler(fields)
      case Panicked(f, cause) =>
        fields := f.(err := Some(cause));
        Respond();
      case Returned(f, error) =>
        fields := f;
        if error.Some? {
          fields := fields.(err := error);
        }
        Respond();
    }

    /** What a worker does with a job it has received. For a route without middlewares the answer
        is that of the stage at which its chain stops: its error, or the last stage's result. */
    method Serve(fallback: Handler, routes: map<string, Route>)
      requires response == []
      modifies this
      ensures verb == "" || verb !in routes || routes[verb].handlers == [] ==>
        response == [AnswerTo(fallback(old(fields)))]
      ensures verb != "" && verb in routes && routes[verb].handlers != [] ==>
        response == [AnswerTo(WrapAll(routes[verb].middlewares, ChainAll(routes[verb].handlers))(old(fields)))]
      ensures (
        verb != "" && verb in routes && routes[verb].handlers != [] && routes[verb].middlewares == [] ==>
          exists k ::
            && StopsAt(routes[verb].handlers, old(fields), k)
            && response == [AnswerTo(Stage(routes[verb].handlers, old(fields), k))])
    {
      var handler := fallback;
      if verb != "" {
        if verb in routes && |routes[verb].handlers| > 0 {
          handler := JobHandler(routes[verb]);
          ghost var k := ChainStops(routes[verb].handlers, fields);
        }
      }
      Do(handler);
    }
  }
}
