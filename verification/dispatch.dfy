/** Request routing: each request handler's `canHandle`, the order in which they
    are registered, and the first-match rule that picks one of them. */
module Dispatch {
  import opened Wrappers
  import opened Requests

  /** The seven registered request handlers. `ErrorHandler` is not among them:
      it is the fallback the skill answers with when routing or handling fails. */
  datatype Handler =
    | Launch
    | HelloWorld
    | Get
    | Add
    | Help
    | CancelAndStop
    | SessionEnded

  /** Registration order. */
  const Chain: seq<Handler> := [Launch, HelloWorld, Get, Add, Help, CancelAndStop, SessionEnded]

  /** Outcome of one `canHandle`: it may also throw, which it does when an
      intent request carries no intent and `intent.name` is read. */
  datatype Verdict = Accept | Decline | Throw

  function Is(b: bool): Verdict {
    if b then Accept else Decline
  }

  /** `canHandle` for an intent handler: the request type is compared first, and
      only then is the intent read. */
  function IntentNamed(req: Request, names: set<string>): (v: Verdict)
    ensures v == Throw <==> req.kind == IntentRequest && req.intent.None?
    ensures v == Accept <==> req.kind == IntentRequest && req.intent.Some? && req.intent.value.name in names
  {
    if req.kind != IntentRequest then Decline
    else match req.intent
      case None => Throw
      case Some(i) => Is(i.name in names)
  }

  /** Each handler's `canHandle`. The two request-type checks never throw; the
      five intent checks throw exactly on an intent request without an intent. */
  function CanHandle(h: Handler, req: Request): (v: Verdict)
    ensures h == Launch ==> (v == Accept <==> req.kind == LaunchRequest) && v != Throw
    ensures h == SessionEnded ==> (v == Accept <==> req.kind == SessionEndedRequest) && v != Throw
    ensures h != Launch && h != SessionEnded ==>
      (v == Throw <==> req.kind == IntentRequest && req.intent.None?)
  {
    match h
    case Launch => Is(req.kind == LaunchRequest)
    case HelloWorld => IntentNamed(req, {HelloWorldIntent})
    case Get => IntentNamed(req, {GetIntent})
    case Add => IntentNamed(req, {AddIntent})
    case Help => IntentNamed(req, {HelpIntent})
    case CancelAndStop => IntentNamed(req, {CancelIntent, StopIntent})
    case SessionEnded => Is(req.kind == SessionEndedRequest)
  }

  /** The result of routing: a chosen handler, no handler at all, or a
      `canHandle` that threw before any handler accepted. */
  datatype Route = Chosen(handler: Handler) | NoneMatched | CheckThrew

  predicate AllDecline(hs: seq<Handler>, req: Request) {
    forall i :: 0 <= i < |hs| ==> CanHandle(hs[i], req) == Decline
  }

  /** Asks each handler in turn; the first that accepts wins. */
  function FirstMatch(hs: seq<Handler>, req: Request): (r: Route)
    ensures r.Chosen? ==> exists i :: 0 <= i < |hs| && hs[i] == r.handler
                                      && CanHandle(hs[i], req) == Accept && AllDecline(hs[..i], req)
    ensures r.NoneMatched? <==> AllDecline(hs, req)
    ensures r.CheckThrew? ==> exists i :: 0 <= i < |hs| && CanHandle(hs[i], req) == Throw
                                          && AllDecline(hs[..i], req)
  {
    if hs == [] then NoneMatched
    else match CanHandle(hs[0], req)
      case Accept =>
        assert AllDecline(hs[..0], req);
        Chosen(hs[0])
      case Throw =>
        assert AllDecline(hs[..0], req);
        CheckThrew
      case Decline =>
        var r := FirstMatch(hs[1..], req);
        assert forall i :: 0 <= i < |hs| - 1 ==> hs[1..][..i] == hs[1..i + 1];
        assert forall i :: 0 <= i < |hs| - 1 ==> AllDecline(hs[1..][..i], req) ==> AllDecline(hs[..i + 1], req);
        r
  }

  /** Routing over the registered handlers. A chosen handler accepts and is
      the only one that does. */
  function Select(req: Request): (r: Route)
    ensures r.Chosen? ==> CanHandle(r.handler, req) == Accept
    ensures r.Chosen? ==> forall h :: CanHandle(h, req) == Accept ==> h == r.handler
  {
    FirstMatch(Chain, req)
  }

  /** No two registered handlers accept the same request, so registration order
      never decides between two candidates. */
  lemma PairwiseExclusive(h1: Handler, h2: Handler, req: Request)
    requires CanHandle(h1, req) == Accept && CanHandle(h2, req) == Accept
    ensures h1 == h2
  {
  }

  /** With exclusive predicates, first-match routing picks a handler exactly when
      that handler accepts. */
  lemma SelectIffAccepts(req: Request, h: Handler)
    requires !(req.kind == IntentRequest && req.intent.None?)
    ensures Select(req) == Chosen(h) <==> CanHandle(h, req) == Accept
  {
    assert h in Chain;
    var r := Select(req);
    if r.Chosen? {
      if CanHandle(h, req) == Accept {
        PairwiseExclusive(h, r.handler, req);
      }
    } else {
      assert r.NoneMatched?;
      var k :| 0 <= k < |Chain| && Chain[k] == h;
    }
  }

  /** An intent request without an intent makes the second handler's check throw
      (the first declines), and nothing else does. */
  lemma ThrowsExactlyWithoutIntent(req: Request)
    ensures Select(req) == CheckThrew <==> req.kind == IntentRequest && req.intent.None?
  {
  }

  /** The request shapes no handler takes: an unknown request type, or an intent
      request naming an intent the skill does not declare. */
  lemma NoneMatchedExactly(req: Request)
    ensures Select(req) == NoneMatched <==>
      || (req.kind != LaunchRequest && req.kind != IntentRequest && req.kind != SessionEndedRequest)
      || (req.kind == IntentRequest && req.intent.Some?
          && req.intent.value.name !in {HelloWorldIntent, GetIntent, AddIntent, HelpIntent, CancelIntent, StopIntent})
  {
    if !(req.kind == IntentRequest && req.intent.None?) {
      var r := Select(req);
      if r.NoneMatched? {
        assert forall i :: 0 <= i < |Chain| ==> CanHandle(Chain[i], req) == Decline;
        assert CanHandle(Chain[0], req) == Decline;
        assert CanHandle(Chain[1], req) == Decline;
        assert CanHandle(Chain[2], req) == Decline;
        assert CanHandle(Chain[3], req) == Decline;
        assert CanHandle(Chain[4], req) == Decline;
        assert CanHandle(Chain[5], req) == Decline;
        assert CanHandle(Chain[6], req) == Decline;
      } else {
        ThrowsExactlyWithoutIntent(req);
        SelectIffAccepts(req, r.handler);
      }
    } else {
      ThrowsExactlyWithoutIntent(req);
    }
  }
}
