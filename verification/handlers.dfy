/** What each request handler does once chosen: the remote call it issues, if
    any, and the reply it builds from the call's answer. */
module Handlers {
  import opened Wrappers
  import opened Requests
  import opened Dispatch
  import opened Responses
  import ThingName
  import AddUtterance

  /** The payloads sent to the counter function: `{action: 'get', thing}` and
      `{action: 'add', thing, num}`. */
  datatype Call = FetchTotal(thing: string) | AddToTotal(num: string, thing: string)

  /** The awaited invocation: it rejects (transport or service failure) or it
      returns, with `body.data.count` decoded from the payload when present. */
  datatype Invocation = Rejected | Returned(count: Option<int>)

  /** A handler either builds a response or throws; a throw reaches the error
      handler. */
  datatype Reply = Respond(response: Response) | Raise

  /** `returnErrorResponse(handlerInput, errMsg)` as written: the card body reads
      `speechText`, which is declared nowhere in scope. Its value is the implicit
      global left behind by an earlier add request in the same process, if any;
      without one the read throws a ReferenceError. */
  function MalformedReplyAsWritten(errMsg: string, globalSpeechText: Option<string>): (r: Reply)
    ensures r.Raise? <==> globalSpeechText.None?
    ensures r.Respond? ==> r.response.speech == Some(errMsg)
                           && r.response.card == Some(SimpleCard(errMsg, globalSpeechText.value))
  {
    match globalSpeechText
    case None => Raise
    case Some(stale) => Respond(Response(Some(errMsg), None, Some(SimpleCard(errMsg, stale)), None))
  }

  /** `returnErrorResponse` with the card body reading `errMsg`, the text being
      spoken, as every other handler's card does. It never throws, it agrees with
      the reply as written in every process that has the global, apart from the
      card body, and it is that reply when the global happens to hold `errMsg`. */
  function MalformedReply(errMsg: string): (r: Response)
    ensures r.speech == Some(errMsg)
    ensures forall stale :: MalformedReplyAsWritten(errMsg, Some(stale)).response.(card := r.card) == r
    ensures MalformedReplyAsWritten(errMsg, Some(errMsg)) == Respond(r)
  {
    Response(Some(errMsg), None, Some(SimpleCard(errMsg, errMsg)), None)
  }

  /** The first add request of a fresh process that has no space in it
      ("add fifty") throws instead of speaking the guidance; the corrected reply
      speaks it. */
  lemma ColdStartMalformedAdd()
    ensures MalformedReplyAsWritten(AddGuidanceText, None) == Raise
    ensures MalformedReply(AddGuidanceText).speech == Some(AddGuidanceText)
  {
  }

  /** The remote call a chosen handler issues: the get handler fetches the
      normalised name; the add handler sends the amount token and the name as
      heard, and sends nothing when the slot text has no space. */
  function IssuedCall(h: Handler, req: Request): (c: Option<Call>)
    ensures c.Some? ==> h == Get || h == Add
    ensures h == Get ==> (c.Some? <==> SlotValue(req, CountedThingSlot).Some?)
    ensures h == Get && c.Some? ==>
      c.value == FetchTotal(ThingName.FixRawThingName(SlotValue(req, CountedThingSlot).value))
    ensures h == Add ==>
      (c.Some? <==> SlotValue(req, WhatToAddSlot).Some? && ' ' in SlotValue(req, WhatToAddSlot).value)
    ensures h == Add && c.Some? ==>
      c.value.AddToTotal? && ' ' !in c.value.num
      && c.value.num + " " + c.value.thing == SlotValue(req, WhatToAddSlot).value
  {
    match h
    case Get =>
      (match SlotValue(req, CountedThingSlot)
       case None => None
       case Some(raw) => Some(FetchTotal(ThingName.FixRawThingName(raw))))
    case Add =>
      (match SlotValue(req, WhatToAddSlot)
       case None => None
       case Some(s) =>
         match AddUtterance.SplitUtterance(s)
         case NoSpace => None
         case Parts(num, thingName) => Some(AddToTotal(num, thingName)))
    case _ => None
  }

  /** The get handler: it throws exactly when its slot is missing or its call
      rejects, and otherwise answers under the get card title. */
  function HandleGet(req: Request, answer: Invocation): (r: Reply)
    ensures r.Raise? <==> SlotValue(req, CountedThingSlot).None? || answer.Rejected?
    ensures r.Respond? ==> r.response.card.Some? && r.response.card.value.title == GetTitle
  {
    match SlotValue(req, CountedThingSlot)
    case None => Raise
    case Some(raw) =>
      match answer
      case Rejected => Raise
      case Returned(count) => Respond(GetReply(ThingName.FixRawThingName(raw), count))
  }

  /** The add handler: it throws exactly when its slot is missing, or when the
      slot text has a space and the call rejects; text without a space is
      answered with the guidance. */
  function HandleAdd(req: Request, answer: Invocation): (r: Reply)
    ensures r.Raise? <==>
      SlotValue(req, WhatToAddSlot).None? || (' ' in SlotValue(req, WhatToAddSlot).value && answer.Rejected?)
    ensures SlotValue(req, WhatToAddSlot).Some? && ' ' !in SlotValue(req, WhatToAddSlot).value ==>
      r == Respond(MalformedReply(AddGuidanceText))
  {
    match SlotValue(req, WhatToAddSlot)
    case None => Raise
    case Some(s) =>
      match AddUtterance.SplitUtterance(s)
      case NoSpace => Respond(MalformedReply(AddGuidanceText))
      case Parts(_, thingName) =>
        match answer
        case Rejected => Raise
        case Returned(count) => Respond(AddReply(thingName, count))
  }

  /** `handle` of the chosen handler, given the answer to the call it issued.
      Only the two domain handlers can throw: when their slot is missing, or
      when the call they issued rejects. */
  function Handle(h: Handler, req: Request, answer: Invocation): (r: Reply)
    ensures h != Get && h != Add ==> r.Respond?
    ensures h == Get ==> (r.Raise? <==> SlotValue(req, CountedThingSlot).None? || answer.Rejected?)
    ensures h == Add ==>
      (r.Raise? <==> SlotValue(req, WhatToAddSlot).None? || (IssuedCall(h, req).Some? && answer.Rejected?))
    ensures r.Respond? ==> (r.response.endSession.Some? <==> h == CancelAndStop)
    ensures r.Respond? && h == CancelAndStop ==> r.response.endSession == Some(true)
    ensures r.Respond? ==> (r.response.speech.None? <==> h == SessionEnded)
  {
    match h
    case Launch => Respond(LaunchResponse())
    case HelloWorld => Respond(HelloWorldResponse())
    case Get => HandleGet(req, answer)
    case Add => HandleAdd(req, answer)
    case Help => Respond(HelpResponse())
    case CancelAndStop => Respond(GoodbyeResponse())
    case SessionEnded => Respond(Empty)
  }

  /** A handler that issues no call does not depend on any answer. */
  lemma AnswerUnusedWithoutCall(h: Handler, req: Request, a: Invocation, b: Invocation)
    requires IssuedCall(h, req).None?
    ensures Handle(h, req, a) == Handle(h, req, b)
  {
  }
}
