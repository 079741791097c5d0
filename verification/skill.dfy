/** The skill as a whole: route the request, run the chosen handler, and fall
    back to the error handler's apology when no handler accepts, a `canHandle`
    throws, or the chosen handler throws. */
module Skill {
  import opened Wrappers
  import opened Requests
  import opened Dispatch
  import opened Responses
  import opened Handlers
  import ThingName

  /** The remote call the request causes, if any: a fetch exactly when the get
      handler is chosen with its slot, an add only when the add handler is chosen. */
  function CallMade(req: Request): (c: Option<Call>)
    ensures c.Some? ==> Select(req) == Chosen(Get) || Select(req) == Chosen(Add)
    ensures c.Some? && c.value.FetchTotal? <==>
      Select(req) == Chosen(Get) && SlotValue(req, CountedThingSlot).Some?
    ensures c.Some? && c.value.AddToTotal? ==> Select(req) == Chosen(Add)
  {
    match Select(req)
    case Chosen(h) => IssuedCall(h, req)
    case _ => None
  }

  /** The response for `req`, given the answer to the call `CallMade(req)`. The
      error handler never fails, so every request gets a response. */
  function HandleRequest(req: Request, answer: Invocation): (r: Response)
    ensures !Select(req).Chosen? ==> r == ApologyResponse()
    ensures CallMade(req).Some? && answer.Rejected? ==> r == ApologyResponse()
    ensures Select(req).Chosen? && Handle(Select(req).handler, req, answer).Raise? ==> r == ApologyResponse()
    ensures r.speech.None? <==> Select(req) == Chosen(SessionEnded)
    ensures r.endSession.Some? <==> Select(req) == Chosen(CancelAndStop)
    ensures r.endSession.Some? ==> r.endSession.value
  {
    match Select(req)
    case Chosen(h) =>
      (match Handle(h, req, answer)
       case Respond(resp) => resp
       case Raise => ApologyResponse())
    case _ => ApologyResponse()
  }

  /** Only the launch and help replies, and the apology, carry a reprompt, and it
      is always their spoken text. */
  lemma RepromptIsSpeech(req: Request, answer: Invocation)
    ensures var r := HandleRequest(req, answer);
            r.reprompt.Some? ==> r.reprompt == r.speech
    ensures var r := HandleRequest(req, answer);
            r.reprompt.Some? <==> Select(req) in {Chosen(Launch), Chosen(Help)} || r == ApologyResponse()
  {
  }

  /** The session-ended request gets the empty response. */
  lemma SessionEndedIsEmpty(req: Request, answer: Invocation)
    requires req.kind == SessionEndedRequest
    ensures HandleRequest(req, answer) == Empty
    ensures CallMade(req) == None
  {
    SelectIffAccepts(req, SessionEnded);
  }

  /** A request no handler takes is answered with the apology as speech and
      reprompt, and makes no call. */
  lemma UnknownRequestApologises(req: Request, answer: Invocation)
    requires req.kind != LaunchRequest && req.kind != IntentRequest && req.kind != SessionEndedRequest
    ensures HandleRequest(req, answer).speech == Some(ApologyText)
    ensures HandleRequest(req, answer).reprompt == Some(ApologyText)
    ensures CallMade(req) == None
  {
  }

  /** A get or add intent whose slot is missing throws in its handler, so the
      error handler answers, and no call is made. */
  lemma MissingSlotApologises(req: Request, answer: Invocation)
    requires req.kind == IntentRequest && req.intent.Some?
    requires || (req.intent.value.name == GetIntent && SlotValue(req, CountedThingSlot).None?)
             || (req.intent.value.name == AddIntent && SlotValue(req, WhatToAddSlot).None?)
    ensures HandleRequest(req, answer) == ApologyResponse()
    ensures CallMade(req) == None
  {
    if req.intent.value.name == GetIntent {
      SelectIffAccepts(req, Get);
    } else {
      SelectIffAccepts(req, Add);
    }
  }

  /** A launch request gets the welcome reply and makes no call. */
  lemma LaunchReply(req: Request, answer: Invocation)
    requires req.kind == LaunchRequest
    ensures HandleRequest(req, answer) == LaunchResponse()
    ensures CallMade(req) == None
  {
    SelectIffAccepts(req, Launch);
  }

  /** The hello-world intent gets the "Hello World!" reply and makes no call. */
  lemma HelloWorldReply(req: Request, answer: Invocation)
    requires req.kind == IntentRequest && req.intent.Some? && req.intent.value.name == HelloWorldIntent
    ensures HandleRequest(req, answer) == HelloWorldResponse()
    ensures CallMade(req) == None
  {
    SelectIffAccepts(req, HelloWorld);
  }

  /** The help intent gets the help reply and makes no call. */
  lemma HelpReply(req: Request, answer: Invocation)
    requires req.kind == IntentRequest && req.intent.Some? && req.intent.value.name == HelpIntent
    ensures HandleRequest(req, answer) == HelpResponse()
    ensures CallMade(req) == None
  {
    SelectIffAccepts(req, Help);
  }

  /** The cancel and stop intents both get the goodbye reply, which ends the
      session, and make no call. */
  lemma CancelOrStopReply(req: Request, answer: Invocation)
    requires req.kind == IntentRequest && req.intent.Some?
    requires req.intent.value.name == CancelIntent || req.intent.value.name == StopIntent
    ensures HandleRequest(req, answer) == GoodbyeResponse()
    ensures CallMade(req) == None
  {
    SelectIffAccepts(req, CancelAndStop);
  }

  /** The get intent fetches the normalised name and reports any count, zero
      included; only a missing count gives the get error text. */
  lemma GetIntentReply(req: Request, raw: string, answer: Invocation)
    requires req.kind == IntentRequest && req.intent.Some? && req.intent.value.name == GetIntent
    requires SlotValue(req, CountedThingSlot) == Some(raw)
    requires answer.Returned?
    ensures CallMade(req) == Some(FetchTotal(ThingName.FixRawThingName(raw)))
    ensures var r := HandleRequest(req, answer);
            && r.card == Some(SimpleCard(GetTitle, r.speech.value))
            && (r.speech == Some(GetErrorText) <==> answer.count.None?)
            && (answer.count.Some? ==>
                  r.speech == Some(GetSpeech(ThingName.FixRawThingName(raw), answer.count.value)))
  {
    SelectIffAccepts(req, Get);
  }

  /** The add intent with a space splits at the first one, sends the amount token
      and the name as heard, and reports any nonzero count; zero and a missing
      count give the add error text. */
  lemma AddIntentReply(req: Request, s: string, i: nat, answer: Invocation)
    requires req.kind == IntentRequest && req.intent.Some? && req.intent.value.name == AddIntent
    requires SlotValue(req, WhatToAddSlot) == Some(s)
    requires i < |s| && s[i] == ' ' && ' ' !in s[..i]
    requires answer.Returned?
    ensures CallMade(req) == Some(AddToTotal(s[..i], s[i + 1..]))
    ensures var r := HandleRequest(req, answer);
            && r.card == Some(SimpleCard(AddTitle, r.speech.value))
            && (r.speech == Some(AddErrorText) <==> answer.count.None? || answer.count.value == 0)
            && (answer.count.Some? && answer.count.value != 0 ==>
                  r.speech == Some(AddSpeech(s[i + 1..], answer.count.value)))
  {
    SelectIffAccepts(req, Add);
    AddUtterance.SplitAtFirstSpace(s, i);
  }

  /** Add slot text without a space takes the malformed branch: no add request
      is made, and the guidance is spoken whatever the service would answer. */
  lemma MalformedAddMakesNoCall(req: Request, s: string, answer: Invocation)
    requires req.kind == IntentRequest && req.intent.Some? && req.intent.value.name == AddIntent
    requires SlotValue(req, WhatToAddSlot) == Some(s)
    requires ' ' !in s
    ensures CallMade(req) == None
    ensures HandleRequest(req, answer).speech == Some(AddGuidanceText)
  {
    SelectIffAccepts(req, Add);
  }

  /** The answer matters only when a call was made. */
  lemma AnswerUnusedWithoutCall(req: Request, a: Invocation, b: Invocation)
    requires CallMade(req).None?
    ensures HandleRequest(req, a) == HandleRequest(req, b)
  {
  }

  /** An add request whose slot text has no space. */
  predicate MalformedAdd(req: Request) {
    && Select(req) == Chosen(Add)
    && SlotValue(req, WhatToAddSlot).Some?
    && ' ' !in SlotValue(req, WhatToAddSlot).value
  }

  /** The skill with `returnErrorResponse` as written: `globalSpeechText` is the
      implicit global an earlier add request in the same process may have left.
      It differs from `HandleRequest` only on malformed add requests, which get
      the apology in a process without the global. */
  function HandleRequestAsWritten(req: Request, answer: Invocation, globalSpeechText: Option<string>): (r: Response)
    ensures !MalformedAdd(req) ==> r == HandleRequest(req, answer)
    ensures MalformedAdd(req) ==> (r.speech == Some(AddGuidanceText) <==> globalSpeechText.Some?)
    ensures MalformedAdd(req) && globalSpeechText.None? ==> r == ApologyResponse()
  {
    if MalformedAdd(req) then
      match MalformedReplyAsWritten(AddGuidanceText, globalSpeechText)
      case Respond(resp) => resp
      case Raise => ApologyResponse()
    else HandleRequest(req, answer)
  }

  /** As written, the first malformed add of a fresh process ("add fifty") is
      answered with the apology, where the corrected skill speaks the guidance. */
  lemma ColdStartMalformedAddApologises(req: Request, s: string, answer: Invocation)
    requires req.kind == IntentRequest && req.intent.Some? && req.intent.value.name == AddIntent
    requires SlotValue(req, WhatToAddSlot) == Some(s)
    requires ' ' !in s
    ensures HandleRequestAsWritten(req, answer, None) == ApologyResponse()
    ensures HandleRequest(req, answer).speech == Some(AddGuidanceText)
  {
    SelectIffAccepts(req, Add);
  }
}
