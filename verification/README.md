# Thing counter voice skill — a Dafny model

The skill is the backend of a voice assistant skill that keeps named counters
("pushups", "jumping jacks") in a remote counter service. A request arrives
with a request type, an intent name and slot values; the skill routes it to the
first of seven registered request handlers whose `canHandle` accepts it, the
handler may call the counter service once, and it builds a response of speech,
reprompt, simple card and end-of-session flag. When no handler accepts, a
`canHandle` throws, or a handler throws, the error handler answers with a fixed
apology.

This project models that request-to-response logic of `index.js`:

- `JsString`: `substr` and `indexOf` over strings of Dafny characters.
- `ThingName`: `fixRawThingName`, which removes one leading `"the "`.
- `AddUtterance`: the add intent's split of `"50 jumping jacks"` at the first space.
- `Decimal`: how a template literal renders an integer count, with its reading-back partner.
- `Requests`: the request envelope fields the skill reads.
- `Dispatch`: every `canHandle`, the registration order and first-match routing.
- `Responses`: the response record, the fixed texts and the get/add replies.
- `Handlers`: the remote call each handler issues and each handler's `handle`.
- `Skill`: routing, handling and the error-handler fallback put together.

The remote call is a parameter. `Invocation` is either `Rejected` (the awaited
invocation throws) or `Returned(count)`, where `count` is the decoded
`body.data.count` if present. `Skill.CallMade` says which call a request
causes. `Skill.HandleRequest` takes the answer to that call.

Three behaviours of the code are easy to misread. The model keeps them as
written, with one exception recorded under "## Findings":

- A rejected invocation is not caught by the get or add handler. It escalates to
  the error handler, so the user hears the apology; the get and add error texts
  are spoken only when the invocation returns without a count
  (`Skill.HandleRequest`, second ensures).
- The get handler reports a count of 0. The add handler treats a count of 0
  like a missing count and speaks its error text. Both behaviours are kept as
  written and stated side by side in `Responses.ZeroCountDivergence`.
- The exception: the malformed-add reply reads an undeclared `speechText`
  (index.js:106). `Skill.HandleRequest` uses the corrected reply, which always
  speaks the guidance. `Skill.HandleRequestAsWritten` is the skill as written,
  where a process without that global answers with the apology instead.

## Model

| member | source | states |
|---|---|---|
| JsString.Substr | index.js:17 | `substr(start, length)` yields the characters from `start`, at most `length` of them, clamped to the end; empty past the end |
| JsString.SubstrFrom | index.js:125 | `substr(start)` yields every character from `start` on; empty past the end |
| JsString.IndexOfFrom | index.js:117 | searching from `k` gives -1 exactly when the character is absent from `s[k..]`, else the first position at or after `k` holding it |
| JsString.IndexOf | index.js:117 | `indexOf(' ')` is -1 exactly when there is no space, else the position of the first space |
| ThingName.FixRawThingName | index.js:14-22 | when the name begins with the four characters `"the "`, the result is what follows them; otherwise, including inputs shorter than four, the input is returned unchanged |
| ThingName.StripsAtMostOnce | index.js:17-18 | the result is always `s` or `s[4..]`: at most one article is removed |
| ThingName.PrefixRoundTrip | index.js:14-22 | putting `"the "` in front of any name and normalising gives that name back |
| ThingName.DoubleArticle | index.js:17-18 | `"the the x"` becomes `"the x"` |
| ThingName.IdempotentUnlessArticleRemains | index.js:14-22 | normalising twice equals normalising once exactly when the once-normalised name does not itself start with `"the "` |
| ThingName.Examples | index.js:17 | `"the pushups"` becomes `"pushups"`; `"thesaurus"`, `"The pushups"` and `"the"` are unchanged (the match is case-sensitive and needs the space) |
| AddUtterance.SplitUtterance | index.js:116-125 | the malformed branch is taken exactly when the slot text has no space; otherwise the amount token has no space and token, one space and name rejoin to the slot text |
| AddUtterance.SplitAtFirstSpace | index.js:117-125 | with the first space at `i`, the amount is `s[..i]` and the name is `s[i+1..]` |
| AddUtterance.JoinSplitRoundTrip | index.js:124-125 | joining a space-free amount token and any name with one space, then splitting, gives back both parts |
| AddUtterance.NoSpaceExamples | index.js:119-121 | `"fifty"` and the empty text take the malformed branch |
| Decimal.NatToDecimal | index.js:93 | a non-negative count renders as at least one decimal digit with no leading zero |
| Decimal.NatRoundTrip | index.js:93 | reading the digits back gives the count |
| Decimal.IntToString | index.js:93 | a count renders with a leading minus exactly when negative, then digits with no leading zero (only zero itself is "0"), never with a space |
| Decimal.IntRoundTrip | index.js:143 | reading an optionally signed rendering back gives the count |
| Decimal.IntToStringInjective | index.js:143 | two counts render the same exactly when they are equal |
| Requests.SlotValue | index.js:75 | a slot value is present exactly when the request has an intent whose slots hold that name, and it is that slot's value |
| Dispatch.IntentNamed | index.js:40-42 | an intent handler's check accepts exactly an intent request whose intent name is one of its names; it throws exactly on an intent request with no intent, because the type is compared before the name is read |
| Dispatch.CanHandle | index.js:24-194 | the launch and session-ended checks compare only the request type and never throw; the five intent checks throw exactly on an intent request without an intent |
| Dispatch.Select | index.js:210-218 | routing over the registered handlers; a chosen handler accepts and is the only handler that accepts |
| Dispatch.FirstMatch | index.js:210-218 | a chosen handler accepts and every handler registered before it declines; no handler is chosen exactly when all decline; a throw comes from a check that every earlier handler passed by declining |
| Dispatch.PairwiseExclusive | index.js:24-188 | no two of the seven registered handlers accept the same request |
| Dispatch.SelectIffAccepts | index.js:211-218 | when no check throws, routing picks a handler exactly when that handler accepts |
| Dispatch.ThrowsExactlyWithoutIntent | index.js:39-42 | routing fails with a throw exactly for an intent request carrying no intent |
| Dispatch.NoneMatchedExactly | index.js:196-218 | no handler accepts exactly when the request type is none of the three known ones, or the intent name is none of the six declared ones |
| Responses.LaunchResponse | index.js:28-36 | defined by its body (welcome text, reprompt, "Hello World" card); Skill.RepromptIsSpeech states its reprompt is its speech and Handlers.Handle that it leaves the session flag unset |
| Responses.HelloWorldResponse | index.js:44-51 | defined by its body ("Hello World!", card, no reprompt); Skill.RepromptIsSpeech states it has no reprompt |
| Responses.HelpResponse | index.js:158-166 | defined by its body (help text, reprompt, "Hello World" card); Skill.RepromptIsSpeech states its reprompt is its speech |
| Responses.GoodbyeResponse | index.js:175-183 | defined by its body ("Goodbye!", card, session ended); Handlers.Handle and Skill.HandleRequest state it is the only reply that sets the session flag |
| Responses.ApologyResponse | index.js:200-207 | defined by its body (apology as speech and reprompt, no card); Skill.HandleRequest states when it is given |
| Responses.GetSpeech | index.js:93 | the get sentence starts with "The " and ends with a full stop, and is never the get error text; Responses.GetSpeechDeterminesCount states it determines the count |
| Responses.AddSpeech | index.js:143 | the add sentence starts with "Done. The " and ends with a full stop, and is never the add error text; Responses.AddSpeechDeterminesCount states it determines the count |
| Responses.GetReply | index.js:87-98 | the error text is spoken exactly when the count is absent; a present count, zero included, is spoken as "The {thing} total is {n}."; the card title is "Get current total" and the card repeats the speech |
| Responses.AddReply | index.js:137-148 | the error text is spoken exactly when the count is absent or zero; any other count is spoken as "Done. The {thingName} total is now {n}."; the card title is "Add intent detected" |
| Responses.ZeroCountDivergence | index.js:89-139 | a count of 0 is reported by the get reply as "The {thing} total is 0." and differs from its error reply, while the add reply for 0 is the same as for a missing count |
| Responses.NonzeroCountsReported | index.js:89-143 | a nonzero count is reported by both replies, and the two sentences differ |
| Responses.GetSpeechDeterminesCount | index.js:93 | for one thing, the get sentence determines the count |
| Responses.AddSpeechDeterminesCount | index.js:143 | for one thing name, the add sentence determines the count |
| Handlers.MalformedReplyAsWritten | index.js:103-108 | the malformed-input reply throws exactly when no earlier request left a global `speechText`; otherwise it speaks the guidance under a card titled with it whose body is that stale text |
| Handlers.MalformedReply | index.js:103-108 | the corrected malformed-input reply never throws and speaks the message; it agrees with the reply as written in every process that has the global `speechText`, except for the card body, and equals it when that global holds the message |
| Handlers.ColdStartMalformedAdd | index.js:103-121 | in a fresh process the malformed branch throws as written, while the corrected reply speaks the guidance |
| Handlers.HandleGet | index.js:74-100 | the get handler throws exactly when its slot is missing or its call rejects, and otherwise answers under the "Get current total" card |
| Handlers.HandleAdd | index.js:115-150 | the add handler throws exactly when its slot is missing, or its slot has a space and its call rejects; slot text without a space gets the corrected guidance reply |
| Handlers.IssuedCall | index.js:74-127 | only the get and add handlers call the service; get calls exactly when its slot is present, with the normalised name; add calls exactly when its slot is present and contains a space, with a space-free amount and a name that rejoin to the slot text |
| Handlers.Handle | index.js:28-193 | only get and add throw, and they throw exactly when their slot is missing or the call they issued rejects; only the cancel/stop handler sets the session flag, and sets it to true; only the session-ended handler leaves the speech empty |
| Handlers.AnswerUnusedWithoutCall | index.js:116-127 | a handler that issued no call replies the same whatever the answer |
| Skill.CallMade | index.js:74-127 | a request causes a fetch exactly when the get handler is chosen with its slot present, and any add call only when the add handler is chosen; no other request calls the service |
| Skill.HandleRequest | index.js:196-220 | every request gets a response; unrouted requests and rejected calls get the apology; the speech is empty exactly for a routed session-ended request; the session flag is set, to true, exactly for a routed cancel/stop request; a routed handler that throws gives the apology |
| Skill.RepromptIsSpeech | index.js:28-206 | a reprompt is always the spoken text, and there is one exactly for launch, help and the apology |
| Skill.SessionEndedIsEmpty | index.js:186-193 | a session-ended request gets the empty response and makes no call |
| Skill.MissingSlotApologises | index.js:74-117 | a get or add intent without its slot gets the apology and makes no call |
| Skill.LaunchReply | index.js:24-36 | a launch request gets the welcome reply and makes no call |
| Skill.HelloWorldReply | index.js:39-51 | the hello-world intent gets the "Hello World!" reply and makes no call |
| Skill.HelpReply | index.js:153-166 | the help intent gets the help reply and makes no call |
| Skill.CancelOrStopReply | index.js:169-183 | the cancel intent and the stop intent both get the goodbye reply and make no call |
| Skill.UnknownRequestApologises | index.js:196-207 | a request of an unknown type gets the apology as speech and reprompt and makes no call |
| Skill.GetIntentReply | index.js:74-99 | a get intent fetches the normalised name; a returned count, zero included, is spoken with that name; only a missing count gives the get error text; the card repeats the speech under "Get current total" |
| Skill.AddIntentReply | index.js:115-149 | an add intent whose first space is at `i` sends `s[..i]` and `s[i+1..]`; a nonzero count is spoken with the un-normalised name; zero or a missing count gives the add error text |
| Skill.MalformedAddMakesNoCall | index.js:116-122 | add slot text without a space makes no call and speaks the guidance whatever the service would answer |
| Skill.HandleRequestAsWritten | index.js:103-121 | the skill with the as-written malformed-add reply agrees with Skill.HandleRequest on every other request; on a malformed add it speaks the guidance exactly when the global `speechText` exists, and otherwise gives the apology |
| Skill.ColdStartMalformedAddApologises | index.js:106-121 | an add intent whose slot text has no space gets the apology as written in a fresh process, and the guidance from the corrected skill |
| Decimal.SignedRoundTrip | index.js:93 | a minus sign followed by the rendering of `m` reads back as `-m` |
| Skill.AnswerUnusedWithoutCall | index.js:119-127 | when a request causes no call, its response does not depend on any answer |

## Left out

- The counter service client (index.js:5-12, index.js:54-67) is network I/O through the AWS SDK. It is replaced by the `Invocation` parameter. The payloads are kept as `Handlers.Call`.
- Base64 decoding, `JSON.parse` and the `body.data.count` lookup (index.js:79-87, index.js:129-137) are library decoding. They are collapsed into `Returned(count)` with `count: Option<int>`. A count that is a string, a boolean, `null` or a fraction is not modelled. The truthiness tests are modelled only on integers and on absence.
- Decimal.IntToString: does not model how JavaScript numbers print at or beyond 10^21 (exponent notation) or beyond 2^53 (lost precision), because counts are modelled as unbounded integers.
- The ask-sdk response builder is modelled as a plain record. Left out are its SSML wrapping of speech, the `shouldEndSession: false` its `reprompt` call adds, and the JSON shape of the response.
- `config.js` (function name and region) is not part of this model.
- The `console.log` in the error handler and the async/await plumbing are left out. A rejected await is the `Rejected` answer, which the model routes to the error handler.
- The implicit global `speechText` assigned in the add path (index.js:140, index.js:143) is treated as a local value. Its only reader is the malformed branch, where `Handlers.MalformedReplyAsWritten` takes its value as a parameter.
- `substr` with negative arguments is not modelled, since the skill never passes one.
- Strings are sequences of Unicode scalar values, not UTF-16 code units. A character outside the Basic Multilingual Plane is one Dafny `char` but two JavaScript positions, and a lone surrogate cannot be written. The prefix test and the first-space split give the same strings under either count.
- Handlers.Handle: uses the corrected malformed-add reply, so its add throw condition leaves out the ReferenceError that index.js:106 raises as written in a process without a global `speechText`; Skill.HandleRequestAsWritten models that case.
- Handlers.HandleAdd: uses the corrected malformed-add reply, so its throw condition leaves out the ReferenceError that index.js:106 raises in a process without a global `speechText`; Handlers.MalformedReplyAsWritten models that case.
- Skill.MalformedAddMakesNoCall: "speaks the guidance" holds for the corrected reply only; as written, a fresh process answers with the apology, as Skill.ColdStartMalformedAddApologises states.

## Findings

| source | as written | input that shows it | evidently intended | confidence | as-written member | corrected member |
|---|---|---|---|---|---|---|
| index.js:106 | the malformed-input card body reads `speechText`, which is not declared in that scope | add slot text `"fifty"` as the first add request of a fresh process: reading `speechText` throws a ReferenceError and the user hears the apology instead of the guidance | the card body is `errMsg`, so the guidance is always spoken | high that the read is a slip; the exact card body is inferred from the other handlers; not executed | Handlers.MalformedReplyAsWritten and Skill.HandleRequestAsWritten (exhibited by Handlers.ColdStartMalformedAdd and Skill.ColdStartMalformedAddApologises) | Handlers.MalformedReply (used by Handlers.Handle and Skill.HandleRequest; guidance proved by Skill.MalformedAddMakesNoCall) |
