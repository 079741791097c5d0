/** The parts of the incoming request envelope the skill reads:
    `request.type`, `request.intent.name` and `request.intent.slots.<name>.value`. */
module Requests {
  import opened Wrappers

  const LaunchRequest: string := "LaunchRequest"
  const IntentRequest: string := "IntentRequest"
  const SessionEndedRequest: string := "SessionEndedRequest"

  const HelloWorldIntent: string := "HelloWorldIntent"
  const GetIntent: string := "GetIntent"
  const AddIntent: string := "AddIntent"
  const HelpIntent: string := "AMAZON.HelpIntent"
  const CancelIntent: string := "AMAZON.CancelIntent"
  const StopIntent: string := "AMAZON.StopIntent"

  /** Slot names of the two domain intents. */
  const CountedThingSlot: string := "countedThing"
  const WhatToAddSlot: string := "whatToAdd"

  /** A slot missing from `slots` and a slot without a value are the same to the
      skill: reading `.value` yields nothing usable. */
  datatype Intent = Intent(name: string, slots: map<string, string>)

  /** `kind` is `request.type`, any string the platform sends; `intent` is absent
      when the envelope carries none. */
  datatype Request = Request(kind: string, intent: Option<Intent>)

  /** `request.intent.slots.<slot>.value`, absent when any step is missing. */
  function SlotValue(req: Request, slot: string): (v: Option<string>)
    ensures v.Some? <==> req.intent.Some? && slot in req.intent.value.slots
    ensures v.Some? ==> v.value == req.intent.value.slots[slot]
  {
    match req.intent
    case None => None
    case Some(i) => if slot in i.slots then Some(i.slots[slot]) else None
  }
}
