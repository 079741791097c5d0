/** The response each handler builds: what is spoken, the reprompt, the simple
    card and the end-of-session flag, with the fixed texts the skill uses. */
module Responses {
  import opened Wrappers
  import Decimal

  datatype Card = SimpleCard(title: string, content: string)

  /** `endSession` is present only when a handler sets it explicitly. */
  datatype Response = Response(speech: Option<string>, reprompt: Option<string>,
                               card: Option<Card>, endSession: Option<bool>)

  /** What `getResponse()` gives when nothing was added to the builder. */
  const Empty: Response := Response(None, None, None, None)

  // Texts longer than one sentence are written as two joined literals, so that
  // proofs can see that the texts differ in their first character.
  const HelloWorldTitle: string := "Hello World"
  const GetTitle: string := "Get current total"
  const AddTitle: string := "Add intent detected"

  const WelcomeText: string := "Welcome to the Alexa Skills Kit," + " you can say hello!"
  const HelloText: string := "Hello World!"
  const HelpText: string := "You can say hello to me!"
  const GoodbyeText: string := "Goodbye!"
  const GetErrorText: string := "An error occurred for the get intent." + " You may want to try again later."
  const AddErrorText: string := "An error occurred for the add intent." + " You may want to try again later."
  const AddGuidanceText: string := "This command requires both a number and what to count." + " For example, add 50 jumping jacks."
  const ApologyText: string := "Sorry, I can't understand the command." + " Please say again."

  /** Speech, optional reprompt, and a card that repeats the speech. */
  function SpeakWithCard(speech: string, reprompt: bool, title: string): (r: Response)
    ensures r.speech == Some(speech) && r.card == Some(SimpleCard(title, speech))
    ensures r.reprompt.Some? <==> reprompt
    ensures r.reprompt.Some? ==> r.reprompt == r.speech
    ensures r.endSession.None?
  {
    Response(Some(speech), if reprompt then Some(speech) else None, Some(SimpleCard(title, speech)), None)
  }

  function LaunchResponse(): Response { SpeakWithCard(WelcomeText, true, HelloWorldTitle) }
  function HelloWorldResponse(): Response { SpeakWithCard(HelloText, false, HelloWorldTitle) }
  function HelpResponse(): Response { SpeakWithCard(HelpText, true, HelloWorldTitle) }

  function GoodbyeResponse(): Response {
    Response(Some(GoodbyeText), None, Some(SimpleCard(HelloWorldTitle, GoodbyeText)), Some(true))
  }

  /** The fallback: the apology is both spoken and used as reprompt; no card. */
  function ApologyResponse(): Response {
    Response(Some(ApologyText), Some(ApologyText), None, None)
  }

  /** The get sentence: never the get error text, whatever the name and count. */
  function GetSpeech(thing: string, n: int): (s: string)
    ensures |s| > 4 && s[..4] == "The " && s[|s| - 1] == '.'
    ensures s != GetErrorText
  {
    var s := "The " + thing + " total is " + Decimal.IntToString(n) + ".";
    assert s[..4] == "The ";
    assert s[0] != GetErrorText[0];
    s
  }

  /** The add sentence: never the add error text, whatever the name and count. */
  function AddSpeech(thingName: string, n: int): (s: string)
    ensures |s| > 10 && s[..10] == "Done. The " && s[|s| - 1] == '.'
    ensures s != AddErrorText
  {
    var s := "Done. The " + thingName + " total is now " + Decimal.IntToString(n) + ".";
    assert s[..10] == "Done. The ";
    assert s[0] != AddErrorText[0];
    s
  }

  /** The get reply: a count that is present, zero included, is reported; only
      an absent count gives the error text. */
  function GetReply(thing: string, count: Option<int>): (r: Response)
    ensures r.speech.Some? && r.card == Some(SimpleCard(GetTitle, r.speech.value))
    ensures r.reprompt.None? && r.endSession.None?
    ensures r.speech == Some(GetErrorText) <==> count.None?
    ensures count.Some? ==> r.speech == Some(GetSpeech(thing, count.value))
  {
    match count
    case None => SpeakWithCard(GetErrorText, false, GetTitle)
    case Some(n) =>
      assert GetSpeech(thing, n)[0] == 'T' != GetErrorText[0];
      SpeakWithCard(GetSpeech(thing, n), false, GetTitle)
  }

  /** The add reply: JavaScript truthiness makes a count of 0 an error, like an
      absent count. */
  function AddReply(thingName: string, count: Option<int>): (r: Response)
    ensures r.speech.Some? && r.card == Some(SimpleCard(AddTitle, r.speech.value))
    ensures r.reprompt.None? && r.endSession.None?
    ensures r.speech == Some(AddErrorText) <==> count.None? || count.value == 0
    ensures count.Some? && count.value != 0 ==> r.speech == Some(AddSpeech(thingName, count.value))
  {
    if count.None? || count.value == 0 then SpeakWithCard(AddErrorText, false, AddTitle)
    else
      assert AddSpeech(thingName, count.value)[0] == 'D' != AddErrorText[0];
      SpeakWithCard(AddSpeech(thingName, count.value), false, AddTitle)
  }

  /** The one place the two domain intents disagree: a count of 0 is reported
      by the get reply and is an error for the add reply. */
  lemma ZeroCountDivergence(thing: string)
    ensures GetReply(thing, Some(0)).speech == Some("The " + thing + " total is 0.")
    ensures GetReply(thing, Some(0)) != GetReply(thing, None)
    ensures AddReply(thing, Some(0)) == AddReply(thing, None)
  {
    assert Decimal.DigitChar(0) == '0';
    assert Decimal.IntToString(0) == "0";
    assert " total is " + "0" + "." == " total is 0.";
    assert GetSpeech(thing, 0) == "The " + thing + " total is 0.";
  }

  /** Every other count is reported by both replies, in different sentences. */
  lemma NonzeroCountsReported(thing: string, n: int)
    requires n != 0
    ensures GetReply(thing, Some(n)).speech != Some(GetErrorText)
    ensures AddReply(thing, Some(n)).speech != Some(AddErrorText)
    ensures GetReply(thing, Some(n)).speech != AddReply(thing, Some(n)).speech
  {
  }

  /** The spoken get sentence determines the count: reading the number back
      after the fixed text recovers it. */
  lemma GetSpeechDeterminesCount(thing: string, a: int, b: int)
    requires GetSpeech(thing, a) == GetSpeech(thing, b)
    ensures a == b
  {
    var head := "The " + thing + " total is ";
    var sa, sb := Decimal.IntToString(a), Decimal.IntToString(b);
    assert GetSpeech(thing, a) == head + sa + ".";
    assert GetSpeech(thing, b) == head + sb + ".";
    assert |sa| == |sb|;
    assert sa == GetSpeech(thing, a)[|head|..|head| + |sa|];
    assert sb == GetSpeech(thing, b)[|head|..|head| + |sb|];
    Decimal.IntToStringInjective(a, b);
  }

  /** Likewise for the add sentence. */
  lemma AddSpeechDeterminesCount(thingName: string, a: int, b: int)
    requires AddSpeech(thingName, a) == AddSpeech(thingName, b)
    ensures a == b
  {
    var head := "Done. The " + thingName + " total is now ";
    var sa, sb := Decimal.IntToString(a), Decimal.IntToString(b);
    assert AddSpeech(thingName, a) == head + sa + ".";
    assert AddSpeech(thingName, b) == head + sb + ".";
    assert |sa| == |sb|;
    assert sa == AddSpeech(thingName, a)[|head|..|head| + |sa|];
    assert sb == AddSpeech(thingName, b)[|head|..|head| + |sb|];
    Decimal.IntToStringInjective(a, b);
  }
}
