/**
 * The `detect-intent` edge function: an ordered chain of keyword tests on the
 * lower-cased message. The first group with a keyword occurring anywhere in
 * the message decides the label; a message matching none is `general`.
 */
module DetectIntent {

  import opened Text
  import Intents

  const GreetingWords: seq<string> := ["hello", "hi", "hey", "good morning", "good afternoon", "good evening", "howdy", "greetings"]
  const AppointmentWords: seq<string> := ["appointment", "schedule", "book", "reserve", "visit", "meet", "consult"]
  const InsuranceWords: seq<string> := ["insurance", "coverage", "plan", "policy", "covered", "provider"]
  const DoctorWords: seq<string> := ["doctor", "dentist", "specialist", "orthodontist", "periodontist", "endodontist"]
  const HospitalWords: seq<string> := ["hospital", "clinic", "location", "facility", "center", "branch"]

  /**
   * The label chosen for a message. Precedence is greeting, appointment,
   * insurance, doctor, hospital: a later label is chosen only when no earlier
   * group matched, and then exactly when its own group matches.
   */
  function Classify(message: string): (intent: string)
    ensures Intents.IsLabel(intent)
    ensures var s := Lower(message);
      && (intent == Intents.Greeting <==> MentionsAny(s, GreetingWords))
      && (intent == Intents.Appointment <==> !MentionsAny(s, GreetingWords) && MentionsAny(s, AppointmentWords))
      && (intent == Intents.Insurance <==>
            !MentionsAny(s, GreetingWords) && !MentionsAny(s, AppointmentWords) && MentionsAny(s, InsuranceWords))
      && (intent == Intents.Doctor <==>
            !MentionsAny(s, GreetingWords) && !MentionsAny(s, AppointmentWords) && !MentionsAny(s, InsuranceWords)
            && MentionsAny(s, DoctorWords))
      && (intent == Intents.Hospital <==>
            !MentionsAny(s, GreetingWords) && !MentionsAny(s, AppointmentWords) && !MentionsAny(s, InsuranceWords)
            && !MentionsAny(s, DoctorWords) && MentionsAny(s, HospitalWords))
      && (intent == Intents.General <==>
            !MentionsAny(s, GreetingWords) && !MentionsAny(s, AppointmentWords) && !MentionsAny(s, InsuranceWords)
            && !MentionsAny(s, DoctorWords) && !MentionsAny(s, HospitalWords))
  {
    var s := Lower(message);
    if MentionsAny(s, GreetingWords) then Intents.Greeting
    else if MentionsAny(s, AppointmentWords) then Intents.Appointment
    else if MentionsAny(s, InsuranceWords) then Intents.Insurance
    else if MentionsAny(s, DoctorWords) then Intents.Doctor
    else if MentionsAny(s, HospitalWords) then Intents.Hospital
    else Intents.General
  }

  /** Classification ignores letter case: a message and its lower-cased form get the same label. */
  lemma {:induction false} CaseInsensitive(message: string)
    ensures Classify(Lower(message)) == Classify(message)
  {
    LowerIdempotent(message);
  }

  /** A greeting word anywhere wins over every other group: "hi, can I book an appointment" is a greeting. */
  lemma GreetingBeatsBooking()
    ensures Classify("hi, can I book an appointment") == Intents.Greeting
  {
    var s := Lower("hi, can I book an appointment");
    assert OccursAt(s, "hi", 0);
    assert Contains(s, GreetingWords[1]);
  }

  /** Matching is unanchored: "which dentist" contains "hi", so it is a greeting, not a doctor question. */
  lemma SubstringGreeting()
    ensures Classify("which dentist") == Intents.Greeting
  {
    var s := Lower("which dentist");
    assert OccursAt(s, "hi", 1);
    assert Contains(s, GreetingWords[1]);
  }

  lemma HelloThere()
    ensures Classify("hello there") == Intents.Greeting
  {
    var s := Lower("hello there");
    assert OccursAt(s, "hello", 0);
    assert Contains(s, GreetingWords[0]);
  }

  /** A booking request with no greeting word is an appointment. */
  lemma BookAVisit()
    ensures Classify("I'd like to book a visit") == Intents.Appointment
  {
    var s := Lower("I'd like to book a visit");
    forall i | 0 <= i < |GreetingWords| ensures !Contains(s, GreetingWords[i]) {
      AbsentChar(s, GreetingWords[i], 0);
    }
    assert OccursAt(s, "book", 12);
    assert Contains(s, AppointmentWords[2]);
  }

  // ---------------------------------------------------------------------
  // The HTTP handler

  /** The `message` member of the request body as the handler receives it. */
  datatype MessageField = MessageText(text: string) | NotText

  /** The parsed request body, or a body that is not valid JSON. */
  datatype Body = Unreadable | Json(message: MessageField)

  datatype Response = Response(status: int, intent: string, hasError: bool)

  /**
   * The handler: a string message is classified with status 200; anything that
   * makes reading or lower-casing the message throw gives status 500 with
   * intent `general` and an error member.
   */
  function Handle(body: Body): (resp: Response)
    ensures Intents.IsLabel(resp.intent)
    ensures resp.status == 200 <==> body.Json? && body.message.MessageText?
    ensures resp.status != 200 ==> resp.status == 500 && resp.intent == Intents.General && resp.hasError
    ensures resp.status == 200 ==> !resp.hasError && resp.intent == Classify(body.message.text)
  {
    match body
    case Json(MessageText(m)) => Response(200, Classify(m), false)
    case _ => Response(500, Intents.General, true)
  }
}
