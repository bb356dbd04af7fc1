/**
 * The canned-response matcher the chat window calls for every message, and
 * the booking confirmation text.
 */
module ChatService {

  import opened Wrappers
  import opened Text
  import AppointmentModal

  /** The keywords of the canned-answer table, in declaration order; all are lower case. */
  const FaqKeywords: seq<string> := [
    "hello", "hi", "how are you", "appointment", "root canal", "teeth whitening", "braces", "toothache",
    "wisdom teeth", "gum disease", "dental implants", "flossing", "brushing technique", "insurance",
    "emergency", "cavity", "kids", "crown", "sensitive teeth"]

  /** The answer of each keyword, at the keyword's position. */
  const FaqAnswers: seq<string> := [
    "Hello! I'm SmileSmartAssistant, your virtual dental assistant. How can I help you today?",
    "Hi there! I'm SmileSmartAssistant. I can help you schedule appointments, answer dental questions, or provide information about our services.",
    "I'm functioning perfectly! Thank you for asking. How can I assist with your dental needs today?",
    "I'd be happy to help you schedule an appointment! You can click the calendar button below or just tell me what day and time works best for you.",
    "A root canal is a dental procedure to treat infection at the center of a tooth. It's needed when bacteria infect the tooth's pulp, causing pain. The procedure involves removing infected pulp, cleaning the space, and sealing it. Modern root canals are much more comfortable than their reputation suggests!",
    "We offer professional teeth whitening services that can brighten your smile by several shades. Our in-office treatments take about an hour and provide immediate results. We also offer take-home kits for gradual whitening. Would you like to learn more or schedule a whitening appointment?",
    "We offer several orthodontic options including traditional braces, ceramic braces, and clear aligners like Invisalign. The best option depends on your specific needs, preferences, and budget. Would you like to schedule a consultation to discuss which option might be best for you?",
    "Tooth pain can be caused by many factors including cavities, gum disease, teeth grinding, or infected pulp. If you're experiencing persistent tooth pain, it's important to schedule an appointment soon. In the meantime, over-the-counter pain relievers may help manage discomfort. Would you like to schedule an examination?",
    "Wisdom teeth, or third molars, typically emerge between ages 17-25. Not everyone needs them removed, but extraction is often recommended if they're impacted, causing pain, or creating alignment issues. Would you like to schedule a consultation to evaluate your wisdom teeth?",
    "Gum disease (periodontal disease) is an infection of the tissues that hold your teeth in place, caused primarily by poor brushing and flossing habits. Symptoms include red, swollen gums, bleeding, bad breath, and in advanced stages, tooth loss. Regular dental cleanings and good oral hygiene can prevent and treat early stages of gum disease.",
    "Dental implants are titanium posts surgically positioned into the jawbone beneath your gums to replace missing tooth roots. Once in place, they allow your dentist to mount replacement teeth. Implants provide stable support and blend with your natural teeth. Would you like to learn more about the implant process?",
    "Flossing daily is essential for removing plaque and food particles between teeth where your toothbrush can't reach. For proper flossing technique: use about 18 inches of floss, wind most around your middle fingers, grip 1-2 inches between thumbs and forefingers, gently guide between teeth using a rubbing motion, and curve around each tooth in a C shape when you reach the gumline.",
    "For effective brushing: use a soft-bristled brush and fluoride toothpaste, brush at a 45-degree angle to the gums, use short gentle back-and-forth strokes, brush all surfaces (outer, inner, chewing), don't forget to brush your tongue to remove bacteria, and replace your toothbrush every 3-4 months. Brush for two minutes, twice daily.",
    "We accept most major dental insurance plans including Delta Dental, Cigna, Aetna, MetLife, Guardian, and many others. For specific questions about your coverage, please provide your insurance provider's name, and I can give you more detailed information about what may be covered.",
    "If you're experiencing a dental emergency like severe pain, a knocked-out tooth, or an abscess, please call our emergency line at (555) 123-4567 immediately. For a knocked-out tooth, try to place it back in the socket without touching the root, or keep it in milk or saliva and come in immediately \U{2013} time is critical!",
    "A cavity is a permanently damaged area in the hard surface of your tooth that develops into tiny holes. Caused by factors like bacteria, sugary foods, and poor cleaning, cavities need professional treatment. If you suspect you have a cavity, schedule an appointment soon, as they progressively worsen without treatment.",
    "We provide comprehensive pediatric dental services in a child-friendly environment! Services include cleanings, fluoride treatments, sealants, cavity treatment, and early orthodontic assessment. Our team specializes in making children comfortable during dental visits. Would you like to schedule an appointment for your child?",
    "A dental crown is a cap placed over a damaged tooth to restore its shape, size, strength, and appearance. Crowns are needed when a tooth is cracked, worn down, or weakened by decay. The procedure typically requires two visits \U{2013} one for preparation and getting a temporary crown, and another to place the permanent crown.",
    "Tooth sensitivity can be caused by worn enamel, exposed roots, cavities, cracked teeth, or gum disease. To manage sensitivity: use toothpaste for sensitive teeth, brush gently with a soft-bristled brush, avoid acidic foods/drinks, and consider using a fluoride mouthwash. If sensitivity persists, please schedule an examination as it could indicate a more serious issue."]

  const BookingWords: seq<string> := ["book", "schedule", "appointment", "reserve", "visit"]

  const BookingReply := "I'd be happy to help you schedule an appointment! You can click the calendar button below or tell me what day and time works best for you."

  const DefaultReply := "I appreciate your question! As an AI dental assistant, I can help with appointment scheduling, dental procedures information, and general oral health questions. Could you provide more details or try asking in a different way?"

  /** The position of the first keyword that occurs in `s`. */
  function FirstMatch(s: string, keys: seq<string>): (r: Option<nat>)
    ensures r.Some? ==> r.value < |keys| && Contains(s, keys[r.value])
    ensures r.Some? ==> forall j :: 0 <= j < r.value ==> !Contains(s, keys[j])
    ensures r.None? <==> forall j :: 0 <= j < |keys| ==> !Contains(s, keys[j])
  {
    if keys == [] then None
    else if Contains(s, keys[0]) then Some(0)
    else
      match FirstMatch(s, keys[1..])
      case None => None
      case Some(i) => Some(i + 1)
  }

  /** No keyword occurs in `s`. */
  predicate NoKeyword(keys: seq<string>, s: string)
  {
    forall j :: 0 <= j < |keys| ==> !Contains(s, keys[j])
  }

  /**
   * The matcher over a keyword table given as keywords and their answers:
   * the answer of the first keyword, in table order, that occurs in the
   * lower-cased message; otherwise the booking reply when a booking word
   * occurs; otherwise the default reply.
   */
  function Respond(keys: seq<string>, answers: seq<string>, message: string): (reply: string)
    requires |keys| == |answers|
    ensures var s := Lower(message);
      forall i :: 0 <= i < |keys| && Contains(s, keys[i]) && (forall j :: 0 <= j < i ==> !Contains(s, keys[j]))
        ==> reply == answers[i]
    ensures var s := Lower(message);
      NoKeyword(keys, s) ==> reply == if MentionsAny(s, BookingWords) then BookingReply else DefaultReply
    ensures reply in answers || reply == BookingReply || reply == DefaultReply
  {
    var s := Lower(message);
    match FirstMatch(s, keys)
    case Some(i) => answers[i]
    case None => if MentionsAny(s, BookingWords) then BookingReply else DefaultReply
  }

  /**
   * `getResponse`: the matcher over the clinic's keyword table. The reply is
   * always one of the canned texts; with no keyword in the message it is the
   * booking reply exactly when a booking word occurs.
   */
  function GetResponse(message: string): (reply: string)
    ensures reply in FaqAnswers || reply == BookingReply || reply == DefaultReply
    ensures NoKeyword(FaqKeywords, Lower(message)) ==>
      reply == if MentionsAny(Lower(message), BookingWords) then BookingReply else DefaultReply
  {
    Respond(FaqKeywords, FaqAnswers, message)
  }

  /** The reply ignores letter case: a message and its lower-cased form get the same reply. */
  lemma {:induction false} ResponseCaseInsensitive(keys: seq<string>, answers: seq<string>, message: string)
    requires |keys| == |answers|
    ensures Respond(keys, answers, Lower(message)) == Respond(keys, answers, message)
  {
    LowerIdempotent(message);
  }

  /**
   * For a table with an `appointment` keyword and no answer equal to the
   * booking reply, the booking reply is given exactly when no keyword occurs
   * and one of book, schedule, reserve or visit does: the `appointment` test
   * of the booking branch never decides anything.
   */
  lemma BookingReplyIffFor(keys: seq<string>, answers: seq<string>, message: string, a: nat)
    requires |keys| == |answers|
    requires a < |keys| && keys[a] == "appointment"
    requires BookingReply !in answers
    ensures var s := Lower(message);
      Respond(keys, answers, message) == BookingReply <==> NoKeyword(keys, s) && MentionsAny(s, ["book", "schedule", "reserve", "visit"])
  {
    var s := Lower(message);
    if NoKeyword(keys, s) && MentionsAny(s, BookingWords) {
      var k :| 0 <= k < |BookingWords| && Contains(s, BookingWords[k]);
      assert k != 2 by {
        assert keys[a] == BookingWords[2];
      }
      var k' := if k < 2 then k else k - 1;
      assert Contains(s, ["book", "schedule", "reserve", "visit"][k']);
    }
    if MentionsAny(s, ["book", "schedule", "reserve", "visit"]) {
      var k :| 0 <= k < 4 && Contains(s, ["book", "schedule", "reserve", "visit"][k]);
      var k' := if k < 2 then k else k + 1;
      assert Contains(s, BookingWords[k']);
    }
  }

  /** The booking reply is none of the table's answers (it differs even from the answer of `appointment`). */
  lemma BookingReplyIsNoAnswer()
    ensures BookingReply !in FaqAnswers
  {
    forall i | 0 <= i < |FaqAnswers| ensures FaqAnswers[i] != BookingReply {
      assert |FaqAnswers[i]| != |BookingReply|;
    }
  }

  /** In the clinic's table the booking reply is reached only through book, schedule, reserve or visit. */
  lemma BookingReplyIff(message: string)
    ensures var s := Lower(message);
      GetResponse(message) == BookingReply <==> NoKeyword(FaqKeywords, s) && MentionsAny(s, ["book", "schedule", "reserve", "visit"])
  {
    BookingReplyIsNoAnswer();
    BookingReplyIffFor(FaqKeywords, FaqAnswers, message, 3);
  }

  /**
   * Declaration order breaks ties: "Hi, hello" contains both `hi` and `hello`
   * and gets the answer of `hello`, whatever the answers are.
   */
  lemma HelloBeforeHi(answers: seq<string>)
    requires |answers| == |FaqKeywords|
    ensures Respond(FaqKeywords, answers, "Hi, hello") == answers[0]
  {
    var s := Lower("Hi, hello");
    assert OccursAt(s, "hello", 4);
    assert Contains(s, FaqKeywords[0]);
  }

  /** Matching is by substring: "Which dentist?" contains `hi` and gets its answer. */
  lemma WhichDentist(answers: seq<string>)
    requires |answers| == |FaqKeywords|
    ensures Respond(FaqKeywords, answers, "Which dentist?") == answers[1]
  {
    var s := Lower("Which dentist?");
    AbsentChar(s, FaqKeywords[0], 2);
    assert OccursAt(s, "hi", 1);
    assert Contains(s, FaqKeywords[1]);
  }

  /** A message with a booking word and no keyword gets the booking reply. */
  lemma WantToBook(answers: seq<string>)
    requires |answers| == |FaqKeywords|
    ensures Respond(FaqKeywords, answers, "I want to book") == BookingReply
  {
    WantToBookLowered();
    WantToBookFirstKeywords();
    WantToBookLastKeywords();
    WantToBookMentionsBook();
  }

  const WantToBookLower := "i want to book"

  lemma WantToBookLowered()
    ensures Lower("I want to book") == WantToBookLower
  {
  }

  lemma WantToBookMentionsBook()
    ensures Contains(WantToBookLower, BookingWords[0])
  {
    assert OccursAt(WantToBookLower, "book", 10);
  }

  // The position, in each keyword, of a character the message lacks.
  const WantToBookMissing: seq<nat> := [0, 0, 0, 1, 0, 2, 1, 4, 2, 0, 0, 0, 1, 2, 0, 0, 2, 0, 0]

  lemma WantToBookFirstKeywords()
    ensures forall j :: 0 <= j < 10 ==> !Contains(WantToBookLower, FaqKeywords[j])
  {
    NoKeywordByMissingChar(FaqKeywords, WantToBookLower, WantToBookMissing, 0, 10);
  }

  lemma WantToBookLastKeywords()
    ensures forall j :: 10 <= j < |FaqKeywords| ==> !Contains(WantToBookLower, FaqKeywords[j])
  {
    NoKeywordByMissingChar(FaqKeywords, WantToBookLower, WantToBookMissing, 10, 19);
  }

  /** No keyword of a range occurs when each of them has a character that `s` lacks. */
  lemma NoKeywordByMissingChar(keys: seq<string>, s: string, w: seq<nat>, lo: nat, hi: nat)
    requires lo <= hi <= |keys| == |w|
    requires forall j :: lo <= j < hi ==> w[j] < |keys[j]| && keys[j][w[j]] !in s
    ensures forall j :: lo <= j < hi ==> !Contains(s, keys[j])
  {
    forall j | lo <= j < hi ensures !Contains(s, keys[j]) {
      AbsentChar(s, keys[j], w[j]);
    }
  }


  // ---------------------------------------------------------------------
  // The confirmation text

  /** The booked day, or today when the form carries none. */
  function AppointmentDay(details: AppointmentModal.AppointmentDetails, today: AppointmentModal.Day): AppointmentModal.Day
  {
    if details.date.Some? then details.date.value else today
  }

  /** The fixed pieces of the confirmation template, around dentist, date, time, reason and email. */
  const ConfirmationPieces: seq<string> := [
    "Great! Your appointment with ", " has been scheduled for ", " at ", " for ",
    ". A confirmation email has been sent to ",
    ". If you need to reschedule or have any questions, just let me know!"]

  /**
   * `getAppointmentResponse`: the confirmation sentence. `formatDate` stands
   * for the locale's long date format, which is not modelled.
   */
  function ConfirmationMessage(details: AppointmentModal.AppointmentDetails, today: AppointmentModal.Day,
                               formatDate: AppointmentModal.Day -> string): (r: string)
    ensures Contains(r, details.dentist)
    ensures Contains(r, formatDate(AppointmentDay(details, today)))
    ensures Contains(r, details.time)
    ensures Contains(r, details.reason)
    ensures Contains(r, details.email)
  {
    var values := [details.dentist, formatDate(AppointmentDay(details, today)), details.time, details.reason, details.email];
    InterpolateContains(ConfirmationPieces, values, 0);
    InterpolateContains(ConfirmationPieces, values, 1);
    InterpolateContains(ConfirmationPieces, values, 2);
    InterpolateContains(ConfirmationPieces, values, 3);
    InterpolateContains(ConfirmationPieces, values, 4);
    Interpolate(ConfirmationPieces, values)
  }
}
