/**
 * The client-side retrieval service: the keyword search over the local
 * tables, the broader context used when the search finds nothing, and the
 * three calls to the edge functions with their fallbacks. Each edge-function
 * call is a parameter standing for the network round trip: `None` is a
 * failed invocation, `Some(reply)` the function's reply.
 */
module RagService {

  import opened Wrappers
  import opened Text
  import opened Seqs
  import opened DataService
  import Intents
  import DetectIntent
  import GenerateResponse
  import ChatService
  import AppointmentModal

  // ---------------------------------------------------------------------
  // `searchLocalData`

  /** The search terms: the lower-cased message split on single spaces (so `""` is a term when there is an empty gap). */
  function SearchTerms(message: string): (terms: seq<string>)
    ensures |terms| >= 1
  {
    Split(Lower(message), ' ')
  }

  /** The doctor's first name, last name or specialization, lower-cased, includes the term. */
  predicate DoctorMentions(d: Doctor, term: string)
  {
    Contains(Lower(d.firstName), term) || Contains(Lower(d.lastName), term) || Contains(Lower(d.specialization), term)
  }

  predicate DoctorHit(terms: seq<string>, d: Doctor)
  {
    exists i :: 0 <= i < |terms| && DoctorMentions(d, terms[i])
  }

  predicate HospitalMentions(h: Hospital, term: string)
  {
    Contains(Lower(h.name), term) || Contains(Lower(h.branchLocation), term)
  }

  predicate HospitalHit(terms: seq<string>, h: Hospital)
  {
    exists i :: 0 <= i < |terms| && HospitalMentions(h, terms[i])
  }

  predicate InsuranceMentions(r: InsuranceRecord, term: string)
  {
    Contains(Lower(r.providerName), term)
  }

  predicate InsuranceHit(terms: seq<string>, r: InsuranceRecord)
  {
    exists i :: 0 <= i < |terms| && InsuranceMentions(r, terms[i])
  }

  predicate FaqMentions(f: Faq, term: string)
  {
    Contains(Lower(f.question), term) || Contains(Lower(f.answer), term)
  }

  predicate FaqHit(terms: seq<string>, f: Faq)
  {
    exists i :: 0 <= i < |terms| && FaqMentions(f, terms[i])
  }

  /** The filters of the four branches, as functions of the search terms. */
  function DoctorFilter(terms: seq<string>): Doctor -> bool { d => DoctorHit(terms, d) }
  function HospitalFilter(terms: seq<string>): Hospital -> bool { h => HospitalHit(terms, h) }
  function InsuranceFilter(terms: seq<string>): InsuranceRecord -> bool { r => InsuranceHit(terms, r) }
  function FaqFilter(terms: seq<string>): Faq -> bool { f => FaqHit(terms, f) }

  /** The line a matching doctor is rendered as; it differs from the `Doctor:` block of the full table. */
  function DoctorLine(d: Doctor): string
  {
    "Dr. " + d.firstName + " " + d.lastName + ", Specialization: " + d.specialization + ", Available: " + d.daysAvailable
  }

  /**
   * One branch of the search: the matching records rendered with `line`, or,
   * when no record matches, the whole table rendered with `whole`. The text
   * is empty exactly when the table is.
   */
  function SearchTable<T>(table: seq<T>, hit: T -> bool, line: T -> string, whole: T -> string): (r: string)
    requires forall i :: 0 <= i < |table| ==> line(table[i]) != "" && whole(table[i]) != ""
    ensures r == "" <==> table == []
    ensures forall i :: 0 <= i < |table| && hit(table[i]) ==> Contains(r, line(table[i]))
    ensures (forall i :: 0 <= i < |table| ==> !hit(table[i])) ==> r == RenderTable(table, whole)
    ensures Filter(table, hit) != [] ==> r == RenderTable(Filter(table, hit), line)
    ensures Filter(table, hit) == [] ==> r == RenderTable(table, whole)
  {
    var matches := Filter(table, hit);
    FilterEmptyIff(table, hit);
    FilterKeepsMatches(table, hit);
    forall i | 0 <= i < |matches| ensures line(matches[i]) != "" {
      var j :| 0 <= j < |table| && table[j] == matches[i];
    }
    if |matches| > 0 then
      MatchedLines(matches, line, table, hit);
      RenderTable(matches, line)
    else RenderTable(table, whole)
  }

  /** Every matching record of the table has its line in the rendering of the matches. */
  lemma MatchedLines<T>(matches: seq<T>, line: T -> string, table: seq<T>, hit: T -> bool)
    requires matches == Filter(table, hit)
    requires forall i :: 0 <= i < |matches| ==> line(matches[i]) != ""
    ensures forall i :: 0 <= i < |table| && hit(table[i]) ==> Contains(RenderTable(matches, line), line(table[i]))
  {
    FilterKeepsMatches(table, hit);
    forall i | 0 <= i < |table| && hit(table[i]) ensures Contains(RenderTable(matches, line), line(table[i])) {
      var k :| 0 <= k < |matches| && matches[k] == table[i];
    }
  }

  /**
   * `searchLocalData`: the doctor, hospital and insurance intents search their
   * own table; every other intent (greeting and appointment included) searches
   * the FAQs. The records with a hit are rendered in table order, and only
   * they; with no hit the whole table is rendered as by `getXText`. The
   * result is empty exactly when the searched table is empty.
   */
  function SearchLocalData(tables: Tables, message: string, intent: string): (r: string)
    ensures intent == Intents.Doctor ==> (r == "" <==> tables.doctors == [])
    ensures intent == Intents.Hospital ==> (r == "" <==> tables.hospitals == [])
    ensures intent == Intents.Insurance ==> (r == "" <==> tables.insurance == [])
    ensures intent !in {Intents.Doctor, Intents.Hospital, Intents.Insurance} ==> (r == "" <==> tables.faqs == [])
    ensures intent == Intents.Doctor ==>
      var m := Filter(tables.doctors, DoctorFilter(SearchTerms(message)));
      r == if m != [] then RenderTable(m, DoctorLine) else DoctorsText(tables.doctors)
    ensures intent == Intents.Hospital ==>
      var m := Filter(tables.hospitals, HospitalFilter(SearchTerms(message)));
      r == if m != [] then RenderTable(m, HospitalBlock) else HospitalsText(tables.hospitals)
    ensures intent == Intents.Insurance ==>
      var m := Filter(tables.insurance, InsuranceFilter(SearchTerms(message)));
      r == if m != [] then RenderTable(m, InsuranceBlock) else InsuranceText(tables.insurance)
    ensures intent !in {Intents.Doctor, Intents.Hospital, Intents.Insurance} ==>
      var m := Filter(tables.faqs, FaqFilter(SearchTerms(message)));
      r == if m != [] then RenderTable(m, FaqBlock) else FaqsText(tables.faqs)
  {
    var terms := SearchTerms(message);
    if intent == Intents.Doctor then
      SearchTable(tables.doctors, DoctorFilter(terms), DoctorLine, DoctorBlock)
    else if intent == Intents.Hospital then
      SearchTable(tables.hospitals, HospitalFilter(terms), HospitalBlock, HospitalBlock)
    else if intent == Intents.Insurance then
      SearchTable(tables.insurance, InsuranceFilter(terms), InsuranceBlock, InsuranceBlock)
    else
      SearchTable(tables.faqs, FaqFilter(terms), FaqBlock, FaqBlock)
  }

  /**
   * The fields each branch searches: a doctor is kept exactly when one of the
   * terms occurs in its lower-cased first name, last name or specialization.
   */
  lemma DoctorMatchIff(tables: Tables, message: string, d: Doctor)
    ensures var terms := SearchTerms(message);
      d in Filter(tables.doctors, DoctorFilter(terms)) <==>
        d in tables.doctors &&
        (exists t :: t in terms &&
          (Contains(Lower(d.firstName), t) || Contains(Lower(d.lastName), t) || Contains(Lower(d.specialization), t)))
  {
    FilterMember(tables.doctors, DoctorFilter(SearchTerms(message)), d);
  }

  /** A hospital is kept exactly when a term occurs in its lower-cased name or branch location. */
  lemma HospitalMatchIff(tables: Tables, message: string, h: Hospital)
    ensures var terms := SearchTerms(message);
      h in Filter(tables.hospitals, HospitalFilter(terms)) <==>
        h in tables.hospitals && exists t :: t in terms && (Contains(Lower(h.name), t) || Contains(Lower(h.branchLocation), t))
  {
    FilterMember(tables.hospitals, HospitalFilter(SearchTerms(message)), h);
  }

  /** An insurance record is kept exactly when a term occurs in its lower-cased provider name. */
  lemma InsuranceMatchIff(tables: Tables, message: string, r: InsuranceRecord)
    ensures var terms := SearchTerms(message);
      r in Filter(tables.insurance, InsuranceFilter(terms)) <==>
        r in tables.insurance && exists t :: t in terms && Contains(Lower(r.providerName), t)
  {
    FilterMember(tables.insurance, InsuranceFilter(SearchTerms(message)), r);
  }

  /** An FAQ is kept exactly when a term occurs in its lower-cased question or answer. */
  lemma FaqMatchIff(tables: Tables, message: string, f: Faq)
    ensures var terms := SearchTerms(message);
      f in Filter(tables.faqs, FaqFilter(terms)) <==>
        f in tables.faqs && exists t :: t in terms && (Contains(Lower(f.question), t) || Contains(Lower(f.answer), t))
  {
    FilterMember(tables.faqs, FaqFilter(SearchTerms(message)), f);
  }

  /** The search terms hold an empty term exactly when the message is empty, starts or ends with a space, or has two spaces in a row. */
  lemma EmptyTermIff(message: string)
    ensures "" in SearchTerms(message) <==> HasEmptyGap(message, ' ')
  {
    SplitEmptyPiece(Lower(message), ' ');
    LowerKeepsSpaces(message);
  }

  /**
   * A message with an empty gap matches every record, since every string
   * includes `""`: the search returns the whole searched table.
   */
  lemma {:induction false} EmptyGapMatchesAll(tables: Tables, message: string, intent: string)
    requires HasEmptyGap(message, ' ')
    ensures intent == Intents.Doctor ==> SearchLocalData(tables, message, intent) == RenderTable(tables.doctors, DoctorLine)
    ensures intent == Intents.Hospital ==> SearchLocalData(tables, message, intent) == HospitalsText(tables.hospitals)
    ensures intent == Intents.Insurance ==> SearchLocalData(tables, message, intent) == InsuranceText(tables.insurance)
    ensures intent !in {Intents.Doctor, Intents.Hospital, Intents.Insurance} ==> SearchLocalData(tables, message, intent) == FaqsText(tables.faqs)
  {
    var terms := SearchTerms(message);
    EmptyTermIff(message);
    var e :| 0 <= e < |terms| && terms[e] == "";
    if intent == Intents.Doctor {
      forall i | 0 <= i < |tables.doctors| ensures DoctorHit(terms, tables.doctors[i]) {
        ContainsSelf(Lower(tables.doctors[i].firstName));
        assert DoctorMentions(tables.doctors[i], terms[e]);
      }
      MatchAll(tables.doctors, DoctorFilter(terms), DoctorLine, DoctorBlock);
    } else if intent == Intents.Hospital {
      forall i | 0 <= i < |tables.hospitals| ensures HospitalHit(terms, tables.hospitals[i]) {
        ContainsSelf(Lower(tables.hospitals[i].name));
        assert HospitalMentions(tables.hospitals[i], terms[e]);
      }
      MatchAll(tables.hospitals, HospitalFilter(terms), HospitalBlock, HospitalBlock);
    } else if intent == Intents.Insurance {
      forall i | 0 <= i < |tables.insurance| ensures InsuranceHit(terms, tables.insurance[i]) {
        ContainsSelf(Lower(tables.insurance[i].providerName));
        assert InsuranceMentions(tables.insurance[i], terms[e]);
      }
      MatchAll(tables.insurance, InsuranceFilter(terms), InsuranceBlock, InsuranceBlock);
    } else {
      forall i | 0 <= i < |tables.faqs| ensures FaqHit(terms, tables.faqs[i]) {
        ContainsSelf(Lower(tables.faqs[i].question));
        assert FaqMentions(tables.faqs[i], terms[e]);
      }
      MatchAll(tables.faqs, FaqFilter(terms), FaqBlock, FaqBlock);
    }
  }

  /** When every record matches, the branch renders the whole table with the match format. */
  lemma MatchAll<T>(table: seq<T>, hit: T -> bool, line: T -> string, whole: T -> string)
    requires forall i :: 0 <= i < |table| ==> line(table[i]) != "" && whole(table[i]) != ""
    requires forall i :: 0 <= i < |table| ==> hit(table[i])
    ensures SearchTable(table, hit, line, whole) == RenderTable(table, line)
  {
    FilterKeepsAll(table, hit);
  }

  /** A doctor's own last name, when it has no space, finds that doctor's line. */
  lemma {:induction false} LastNameFindsDoctor(tables: Tables, i: nat)
    requires i < |tables.doctors|
    requires ' ' !in tables.doctors[i].lastName
    ensures Contains(SearchLocalData(tables, tables.doctors[i].lastName, Intents.Doctor), DoctorLine(tables.doctors[i]))
  {
    var d := tables.doctors[i];
    LowerKeepsSpaces(d.lastName);
    SplitNoSeparator(Lower(d.lastName), ' ');
    var terms := SearchTerms(d.lastName);
    assert terms == [Lower(d.lastName)];
    ContainsSelf(Lower(d.lastName));
    assert DoctorMentions(d, terms[0]);
    assert DoctorHit(terms, d);
  }

  // ---------------------------------------------------------------------
  // The context sent with the message

  /**
   * The context of `generateResponse`: the search result, or, when it is
   * empty, the broader text for the intent. The search result is empty only
   * when the searched table is, so the broader text differs from it only for
   * the appointment intent with no FAQs, which then gets the doctors text
   * after a blank line.
   */
  function ContextFor(tables: Tables, message: string, intent: string): (context: string)
    ensures context != SearchLocalData(tables, message, intent) <==> intent == Intents.Appointment && tables.faqs == []
    ensures intent == Intents.Appointment && tables.faqs == [] ==> context == "\n\n" + DoctorsText(tables.doctors)
  {
    var found := SearchLocalData(tables, message, intent);
    if found != "" then found
    else if intent == Intents.Appointment then FaqsText(tables.faqs) + "\n\n" + DoctorsText(tables.doctors)
    else if intent == Intents.Insurance then InsuranceText(tables.insurance)
    else if intent == Intents.Doctor then DoctorsText(tables.doctors)
    else if intent == Intents.Hospital then HospitalsText(tables.hospitals)
    else if intent == Intents.Greeting then found
    else FaqsText(tables.faqs)
  }

  /** The context is empty exactly when the searched table is empty, except for the appointment intent, whose context is never empty. */
  lemma ContextEmptyIff(tables: Tables, message: string, intent: string)
    ensures ContextFor(tables, message, intent) == "" <==>
      if intent == Intents.Appointment then false
      else if intent == Intents.Doctor then tables.doctors == []
      else if intent == Intents.Hospital then tables.hospitals == []
      else if intent == Intents.Insurance then tables.insurance == []
      else tables.faqs == []
  {
    if intent == Intents.Appointment && tables.faqs == [] {
      assert |ContextFor(tables, message, intent)| >= 2;
    }
  }

  // ---------------------------------------------------------------------
  // The edge-function calls

  /**
   * `detectIntent`: the intent of a 2xx reply; a failed invocation or an error
   * status (which the client library reports as an error) gives `general`.
   */
  function ClientIntent(reply: Option<DetectIntent.Response>): (intent: string)
    ensures reply.None? || reply.value.status != 200 ==> intent == Intents.General
    ensures reply.Some? && reply.value.status == 200 ==> intent == reply.value.intent
  {
    match reply
    case Some(resp) => if resp.status == 200 then resp.intent else Intents.General
    case None => Intents.General
  }

  /** When the call goes through, the client gets exactly the edge function's classification, which is a label. */
  lemma ClientIntentEndToEnd(message: string)
    ensures ClientIntent(Some(DetectIntent.Handle(DetectIntent.Json(DetectIntent.MessageText(message))))) == DetectIntent.Classify(message)
    ensures Intents.IsLabel(ClientIntent(Some(DetectIntent.Handle(DetectIntent.Json(DetectIntent.MessageText(message))))))
  {
  }

  /** The body sent to `generate-response`: the message, the context (possibly empty) and the intent. */
  function GenerateRequest(tables: Tables, message: string, intent: string): (body: GenerateResponse.RequestBody)
    ensures body.Json? && body.message == message && body.intent == Some(intent)
    ensures body.context == Some(ContextFor(tables, message, intent))
    ensures GenerateResponse.HasContext(body.context) <==> ContextFor(tables, message, intent) != ""
  {
    GenerateResponse.Json(message, Some(ContextFor(tables, message, intent)), Some(intent))
  }

  /** The client's copy of the apology shown when the call fails. */
  const ClientApology := "I'm sorry, I'm having trouble connecting to my knowledge base right now. Please try again later."

  /**
   * `generateResponse`: the `response` member of a 2xx reply to the request
   * built from the message, its context and the intent; otherwise the apology.
   */
  function ClientResponse(tables: Tables, message: string, intent: string,
                          call: GenerateResponse.RequestBody -> Option<GenerateResponse.Reply>): (answer: string)
    ensures var reply := call(GenerateRequest(tables, message, intent));
      && (reply.Some? && reply.value.status == 200 ==> answer == reply.value.response)
      && (reply.None? || reply.value.status != 200 ==> answer == ClientApology)
  {
    match call(GenerateRequest(tables, message, intent))
    case Some(reply) => if reply.status == 200 then reply.response else ClientApology
    case None => ClientApology
  }

  /**
   * With the edge function answering, the completion service is asked with
   * the user's message and a system prompt built from the intent and the
   * local context; the user sees its text, or on a service error the apology,
   * which is the same text whether the client or the edge function produced it.
   */
  lemma {:induction false} ClientResponseEndToEnd(tables: Tables, message: string, intent: string,
                                                  service: GenerateResponse.ChatRequest -> GenerateResponse.Completion)
    ensures var answer := ClientResponse(tables, message, intent, body => Some(GenerateResponse.Handle(body, service)));
      var c := service(GenerateResponse.CompletionRequest(message, Some(intent), Some(ContextFor(tables, message, intent))));
      && (c.Choice? ==> answer == c.content)
      && (c.ServiceError? ==> answer == GenerateResponse.Apology)
  {
    var body := GenerateRequest(tables, message, intent);
    var reply := GenerateResponse.Handle(body, service);
    assert ClientApology == GenerateResponse.Apology;
  }

  // ---------------------------------------------------------------------
  // `getAppointmentResponse`

  /** The specialty looked up for an appointment: Endodontics for a regular checkup, Orthodontics for any other reason. */
  function Specialty(reason: string): (s: string)
    ensures s == "Endodontics" <==> reason == "Regular Checkup"
    ensures s == "Endodontics" || s == "Orthodontics"
  {
    if reason == "Regular Checkup" then "Endodontics" else "Orthodontics"
  }

  /** The body sent to `generate-appointment-response`. */
  datatype AppointmentRequest = AppointmentRequest(details: AppointmentModal.AppointmentDetails,
                                                   specialtyDoctors: seq<string>, availableDays: seq<string>)

  function AppointmentRequestFor(tables: Tables, details: AppointmentModal.AppointmentDetails): (req: AppointmentRequest)
    ensures req.details == details
    ensures forall i :: 0 <= i < |tables.doctors| && HasSpecialty(tables.doctors[i], Specialty(details.reason))
              ==> DisplayName(tables.doctors[i]) in req.specialtyDoctors
    ensures forall x :: x in req.specialtyDoctors ==>
              exists i :: 0 <= i < |tables.doctors| && HasSpecialty(tables.doctors[i], Specialty(details.reason))
                          && x == DisplayName(tables.doctors[i])
    ensures req.availableDays == AvailableDays(tables.doctors, details.dentist)
  {
    AppointmentRequest(details, DoctorsBySpecialty(tables.doctors, Specialty(details.reason)),
                       AvailableDays(tables.doctors, details.dentist))
  }

  /**
   * `getAppointmentResponse`: the edge function's response, or, when the call
   * fails, the same confirmation sentence the offline chat service builds.
   */
  function AppointmentResponse(tables: Tables, details: AppointmentModal.AppointmentDetails, today: AppointmentModal.Day,
                               formatDate: AppointmentModal.Day -> string,
                               call: AppointmentRequest -> Option<string>): (answer: string)
    ensures call(AppointmentRequestFor(tables, details)).Some? ==> answer == call(AppointmentRequestFor(tables, details)).value
    ensures call(AppointmentRequestFor(tables, details)).None? ==>
      answer == ChatService.ConfirmationMessage(details, today, formatDate)
      && Contains(answer, details.dentist) && Contains(answer, details.time)
      && Contains(answer, details.reason) && Contains(answer, details.email)
  {
    match call(AppointmentRequestFor(tables, details))
    case Some(response) => response
    case None => ChatService.ConfirmationMessage(details, today, formatDate)
  }
}
