/**
 * The `generate-response` edge function: the system prompt built from the
 * intent and the retrieved context, the fixed chat-completion request, and
 * the handler's error reply. The completion service itself is a parameter.
 */
module GenerateResponse {

  import opened Wrappers
  import opened Text
  import Intents

  const Identity := "You are SmileSmartAssistant, a helpful dental chatbot. "

  const GreetingInstruction := "Respond in a friendly and welcoming manner to the user's greeting."
  const AppointmentInstruction := "Help the user schedule a dental appointment. Be informative about the process and available options."
  const InsuranceInstruction := "Provide specific information about dental insurance coverage and accepted providers."
  const DoctorInstruction := "Provide detailed information about our dentists, their specializations, and availability."
  const HospitalInstruction := "Provide specific information about our dental clinics, locations, and services."
  const DefaultInstruction := "Answer the user's questions about dental care and services accurately and helpfully."

  const Guidance := " Be concise and friendly in your responses. Base your answers directly on the provided context. If the specific information is not in the context, say so politely."

  const ContextHeader := "\n\nHere is relevant information to help answer the query:\n"

  /** The apology sent with status 500. */
  const Apology := "I'm sorry, I'm having trouble connecting to my knowledge base right now. Please try again later."

  /** The five intents that have a sentence of their own. */
  predicate HasOwnInstruction(intent: Option<string>)
  {
    intent.Some? && intent.value in {Intents.Greeting, Intents.Appointment, Intents.Insurance, Intents.Doctor, Intents.Hospital}
  }

  /** The sentence chosen by the intent switch; a missing or unknown intent gets the default one. */
  function Instruction(intent: Option<string>): (r: string)
    ensures intent == Some(Intents.Greeting) ==> r == GreetingInstruction
    ensures intent == Some(Intents.Appointment) ==> r == AppointmentInstruction
    ensures intent == Some(Intents.Insurance) ==> r == InsuranceInstruction
    ensures intent == Some(Intents.Doctor) ==> r == DoctorInstruction
    ensures intent == Some(Intents.Hospital) ==> r == HospitalInstruction
    ensures !HasOwnInstruction(intent) ==> r == DefaultInstruction
  {
    match intent
    case Some(name) =>
      if name == Intents.Greeting then GreetingInstruction
      else if name == Intents.Appointment then AppointmentInstruction
      else if name == Intents.Insurance then InsuranceInstruction
      else if name == Intents.Doctor then DoctorInstruction
      else if name == Intents.Hospital then HospitalInstruction
      else DefaultInstruction
    case None => DefaultInstruction
  }

  /** A context is used when it is present and non-empty (a truthy value). */
  predicate HasContext(context: Option<string>)
  {
    context.Some? && context.value != ""
  }

  /** The part of the prompt that does not depend on the context. */
  function BasePrompt(intent: Option<string>): string
  {
    Identity + Instruction(intent) + Guidance
  }

  /**
   * The system prompt: the identity, the intent's sentence, the guidance,
   * then the context header and the context when there is one.
   */
  function SystemPrompt(intent: Option<string>, context: Option<string>): (p: string)
    ensures Identity <= p && BasePrompt(intent) <= p
    ensures !HasContext(context) ==> |p| == |BasePrompt(intent)|
    ensures HasContext(context) ==> |p| > |BasePrompt(intent)| + |context.value| && p[|p| - |context.value|..] == context.value
  {
    var base := BasePrompt(intent);
    PrefixOfAppend(Identity, Instruction(intent) + Guidance);
    assert base == Identity + (Instruction(intent) + Guidance);
    if HasContext(context) then
      PrefixOfAppend(base, ContextHeader + context.value);
      assert base + ContextHeader + context.value == base + (ContextHeader + context.value);
      base + ContextHeader + context.value
    else base
  }

  lemma PrefixOfAppend(a: string, b: string)
    ensures a <= a + b
  {
  }

  /** The prompt without context is a prefix of the prompt with any context. */
  lemma PromptPrefix(intent: Option<string>, context: Option<string>)
    ensures SystemPrompt(intent, None) <= SystemPrompt(intent, context)
  {
  }

  /** Two prompts for the same intent are equal only if their contexts are both unused or equal. */
  lemma {:induction false} PromptDeterminesContext(intent: Option<string>, c1: Option<string>, c2: Option<string>)
    requires SystemPrompt(intent, c1) == SystemPrompt(intent, c2)
    ensures HasContext(c1) <==> HasContext(c2)
    ensures HasContext(c1) ==> c1.value == c2.value
  {
    if HasContext(c1) && HasContext(c2) {
      CancelPrefix(BasePrompt(intent) + ContextHeader, c1.value, c2.value);
    }
  }

  /** With the same context, equal prompts mean the same intent sentence: the prompt tells which branch was taken. */
  lemma {:induction false} PromptDeterminesInstruction(i1: Option<string>, i2: Option<string>, context: Option<string>)
    ensures SystemPrompt(i1, context) == SystemPrompt(i2, context) <==> Instruction(i1) == Instruction(i2)
  {
    var x1, x2 := Instruction(i1), Instruction(i2);
    if SystemPrompt(i1, context) == SystemPrompt(i2, context) {
      if HasContext(context) {
        PromptShape(i1, context);
        PromptShape(i2, context);
        CancelMiddleOf5(Identity, x1, x2, Guidance, ContextHeader, context.value);
      } else {
        CancelMiddle(Identity, x1, x2, Guidance);
      }
    }
  }

  lemma PromptShape(intent: Option<string>, context: Option<string>)
    requires HasContext(context)
    ensures SystemPrompt(intent, context) == Identity + Instruction(intent) + Guidance + ContextHeader + context.value
  {
  }

  lemma CancelPrefix(a: string, x: string, y: string)
    requires a + x == a + y
    ensures x == y
  {
    assert x == (a + x)[|a|..];
  }

  /** The middle of `a + x + b` is determined by the whole string. */
  lemma CancelMiddle(a: string, x: string, y: string, b: string)
    requires a + x + b == a + y + b
    ensures x == y
  {
    var s := a + x + b;
    assert x == s[|a|..|a| + |x|];
  }

  lemma CancelMiddleOf5(a: string, x: string, y: string, b: string, c: string, d: string)
    requires a + x + b + c + d == a + y + b + c + d
    ensures x == y
  {
    var s := a + x + b + c + d;
    assert x == s[|a|..|a| + |x|];
  }

  // ---------------------------------------------------------------------
  // The completion request and the handler

  datatype ChatMessage = ChatMessage(role: string, content: string)

  datatype ChatRequest = ChatRequest(model: string, messages: seq<ChatMessage>, temperature: real, maxTokens: int)

  /** The request body sent to the completion service. */
  function CompletionRequest(message: string, intent: Option<string>, context: Option<string>): (req: ChatRequest)
    ensures req.model == "gpt-4o-mini" && req.temperature == 0.7 && req.maxTokens == 500
    ensures |req.messages| == 2
    ensures req.messages[0] == ChatMessage("system", SystemPrompt(intent, context))
    ensures Identity <= req.messages[0].content
    ensures req.messages[1] == ChatMessage("user", message)
  {
    ChatRequest("gpt-4o-mini", [ChatMessage("system", SystemPrompt(intent, context)), ChatMessage("user", message)], 0.7, 500)
  }

  /** The request body: JSON with the three members, or a body that cannot be read. */
  datatype RequestBody = Unreadable | Json(message: string, context: Option<string>, intent: Option<string>)

  /** What the completion service answered: the first choice's content, or an error object. */
  datatype Completion = Choice(content: string) | ServiceError

  datatype Reply = Reply(status: int, response: string, hasError: bool)

  /**
   * The handler. `service` is the completion service, asked once with the
   * request built from the body's message, intent and context. Its first
   * choice's content is returned with status 200; an unreadable body or a
   * service error gives status 500 and the apology.
   */
  function Handle(body: RequestBody, service: ChatRequest -> Completion): (reply: Reply)
    ensures body.Unreadable? ==> reply == Reply(500, Apology, true)
    ensures body.Json? ==>
      var c := service(CompletionRequest(body.message, body.intent, body.context));
      && (reply.status == 200 <==> c.Choice?)
      && (c.Choice? ==> reply.response == c.content && !reply.hasError)
    ensures reply.status != 200 ==> reply.status == 500 && reply.response == Apology && reply.hasError
  {
    match body
    case Unreadable => Reply(500, Apology, true)
    case Json(message, context, intent) =>
      match service(CompletionRequest(message, intent, context))
      case Choice(content) => Reply(200, content, false)
      case ServiceError => Reply(500, Apology, true)
  }
}
