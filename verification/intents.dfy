/** The labels of the closed set of message intents shared by the client and the edge functions. */
module Intents {

  const Greeting := "greeting"
  const Appointment := "appointment"
  const Insurance := "insurance"
  const Doctor := "doctor"
  const Hospital := "hospital"
  const General := "general"

  predicate IsLabel(s: string)
  {
    s == Greeting || s == Appointment || s == Insurance || s == Doctor || s == Hospital || s == General
  }
}
