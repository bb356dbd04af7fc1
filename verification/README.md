# Smile Smart Assistant — a verified model of the chat core

Smile Smart Assistant is a dental-clinic chat widget. A visitor's message is
classified into an intent (greeting, appointment, insurance, doctor, hospital,
general). The intent selects a keyword search over the clinic's four fact
tables (FAQs, doctors, hospitals, insurance records), and the search result is
sent as context to an edge function. That function builds a system prompt and
asks a chat-completion service for the reply. An offline matcher answers from
a fixed keyword table. A booking form validates the visitor's details and
produces a confirmation sentence. A batch edge function cuts documents into
sentence-packed chunks and stores one embedding row per chunk.

The model is a Dafny project, one module per source file plus three helper
modules:

| module | file | models |
|---|---|---|
| `Wrappers`, `Text`, `Seqs` | wrappers.dfy, text.dfy, seqs.dfy | `Option`; the JavaScript string operations the code relies on (`\s`, `toLowerCase`, `includes`, `join`, `split`, `trim`, first-occurrence `replace`); `filter`, `map`, de-duplication by a `Set` |
| `Intents` | intents.dfy | the six intent labels |
| `DataService` | data_service.dfy | `src/utils/dataService.ts` |
| `DetectIntent` | detect_intent.dfy | `supabase/functions/detect-intent/index.ts` |
| `RagService` | rag_service.dfy | `src/utils/ragService.ts` |
| `ChatService` | chat_service.dfy | `src/utils/chatService.ts` |
| `GenerateResponse` | generate_response.dfy | `supabase/functions/generate-response/index.ts` |
| `PopulateEmbeddings` | populate_embeddings.dfy | `supabase/functions/populate-embeddings/index.ts` |
| `AppointmentModal` | appointment_modal.dfy | `src/components/AppointmentModal.tsx` |

Pure code is modelled as functions and lemmas. Two parts change state step by step and are imperative Dafny:
- The embedding loader: a `class EmbeddingTable` whose rows only grow; the chunk loop and the item loop are methods with loop invariants, each proved against a specification function (`SplitText`, `Work`, `StoredCount`, `Rows`).
- The booking form: a `class BookingForm` with the details and the error map as fields.

Calls to other services are parameters of the model: the edge-function invocations, the completion and embedding services, and the database insert. A call's outcome is either a value or a failure (`None`, `ServiceError`, a refused insert). The clock is also a parameter (`now`, `today`), and so is the locale's date formatter.

Two behaviours of the code are easy to miss, and the model keeps them:
- An empty message, or one with a leading, trailing or doubled space, yields the search term `""` from `split(' ')`. Every string includes `""`, so every record matches. `RagService.EmptyGapMatchesAll` states the result. For the doctor intent this is the whole table in the match format (`Dr. …`), not the `Doctor: …` rendering.
- The handler in `populate-embeddings/index.ts` appends rows on every run: it does not check whether the table already holds rows for the same documents.

## Model

| member | source | states |
|---|---|---|
| DataService.RenderTable | src/utils/dataService.ts:66-88 | the blocks joined by blank lines: empty exactly when the table is, and containing every record's block |
| DataService.RenderAppend | src/utils/dataService.ts:66-88 | rendering two tables one after the other is their renderings joined by one blank line (order kept) |
| DataService.RenderSingle | src/utils/dataService.ts:66-69 | a one-record table renders as that record's block alone |
| DataService.FaqsText | src/utils/dataService.ts:66-70 | empty iff there are no FAQs; contains every `Question: …\nAnswer: …` block |
| DataService.DoctorsText | src/utils/dataService.ts:72-76 | empty iff there are no doctors; contains every `Doctor: …` block |
| DataService.HospitalsText | src/utils/dataService.ts:78-82 | empty iff there are no hospitals; contains every `Hospital: …` block |
| DataService.InsuranceText | src/utils/dataService.ts:84-88 | empty iff there are no insurance records; contains every `Provider: …` block |
| DataService.DoctorsBySpecialty | src/utils/dataService.ts:91-95 | a name is in the result iff some doctor with that display name has the specialty, ignoring case |
| DataService.DoctorsBySpecialtyAppend | src/utils/dataService.ts:91-95 | the query distributes over concatenated tables, so the result keeps table order |
| DataService.DoctorsBySpecialtySingle | src/utils/dataService.ts:92-94 | one doctor yields `Dr. First Last` exactly when the specialty matches, else nothing |
| DataService.FindDoctor | src/utils/dataService.ts:99-101 | the first index whose first and last names equal the parts (an absent second part matches no one); none iff no doctor matches |
| DataService.AvailableDays | src/utils/dataService.ts:97-103 | the result is `[]` exactly when no doctor has the name pair taken from the display name |
| DataService.DisplayNameParts | src/utils/dataService.ts:98 | removing `Dr. ` and splitting on spaces gives back both names when neither contains a space |
| DataService.FindDoctorAt | src/utils/dataService.ts:99-101 | a doctor with no earlier namesake is the one found |
| DataService.AvailableDaysRoundTrip | src/utils/dataService.ts:97-103 | a doctor's display name leads back to that doctor's comma-split days (names without spaces, no earlier namesake) |
| DataService.CheckInsuranceValidity | src/utils/dataService.ts:105-111 | true iff some record names the provider, ignoring case, with status exactly `Yes` |
| DetectIntent.Classify | supabase/functions/detect-intent/index.ts:20-34 | the label is always one of the six; each label is chosen iff its group matches and no earlier group does; `general` iff none matches |
| DetectIntent.CaseInsensitive | supabase/functions/detect-intent/index.ts:22-24 | a message and its lower-cased form get the same label |
| DetectIntent.GreetingBeatsBooking | supabase/functions/detect-intent/index.ts:24-27 | "hi, can I book an appointment" is a greeting: earlier groups win |
| DetectIntent.SubstringGreeting | supabase/functions/detect-intent/index.ts:24-31 | "which dentist" is a greeting, because the pattern is unanchored and `hi` occurs inside `which` |
| DetectIntent.HelloThere | supabase/functions/detect-intent/index.ts:24-25 | "hello there" is a greeting |
| DetectIntent.BookAVisit | supabase/functions/detect-intent/index.ts:24-27 | "I'd like to book a visit" matches no greeting word and is an appointment |
| DetectIntent.Handle | supabase/functions/detect-intent/index.ts:16-45 | status 200 iff the body is JSON with a string message, and then the label is `Classify(message)`; otherwise status 500, intent `general` and an error member |
| RagService.ClientIntent | src/utils/ragService.ts:11-31 | a failed invocation or a reply with a status other than 200 gives `general`; a reply with status 200 gives its intent |
| RagService.ClientIntentEndToEnd | src/utils/ragService.ts:16-26 | when the call goes through, the client's intent is the edge function's classification, which is a label |
| RagService.SearchTable | src/utils/ragService.ts:42-56 | one search branch: with some match, exactly the matching records, in table order, rendered with the match line; with none, the whole-table rendering; empty iff the table is; every matching record's line is in the text |
| RagService.MatchedLines | src/utils/ragService.ts:50-53 | every record that passes the filter has its line in the rendering of the matches |
| RagService.SearchLocalData | src/utils/ragService.ts:34-113 | doctor, hospital and insurance intents search their own table, every other intent the FAQs; the result is the matching records of that table in table order, in the branch's line format, or the whole table's text when none matches; empty iff that table is empty |
| RagService.DoctorMatchIff | src/utils/ragService.ts:42-48 | a doctor is among the matches iff some search term occurs in its lower-cased first name, last name or specialization |
| RagService.HospitalMatchIff | src/utils/ragService.ts:61-66 | a hospital is among the matches iff some term occurs in its lower-cased name or branch location |
| RagService.InsuranceMatchIff | src/utils/ragService.ts:79-83 | an insurance record is among the matches iff some term occurs in its lower-cased provider name |
| RagService.FaqMatchIff | src/utils/ragService.ts:96-101 | an FAQ is among the matches iff some term occurs in its lower-cased question or answer |
| RagService.EmptyTermIff | src/utils/ragService.ts:35 | the search terms contain `""` iff the message is empty, starts or ends with a space, or has two spaces in a row |
| RagService.EmptyGapMatchesAll | src/utils/ragService.ts:34-113 | such a message matches every record: the whole searched table (doctors in the `Dr. …` match format) |
| RagService.MatchAll | src/utils/ragService.ts:42-56 | when every record matches, the branch renders the whole table in the match format |
| RagService.LastNameFindsDoctor | src/utils/ragService.ts:40-53 | a doctor's own last name (without spaces) as the message finds that doctor's line |
| RagService.ContextFor | src/utils/ragService.ts:121-144 | the context differs from the search result iff the intent is appointment and there are no FAQs; it is then a blank line and the doctors text |
| RagService.ContextEmptyIff | src/utils/ragService.ts:121-144 | the context is never empty for appointments; for every other intent it is empty iff the searched table is |
| RagService.GenerateRequest | src/utils/ragService.ts:148-154 | the body carries the message, the intent and the context; the edge function uses the context iff it is non-empty |
| RagService.ClientResponse | src/utils/ragService.ts:148-165 | the `response` of a reply with status 200, otherwise the apology |
| RagService.ClientResponseEndToEnd | src/utils/ragService.ts:156-164 | through the edge function, the completion service is asked with `CompletionRequest(message, intent, local context)`; the user sees its text, or on a service error the apology, which is the same text on both sides |
| RagService.Specialty | src/utils/ragService.ts:172 | Endodontics iff the reason is exactly "Regular Checkup", otherwise Orthodontics |
| RagService.AppointmentRequestFor | src/utils/ragService.ts:172-184 | the request carries the details, exactly the names of the doctors of the inferred specialty, and the dentist's available days |
| RagService.AppointmentResponse | src/utils/ragService.ts:169-205 | the edge function's response, or on failure the confirmation sentence, which names the dentist, time, reason and email |
| ChatService.GetResponse | src/utils/chatService.ts:29-53 | the reply is always a canned answer, the booking reply or the default reply; with no keyword in the lower-cased message, the booking reply iff a booking word occurs |
| ChatService.FirstMatch | src/utils/chatService.ts:34-38 | the first keyword, in table order, contained in the message; none iff no keyword is contained |
| ChatService.Respond | src/utils/chatService.ts:29-53 | the answer of the first contained keyword; with none, the booking reply iff a booking word occurs, else the default reply |
| ChatService.ResponseCaseInsensitive | src/utils/chatService.ts:31 | a message and its lower-cased form get the same reply |
| ChatService.BookingReplyIffFor | src/utils/chatService.ts:41-49 | with `appointment` among the keywords, the booking reply is given iff no keyword occurs and one of book, schedule, reserve, visit does |
| ChatService.BookingReplyIsNoAnswer | src/utils/chatService.ts:6-26 | the booking reply differs from every canned answer, that of `appointment` included |
| ChatService.BookingReplyIff | src/utils/chatService.ts:29-53 | for the clinic's table, the `appointment` test of the booking branch never decides anything |
| ChatService.HelloBeforeHi | src/utils/chatService.ts:34-38 | "Hi, hello" gets the answer of `hello`: declaration order breaks ties |
| ChatService.WhichDentist | src/utils/chatService.ts:34-38 | "Which dentist?" gets the answer of `hi` (substring match) |
| ChatService.WantToBook | src/utils/chatService.ts:41-49 | "I want to book" contains no keyword and gets the booking reply |
| ChatService.ConfirmationMessage | src/utils/chatService.ts:56-66 | the sentence contains the dentist, the formatted date (today when none), the time, the reason and the email |
| GenerateResponse.Instruction | supabase/functions/generate-response/index.ts:27-45 | each of the five intents gets its own sentence; a missing or unknown intent gets the default one |
| GenerateResponse.SystemPrompt | supabase/functions/generate-response/index.ts:25-52 | starts with the identity and the intent's part; with no usable context it is exactly that part; with one, it ends with the context |
| GenerateResponse.PromptPrefix | supabase/functions/generate-response/index.ts:49-52 | the prompt without context is a prefix of the prompt with any context |
| GenerateResponse.PromptDeterminesContext | supabase/functions/generate-response/index.ts:49-52 | equal prompts for one intent have both contexts unused or equal |
| GenerateResponse.PromptDeterminesInstruction | supabase/functions/generate-response/index.ts:25-47 | with the same context, the prompts are equal iff the intent sentences are |
| GenerateResponse.CompletionRequest | supabase/functions/generate-response/index.ts:60-68 | model `gpt-4o-mini`, temperature 0.7, 500 tokens; exactly two messages: the system message carrying `SystemPrompt(intent, context)`, then the user's message |
| GenerateResponse.Handle | supabase/functions/generate-response/index.ts:71-89 | an unreadable body gives status 500, the apology and an error; for a readable body the service is asked with `CompletionRequest(message, intent, context)` built from it, and the reply has status 200 and the first choice's content iff the service answered, otherwise status 500, the apology and an error |
| PopulateEmbeddings.NextBreak | supabase/functions/populate-embeddings/index.ts:53 | the first split point at or after a position: white space right after `.`, `!` or `?` |
| PopulateEmbeddings.Sentences | supabase/functions/populate-embeddings/index.ts:53 | at least one piece; every piece but the last is non-empty |
| PopulateEmbeddings.ExampleSentences | supabase/functions/populate-embeddings/index.ts:53 | "a. b. c" splits into "a.", "b.", "c" |
| PopulateEmbeddings.SplitText | supabase/functions/populate-embeddings/index.ts:47-73 | a text within the limit is its own single chunk |
| PopulateEmbeddings.SplitTextIntoChunks | supabase/functions/populate-embeddings/index.ts:47-73 | the method computes `SplitText` |
| PopulateEmbeddings.Pack | supabase/functions/populate-embeddings/index.ts:54-66 | after the loop, the pushed chunks are the closed groups joined, and the current chunk is the open group joined |
| PopulateEmbeddings.FitStep | supabase/functions/populate-embeddings/index.ts:58-59 | a sentence that fits is appended to the current chunk, with a space unless the chunk is empty |
| PopulateEmbeddings.CloseStep | supabase/functions/populate-embeddings/index.ts:60-65 | a sentence that does not fit pushes the current chunk, if non-empty, and starts the next one |
| PopulateEmbeddings.LastChunk | supabase/functions/populate-embeddings/index.ts:68-70 | pushing the last chunk when non-empty gives one chunk per group |
| PopulateEmbeddings.OpenEmptyIff | supabase/functions/populate-embeddings/index.ts:59 | the current chunk is empty exactly when it has no sentence |
| PopulateEmbeddings.WellFormedGroups | supabase/functions/populate-embeddings/index.ts:57-66 | every group starts with a non-empty sentence |
| PopulateEmbeddings.NoEmptyChunk | supabase/functions/populate-embeddings/index.ts:61-70 | a text over the limit yields no empty chunk |
| PopulateEmbeddings.GroupKeepsSentences | supabase/functions/populate-embeddings/index.ts:57-66 | the groups hold every non-empty sentence once, in order, and drop only empty ones |
| PopulateEmbeddings.FlattenStep | supabase/functions/populate-embeddings/index.ts:57-66 | one more sentence adds itself, or nothing if it is empty, to the grouped sentences |
| PopulateEmbeddings.FlattenGrow | supabase/functions/populate-embeddings/index.ts:58-65 | the same step for either outcome of the size test |
| PopulateEmbeddings.ChunksAreJoinedGroups | supabase/functions/populate-embeddings/index.ts:57-72 | chunk k is group k joined by spaces, and the groups hold the text's non-empty sentences in order |
| PopulateEmbeddings.GroupLengthBound | supabase/functions/populate-embeddings/index.ts:58-59 | a group of two or more sentences is at most `Slack(test)` characters over the limit (1 as written, 0 with the space counted) |
| PopulateEmbeddings.ChunkLengthBound | supabase/functions/populate-embeddings/index.ts:58-59 | the same bound for the chunks of a long text |
| PopulateEmbeddings.OversizeAlone | supabase/functions/populate-embeddings/index.ts:60-64 | a sentence over the limit forms a group by itself |
| PopulateEmbeddings.OversizeSentenceIsChunk | supabase/functions/populate-embeddings/index.ts:60-64 | such a sentence is itself one of the chunks: no chunk is cut inside a sentence |
| PopulateEmbeddings.AsWrittenGroups | supabase/functions/populate-embeddings/index.ts:58-59 | as written, "a." and "b." share a group at limit 4 |
| PopulateEmbeddings.CountingSpaceGroups | supabase/functions/populate-embeddings/index.ts:58-59 | counting the space, "a." is alone and "b." joins "c" |
| PopulateEmbeddings.AsWrittenOverflows | supabase/functions/populate-embeddings/index.ts:58-59 | as written, "a. b. c" at limit 4 gives the chunk "a. b." of length 5 |
| PopulateEmbeddings.CountingSpaceFits | supabase/functions/populate-embeddings/index.ts:58-59 | counting the space, the chunks are "a." and "b. c", both within the limit |
| PopulateEmbeddings.HandlerChunks | supabase/functions/populate-embeddings/index.ts:108 | the handler's `splitTextIntoChunks(text)` with the default size 1000: a text of at most 1000 characters is one chunk; a longer one gives chunk k equal to sentence group k joined by spaces |
| PopulateEmbeddings.ChunkMetadata | supabase/functions/populate-embeddings/index.ts:121-125 | the chunk's metadata has `chunk_index` and `total_chunks` set to the position and the count |
| PopulateEmbeddings.ChunkMetadataSpread | supabase/functions/populate-embeddings/index.ts:121-125 | the spread keeps every other key of the item's metadata and adds only those two |
| PopulateEmbeddings.Tagged | supabase/functions/populate-embeddings/index.ts:112 | one entry per chunk with its index and the chunk count |
| PopulateEmbeddings.EntriesOf | supabase/functions/populate-embeddings/index.ts:100-108 | an item without a non-empty string text yields nothing; otherwise one entry per chunk |
| PopulateEmbeddings.WorkPrefix | supabase/functions/populate-embeddings/index.ts:99-145 | the entries of fewer items are a prefix of the entries of more |
| PopulateEmbeddings.FirstMissing | supabase/functions/populate-embeddings/index.ts:99-100 | the first `null` item (destructuring it throws), or the item count |
| PopulateEmbeddings.StoredCount | supabase/functions/populate-embeddings/index.ts:112-133 | the entries before the first failed embedding or insert are stored; the next one is not |
| PopulateEmbeddings.Rows | supabase/functions/populate-embeddings/index.ts:117-127 | one row per entry with its chunk and its metadata |
| PopulateEmbeddings.Preview | supabase/functions/populate-embeddings/index.ts:137 | the first 100 characters (or fewer) followed by `...` |
| PopulateEmbeddings.EmbeddingTable.Insert | supabase/functions/populate-embeddings/index.ts:117-133 | an accepted insert appends the row; a refused one changes nothing |
| PopulateEmbeddings.StoreChunks | supabase/functions/populate-embeddings/index.ts:112-144 | the chunks before the first failure are inserted in order and summarised; the chunk after them is the one that failed |
| PopulateEmbeddings.ChunkStored | supabase/functions/populate-embeddings/index.ts:114-143 | one more stored chunk extends the rows and the summaries by exactly its own |
| PopulateEmbeddings.ProcessItem | supabase/functions/populate-embeddings/index.ts:100-144 | the item is complete iff all its chunks were stored; otherwise the next one failed |
| PopulateEmbeddings.StoreItems | supabase/functions/populate-embeddings/index.ts:97-145 | the stored prefix of all entries up to the first missing item is in the table; success iff no item is missing and nothing failed, with every chunk summarised |
| PopulateEmbeddings.StoreItem | supabase/functions/populate-embeddings/index.ts:99-105 | one turn of the item loop: a missing item ends it in failure; otherwise the item is processed |
| PopulateEmbeddings.StorePresent | supabase/functions/populate-embeddings/index.ts:99-144 | processing a present item either extends the progress by its entries or reaches the failure outcome |
| PopulateEmbeddings.ItemStored | supabase/functions/populate-embeddings/index.ts:112-144 | a completely stored item extends the loop's progress |
| PopulateEmbeddings.ItemFailed | supabase/functions/populate-embeddings/index.ts:130-133 | a failure inside an item is the loop's failure outcome, with the prefix stored before it left in the table |
| PopulateEmbeddings.FailedAtMissing | supabase/functions/populate-embeddings/index.ts:100 | a missing item after complete progress fails with exactly the earlier entries stored |
| PopulateEmbeddings.FailedWithin | supabase/functions/populate-embeddings/index.ts:112-133 | the stored count of the whole work is what was stored before the failing chunk |
| PopulateEmbeddings.Finished | supabase/functions/populate-embeddings/index.ts:145-150 | when every item is done, the loop succeeds and summarises every entry |
| PopulateEmbeddings.Populate | supabase/functions/populate-embeddings/index.ts:81-159 | unreadable body: 500 and no rows; `data` not a non-empty array: 400 and no rows; otherwise the stored prefix of the entries made by `ChunksOf(test)` is in the table, and the count and results are returned iff nothing failed; the handler as written is `test == AsWritten` |
| AppointmentModal.Weekday | src/components/AppointmentModal.tsx:274-275 | `getDay()`: a weekday number from 0 (Sunday) to 6; `WeekdayNext` and `UnixEpochThursday` tie it to the calendar |
| AppointmentModal.DaysInMonth | src/components/AppointmentModal.tsx:274-275 | every month has 28 to 31 days, and 29 only for February of a leap year |
| AppointmentModal.NextDay | src/components/AppointmentModal.tsx:272-275 | the next day is a real calendar day after the given one, and no real day lies in between |
| AppointmentModal.WeekdayNext | src/components/AppointmentModal.tsx:274-275 | the day after any calendar day has the next weekday, across month ends, year ends and 29 February |
| AppointmentModal.LeapStep | src/components/AppointmentModal.tsx:274-275 | from 28 or 29 February to 1 March the year part of the formula grows by 1, or by 2 in a leap year |
| AppointmentModal.WeekdayAdvance | src/components/AppointmentModal.tsx:274-275 | `n` days later the weekday has moved on by `n` modulo 7 |
| AppointmentModal.UnixEpochThursday | src/components/AppointmentModal.tsx:274-275 | 1 January 1970 is a Thursday (4), as `new Date(0).getDay()` in UTC |
| AppointmentModal.WithField | src/components/AppointmentModal.tsx:101-105 | the field gets the new value and every other field keeps its value |
| AppointmentModal.EmailExamples | src/components/AppointmentModal.tsx:125 | `a@b.com` passes the pattern; `a@b` and `a @b.c` do not |
| AppointmentModal.ValidationErrors | src/components/AppointmentModal.tsx:116-151 | each field has an error iff its check fails (blank after trim, no date, empty selection, bad email pattern), with the email's two messages distinguished |
| AppointmentModal.AgreesAfter | src/components/AppointmentModal.tsx:119-147 | recording one more field's error extends the agreement with the validation result to that field |
| AppointmentModal.FieldByFieldErrors | src/components/AppointmentModal.tsx:116-147 | checking the fields one after the other, in the form's order, gives the validation result |
| AppointmentModal.ErrorsOfAllFields | src/components/AppointmentModal.tsx:116-149 | a map that agrees with every field's error is the validation result |
| AppointmentModal.ValidIffComplete | src/components/AppointmentModal.tsx:116-151 | validation passes exactly when every trimmed text field is non-empty, the email matches, and a date, time, dentist and reason are chosen |
| AppointmentModal.BookingForm.constructor | src/components/AppointmentModal.tsx:67-77 | an empty form with no errors |
| AppointmentModal.BookingForm.HandleChange | src/components/AppointmentModal.tsx:101-114 | one field updated, that field's error removed, all else unchanged |
| AppointmentModal.BookingForm.ValidateForm | src/components/AppointmentModal.tsx:116-151 | the stored errors are the validation result; the answer is true iff there are none |
| AppointmentModal.BookingForm.HandleSubmit | src/components/AppointmentModal.tsx:153-168 | a valid form is handed over and cleared; an invalid one keeps its details and shows its errors |
| AppointmentModal.Dentists | src/components/AppointmentModal.tsx:81-99 | without duplicates, exactly the doctors' display names; the fixed four names when the table cannot be read |
| AppointmentModal.DentistsInFirstOccurrenceOrder | src/components/AppointmentModal.tsx:84-88 | the names keep the order of their first occurrence in the table |
| AppointmentModal.ClosedDaysAreWeekend | src/components/AppointmentModal.tsx:175-177 | the two listed closed days are a Saturday and a Sunday, so listing them disables nothing more |
| AppointmentModal.ClosedRange | src/components/AppointmentModal.tsx:178 | the closed range is 20 to 25 April 2025, both ends included |
| AppointmentModal.IsDisabled | src/components/AppointmentModal.tsx:272-283 | a selectable day is not before today, is a Monday to Friday, and is none of 12, 13 and 20 to 25 April 2025 |
| AppointmentModal.TodayAndFuture | src/components/AppointmentModal.tsx:272-283 | today is disabled after midnight; a later weekday outside the closures is selectable |
| Text.SplitJoin | src/utils/dataService.ts:102 | joining the pieces of a split with the separator gives back the string |
| Text.TrimEmptyIff | src/components/AppointmentModal.tsx:119 | the trimmed string is empty iff every character is white space |
| Seqs.Dedup | src/components/AppointmentModal.tsx:88 | `[...new Set(names)]`: no duplicates, every name kept, nothing added |
| Text.ReplaceFirstPrefix | src/utils/dataService.ts:98 | removing `Dr. ` from a display name gives back the rest of the name |
| Text.InterpolateContains | src/utils/chatService.ts:56-66 | every value placed into the template occurs in the sentence |
| RagService.SearchTerms | src/utils/ragService.ts:35 | splitting the lower-cased message always gives at least one term |
| PopulateEmbeddings.SpaceRunEnd | supabase/functions/populate-embeddings/index.ts:53 | the white-space run that a sentence break consumes: all white space, followed by a non-space or the end |
| Seqs.DedupFirstOccurrenceOrder | src/components/AppointmentModal.tsx:88 | de-duplication keeps each element at the place of its first occurrence |

## Left out

- Network, database and environment: the edge-function invocations, the completion and embedding services and the insert are parameters that return a value or a failure. HTTP transport, CORS headers, the `OPTIONS` preflight and API keys are not modelled. Log output is not modelled either.
- CSV parsing (`papaparse`) is not modelled: the tables are given as sequences of records in file order. A table that cannot be read appears only where the code handles it, as the `Dentists` fallback list.
- `toLowerCase` is modelled for the ASCII letters only; full Unicode case mapping is not.
- Dates: `new Date()` and the locale's long date format are parameters. Time zones are not modelled: the picker's days are taken at local midnight.
- The embedding vectors are opaque `seq<real>`. The row ids the insert returns are not modelled, so the `id` member of each result is left out.
- The model does not draw the UI: dialog state, the calendar popover and the time and reason option lists.
- `PopulateEmbeddings.ChunkMetadataSpread`: metadata that is not an object or `undefined` is not modelled. The model takes it as a map or as absent.
- `GenerateResponse.Instruction` states each intent's sentence one way, plus the default for any other intent. The model does not state that the five sentences differ from each other.
- `ChatService.HelloBeforeHi`, `ChatService.WhichDentist`, `ChatService.WantToBook`: stated for any answer table with one answer per keyword, rather than for the clinic's answer texts. The answers do not affect which keyword wins.
- `PopulateEmbeddings.SplitText`: lengths count characters (Unicode code points), while JavaScript's `length` counts UTF-16 code units. For a text with characters outside the Basic Multilingual Plane, such as emoji, the size tests at `populate-embeddings/index.ts:48` and `:58` can decide differently from the model.
- `PopulateEmbeddings.GroupLengthBound` and `PopulateEmbeddings.ChunkLengthBound` bound lengths in characters, not in UTF-16 code units.
- `PopulateEmbeddings.Preview`: the preview keeps the first 100 characters. JavaScript's `substring(0, 100)` keeps 100 UTF-16 code units and can cut a surrogate pair in half, which a Dafny string cannot hold.
- `PopulateEmbeddings.StoredAs`: the embedding service's answer is a function of the chunk text. Two equal chunks therefore both get an embedding or both fail; a transient failure on only one of them is not modelled. Inserts are indexed by attempt and do not have this limit.
- `AppointmentModal.BookingForm.ValidateForm` builds the error map with one `CheckField` step per field, in the form's order. React's batched `setErrors` and `setAppointmentDetails` updates are modelled as immediate assignments.
- The generated-appointment-response edge function is not part of this model; `RagService.AppointmentResponse` takes its reply as a parameter.

## Findings

| source | as written | input that shows it | evidently intended | confidence | as-written member | corrected member |
|---|---|---|---|---|---|---|
| supabase/functions/populate-embeddings/index.ts:58-59 | the size test measures `currentChunk + sentence` without the space that line 59 inserts, so a chunk can be one character over `maxChunkSize` | `splitTextIntoChunks("a. b. c", 4)` gives `["a. b.", "c"]`, and `"a. b."` has 5 characters | count the joining space, so that every chunk of two or more sentences stays within the limit | not executed | PopulateEmbeddings.AsWrittenOverflows | PopulateEmbeddings.CountingSpaceFits |
