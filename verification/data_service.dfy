/**
 * The clinic's fact tables (FAQs, doctors, hospitals, insurance records) and
 * the queries and text renderings built over them. The tables are given as
 * sequences of records in file order; reading them from the CSV assets is
 * not part of this model.
 */
module DataService {

  import opened Wrappers
  import opened Text
  import opened Seqs

  datatype Faq = Faq(question: string, answer: string)

  /** A doctor row; identity is the (first name, last name) pair, which is not unique. */
  datatype Doctor = Doctor(firstName: string, lastName: string, specialization: string, daysAvailable: string)

  datatype Hospital = Hospital(name: string, branchLocation: string, address: string, openHours: string, urgentCare: string)

  datatype InsuranceRecord = InsuranceRecord(providerName: string, coverageType: string, status: string)

  /** The four tables, built once and never changed. */
  datatype Tables = Tables(faqs: seq<Faq>, doctors: seq<Doctor>, hospitals: seq<Hospital>, insurance: seq<InsuranceRecord>)

  /** The blank line placed between two rendered records. */
  const BlockSeparator := "\n\n"

  // ---------------------------------------------------------------------
  // Renderings

  function FaqBlock(f: Faq): string
  {
    "Question: " + f.question + "\nAnswer: " + f.answer
  }

  function DoctorBlock(d: Doctor): string
  {
    "Doctor: " + d.firstName + " " + d.lastName + ", Specialization: " + d.specialization
      + ", Available: " + d.daysAvailable
  }

  function HospitalBlock(h: Hospital): string
  {
    "Hospital: " + h.name + ", Location: " + h.branchLocation + ", Address: " + h.address
      + ", Hours: " + h.openHours + ", Urgent Care: " + h.urgentCare
  }

  function InsuranceBlock(i: InsuranceRecord): string
  {
    "Provider: " + i.providerName + ", Type: " + i.coverageType + ", Status: " + i.status
  }

  /**
   * One rendered block per record, in table order, separated by a blank line.
   * Every block the clinic code renders starts with a fixed label, so the text
   * is empty exactly when the table is.
   */
  function RenderTable<T>(table: seq<T>, block: T -> string): (r: string)
    requires forall i :: 0 <= i < |table| ==> block(table[i]) != ""
    ensures r == "" <==> table == []
    ensures forall i :: 0 <= i < |table| ==> Contains(r, block(table[i]))
  {
    JoinedBlocks(Map(table, block));
    Join(Map(table, block), BlockSeparator)
  }

  /** Facts about joining non-empty blocks, used by `RenderTable`. */
  lemma JoinedBlocks(blocks: seq<string>)
    requires forall i :: 0 <= i < |blocks| ==> blocks[i] != ""
    ensures Join(blocks, BlockSeparator) == "" <==> blocks == []
    ensures forall i :: 0 <= i < |blocks| ==> Contains(Join(blocks, BlockSeparator), blocks[i])
  {
    if blocks != [] {
      JoinStartsWithFirst(blocks, BlockSeparator);
    }
    forall i | 0 <= i < |blocks| ensures Contains(Join(blocks, BlockSeparator), blocks[i]) {
      JoinContainsPart(blocks, BlockSeparator, i);
    }
  }

  /** A table of one record renders as that record's block. */
  lemma RenderSingle<T>(x: T, block: T -> string)
    requires block(x) != ""
    ensures RenderTable([x], block) == block(x)
  {
    assert Map([x], block) == [block(x)];
  }

  /** The rendering of two tables one after the other is their renderings joined by a blank line. */
  lemma RenderAppend<T>(a: seq<T>, b: seq<T>, block: T -> string)
    requires a != [] && b != []
    requires forall i :: 0 <= i < |a| ==> block(a[i]) != ""
    requires forall i :: 0 <= i < |b| ==> block(b[i]) != ""
    ensures forall i :: 0 <= i < |a + b| ==> block((a + b)[i]) != ""
    ensures RenderTable(a + b, block) == RenderTable(a, block) + BlockSeparator + RenderTable(b, block)
  {
    assert forall i :: 0 <= i < |a + b| ==> (a + b)[i] == if i < |a| then a[i] else b[i - |a|];
    assert Map(a + b, block) == Map(a, block) + Map(b, block);
    JoinAppend(Map(a, block), Map(b, block), BlockSeparator);
  }

  /** `getFAQsText`. */
  function FaqsText(faqs: seq<Faq>): (r: string)
    ensures r == "" <==> faqs == []
    ensures forall i :: 0 <= i < |faqs| ==> Contains(r, FaqBlock(faqs[i]))
  {
    RenderTable(faqs, FaqBlock)
  }

  /** `getDoctorsText`. */
  function DoctorsText(doctors: seq<Doctor>): (r: string)
    ensures r == "" <==> doctors == []
    ensures forall i :: 0 <= i < |doctors| ==> Contains(r, DoctorBlock(doctors[i]))
  {
    RenderTable(doctors, DoctorBlock)
  }

  /** `getHospitalsText`. */
  function HospitalsText(hospitals: seq<Hospital>): (r: string)
    ensures r == "" <==> hospitals == []
    ensures forall i :: 0 <= i < |hospitals| ==> Contains(r, HospitalBlock(hospitals[i]))
  {
    RenderTable(hospitals, HospitalBlock)
  }

  /** `getInsuranceText`. */
  function InsuranceText(records: seq<InsuranceRecord>): (r: string)
    ensures r == "" <==> records == []
    ensures forall i :: 0 <= i < |records| ==> Contains(r, InsuranceBlock(records[i]))
  {
    RenderTable(records, InsuranceBlock)
  }

  // ---------------------------------------------------------------------
  // Doctor queries

  /** The name shown for a doctor in lists and in the booking form. */
  function DisplayName(d: Doctor): string
  {
    "Dr. " + d.firstName + " " + d.lastName
  }

  predicate HasSpecialty(d: Doctor, specialty: string)
  {
    Lower(d.specialization) == Lower(specialty)
  }

  /**
   * `getDoctorsBySpecialty`: the display names of the doctors whose
   * specialization equals `specialty` ignoring case, in table order.
   */
  function DoctorsBySpecialty(doctors: seq<Doctor>, specialty: string): (r: seq<string>)
    ensures |r| <= |doctors|
    ensures forall i :: 0 <= i < |doctors| && HasSpecialty(doctors[i], specialty) ==> DisplayName(doctors[i]) in r
    ensures forall x :: x in r ==> exists i :: 0 <= i < |doctors| && HasSpecialty(doctors[i], specialty) && x == DisplayName(doctors[i])
  {
    var kept := Filter(doctors, d => HasSpecialty(d, specialty));
    FilterKeepsMatches(doctors, d => HasSpecialty(d, specialty));
    Map(kept, DisplayName)
  }

  /** The query distributes over concatenation of tables, so it keeps table order. */
  lemma DoctorsBySpecialtyAppend(a: seq<Doctor>, b: seq<Doctor>, specialty: string)
    ensures DoctorsBySpecialty(a + b, specialty) == DoctorsBySpecialty(a, specialty) + DoctorsBySpecialty(b, specialty)
  {
    FilterAppend(a, b, d => HasSpecialty(d, specialty));
  }

  /** A one-row table yields that doctor's name exactly when the specialty matches. */
  lemma DoctorsBySpecialtySingle(d: Doctor, specialty: string)
    ensures DoctorsBySpecialty([d], specialty) == if HasSpecialty(d, specialty) then [DisplayName(d)] else []
  {
    assert [d][1..] == [];
  }

  predicate NamedAs(d: Doctor, first: string, last: Option<string>)
  {
    d.firstName == first && last == Some(d.lastName)
  }

  /** The position of the first doctor with the given first and last name (case-sensitive). */
  function FindDoctor(doctors: seq<Doctor>, first: string, last: Option<string>): (r: Option<nat>)
    ensures r.Some? ==> r.value < |doctors| && NamedAs(doctors[r.value], first, last)
    ensures r.Some? ==> forall j :: 0 <= j < r.value ==> !NamedAs(doctors[j], first, last)
    ensures r.None? ==> forall j :: 0 <= j < |doctors| ==> !NamedAs(doctors[j], first, last)
  {
    if doctors == [] then None
    else if NamedAs(doctors[0], first, last) then Some(0)
    else
      var rest := FindDoctor(doctors[1..], first, last);
      if rest.None? then None else Some(rest.value + 1)
  }

  /** The name parts of a display name: the first `"Dr. "` removed, then split on single spaces. */
  function NameParts(doctorName: string): (parts: seq<string>)
    ensures |parts| >= 1
  {
    Split(ReplaceFirst(doctorName, "Dr. ", ""), ' ')
  }

  /**
   * `getAvailableDays`: the comma-separated day list of the first doctor whose
   * first and last names equal the first two name parts, untrimmed; `[]` when
   * no doctor has those names.
   */
  function AvailableDays(doctors: seq<Doctor>, doctorName: string): (r: seq<string>)
    ensures r == [] <==> forall j :: 0 <= j < |doctors| ==> !NamedAs(doctors[j], NameParts(doctorName)[0], PartAt(NameParts(doctorName), 1))
  {
    var parts := NameParts(doctorName);
    match FindDoctor(doctors, parts[0], PartAt(parts, 1))
    case None => []
    case Some(i) => Split(doctors[i].daysAvailable, ',')
  }

  /** `parts[k]`, which is `undefined` (and so equal to no name) past the end. */
  function PartAt(parts: seq<string>, k: nat): Option<string>
  {
    if k < |parts| then Some(parts[k]) else None
  }

  /**
   * A doctor's display name leads back to that doctor's days when neither
   * name contains a space and no earlier doctor has the same name pair.
   */
  lemma AvailableDaysRoundTrip(doctors: seq<Doctor>, i: nat)
    requires i < |doctors|
    requires ' ' !in doctors[i].firstName && ' ' !in doctors[i].lastName
    requires forall j :: 0 <= j < i ==> !NamedAs(doctors[j], doctors[i].firstName, Some(doctors[i].lastName))
    ensures AvailableDays(doctors, DisplayName(doctors[i])) == Split(doctors[i].daysAvailable, ',')
  {
    var d := doctors[i];
    DisplayNameParts(d);
    FindDoctorAt(doctors, i);
  }

  /** Removing the prefix and splitting recovers both names when neither contains a space. */
  lemma DisplayNameParts(d: Doctor)
    requires ' ' !in d.firstName && ' ' !in d.lastName
    ensures NameParts(DisplayName(d)) == [d.firstName, d.lastName]
  {
    var rest := d.firstName + " " + d.lastName;
    assert DisplayName(d) == "Dr. " + rest;
    ReplaceFirstPrefix("Dr. ", rest);
    assert rest == d.firstName + [' '] + d.lastName;
    SplitCons(d.firstName, ' ', d.lastName);
    SplitNoSeparator(d.lastName, ' ');
  }

  /** A doctor with no earlier namesake is the one the lookup finds. */
  lemma FindDoctorAt(doctors: seq<Doctor>, i: nat)
    requires i < |doctors|
    requires forall j :: 0 <= j < i ==> !NamedAs(doctors[j], doctors[i].firstName, Some(doctors[i].lastName))
    ensures FindDoctor(doctors, doctors[i].firstName, Some(doctors[i].lastName)) == Some(i)
  {
    var first, last := doctors[i].firstName, Some(doctors[i].lastName);
    var r := FindDoctor(doctors, first, last);
    assert NamedAs(doctors[i], first, last);
    assert r.Some? && r.value <= i;
  }

  // ---------------------------------------------------------------------
  // Insurance

  predicate IsValidCoverage(r: InsuranceRecord, provider: string)
  {
    Lower(r.providerName) == Lower(provider) && r.status == "Yes"
  }

  /**
   * `checkInsuranceValidity`: some record names the provider (ignoring case)
   * and has status exactly `"Yes"`.
   */
  function CheckInsuranceValidity(records: seq<InsuranceRecord>, provider: string): (valid: bool)
    ensures valid <==> exists i :: 0 <= i < |records| && IsValidCoverage(records[i], provider)
  {
    var matching := Filter(records, r => IsValidCoverage(r, provider));
    FilterEmptyIff(records, r => IsValidCoverage(r, provider));
    |matching| > 0
  }
}
