/** The ticket draft the form collects and the validator run on every submit
    attempt: six text fields checked independently, the attachment never. */
module Ticket {
  import opened Optional
  import opened Text
  import opened Patterns

  /** The attached screenshot; the model never looks inside it. */
  datatype File = File(fileName: string, mimeType: string, bytes: seq<bv8>)

  /** The six text fields of a ticket, named by their input `name` attributes. */
  datatype Field = Name | Phone | Email | InstituteName | ProblemType | ProblemDescription

  /** `ChatFormData`. */
  datatype Draft = Draft(
    name: string,
    phone: string,
    email: string,
    instituteName: string,
    problemType: string,
    problemDescription: string,
    image: Option<File>)

  /** The draft at mount time and after a successful submission. */
  const EmptyDraft := Draft("", "", "", "", "", "", None)

  /** The key a field goes by, both as an input name and in the payload. */
  function Key(f: Field): string {
    match f
    case Name => "name"
    case Phone => "phone"
    case Email => "email"
    case InstituteName => "instituteName"
    case ProblemType => "problemType"
    case ProblemDescription => "problemDescription"
  }

  function Get(d: Draft, f: Field): string {
    match f
    case Name => d.name
    case Phone => d.phone
    case Email => d.email
    case InstituteName => d.instituteName
    case ProblemType => d.problemType
    case ProblemDescription => d.problemDescription
  }

  /** `{ ...prev, [name]: value }`: the named field takes the value, every other
      field and the image stay as they were. */
  function Set(d: Draft, f: Field, value: string): (d': Draft)
    ensures Get(d', f) == value
    ensures forall g | g != f :: Get(d', g) == Get(d, g)
    ensures d'.image == d.image
  {
    match f
    case Name => d.(name := value)
    case Phone => d.(phone := value)
    case Email => d.(email := value)
    case InstituteName => d.(instituteName := value)
    case ProblemType => d.(problemType := value)
    case ProblemDescription => d.(problemDescription := value)
  }

  /** `FormErrors`: a field is present exactly when it has an error. */
  type Errors = map<Field, string>

  const NameRequired := "Name is required"
  const PhoneRequired := "Phone number is required"
  const PhoneInvalid := "Please enter a valid 10-digit phone number"
  const EmailRequired := "Email is required"
  const EmailInvalid := "Please enter a valid email address"
  const InstituteRequired := "Institute name is required"
  const ProblemTypeRequired := "Problem type is required"
  const DescriptionRequired := "Problem description is required"

  /** The message a field gets when it is blank. */
  function RequiredMessage(f: Field): string {
    match f
    case Name => NameRequired
    case Phone => PhoneRequired
    case Email => EmailRequired
    case InstituteName => InstituteRequired
    case ProblemType => ProblemTypeRequired
    case ProblemDescription => DescriptionRequired
  }

  /** The check a field gets, applied to its trimmed value: blank fails with
      the "required" message; phone and email must then also match their
      pattern or fail with the format message. */
  function Verdict(f: Field, trimmed: string): Option<string> {
    if trimmed == [] then Some(RequiredMessage(f))
    else if f == Phone && !MatchesPhone(trimmed) then Some(PhoneInvalid)
    else if f == Email && !MatchesEmail(trimmed) then Some(EmailInvalid)
    else None
  }

  /** The outcome of the one check a field gets. */
  function Check(d: Draft, f: Field): Option<string> {
    match f
    case Name => Verdict(Name, Trim(d.name))
    case Phone => Verdict(Phone, Trim(d.phone))
    case Email => Verdict(Email, Trim(d.email))
    case InstituteName => Verdict(InstituteName, Trim(d.instituteName))
    case ProblemType => Verdict(ProblemType, Trim(d.problemType))
    case ProblemDescription => Verdict(ProblemDescription, Trim(d.problemDescription))
  }

  /** Stores the message of a failed check under its field. */
  function Record(errors: Errors, f: Field, outcome: Option<string>): Errors {
    if outcome.Some? then errors[f := outcome.value] else errors
  }

  /** The error object `validateForm` builds: the six checks in source order,
      each recording its message when it fails. */
  function CollectErrors(d: Draft): Errors {
    Collect(Check(d, Name), Check(d, Phone), Check(d, Email),
            Check(d, InstituteName), Check(d, ProblemType), Check(d, ProblemDescription))
  }

  function Collect(name: Option<string>, phone: Option<string>, email: Option<string>,
                   institute: Option<string>, problemType: Option<string>,
                   description: Option<string>): Errors
  {
    var e0: Errors := map[];
    var e1 := Record(e0, Name, name);
    var e2 := Record(e1, Phone, phone);
    var e3 := Record(e2, Email, email);
    var e4 := Record(e3, InstituteName, institute);
    var e5 := Record(e4, ProblemType, problemType);
    Record(e5, ProblemDescription, description)
  }

  /** The outcome given for field `f` among the six. */
  function Pick(f: Field, name: Option<string>, phone: Option<string>, email: Option<string>,
                institute: Option<string>, problemType: Option<string>,
                description: Option<string>): Option<string>
  {
    match f
    case Name => name
    case Phone => phone
    case Email => email
    case InstituteName => institute
    case ProblemType => problemType
    case ProblemDescription => description
  }

  lemma {:induction false} CollectRecordsEach(
    name: Option<string>, phone: Option<string>, email: Option<string>,
    institute: Option<string>, problemType: Option<string>, description: Option<string>)
    ensures var e := Collect(name, phone, email, institute, problemType, description);
      forall f :: (f in e <==> Pick(f, name, phone, email, institute, problemType, description).Some?)
             && (f in e ==> Some(e[f]) == Pick(f, name, phone, email, institute, problemType, description))
  {
    var e := Collect(name, phone, email, institute, problemType, description);
    forall f ensures (f in e <==> Pick(f, name, phone, email, institute, problemType, description).Some?)
                  && (f in e ==> Some(e[f]) == Pick(f, name, phone, email, institute, problemType, description)) {
      if f == Name {
      } else if f == Phone {
      } else if f == Email {
      } else if f == InstituteName {
      } else if f == ProblemType {
      } else {
      }
    }
  }

  /** No check short-circuits another: each field holds exactly the outcome of
      its own check. */
  lemma {:induction false} EveryFieldChecked(d: Draft)
    ensures forall f :: f in CollectErrors(d) <==> Check(d, f).Some?
    ensures forall f | f in CollectErrors(d) :: Some(CollectErrors(d)[f]) == Check(d, f)
  {
    var n, p, m, i, t, ds := Check(d, Name), Check(d, Phone), Check(d, Email),
      Check(d, InstituteName), Check(d, ProblemType), Check(d, ProblemDescription);
    CollectRecordsEach(n, p, m, i, t, ds);
    forall f ensures Check(d, f) == Pick(f, n, p, m, i, t, ds) {
      match f
      case Name =>
      case Phone =>
      case Email =>
      case InstituteName =>
      case ProblemType =>
      case ProblemDescription =>
    }
  }

  /** What `validateForm` hands back (`ok`) and stores (`errors`). */
  datatype Validation = Validation(ok: bool, errors: Errors)

  /** `validateForm`: every field is checked, none short-circuits another, and
      the boolean is true exactly when no field reported an error. */
  function ValidateForm(d: Draft): (v: Validation)
    ensures v.ok <==> v.errors == map[]
    ensures forall f :: f in v.errors <==> Check(d, f).Some?
    ensures forall f | f in v.errors :: Some(v.errors[f]) == Check(d, f)
  {
    var errors := CollectErrors(d);
    EveryFieldChecked(d);
    Validation(|errors| == 0, errors)
  }

  /** The entry validation stores for one field is that field's check outcome. */
  lemma StoredError(d: Draft, f: Field)
    ensures f in ValidateForm(d).errors <==> Check(d, f).Some?
    ensures f in ValidateForm(d).errors ==> Some(ValidateForm(d).errors[f]) == Check(d, f)
  {
  }

  /** The check of name, institute, problem type and description: it fails
      with the "required" message exactly when the field is blank. */
  lemma RequiredCheck(d: Draft, f: Field)
    requires f != Phone && f != Email
    ensures Check(d, f) == if AllWs(Get(d, f)) then Some(RequiredMessage(f)) else None
  {
    match f
    case Name =>
    case InstituteName =>
    case ProblemType =>
    case ProblemDescription =>
  }

  /** The phone check: "required" when blank, else the format message unless
      the trimmed value matches `/^\d{10}$/`. */
  lemma PhoneCheck(d: Draft)
    ensures Check(d, Phone) ==
      if AllWs(d.phone) then Some(PhoneRequired)
      else if MatchesPhone(Trim(d.phone)) then None
      else Some(PhoneInvalid)
  {
  }

  /** The email check: "required" when blank, else the format message unless
      the trimmed value has the address shape. */
  lemma EmailCheck(d: Draft)
    ensures Check(d, Email) ==
      if AllWs(d.email) then Some(EmailRequired)
      else if EmailShape(Trim(d.email)) then None
      else Some(EmailInvalid)
  {
    EmailPatternIsShape(Trim(d.email));
  }

  /** A draft the form lets through, stated field by field without the
      validator's own helpers. */
  predicate Submittable(d: Draft) {
    && !AllWs(d.name)
    && MatchesPhone(Trim(d.phone))
    && EmailShape(Trim(d.email))
    && !AllWs(d.instituteName)
    && !AllWs(d.problemType)
    && !AllWs(d.problemDescription)
  }

  /** The validator accepts exactly the submittable drafts. */
  lemma ValidIffSubmittable(d: Draft)
    ensures ValidateForm(d).ok <==> Submittable(d)
  {
    var e := ValidateForm(d).errors;
    RequiredCheck(d, Name);
    PhoneCheck(d);
    EmailCheck(d);
    RequiredCheck(d, InstituteName);
    RequiredCheck(d, ProblemType);
    RequiredCheck(d, ProblemDescription);
    StoredError(d, Name);
    StoredError(d, Phone);
    StoredError(d, Email);
    StoredError(d, InstituteName);
    StoredError(d, ProblemType);
    StoredError(d, ProblemDescription);
    if Submittable(d) {
      forall f ensures f !in e {
        StoredError(d, f);
      }
      assert e == map[];
    }
  }

  /** Name, institute, problem type and description: an error exactly when the
      field is blank, and then it is the field's "required" message. */
  lemma RequiredFieldError(d: Draft, f: Field)
    requires f != Phone && f != Email
    ensures f in ValidateForm(d).errors <==> AllWs(Get(d, f))
    ensures f in ValidateForm(d).errors ==> ValidateForm(d).errors[f] == RequiredMessage(f)
  {
    StoredError(d, f);
    RequiredCheck(d, f);
  }

  /** A blank phone gets the "required" message, never the format message;
      otherwise there is no phone error exactly when the trimmed phone is ten
      ASCII digits, and the error there is the format message. */
  lemma PhoneError(d: Draft)
    ensures AllWs(d.phone) ==> Phone in ValidateForm(d).errors && ValidateForm(d).errors[Phone] == PhoneRequired
    ensures !AllWs(d.phone) ==>
      && (Phone !in ValidateForm(d).errors <==>
            |Trim(d.phone)| == 10 && forall k | 0 <= k < |Trim(d.phone)| :: '0' <= Trim(d.phone)[k] <= '9')
      && (Phone in ValidateForm(d).errors ==> ValidateForm(d).errors[Phone] == PhoneInvalid)
  {
    StoredError(d, Phone);
    PhoneCheck(d);
  }

  /** A blank email gets the "required" message; otherwise there is no email
      error exactly when the trimmed email has the address shape (no white
      space, one `@` with a non-empty local part, an inner `.` in the domain),
      and the error there is the format message. */
  lemma EmailError(d: Draft)
    ensures AllWs(d.email) ==> Email in ValidateForm(d).errors && ValidateForm(d).errors[Email] == EmailRequired
    ensures !AllWs(d.email) ==>
      && (Email !in ValidateForm(d).errors <==> EmailShape(Trim(d.email)))
      && (Email in ValidateForm(d).errors ==> ValidateForm(d).errors[Email] == EmailInvalid)
  {
    StoredError(d, Email);
    EmailCheck(d);
  }

  /** Every field reporting its "required" message. */
  const AllRequired: Errors := map[
    Name := NameRequired, Phone := PhoneRequired, Email := EmailRequired,
    InstituteName := InstituteRequired, ProblemType := ProblemTypeRequired,
    ProblemDescription := DescriptionRequired]

  /** A blank field fails its check with its "required" message. */
  lemma BlankFieldRequired(d: Draft, f: Field)
    requires AllWs(Get(d, f))
    ensures Check(d, f) == Some(RequiredMessage(f))
  {
    match f
    case Name =>
    case Phone =>
    case Email =>
    case InstituteName =>
    case ProblemType =>
    case ProblemDescription =>
  }

  lemma AllRequiredCollected()
    ensures Collect(Some(NameRequired), Some(PhoneRequired), Some(EmailRequired),
      Some(InstituteRequired), Some(ProblemTypeRequired), Some(DescriptionRequired)) == AllRequired
    ensures |AllRequired| == 6
  {
    assert AllRequired.Keys == {Name, Phone, Email, InstituteName, ProblemType, ProblemDescription};
  }

  /** A draft whose six fields are empty or all white space gets six errors,
      each the field's "required" message. */
  lemma BlankDraftSixErrors(d: Draft)
    requires forall f :: AllWs(Get(d, f))
    ensures ValidateForm(d).errors == AllRequired
    ensures |ValidateForm(d).errors| == 6
  {
    BlankFieldRequired(d, Name);
    BlankFieldRequired(d, Phone);
    BlankFieldRequired(d, Email);
    BlankFieldRequired(d, InstituteName);
    BlankFieldRequired(d, ProblemType);
    BlankFieldRequired(d, ProblemDescription);
    AllRequiredCollected();
  }

  lemma EmptyDraftSixErrors()
    ensures ValidateForm(EmptyDraft).errors == AllRequired
    ensures !ValidateForm(EmptyDraft).ok
  {
    BlankDraftSixErrors(EmptyDraft);
  }

  /** The attachment never affects validation. */
  lemma ImageIgnored(d: Draft, image: Option<File>)
    ensures ValidateForm(d.(image := image)) == ValidateForm(d)
  {
  }

  /** A check looks at its field only through the trimmed value. */
  lemma CheckSeesTrim(d: Draft, d': Draft, f: Field)
    requires Trim(Get(d, f)) == Trim(Get(d', f))
    ensures Check(d, f) == Check(d', f)
  {
    match f
    case Name =>
    case Phone =>
    case Email =>
    case InstituteName =>
    case ProblemType =>
    case ProblemDescription =>
  }

  /** Drafts whose six checks agree collect the same errors. */
  lemma SameChecksSameErrors(d: Draft, d': Draft)
    requires Check(d, Name) == Check(d', Name) && Check(d, Phone) == Check(d', Phone)
    requires Check(d, Email) == Check(d', Email) && Check(d, InstituteName) == Check(d', InstituteName)
    requires Check(d, ProblemType) == Check(d', ProblemType)
    requires Check(d, ProblemDescription) == Check(d', ProblemDescription)
    ensures CollectErrors(d) == CollectErrors(d')
  {
  }

  /** Validation sees only the trimmed values of the fields. */
  lemma OnlyTrimmedValuesMatter(d: Draft, d': Draft)
    requires forall f :: Trim(Get(d, f)) == Trim(Get(d', f))
    ensures ValidateForm(d) == ValidateForm(d')
  {
    CheckSeesTrim(d, d', Name);
    CheckSeesTrim(d, d', Phone);
    CheckSeesTrim(d, d', Email);
    CheckSeesTrim(d, d', InstituteName);
    CheckSeesTrim(d, d', ProblemType);
    CheckSeesTrim(d, d', ProblemDescription);
    SameChecksSameErrors(d, d');
  }

  /** White space added before or after any field leaves the error map as it was. */
  lemma PaddingIgnored(d: Draft, f: Field, pre: string, post: string)
    requires AllWs(pre) && AllWs(post)
    ensures ValidateForm(Set(d, f, pre + Get(d, f) + post)) == ValidateForm(d)
  {
    var d' := Set(d, f, pre + Get(d, f) + post);
    forall g ensures Trim(Get(d', g)) == Trim(Get(d, g)) {
      if g == f {
        TrimIgnoresPadding(pre, Get(d, f), post);
      }
    }
    OnlyTrimmedValuesMatter(d', d);
  }

  /** Phone numbers of the wrong length or with letters fail; ten digits pass. */
  lemma PhoneExamples()
    ensures !MatchesPhone("12345")
    ensures !MatchesPhone("12345678901")
    ensures !MatchesPhone("12345abcde")
    ensures MatchesPhone("9876543210")
  {
    assert !IsAsciiDigit("12345abcde"[5]);
  }

  /** An address without an `@` fails. */
  lemma EmailWithoutAtRejected()
    ensures !MatchesEmail("foo")
  {
  }

  /** An address without a `.` after the `@` fails. */
  lemma EmailWithoutDotRejected()
    ensures !MatchesEmail("foo@bar")
  {
    var s := "foo@bar";
    assert forall k | 0 <= k < |s| :: s[k] == '.' ==> false;
  }

  /** An ordinary address passes. */
  lemma EmailOrdinaryAccepted()
    ensures MatchesEmail("user@example.com")
  {
    var s := "user@example.com";
    assert s[4] == '@' && s[12] == '.';
    assert AllAddressChars(s[..4]) && AllAddressChars(s[5..12]) && AllAddressChars(s[13..]);
  }
}
