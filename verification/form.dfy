/** The ticket form's state and its event handlers. Each handler is a pure
    transition from one state to the next; the ticket request's network
    outcome is a parameter of the submit transition. */
module Form {
  import opened Optional
  import opened Text
  import opened Ticket

  /** All the component's state: launcher visibility, the two status flags,
      the stored errors, the draft, and the preview data URL. */
  datatype FormState = FormState(
    isOpen: bool,
    showSuccessPopup: bool,
    isLoading: bool,
    errors: Errors,
    draft: Draft,
    preview: Option<string>)

  /** The state the component mounts with. */
  const Mounted := FormState(false, false, false, map[], EmptyDraft, None)

  /** `handleChange` for the input whose name is `Key(f)`. */
  function HandleChange(s: FormState, f: Field, value: string): (t: FormState)
    ensures Get(t.draft, f) == value
    ensures forall g | g != f :: Get(t.draft, g) == Get(s.draft, g)
    ensures t.draft.image == s.draft.image
    ensures t == s.(draft := t.draft)
  {
    s.(draft := Set(s.draft, f, value))
  }

  /** `handleImageChange` with the selected files (an absent list counts as
      empty): the first file becomes the image; the preview is left to the
      file read that completes later. */
  function HandleImageChange(s: FormState, files: seq<File>): (t: FormState)
    ensures files == [] ==> t == s
    ensures files != [] ==> t.draft.image == Some(files[0])
    ensures forall g :: Get(t.draft, g) == Get(s.draft, g)
    ensures t == s.(draft := t.draft)
  {
    if files == [] then s else s.(draft := s.draft.(image := Some(files[0])))
  }

  /** The file read's `onloadend`, which fires whether the read succeeded or
      not: the reader's result, a data URL or null after a failed read,
      becomes the preview as it is. */
  function PreviewLoaded(s: FormState, result: Option<string>): (t: FormState)
    ensures t.preview == result
    ensures t == s.(preview := t.preview)
  {
    s.(preview := result)
  }

  /** The remove button renders only under a truthy `imagePreview`: a
      non-null, non-empty string. */
  predicate RemoveButtonShown(s: FormState) {
    s.preview.Some? && s.preview.value != []
  }

  /** `handleRemoveImage`: image and preview are cleared, nothing else moves. */
  function HandleRemoveImage(s: FormState): (t: FormState)
    ensures t.draft.image == None && t.preview == None
    ensures forall g :: Get(t.draft, g) == Get(s.draft, g)
    ensures t == s.(draft := t.draft, preview := None)
  {
    s.(draft := s.draft.(image := None), preview := None)
  }

  /** `closeSuccessPopup`. */
  function CloseSuccessPopup(s: FormState): (t: FormState)
    ensures !t.showSuccessPopup
    ensures t == s.(showSuccessPopup := false)
  {
    s.(showSuccessPopup := false)
  }

  /** `toggleChatbot`. */
  function ToggleChatbot(s: FormState): (t: FormState)
    ensures t.isOpen == !s.isOpen
    ensures t == s.(isOpen := t.isOpen)
  {
    s.(isOpen := !s.isOpen)
  }

  /** One entry of the multipart body. */
  datatype Part = TextPart(key: string, value: string) | FilePart(key: string, file: File)

  type Payload = seq<Part>

  /** The key the attachment is sent under. */
  const FileKey := "fileUpload"

  /** The order in which the fields are appended to the body. */
  const FieldOrder: seq<Field> := [Name, Phone, Email, InstituteName, ProblemType, ProblemDescription]

  /** The `FormData` body `handleSubmit` sends: the six fields in source order
      with their raw, untrimmed values, then the image when there is one. */
  function BuildPayload(d: Draft): (p: Payload)
    ensures |p| == |FieldOrder| + (if d.image.Some? then 1 else 0)
    ensures forall i | 0 <= i < |FieldOrder| :: p[i] == TextPart(Key(FieldOrder[i]), Get(d, FieldOrder[i]))
    ensures d.image.Some? ==> p[|FieldOrder|] == FilePart(FileKey, d.image.value)
  {
    var fields := [
      TextPart("name", d.name),
      TextPart("phone", d.phone),
      TextPart("email", d.email),
      TextPart("instituteName", d.instituteName),
      TextPart("problemType", d.problemType),
      TextPart("problemDescription", d.problemDescription)];
    if d.image.Some? then fields + [FilePart(FileKey, d.image.value)] else fields
  }

  /** `FormData.get` for a text entry: the value of the first part under `key`. */
  function TextValue(p: Payload, key: string): Option<string> {
    if p == [] then None
    else if p[0].key == key then (if p[0].TextPart? then Some(p[0].value) else None)
    else TextValue(p[1..], key)
  }

  /** `FormData.get` for a file entry: the file of the first part under `key`. */
  function FileValue(p: Payload, key: string): Option<File> {
    if p == [] then None
    else if p[0].key == key then (if p[0].FilePart? then Some(p[0].file) else None)
    else FileValue(p[1..], key)
  }

  /** How a receiver reads a ticket back out of the body. */
  function ReadPayload(p: Payload): Option<Draft> {
    var name, phone, email := TextValue(p, "name"), TextValue(p, "phone"), TextValue(p, "email");
    var institute, problemType := TextValue(p, "instituteName"), TextValue(p, "problemType");
    var description := TextValue(p, "problemDescription");
    if name.Some? && phone.Some? && email.Some? && institute.Some? && problemType.Some? && description.Some?
    then Some(Draft(name.value, phone.value, email.value, institute.value, problemType.value,
                    description.value, FileValue(p, FileKey)))
    else None
  }

  /** A lookup finds the first part under its key. */
  lemma {:induction false} LookupFindsFirst(p: Payload, i: nat, key: string)
    requires i <= |p|
    requires forall j | 0 <= j < i :: p[j].key != key
    ensures TextValue(p, key) == TextValue(p[i..], key)
    ensures FileValue(p, key) == FileValue(p[i..], key)
    decreases i
  {
    if i > 0 {
      LookupFindsFirst(p[1..], i - 1, key);
      assert p[1..][i - 1..] == p[i..];
    }
  }

  /** Distinct fields go by distinct keys, none of them the attachment's key. */
  lemma KeysDistinct(f: Field, g: Field)
    ensures Key(f) == Key(g) ==> f == g
    ensures Key(f) != FileKey
  {
  }

  /** Reading field `f` out of the body gives its raw value. */
  lemma ReadsField(d: Draft, f: Field, i: nat)
    requires i < |FieldOrder| && FieldOrder[i] == f
    ensures TextValue(BuildPayload(d), Key(f)) == Some(Get(d, f))
  {
    var p := BuildPayload(d);
    forall j | 0 <= j < i ensures p[j].key != Key(f) {
      KeysDistinct(FieldOrder[j], f);
    }
    LookupFindsFirst(p, i, Key(f));
  }

  /** The body carries the whole draft: reading it back gives the draft,
      attachment included. */
  lemma PayloadRoundTrip(d: Draft)
    ensures ReadPayload(BuildPayload(d)) == Some(d)
  {
    var p := BuildPayload(d);
    ReadsField(d, Name, 0);
    ReadsField(d, Phone, 1);
    ReadsField(d, Email, 2);
    ReadsField(d, InstituteName, 3);
    ReadsField(d, ProblemType, 4);
    ReadsField(d, ProblemDescription, 5);
    forall j | 0 <= j < 6 ensures p[j].key != FileKey {
      KeysDistinct(FieldOrder[j], FieldOrder[j]);
    }
    LookupFindsFirst(p, 6, FileKey);
    assert FileValue(p[6..], FileKey) == d.image;
  }

  /** What the ticket request came back with. `BadBody` is an ok status whose
      body does not parse as JSON, which lands in the same handler as a
      network exception. */
  datatype Outcome = Ok | NotOk | BadBody | Exception

  /** The state after a submit attempt, the body that was sent (if a request
      was made at all), and whether the failure alert was raised. */
  datatype Submission = Submission(next: FormState, request: Option<Payload>, failureNotice: bool)

  /** The state while the request is outstanding: the loading overlay is up,
      the fresh (empty) error map is stored, and the draft being sent is
      still on screen. */
  function InFlight(s: FormState): (t: FormState)
    requires ValidateForm(s.draft).ok
    ensures t.isLoading && t.errors == map[]
    ensures t.draft == s.draft && t.preview == s.preview
    ensures t.isOpen == s.isOpen && t.showSuccessPopup == s.showSuccessPopup
  {
    s.(errors := ValidateForm(s.draft).errors, isLoading := true)
  }

  /** `handleSubmit`, with the request's outcome given. */
  function HandleSubmit(s: FormState, outcome: Outcome): (sub: Submission)
    ensures sub.request.Some? <==> Submittable(s.draft)
    ensures sub.request.Some? ==> sub.request.value == BuildPayload(s.draft)
    ensures sub.next.errors == ValidateForm(s.draft).errors
    ensures sub.next.isOpen == s.isOpen
    ensures !Submittable(s.draft) ==>
      sub.next == s.(errors := ValidateForm(s.draft).errors) && !sub.failureNotice
    ensures Submittable(s.draft) && outcome == Ok ==>
      && sub.next.draft == EmptyDraft && sub.next.preview == None && sub.next.errors == map[]
      && !sub.next.isLoading && sub.next.showSuccessPopup && !sub.failureNotice
    ensures Submittable(s.draft) && outcome != Ok ==>
      sub.next == s.(errors := map[], isLoading := false) && sub.failureNotice
  {
    var v := ValidateForm(s.draft);
    ValidIffSubmittable(s.draft);
    if !v.ok then Submission(s.(errors := v.errors), None, false)
    else
      var loading := InFlight(s);
      var body := BuildPayload(s.draft);
      if outcome == Ok then
        var reset := loading.(draft := EmptyDraft, preview := None, errors := map[]);
        Submission(reset.(isLoading := false, showSuccessPopup := true), Some(body), false)
      else
        Submission(loading.(isLoading := false), Some(body), true)
  }

  /** The heading of the success popup; it interpolates the draft's name. */
  const GreetingTail := ", your ticket has been created successfully!"

  function SuccessGreeting(s: FormState): Option<string> {
    if s.showSuccessPopup then Some(s.draft.name + GreetingTail) else None
  }

  /** The popup after a successful submit reads the name from the draft that
      was just reset, so the greeting never contains the submitted name. */
  lemma GreetingLosesName(s: FormState)
    requires ValidateForm(s.draft).ok
    ensures !AllWs(s.draft.name)
    ensures SuccessGreeting(HandleSubmit(s, Ok).next) == Some(GreetingTail)
  {
    RequiredFieldError(s.draft, Name);
    var next := SucceededState(s);
    EmptyNameGreeting(next);
  }

  /** With the draft reset, the heading is the bare tail. */
  lemma EmptyNameGreeting(s: FormState)
    requires s.draft == EmptyDraft && s.showSuccessPopup
    ensures SuccessGreeting(s) == Some(GreetingTail)
  {
    assert s.draft.name == [];
    EmptyPrefix(GreetingTail);
  }

  lemma EmptyPrefix(t: string)
    ensures [] + t == t
  {
  }

  /** The state a successful submit of a valid draft leaves behind. */
  lemma SucceededState(s: FormState) returns (next: FormState)
    requires ValidateForm(s.draft).ok
    ensures next == HandleSubmit(s, Ok).next
    ensures next.draft == EmptyDraft && next.showSuccessPopup
  {
    ValidIffSubmittable(s.draft);
    next := HandleSubmit(s, Ok).next;
  }

  /** An invalid draft never reaches the network and only the errors change. */
  lemma InvalidSubmitSendsNothing(s: FormState, outcome: Outcome)
    requires !ValidateForm(s.draft).ok
    ensures HandleSubmit(s, outcome).request == None
    ensures HandleSubmit(s, outcome).next == s.(errors := ValidateForm(s.draft).errors)
    ensures HandleSubmit(s, outcome).next.isLoading == s.isLoading
  {
    ValidIffSubmittable(s.draft);
  }

  /** A failed request keeps the draft and preview for a retry. */
  lemma FailedSubmitKeepsDraft(s: FormState, outcome: Outcome)
    requires ValidateForm(s.draft).ok && outcome != Ok
    ensures var next := HandleSubmit(s, outcome).next;
      && next.draft == s.draft && next.preview == s.preview
      && !next.isLoading && next.showSuccessPopup == s.showSuccessPopup
    ensures HandleSubmit(s, outcome).failureNotice
  {
    ValidIffSubmittable(s.draft);
  }

  /** A retry after a failure sends the very same body. */
  lemma RetrySendsSameBody(s: FormState, first: Outcome, second: Outcome)
    requires ValidateForm(s.draft).ok && first != Ok
    ensures HandleSubmit(HandleSubmit(s, first).next, second).request == HandleSubmit(s, first).request
  {
    ValidIffSubmittable(s.draft);
  }

  /** After a success the form is as empty as at mount, so submitting again is
      blocked with all six "required" errors. */
  lemma SubmitAfterSuccessBlocked(s: FormState, outcome: Outcome)
    requires ValidateForm(s.draft).ok
    ensures var after := HandleSubmit(s, Ok).next;
      && HandleSubmit(after, outcome).request == None
      && HandleSubmit(after, outcome).next.errors == AllRequired
  {
    ValidIffSubmittable(s.draft);
    EmptyDraftSixErrors();
    ValidIffSubmittable(EmptyDraft);
  }

  /** Submitting the form as it mounts sends nothing, stores the six
      "required" errors and changes nothing else. */
  lemma MountedSubmitBlocked(outcome: Outcome)
    ensures HandleSubmit(Mounted, outcome).request == None
    ensures HandleSubmit(Mounted, outcome).next == Mounted.(errors := AllRequired)
  {
    EmptyDraftSixErrors();
    ValidIffSubmittable(EmptyDraft);
  }

  /** Attaching a file, its read completing (successfully or not), then
      removing it leaves no image and no stale preview, and the text fields
      untouched. */
  lemma AttachThenRemove(s: FormState, files: seq<File>, result: Option<string>)
    requires files != []
    ensures var attached := PreviewLoaded(HandleImageChange(s, files), result);
      && attached.draft.image == Some(files[0]) && attached.preview == result
      && HandleRemoveImage(attached) == HandleRemoveImage(s)
  {
  }

  /** A read that fails after a file was attached keeps the file in the draft
      but nulls the preview, so the remove button disappears while the file
      is still attached; a successful read of a non-empty data URL shows it. */
  lemma FailedReadHidesRemove(s: FormState, files: seq<File>, result: Option<string>)
    requires files != []
    ensures var attached := PreviewLoaded(HandleImageChange(s, files), result);
      && attached.draft.image == Some(files[0])
      && (RemoveButtonShown(attached) <==> result.Some? && result.value != [])
  {
  }

  lemma RemoveImageIdempotent(s: FormState)
    ensures HandleRemoveImage(HandleRemoveImage(s)) == HandleRemoveImage(s)
  {
  }

  /** Closing the popup twice is closing it once, and closing it when it is
      not shown changes nothing. */
  lemma CloseSuccessPopupIdempotent(s: FormState)
    ensures CloseSuccessPopup(CloseSuccessPopup(s)) == CloseSuccessPopup(s)
    ensures !s.showSuccessPopup ==> CloseSuccessPopup(s) == s
  {
  }

  lemma ToggleTwiceIsIdentity(s: FormState)
    ensures ToggleChatbot(ToggleChatbot(s)) == s
  {
  }
}
