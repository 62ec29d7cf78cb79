# Support-ticket form: validator and submission state machine

A Dafny model of the logic inside the floating support-chat widget's ticket
form (`ChatbotForm`). The form collects six text fields (name, phone, email,
institute name, problem type, problem description) and an optional
screenshot. On submit it validates the fields client-side, posts a multipart
body to the ticketing endpoint, and then shows either a success popup or a
failure alert.

The model is functional. The component's state is one immutable `FormState`
record. Every event handler is a pure function from one state to the next.
The outcome of the ticket request is a parameter of the submit transition.

- `optional.dfy` (`Optional`): the `Option` type.
- `text.dfy` (`Text`): the ECMAScript white-space set (`IsWs`, shared by
  `String.prototype.trim` and the regex class `\s`), trimming, and character
  counting.
- `patterns.dfy` (`Patterns`): the phone pattern `/^\d{10}$/` and the email
  pattern `/^[^\s@]+@[^\s@]+\.[^\s@]+$/`, each written as the predicate the
  pattern denotes. It also proves the structural description of what the
  email pattern accepts: no white space, exactly one `@`, a non-empty local
  part, and a domain with a `.` that is neither its first nor its last
  character. This is a shape check, not RFC 5322 address syntax.
- `ticket.dfy` (`Ticket`): the draft (`ChatFormData`), the error map
  (`FormErrors`) and `validateForm`.
- `form.dfy` (`Form`): the component state, the handlers, the multipart body
  and `handleSubmit`.

One quirk of the code is reproduced on purpose. After a successful submit,
the draft is reset to empty strings. The success popup's heading then
interpolates `formData.name` from that reset draft, so it always reads
", your ticket has been created successfully!" without the name
(`Form.GreetingLosesName`).

The request outcome has four cases: `Ok`, `NotOk`, `BadBody` and `Exception`.
`BadBody` is an ok status whose `response.json()` throws. The code treats it
exactly like a non-ok status or a network exception, because all three end up
in the same `catch`.

A failed submit leaves the success-popup flag as it was: the code never
clears it on that path. It is false unless an earlier success popup is still
open.

The file read's completion handler also runs when the read fails. The
reader's result is then null, so the preview becomes null while the file
stays attached. The remove button renders only under a non-empty preview, so
after a failed read it is hidden although a file is attached
(`Form.FailedReadHidesRemove`).

## Model

| member | source | states |
|---|---|---|
| `Text.IsWs` | src/components/chatbotForm.tsx:81-105 | the white-space set that `trim` strips and the regex class `\s` denotes: ECMAScript WhiteSpace (TAB, VT, FF, SP, NBSP, ZWNBSP and the category Zs code points) plus LineTerminator (LF, CR, LS, PS) |
| `Text.TrimStart` | src/components/chatbotForm.tsx:81 | the first half of `trim`: what it removes is a white-space prefix, and what it keeps is a suffix that does not start with white space |
| `Text.TrimEnd` | src/components/chatbotForm.tsx:81 | the second half of `trim`: what it removes is a white-space suffix, and what it keeps is a prefix that does not end with white space |
| `Text.Trim` | src/components/chatbotForm.tsx:81-106 | the trimmed value neither starts nor ends with white space, and it is empty exactly when the field is all white space (the "required" test) |
| `Text.TrimIsUnpadding` | src/components/chatbotForm.tsx:81-106 | the field equals its trimmed value with some white space before it and some after it |
| `Text.TrimIgnoresPadding` | src/components/chatbotForm.tsx:81-106 | adding white space before or after a string does not change its trimmed value |
| `Text.TrimIdempotent` | src/components/chatbotForm.tsx:81-106 | trimming an already-trimmed value changes nothing |
| `Patterns.MatchesPhone` | src/components/chatbotForm.tsx:87 | the phone pattern `/^\d{10}$/`: exactly ten characters, each in `'0'..'9'` |
| `Patterns.MatchesEmail` | src/components/chatbotForm.tsx:93 | the email pattern `/^[^\s@]+@[^\s@]+\.[^\s@]+$/`: a `@` and a later `.` split the string into three non-empty runs with no white space and no `@` |
| `Patterns.EmailPatternIsShape` | src/components/chatbotForm.tsx:93 | the email regex accepts a string exactly when it has no white space, exactly one `@`, a non-empty local part, and a domain with an inner `.` |
| `Ticket.Set` | src/components/chatbotForm.tsx:53-56 | the computed-key spread `{ ...prev, [name]: value }`: the named field takes the value, and the other five fields and the image are unchanged |
| `Ticket.Verdict` | src/components/chatbotForm.tsx:81-106 | one field's if/else-if on its trimmed value: blank gets the field's "required" message; a phone or email that then fails its pattern gets the format message; otherwise no error |
| `Ticket.Check` | src/components/chatbotForm.tsx:81-106 | each field is checked on its own trimmed value, phone and email with their patterns, the other four for blankness only |
| `Ticket.EveryFieldChecked` | src/components/chatbotForm.tsx:79-107 | the six checks run independently with no short-circuit: each field is in the error object exactly when its own check fails, and it holds that check's message |
| `Ticket.ValidateForm` | src/components/chatbotForm.tsx:78-111 | the returned boolean is true exactly when the stored error map is empty, and each field's entry is that field's own check outcome |
| `Ticket.StoredError` | src/components/chatbotForm.tsx:79-110 | a field is in the stored error map exactly when its own check fails, and its entry is that check's message |
| `Ticket.RequiredCheck` | src/components/chatbotForm.tsx:81-107 | name, institute, problem type and description fail with their "required" message exactly when the raw value is all white space, and pass otherwise |
| `Ticket.PhoneCheck` | src/components/chatbotForm.tsx:85-89 | the phone check: "required" when the value is all white space, otherwise the format message unless the trimmed value is ten ASCII digits |
| `Ticket.EmailCheck` | src/components/chatbotForm.tsx:91-95 | the email check: "required" when the value is all white space, otherwise the format message unless the trimmed value has the address shape |
| `Ticket.ValidIffSubmittable` | src/components/chatbotForm.tsx:78-111 | validation passes exactly when: name, institute, problem type and description are not blank; the trimmed phone matches the phone pattern; and the trimmed email has the address shape |
| `Ticket.RequiredFieldError` | src/components/chatbotForm.tsx:81-107 | name, institute, problem type and description get an error exactly when they are blank, and that error is the field's "required" message |
| `Ticket.PhoneError` | src/components/chatbotForm.tsx:85-89 | a blank phone gets "Phone number is required" and never the format message; otherwise there is no phone error exactly when the trimmed phone is ten characters, all in `'0'..'9'`; any other error is the 10-digit format message |
| `Ticket.EmailError` | src/components/chatbotForm.tsx:91-95 | a blank email gets "Email is required"; otherwise there is no email error exactly when the trimmed email has the address shape; any other error is the format message |
| `Ticket.BlankFieldRequired` | src/components/chatbotForm.tsx:81-107 | a blank field, phone and email included, fails its check with its "required" message |
| `Ticket.BlankDraftSixErrors` | src/components/chatbotForm.tsx:79-107 | a draft whose six fields are all empty or white space gets exactly six errors, each the field's "required" message |
| `Ticket.EmptyDraftSixErrors` | src/components/chatbotForm.tsx:32-40 | the draft the form mounts with fails validation with all six "required" errors |
| `Ticket.ImageIgnored` | src/components/chatbotForm.tsx:78-111 | replacing or removing the attachment never changes the validation result |
| `Ticket.CheckSeesTrim` | src/components/chatbotForm.tsx:81-106 | two values with the same trimmed form get the same check outcome |
| `Ticket.OnlyTrimmedValuesMatter` | src/components/chatbotForm.tsx:81-106 | two drafts whose fields trim to the same values get the same validation result |
| `Ticket.PaddingIgnored` | src/components/chatbotForm.tsx:81-106 | adding white space before or after any one field leaves the validation result unchanged |
| `Ticket.PhoneExamples` | src/components/chatbotForm.tsx:87 | `12345`, `12345678901` and `12345abcde` fail the phone pattern, and `9876543210` passes |
| `Ticket.EmailWithoutAtRejected` | src/components/chatbotForm.tsx:93 | `foo`, which has no `@`, fails the email pattern |
| `Ticket.EmailWithoutDotRejected` | src/components/chatbotForm.tsx:93 | `foo@bar`, whose domain has no `.`, fails the email pattern |
| `Ticket.EmailOrdinaryAccepted` | src/components/chatbotForm.tsx:93 | `user@example.com` passes the email pattern |
| `Form.HandleChange` | src/components/chatbotForm.tsx:53-56 | typing into an input updates only the field it names; the image, preview, errors and flags stay as they were |
| `Form.HandleImageChange` | src/components/chatbotForm.tsx:58-68 | with no file selected nothing changes; otherwise the first file becomes the image and nothing else changes yet, including the preview |
| `Form.PreviewLoaded` | src/components/chatbotForm.tsx:63-65 | when the file read completes, its result becomes the preview exactly as delivered (a data URL, or null after a failed read), and nothing else changes |
| `Form.RemoveButtonShown` | src/components/chatbotForm.tsx:328-343 | the remove button renders exactly when the preview is a non-null, non-empty string |
| `Form.FailedReadHidesRemove` | src/components/chatbotForm.tsx:58-68 | after a file is attached and its read completes, the file is in the draft; the remove button shows exactly when the read delivered a non-empty data URL, so a failed read hides it while the file stays attached |
| `Form.HandleRemoveImage` | src/components/chatbotForm.tsx:70-76 | the image and the preview become null and nothing else changes |
| `Form.CloseSuccessPopup` | src/components/chatbotForm.tsx:176-178 | only the success-popup flag changes, and it becomes false |
| `Form.ToggleChatbot` | src/components/chatbotForm.tsx:180-182 | only the open flag changes, and it flips |
| `Form.BuildPayload` | src/components/chatbotForm.tsx:123-132 | the body holds `name, phone, email, instituteName, problemType, problemDescription` in that order with raw untrimmed values, and then `fileUpload` exactly when an image is attached |
| `Form.KeysDistinct` | src/components/chatbotForm.tsx:123-132 | the six field keys of the body are pairwise distinct and none of them is `fileUpload` |
| `Form.ReadsField` | src/components/chatbotForm.tsx:123-128 | looking up a field's key in the body gives that field's raw value |
| `Form.PayloadRoundTrip` | src/components/chatbotForm.tsx:123-132 | reading each key back out of the body gives the whole draft, attachment included |
| `Form.SuccessGreeting` | src/components/chatbotForm.tsx:367-373 | the popup heading shows only while the popup flag is set, and it is the draft's current name followed by the fixed tail |
| `Form.InFlight` | src/components/chatbotForm.tsx:119-120 | while the request is out, the loading overlay is up, the stored errors are empty, and the draft, preview and other flags are as before |
| `Form.HandleSubmit` | src/components/chatbotForm.tsx:113-174 | a request is sent exactly when the draft is submittable, and its body is the draft's payload; the stored errors always become the fresh validation map; the open flag never changes; an invalid draft changes only the errors; success clears the draft, preview and errors, drops the overlay and shows the popup; any failure drops the overlay, raises the alert and keeps the draft, preview and popup flag |
| `Form.GreetingLosesName` | src/components/chatbotForm.tsx:373 | for a draft that passes validation, the submitted name is not blank, yet after a successful submit the popup heading is the bare tail with no name, because the draft was already reset |
| `Form.InvalidSubmitSendsNothing` | src/components/chatbotForm.tsx:115-117 | an invalid draft causes no request, and only the stored errors change; the loading flag stays as it was |
| `Form.FailedSubmitKeepsDraft` | src/components/chatbotForm.tsx:169-173 | after a non-ok response, an unparseable body or an exception, the draft and preview are unchanged, loading is off, the popup flag is unchanged and the alert is raised |
| `Form.RetrySendsSameBody` | src/components/chatbotForm.tsx:169-173 | submitting again after a failure sends the very same body |
| `Form.SubmitAfterSuccessBlocked` | src/components/chatbotForm.tsx:152-163 | after a success the draft is empty, so the next submit sends nothing and stores all six "required" errors |
| `Form.MountedSubmitBlocked` | src/components/chatbotForm.tsx:26-42 | the mount state (closed, no popup, not loading, no errors, empty draft, no preview) cannot submit: the submit sends nothing, stores the six "required" errors, and changes nothing else |
| `Form.AttachThenRemove` | src/components/chatbotForm.tsx:58-76 | attaching a file, its read completing (successfully or not) and then removing it gives the same state as removing from the start, so no stale preview is left |
| `Form.RemoveImageIdempotent` | src/components/chatbotForm.tsx:70-76 | removing the image twice is the same as removing it once |
| `Form.CloseSuccessPopupIdempotent` | src/components/chatbotForm.tsx:176-178 | closing the popup twice is the same as closing it once, and closing it when it is not shown is a no-op |
| `Form.ToggleTwiceIsIdentity` | src/components/chatbotForm.tsx:180-182 | toggling the launcher twice restores the state |

## Left out

- The JSX rendering, styling, icons and logo: presentation only. Two
  things are kept from it: the success heading, which reads the draft's
  name, and the condition under which the remove button renders.
- The real `fetch` to the hard-coded ticket endpoint and the parsing of its
  JSON reply: network I/O. The request's result is the `Outcome` parameter of
  `HandleSubmit`, and its JSON content is never used by the form.
- The `/api/institutes` fetch on mount: its result is never used, and its
  failure only logs.
- `FileReader` decoding of the attachment into a data URL: asynchronous
  browser API. The read's result is an opaque optional string that
  `PreviewLoaded` delivers: a data URL, or none when the read failed.
  The model does not order a stale read's completion against a later
  attachment or removal, because the code has no guard against that either.
- `console.log`/`console.error`, the alert text, and clearing the DOM file
  input through `fileInputRef`: side effects. The alert appears only as the
  `failureNotice` flag.
- Re-entrant submission while a request is outstanding: the code has no
  guard, and interleaving is outside this model. Each submit is one atomic
  transition. `InFlight` describes the state during the request.
- `handleChange` for an input name other than the six fields: every input
  wired to it in the markup is named after one of them.
- A general regular-expression engine: the two fixed patterns are predicates.
- JavaScript strings are UTF-16 code-unit sequences, while Dafny's `string` is
  a sequence of Unicode scalar values. All white-space characters and every
  character the patterns name are single code units, so the checks agree
  except on lone surrogates, which a Dafny string cannot hold.
- `Text.IsWs` lists the category Zs code points of current Unicode versions.
  An engine built on an older Unicode table may classify U+180E differently.
