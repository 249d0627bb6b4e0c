/** The contact form of the two web pages: its eight text fields, the
    client-side check, typing into a field, and the submit handler. The
    application's page posts the form to the intake route; the site's page
    only waits and then reports success. */
module ContactForm {
  import opened Wrappers
  import opened JsText
  import opened EmailPatterns

  /** The names of the form's inputs. */
  datatype Field = Name | Email | Phone | Company | Service | Budget | Message | Timeline

  /** `formData`: the eight inputs' texts. */
  datatype Form = Form(name: string, email: string, phone: string, company: string,
                       service: string, budget: string, message: string, timeline: string)

  /** `formData[name]` */
  function Get(f: Form, k: Field): string {
    match k
    case Name => f.name
    case Email => f.email
    case Phone => f.phone
    case Company => f.company
    case Service => f.service
    case Budget => f.budget
    case Message => f.message
    case Timeline => f.timeline
  }

  /** `{ ...f, [name]: value }` */
  function Put(f: Form, k: Field, value: string): (g: Form)
    ensures Get(g, k) == value
    ensures forall j :: j != k ==> Get(g, j) == Get(f, j)
  {
    match k
    case Name => f.(name := value)
    case Email => f.(email := value)
    case Phone => f.(phone := value)
    case Company => f.(company := value)
    case Service => f.(service := value)
    case Budget => f.(budget := value)
    case Message => f.(message := value)
    case Timeline => f.(timeline := value)
  }

  const SubmitFallback := "Failed to submit form. Please try again."

  /** The initial and the reset state of the form: every field empty. */
  const EmptyForm := Form("", "", "", "", "", "", "", "")

  /** `formErrors`: the message shown under each input and the `submit`
      message, the empty text where the object has no entry or an empty
      one. */
  datatype Shown = Shown(name: string, email: string, phone: string, company: string,
                         service: string, budget: string, message: string, timeline: string,
                         submit: string)

  const NoErrors := Shown("", "", "", "", "", "", "", "", "")

  /** `formErrors[name]` */
  function Shows(e: Shown, k: Field): string {
    match k
    case Name => e.name
    case Email => e.email
    case Phone => e.phone
    case Company => e.company
    case Service => e.service
    case Budget => e.budget
    case Message => e.message
    case Timeline => e.timeline
  }

  /** `{ ...e, [name]: '' }` */
  function Clear(e: Shown, k: Field): (d: Shown)
    ensures Shows(d, k) == "" && d.submit == e.submit
    ensures forall j :: j != k ==> Shows(d, j) == Shows(e, j)
  {
    match k
    case Name => e.(name := "")
    case Email => e.(email := "")
    case Phone => e.(phone := "")
    case Company => e.(company := "")
    case Service => e.(service := "")
    case Budget => e.(budget := "")
    case Message => e.(message := "")
    case Timeline => e.(timeline := "")
  }

  /** A form the check lets through: name, phone and message not blank
      after trimming, a service chosen, and an address that is not blank and
      in which `\S+@\S+\.\S+` finds a match. */
  predicate FormValid(f: Form) {
    && !IsBlank(f.name) && !IsBlank(f.email) && ClientMatch(f.email)
    && !IsBlank(f.phone) && f.service != "" && !IsBlank(f.message)
  }

  /** `e` is what the check reports for `f`: name, phone and message are
      flagged when blank after trimming, the service when empty (no trim),
      the address as required when blank and otherwise as invalid when there
      is no match; nothing else is flagged. */
  predicate Reports(e: Shown, f: Form) {
    && (e.name != "" <==> IsBlank(f.name)) && (e.name != "" ==> e.name == "Name is required")
    && (e.phone != "" <==> IsBlank(f.phone)) && (e.phone != "" ==> e.phone == "Phone is required")
    && (e.message != "" <==> IsBlank(f.message)) && (e.message != "" ==> e.message == "Message is required")
    && (e.service != "" <==> f.service == "") && (e.service != "" ==> e.service == "Please select a service")
    && (e.email != "" <==> IsBlank(f.email) || !ClientMatch(f.email))
    && (e.email != "" ==> e.email == if IsBlank(f.email) then "Email is required" else "Email is invalid")
    && e.company == "" && e.budget == "" && e.timeline == "" && e.submit == ""
  }

  /** The messages the check shows for `f`, field by field. */
  function ErrorsOf(f: Form): Shown {
    Shown(if IsBlank(f.name) then "Name is required" else "",
          if IsBlank(f.email) then "Email is required"
          else if !ClientMatch(f.email) then "Email is invalid"
          else "",
          if IsBlank(f.phone) then "Phone is required" else "",
          "",
          if f.service == "" then "Please select a service" else "",
          "",
          if IsBlank(f.message) then "Message is required" else "",
          "", "")
  }

  /** The messages shown are the check's report: the only one there is. */
  lemma ErrorsOfReports(f: Form)
    ensures Reports(ErrorsOf(f), f)
    ensures forall e :: Reports(e, f) ==> e == ErrorsOf(f)
  {
  }

  /** No message is shown exactly when the form is valid. */
  lemma ErrorsOfEmptyIffValid(f: Form)
    ensures ErrorsOf(f) == NoErrors <==> FormValid(f)
  {
  }

  /** `validateForm` up to `setFormErrors`: the local `errors` object filled
      in field by field, and whether it ended up with no entry. */
  method CollectErrors(f: Form) returns (errors: Shown, empty: bool)
    ensures errors == ErrorsOf(f)
    ensures empty <==> FormValid(f)
  {
    errors := NoErrors;
    var count := 0;
    if IsBlank(f.name) {
      errors := errors.(name := "Name is required");
      count := count + 1;
    }
    if IsBlank(f.email) {
      errors := errors.(email := "Email is required");
      count := count + 1;
    } else if !ClientMatch(f.email) {
      errors := errors.(email := "Email is invalid");
      count := count + 1;
    }
    if IsBlank(f.phone) {
      errors := errors.(phone := "Phone is required");
      count := count + 1;
    }
    if f.service == "" {
      errors := errors.(service := "Please select a service");
      count := count + 1;
    }
    if IsBlank(f.message) {
      errors := errors.(message := "Message is required");
      count := count + 1;
    }
    empty := count == 0;
  }

  /** The address is never flagged twice: it gets exactly one of the two
      messages when flagged, and the invalid one only when it is not
      blank. */
  lemma EmailMessagesExclusive(e: Shown, f: Form)
    requires Reports(e, f) && e.email != ""
    ensures (e.email == "Email is required") != (e.email == "Email is invalid")
    ensures e.email == "Email is invalid" ==> !IsBlank(f.email) && !ClientMatch(f.email)
  {
  }

  /** Only the five required fields matter: changing company, budget or
      timeline changes neither the verdict nor the report. */
  lemma OptionalFieldsIgnored(e: Shown, f: Form, k: Field, value: string)
    requires k in {Company, Budget, Timeline}
    ensures FormValid(Put(f, k, value)) == FormValid(f)
    ensures Reports(e, Put(f, k, value)) == Reports(e, f)
  {
    var g := Put(f, k, value);
    assert g.name == f.name && g.email == f.email && g.phone == f.phone;
    assert g.service == f.service && g.message == f.message;
  }

  /** How a `fetch` of the intake route ended: an HTTP answer, whose body
      the page parses as JSON (`jsonError` when that fails), or a rejected
      request. */
  datatype Fetched = Answered(status: nat, jsonError: Option<string>) | Unreachable(message: string)

  /** The `Error` the `try` block ends in, if any: a status outside 200-299,
      a body that is not JSON, or the fetch's own failure. */
  function Failure(r: Fetched): Option<string> {
    match r
    case Unreachable(m) => Some(m)
    case Answered(status, jsonError) =>
      if !(200 <= status <= 299) then Some("HTTP error! status: " + Dec(status))
      else jsonError
  }

  /** `error.message || 'Failed to submit form. Please try again.'` */
  function SubmitMessage(m: string): (r: string)
    ensures r != ""
    ensures m != "" ==> r == m
  {
    if m == "" then SubmitFallback else m
  }

  /** A refused status always ends the submission with a message naming
      it, whatever the body; an accepted status and a JSON body end it
      without one. */
  lemma FailureCases(status: nat, jsonError: Option<string>)
    ensures !(200 <= status <= 299) ==> Failure(Answered(status, jsonError)) == Some("HTTP error! status: " + Dec(status))
    ensures 200 <= status <= 299 ==> (Failure(Answered(status, jsonError)).None? <==> jsonError.None?)
    ensures Failure(Answered(500, None)) == Some("HTTP error! status: 500")
  {
    assert Dec(5) == ['5'];
    assert Dec(50) == Dec(5) + ['0'];
    assert Dec(500) == Dec(50) + ['0'];
    assert Dec(500) == "500";
    assert "HTTP error! status: " + Dec(500) == "HTTP error! status: 500";
  }

  /** The page's state. `posted` records the bodies sent to the intake
      route. */
  class ContactPage {
    var formData: Form
    var formErrors: Shown
    var isSubmitting: bool
    var submitSuccess: bool
    var posted: seq<Form>

    constructor ()
      ensures formData == EmptyForm && formErrors == NoErrors && !isSubmitting && !submitSuccess && posted == []
    {
      formData := EmptyForm;
      formErrors := NoErrors;
      isSubmitting := false;
      submitSuccess := false;
      posted := [];
    }

    /** `handleInputChange`: the named field takes the typed value and the
        others stay; a message shown for that field becomes empty and the
        other messages stay. */
    method HandleInputChange(name: Field, value: string)
      modifies this
      ensures formData == Put(old(formData), name, value)
      ensures formErrors == if Shows(old(formErrors), name) != "" then Clear(old(formErrors), name) else old(formErrors)
      ensures isSubmitting == old(isSubmitting) && submitSuccess == old(submitSuccess) && posted == old(posted)
    {
      formData := Put(formData, name, value);
      if Shows(formErrors, name) != "" {
        formErrors := Clear(formErrors, name);
      }
    }

    /** `validateForm`: the check's report replaces the shown messages, and
        the answer is whether the form passed. */
    method ValidateForm() returns (ok: bool)
      modifies this
      ensures formErrors == ErrorsOf(formData) && (ok <==> FormValid(formData))
      ensures formData == old(formData) && isSubmitting == old(isSubmitting)
      ensures submitSuccess == old(submitSuccess) && posted == old(posted)
    {
      var errors, empty := CollectErrors(formData);
      formErrors := errors;
      ok := empty;
    }

    /** `handleSubmit` of the application's page: an invalid form shows its
        messages and nothing is sent; a valid one is posted once, and then
        either the form is reset and the success note shown, or every
        message is replaced by the one `submit` message and the form is
        kept. The busy flag ends as it began. */
    method HandleSubmit(reply: Fetched)
      modifies this
      ensures !FormValid(old(formData)) ==>
        && formErrors == ErrorsOf(old(formData)) && formErrors != NoErrors
        && formData == old(formData) && posted == old(posted)
        && isSubmitting == old(isSubmitting) && submitSuccess == old(submitSuccess)
      ensures FormValid(old(formData)) ==> posted == old(posted) + [old(formData)] && !isSubmitting
      ensures FormValid(old(formData)) && Failure(reply).None? ==>
        formData == EmptyForm && submitSuccess && formErrors == NoErrors
      ensures FormValid(old(formData)) && Failure(reply).Some? ==>
        && formData == old(formData) && submitSuccess == old(submitSuccess)
        && formErrors == NoErrors.(submit := SubmitMessage(Failure(reply).value))
    {
      var ok := ValidateForm();
      if !ok {
        ErrorsOfEmptyIffValid(old(formData));
        return;
      }
      ErrorsOfEmptyIffValid(old(formData));
      isSubmitting := true;
      posted := posted + [formData];
      var failure := Failure(reply);
      if failure.None? {
        submitSuccess := true;
        formData := EmptyForm;
      } else {
        formErrors := NoErrors.(submit := SubmitMessage(failure.value));
      }
      isSubmitting := false;
    }

    /** `handleSubmit` of the site's page: the same check, then a pause
        that always ends well, the success note and the reset form; nothing
        is sent. */
    method HandleDemoSubmit()
      modifies this
      ensures formErrors == ErrorsOf(old(formData)) && posted == old(posted)
      ensures !FormValid(old(formData)) ==>
        formData == old(formData) && isSubmitting == old(isSubmitting) && submitSuccess == old(submitSuccess)
      ensures FormValid(old(formData)) ==> formData == EmptyForm && submitSuccess && !isSubmitting
    {
      var ok := ValidateForm();
      if !ok {
        return;
      }
      isSubmitting := true;
      submitSuccess := true;
      formData := EmptyForm;
      isSubmitting := false;
    }

    /** The timer five seconds after a success: the note goes away. */
    method SuccessShown()
      modifies this
      ensures !submitSuccess
      ensures formData == old(formData) && formErrors == old(formErrors)
      ensures isSubmitting == old(isSubmitting) && posted == old(posted)
    {
      submitSuccess := false;
    }

    /** The timer five seconds after a failure: the `submit` message becomes
        empty and the other messages stay. */
    method SubmitErrorShown()
      modifies this
      ensures formErrors == old(formErrors).(submit := "")
      ensures formData == old(formData) && submitSuccess == old(submitSuccess)
      ensures isSubmitting == old(isSubmitting) && posted == old(posted)
    {
      formErrors := formErrors.(submit := "");
    }
  }
}
