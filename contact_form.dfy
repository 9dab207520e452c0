/**
 * The contact page's form controller (`src/pages/Contact.jsx`): the form
 * state, the client-side checks, the five-attempt cap, and the state changes
 * when the POST to `/api/contact` completes and when the five-second timer
 * clears the banner. The asynchronous `handleSubmit` is split at its `await`:
 * `Submit` is the part up to sending the request, `Complete` the part after
 * the reply (or the failure) arrives, `TimerFires` the timer's callback.
 */
module ContactForm {
  import opened Wrappers
  import EmailShape
  import Text

  const MaxAttempts: nat := 5
  const MinMessageLength: nat := 10
  const ContactUrl := "https://yousuf.sh/contact"

  const AllRequired := "All fields are required"
  const InvalidEmail := "Please enter a valid email address"
  const TooShort := "Message must be at least 10 characters long"
  const TooManyAttempts := "Too many attempts. Please try again later."
  const GenericFailure := "Something went wrong"
  const NetworkFailure := "Failed to send message. Please try again."

  datatype FormData = FormData(name: string, email: string, subject: string, message: string, ip: string, url: string)

  /** The form's four inputs, by their `name` attribute. */
  datatype FieldName = Name | Email | Subject | Message

  /** `submitStatus`: `null`, `'success'` or `'error'`. */
  datatype Status = Idle | Success | Failure

  /** How the request ended: a reply with `response.ok` and the body's `message` (`""` when absent), or a thrown error and its message. */
  datatype FetchOutcome = Responded(ok: bool, message: string) | Threw(message: string)

  const InitialForm := FormData("", "", "", "", "", ContactUrl)

  /** `{ ...formData, [name]: value }`. */
  function WithField(f: FormData, field: FieldName, value: string): (r: FormData)
    ensures r.ip == f.ip && r.url == f.url
    ensures r.name == (if field == Name then value else f.name)
    ensures r.email == (if field == Email then value else f.email)
    ensures r.subject == (if field == Subject then value else f.subject)
    ensures r.message == (if field == Message then value else f.message)
  {
    match field
    case Name => f.(name := value)
    case Email => f.(email := value)
    case Subject => f.(subject := value)
    case Message => f.(message := value)
  }

  predicate AllFilled(f: FormData) {
    f.name != "" && f.email != "" && f.subject != "" && f.message != ""
  }

  /**
   * `validateForm`: the first failing check's message, in the order the
   * source checks them, or `None` when the form may be sent.
   */
  function Validate(f: FormData): (r: Option<string>)
    ensures r.None? <==> AllFilled(f) && EmailShape.MatchesRegex(f.email) && |f.message| >= MinMessageLength
    ensures !AllFilled(f) ==> r == Some(AllRequired)
    ensures AllFilled(f) && !EmailShape.MatchesRegex(f.email) ==> r == Some(InvalidEmail)
    ensures AllFilled(f) && EmailShape.MatchesRegex(f.email) && |f.message| < MinMessageLength ==> r == Some(TooShort)
  {
    if !AllFilled(f) then Some(AllRequired)
    else if !EmailShape.IsValidEmail(f.email) then Some(InvalidEmail)
    else if |f.message| < MinMessageLength then Some(TooShort)
    else None
  }

  /** A form that passes the checks carries an address with no whitespace and exactly one `@`, after a non-empty local part. */
  lemma AcceptedFormShape(f: FormData)
    requires Validate(f).None?
    ensures f.name != "" && f.subject != "" && |f.message| >= MinMessageLength
    ensures Text.NoWhitespace(f.email)
    ensures exists at :: 0 < at < |f.email| && f.email[at] == '@'
                         && forall i :: 0 <= i < |f.email| && i != at ==> f.email[i] != '@'
  {
    EmailShape.ValidEmailShape(f.email);
  }

  predicate Succeeded(outcome: FetchOutcome) {
    outcome.Responded? && outcome.ok
  }

  /**
   * The banner text after a failed request: the server's `message` when it
   * sent one, otherwise the fallback for a failed reply or for a thrown error.
   */
  function FailureMessage(outcome: FetchOutcome): (m: string)
    requires !Succeeded(outcome)
    ensures m != ""
    ensures outcome.message != "" ==> m == outcome.message
    ensures outcome.message == "" && outcome.Responded? ==> m == GenericFailure
    ensures outcome.message == "" && outcome.Threw? ==> m == NetworkFailure
  {
    if outcome.message != "" then outcome.message
    else if outcome.Responded? then GenericFailure
    else NetworkFailure
  }

  class ContactPage {
    var formData: FormData
    var isSubmitting: bool
    var submitStatus: Status
    var errorMessage: string
    var submitCount: nat
    /** The payloads posted so far, in order. */
    ghost var requestsSent: seq<FormData>

    /** Every accepted submission sends exactly one request, and at most five are accepted. */
    ghost predicate Valid()
      reads this
    {
      |requestsSent| == submitCount <= MaxAttempts
    }

    constructor ()
      ensures Valid()
      ensures formData == InitialForm && !isSubmitting && submitStatus == Idle
      ensures errorMessage == "" && submitCount == 0 && requestsSent == []
    {
      formData := InitialForm;
      isSubmitting := false;
      submitStatus := Idle;
      errorMessage := "";
      submitCount := 0;
      requestsSent := [];
    }

    /** `handleChange`: store the typed value and clear any error banner. */
    method HandleChange(field: FieldName, value: string)
      requires Valid()
      modifies this
      ensures Valid()
      ensures formData == WithField(old(formData), field, value)
      ensures errorMessage == ""
      ensures isSubmitting == old(isSubmitting) && submitStatus == old(submitStatus)
      ensures submitCount == old(submitCount) && requestsSent == old(requestsSent)
    {
      formData := WithField(formData, field, value);
      if errorMessage != "" {
        errorMessage := "";
      }
    }

    /** `validateForm`: on failure the message is shown; on success nothing changes. */
    method ValidateForm() returns (ok: bool)
      modifies this
      ensures ok <==> Validate(formData).None?
      ensures errorMessage == if ok then old(errorMessage) else Validate(formData).value
      ensures formData == old(formData) && isSubmitting == old(isSubmitting) && submitStatus == old(submitStatus)
      ensures submitCount == old(submitCount) && requestsSent == old(requestsSent)
    {
      var result := Validate(formData);
      if result.Some? {
        errorMessage := result.value;
        return false;
      }
      return true;
    }

    /**
     * `handleSubmit` up to the request: refused after five accepted attempts
     * or when a check fails; otherwise the current form is posted and counted.
     */
    method Submit() returns (posted: Option<FormData>)
      requires Valid()
      modifies this
      ensures Valid()
      ensures posted.Some? <==> old(submitCount) < MaxAttempts && Validate(old(formData)).None?
      ensures posted.Some? ==>
                && posted.value == old(formData)
                && isSubmitting && submitCount == old(submitCount) + 1
                && requestsSent == old(requestsSent) + [old(formData)]
                && errorMessage == old(errorMessage)
      ensures posted.None? ==>
                && isSubmitting == old(isSubmitting) && submitCount == old(submitCount)
                && requestsSent == old(requestsSent)
                && errorMessage == if old(submitCount) >= MaxAttempts then TooManyAttempts
                                   else Validate(old(formData)).value
      ensures formData == old(formData) && submitStatus == old(submitStatus)
    {
      if submitCount >= MaxAttempts {
        errorMessage := TooManyAttempts;
        return None;
      }
      var ok := ValidateForm();
      if !ok {
        return None;
      }
      isSubmitting := true;
      submitCount := submitCount + 1;
      requestsSent := requestsSent + [formData];
      posted := Some(formData);
    }

    /**
     * `handleSubmit` after the request: success shows the confirmation and
     * resets the form; a failed reply or a thrown error shows its message and
     * keeps what was typed. The spinner stops either way.
     */
    method Complete(outcome: FetchOutcome)
      requires Valid()
      modifies this
      ensures Valid()
      ensures !isSubmitting
      ensures Succeeded(outcome) ==>
                submitStatus == Success && formData == InitialForm && errorMessage == old(errorMessage)
      ensures !Succeeded(outcome) ==>
                submitStatus == Failure && formData == old(formData) && errorMessage == FailureMessage(outcome)
      ensures submitCount == old(submitCount) && requestsSent == old(requestsSent)
    {
      if Succeeded(outcome) {
        submitStatus := Success;
        formData := InitialForm;
      } else {
        submitStatus := Failure;
        errorMessage := FailureMessage(outcome);
      }
      isSubmitting := false;
    }

    /** The five-second timer set when a request completes: the banner and its message are cleared. */
    method TimerFires()
      requires Valid()
      modifies this
      ensures Valid()
      ensures submitStatus == Idle && errorMessage == ""
      ensures formData == old(formData) && isSubmitting == old(isSubmitting)
      ensures submitCount == old(submitCount) && requestsSent == old(requestsSent)
    {
      submitStatus := Idle;
      errorMessage := "";
    }
  }
}
