/** The contact form: field edits, the submission through the e-mail
    service, the status box and the submit button. The e-mail service call
    is a parameter: `sendOk` says whether it resolved or threw. */
module Contact {

  /** The four controlled inputs, named as their `name` attributes. */
  datatype Field = Name | Email | Subject | Message

  datatype Form = Form(name: string, email: string, subject: string, message: string)

  const EmptyForm := Form("", "", "", "")

  /** The value of one input. */
  function Get(f: Form, field: Field): string {
    match field
    case Name => f.name
    case Email => f.email
    case Subject => f.subject
    case Message => f.message
  }

  /** `handleChange`: the edited input takes the typed value and every other
      input keeps its own. */
  function HandleChange(f: Form, field: Field, value: string): (r: Form)
    ensures Get(r, field) == value
    ensures forall g :: g != field ==> Get(r, g) == Get(f, g)
  {
    match field
    case Name => f.(name := value)
    case Email => f.(email := value)
    case Subject => f.(subject := value)
    case Message => f.(message := value)
  }

  /** Two forms agreeing on every input are the same form. */
  lemma FormsAgree(f: Form, g: Form)
    requires forall field :: Get(f, field) == Get(g, field)
    ensures f == g
  {
    assert Get(f, Name) == Get(g, Name) && Get(f, Email) == Get(g, Email);
    assert Get(f, Subject) == Get(g, Subject) && Get(f, Message) == Get(g, Message);
  }

  /** Edits to different inputs commute, and a later edit to the same input
      overrides an earlier one. */
  lemma EditsCommute(f: Form, a: Field, x: string, b: Field, y: string)
    ensures a != b ==> HandleChange(HandleChange(f, a, x), b, y) == HandleChange(HandleChange(f, b, y), a, x)
    ensures HandleChange(HandleChange(f, a, x), a, y) == HandleChange(f, a, y)
  {
    if a != b {
      FormsAgree(HandleChange(HandleChange(f, a, x), b, y), HandleChange(HandleChange(f, b, y), a, x));
    }
    FormsAgree(HandleChange(HandleChange(f, a, x), a, y), HandleChange(f, a, y));
  }

  /** The address every message is sent to. */
  const OwnerEmail := "ezouekhamza2411@gmail.com"

  /** The template parameters handed to the e-mail service. */
  datatype EmailParams = EmailParams(fromName: string, fromEmail: string, subject: string, message: string, toEmail: string)

  function Payload(f: Form): (p: EmailParams)
    ensures p.toEmail == OwnerEmail
  {
    EmailParams(f.name, f.email, f.subject, f.message, OwnerEmail)
  }

  /** Nothing typed is lost in the payload: the form can be read back from
      it, and two different forms give two different payloads. */
  function FormOf(p: EmailParams): Form {
    Form(p.fromName, p.fromEmail, p.subject, p.message)
  }

  lemma PayloadRoundTrip(f: Form, g: Form)
    ensures FormOf(Payload(f)) == f
    ensures Payload(f) == Payload(g) ==> f == g
  {
  }

  /** `{ type, message }`; the type is '', 'success' or 'error'. */
  datatype Status = Status(kind: string, message: string)

  const NoStatus := Status("", "")
  const SuccessMessage := "Message envoyé avec succès ! Je vous répondrai bientôt."
  const ErrorMessage := "Une erreur est survenue. Veuillez réessayer ou me contacter directement par email."

  datatype ContactState = ContactState(form: Form, loading: bool, status: Status)

  const Initial := ContactState(EmptyForm, false, NoStatus)

  /** The browser only fires the submit event when every `required` input
      is filled in and the submit button is enabled. E-mail syntax checking
      by the browser is not modelled. */
  predicate CanSubmit(s: ContactState) {
    !s.loading && forall field :: Get(s.form, field) != ""
  }

  /** The synchronous start of `handleSubmit`: loading on, status cleared.
      The result also carries the parameters sent to the service. */
  function BeginSubmit(s: ContactState): (r: (ContactState, EmailParams))
    ensures r.0.loading && r.0.status == NoStatus && r.0.form == s.form
    ensures r.1 == Payload(s.form)
  {
    (s.(loading := true, status := NoStatus), Payload(s.form))
  }

  /** The end of `handleSubmit` once the service settles: on success the
      success text is shown and the form emptied; on failure the error text is
      shown and the form kept for another try. Loading is off either way. */
  function FinishSubmit(s: ContactState, sendOk: bool): (r: ContactState)
    ensures !r.loading
    ensures sendOk ==> r.status == Status("success", SuccessMessage) && r.form == EmptyForm
    ensures !sendOk ==> r.status == Status("error", ErrorMessage) && r.form == s.form
  {
    if sendOk then ContactState(EmptyForm, false, Status("success", SuccessMessage))
    else s.(loading := false, status := Status("error", ErrorMessage))
  }

  /** The whole handler. */
  function Submit(s: ContactState, sendOk: bool): (r: (ContactState, EmailParams))
    ensures r.1 == Payload(s.form)
    ensures !r.0.loading
  {
    var (pending, params) := BeginSubmit(s);
    (FinishSubmit(pending, sendOk), params)
  }

  /** The status box is shown exactly when the status text is non-empty,
      styled as a success exactly when the type is 'success'. */
  predicate StatusVisible(s: ContactState) {
    s.status.message != ""
  }

  predicate StatusIsSuccess(s: ContactState) {
    s.status.kind == "success"
  }

  /** The submit button's text. */
  function SubmitLabel(s: ContactState): (text: string)
    ensures s.loading <==> text == "Envoi en cours..."
    ensures !s.loading <==> text == "Envoyer le message"
  {
    if s.loading then "Envoi en cours..." else "Envoyer le message"
  }

  /** While the service call is pending the status box is hidden and the
      button is disabled, so no second submission can start. */
  lemma PendingHidesStatus(s: ContactState)
    ensures !StatusVisible(BeginSubmit(s).0)
    ensures !CanSubmit(BeginSubmit(s).0)
  {
  }

  /** After a submission the status box always shows, in the success style
      exactly when the service succeeded, and the form is submittable again
      exactly when it was kept and still complete. */
  lemma SubmitOutcome(s: ContactState, sendOk: bool)
    ensures StatusVisible(Submit(s, sendOk).0)
    ensures StatusIsSuccess(Submit(s, sendOk).0) <==> sendOk
    ensures sendOk ==> Submit(s, sendOk).0.form == EmptyForm && !CanSubmit(Submit(s, sendOk).0)
    ensures !sendOk ==> Submit(s, sendOk).0.form == s.form
  {
    if sendOk {
      assert Get(Submit(s, sendOk).0.form, Name) == "";
    }
  }

  /** A failed submission can be retried unchanged: the retry sends exactly
      the same parameters. */
  lemma RetrySendsSamePayload(s: ContactState, firstOk: bool)
    requires !firstOk
    ensures Submit(Submit(s, firstOk).0, true).1 == Submit(s, firstOk).1
  {
  }
}
