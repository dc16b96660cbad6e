/**
 * The contact form controller of the Contact component
 * (src/components/Contact.tsx:250-322, 463-471): a four-field draft and an
 * `isSubmitting` flag, updated by the input handler and the submit handler.
 *
 * The submit handler awaits a collaborator; the await is modelled as two
 * steps, `BeginSubmit` (up to the call) and `FinishSubmit` (after it), so
 * that input events may happen in between, and `HandleSubmit` runs both with
 * the collaborator given as a function. The `alert` text is kept in the
 * field `notice`.
 */
module ContactForm {
  import opened Wrappers

  datatype FieldName = Name | Email | Subject | Message

  /** The draft `formData` of the form. */
  datatype Draft = Draft(name: string, email: string, subject: string, message: string) {

    function Get(f: FieldName): string {
      match f
      case Name => name
      case Email => email
      case Subject => subject
      case Message => message
    }

    /** `{ ...formData, [f]: v }`. */
    function With(f: FieldName, v: string): (d: Draft)
      ensures d.Get(f) == v
      ensures forall g :: g != f ==> d.Get(g) == Get(g)
    {
      match f
      case Name => this.(name := v)
      case Email => this.(email := v)
      case Subject => this.(subject := v)
      case Message => this.(message := v)
    }
  }

  const EmptyDraft := Draft("", "", "", "")

  /** What the submission collaborator resolves with. */
  datatype SubmitResult = SubmitResult(success: bool, message: string)

  /** The collaborator either resolves with a result or throws. */
  datatype ApiOutcome = Resolved(result: SubmitResult) | Threw

  const FailureNotice := "Failed to send message. Please try again."
  const SendingLabel := "Sending..."
  const IdleLabel := "Send Message"

  predicate Succeeded(outcome: ApiOutcome) {
    outcome.Resolved? && outcome.result.success
  }

  /** The draft and the alert text after the collaborator's outcome. */
  datatype Settlement = Settlement(draft: Draft, notice: string)

  /**
   * The branch of the submit handler after the await: a successful result
   * clears the draft and shows the result's message; a failed result or a
   * throw keeps the draft and shows the generic failure text.
   */
  function Settle(draft: Draft, outcome: ApiOutcome): (s: Settlement)
    ensures Succeeded(outcome) ==> forall f :: s.draft.Get(f) == ""
    ensures Succeeded(outcome) ==> s.notice == outcome.result.message
    ensures !Succeeded(outcome) ==> s.draft == draft && s.notice == FailureNotice
  {
    if Succeeded(outcome) then Settlement(EmptyDraft, outcome.result.message)
    else Settlement(draft, FailureNotice)
  }

  /**
   * The only collaborator of the source, `submitContactForm` of the
   * WordPress service: it resolves with success whatever the draft.
   */
  function WordPressSubmit(d: Draft): (o: ApiOutcome)
    ensures Succeeded(o)
    ensures o.result.message == "Thank you for your message! I'll get back to you soon."
  {
    Resolved(SubmitResult(true, "Thank you for your message! I'll get back to you soon."))
  }

  /** With the shipped collaborator every submit clears the draft. */
  lemma ShippedCollaboratorClears(d: Draft)
    ensures Settle(d, WordPressSubmit(d)).draft == EmptyDraft
    ensures Settle(d, WordPressSubmit(d)).notice
      == "Thank you for your message! I'll get back to you soon."
  {
  }

  /** The submit button: disabled and labelled while a submission is in flight. */
  datatype Button = Button(disabled: bool, text: string)

  function SubmitButton(isSubmitting: bool): (b: Button)
    ensures b.disabled <==> isSubmitting
    ensures b.text == SendingLabel <==> isSubmitting
    ensures b.text == IdleLabel <==> !isSubmitting
  {
    Button(isSubmitting, if isSubmitting then SendingLabel else IdleLabel)
  }

  class Controller {
    var formData: Draft
    var isSubmitting: bool
    /** The last alert shown, if any. */
    var notice: Option<string>

    constructor ()
      ensures formData == EmptyDraft && !isSubmitting && notice == None
    {
      formData := EmptyDraft;
      isSubmitting := false;
      notice := None;
    }

    /** `handleInputChange`: overwrite one field, leave the rest. */
    method HandleInputChange(f: FieldName, v: string)
      modifies this
      ensures formData.Get(f) == v
      ensures forall g :: g != f ==> formData.Get(g) == old(formData).Get(g)
      ensures isSubmitting == old(isSubmitting) && notice == old(notice)
    {
      formData := formData.With(f, v);
    }

    /** The submit handler up to the await: raise the flag, hand over the draft. */
    method BeginSubmit() returns (payload: Draft)
      modifies this
      ensures payload == old(formData)
      ensures isSubmitting
      ensures formData == old(formData) && notice == old(notice)
    {
      isSubmitting := true;
      payload := formData;
    }

    /** The submit handler after the await, including its `finally`. */
    method FinishSubmit(outcome: ApiOutcome)
      modifies this
      ensures formData == Settle(old(formData), outcome).draft
      ensures notice == Some(Settle(old(formData), outcome).notice)
      ensures !isSubmitting
    {
      var settled := Settle(formData, outcome);
      formData := settled.draft;
      notice := Some(settled.notice);
      isSubmitting := false;
    }

    /**
     * `handleSubmit` with no input event during the await: the collaborator
     * receives the draft as it was at submit time.
     */
    method HandleSubmit(api: Draft -> ApiOutcome) returns (payload: Draft)
      modifies this
      ensures payload == old(formData)
      ensures Succeeded(api(payload)) ==> formData == EmptyDraft
      ensures !Succeeded(api(payload)) ==> formData == old(formData)
      ensures notice == Some(Settle(old(formData), api(payload)).notice)
      ensures !isSubmitting
    {
      payload := BeginSubmit();
      FinishSubmit(api(payload));
    }

    /** The button as rendered from the current state. */
    function RenderedButton(): (b: Button)
      reads this
      ensures b.disabled <==> isSubmitting
    {
      SubmitButton(isSubmitting)
    }
  }
}
