/**
 * The contact form (components/sections/contact-section.tsx): its validation
 * schema and the simulated submission, which sends nothing anywhere.
 */
module ContactForm {
  import opened Validation
  import JsString

  datatype ContactValues = ContactValues(name: string, email: string, subject: string, message: string)

  const NameMessage: string := "Name must be at least 2 characters."
  const EmailMessage: string := "Please enter a valid email address."
  const SubjectMessage: string := "Subject must be at least 5 characters."
  const MessageMessage: string := "Message must be at least 10 characters."

  /** `defaultValues`: every field empty. */
  const DefaultValues: ContactValues := ContactValues("", "", "", "")

  /**
   * `formSchema`: the errors zod reports, one per failing field in field order.
   * `isEmail` stands for zod's e-mail check, which this model keeps abstract.
   */
  function Validate(v: ContactValues, isEmail: string -> bool): (errors: seq<FieldError>)
    ensures errors == [] <==> JsString.Length(v.name) >= 2 && isEmail(v.email) && JsString.Length(v.subject) >= 5 && JsString.Length(v.message) >= 10
    ensures FieldError("name", NameMessage) in errors <==> JsString.Length(v.name) < 2
    ensures FieldError("email", EmailMessage) in errors <==> !isEmail(v.email)
    ensures FieldError("subject", SubjectMessage) in errors <==> JsString.Length(v.subject) < 5
    ensures FieldError("message", MessageMessage) in errors <==> JsString.Length(v.message) < 10
    ensures forall e :: e in errors ==>
              e in [FieldError("name", NameMessage), FieldError("email", EmailMessage),
                    FieldError("subject", SubjectMessage), FieldError("message", MessageMessage)]
    ensures NoRepeats(errors)
  {
    var name := MinLength("name", v.name, 2, NameMessage);
    var email := Check("email", isEmail(v.email), EmailMessage);
    var subject := MinLength("subject", v.subject, 5, SubjectMessage);
    var message := MinLength("message", v.message, 10, MessageMessage);
    JoinChecks(name, email, subject, message, FieldError("name", NameMessage),
               FieldError("email", EmailMessage), FieldError("subject", SubjectMessage),
               FieldError("message", MessageMessage));
    name + email + subject + message
  }

  /**
   * The empty form does not validate, whatever the e-mail check says:
   * name, subject and message are all too short.
   */
  lemma DefaultsRejected(isEmail: string -> bool)
    ensures Validate(DefaultValues, isEmail) != []
    ensures FieldError("name", NameMessage) in Validate(DefaultValues, isEmail)
    ensures FieldError("subject", SubjectMessage) in Validate(DefaultValues, isEmail)
    ensures FieldError("message", MessageMessage) in Validate(DefaultValues, isEmail)
  {
  }

  /** A name of one emoji is two UTF-16 code units long, so it passes the two-character minimum. */
  lemma EmojiNameLongEnough(v: ContactValues)
    requires v.name == "\U{1F600}"
    ensures FieldError("name", NameMessage) !in Validate(v, _ => true)
  {
    JsString.SurrogatePairsOrderAndCount();
  }

  /**
   * The form's state: its field values, the errors shown, `isSubmitting`, and
   * the form library's `isSubmitted` (whether a submission was attempted
   * since the last reset).
   */
  class ContactFormState {
    var values: ContactValues
    var errors: seq<FieldError>
    var isSubmitting: bool
    var isSubmitted: bool

    constructor ()
      ensures values == DefaultValues && errors == [] && !isSubmitting && !isSubmitted
    {
      values := DefaultValues;
      errors := [];
      isSubmitting := false;
      isSubmitted := false;
    }

    /**
     * The visitor edits the fields. Before the first submission nothing is
     * validated; after it, every change is validated again and the errors
     * shown follow the new values.
     */
    method Edit(v: ContactValues, isEmail: string -> bool)
      modifies this
      ensures values == v && isSubmitting == old(isSubmitting) && isSubmitted == old(isSubmitted)
      ensures isSubmitted ==> errors == Validate(v, isEmail)
      ensures !isSubmitted ==> errors == old(errors)
    {
      values := v;
      if isSubmitted {
        errors := Validate(v, isEmail);
      }
    }

    /**
     * A press of the submit button (`form.handleSubmit(onSubmit)`). While a
     * submission is pending the button is disabled and nothing happens.
     * Otherwise the values are validated; only valid values reach `onSubmit`,
     * which sets `isSubmitting` and uses the values for nothing.
     */
    method Submit(isEmail: string -> bool) returns (accepted: bool)
      modifies this
      ensures values == old(values)
      ensures old(isSubmitting) ==> !accepted && isSubmitting && errors == old(errors) && isSubmitted == old(isSubmitted)
      ensures !old(isSubmitting) ==> errors == Validate(values, isEmail) && accepted == (errors == []) && isSubmitted
      ensures isSubmitting == (old(isSubmitting) || accepted)
    {
      if isSubmitting {
        accepted := false;
      } else {
        isSubmitted := true;
        errors := Validate(values, isEmail);
        accepted := errors == [];
        if accepted {
          isSubmitting := true;
        }
      }
    }

    /** The timer callback: submission ends and `form.reset()` restores the defaults. */
    method FinishSending()
      modifies this
      ensures !isSubmitting && !isSubmitted && values == DefaultValues && errors == []
    {
      isSubmitting := false;
      isSubmitted := false;
      values := DefaultValues;
      errors := [];
    }

    /** The submit button's label; the button is disabled exactly while it reads "Sending...". */
    function ButtonLabel(): (caption: string)
      reads this
      ensures caption == "Sending..." <==> isSubmitting
      ensures caption == "Send Message" <==> !isSubmitting
    {
      if isSubmitting then "Sending..." else "Send Message"
    }
  }

  /**
   * A whole round: valid values are accepted, a second press while pending is
   * ignored, and completion leaves the form as it started. The values typed
   * are not kept anywhere.
   */
  method SendOnce(form: ContactFormState, v: ContactValues, isEmail: string -> bool)
    requires !form.isSubmitting && Validate(v, isEmail) == []
    modifies form
    ensures form.values == DefaultValues && form.errors == [] && !form.isSubmitting && !form.isSubmitted
  {
    form.Edit(v, isEmail);
    var first := form.Submit(isEmail);
    assert first && form.ButtonLabel() == "Sending...";
    var second := form.Submit(isEmail);
    assert !second;
    form.FinishSending();
  }

  /**
   * After a rejected press the errors stay on screen, and correcting the
   * values clears them without another press.
   */
  method CorrectAfterRejection(form: ContactFormState, bad: ContactValues, good: ContactValues, isEmail: string -> bool)
    requires !form.isSubmitting && Validate(bad, isEmail) != [] && Validate(good, isEmail) == []
    modifies form
    ensures form.values == good && form.errors == [] && !form.isSubmitting
  {
    form.Edit(bad, isEmail);
    var accepted := form.Submit(isEmail);
    assert !accepted && form.errors != [];
    form.Edit(good, isEmail);
  }
}
