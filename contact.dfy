/**
 * The contact form controller: four text fields validated on submit only, errors
 * cleared on edit, and a simulated send that shows a success banner for a while.
 * The two `setTimeout` continuations are explicit events; timers are counted, not timed.
 */
module Contact {
  import opened Common
  import opened Text

  /** The `name` attribute of each input; `handleChange` keys both maps by it. */
  datatype Field = Name | Email | Subject | Message

  const AllFields: set<Field> := {Name, Email, Subject, Message}

  /** The values of the four inputs. */
  datatype FormData = FormData(name: string, email: string, subject: string, message: string) {

    function Get(f: Field): string {
      match f
      case Name => name
      case Email => email
      case Subject => subject
      case Message => message
    }

    /** `{ ...prev, [f]: v }`: field `f` becomes `v`, every other field keeps its value. */
    function With(f: Field, v: string): (r: FormData)
      ensures r.Get(f) == v
      ensures forall g :: g != f ==> r.Get(g) == Get(g)
    {
      match f
      case Name => this.(name := v)
      case Email => this.(email := v)
      case Subject => this.(subject := v)
      case Message => this.(message := v)
    }
  }

  /** `initialFormData`: every field empty. */
  const InitialFormData := FormData("", "", "", "")

  const NameRequired := "Name is required"
  const EmailRequired := "Email is required"
  const EmailInvalid := "Email address is invalid"
  const SubjectRequired := "Subject is required"
  const MessageRequired := "Message is required"
  const SuccessMessage := "Your message has been sent successfully! We'll get back to you soon."

  /** The message shown when a field is empty after trimming. */
  function RequiredMessage(f: Field): string {
    match f
    case Name => NameRequired
    case Email => EmailRequired
    case Subject => SubjectRequired
    case Message => MessageRequired
  }

  /**
   * The outcome of the one check that looks at field `f` holding `v`: blank after
   * trimming, or, for the e-mail field only, no occurrence of the lenient pattern.
   */
  ghost function Check(f: Field, v: string): Option<string> {
    if AllSpace(v) then Some(RequiredMessage(f))
    else if f == Email && !PatternOccurs(v) then Some(EmailInvalid)
    else None
  }

  /**
   * Reference definition of the error map `validateForm` installs: one entry per
   * failing field, each decided by that field's value alone.
   */
  ghost function Errors(d: FormData): map<Field, string> {
    map f | f in AllFields && Check(f, d.Get(f)).Some? :: Check(f, d.Get(f)).value
  }

  /** The `submitResult` banner; the controller only ever builds the successful one. */
  datatype SubmitResult = SubmitResult(success: bool, message: string)

  const SuccessResult := SubmitResult(true, SuccessMessage)

  /** The error of a field depends on that field's value alone: no check short-circuits another. */
  lemma ChecksAreIndependent(d: FormData, d': FormData, f: Field)
    requires d.Get(f) == d'.Get(f)
    ensures f in Errors(d) <==> f in Errors(d')
    ensures f in Errors(d) ==> Errors(d)[f] == Errors(d')[f]
  {
  }

  /** Submitting the empty form reports all four fields at once. */
  lemma {:induction false} EmptyFormHasFourErrors()
    ensures Errors(InitialFormData)
      == map[Name := NameRequired, Email := EmailRequired, Subject := SubjectRequired, Message := MessageRequired]
  {
    var errs := Errors(InitialFormData);
    var expected := map[Name := NameRequired, Email := EmailRequired, Subject := SubjectRequired, Message := MessageRequired];
    ErrorsByField(InitialFormData);
    forall f ensures f in errs <==> f in expected {
      assert InitialFormData.Get(f) == "";
    }
  }

  /**
   * Name, subject and message are rejected exactly when they are blank, which
   * includes whitespace-only values, since they are trimmed before the test.
   */
  lemma BlankFieldRejected(d: FormData, f: Field)
    requires f != Email
    ensures f in Errors(d) <==> AllSpace(d.Get(f))
    ensures f in Errors(d) ==> Errors(d)[f] == RequiredMessage(f)
  {
    InAllFields(f);
  }

  /**
   * The e-mail field has three mutually exclusive outcomes: blank after trimming,
   * otherwise tested as entered (untrimmed) against the lenient pattern.
   */
  lemma EmailOutcomes(d: FormData)
    ensures AllSpace(d.email) ==> Email in Errors(d) && Errors(d)[Email] == EmailRequired
    ensures !AllSpace(d.email) && !PatternOccurs(d.email) ==> Email in Errors(d) && Errors(d)[Email] == EmailInvalid
    ensures !AllSpace(d.email) && PatternOccurs(d.email) ==> Email !in Errors(d)
  {
    InAllFields(Email);
  }

  /** Every field is one of the four the form validates. */
  lemma InAllFields(f: Field)
    ensures f in AllFields
  {
    match f
    case Name =>
    case Email =>
    case Subject =>
    case Message =>
  }

  /** The error map `errors` after one `if` of `validateForm`: the entry for `f`, if it failed. */
  function Put(errors: map<Field, string>, f: Field, outcome: Option<string>): map<Field, string> {
    if outcome.Some? then errors[f := outcome.value] else errors
  }

  /** The error map, field by field. */
  lemma ErrorsByField(d: FormData)
    ensures forall f :: f in Errors(d) <==> Check(f, d.Get(f)).Some?
    ensures forall f | f in Errors(d) :: Errors(d)[f] == Check(f, d.Get(f)).value
  {
    forall f ensures f in AllFields {
      InAllFields(f);
    }
  }

  /**
   * Recording the four checks one after another, as `validateForm` does, yields the
   * reference error map.
   */
  lemma SequentialChecksGiveErrors(d: FormData)
    ensures Errors(d) == Put(Put(Put(Put(map[], Name, Check(Name, d.name)), Email, Check(Email, d.email)),
                                 Subject, Check(Subject, d.subject)), Message, Check(Message, d.message))
  {
    var r := Put(Put(Put(Put(map[], Name, Check(Name, d.name)), Email, Check(Email, d.email)),
                     Subject, Check(Subject, d.subject)), Message, Check(Message, d.message));
    ErrorsByField(d);
    forall f ensures (f in r <==> f in Errors(d)) && (f in r ==> r[f] == Errors(d)[f]) {
      match f
      case Name =>
      case Email =>
      case Subject =>
      case Message =>
    }
  }

  /** The form is valid, i.e. the error map is empty, exactly when every check passes. */
  lemma NoErrorsIffAllPass(d: FormData)
    ensures Errors(d) == map[] <==> forall f :: Check(f, d.Get(f)).None?
    ensures Errors(d) == map[] <==> Check(Name, d.name).None? && Check(Email, d.email).None?
                                    && Check(Subject, d.subject).None? && Check(Message, d.message).None?
  {
    ErrorsByField(d);
    if Errors(d) == map[] {
      forall f ensures Check(f, d.Get(f)).None? {
        assert f !in Errors(d);
      }
    }
    assert Name in Errors(d) <==> Check(Name, d.name).Some?;
    assert Email in Errors(d) <==> Check(Email, d.email).Some?;
    assert Subject in Errors(d) <==> Check(Subject, d.subject).Some?;
    assert Message in Errors(d) <==> Check(Message, d.message).Some?;
  }

  /** Every message the checks produce is non-empty, so truthy where the form tests it. */
  lemma ErrorMessagesPresent(d: FormData)
    ensures forall f | f in Errors(d) :: Errors(d)[f] != ""
  {
    forall f | f in Errors(d) ensures Errors(d)[f] != "" {
      match f
      case Name => assert NameRequired[0] == 'N';
      case Email =>
        assert EmailRequired[0] == 'E' && EmailInvalid[0] == 'E';
      case Subject => assert SubjectRequired[0] == 'S';
      case Message => assert MessageRequired[0] == 'M';
    }
  }

  /** `if (!value.trim()) { errors[f] = "... is required"; isValid = false; }` */
  method RequireFilled(errors: map<Field, string>, isValid: bool, f: Field, v: string)
    returns (errors': map<Field, string>, isValid': bool)
    requires f != Email
    ensures errors' == Put(errors, f, Check(f, v))
    ensures isValid' <==> isValid && Check(f, v).None?
  {
    errors', isValid' := errors, isValid;
    var blank := IsBlank(v);
    if blank {
      errors' := errors'[f := RequiredMessage(f)];
      isValid' := false;
    }
  }

  /** The e-mail `if`/`else if`: blank after trimming, else the untrimmed value must match the pattern. */
  method RequireEmail(errors: map<Field, string>, isValid: bool, v: string)
    returns (errors': map<Field, string>, isValid': bool)
    ensures errors' == Put(errors, Email, Check(Email, v))
    ensures isValid' <==> isValid && Check(Email, v).None?
  {
    errors', isValid' := errors, isValid;
    var blank := IsBlank(v);
    if blank {
      errors' := errors'[Email := EmailRequired];
      isValid' := false;
    } else {
      var matches := TestEmailPattern(v);
      if !matches {
        errors' := errors'[Email := EmailInvalid];
        isValid' := false;
      }
    }
  }

  /** The state slots of `ContactSection` and the timeouts it has scheduled. */
  class ContactSection {
    var formData: FormData
    var formErrors: map<Field, string>
    var isSubmitting: bool
    var submitResult: Option<SubmitResult>
    /** 1500 ms "send" timeouts scheduled and not yet fired. */
    var pendingSends: nat
    /** 5000 ms "clear the banner" timeouts scheduled and not yet fired. */
    var pendingClears: nat

    /** Every stored error is a non-empty (truthy) message; the banner, when shown, is the success one. */
    ghost predicate Valid()
      reads this
    {
      (forall f | f in formErrors :: formErrors[f] != "")
      && (submitResult.Some? ==> submitResult.value == SuccessResult)
      && (isSubmitting ==> pendingSends > 0)
    }

    /** Mount: empty form, no errors, not submitting, no banner, no timeouts. */
    constructor ()
      ensures Valid()
      ensures formData == InitialFormData && formErrors == map[]
      ensures !isSubmitting && submitResult == None
      ensures pendingSends == 0 && pendingClears == 0
    {
      formData := InitialFormData;
      formErrors := map[];
      isSubmitting := false;
      submitResult := None;
      pendingSends := 0;
      pendingClears := 0;
    }

    /**
     * The submit button is disabled while a submission is in flight, and then a
     * send is always scheduled whose continuation will enable it again.
     */
    function SubmitDisabled(): (disabled: bool)
      reads this
      requires Valid()
      ensures disabled <==> isSubmitting
      ensures disabled ==> pendingSends > 0
    {
      isSubmitting
    }

    /**
     * `handleChange`: store the new value and optimistically drop that field's error,
     * whatever the new value is; nothing is re-validated.
     */
    method HandleChange(f: Field, v: string)
      requires Valid()
      modifies this`formData, this`formErrors
      ensures Valid()
      ensures formData == old(formData).With(f, v)
      ensures formErrors == old(formErrors) - {f}
    {
      formData := formData.With(f, v);
      if f in formErrors && formErrors[f] != "" {
        formErrors := formErrors - {f};
      }
    }

    /**
     * `validateForm`: run all four checks, replace the whole error map with the
     * failures found, and report whether there were none.
     */
    method ValidateForm() returns (isValid: bool)
      requires Valid()
      modifies this`formErrors
      ensures Valid()
      ensures formErrors == Errors(formData)
      ensures isValid <==> formErrors == map[]
    {
      var d := formData;
      var errors: map<Field, string> := map[];
      isValid := true;
      errors, isValid := RequireFilled(errors, isValid, Name, d.name);
      errors, isValid := RequireEmail(errors, isValid, d.email);
      errors, isValid := RequireFilled(errors, isValid, Subject, d.subject);
      errors, isValid := RequireFilled(errors, isValid, Message, d.message);
      SequentialChecksGiveErrors(d);
      NoErrorsIffAllPass(d);
      ErrorMessagesPresent(d);
      formErrors := errors;
    }

    /**
     * `handleSubmit`: validate; if valid, start submitting and schedule the 1500 ms
     * send. It has no guard of its own against a submission already in flight.
     */
    method HandleSubmit()
      requires Valid()
      modifies this
      ensures Valid()
      ensures formErrors == Errors(formData) && formData == old(formData)
      ensures submitResult == old(submitResult) && pendingClears == old(pendingClears)
      ensures Errors(formData) == map[] ==> isSubmitting && pendingSends == old(pendingSends) + 1
      ensures Errors(formData) != map[] ==> isSubmitting == old(isSubmitting) && pendingSends == old(pendingSends)
    {
      var ok := ValidateForm();
      if ok {
        isSubmitting := true;
        pendingSends := pendingSends + 1;
      }
    }

    /**
     * A press of the submit button. The browser ignores it while the button is
     * disabled; otherwise it first runs its own constraint validation of the
     * `type="email"` input (`browserAccepts` is its verdict) and fires `submit`, and so
     * `handleSubmit`, only when that passes.
     */
    method ClickSubmit(browserAccepts: bool)
      requires Valid()
      modifies this
      ensures Valid()
      ensures old(isSubmitting) || !browserAccepts ==> unchanged(this)
      ensures !old(isSubmitting) && browserAccepts ==>
        formErrors == Errors(formData) && formData == old(formData)
      ensures !old(isSubmitting) && browserAccepts ==>
        submitResult == old(submitResult) && pendingClears == old(pendingClears)
      ensures !old(isSubmitting) && browserAccepts ==> (isSubmitting <==> Errors(formData) == map[])
      ensures !old(isSubmitting) && browserAccepts ==>
        pendingSends == old(pendingSends) + if Errors(formData) == map[] then 1 else 0
    {
      if !SubmitDisabled() && browserAccepts {
        HandleSubmit();
      }
    }

    /**
     * The 1500 ms continuation: stop submitting, show the success banner, reset the
     * fields and schedule the 5000 ms clear. Errors are left as they are.
     */
    method SendTimeoutFired()
      requires Valid() && pendingSends > 0
      modifies this
      ensures Valid()
      ensures !isSubmitting && submitResult == Some(SuccessResult) && submitResult.value.success
      ensures formData == InitialFormData && formErrors == old(formErrors)
      ensures pendingSends == old(pendingSends) - 1 && pendingClears == old(pendingClears) + 1
    {
      isSubmitting := false;
      submitResult := Some(SubmitResult(true, SuccessMessage));
      formData := InitialFormData;
      pendingSends := pendingSends - 1;
      pendingClears := pendingClears + 1;
    }

    /** The 5000 ms continuation: hide the banner; nothing else changes. */
    method ClearTimeoutFired()
      requires Valid() && pendingClears > 0
      modifies this`submitResult, this`pendingClears
      ensures Valid()
      ensures submitResult == None && pendingClears == old(pendingClears) - 1
    {
      submitResult := None;
      pendingClears := pendingClears - 1;
    }
  }

  /** Submitting the untouched form reports four errors and does not start a send. */
  method EmptySubmitScenario()
  {
    var c := new ContactSection();
    c.ClickSubmit(true);
    EmptyFormHasFourErrors();
    assert Name in c.formErrors;
    assert c.formErrors == map[Name := NameRequired, Email := EmailRequired, Subject := SubjectRequired, Message := MessageRequired];
    assert !c.isSubmitting && c.pendingSends == 0;
  }

  /** A filled-in form with the address "a@b.c" passes every check. */
  lemma FilledFormIsValid()
    ensures Errors(FormData("Ana", "a@b.c", "Hi", "Hello")) == map[]
  {
    var d := FormData("Ana", "a@b.c", "Hi", "Hello");
    assert !IsSpace(d.name[0]) && !IsSpace(d.email[0]) && !IsSpace(d.subject[0]) && !IsSpace(d.message[0]);
    assert MatchSpan(d.email, 0, 1, 3, 5);
    NoErrorsIffAllPass(d);
  }

  /** A valid submission: submitting, then success with the fields reset, then the banner clears. */
  method ValidSubmitScenario()
  {
    var c := new ContactSection();
    c.HandleChange(Name, "Ana");
    c.HandleChange(Email, "a@b.c");
    c.HandleChange(Subject, "Hi");
    c.HandleChange(Message, "Hello");
    assert c.formData == FormData("Ana", "a@b.c", "Hi", "Hello");
    FilledFormIsValid();
    c.ClickSubmit(true);
    assert c.isSubmitting && c.SubmitDisabled() && c.pendingSends == 1;
    c.ClickSubmit(true);
    assert c.pendingSends == 1;
    c.SendTimeoutFired();
    assert c.submitResult == Some(SuccessResult) && c.formData == InitialFormData;
    c.ClearTimeoutFired();
    assert c.submitResult == None && !c.isSubmitting;
  }
}
