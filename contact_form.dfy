/**
 * The booking form: five fields, per-field error messages built by
 * `validateForm`, `handleChange`, and the submit status ('' → 'error', or
 * '' → 'loading' → 'success' with the fields reset).
 */
module ContactForm {
  import opened Wrappers
  import opened JsStrings
  import opened EmailRegex

  /** The `id`s of the form's controls. */
  datatype FieldId = Name | Email | Phone | ProgramInterest | Message

  /** `formData`. */
  datatype FormData = FormData(name: string, email: string, phone: string, programInterest: string, message: string) {

    function Get(f: FieldId): string {
      match f
      case Name => name
      case Email => email
      case Phone => phone
      case ProgramInterest => programInterest
      case Message => message
    }

    /** `{ ...prevData, [id]: value }`: field `id` holds `value`, the others are as before. */
    function With(id: FieldId, value: string): (d: FormData)
      ensures d.Get(id) == value
      ensures forall f :: f != id ==> d.Get(f) == Get(f)
    {
      match id
      case Name => this.(name := value)
      case Email => this.(email := value)
      case Phone => this.(phone := value)
      case ProgramInterest => this.(programInterest := value)
      case Message => this.(message := value)
    }
  }

  /** The initial (and reset) form: every field empty. */
  const EmptyForm := FormData("", "", "", "", "")

  /** `formStatus`: '', 'loading', 'success' or 'error'. */
  datatype FormStatus = Idle | Loading | Sent | Failed

  const NameRequired := "Name is required."
  const EmailRequired := "Email is required."
  const EmailInvalid := "Email is invalid."
  const PhoneRequired := "Phone number is required."
  const ProgramRequired := "Please select a program."
  const MessageRequired := "Message is required."

  /**
   * The error map `validateForm` builds, one conditional assignment after
   * another in the handler's order, given the outcome of each test: whether
   * the trimmed name, email, phone and message are empty, whether the email
   * matches the pattern and whether no program is selected.
   */
  function ErrorMap(nameEmpty: bool, emailEmpty: bool, emailMatches: bool, phoneEmpty: bool,
                    programEmpty: bool, messageEmpty: bool): (e: map<FieldId, string>)
    ensures Name in e <==> nameEmpty
    ensures Email in e <==> emailEmpty || !emailMatches
    ensures Phone in e <==> phoneEmpty
    ensures ProgramInterest in e <==> programEmpty
    ensures Message in e <==> messageEmpty
    ensures Name in e ==> e[Name] == NameRequired
    ensures Email in e ==> e[Email] == if emailEmpty then EmailRequired else EmailInvalid
    ensures Phone in e ==> e[Phone] == PhoneRequired
    ensures ProgramInterest in e ==> e[ProgramInterest] == ProgramRequired
    ensures Message in e ==> e[Message] == MessageRequired
  {
    var e0: map<FieldId, string> := map[];
    var e1 := if nameEmpty then e0[Name := NameRequired] else e0;
    var e2 :=
      if emailEmpty then e1[Email := EmailRequired]
      else if !emailMatches then e1[Email := EmailInvalid]
      else e1;
    var e3 := if phoneEmpty then e2[Phone := PhoneRequired] else e2;
    var e4 := if programEmpty then e3[ProgramInterest := ProgramRequired] else e3;
    if messageEmpty then e4[Message := MessageRequired] else e4
  }

  /**
   * `validateForm` on `d`. The email test is decided by the one-pass scanner,
   * which `ScanEmailIsPattern` shows to agree with the pattern on every string.
   */
  function FormErrors(d: FormData): map<FieldId, string> {
    ErrorMap(Trim(d.name) == "", Trim(d.email) == "", ScanEmail(d.email), Trim(d.phone) == "",
             d.programInterest == "", Trim(d.message) == "")
  }

  /**
   * What each rule means. Name, phone and message are required after
   * trimming; the program interest is required without trimming; the email
   * gets exactly one of two messages: required when blank, invalid when not
   * blank but without a match of the pattern.
   */
  lemma FormErrorsMeaning(d: FormData)
    ensures var e := FormErrors(d);
      && (Name in e <==> Blank(d.name))
      && (Phone in e <==> Blank(d.phone))
      && (Message in e <==> Blank(d.message))
      && (ProgramInterest in e <==> d.programInterest == "")
      && (Email in e <==> !EmailPattern(d.email))
      && (Email in e ==> (e[Email] == EmailRequired <==> Blank(d.email)))
      && (Email in e ==> (e[Email] == EmailInvalid <==> !Blank(d.email)))
  {
    TrimEmptyIffBlank(d.name);
    TrimEmptyIffBlank(d.email);
    TrimEmptyIffBlank(d.phone);
    TrimEmptyIffBlank(d.message);
    PatternIsNotBlank(d.email);
    ScanEmailIsPattern(d.email);
  }

  /** The form passes validation exactly when every rule holds. */
  lemma NoErrorsIffEveryRuleHolds(d: FormData)
    ensures FormErrors(d) == map[] <==>
      !Blank(d.name) && EmailPattern(d.email) && !Blank(d.phone) && d.programInterest != "" && !Blank(d.message)
  {
    FormErrorsMeaning(d);
    var e := FormErrors(d);
    assert e == map[] <==> Name !in e && Email !in e && Phone !in e && ProgramInterest !in e && Message !in e by {
      if e != map[] {
        var f :| f in e;
        assert f == Name || f == Email || f == Phone || f == ProgramInterest || f == Message;
      }
    }
  }

  /** The message shown under a control: `errors[id]` when it is a non-empty string. */
  function ShownError(errors: map<FieldId, string>, f: FieldId): (m: Option<string>)
    ensures m.Some? <==> f in errors && errors[f] != ""
    ensures m.Some? ==> m.value == errors[f]
  {
    if f in errors && errors[f] != "" then Some(errors[f]) else None
  }

  /** The state of the contact section. `trail` records every status set, in order. */
  class ContactSection {
    var form: FormData
    var errors: map<FieldId, string>
    var status: FormStatus
    ghost var trail: seq<FormStatus>

    constructor ()
      ensures form == EmptyForm && errors == map[] && status == Idle && trail == []
    {
      form, errors, status := EmptyForm, map[], Idle;
      trail := [];
    }

    /**
     * `handleChange`: sets field `id` and clears its error (to the empty
     * string, which shows nothing); other fields, other errors and the status
     * are untouched.
     */
    method Change(id: FieldId, value: string)
      modifies this
      ensures form == old(form).With(id, value)
      ensures errors == old(errors)[id := ""]
      ensures ShownError(errors, id).None?
      ensures forall f :: f != id ==> ShownError(errors, f) == ShownError(old(errors), f)
      ensures status == old(status) && trail == old(trail)
    {
      form := form.With(id, value);
      errors := errors[id := ""];
    }

    /** `validateForm`: replaces the errors by those of the current form and reports whether there are none. */
    method Validate() returns (ok: bool)
      modifies this`errors
      ensures errors == FormErrors(form)
      ensures ok <==> errors == map[]
    {
      var nameEmpty, emailEmpty := Trim(form.name) == "", Trim(form.email) == "";
      var emailMatches, phoneEmpty := ScanEmail(form.email), Trim(form.phone) == "";
      var programEmpty, messageEmpty := form.programInterest == "", Trim(form.message) == "";
      assert FormErrors(form) == ErrorMap(nameEmpty, emailEmpty, emailMatches, phoneEmpty, programEmpty, messageEmpty);
      var newErrors: map<FieldId, string> := map[];
      if nameEmpty {
        newErrors := newErrors[Name := NameRequired];
      }
      if emailEmpty {
        newErrors := newErrors[Email := EmailRequired];
      } else if !emailMatches {
        newErrors := newErrors[Email := EmailInvalid];
      }
      if phoneEmpty {
        newErrors := newErrors[Phone := PhoneRequired];
      }
      if programEmpty {
        newErrors := newErrors[ProgramInterest := ProgramRequired];
      }
      if messageEmpty {
        newErrors := newErrors[Message := MessageRequired];
      }
      errors := newErrors;
      ok := |newErrors| == 0;
    }

    /**
     * The synchronous part of `handleSubmit`: invalid data sets 'error' (and
     * never 'loading'); valid data sets 'loading'. The fields are untouched.
     */
    method Submit()
      modifies this
      ensures form == old(form)
      ensures errors == FormErrors(form)
      ensures FormErrors(form) != map[] ==> status == Failed && trail == old(trail) + [Failed]
      ensures FormErrors(form) == map[] ==> status == Loading && trail == old(trail) + [Loading]
    {
      var ok := Validate();
      if !ok {
        status := Failed;
        trail := trail + [Failed];
        return;
      }
      status := Loading;
      trail := trail + [Loading];
    }

    /**
     * The continuation of `handleSubmit` once the simulated send resolves:
     * 'success', and all five fields reset to the empty string.
     */
    method Resolve()
      requires status == Loading
      modifies this
      ensures status == Sent && trail == old(trail) + [Sent]
      ensures form == EmptyForm
      ensures errors == old(errors)
    {
      status := Sent;
      trail := trail + [Sent];
      form := EmptyForm;
    }
  }

  /** A complete valid submission from the initial status goes '' → 'loading' → 'success' and ends with an empty form. */
  method SubmitValidForm(section: ContactSection)
    requires section.status == Idle && section.trail == []
    requires FormErrors(section.form) == map[]
    modifies section
    ensures section.trail == [Loading, Sent] && section.form == EmptyForm
    ensures section.status == Sent && section.errors == map[]
  {
    section.Submit();
    section.Resolve();
  }
}
