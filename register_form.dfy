/** The registration form: field edits, the "Other" organisation toggle,
    the validation order of a submission and the request it sends
    (frontent/src/components/RegisterForm.js). */
module RegisterForm {
  import opened Wrappers

  /** The form's fields are named by strings, as in `formData`. */
  type Form = map<string, string>

  const FieldNames: seq<string> :=
    ["full_name", "email", "gender", "company", "otherCompany", "job", "country", "password", "confirmPassword"]

  /** The value of a field; an absent field reads as empty, like `undefined`. */
  function Field(form: Form, name: string): string
  {
    if name in form then form[name] else ""
  }

  /** The organisation submitted: the typed one when "Other" was chosen. */
  function FinalCompany(form: Form, showOther: bool): (c: string)
    ensures showOther ==> c == Field(form, "otherCompany")
    ensures !showOther ==> c == Field(form, "company")
  {
    if showOther then Field(form, "otherCompany") else Field(form, "company")
  }

  /** Every field the submission demands is non-empty. */
  predicate Filled(form: Form, showOther: bool)
  {
    && Field(form, "full_name") != ""
    && Field(form, "email") != ""
    && Field(form, "gender") != ""
    && FinalCompany(form, showOther) != ""
    && Field(form, "job") != ""
    && Field(form, "country") != ""
    && Field(form, "password") != ""
  }

  /** The alert shown above the form; the texts of the first two come from
      the language table. */
  datatype Alert = NoAlert | FieldsRequired | PasswordsDiffer | Failure(text: string)

  /** The outcome of the two checks of a submission, in the source's order:
      an empty field is reported before a password mismatch. */
  function Check(form: Form, showOther: bool): (a: Alert)
    ensures a == FieldsRequired <==> !Filled(form, showOther)
    ensures a == PasswordsDiffer <==>
      Filled(form, showOther) && Field(form, "password") != Field(form, "confirmPassword")
    ensures a == NoAlert <==>
      Filled(form, showOther) && Field(form, "password") == Field(form, "confirmPassword")
  {
    if !Filled(form, showOther) then FieldsRequired
    else if Field(form, "password") != Field(form, "confirmPassword") then PasswordsDiffer
    else NoAlert
  }

  /** `{ ...formData, company: finalCompany }`. */
  function Payload(form: Form, showOther: bool): (p: Form)
    ensures "company" in p && p["company"] == FinalCompany(form, showOther)
    ensures forall k :: k in form && k != "company" ==> k in p && p[k] == form[k]
  {
    form["company" := FinalCompany(form, showOther)]
  }

  /** The request differs from the form only in its `company` field, which
      holds the organisation actually chosen. */
  lemma PayloadReplacesCompany(form: Form, showOther: bool)
    ensures "company" in Payload(form, showOther)
    ensures Field(Payload(form, showOther), "company") == FinalCompany(form, showOther)
    ensures forall k :: k != "company" ==> Field(Payload(form, showOther), k) == Field(form, k)
    ensures forall k :: k in Payload(form, showOther) <==> k in form || k == "company"
  {
  }

  /** A request is only sent with every demanded field filled and the
      password confirmed. */
  lemma SentRequestIsComplete(form: Form, showOther: bool)
    requires Check(form, showOther) == NoAlert
    ensures var p := Payload(form, showOther);
      && Field(p, "full_name") != "" && Field(p, "email") != "" && Field(p, "gender") != ""
      && Field(p, "company") != "" && Field(p, "job") != "" && Field(p, "country") != ""
      && Field(p, "password") != "" && Field(p, "password") == Field(p, "confirmPassword")
  {
    PayloadReplacesCompany(form, showOther);
  }

  /** The reply to the registration request. */
  datatype Outcome = Registered | Refused(serverError: Option<string>)

  /** `err.response?.data?.error || "Erreur de connexion"`: an absent or
      empty server error gives the fallback text. */
  function FailureText(serverError: Option<string>): (text: string)
    ensures text != ""
    ensures serverError.Some? && serverError.value != "" ==> text == serverError.value
    ensures !(serverError.Some? && serverError.value != "") ==> text == "Erreur de connexion"
  {
    match serverError
    case Some(e) => if e != "" then e else "Erreur de connexion"
    case None => "Erreur de connexion"
  }

  class RegistrationForm {
    var formData: Form
    var showOtherCompany: bool
    var error: Alert
    var success: bool
    var loading: bool

    /** Every field of the form is present. */
    ghost predicate Valid()
      reads this
    {
      forall i :: 0 <= i < |FieldNames| ==> FieldNames[i] in formData
    }

    constructor ()
      ensures formData == map i | i in FieldNames :: ""
      ensures !showOtherCompany && error == NoAlert && !success && !loading
      ensures Valid()
    {
      formData := map i | i in FieldNames :: "";
      showOtherCompany, error, success, loading := false, NoAlert, false, false;
    }

    /** `handleChange`: store the edited field; choosing an organisation
        shows the free-text field exactly when the choice is "Other". */
    method HandleChange(name: string, value: string)
      requires Valid()
      modifies this
      ensures formData == old(formData)[name := value] && Valid()
      ensures name == "company" ==> showOtherCompany == (value == "Other")
      ensures name != "company" ==> showOtherCompany == old(showOtherCompany)
      ensures error == old(error) && success == old(success) && loading == old(loading)
    {
      if name == "company" {
        showOtherCompany := value == "Other";
      }
      formData := formData[name := value];
    }

    /** The synchronous part of `handleSubmit`: clear the alert, run the
        checks, and when they pass start loading and hand back the request
        body to post. */
    method Submit() returns (request: Option<Form>)
      requires Valid()
      modifies this
      ensures Valid()
      ensures formData == old(formData) && showOtherCompany == old(showOtherCompany) && success == old(success)
      ensures error == Check(formData, showOtherCompany)
      ensures request.Some? <==> error == NoAlert
      ensures request.Some? ==> request.value == Payload(formData, showOtherCompany) && loading
      ensures request.None? ==> loading == old(loading)
    {
      error := NoAlert;
      var finalCompany := if showOtherCompany then Field(formData, "otherCompany") else Field(formData, "company");
      if Field(formData, "full_name") == "" || Field(formData, "email") == "" || Field(formData, "gender") == ""
        || finalCompany == "" || Field(formData, "job") == "" || Field(formData, "country") == ""
        || Field(formData, "password") == ""
      {
        error := FieldsRequired;
        return None;
      }
      if Field(formData, "password") != Field(formData, "confirmPassword") {
        error := PasswordsDiffer;
        return None;
      }
      loading := true;
      request := Some(formData["company" := finalCompany]);
    }

    /** The rest of `handleSubmit` once the request has settled: success, or
        the server's error; loading stops either way. */
    method Settle(outcome: Outcome)
      requires Valid()
      modifies this
      ensures Valid()
      ensures !loading
      ensures formData == old(formData) && showOtherCompany == old(showOtherCompany)
      ensures outcome.Registered? ==> success && error == old(error)
      ensures outcome.Refused? ==> error == Failure(FailureText(outcome.serverError)) && success == old(success)
    {
      match outcome {
        case Registered =>
          success := true;
        case Refused(e) =>
          error := Failure(if e.Some? && e.value != "" then e.value else "Erreur de connexion");
      }
      loading := false;
    }
  }
}
