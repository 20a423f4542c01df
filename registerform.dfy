/**
 * The registration form: the field update of `handleChange` and the checks `handleSubmit`
 * makes before it calls the register service.
 */
module RegisterForm {
  import opened Wrappers
  import opened Text

  /** The form's `RegisterDto`; `role` holds what `parseInt` gave, `None` standing for NaN. */
  datatype FormData = FormData(username: string, password: string, firstName: string, lastName: string, role: Option<int>)

  /** The `name` attributes of the form's inputs. */
  datatype FieldName = Username | Password | FirstName | LastName | Role

  /** The numbers of `UserRole.Photographer` and `UserRole.Client` that the role select offers. */
  const PhotographerRole: int := 1
  const ClientRole: int := 2

  const UsernameTooShort := "Username must be at least 3 characters"
  const PasswordTooShort := "Password must be at least 6 characters"
  const RegistrationFailed := "Registration failed"

  /** The state the form starts in: empty fields and the Client role. */
  function InitialForm(): FormData
  {
    FormData("", "", "", "", Some(ClientRole))
  }

  /**
   * The checks of `handleSubmit`, username first: the message of the first that fails, or
   * `None` when the form may be sent. Lengths are JavaScript lengths, in UTF-16 code units.
   */
  function Validate(form: FormData): (r: Option<string>)
    ensures r.None? <==> Utf16Length(form.username) >= 3 && Utf16Length(form.password) >= 6
    ensures Utf16Length(form.username) < 3 ==> r == Some(UsernameTooShort)
    ensures Utf16Length(form.username) >= 3 && Utf16Length(form.password) < 6 ==> r == Some(PasswordTooShort)
  {
    if Utf16Length(form.username) < 3 then Some(UsernameTooShort)
    else if Utf16Length(form.password) < 6 then Some(PasswordTooShort)
    else None
  }

  /** A character outside the Basic Multilingual Plane counts twice: two emoji pass the username check. */
  lemma ValidateCountsCodeUnits()
    ensures Validate(FormData("\U{1F4F7}\U{1F4F7}", "secret", "", "", Some(ClientRole))).None?
    ensures Validate(FormData("ab", "secret", "", "", Some(ClientRole))) == Some(UsernameTooShort)
  {
    var u := "\U{1F4F7}\U{1F4F7}";
    assert u[1..][1..] == "";
    assert Utf16Length(u) == 4;
    var p := "secret";
    Utf16LengthOfBmp(p);
    Utf16LengthOfBmp("ab");
  }

  /**
   * `handleChange`: the named field takes the new value, parsed with `parseInt` for the
   * role; every other field keeps its value.
   */
  function Changed(form: FormData, field: FieldName, value: string): (f: FormData)
    ensures f.username == (if field == Username then value else form.username)
    ensures f.password == (if field == Password then value else form.password)
    ensures f.firstName == (if field == FirstName then value else form.firstName)
    ensures f.lastName == (if field == LastName then value else form.lastName)
    ensures f.role == (if field == Role then JsParseInt(value) else form.role)
  {
    match field
    case Username => form.(username := value)
    case Password => form.(password := value)
    case FirstName => form.(firstName := value)
    case LastName => form.(lastName := value)
    case Role => form.(role := JsParseInt(value))
  }

  /** The two role options give the numbers of the two roles. */
  lemma RoleOptionsParse(form: FormData)
    ensures Changed(form, Role, "1").role == Some(PhotographerRole)
    ensures Changed(form, Role, "2").role == Some(ClientRole)
  {
    JsParseIntOfRoleOptions();
  }

  /** How the `register` call settled: resolved, rejected with an `Error`, or rejected with anything else. */
  datatype Settled = Resolved | RejectedWithError(message: string) | RejectedOther

  /** The form's state: `formData`, `error` and `loading`. */
  class RegisterForm {
    var formData: FormData
    var error: string
    var loading: bool

    constructor ()
      ensures formData == InitialForm() && error == "" && !loading
    {
      formData := InitialForm();
      error := "";
      loading := false;
    }

    /** `handleChange`: one field updated, and the error cleared. */
    method HandleChange(field: FieldName, value: string)
      modifies this
      ensures formData == Changed(old(formData), field, value)
      ensures error == "" && loading == old(loading)
    {
      formData := Changed(formData, field, value);
      error := "";
    }

    /**
     * The synchronous part of `handleSubmit`: the error is cleared and loading set; a failed
     * check sets its message, clears loading and sends nothing; otherwise the form data is
     * what goes to `register`, and loading stays set until the call settles.
     */
    method HandleSubmit() returns (sent: Option<FormData>)
      modifies this
      ensures formData == old(formData)
      ensures Validate(formData).Some? ==> sent == None && error == Validate(formData).value && !loading
      ensures Validate(formData).None? ==> sent == Some(formData) && error == "" && loading
    {
      error := "";
      loading := true;
      if Utf16Length(formData.username) < 3 {
        error := UsernameTooShort;
        loading := false;
        return None;
      }
      if Utf16Length(formData.password) < 6 {
        error := PasswordTooShort;
        loading := false;
        return None;
      }
      sent := Some(formData);
    }

    /**
     * The rest of `handleSubmit` once `register` settles: success calls `onSuccess`; a
     * rejection shows the error's message, or a fixed one for anything that is not an
     * `Error`; loading is cleared either way.
     */
    method Settle(outcome: Settled) returns (calledOnSuccess: bool)
      modifies this
      ensures formData == old(formData) && !loading
      ensures calledOnSuccess <==> outcome.Resolved?
      ensures outcome.Resolved? ==> error == old(error)
      ensures outcome.RejectedWithError? ==> error == outcome.message
      ensures outcome.RejectedOther? ==> error == RegistrationFailed
    {
      calledOnSuccess := false;
      match outcome {
        case Resolved =>
          calledOnSuccess := true;
        case RejectedWithError(message) =>
          error := message;
        case RejectedOther =>
          error := RegistrationFailed;
      }
      loading := false;
    }
  }
}
