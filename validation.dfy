/** The request validators. Each one looks at the parsed JSON body and
    either answers with status 400 and one error message, decided by the
    first check that fails, or passes the request on (`next()`). */
module Validation {
  import opened JsValues
  import opened JsStrings
  import opened EmailPattern

  /** What a validator does with a request: exactly one of a 400 response or `next()`. */
  datatype Response = Next | Reject(status: nat, error: string)

  const EMAIL_REQUIRED := "Email is required and must be a non-empty string"
  const PASSWORD_TOO_SHORT := "Password is required and must be at least 6 characters long"
  const NAME_REQUIRED := "Name is required and must be a non-empty string"
  const EMAIL_INVALID := "Please provide a valid email address"
  const PASSWORD_REQUIRED := "Password is required and must be a non-empty string"
  const PREFERENCES_NOT_ARRAY := "Preferences must be an array"
  const PREFERENCES_EMPTY := "Preferences array cannot be empty"
  const PREFERENCE_NOT_TEXT := "All preferences must be non-empty strings"

  /** `!v || typeof v !== 'string' || v.trim() === ''`. */
  predicate MissingText(v: JsValue)
  {
    !Truthy(v) || !v.Str? || Trim(v.s) == ""
  }

  /** `!v || typeof v !== 'string' || v.length < 6`. */
  predicate ShortPassword(v: JsValue)
  {
    !Truthy(v) || !v.Str? || Utf16Length(v.s) < 6
  }

  /** A string with at least one character that is not white space. */
  ghost predicate IsText(v: JsValue)
  {
    v.Str? && !AllSpace(v.s)
  }

  lemma MissingTextIff(v: JsValue)
    ensures MissingText(v) <==> !IsText(v)
  {
    if v.Str? {
      TrimEmptyIff(v.s);
    }
  }

  // ---------------------------------------------------------------------
  // Registration.
  // ---------------------------------------------------------------------

  /** `validateUserRegistration`: email, then password, then name, then the
      email pattern. */
  function ValidateUserRegistration(body: Payload): (r: Response)
    ensures r.Reject? ==> r.status == 400
  {
    var email, password, name := Field(body, "email"), Field(body, "password"), Field(body, "name");
    if MissingText(email) then Reject(400, EMAIL_REQUIRED)
    else if ShortPassword(password) then Reject(400, PASSWORD_TOO_SHORT)
    else if MissingText(name) then Reject(400, NAME_REQUIRED)
    else if !EmailShape(email.s) then Reject(400, EMAIL_INVALID)
    else Next
  }

  /** A password passes when it is a string of at least 6 UTF-16 code
      units, white space counted. */
  ghost predicate LongPassword(v: JsValue)
  {
    v.Str? && Utf16Length(v.s) >= 6
  }

  /** Registration passes exactly when the email is text matching the
      pattern, the password is long enough and the name is text. */
  lemma RegistrationAcceptsIff(body: Payload)
    ensures var email := Field(body, "email");
      ValidateUserRegistration(body) == Next <==>
        IsText(email) && LongPassword(Field(body, "password")) && IsText(Field(body, "name")) && EmailRegex(email.s)
  {
    MissingTextIff(Field(body, "email"));
    MissingTextIff(Field(body, "name"));
    if Field(body, "email").Str? {
      EmailShapeIsRegex(Field(body, "email").s);
    }
  }

  /** Each message is sent exactly when its check is the first to fail. */
  lemma RegistrationFirstFailure(body: Payload)
    ensures var r, email, password, name := ValidateUserRegistration(body), Field(body, "email"), Field(body, "password"), Field(body, "name");
      && (r == Reject(400, EMAIL_REQUIRED) <==> !IsText(email))
      && (r == Reject(400, PASSWORD_TOO_SHORT) <==> IsText(email) && !LongPassword(password))
      && (r == Reject(400, NAME_REQUIRED) <==> IsText(email) && LongPassword(password) && !IsText(name))
      && (r == Reject(400, EMAIL_INVALID) <==> IsText(email) && LongPassword(password) && IsText(name) && !EmailRegex(email.s))
  {
    MissingTextIff(Field(body, "email"));
    MissingTextIff(Field(body, "name"));
    if Field(body, "email").Str? {
      EmailShapeIsRegex(Field(body, "email").s);
    }
  }

  /** The password length check does not trim: a password of white space
      only, six code units or longer, passes it, and the login check, which
      trims, refuses the same password. */
  lemma BlankPasswordPassesRegistration(body: Payload)
    requires Field(body, "password").Str? && AllSpace(Field(body, "password").s)
    requires Utf16Length(Field(body, "password").s) >= 6
    ensures ValidateUserRegistration(body) != Reject(400, PASSWORD_TOO_SHORT)
    ensures ValidateUserLogin(body).Reject?
  {
    MissingTextIff(Field(body, "password"));
  }

  /** Six spaces are such a password. */
  lemma SixSpaces()
    ensures AllSpace("      ") && Utf16Length("      ") == 6
  {
    Utf16LengthBmp("      ");
  }

  /** An address the pattern accepts. */
  lemma ExampleAddressMatches()
    ensures EmailShape("ann@news.io")
  {
    var e := "ann@news.io";
    assert e[..3] == "ann" && e[4..] == "news.io";
    assert ChainShape(e[..3]);
    assert EndsInDotGroupOf(e[4..], 2);
  }

  /** A one-letter top-level domain fails the pattern. */
  lemma ShortTopLevelDomainFails()
    ensures !EmailShape("ann@news.c")
  {
    var e := "ann@news.c";
    forall i | 0 <= i < |e| && e[i] == '@'
      ensures !DomainShape(e[i + 1..])
    {
      assert i == 3;
      assert e[4..] == "news.c";
    }
  }

  // ---------------------------------------------------------------------
  // Login.
  // ---------------------------------------------------------------------

  /** `validateUserLogin`: email, then password, both trimmed. */
  function ValidateUserLogin(body: Payload): (r: Response)
    ensures r.Reject? ==> r.status == 400
  {
    if MissingText(Field(body, "email")) then Reject(400, EMAIL_REQUIRED)
    else if MissingText(Field(body, "password")) then Reject(400, PASSWORD_REQUIRED)
    else Next
  }

  /** Login passes exactly when email and password are both text; the
      email is checked first. */
  lemma LoginAcceptsIff(body: Payload)
    ensures var r, email, password := ValidateUserLogin(body), Field(body, "email"), Field(body, "password");
      && (r == Next <==> IsText(email) && IsText(password))
      && (r == Reject(400, EMAIL_REQUIRED) <==> !IsText(email))
      && (r == Reject(400, PASSWORD_REQUIRED) <==> IsText(email) && !IsText(password))
  {
    MissingTextIff(Field(body, "email"));
    MissingTextIff(Field(body, "password"));
  }

  // ---------------------------------------------------------------------
  // Preferences.
  // ---------------------------------------------------------------------

  /** `typeof v !== 'string' || v.trim() === ''`. */
  predicate BadPreference(v: JsValue)
  {
    !v.Str? || Trim(v.s) == ""
  }

  /** The answer `validateUserPreferences` gives. */
  function PreferencesResponse(body: Payload): (r: Response)
    ensures r.Reject? ==> r.status == 400
  {
    var preferences := Field(body, "preferences");
    if !Truthy(preferences) || !preferences.Arr? then Reject(400, PREFERENCES_NOT_ARRAY)
    else if |preferences.items| == 0 then Reject(400, PREFERENCES_EMPTY)
    else if exists i :: 0 <= i < |preferences.items| && BadPreference(preferences.items[i]) then Reject(400, PREFERENCE_NOT_TEXT)
    else Next
  }

  /** `validateUserPreferences`: the scan stops at the first bad element. */
  method ValidateUserPreferences(body: Payload) returns (r: Response)
    ensures r == PreferencesResponse(body)
  {
    var preferences := Field(body, "preferences");
    if !Truthy(preferences) || !preferences.Arr? {
      return Reject(400, PREFERENCES_NOT_ARRAY);
    }
    if |preferences.items| == 0 {
      return Reject(400, PREFERENCES_EMPTY);
    }
    for i := 0 to |preferences.items|
      invariant forall k :: 0 <= k < i ==> !BadPreference(preferences.items[k])
    {
      var p := preferences.items[i];
      if !p.Str? || Trim(p.s) == "" {
        return Reject(400, PREFERENCE_NOT_TEXT);
      }
    }
    r := Next;
  }

  /** Preferences pass exactly when they form a non-empty array of text. */
  lemma PreferencesAcceptsIff(body: Payload)
    ensures var r, p := PreferencesResponse(body), Field(body, "preferences");
      r == Next <==> p.Arr? && |p.items| > 0 && forall i :: 0 <= i < |p.items| ==> IsText(p.items[i])
  {
    var p := Field(body, "preferences");
    if p.Arr? {
      forall i | 0 <= i < |p.items| ensures BadPreference(p.items[i]) <==> !IsText(p.items[i]) {
        if p.items[i].Str? {
          TrimEmptyIff(p.items[i].s);
        }
      }
    }
  }

  /** A missing or non-array value is refused as not an array, an empty
      array as empty; an array of anything else reaches the element scan. */
  lemma PreferencesRejections(body: Payload)
    ensures var r, p := PreferencesResponse(body), Field(body, "preferences");
      && (r == Reject(400, PREFERENCES_NOT_ARRAY) <==> !p.Arr?)
      && (r == Reject(400, PREFERENCES_EMPTY) <==> p == Arr([]))
      && (r == Reject(400, PREFERENCE_NOT_TEXT) <==> p.Arr? && exists i :: 0 <= i < |p.items| && !IsText(p.items[i]))
  {
    var p := Field(body, "preferences");
    if p.Arr? {
      forall i | 0 <= i < |p.items| ensures BadPreference(p.items[i]) <==> !IsText(p.items[i]) {
        if p.items[i].Str? {
          TrimEmptyIff(p.items[i].s);
        }
      }
    }
  }
}
