/**
 * Input validation shared by the handlers: the post form check
 * (`sharedPostValidation`) and the registration rules. Each is given twice:
 * a specification function that says which messages appear, and a method
 * that builds the list by successive pushes, as the handlers do.
 */
module Validation {
  import opened JsText

  const TitleMissing := "you must provide a title"
  const BodyMissing := "you must provide a body"

  /** A post field after normalisation: coerced to a string, trimmed, then passed through the sanitizer. */
  function CleanField(v: JsValue, sanitize: string -> string): string
  {
    sanitize(Trim(Coerce(v)))
  }

  /**
   * The errors for a cleaned title and body: one entry per empty field, the
   * title's first, and nothing else.
   */
  function PostErrors(title: string, body: string): (errors: seq<string>)
    ensures TitleMissing in errors <==> title == ""
    ensures BodyMissing in errors <==> body == ""
    ensures errors == [] <==> title != "" && body != ""
    ensures |errors| <= 2
    ensures forall i :: 0 <= i < |errors| ==> errors[i] == TitleMissing || errors[i] == BodyMissing
    ensures forall i, j :: 0 <= i < j < |errors| ==> errors[i] == TitleMissing && errors[j] == BodyMissing
  {
    (if title == "" then [TitleMissing] else []) + (if body == "" then [BodyMissing] else [])
  }

  /**
   * `sharedPostValidation`: coerce both fields, trim and sanitize them (the
   * handler overwrites the request fields with the cleaned values; here they
   * are returned), then push one error per empty field.
   */
  method ValidatePost(title: JsValue, body: JsValue, sanitize: string -> string)
    returns (cleanTitle: string, cleanBody: string, errors: seq<string>)
    ensures cleanTitle == CleanField(title, sanitize) && cleanBody == CleanField(body, sanitize)
    ensures errors == PostErrors(cleanTitle, cleanBody)
  {
    errors := [];
    var t := if title.JsString? then title.s else "";
    var b := if body.JsString? then body.s else "";
    cleanTitle := sanitize(Trim(t));
    cleanBody := sanitize(Trim(b));
    if cleanTitle == "" {
      errors := errors + [TitleMissing];
    }
    if cleanBody == "" {
      errors := errors + [BodyMissing];
    }
  }

  /** The checks of the registration handler, one per message it can push. */
  datatype RegistrationError =
    | UsernameRequired | UsernameTooShort | UsernameTooLong | UsernameNotAlphanumeric | UsernameExists
    | PasswordRequired | PasswordTooShort | PasswordTooLong

  /** The text the handler pushes when a check fails. */
  function Message(e: RegistrationError): string
  {
    match e
    case UsernameRequired => "you must enter a username"
    case UsernameTooShort => "Username must be atlist 3 characters"
    case UsernameTooLong => "Username must not exceed 10 characters"
    case UsernameNotAlphanumeric => "Username can only contain letters and numbers"
    case UsernameExists => "that username already exist"
    case PasswordRequired => "you must enter a password"
    case PasswordTooShort => "Password must be atlist 12 characters"
    case PasswordTooLong => "Password must not exceed 70 characters"
  }

  /**
   * Whether a check fails. `username` is already trimmed; the three format
   * checks and the two password length checks only apply to a non-empty value
   * (the handler guards them with truthiness); `taken` is the answer of the
   * uniqueness lookup.
   */
  predicate Fails(e: RegistrationError, username: string, password: string, taken: bool)
  {
    match e
    case UsernameRequired => username == ""
    case UsernameTooShort => username != "" && JsLength(username) < 3
    case UsernameTooLong => username != "" && JsLength(username) > 10
    case UsernameNotAlphanumeric => username != "" && !MatchesAlphanumeric(username)
    case UsernameExists => taken
    case PasswordRequired => password == ""
    case PasswordTooShort => password != "" && JsLength(password) < 12
    case PasswordTooLong => password != "" && JsLength(password) > 70
  }

  /** `e` when its check fails, else nothing: what one `if (...) errors.push(...)` adds. */
  function Check(e: RegistrationError, username: string, password: string, taken: bool): seq<RegistrationError>
  {
    if Fails(e, username, password, taken) then [e] else []
  }

  /** The failed checks of the registration handler, in the order it makes them. */
  function RegistrationErrors(username: string, password: string, taken: bool): seq<RegistrationError>
  {
    Check(UsernameRequired, username, password, taken) + Check(UsernameTooShort, username, password, taken)
    + Check(UsernameTooLong, username, password, taken) + Check(UsernameNotAlphanumeric, username, password, taken)
    + Check(UsernameExists, username, password, taken) + Check(PasswordRequired, username, password, taken)
    + Check(PasswordTooShort, username, password, taken) + Check(PasswordTooLong, username, password, taken)
  }

  /**
   * The push sequence of the registration handler, on the trimmed username,
   * the coerced password and the lookup's answer. Each push records the check
   * that failed; `Messages` gives the texts the handler renders.
   */
  method CollectRegistrationErrors(username: string, password: string, taken: bool)
    returns (errors: seq<RegistrationError>)
    ensures errors == RegistrationErrors(username, password, taken)
  {
    errors := [];
    if username == "" {
      errors := errors + [UsernameRequired];
    }
    assert errors == Check(UsernameRequired, username, password, taken);
    if username != "" && JsLength(username) < 3 {
      errors := errors + [UsernameTooShort];
    }
    assert errors == Check(UsernameRequired, username, password, taken) + Check(UsernameTooShort, username, password, taken);
    if username != "" && JsLength(username) > 10 {
      errors := errors + [UsernameTooLong];
    }
    assert errors == Check(UsernameRequired, username, password, taken) + Check(UsernameTooShort, username, password, taken)
      + Check(UsernameTooLong, username, password, taken);
    if username != "" && !MatchesAlphanumeric(username) {
      errors := errors + [UsernameNotAlphanumeric];
    }
    assert errors == Check(UsernameRequired, username, password, taken) + Check(UsernameTooShort, username, password, taken)
      + Check(UsernameTooLong, username, password, taken) + Check(UsernameNotAlphanumeric, username, password, taken);
    if taken {
      errors := errors + [UsernameExists];
    }
    assert errors == Check(UsernameRequired, username, password, taken) + Check(UsernameTooShort, username, password, taken)
      + Check(UsernameTooLong, username, password, taken) + Check(UsernameNotAlphanumeric, username, password, taken)
      + Check(UsernameExists, username, password, taken);
    if password == "" {
      errors := errors + [PasswordRequired];
    }
    assert errors == Check(UsernameRequired, username, password, taken) + Check(UsernameTooShort, username, password, taken)
      + Check(UsernameTooLong, username, password, taken) + Check(UsernameNotAlphanumeric, username, password, taken)
      + Check(UsernameExists, username, password, taken) + Check(PasswordRequired, username, password, taken);
    if password != "" && JsLength(password) < 12 {
      errors := errors + [PasswordTooShort];
    }
    assert errors == Check(UsernameRequired, username, password, taken) + Check(UsernameTooShort, username, password, taken)
      + Check(UsernameTooLong, username, password, taken) + Check(UsernameNotAlphanumeric, username, password, taken)
      + Check(UsernameExists, username, password, taken) + Check(PasswordRequired, username, password, taken)
      + Check(PasswordTooShort, username, password, taken);
    if password != "" && JsLength(password) > 70 {
      errors := errors + [PasswordTooLong];
    }
  }

  /** The texts of a list of failed checks, in the same order. */
  function Messages(errors: seq<RegistrationError>): (texts: seq<string>)
    ensures |texts| == |errors|
    ensures forall i :: 0 <= i < |errors| ==> texts[i] == Message(errors[i])
  {
    seq(|errors|, i requires 0 <= i < |errors| => Message(errors[i]))
  }

  /** Different checks push different texts. */
  lemma MessageInjective(e: RegistrationError, f: RegistrationError)
    requires Message(e) == Message(f)
    ensures e == f
  {
  }

  /** A text is shown exactly when its check is among the failed ones. */
  lemma MessagesMembers(errors: seq<RegistrationError>, e: RegistrationError)
    ensures Message(e) in Messages(errors) <==> e in errors
  {
  }

  /** A username the registration rules accept: 3 to 10 ASCII letters and digits. */
  predicate IsAcceptableUsername(username: string)
  {
    3 <= |username| <= 10 && MatchesAlphanumeric(username)
  }

  /** A check is among the failed ones exactly when it fails. */
  lemma RegistrationFailures(username: string, password: string, taken: bool, e: RegistrationError)
    ensures e in RegistrationErrors(username, password, taken) <==> Fails(e, username, password, taken)
  {
    var errors := RegistrationErrors(username, password, taken);
    forall f | f != e ensures e !in Check(f, username, password, taken) {
    }
    assert e in errors <==> e in Check(e, username, password, taken);
  }

  /** Each message is shown exactly when its own check fails. */
  lemma RegistrationMessages(username: string, password: string, taken: bool, e: RegistrationError)
    ensures Message(e) in Messages(RegistrationErrors(username, password, taken)) <==> Fails(e, username, password, taken)
  {
    RegistrationFailures(username, password, taken, e);
    MessagesMembers(RegistrationErrors(username, password, taken), e);
  }

  /**
   * Registration is accepted exactly when the trimmed username has length 3 to
   * 10 and is alphanumeric, it is not yet stored, and the password has length
   * 12 to 70.
   */
  lemma RegistrationAccepted(username: string, password: string, taken: bool)
    ensures RegistrationErrors(username, password, taken) == [] <==>
      && 3 <= JsLength(username) <= 10 && MatchesAlphanumeric(username)
      && !taken
      && 12 <= JsLength(password) <= 70
    ensures RegistrationErrors(username, password, taken) == [] ==> IsAcceptableUsername(username)
  {
  }

  /**
   * An empty username yields the "enter a username" message and none of the
   * three format messages; an empty password likewise yields only its own
   * "enter a password" message among the password messages.
   */
  lemma EmptyFieldsReportedOnce(username: string, password: string, taken: bool)
    ensures var texts := Messages(RegistrationErrors(username, password, taken));
      username == "" ==>
        && Message(UsernameRequired) in texts && Message(UsernameTooShort) !in texts
        && Message(UsernameTooLong) !in texts && Message(UsernameNotAlphanumeric) !in texts
    ensures var texts := Messages(RegistrationErrors(username, password, taken));
      password == "" ==>
        && Message(PasswordRequired) in texts && Message(PasswordTooShort) !in texts
        && Message(PasswordTooLong) !in texts
  {
    RegistrationMessages(username, password, taken, UsernameRequired);
    RegistrationMessages(username, password, taken, UsernameTooShort);
    RegistrationMessages(username, password, taken, UsernameTooLong);
    RegistrationMessages(username, password, taken, UsernameNotAlphanumeric);
    RegistrationMessages(username, password, taken, PasswordRequired);
    RegistrationMessages(username, password, taken, PasswordTooShort);
    RegistrationMessages(username, password, taken, PasswordTooLong);
  }

  /**
   * The password bounds at their edges, in `length` units: 11 is too short,
   * 12 to 70 raise no password message, 71 is too long.
   */
  lemma PasswordLengthBoundaries(username: string, password: string, taken: bool)
    ensures var texts := Messages(RegistrationErrors(username, password, taken));
      JsLength(password) == 11 ==> Message(PasswordTooShort) in texts
    ensures var texts := Messages(RegistrationErrors(username, password, taken));
      JsLength(password) == 71 ==> Message(PasswordTooLong) in texts
    ensures var texts := Messages(RegistrationErrors(username, password, taken));
      12 <= JsLength(password) <= 70 ==>
        && Message(PasswordRequired) !in texts
        && Message(PasswordTooShort) !in texts
        && Message(PasswordTooLong) !in texts
  {
    RegistrationMessages(username, password, taken, PasswordRequired);
    RegistrationMessages(username, password, taken, PasswordTooShort);
    RegistrationMessages(username, password, taken, PasswordTooLong);
  }
}
