/** The `errors` state the three forms (registration, login, habit editing)
    share: `validateForm` builds a fresh map of messages, `handleSubmit`
    stores it with `setErrors`, and `handleChange` resets one entry to
    `null` with `setErrors((prev) => ({ ...prev, [name]: null }))`. */
module FormState {
  import opened Wrappers
  import opened JsStrings

  /** A component's `errors` object: a key is absent, holds a message, or
      has been reset to `null` (`None`). */
  type Errors = map<string, Option<string>>

  /** `if (errors[name])`: the entry exists and is a non-empty message. */
  predicate HasError(errors: Errors, key: string)
  {
    key in errors && errors[key].Some? && errors[key].value != ""
  }

  /** The error update of `handleChange`: only a set entry is touched, and
      it becomes `null`; every other entry keeps its value. */
  function ClearError(errors: Errors, key: string): (r: Errors)
    ensures r.Keys == errors.Keys
    ensures !HasError(r, key)
    ensures HasError(errors, key) ==> r[key] == None
    ensures !HasError(errors, key) ==> r == errors
    ensures forall k :: k in errors && k != key ==> r[k] == errors[k]
  {
    if HasError(errors, key) then errors[key := None] else errors
  }

  /** `setErrors(newErrors)`: the messages of a fresh validation result. */
  function Stored(messages: map<string, string>): (r: Errors)
    ensures r.Keys == messages.Keys
    ensures forall k :: k in messages ==> r[k] == Some(messages[k])
    ensures forall k :: HasError(r, k) <==> k in messages && messages[k] != ""
  {
    map k | k in messages :: Some(messages[k])
  }

  /** `setErrors({ submit: message })`: every earlier message is dropped. */
  function SubmitFailure(message: string): (r: Errors)
    ensures r.Keys == {"submit"} && r["submit"] == Some(message)
  {
    map["submit" := Some(message)]
  }

  /** Adds `key` to a fresh error map when a rule produced a message. */
  function Put(messages: map<string, string>, key: string, e: Option<string>): (r: map<string, string>)
    ensures e.None? ==> r == messages
    ensures e.Some? ==> r == messages[key := e.value]
  {
    if e.Some? then messages[key := e.value] else messages
  }

  const EmailRequired: string := "Email is required"
  const EmailInvalid: string := "Email is invalid"

  /** The required-name rule the registration and the habit form both apply,
      each with its own message: a name that trims to nothing is missing. */
  function BlankError(name: string, message: string): (r: Option<string>)
    ensures r.Some? <==> IsBlank(name)
    ensures r.Some? ==> r.value == message
  {
    TrimEmptyIffBlank(name);
    if Trim(name) == "" then Some(message) else None
  }

  /** The e-mail rule the registration and the login form both apply: first
      required, then the pattern `\S+@\S+\.\S+`. The two messages exclude
      each other, and there is no message exactly when the pattern matches. */
  function EmailError(email: string): (r: Option<string>)
    ensures r == Some(EmailRequired) <==> email == ""
    ensures r == Some(EmailInvalid) <==> email != "" && !EmailPatternMatches(email)
    ensures r.None? <==> EmailPatternMatches(email)
    ensures r.None? || r == Some(EmailRequired) || r == Some(EmailInvalid)
  {
    TestEmailCorrect(email);
    if email == "" then Some(EmailRequired)
    else if !TestEmail(email) then Some(EmailInvalid)
    else None
  }

  /** Clearing twice is clearing once. */
  lemma ClearErrorIdempotent(errors: Errors, key: string)
    ensures ClearError(ClearError(errors, key), key) == ClearError(errors, key)
  {
  }
}
