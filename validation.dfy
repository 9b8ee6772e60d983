/** The Validator of the registration page: four submitted strings in, the
    normalised fields and an error map keyed by field out. */
module Validation {
  import opened Wrappers
  import opened Php
  import opened Messages

  /** Minimum password length in bytes (`strlen`). */
  const MinPasswordLength := 8

  /** The submitted form: field name to posted value. */
  type Form = map<string, Bytes>

  /** The four values the validator works on: name and email trimmed, the
      passwords exactly as posted. */
  datatype Fields = Fields(name: Bytes, email: Bytes, password: Bytes, confirmPassword: Bytes)

  /** `$_POST[key] ?? ''`: a missing field reads as the empty string. */
  function Posted(form: Form, key: string): Bytes {
    if key in form then form[key] else []
  }

  /** The fields as the validator sees them. */
  function Normalize(form: Form): Fields {
    Fields(Trim(Posted(form, "name")), Trim(Posted(form, "email")),
           Posted(form, "password"), Posted(form, "confirm_password"))
  }

  /** Because of `?? ''`, leaving a field out of the POST data and posting it
      as the empty string are the same submission. */
  lemma MissingFieldReadsAsEmpty(form: Form, key: string)
    ensures Normalize(form - {key}) == Normalize(form[key := []])
  {
    TrimIsUniqueStrip([], 0, 0);
  }

  /** The combined character-class test: an uppercase letter, a lowercase
      letter, and a digit or one of `!@#$%^&*`. */
  predicate HasRequiredClasses(password: Bytes) {
    HasUpper(password) && HasLower(password) && HasDigitOrSymbol(password)
  }

  // The error a field ends up with, one rule per field, read off the order of
  // the checks: the later check on a slot wins over the earlier one.

  function NameRule(name: Bytes): Option<Message> {
    if IsEmpty(name) then Some(NameRequired) else None
  }

  /** The format check replaces the required message; it only runs on a
      non-empty address, so the two never meet. */
  function EmailRule(email: Bytes, validEmail: Bytes -> bool): Option<Message> {
    if IsEmpty(email) then Some(EmailRequired)
    else if !validEmail(email) then Some(EmailMalformed)
    else None
  }

  /** The length check comes first, the class check only on a long enough one. */
  function PasswordRule(password: Bytes): Option<Message> {
    if IsEmpty(password) then Some(PasswordRequired)
    else if |password| < MinPasswordLength then Some(PasswordTooShort)
    else if !HasRequiredClasses(password) then Some(PasswordTooWeak)
    else None
  }

  /** The mismatch check runs last and wins over the required message. */
  function ConfirmRule(password: Bytes, confirmPassword: Bytes): Option<Message> {
    if password != confirmPassword then Some(PasswordsDiffer)
    else if IsEmpty(confirmPassword) then Some(ConfirmRequired)
    else None
  }

  /** `m` with slot `k` set to the rule's message, if it has one. */
  function SetSlot(m: map<ErrorKey, Message>, k: ErrorKey, rule: Option<Message>): map<ErrorKey, Message> {
    if rule.Some? then m[k := rule.value] else m
  }

  /** The error map the validator produces, slot by slot. */
  function ValidationErrors(f: Fields, validEmail: Bytes -> bool): map<ErrorKey, Message> {
    var e := SetSlot(map[], Name, NameRule(f.name));
    var e := SetSlot(e, Email, EmailRule(f.email, validEmail));
    var e := SetSlot(e, Password, PasswordRule(f.password));
    SetSlot(e, ConfirmPassword, ConfirmRule(f.password, f.confirmPassword))
  }

  /** The checks of the validation block as the page runs them, in order,
      each writing its slot of the map and later checks overwriting earlier
      ones. `validEmail` stands for `filter_var($email, FILTER_VALIDATE_EMAIL)`. */
  method Check(f: Fields, validEmail: Bytes -> bool) returns (errors: map<ErrorKey, Message>)
    ensures errors == ValidationErrors(f, validEmail)
  {
    errors := map[];

    if IsEmpty(f.name) {
      errors := errors[Name := NameRequired];
    }
    if IsEmpty(f.email) {
      errors := errors[Email := EmailRequired];
    }
    if IsEmpty(f.password) {
      errors := errors[Password := PasswordRequired];
    }
    if IsEmpty(f.confirmPassword) {
      errors := errors[ConfirmPassword := ConfirmRequired];
    }

    if !IsEmpty(f.email) && !validEmail(f.email) {
      errors := errors[Email := EmailMalformed];
    }

    if !IsEmpty(f.password) {
      if |f.password| < MinPasswordLength {
        errors := errors[Password := PasswordTooShort];
      } else if !HasUpper(f.password) || !HasLower(f.password) || !HasDigitOrSymbol(f.password) {
        errors := errors[Password := PasswordTooWeak];
      }
    }

    if f.password != f.confirmPassword {
      errors := errors[ConfirmPassword := PasswordsDiffer];
    }
  }

  /** The whole validation block: read the four fields (name and email
      trimmed, the passwords untouched), then run the checks. */
  method Validate(form: Form, validEmail: Bytes -> bool) returns (f: Fields, errors: map<ErrorKey, Message>)
    ensures f == Normalize(form)
    ensures errors == ValidationErrors(f, validEmail)
  {
    var name := Trim(Posted(form, "name"));
    var email := Trim(Posted(form, "email"));
    var password := Posted(form, "password");
    var confirmPassword := Posted(form, "confirm_password");
    f := Fields(name, email, password, confirmPassword);
    errors := Check(f, validEmail);
  }

  /** Each required-field message is present exactly when its field is
      PHP-empty; for the confirmation only while the mismatch check does not
      replace it. */
  lemma RequiredMessages(f: Fields, validEmail: Bytes -> bool)
    ensures var e := ValidationErrors(f, validEmail);
      && ((Name in e && e[Name] == NameRequired) <==> IsEmpty(f.name))
      && (Name in e ==> e[Name] == NameRequired)
      && ((Email in e && e[Email] == EmailRequired) <==> IsEmpty(f.email))
      && ((Password in e && e[Password] == PasswordRequired) <==> IsEmpty(f.password))
      && ((ConfirmPassword in e && e[ConfirmPassword] == ConfirmRequired)
          <==> IsEmpty(f.confirmPassword) && f.password == f.confirmPassword)
  {
  }

  /** The email slot holds the format message only for a non-empty address the
      format predicate rejects, and the two email messages never coexist. */
  lemma EmailMessages(f: Fields, validEmail: Bytes -> bool)
    ensures var e := ValidationErrors(f, validEmail);
      && ((Email in e && e[Email] == EmailMalformed) <==> !IsEmpty(f.email) && !validEmail(f.email))
      && (Email in e ==> e[Email] == EmailRequired || e[Email] == EmailMalformed)
      && (Email !in e <==> !IsEmpty(f.email) && validEmail(f.email))
  {
  }

  /** For a non-empty password, the length message is set iff it is shorter
      than 8 bytes and the class message iff it is long enough but misses a
      class; the slot never holds anything else. */
  lemma PasswordMessages(f: Fields, validEmail: Bytes -> bool)
    ensures var e := ValidationErrors(f, validEmail);
      && ((Password in e && e[Password] == PasswordTooShort)
          <==> !IsEmpty(f.password) && |f.password| < MinPasswordLength)
      && ((Password in e && e[Password] == PasswordTooWeak)
          <==> !IsEmpty(f.password) && |f.password| >= MinPasswordLength && !HasRequiredClasses(f.password))
      && (Password in e ==> e[Password] in {PasswordRequired, PasswordTooShort, PasswordTooWeak})
  {
  }

  /** A byte-level difference between password and confirmation puts the
      mismatch message in the confirmation slot, whatever the required check
      did; equal ones leave the slot as the required check set it. */
  lemma MismatchWins(f: Fields, validEmail: Bytes -> bool)
    ensures var e := ValidationErrors(f, validEmail);
      && (f.password != f.confirmPassword ==> ConfirmPassword in e && e[ConfirmPassword] == PasswordsDiffer)
      && (f.password == f.confirmPassword ==>
            (ConfirmPassword in e <==> IsEmpty(f.confirmPassword))
            && (ConfirmPassword in e ==> e[ConfirmPassword] == ConfirmRequired))
  {
  }

  /** Validation never raises the storage banner. */
  lemma NoFileErrorFromValidation(f: Fields, validEmail: Bytes -> bool)
    ensures FileError !in ValidationErrors(f, validEmail)
  {
  }

  /** A submission passes exactly when every rule of the policy holds. */
  lemma PassesIff(f: Fields, validEmail: Bytes -> bool)
    ensures ValidationErrors(f, validEmail) == map[] <==>
      && !IsEmpty(f.name)
      && !IsEmpty(f.email) && validEmail(f.email)
      && !IsEmpty(f.password) && |f.password| >= MinPasswordLength && HasRequiredClasses(f.password)
      && f.password == f.confirmPassword
  {
    var e := ValidationErrors(f, validEmail);
    if e == map[] {
      assert Name !in e && Email !in e && Password !in e && ConfirmPassword !in e;
    }
  }

  /** The password examples: "abc" is too short, "abcdefgh" lacks
      an uppercase letter and a digit, "Abcdefg1" passes. */
  lemma PasswordExamples()
    ensures PasswordRule(Ascii("abc")) == Some(PasswordTooShort)
    ensures PasswordRule(Ascii("abcdefgh")) == Some(PasswordTooWeak)
    ensures PasswordRule(Ascii("Abcdefg1")) == None
  {
    var weak := Ascii("abcdefgh");
    assert !HasUpper(weak) by {
      forall i | 0 <= i < |weak| ensures !(0x41 <= weak[i] <= 0x5A) {
        assert 0x61 <= "abcdefgh"[i] as int <= 0x7A;
      }
    }
    var good := Ascii("Abcdefg1");
    assert good[0] == 0x41 && good[1] == 0x62 && good[7] == 0x31;
    assert HasRequiredClasses(good);
  }

  /** "0" is PHP-empty, so a name or email of "0" counts as missing and a
      password of "0" gets the required message, not the length message. */
  lemma ZeroCountsAsMissing(validEmail: Bytes -> bool)
    ensures var zero: Bytes := [0x30];
      ValidationErrors(Fields(zero, zero, zero, zero), validEmail)
        == map[Name := NameRequired, Email := EmailRequired,
               Password := PasswordRequired, ConfirmPassword := ConfirmRequired]
  {
  }

  /** A well-formed password with a confirmation that differs from it by one
      trailing byte gives exactly the mismatch message and no other error. */
  lemma MismatchExample(name: Bytes, email: Bytes, validEmail: Bytes -> bool)
    requires !IsEmpty(name) && !IsEmpty(email) && validEmail(email)
    ensures ValidationErrors(Fields(name, email, Ascii("Abcdefg1"), Ascii("Abcdefg1x")), validEmail)
      == map[ConfirmPassword := PasswordsDiffer]
  {
    PasswordExamples();
    assert |Ascii("Abcdefg1")| != |Ascii("Abcdefg1x")|;
  }
}
