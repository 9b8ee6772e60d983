/** The page's result vocabulary: the keys of its `$errors` map and the fixed
    messages it stores under them, each with its exact text. */
module Messages {

  /** The keys the `$errors` map can hold: the four form fields and the storage
      banner. Keying the map by this datatype means it can hold no other key,
      and one message per key. */
  datatype ErrorKey = Name | Email | Password | ConfirmPassword | FileError

  /** The fixed messages the page can set. */
  datatype Message =
    | NameRequired | EmailRequired | PasswordRequired | ConfirmRequired
    | EmailMalformed | PasswordTooShort | PasswordTooWeak | PasswordsDiffer
    | ReadFailed | WriteFailed

  /** The array key the page uses for `k`. */
  function KeyName(k: ErrorKey): string {
    match k
    case Name => "name"
    case Email => "email"
    case Password => "password"
    case ConfirmPassword => "confirm_password"
    case FileError => "file_error"
  }

  /** The text the page shows for `m`. The model reasons about messages by
      name only; this table records their wording and takes part in no
      proof. */
  function Text(m: Message): string {
    match m
    case NameRequired => "Name is required."
    case EmailRequired => "Email address is required."
    case PasswordRequired => "Password is required."
    case ConfirmRequired => "Confirm password is required."
    case EmailMalformed => "Invalid email address format."
    case PasswordTooShort => "Password must be at least 8 characters long."
    case PasswordTooWeak => "Password must include uppercase, lowercase, and a number or special character."
    case PasswordsDiffer => "Passwords do not match."
    case ReadFailed => "Error reading user data file."
    case WriteFailed => "Error writing user data file. Check file permissions."
  }

  /** Different keys are different array keys. */
  lemma KeyNamesAreDistinct(k: ErrorKey, k': ErrorKey)
    ensures KeyName(k) == KeyName(k') ==> k == k'
  {
    assert |KeyName(k)| == |KeyName(k')| ==> k == k';
  }
}
