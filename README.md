# User registration page: validation and user store

A Dafny model of the logic at the top of `r.php`, a one-page PHP user
registration form. On a POST the page reads four fields (name, email,
password, confirmation). It trims the name and email, then runs a fixed
sequence of checks that fill an error map keyed by field, with later checks
overwriting earlier ones on the same slot. When the map is empty it loads the
user list from `users.json`, appends one record `{name, email, hash}`, writes
the whole list back and reports success. It reports a storage failure under
the `file_error` key instead.

Modules:

- `Php` (`php.dfy`): the PHP built-ins the page relies on, over byte strings.
  These are `empty` on a string (true for `""` and `"0"`), `trim` with its
  default character list, and the three character-class tests of
  `preg_match`. `trim` is fully characterised: it cuts exactly the trimmable
  ends, the cut is unique, and trimming twice is trimming once.
- `Messages` (`messages.dfy`): the keys of the error map and the fixed
  messages the page stores under them, as datatypes. `Text` gives each
  message's exact wording, and `KeyName` gives the array key each slot uses.
- `Validation` (`validation.dfy`): the validator. `Check` runs the checks of
  r.php:14-41 in order, overwriting slots of a local map as the page does.
  `Validate` adds the field reading of r.php:9-12. Both are proved equal to
  `ValidationErrors`, a declarative definition that gives each slot's final
  message by one rule per field. The lemmas state the policy's properties
  over that definition.
- `UserStore` (`user_store.dfy`): the user record and the three states a store
  file can be in: missing, unreadable, or present with some content. It also
  holds the JSON codec as a pair of functions, the starting list a request
  loads, and what a write leaves behind.
- `Registration` (`registration.dfy`): the request. `Register` runs the storage
  block of r.php:43-78 step by step, and `HandleRequest` runs the whole page
  logic. Each is proved equal to a spec function (`StorageOutcome`, `Respond`).
  The lemmas cover validation gating storage, read and write failures,
  append-at-end, the success/error consistency of the result, and persistence
  across two requests.

The calls whose code is not in the repository are inputs of the model:
`filter_var(…, FILTER_VALIDATE_EMAIL)`, `password_hash`, `json_decode` and
`json_encode`. They are fields of the `Library` datatype (`validEmail`, `hash`,
`codec`). File access is also an input: the `UserFile` the request finds,
plus a `writeSucceeds` flag for `file_put_contents`.

Every required-field check uses PHP's `empty`, which treats the string `"0"`
as missing as well as `""`. The model follows the code. `ZeroCountsAsMissing`
states the consequence: a name, email, password or confirmation of `"0"` gets
the "required" message, and a password of `"0"` never reaches the length check.

## Model

| member | source | states |
|---|---|---|
| `Php.IsEmpty` | r.php:14-31 | `empty` on a string holds for `""` and for the one-byte string `"0"` and for nothing else: a string of two or more bytes always counts as present |
| `Php.SkipForward` | r.php:9-10 | the forward scan of `trim` stops at the first byte at or after its start that is not trimmable, or at the end, having passed only trimmable bytes |
| `Php.SkipBackward` | r.php:9-10 | the backward scan of `trim` stops just after the last byte before its end that is not trimmable, never going below its lower bound, having passed only trimmable bytes |
| `Php.Trim` | r.php:9-10 | `trim` never lengthens its input, and a non-empty result neither starts nor ends with space, tab, newline, carriage return, NUL or vertical tab |
| `Php.TrimStrips` | r.php:9-10 | `trim` returns a middle slice of its input with only trimmable bytes outside it and non-trimmable bytes at both of its ends |
| `Php.TrimIsUniqueStrip` | r.php:9-10 | every such slice is the one `trim` returns, so together with TrimStrips this determines `trim` completely |
| `Php.TrimIdempotent` | r.php:9-10 | trimming an already trimmed name or email changes nothing |
| `Php.TrimExample` | r.php:9 | `trim(" 0\t")` is `"0"` |
| `Php.ClassTestsSplit` | r.php:34 | each of the three `preg_match` class tests holds on a concatenation exactly when it holds on one of its parts: it looks for a single byte of its class anywhere in the password |
| `Messages.KeyNamesAreDistinct` | r.php:14-47 | the five keys the error map uses (`name`, `email`, `password`, `confirm_password`, `file_error`) are different array keys, so a write to one slot never touches another |
| `Validation.MissingFieldReadsAsEmpty` | r.php:9-12 | a field left out of the POST data and a field posted as the empty string give the same normalised fields |
| `Validation.Check` | r.php:14-41 | running the eight checks in source order, each overwriting its slot, gives exactly the per-field error map ValidationErrors |
| `Validation.Validate` | r.php:9-41 | the validator works on trimmed name and email and untrimmed passwords, and its error map is ValidationErrors of those fields |
| `Validation.RequiredMessages` | r.php:14-41 | each "required" message is present exactly when its field is PHP-empty (`""` or `"0"`). For the confirmation, it is present only while it equals the password. The name slot holds no other message |
| `Validation.EmailMessages` | r.php:17-29 | the format message is set exactly for a non-empty address the format predicate rejects. The email slot holds only the required or the format message, and it is absent exactly for a non-empty valid address |
| `Validation.PasswordMessages` | r.php:20-37 | the length message is set iff a non-empty password is shorter than 8 bytes. The class message is set iff it is at least 8 bytes long and misses a class. The slot never holds anything but the three password messages |
| `Validation.MismatchWins` | r.php:39-41 | if the password and confirmation differ byte for byte, the confirmation slot holds the mismatch message whatever was there. If they are equal, the slot is as the required check left it |
| `Validation.NoFileErrorFromValidation` | r.php:14-41 | the validator never sets the `file_error` key |
| `Validation.PassesIff` | r.php:14-43 | the error map is empty iff the name is not PHP-empty and the email is non-empty and well formed. The password must be at least 8 bytes with all three classes, and the confirmation must equal it |
| `Validation.PasswordExamples` | r.php:31-37 | `"abc"` gets the length message, `"abcdefgh"` gets the class message, and `"Abcdefg1"` gets no password error |
| `Validation.ZeroCountsAsMissing` | r.php:14-25 | four fields of `"0"` give exactly the four "required" messages, and a password of `"0"` skips the length check |
| `Validation.MismatchExample` | r.php:39-41 | a good password `"Abcdefg1"` with confirmation `"Abcdefg1x"`, a valid name and a valid email give exactly the mismatch error |
| `UserStore.StartingUsers` | r.php:44-57 | loading fails, with the read error, exactly for an unreadable file; a decoded list is loaded as it is, and a non-empty starting list can only come from a file whose content decodes to it |
| `UserStore.Serialized` | r.php:70-72 | the page writes either the encoder's output or, when encoding fails, the empty string: any non-empty bytes written are the encoding of the list |
| `UserStore.AfterWrite` | r.php:70-73 | a successful write leaves a present file holding exactly the encoding of the list when encoding succeeds, and the empty string when it fails; a failed write leaves the file as it was |
| `UserStore.WrittenListLoadsBack` | r.php:44-56 | a list written successfully is the list the next request loads, when the JSON codec round-trips it. A failed write leaves the file as it was |
| `UserStore.EncodeFailureEmptiesStore` | r.php:70-72 | when encoding fails, the page writes the empty string and the write counts as a success. The next request then starts from an empty list |
| `Registration.Register` | r.php:43-78 | the storage block, run step by step, leaves the page state and the store file that StorageOutcome describes |
| `Registration.HandleRequest` | r.php:2-78 | one request, validation then storage, gives exactly the response and store that Respond describes. Any request other than a POST leaves the initial state |
| `Registration.InvalidSubmissionStoresNothing` | r.php:43 | with any validation error, the store is not touched and no user is appended. There is no success message, and the errors are exactly the validator's, without `file_error` |
| `Registration.ReadFailureStopsBeforeAppend` | r.php:44-48 | an unreadable store file gives only the read error message. There is no append, no write and no success message |
| `Registration.AppendsOneRecordAtEnd` | r.php:50-68 | a missing or undecodable file starts from an empty list. The new list is the old one with one record added at the end, holding the trimmed name and email and the hash of the password; the first N entries are unchanged |
| `Registration.WriteOutcome` | r.php:70-77 | a failed write sets the write error message only, with no success message, and keeps name and email. A successful one sets the success message, clears name and email, leaves no error, and stores the encoded list |
| `Registration.OutcomeIsConsistent` | r.php:43-77 | after a submission, the success message shows iff the error map is empty. `file_error` is never mixed with field errors, and the store changes only for a valid submission whose write succeeded |
| `Registration.RegistrationPersists` | r.php:44-72 | after a successful registration, the next request loads the old list plus the new record, provided the codec round-trips it |
| `Registration.TwoRegistrations` | r.php:43-77 | two valid registrations on a missing store leave both records, in order, even with the same email: the page does no duplicate check |
| `Registration.UndecodableStoreIsOverwritten` | r.php:50-53 | a store whose content does not decode is replaced by a list holding only the new user, and the page still reports success |
| `Registration.EmptyPost` | r.php:8-43 | a POST carrying none of the four fields gets exactly the four "required" messages, no success message, no user list, and leaves the store untouched |

## Left out

- HTML output, `htmlspecialchars`, and the helpers `get_input_value` and `display_error` (r.php:81-157) are not modelled. They render the state the model computes and decide nothing.
- The grammar of `FILTER_VALIDATE_EMAIL` is not modelled. It is library code, and the model takes it as the parameter `validEmail`.
- `password_hash` with `PASSWORD_DEFAULT` is the parameter `hash`. Its salting, its cost and its randomness are not modelled, and neither is `password_verify`. The model only shows that the stored field is the hash's output.
- The JSON text formats are not modelled. `json_decode` is a function giving a list of records or `None`, and `json_encode` one giving bytes or `None`. Valid `null` is covered by `None`, since the page's append on a null `$users` builds a one-element list. Content that decodes to something other than a list is not modelled, although the page itself reacts to it: appending with `$users[] =` to a decoded string, number or `true` is a fatal error, and a decoded object gets the new user added under the next integer key and is written back as a JSON object. A decoded list can only hold records with exactly the three fields `name`, `email` and `password`. A JSON array of other values (numbers, objects with missing or extra keys) cannot be represented: the page would keep those entries, append the new user and write them all back, whereas a model `decode` must either return `None` for such content, which empties the list, or drop the entries it cannot represent.
- The store's path `users.json` (r.php:2) is not modelled. There is one store, and its path plays no part.
- File system calls (`file_exists`, `file_get_contents`, `file_put_contents`) are inputs: the `UserFile` state and the `writeSucceeds` flag. A failed write is taken to leave the file as it was; partial writes are not modelled.
- Form values that PHP would deliver as arrays rather than strings are not modelled. Every posted value is a byte string.
- Concurrent requests racing on the read-modify-write of `users.json` are not modelled. The model handles one request at a time.
- `$password` and `$confirmPassword` remain page variables after the request, but `Page` does not record them. The form never echoes them back.
