/** The registration page's request handling: on a POST, validate the four
    fields and, when they pass, append the new user to the store and report
    the outcome; on any other request, show the empty form. */
module Registration {
  import opened Wrappers
  import opened Php
  import opened Messages
  import opened Validation
  import opened UserStore

  const RegistrationSucceeded := "Registration successful! You can now log in."

  /** The library calls the page makes whose code is not part of this model:
      `filter_var(…, FILTER_VALIDATE_EMAIL)`, `password_hash(…, PASSWORD_DEFAULT)`
      and the JSON codec. */
  datatype Library = Library(validEmail: Bytes -> bool, hash: Bytes -> Bytes, codec: Codec)

  /** The request method the page tests for: a POST with its form data, or
      any other method (GET, HEAD, ...), which the page treats alike. */
  datatype Request = OtherMethod | Post(form: Form)

  /** The page's top-level variables once the request is handled: the name
      and email echoed back into the form, the error map, the success banner
      and the in-memory user list. */
  datatype Page = Page(name: Bytes, email: Bytes, errors: map<ErrorKey, Message>,
                       successMessage: string, users: seq<UserRecord>)

  /** The variables before any request is looked at. */
  function InitialPage(): Page {
    Page([], [], map[], "", [])
  }

  /** The record a validated submission becomes: trimmed name and email, and
      the hash of the raw password in place of the password. */
  function NewUser(f: Fields, hash: Bytes -> Bytes): UserRecord {
    UserRecord(f.name, f.email, hash(f.password))
  }

  /** What the storage block leaves behind, given the validated fields and the
      validator's error map. */
  function StorageOutcome(f: Fields, errors: map<ErrorKey, Message>, file: UserFile, lib: Library, writeSucceeds: bool): (Page, UserFile) {
    if errors != map[] then
      (Page(f.name, f.email, errors, "", []), file)
    else
      match StartingUsers(file, lib.codec.decode)
      case Failure(message) =>
        (Page(f.name, f.email, map[FileError := message], "", []), file)
      case Success(stored) =>
        var users := stored + [NewUser(f, lib.hash)];
        var file' := AfterWrite(file, users, lib.codec, writeSucceeds);
        if writeSucceeds then (Page([], [], map[], RegistrationSucceeded, users), file')
        else (Page(f.name, f.email, map[FileError := WriteFailed], "", users), file')
  }

  /** The outcome of submitting the normalised fields `f`. */
  function Submission(f: Fields, file: UserFile, lib: Library, writeSucceeds: bool): (Page, UserFile) {
    StorageOutcome(f, ValidationErrors(f, lib.validEmail), file, lib, writeSucceeds)
  }

  /** The page's response to one request, and the store after it. */
  function Respond(req: Request, file: UserFile, lib: Library, writeSucceeds: bool): (Page, UserFile) {
    match req
    case OtherMethod => (InitialPage(), file)
    case Post(form) => Submission(Normalize(form), file, lib, writeSucceeds)
  }

  /** The storage block as the page runs it: only with an empty error map,
      load the list (a missing or undecodable file gives an empty one, an
      unreadable one the read error), then hash, append, encode and write,
      and record the write's outcome. */
  method Register(f: Fields, errors: map<ErrorKey, Message>, file: UserFile, lib: Library, writeSucceeds: bool)
    returns (page: Page, file': UserFile)
    ensures (page, file') == StorageOutcome(f, errors, file, lib, writeSucceeds)
  {
    var name, email := f.name, f.email;
    var errs := errors;
    var successMessage := "";
    var users: seq<UserRecord> := [];
    file' := file;

    if errs == map[] {
      if !file.Missing? {
        if file.Unreadable? {
          errs := errs[FileError := ReadFailed];
          users := [];
          assert FileError in errs;
        } else {
          var decoded := lib.codec.decode(file.content);
          if decoded.None? {
            users := [];
          } else {
            users := decoded.value;
          }
        }
      } else {
        users := [];
      }

      assert StartingUsers(file, lib.codec.decode)
        == if errs == map[] then Success(users) else Failure(ReadFailed);

      if errs == map[] {
        var hashed := lib.hash(f.password);
        var newUser := UserRecord(name, email, hashed);
        users := users + [newUser];
        var json := lib.codec.encode(users);
        if !writeSucceeds {
          errs := errs[FileError := WriteFailed];
        } else {
          file' := Present(if json.Some? then json.value else []);
          successMessage := RegistrationSucceeded;
          name, email := [], [];
        }
      }
    }

    page := Page(name, email, errs, successMessage, users);
  }

  /** One request, start to finish. */
  method HandleRequest(req: Request, file: UserFile, lib: Library, writeSucceeds: bool)
    returns (page: Page, file': UserFile)
    ensures (page, file') == Respond(req, file, lib, writeSucceeds)
  {
    page := InitialPage();
    file' := file;
    if req.Post? {
      var f, errors := Validate(req.form, lib.validEmail);
      page, file' := Register(f, errors, file, lib, writeSucceeds);
    }
  }

  /** A submission that fails validation reports exactly the validator's
      errors, shows no success banner, and neither touches the store nor
      appends a user. */
  lemma InvalidSubmissionStoresNothing(f: Fields, file: UserFile, lib: Library, writeSucceeds: bool)
    requires ValidationErrors(f, lib.validEmail) != map[]
    ensures var (page, file') := Submission(f, file, lib, writeSucceeds);
      && file' == file
      && page.users == []
      && page.successMessage == ""
      && page.errors == ValidationErrors(f, lib.validEmail)
      && FileError !in page.errors
  {
    NoFileErrorFromValidation(f, lib.validEmail);
  }

  /** An unreadable store stops a valid submission before hashing: only the
      read error, no user appended, nothing written. */
  lemma ReadFailureStopsBeforeAppend(f: Fields, lib: Library, writeSucceeds: bool)
    requires ValidationErrors(f, lib.validEmail) == map[]
    ensures var (page, file') := Submission(f, Unreadable, lib, writeSucceeds);
      && page.errors == map[FileError := ReadFailed]
      && page.users == []
      && page.successMessage == ""
      && file' == Unreadable
  {
  }

  /** A valid submission appends exactly one record, carrying the trimmed name
      and email and the hash of the password, after the stored users, which
      stay as they were. A missing or undecodable store counts as empty. */
  lemma AppendsOneRecordAtEnd(f: Fields, file: UserFile, lib: Library, writeSucceeds: bool)
    requires ValidationErrors(f, lib.validEmail) == map[]
    requires !file.Unreadable?
    ensures var stored := StartingUsers(file, lib.codec.decode).value;
      var (page, _) := Submission(f, file, lib, writeSucceeds);
      && (file.Missing? || lib.codec.decode(file.content).None? ==> stored == [])
      && |page.users| == |stored| + 1
      && page.users[..|stored|] == stored
      && page.users[|stored|] == UserRecord(f.name, f.email, lib.hash(f.password))
  {
  }

  /** Once the list is loaded, a failed write raises the storage error and no
      success banner and leaves the store alone; a successful one shows the
      success banner, clears name and email and leaves no error. */
  lemma WriteOutcome(f: Fields, file: UserFile, lib: Library, writeSucceeds: bool)
    requires ValidationErrors(f, lib.validEmail) == map[]
    requires !file.Unreadable?
    ensures var (page, file') := Submission(f, file, lib, writeSucceeds);
      && (!writeSucceeds ==>
            page.errors == map[FileError := WriteFailed] && page.successMessage == "" && file' == file
            && page.name == f.name && page.email == f.email)
      && (writeSucceeds ==>
            page.errors == map[] && page.successMessage == RegistrationSucceeded
            && page.name == [] && page.email == []
            && file' == Present(Serialized(page.users, lib.codec.encode)))
  {
  }

  /** After a submission the success banner shows exactly when the error map
      is empty; the storage error, when present, is the only error; and the
      store changes only for a valid submission whose write succeeded. */
  lemma OutcomeIsConsistent(f: Fields, file: UserFile, lib: Library, writeSucceeds: bool)
    ensures var (page, file') := Submission(f, file, lib, writeSucceeds);
      && (page.successMessage == RegistrationSucceeded <==> page.errors == map[])
      && (page.successMessage == "" || page.successMessage == RegistrationSucceeded)
      && (FileError in page.errors ==> page.errors.Keys == {FileError})
      && (file' != file ==> ValidationErrors(f, lib.validEmail) == map[] && writeSucceeds)
  {
    NoFileErrorFromValidation(f, lib.validEmail);
  }

  /** A successful registration is what the next request loads, provided the
      JSON library round-trips the new list. */
  lemma RegistrationPersists(f: Fields, file: UserFile, lib: Library, stored: seq<UserRecord>)
    requires ValidationErrors(f, lib.validEmail) == map[]
    requires StartingUsers(file, lib.codec.decode) == Success(stored)
    requires RoundTrips(lib.codec, stored + [NewUser(f, lib.hash)])
    ensures var (_, file') := Submission(f, file, lib, true);
      StartingUsers(file', lib.codec.decode) == Success(stored + [NewUser(f, lib.hash)])
  {
    WrittenListLoadsBack(file, stored + [NewUser(f, lib.hash)], lib.codec, true);
  }

  /** Two valid registrations on a fresh store leave both users in order,
      even with the same email address: the page does not check for
      duplicates. */
  lemma TwoRegistrations(first: Fields, second: Fields, lib: Library)
    requires ValidationErrors(first, lib.validEmail) == map[]
    requires ValidationErrors(second, lib.validEmail) == map[]
    requires RoundTrips(lib.codec, [NewUser(first, lib.hash)])
    requires RoundTrips(lib.codec, [NewUser(first, lib.hash), NewUser(second, lib.hash)])
    ensures var (_, file1) := Submission(first, Missing, lib, true);
      var (_, file2) := Submission(second, file1, lib, true);
      StartingUsers(file2, lib.codec.decode) == Success([NewUser(first, lib.hash), NewUser(second, lib.hash)])
  {
    var r1, r2 := NewUser(first, lib.hash), NewUser(second, lib.hash);
    assert [] + [r1] == [r1];
    RegistrationPersists(first, Missing, lib, []);
    var (_, file1) := Submission(first, Missing, lib, true);
    assert [r1] + [r2] == [r1, r2];
    RegistrationPersists(second, file1, lib, [r1]);
  }

  /** A store whose content does not decode is replaced by a list holding
      only the new user: the users it held are lost. */
  lemma UndecodableStoreIsOverwritten(f: Fields, content: Bytes, lib: Library)
    requires ValidationErrors(f, lib.validEmail) == map[]
    requires lib.codec.decode(content) == None
    requires RoundTrips(lib.codec, [NewUser(f, lib.hash)])
    ensures var (page, file') := Submission(f, Present(content), lib, true);
      && page.successMessage == RegistrationSucceeded
      && StartingUsers(file', lib.codec.decode) == Success([NewUser(f, lib.hash)])
  {
    assert [] + [NewUser(f, lib.hash)] == [NewUser(f, lib.hash)];
    RegistrationPersists(f, Present(content), lib, []);
  }

  /** A POST with none of the four fields reads each as the empty string, so
      it gets exactly the four "required" messages and leaves the store as it
      was. */
  lemma EmptyPost(file: UserFile, lib: Library, writeSucceeds: bool)
    ensures Respond(Post(map[]), file, lib, writeSucceeds)
      == (Page([], [], map[Name := NameRequired, Email := EmailRequired,
                           Password := PasswordRequired, ConfirmPassword := ConfirmRequired],
               "", []), file)
  {
    TrimIsUniqueStrip([], 0, 0);
    assert Normalize(map[]) == Fields([], [], [], []);
    assert Name in ValidationErrors(Fields([], [], [], []), lib.validEmail);
  }
}
