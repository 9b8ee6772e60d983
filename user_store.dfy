/** The UserStore: the persisted list of users in `users.json`, read whole,
    extended by one record and written back whole. File access and the JSON
    library are inputs: what the page finds at the path, and the decode and
    encode functions it calls. */
module UserStore {
  import opened Wrappers
  import opened Php
  import opened Messages

  /** One stored user; `password` holds the credential hash, never the raw
      password. */
  datatype UserRecord = UserRecord(name: Bytes, email: Bytes, password: Bytes)

  /** What the page finds at the store's path: no file (`file_exists` false),
      a file whose read fails (`file_get_contents` false), or its content. */
  datatype UserFile = Missing | Unreadable | Present(content: Bytes)

  /** The JSON library as the page uses it. `decode` is `json_decode($c, true)`
      read as a list of records, `None` where it yields null; `encode` is
      `json_encode($users, JSON_PRETTY_PRINT)`, `None` where it yields false. */
  datatype Codec = Codec(decode: Bytes -> Option<seq<UserRecord>>, encode: seq<UserRecord> -> Option<Bytes>)

  /** The list the page appends to: empty for a missing file and for content
      that does not decode, the decoded list otherwise, and the read error for
      an unreadable file. */
  function StartingUsers(file: UserFile, decode: Bytes -> Option<seq<UserRecord>>): (r: Result<seq<UserRecord>, Message>)
    ensures r.Failure? <==> file.Unreadable?
    ensures r.Failure? ==> r.error == ReadFailed
    ensures r.Success? && r.value != [] ==> file.Present? && decode(file.content) == Some(r.value)
    ensures file.Present? && decode(file.content).Some? ==> r == Success(decode(file.content).value)
  {
    match file
    case Missing => Success([])
    case Unreadable => Failure(ReadFailed)
    case Present(content) => Success(decode(content).GetOr([]))
  }

  /** The bytes handed to `file_put_contents`: the encoding of the list, or
      the empty string when encoding yields false. */
  function Serialized(users: seq<UserRecord>, encode: seq<UserRecord> -> Option<Bytes>): (r: Bytes)
    ensures r != [] ==> encode(users) == Some(r)
    ensures encode(users).Some? ==> r == encode(users).value
  {
    encode(users).GetOr([])
  }

  /** The file after the page writes `users`: the new document when the write
      succeeds, the file as it was when it fails. */
  function AfterWrite(file: UserFile, users: seq<UserRecord>, codec: Codec, writeSucceeds: bool): (r: UserFile)
    ensures writeSucceeds && codec.encode(users).Some? ==> r == Present(codec.encode(users).value)
    ensures writeSucceeds && codec.encode(users).None? ==> r == Present([])
    ensures !writeSucceeds ==> r == file
  {
    if writeSucceeds then Present(Serialized(users, codec.encode)) else file
  }

  /** The JSON library reads back what it wrote for this list. */
  predicate RoundTrips(codec: Codec, users: seq<UserRecord>) {
    codec.encode(users).Some? && codec.decode(codec.encode(users).value) == Some(users)
  }

  /** A written list is the list the next request starts from, provided the
      JSON library round-trips it; a failed write leaves the starting list as
      it was. */
  lemma WrittenListLoadsBack(file: UserFile, users: seq<UserRecord>, codec: Codec, writeSucceeds: bool)
    requires RoundTrips(codec, users)
    ensures writeSucceeds ==> StartingUsers(AfterWrite(file, users, codec, writeSucceeds), codec.decode) == Success(users)
    ensures !writeSucceeds ==> AfterWrite(file, users, codec, writeSucceeds) == file
  {
  }

  /** An encoding failure still counts as a successful write, of the empty
      string, which `json_decode` rejects: the next request starts from an
      empty list. */
  lemma EncodeFailureEmptiesStore(file: UserFile, users: seq<UserRecord>, codec: Codec)
    requires codec.encode(users) == None && codec.decode([]) == None
    ensures AfterWrite(file, users, codec, true) == Present([])
    ensures StartingUsers(AfterWrite(file, users, codec, true), codec.decode) == Success([])
  {
  }
}
