/**
 The JSON-file-backed user repository, as seen by one caller at a time: the
 mutex is abstracted away, so every operation is atomic. The in-memory
 collection is a sequence of users; the backing file is an abstract state
 and the JSON codec an abstract function.
 */
module JsonUserRepository {
  import opened Wrappers
  import opened UserEntity

  /** Some stored user carries identifier `id`. */
  predicate HasId(users: seq<User>, id: Uuid) {
    exists i :: 0 <= i < |users| && users[i].id == id
  }

  /** Position `i` holds the first user whose identifier is `id`. */
  predicate IsFirstMatch(users: seq<User>, id: Uuid, i: int) {
    && 0 <= i < |users|
    && users[i].id == id
    && forall j :: 0 <= j < i ==> users[j].id != id
  }

  /** The position of the first user with identifier `id`, scanning from the front. */
  function FirstIndexOf(users: seq<User>, id: Uuid): (r: Option<nat>)
    ensures r.None? <==> !HasId(users, id)
    ensures r.Some? ==> IsFirstMatch(users, id, r.value)
  {
    if |users| == 0 then None
    else if users[0].id == id then Some(0)
    else
      match FirstIndexOf(users[1..], id)
      case None =>
        assert forall k :: 1 <= k < |users| ==> users[k] == users[1..][k - 1];
        None
      case Some(i) => Some(i + 1)
  }

  /** How the file rewrite after a mutation ended. */
  datatype SaveOutcome = Saved | SaveFailed(message: string)

  /**
   The result of a mutating call: the new in-memory collection, the value
   handed back to the caller, and the line written to the error stream, if any.
   */
  datatype Step = Step(users: seq<User>, returned: User, errorLog: Option<string>)

  /** The head of the error line `create` writes when the save fails ("user save error: "). */
  const CreateErrorPrefix: string := "ユーザー保存エラー: "

  /** The head of the error line `update` writes when the save fails ("user update error: "). */
  const UpdateErrorPrefix: string := "ユーザー更新エラー: "

  /**
   The error line a failed save produces: the operation's own `prefix`
   followed by the failure's message. A successful save logs nothing.
   */
  function LogSaveError(prefix: string, save: SaveOutcome): (log: Option<string>)
    ensures log.Some? <==> save.SaveFailed?
    ensures log.Some? ==> |log.value| == |prefix| + |save.message|
    ensures log.Some? ==> log.value[..|prefix|] == prefix && log.value[|prefix|..] == save.message
  {
    match save
    case Saved => None
    case SaveFailed(m) => Some(prefix + m)
  }

  /**
   `create`: appends `u`, rewrites the file, and returns `u`. The outcome of
   the rewrite only decides whether an error line is logged.
   */
  function Create(users: seq<User>, u: User, save: SaveOutcome): (r: Step)
    ensures |r.users| == |users| + 1
    ensures r.users[..|users|] == users && r.users[|users|] == u
    ensures r.returned == u
    ensures r.errorLog.Some? <==> save.SaveFailed?
    ensures r.errorLog.Some? ==> r.errorLog.value == CreateErrorPrefix + save.message
  {
    Step(users + [u], u, LogSaveError(CreateErrorPrefix, save))
  }

  /** `find_by_id`: the first stored user with identifier `id`, if any. */
  function FindById(users: seq<User>, id: Uuid): (r: Option<User>)
    ensures r.None? <==> !HasId(users, id)
    ensures r.Some? ==> exists i :: IsFirstMatch(users, id, i) && users[i] == r.value
  {
    match FirstIndexOf(users, id)
    case None => None
    case Some(i) => Some(users[i])
  }

  /**
   `update`: replaces the first stored user that has `u`'s identifier by `u`
   as a whole; with no such user the collection is left as it is. Either
   way the file is rewritten and `u` is returned.
   */
  function Update(users: seq<User>, u: User, save: SaveOutcome): (r: Step)
    ensures |r.users| == |users|
    ensures forall k :: 0 <= k < |users| ==> r.users[k].id == users[k].id
    ensures !HasId(users, u.id) ==> r.users == users
    ensures HasId(users, u.id) ==>
              exists i :: && IsFirstMatch(users, u.id, i)
                          && r.users[i] == u
                          && forall k :: 0 <= k < |users| && k != i ==> r.users[k] == users[k]
    ensures r.returned == u
    ensures r.errorLog.Some? <==> save.SaveFailed?
    ensures r.errorLog.Some? ==> r.errorLog.value == UpdateErrorPrefix + save.message
  {
    match FirstIndexOf(users, u.id)
    case None => Step(users, u, LogSaveError(UpdateErrorPrefix, save))
    case Some(i) => Step(users[i := u], u, LogSaveError(UpdateErrorPrefix, save))
  }

  /**
   A failed file rewrite never changes the in-memory result: `create` and
   `update` leave the same collection and return the same user whatever the
   save outcome; only the error log differs.
   */
  lemma SaveOutcomeIrrelevant(users: seq<User>, u: User, s1: SaveOutcome, s2: SaveOutcome)
    ensures Create(users, u, s1).users == Create(users, u, s2).users
    ensures Create(users, u, s1).returned == Create(users, u, s2).returned == u
    ensures Update(users, u, s1).users == Update(users, u, s2).users
    ensures Update(users, u, s1).returned == Update(users, u, s2).returned == u
  {
  }

  /** After `create(u)`, looking up `u`'s identifier finds `u`, provided no earlier user had it. */
  lemma CreateThenFind(users: seq<User>, u: User, save: SaveOutcome)
    requires !HasId(users, u.id)
    ensures FindById(Create(users, u, save).users, u.id) == Some(u)
  {
    var after := Create(users, u, save).users;
    assert after[|users|] == u;
    assert IsFirstMatch(after, u.id, |users|);
  }

  /**
   Identifiers are not checked for uniqueness: when a user with `u`'s
   identifier is already stored, `create(u)` still appends, and lookups keep
   finding the earlier user.
   */
  lemma CreateDuplicateIsShadowed(users: seq<User>, u: User, save: SaveOutcome)
    requires HasId(users, u.id)
    ensures FindById(Create(users, u, save).users, u.id) == FindById(users, u.id)
  {
    var after := Create(users, u, save).users;
    var i := FirstIndexOf(users, u.id).value;
    assert IsFirstMatch(after, u.id, i);
  }

  /** `create(u)` does not change what a lookup of any other identifier returns. */
  lemma CreateFramesOtherIds(users: seq<User>, u: User, save: SaveOutcome, id: Uuid)
    requires id != u.id
    ensures FindById(Create(users, u, save).users, id) == FindById(users, id)
  {
    var after := Create(users, u, save).users;
    if HasId(users, id) {
      var i := FirstIndexOf(users, id).value;
      assert IsFirstMatch(after, id, i);
    } else {
      assert !HasId(after, id);
    }
  }

  /** After `update(u)` with `u`'s identifier present, looking it up returns exactly `u`. */
  lemma UpdateThenFind(users: seq<User>, u: User, save: SaveOutcome)
    requires HasId(users, u.id)
    ensures FindById(Update(users, u, save).users, u.id) == Some(u)
  {
    var after := Update(users, u, save).users;
    var i := FirstIndexOf(users, u.id).value;
    assert IsFirstMatch(after, u.id, i);
  }

  /** `update(u)` does not change what a lookup of any other identifier returns. */
  lemma UpdateFramesOtherIds(users: seq<User>, u: User, save: SaveOutcome, id: Uuid)
    requires id != u.id
    ensures FindById(Update(users, u, save).users, id) == FindById(users, id)
  {
    var after := Update(users, u, save).users;
    if HasId(users, id) {
      var i := FirstIndexOf(users, id).value;
      assert IsFirstMatch(after, id, i);
    } else {
      assert !HasId(after, id);
    }
  }

  /** Repeating an update changes nothing further. */
  lemma UpdateIdempotent(users: seq<User>, u: User, s1: SaveOutcome, s2: SaveOutcome)
    ensures Update(Update(users, u, s1).users, u, s2).users == Update(users, u, s1).users
  {
    var once := Update(users, u, s1).users;
    if HasId(users, u.id) {
      var i := FirstIndexOf(users, u.id).value;
      assert IsFirstMatch(once, u.id, i);
    }
  }

  // ---------------------------------------------------------------- startup

  /** The backing file as startup finds it. */
  datatype FileState =
    | Missing                 // no file at the path
    | Unreadable              // the file exists but opening or reading it fails
    | Content(text: string)   // the file's whole text

  /** Why loading the file failed. */
  datatype LoadError = ReadFailed | ParseFailed

  /**
   `load_users`: a missing file or empty text is an empty collection; a
   read failure or text the codec `parse` rejects is an error.
   */
  function LoadUsers(file: FileState, parse: string -> Option<seq<User>>): (r: Result<seq<User>, LoadError>)
    ensures (file.Missing? || file == Content("")) ==> r == Ok([])
    ensures file.Unreadable? ==> r == Err(ReadFailed)
    ensures r.Err? <==> file.Unreadable? || (file.Content? && file.text != "" && parse(file.text).None?)
    ensures file.Content? && file.text != "" && parse(file.text).Some? ==> r == Ok(parse(file.text).value)
  {
    match file
    case Missing => Ok([])
    case Unreadable => Err(ReadFailed)
    case Content(text) =>
      if text == "" then Ok([])
      else match parse(text)
        case None => Err(ParseFailed)
        case Some(users) => Ok(users)
  }

  /**
   `new`: the initial collection. Every load error falls back to the empty
   collection, so a non-empty start means the file held text the codec accepted.
   */
  function InitialUsers(file: FileState, parse: string -> Option<seq<User>>): (users: seq<User>)
    ensures file.Missing? || file.Unreadable? || file == Content("") ==> users == []
    ensures file.Content? && parse(file.text).None? ==> users == []
    ensures users != [] <==>
              file.Content? && file.text != "" && parse(file.text).Some? && parse(file.text).value != []
    ensures users != [] ==> parse(file.text) == Some(users)
  {
    LoadUsers(file, parse).UnwrapOr([])
  }

  /**
   Reloading what a successful save wrote gives back the same collection,
   given a codec that reads back what it writes and never writes empty text
   for a non-empty collection.
   */
  lemma ReloadAfterSave(users: seq<User>, serialize: seq<User> -> string, parse: string -> Option<seq<User>>)
    requires parse(serialize(users)) == Some(users)
    requires users != [] ==> serialize(users) != ""
    ensures InitialUsers(Content(serialize(users)), parse) == users
  {
  }
}
