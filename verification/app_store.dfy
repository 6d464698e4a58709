/**
 The application store: a session-local, append-only list of create-user
 responses, separate from the repository.
 */
module AppStore {
  import opened UserDto

  datatype Store = Store(users: seq<CreateUserResponse>)

  /** `AppStore::new`: an empty store. */
  function NewStore(): (s: Store)
    ensures |s.users| == 0
  {
    Store([])
  }

  /** `add_user`: appends `r` at the end; earlier entries keep their places. */
  function AddUser(s: Store, r: CreateUserResponse): (s': Store)
    ensures |s'.users| == |s.users| + 1 && s'.users[|s.users|] == r
    ensures forall i :: 0 <= i < |s.users| ==> s'.users[i] == s.users[i]
  {
    Store(s.users + [r])
  }

  /**
   `get_users`: a snapshot of every entry in insertion order. Being a
   function of the store, it leaves the store as it was.
   */
  function GetUsers(s: Store): (snapshot: seq<CreateUserResponse>)
    ensures |snapshot| == |s.users|
    ensures forall i :: 0 <= i < |s.users| ==> snapshot[i] == s.users[i]
  {
    s.users
  }

  /** Adds every response of `rs`, first to last. */
  function AddAll(s: Store, rs: seq<CreateUserResponse>): (s': Store)
    decreases |rs|
  {
    if |rs| == 0 then s else AddAll(AddUser(s, rs[0]), rs[1..])
  }

  /** Adding a list of responses to a store appends exactly that list, in order. */
  lemma {:induction false} AddAllAppends(s: Store, rs: seq<CreateUserResponse>)
    ensures GetUsers(AddAll(s, rs)) == GetUsers(s) + rs
    decreases |rs|
  {
    if |rs| > 0 {
      AddAllAppends(AddUser(s, rs[0]), rs[1..]);
      assert s.users + [rs[0]] + rs[1..] == s.users + rs;
    }
  }

  /** A new store that is given a list of responses lists exactly those, in insertion order. */
  lemma GetAfterAddAll(rs: seq<CreateUserResponse>)
    ensures GetUsers(AddAll(NewStore(), rs)) == rs
  {
    AddAllAppends(NewStore(), rs);
  }
}
