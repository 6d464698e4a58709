/**
 The register command of the interactive driver: run the create-user use
 case, then add its response to the application store. Prompting and
 printing are left out.
 */
module Session {
  import opened UserEntity
  import opened UserDto
  import opened AppStore
  import Repo = JsonUserRepository
  import UseCase = CreateUserUseCase

  /** The driver's state: the use case's environment and the application store. */
  datatype State = State(env: UseCase.Env, store: Store)

  /** Response `r` echoes the four strings of request `req`. */
  predicate Carries(r: CreateUserResponse, req: CreateUserRequest) {
    r.name == req.name && r.email == req.email && r.password == req.password && r.address == req.address
  }

  /** One register command: execute the use case and record its response in the store. */
  function Register(st: State, req: CreateUserRequest, gen: UseCase.IdGenerator, clock: UseCase.Clock,
                    save: Repo.SaveOutcome): (st': State)
    ensures |st'.env.users| == |st.env.users| + 1 && st'.env.users[..|st.env.users|] == st.env.users
    ensures |st'.store.users| == |st.store.users| + 1
    ensures st'.store.users[..|st.store.users|] == st.store.users
    ensures st'.store.users[|st.store.users|] == ToResponse(st'.env.users[|st.env.users|])
    ensures var o := UseCase.Execute(st.env, req, gen, clock, save);
            st' == State(o.env, AddUser(st.store, o.response))
    ensures Carries(st'.store.users[|st.store.users|], req)
  {
    var o := UseCase.Execute(st.env, req, gen, clock, save);
    UseCase.ResponseIsStoredUser(st.env, req, gen, clock, save);
    State(o.env, AddUser(st.store, o.response))
  }

  /** Runs one register command per request, each with the save outcome at the same position. */
  function RegisterAll(st: State, reqs: seq<CreateUserRequest>, gen: UseCase.IdGenerator,
                       clock: UseCase.Clock, saves: seq<Repo.SaveOutcome>): (st': State)
    requires |saves| == |reqs|
    decreases |reqs|
  {
    if |reqs| == 0 then st
    else RegisterAll(Register(st, reqs[0], gen, clock, saves[0]), reqs[1..], gen, clock, saves[1..])
  }

  /**
   The store mirrors the repository's tail: `Mirrors(st, base)` holds when
   the users appended after the first `base` are exactly, in order, the ones
   whose projections the store lists.
   */
  ghost predicate Mirrors(st: State, base: nat) {
    && base + |st.store.users| == |st.env.users|
    && forall i :: 0 <= i < |st.store.users| ==> st.store.users[i] == ToResponse(st.env.users[base + i])
  }

  /**
   Registering through the driver keeps the store an exact mirror of the
   users it appended to the repository, and leaves the users that were there
   before untouched.
   */
  lemma {:induction false} RegisterAllKeepsMirror(st: State, base: nat, reqs: seq<CreateUserRequest>,
                                                  gen: UseCase.IdGenerator, clock: UseCase.Clock,
                                                  saves: seq<Repo.SaveOutcome>)
    requires |saves| == |reqs|
    requires Mirrors(st, base)
    ensures Mirrors(RegisterAll(st, reqs, gen, clock, saves), base)
    ensures |RegisterAll(st, reqs, gen, clock, saves).store.users| == |st.store.users| + |reqs|
    ensures RegisterAll(st, reqs, gen, clock, saves).env.users[..base] == st.env.users[..base]
    decreases |reqs|
  {
    if |reqs| > 0 {
      var next := Register(st, reqs[0], gen, clock, saves[0]);
      assert Mirrors(next, base) by {
        forall i | 0 <= i < |next.store.users|
          ensures next.store.users[i] == ToResponse(next.env.users[base + i])
        {
          if i < |st.store.users| {
            assert next.store.users[i] == st.store.users[i];
            assert next.env.users[base + i] == st.env.users[base + i];
          }
        }
      }
      assert next.env.users[..base] == st.env.users[..base];
      RegisterAllKeepsMirror(next, base, reqs[1..], gen, clock, saves[1..]);
    }
  }

  /**
   Registering a list of requests keeps the earlier store entries, and the
   k-th new entry echoes the k-th request. Each command takes exactly one
   identifier from the generator.
   */
  lemma {:induction false} RegisterAllEchoesRequests(st: State, reqs: seq<CreateUserRequest>,
                                                     gen: UseCase.IdGenerator, clock: UseCase.Clock,
                                                     saves: seq<Repo.SaveOutcome>)
    requires |saves| == |reqs|
    ensures |RegisterAll(st, reqs, gen, clock, saves).store.users| == |st.store.users| + |reqs|
    ensures RegisterAll(st, reqs, gen, clock, saves).store.users[..|st.store.users|] == st.store.users
    ensures forall k :: 0 <= k < |reqs| ==>
              Carries(RegisterAll(st, reqs, gen, clock, saves).store.users[|st.store.users| + k], reqs[k])
    ensures RegisterAll(st, reqs, gen, clock, saves).env.idCalls == st.env.idCalls + |reqs|
    decreases |reqs|
  {
    if |reqs| > 0 {
      var next := Register(st, reqs[0], gen, clock, saves[0]);
      RegisterAllEchoesRequests(next, reqs[1..], gen, clock, saves[1..]);
      var final := RegisterAll(st, reqs, gen, clock, saves);
      var n := |st.store.users|;
      assert final.store.users[..|next.store.users|] == next.store.users;
      assert final.store.users[n] == next.store.users[n];
      assert final.store.users[..n] == st.store.users by {
        assert next.store.users[..n] == st.store.users;
      }
      forall k | 0 <= k < |reqs|
        ensures Carries(final.store.users[n + k], reqs[k])
      {
        if k > 0 {
          assert reqs[1..][k - 1] == reqs[k];
          assert n + k == |next.store.users| + (k - 1);
        }
      }
    }
  }

  /**
   A session that starts with an empty store and a repository holding
   `initial` ends with the store listing the projection of every user the
   session registered, in order, after the untouched `initial` users; the
   i-th entry echoes the i-th request's four strings.
   */
  lemma SessionStoreMirrorsRegistrations(initial: seq<User>, idCalls: nat, clockReads: nat,
                                         reqs: seq<CreateUserRequest>, gen: UseCase.IdGenerator,
                                         clock: UseCase.Clock, saves: seq<Repo.SaveOutcome>)
    requires |saves| == |reqs|
    ensures var final := RegisterAll(State(UseCase.Env(initial, idCalls, clockReads), NewStore()),
                                     reqs, gen, clock, saves);
            && |final.env.users| == |initial| + |reqs|
            && final.env.users[..|initial|] == initial
            && |GetUsers(final.store)| == |reqs|
            && (forall i :: 0 <= i < |reqs| ==> GetUsers(final.store)[i] == ToResponse(final.env.users[|initial| + i]))
            && forall i :: 0 <= i < |reqs| ==> Carries(GetUsers(final.store)[i], reqs[i])
  {
    var st := State(UseCase.Env(initial, idCalls, clockReads), NewStore());
    assert st.env.users[..|initial|] == initial;
    RegisterAllKeepsMirror(st, |initial|, reqs, gen, clock, saves);
    RegisterAllEchoesRequests(st, reqs, gen, clock, saves);
  }
}
