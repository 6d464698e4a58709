/**
 The create-user use case: take one identifier from the generator, build a
 User (reading the clock twice), append it through the repository's
 `create`, and project it into a response.

 The generator and the clock are abstract: the n-th identifier handed out is
 `gen(n)` and the n-th clock reading is `clock(n)`. The environment counts
 how many of each have been consumed so far.
 */
module CreateUserUseCase {
  import opened Wrappers
  import opened UserEntity
  import opened UserDto
  import Repo = JsonUserRepository

  /** The id generator: the identifier it returns on its n-th call. */
  type IdGenerator = nat -> Uuid

  /** The wall clock: the value of its n-th reading. */
  type Clock = nat -> Timestamp

  /** The repository's collection, plus how many identifiers and clock readings have been used. */
  datatype Env = Env(users: seq<User>, idCalls: nat, clockReads: nat)

  /**
   A response together with the environment after the call and the error
   line, if any, that the repository's `create` wrote.
   */
  datatype Outcome = Outcome(response: CreateUserResponse, env: Env, errorLog: Option<string>)

  /** A clock whose readings never go backwards. */
  ghost predicate Monotone(clock: Clock) {
    forall i: nat, j: nat :: i <= j ==> clock(i) <= clock(j)
  }

  /** A generator that never repeats an identifier. */
  ghost predicate Injective(gen: IdGenerator) {
    forall i: nat, j: nat :: i != j ==> gen(i) != gen(j)
  }

  /** The user `execute` builds for `req` in environment `env`. */
  function BuiltUser(env: Env, req: CreateUserRequest, gen: IdGenerator, clock: Clock): (u: User)
  {
    NewUser(gen(env.idCalls), req.name, req.email, req.password, req.address,
            clock(env.clockReads), clock(env.clockReads + 1))
  }

  /**
   `execute`. The repository's save outcome `save` is accepted but ignored:
   the use case has no error path and always returns a response.
   */
  function Execute(env: Env, req: CreateUserRequest, gen: IdGenerator, clock: Clock,
                   save: Repo.SaveOutcome): (o: Outcome)
    ensures o.response.name == req.name && o.response.email == req.email
    ensures o.response.password == req.password && o.response.address == req.address
    ensures o.response.id == gen(env.idCalls) && o.env.idCalls == env.idCalls + 1
    ensures o.env.clockReads == env.clockReads + 2
    ensures o.response.createdAt == clock(env.clockReads)
    ensures o.response.updatedAt == clock(env.clockReads + 1)
    ensures |o.env.users| == |env.users| + 1 && o.env.users[..|env.users|] == env.users
    ensures o.env.users[|env.users|] ==
              NewUser(o.response.id, req.name, req.email, req.password, req.address,
                      clock(env.clockReads), clock(env.clockReads + 1))
    ensures o.errorLog.Some? <==> save.SaveFailed?
    ensures o.errorLog.Some? ==> o.errorLog.value == Repo.CreateErrorPrefix + save.message
  {
    var user := BuiltUser(env, req, gen, clock);
    var step := Repo.Create(env.users, user, save);
    var response := CreateUserResponse(user.id, req.name, req.email, req.password, req.address,
                                       user.createdAt, user.updatedAt);
    Outcome(response, Env(step.users, env.idCalls + 1, env.clockReads + 2), step.errorLog)
  }

  /**
   The response is exactly the projection of the user the call appended,
   although the use case copies the strings from the request, not the user.
   */
  lemma ResponseIsStoredUser(env: Env, req: CreateUserRequest, gen: IdGenerator, clock: Clock,
                             save: Repo.SaveOutcome)
    ensures var o := Execute(env, req, gen, clock, save);
            o.response == ToResponse(o.env.users[|env.users|])
  {
  }

  /**
   The response is a function of the request, the one generated identifier
   and the two clock readings: the collection, the save outcome and any other
   generator or clock values do not affect it.
   */
  lemma ResponseDependsOnlyOnInputs(e1: Env, e2: Env, req: CreateUserRequest,
                                    g1: IdGenerator, g2: IdGenerator, c1: Clock, c2: Clock,
                                    s1: Repo.SaveOutcome, s2: Repo.SaveOutcome)
    requires g1(e1.idCalls) == g2(e2.idCalls)
    requires c1(e1.clockReads) == c2(e2.clockReads)
    requires c1(e1.clockReads + 1) == c2(e2.clockReads + 1)
    ensures Execute(e1, req, g1, c1, s1).response == Execute(e2, req, g2, c2, s2).response
  {
  }

  /** Under a clock that never goes backwards, a fresh response has created_at <= updated_at. */
  lemma ExecuteTimestampsOrdered(env: Env, req: CreateUserRequest, gen: IdGenerator, clock: Clock,
                                 save: Repo.SaveOutcome)
    requires Monotone(clock)
    ensures var r := Execute(env, req, gen, clock, save).response;
            r.createdAt <= r.updatedAt
  {
  }

  /** With a fresh identifier, the created user is afterwards found by the response's id. */
  lemma ExecuteThenFind(env: Env, req: CreateUserRequest, gen: IdGenerator, clock: Clock,
                        save: Repo.SaveOutcome)
    requires !Repo.HasId(env.users, gen(env.idCalls))
    ensures var o := Execute(env, req, gen, clock, save);
            Repo.FindById(o.env.users, o.response.id).Some? &&
            ToResponse(Repo.FindById(o.env.users, o.response.id).value) == o.response
  {
    Repo.CreateThenFind(env.users, BuiltUser(env, req, gen, clock), save);
  }

  /** Two successive calls hand out different identifiers when the generator never repeats. */
  lemma SuccessiveIdsDiffer(env: Env, r1: CreateUserRequest, r2: CreateUserRequest,
                            gen: IdGenerator, clock: Clock, s1: Repo.SaveOutcome, s2: Repo.SaveOutcome)
    requires Injective(gen)
    ensures var o1 := Execute(env, r1, gen, clock, s1);
            var o2 := Execute(o1.env, r2, gen, clock, s2);
            o1.response.id != o2.response.id
  {
    var o1 := Execute(env, r1, gen, clock, s1);
    assert o1.env.idCalls == env.idCalls + 1;
  }
}
