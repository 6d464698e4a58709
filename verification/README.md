# User repository and create-user flow, modelled in Dafny

This project models the sequential core of a small layered ("clean
architecture") user-management service written in Rust:

- the **User entity** (`UserEntity`): an identifier, name, email, password,
  address and two timestamps, with a constructor and two mutators that
  refresh the update time;
- the **JSON user repository** (`JsonUserRepository`): an in-memory list of
  users with `create` (append), `find_by_id` (first match) and `update`
  (replace the first match, or do nothing), mirrored to a file after every
  mutation, and the startup rule that a missing, empty, unreadable or
  unparseable file gives an empty list;
- the **request and response shapes** (`UserDto`);
- the **create-user use case** (`CreateUserUseCase`): take one identifier
  from the generator, build the user, append it through `create`, and
  project it into the response;
- the **application store** (`AppStore`): an append-only list of responses
  with a snapshot read;
- the **register command** of the interactive driver (`Session`), which
  runs the use case and then adds the response to the store.

Everything is pure: a mutation returns the new collection. The mutex is
abstracted away, so each repository call is atomic. The clock and the
identifier generator are parameters: the n-th clock reading is `clock(n)`,
the n-th generated identifier is `gen(n)`, and the use case's environment
counts how many of each it has consumed, which is how "the generator is
called exactly once and the clock twice" is stated. The entity's functions
take their clock readings as explicit arguments. The outcome of the file
rewrite is a parameter (`Saved` or `SaveFailed(message)`) that only decides
the error line logged; the JSON codec is an abstract `parse` function and
the file an abstract `FileState`. The Rust traits for the repository and the
generator become these plain functions and function-typed parameters. The
use case is fixed to the JSON repository: `Execute` calls
`JsonUserRepository.Create` directly, since that is the only repository the
program wires into the use case (src/infrastructure/cli/mod.rs:13-17).

A fresh user need not have `created_at == updated_at`: `User::new` reads
`Utc::now()` twice (src/domain/entity/user/mod.rs:24-25). Nor does the code
control whether the wall clock ever goes backwards. So
`created_at <= updated_at`, and an `updated_at` that never decreases, are
proved only under the stated assumption that clock readings never go
backwards (`NonDecreasing`, `Monotone`).

Identifiers are never checked for uniqueness, so "create then find returns
the user" is proved only when no earlier user had that identifier; when one
did, `CreateDuplicateIsShadowed` shows the lookup keeps returning the
earlier one.

## Model

| member | source | states |
|---|---|---|
| UserEntity.NewUser | src/domain/entity/user/mod.rs:17-27 | the identifier and four strings are stored as given; creation and update time are the first and second clock reading, and the entity invariant holds exactly when the first reading is not later than the second |
| UserEntity.UpdateEmail | src/domain/entity/user/mod.rs:56-59 | only the email and the update time change; the update time becomes the new reading, and a valid user stays valid with a non-decreasing update time when the reading is not earlier than its last update |
| UserEntity.UpdateAddress | src/domain/entity/user/mod.rs:61-64 | only the address and the update time change; same invariant preservation as for the email |
| UserEntity.Apply | src/domain/entity/user/mod.rs:56-64 | either mutation keeps the identifier and the creation time and stamps the update time with the new reading |
| UserEntity.ApplyAllKeepsIdentity | src/domain/entity/user/mod.rs:56-64 | no sequence of mutations changes the identifier or the creation time; under non-decreasing readings the update time never decreases and stays no earlier than creation |
| UserEntity.LifetimeKeepsInvariant | src/domain/entity/user/mod.rs:17-64 | over construction followed by any mutations, with non-decreasing clock readings, the final user is valid and keeps the identifier and first reading it was built with |
| JsonUserRepository.FirstIndexOf | src/adapter/repository/json_user_repository/mod.rs:86 | the linear scan finds a position exactly when some user has the identifier, and that position is the first such |
| JsonUserRepository.LogSaveError | src/adapter/repository/json_user_repository/mod.rs:72-74 | an error line is logged exactly when the file rewrite failed, and it is the operation's prefix followed by the failure's message |
| JsonUserRepository.Create | src/adapter/repository/json_user_repository/mod.rs:66-77 | the collection grows by one, earlier users keep their places, the new last user is the argument, the argument is returned, and the save outcome affects only the error log, which on failure is the create prefix followed by the message |
| JsonUserRepository.FindById | src/adapter/repository/json_user_repository/mod.rs:79-82 | the result is absent exactly when no user has the identifier, and otherwise is the user at the first matching position |
| JsonUserRepository.Update | src/adapter/repository/json_user_repository/mod.rs:84-97 | length and every identifier are kept; with no match the collection is unchanged; with a match only the first matching position is replaced, by the whole argument; the argument is returned whatever the save outcome; a failed save logs the update prefix followed by the message |
| JsonUserRepository.SaveOutcomeIrrelevant | src/adapter/repository/json_user_repository/mod.rs:66-97 | whatever the file rewrite's outcome, create and update leave the same collection and return their argument |
| JsonUserRepository.CreateThenFind | src/adapter/repository/json_user_repository/mod.rs:66-82 | after create, a lookup of the new user's identifier returns that user, provided no earlier user had it |
| JsonUserRepository.CreateDuplicateIsShadowed | src/adapter/repository/json_user_repository/mod.rs:66-82 | when the identifier was already present, create still appends but a lookup keeps returning the earlier user |
| JsonUserRepository.CreateFramesOtherIds | src/adapter/repository/json_user_repository/mod.rs:66-82 | create does not change the lookup of any other identifier |
| JsonUserRepository.UpdateThenFind | src/adapter/repository/json_user_repository/mod.rs:79-97 | after update with a matching identifier present, a lookup returns exactly the argument |
| JsonUserRepository.UpdateFramesOtherIds | src/adapter/repository/json_user_repository/mod.rs:79-97 | update does not change the lookup of any other identifier |
| JsonUserRepository.UpdateIdempotent | src/adapter/repository/json_user_repository/mod.rs:84-97 | updating twice with the same user gives the same collection as updating once |
| JsonUserRepository.LoadUsers | src/adapter/repository/json_user_repository/mod.rs:31-46 | a missing file or empty text loads as the empty list; an unreadable file or text the codec rejects is an error, and nothing else is; non-empty text the codec accepts loads as exactly the codec's result |
| Wrappers.Result.UnwrapOr | src/adapter/repository/json_user_repository/mod.rs:22 | a successful load keeps its value and any error falls back to the given default |
| JsonUserRepository.InitialUsers | src/adapter/repository/json_user_repository/mod.rs:18-28 | every load error falls back to the empty collection; startup is non-empty exactly when the file held non-empty text that the codec parsed to a non-empty list, which it then is |
| JsonUserRepository.ReloadAfterSave | src/adapter/repository/json_user_repository/mod.rs:31-61 | with a codec that reads back what it writes, reloading a saved collection gives the same collection in the same order |
| UserDto.ToResponse | src/application/dto/user/create_user_response_dto/mod.rs:6-14 | the response carries every field of the user unchanged |
| CreateUserUseCase.Execute | src/application/use_cases/user/create_user_usecase/mod.rs:26-51 | the response copies the request's four strings, carries the one generated identifier and the two clock readings, the generator advances by exactly one call and the clock by two reads, and the collection is the old one with the user built from the request, that identifier and those readings appended; a response is returned whatever the save outcome, and the only trace of a failed save is the repository's create error line |
| CreateUserUseCase.ResponseIsStoredUser | src/application/use_cases/user/create_user_usecase/mod.rs:30-50 | the response equals the projection of the user appended to the repository |
| CreateUserUseCase.ResponseDependsOnlyOnInputs | src/application/use_cases/user/create_user_usecase/mod.rs:26-51 | the response is determined by the request, the generated identifier and the two clock readings alone |
| CreateUserUseCase.ExecuteTimestampsOrdered | src/application/use_cases/user/create_user_usecase/mod.rs:48-49 | under a clock that never goes backwards, the response's creation time is not after its update time |
| CreateUserUseCase.ExecuteThenFind | src/application/use_cases/user/create_user_usecase/mod.rs:27-39 | with a fresh identifier, looking up the response's identifier afterwards finds the user whose projection is the response |
| CreateUserUseCase.SuccessiveIdsDiffer | src/application/use_cases/user/create_user_usecase/mod.rs:27 | two successive calls return different identifiers when the generator never repeats |
| AppStore.NewStore | src/state/app_store/mod.rs:11-15 | a new store is empty |
| AppStore.AddUser | src/state/app_store/mod.rs:17-20 | the response is appended at the end and earlier entries keep their places |
| AppStore.GetUsers | src/state/app_store/mod.rs:22-25 | the snapshot lists every entry in order |
| AppStore.AddAllAppends | src/state/app_store/mod.rs:17-25 | adding a list of responses appends exactly that list, in order |
| AppStore.GetAfterAddAll | src/state/app_store/mod.rs:11-25 | a new store given a list of responses lists exactly those, in insertion order |
| Session.Register | src/infrastructure/cli/mod.rs:55-63 | one register command runs the use case on the request and adds the use case's own response to the store; that entry is the projection of the user appended to the repository and echoes the request's four strings |
| Session.RegisterAllKeepsMirror | src/infrastructure/cli/mod.rs:20-65 | any run of register commands keeps the store listing the projections of the users the commands appended, and leaves earlier users alone |
| Session.RegisterAllEchoesRequests | src/infrastructure/cli/mod.rs:20-65 | any run of register commands keeps earlier store entries, its k-th new entry echoes the k-th request, and it takes exactly one identifier per command |
| Session.SessionStoreMirrorsRegistrations | src/infrastructure/cli/mod.rs:10-65 | from an empty store, the store ends up listing, in order, the projections of exactly the users the session appended after the initial ones, the i-th entry echoing the i-th request |

## Left out

- Concurrency: the tokio mutex and the window between releasing the lock and rewriting the file (json_user_repository lines 67-72 and 85-92). Each operation is modelled as atomic; lost file updates between overlapping writers are not modelled.
- File I/O and the serde JSON codec: the file is an abstract `FileState`, parsing an abstract function, and the rewrite an outcome parameter. The content written by `save_users` is not modelled, so `ReloadAfterSave` assumes a codec that reads back what it writes.
- UUID v4 generation: a foreign random source, modelled as an arbitrary `gen`. Uniqueness is probabilistic, so `SuccessiveIdsDiffer` assumes a generator that never repeats.
- `Utc::now()`: an arbitrary `clock`. Wall-clock monotonicity is an assumption stated in the contracts that need it, never a fact of the model.
- The accessors of `User` (user/mod.rs lines 28-54) are the datatype's field selectors; they have no separate members.
- The interactive driver's prompts, input trimming, printing and list command (cli/mod.rs lines 20-61 and 66-83); only the register step is modelled.
- The HTTP controller, which forwards a caller-supplied user straight to `create` and maps a missing lookup to a 404: framework glue around `Create` and `FindById`.
- The commented-out GraphQL and actix code: it has no behaviour.
- The 128-bit width of `Uuid` is kept as a range of `int`; the timestamp is an unbounded `int` with no resolution or time-zone modelling.
