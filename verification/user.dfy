/**
 The User entity: an identifier, four string fields and two timestamps.
 Every timestamp is a reading of the wall clock, which the model takes as an
 explicit argument; nothing here assumes the readings are ordered unless a
 contract says so.
 */
module UserEntity {

  /** A UUID, i.e. a 128-bit unsigned value. */
  newtype Uuid = x: int | 0 <= x < 0x1_0000_0000_0000_0000_0000_0000_0000_0000

  /** A reading of the wall clock, in some fixed unit since the epoch. */
  type Timestamp = int

  /** The domain record. The datatype's field selectors are the record's accessors. */
  datatype User = User(
    id: Uuid,
    name: string,
    email: string,
    password: string,
    address: string,
    createdAt: Timestamp,
    updatedAt: Timestamp)

  /** The entity invariant: the last update is no earlier than creation. */
  predicate Valid(u: User) {
    u.createdAt <= u.updatedAt
  }

  /** A sequence of clock readings in which no reading is earlier than a previous one. */
  predicate NonDecreasing(readings: seq<Timestamp>) {
    forall i, j :: 0 <= i <= j < |readings| ==> readings[i] <= readings[j]
  }

  /**
   Builds a user from its identifier and string fields. The clock is read
   twice: `first` becomes the creation time, `second` the update time.
   */
  function NewUser(id: Uuid, name: string, email: string, password: string, address: string,
                   first: Timestamp, second: Timestamp): (u: User)
    ensures u.id == id && u.name == name && u.email == email
    ensures u.password == password && u.address == address
    ensures u.createdAt == first && u.updatedAt == second
    ensures Valid(u) <==> first <= second
  {
    User(id, name, email, password, address, first, second)
  }

  /** Replaces the email and stamps the update time with the clock reading `now`. */
  function UpdateEmail(u: User, newEmail: string, now: Timestamp): (v: User)
    ensures v.email == newEmail && v.updatedAt == now
    ensures v.id == u.id && v.name == u.name && v.password == u.password
    ensures v.address == u.address && v.createdAt == u.createdAt
    ensures Valid(u) && u.updatedAt <= now ==> Valid(v) && u.updatedAt <= v.updatedAt
  {
    u.(email := newEmail, updatedAt := now)
  }

  /** Replaces the address and stamps the update time with the clock reading `now`. */
  function UpdateAddress(u: User, newAddress: string, now: Timestamp): (v: User)
    ensures v.address == newAddress && v.updatedAt == now
    ensures v.id == u.id && v.name == u.name && v.email == u.email
    ensures v.password == u.password && v.createdAt == u.createdAt
    ensures Valid(u) && u.updatedAt <= now ==> Valid(v) && u.updatedAt <= v.updatedAt
  {
    u.(address := newAddress, updatedAt := now)
  }

  /** The mutations a User offers after construction. */
  datatype Edit = SetEmail(newEmail: string) | SetAddress(newAddress: string)

  /** Applies one mutation, reading the clock once. */
  function Apply(u: User, e: Edit, now: Timestamp): (v: User)
    ensures v.id == u.id && v.createdAt == u.createdAt && v.updatedAt == now
  {
    match e
    case SetEmail(m) => UpdateEmail(u, m, now)
    case SetAddress(a) => UpdateAddress(u, a, now)
  }

  /** Applies `edits` in order; the i-th edit reads the clock value `times[i]`. */
  function ApplyAll(u: User, edits: seq<Edit>, times: seq<Timestamp>): (v: User)
    requires |times| == |edits|
    decreases |edits|
  {
    if |edits| == 0 then u
    else ApplyAll(Apply(u, edits[0], times[0]), edits[1..], times[1..])
  }

  /**
   No mutation changes the identifier or the creation time, and when the
   clock never goes backwards (from the user's last update on), every
   sequence of mutations keeps the update time no earlier than creation and
   no earlier than it was.
   */
  lemma {:induction false} ApplyAllKeepsIdentity(u: User, edits: seq<Edit>, times: seq<Timestamp>)
    requires |times| == |edits|
    ensures ApplyAll(u, edits, times).id == u.id
    ensures ApplyAll(u, edits, times).createdAt == u.createdAt
    ensures Valid(u) && NonDecreasing([u.updatedAt] + times) ==>
              Valid(ApplyAll(u, edits, times)) && u.updatedAt <= ApplyAll(u, edits, times).updatedAt
    decreases |edits|
  {
    if |edits| > 0 {
      var v := Apply(u, edits[0], times[0]);
      ApplyAllKeepsIdentity(v, edits[1..], times[1..]);
      if Valid(u) && NonDecreasing([u.updatedAt] + times) {
        var rs := [u.updatedAt] + times;
        assert rs[0] <= rs[1];
        assert v.updatedAt == times[0];
        assert [v.updatedAt] + times[1..] == rs[1..];
        assert NonDecreasing([v.updatedAt] + times[1..]);
      }
    }
  }

  /**
   A user's whole life: construction reads the clock twice, then each edit
   reads it once. Under a non-decreasing clock the entity invariant holds
   at the end, and the identifier and creation time are those given at
   construction.
   */
  lemma LifetimeKeepsInvariant(id: Uuid, name: string, email: string, password: string,
                               address: string, readings: seq<Timestamp>, edits: seq<Edit>)
    requires |readings| == |edits| + 2
    requires NonDecreasing(readings)
    ensures var final := ApplyAll(NewUser(id, name, email, password, address, readings[0], readings[1]),
                                  edits, readings[2..]);
            Valid(final) && final.id == id && final.createdAt == readings[0]
  {
    var u := NewUser(id, name, email, password, address, readings[0], readings[1]);
    assert [u.updatedAt] + readings[2..] == readings[1..];
    ApplyAllKeepsIdentity(u, edits, readings[2..]);
  }
}
