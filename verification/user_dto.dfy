/** The request and response shapes of the create-user use case. */
module UserDto {
  import opened UserEntity

  /** What a caller supplies to register a user: no identifier, no timestamps, no validation. */
  datatype CreateUserRequest = CreateUserRequest(
    name: string,
    email: string,
    password: string,
    address: string)

  /** What the use case hands back: every field of the stored user, password included. */
  datatype CreateUserResponse = CreateUserResponse(
    id: Uuid,
    name: string,
    email: string,
    password: string,
    address: string,
    createdAt: Timestamp,
    updatedAt: Timestamp)

  /** The field-for-field projection of a user into a response. */
  function ToResponse(u: User): (r: CreateUserResponse)
    ensures r.id == u.id && r.name == u.name && r.email == u.email && r.password == u.password
    ensures r.address == u.address && r.createdAt == u.createdAt && r.updatedAt == u.updatedAt
  {
    CreateUserResponse(u.id, u.name, u.email, u.password, u.address, u.createdAt, u.updatedAt)
  }
}
