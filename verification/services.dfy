/**
 * API/Services/UserService.cs: the translation between the request/response
 * shapes and the `User` entity, on top of the repository.
 */
module Services {
  import opened Wrappers
  import opened Models
  import opened Dtos
  import opened Repositories

  /** `MapUserToResponseDto`: every field of the entity except the date of birth. */
  function MapUserToResponseDto(u: User): (d: UserResponseDto)
    ensures d.id == u.id && d.createdAt == u.createdAt && d.isActive == u.isActive
    ensures d.username == u.username && d.email == u.email
    ensures d.firstName == u.firstName && d.lastName == u.lastName
  {
    UserResponseDto(u.id, u.username, u.email, u.firstName, u.lastName, u.createdAt, u.isActive)
  }

  /** The entity a response describes, given the date of birth the response leaves out. */
  function ResponseToUser(d: UserResponseDto, dateOfBirth: Option<DateTime>): User {
    User(d.id, d.username, d.email, d.firstName, d.lastName, d.createdAt, d.isActive, dateOfBirth)
  }

  /** The response loses the date of birth and nothing else. */
  lemma ResponseRoundTrip(u: User, d: UserResponseDto, dateOfBirth: Option<DateTime>)
    ensures ResponseToUser(MapUserToResponseDto(u), u.dateOfBirth) == u
    ensures MapUserToResponseDto(ResponseToUser(d, dateOfBirth)) == d
  {
  }

  /** Two users give the same response exactly when they differ at most in the date of birth. */
  lemma ResponseIgnoresOnlyDateOfBirth(u: User, v: User)
    ensures MapUserToResponseDto(u) == MapUserToResponseDto(v) <==> u.(dateOfBirth := v.dateOfBirth) == v
  {
    if MapUserToResponseDto(u) == MapUserToResponseDto(v) {
      ResponseRoundTrip(u, MapUserToResponseDto(v), v.dateOfBirth);
      ResponseRoundTrip(v, MapUserToResponseDto(u), u.dateOfBirth);
    }
  }

  /** `users.Select(MapUserToResponseDto)`. */
  function MapAll(users: seq<User>): (r: seq<UserResponseDto>)
    ensures |r| == |users|
    ensures forall i :: 0 <= i < |users| ==> r[i] == MapUserToResponseDto(users[i])
  {
    if users == [] then [] else [MapUserToResponseDto(users[0])] + MapAll(users[1..])
  }

  /** The listing keeps the order of the store, so its ids grow like the store's. */
  lemma ListingKeepsIdOrder(users: seq<User>)
    requires IdsIncreasing(users)
    ensures forall i, j :: 0 <= i < j < |users| ==> MapAll(users)[i].id < MapAll(users)[j].id
  {
  }

  /**
   * The entity `CreateUserAsync` builds: a new `User` with the request's username,
   * email, first and last name. The request's date of birth and email-verified
   * flag are not copied.
   */
  function UserFromCreateDto(dto: UserCreateDto, now: DateTime): (u: User)
    ensures u.username == dto.username && u.email == dto.email
    ensures u.firstName == dto.firstName && u.lastName == dto.lastName
    ensures u.id == NewUser(now).id && u.isActive && u.dateOfBirth == None
  {
    NewUser(now).(username := dto.username, email := dto.email,
                  firstName := dto.firstName, lastName := dto.lastName)
  }

  /** The five assignments `UpdateUserAsync` makes to the user it fetched. */
  function ApplyUpdateDto(existing: User, dto: UserUpdateDto): (u: User)
    ensures SameIdentity(u, existing)
    ensures u.username == dto.username && u.email == dto.email
    ensures u.firstName == dto.firstName && u.lastName == dto.lastName
    ensures u.isActive == dto.isActive
  {
    existing.(username := dto.username, email := dto.email,
              firstName := dto.firstName, lastName := dto.lastName,
              isActive := dto.isActive)
  }

  /** The update never reads the request's date of birth. */
  lemma UpdateIgnoresDateOfBirth(existing: User, dto: UserUpdateDto, dateOfBirth: Option<string>)
    ensures ApplyUpdateDto(existing, dto) == ApplyUpdateDto(existing, dto.(dateOfBirth := dateOfBirth))
  {
  }

  /**
   * The repository's overwrite of the stored user with the edited copy gives the
   * edited copy back: the service's edit and the repository's update agree.
   */
  lemma OverwriteWithEditedCopy(existing: User, dto: UserUpdateDto)
    ensures Overwrite(existing, ApplyUpdateDto(existing, dto)) == ApplyUpdateDto(existing, dto)
  {
  }

  class UserService {
    const repository: InMemoryUserRepository

    constructor (repository: InMemoryUserRepository)
      ensures this.repository == repository
    {
      this.repository := repository;
    }

    ghost predicate Valid()
      reads this, repository
    {
      repository.Valid()
    }

    /** `GetAllUsersAsync`: one response per stored user, in the store's order. */
    method GetAllUsers() returns (r: seq<UserResponseDto>)
      ensures r == MapAll(repository.users)
      ensures |r| == |repository.users|
      ensures forall i :: 0 <= i < |r| ==> r[i] == MapUserToResponseDto(repository.users[i])
    {
      var users := repository.GetAllUsers();
      r := MapAll(users);
    }

    /** `GetUserByIdAsync`: none exactly when the store has no such user. */
    method GetUserById(id: int) returns (r: Option<UserResponseDto>)
      ensures r.None? <==> !HasId(repository.users, id)
      ensures r.Some? ==> r.value.id == id
      ensures r.Some? ==> r.value == MapUserToResponseDto(FindById(repository.users, id).value)
    {
      var user := repository.GetUserById(id);
      r := if user.Some? then Some(MapUserToResponseDto(user.value)) else None;
    }

    /**
     * `CreateUserAsync`: the built entity is stored under the next id and the
     * response carries the request's fields with that id. The clock reading of
     * the entity's initialiser and that of the repository are both `now`.
     */
    method CreateUser(dto: UserCreateDto, now: DateTime) returns (r: UserResponseDto)
      requires Valid()
      modifies repository
      ensures Valid()
      ensures repository.nextId == old(repository.nextId) + 1
      ensures repository.users == old(repository.users) + [UserFromCreateDto(dto, now).(id := old(repository.nextId))]
      ensures r == MapUserToResponseDto(repository.users[|repository.users| - 1])
      ensures r.id == old(repository.nextId) && r.createdAt == now && r.isActive
      ensures r.username == dto.username && r.email == dto.email
      ensures r.firstName == dto.firstName && r.lastName == dto.lastName
    {
      var user := UserFromCreateDto(dto, now);
      var created := repository.CreateUser(user, now);
      r := MapUserToResponseDto(created);
    }

    /**
     * `UpdateUserAsync`: an unknown id yields none before the repository's update
     * is reached; otherwise the stored user takes the request's five editable
     * fields and keeps its id, creation time and date of birth.
     */
    method UpdateUser(id: int, dto: UserUpdateDto) returns (r: Option<UserResponseDto>)
      requires Valid()
      modifies repository
      ensures Valid()
      ensures repository.nextId == old(repository.nextId)
      ensures match IndexOfId(old(repository.users), id)
        case None => r == None && repository.users == old(repository.users)
        case Some(i) =>
          && repository.users == old(repository.users)[i := ApplyUpdateDto(old(repository.users)[i], dto)]
          && r == Some(MapUserToResponseDto(repository.users[i]))
    {
      var existing := repository.GetUserById(id);
      if existing.None? {
        return None;
      }
      var edited := ApplyUpdateDto(existing.value, dto);
      OverwriteWithEditedCopy(existing.value, dto);
      var updated := repository.UpdateUser(id, edited);
      r := if updated.Some? then Some(MapUserToResponseDto(updated.value)) else None;
    }

    /** `DeleteUserAsync`: the repository's answer, unchanged. */
    method DeleteUser(id: int) returns (removed: bool)
      requires Valid()
      modifies repository
      ensures Valid()
      ensures removed == HasId(old(repository.users), id)
      ensures !HasId(repository.users, id)
      ensures repository.nextId == old(repository.nextId)
      ensures match IndexOfId(old(repository.users), id)
        case None => repository.users == old(repository.users)
        case Some(i) => repository.users == RemoveAt(old(repository.users), i)
    {
      removed := repository.DeleteUser(id);
    }
  }
}
