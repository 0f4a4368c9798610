/**
 * API/Controllers/UsersController.cs: each action asks the service once and turns
 * its answer (a value, a null or a boolean) into an HTTP result.
 *
 * Routing, model binding and the automatic 400 response of `[ApiController]`
 * are framework behaviour and are not modelled; the declarative constraints
 * that response is based on are the predicates of module Dtos.
 */
module Controllers {
  import opened Wrappers
  import opened Models
  import opened Dtos
  import opened Repositories
  import opened Services

  /** The results the actions build: `Ok(v)`, `NotFound()`, `NoContent()`, `CreatedAtAction(...)`. */
  datatype ActionResult<T> =
    | Ok(value: T)
    | NotFound
    | NoContent
    | CreatedAtAction(actionName: string, routeId: int, value: T)

  /** The HTTP status code each result is sent with. */
  function StatusCode<T>(r: ActionResult<T>): int {
    match r
    case Ok(_) => 200
    case NotFound => 404
    case NoContent => 204
    case CreatedAtAction(_, _, _) => 201
  }

  /** `GetUsers`: the service's list, whatever it holds, under 200. */
  function ListResult(users: seq<UserResponseDto>): (r: ActionResult<seq<UserResponseDto>>)
    ensures StatusCode(r) == 200 && r.Ok? && r.value == users
  {
    Ok(users)
  }

  /** `GetUser` and `UpdateUser`: a null answer is 404, any user is 200 with that user. */
  function UserOrNotFound(user: Option<UserResponseDto>): (r: ActionResult<UserResponseDto>)
    ensures StatusCode(r) == 404 <==> user.None?
    ensures StatusCode(r) == 200 <==> user.Some?
    ensures user.Some? ==> r == Ok(user.value)
  {
    if user.None? then NotFound else Ok(user.value)
  }

  /** `CreateUser`: 201 pointing at action `GetUser` with the new user's id as route value. */
  function CreatedResult(user: UserResponseDto): (r: ActionResult<UserResponseDto>)
    ensures StatusCode(r) == 201
    ensures r.CreatedAtAction? && r.actionName == "GetUser" && r.routeId == user.id && r.value == user
  {
    CreatedAtAction("GetUser", user.id, user)
  }

  /** `DeleteUser`: 204 when the service removed a user, 404 when it did not. */
  function DeleteResult(removed: bool): (r: ActionResult<()>)
    ensures StatusCode(r) == 204 <==> removed
    ensures StatusCode(r) == 404 <==> !removed
  {
    if removed then NoContent else NotFound
  }

  class UsersController {
    const service: UserService

    constructor (service: UserService)
      ensures this.service == service
    {
      this.service := service;
    }

    ghost predicate Valid()
      reads this, service, service.repository
    {
      service.Valid()
    }

    /** `GET api/users`. */
    method GetUsers() returns (r: ActionResult<seq<UserResponseDto>>)
      ensures r == Ok(MapAll(service.repository.users))
    {
      var users := service.GetAllUsers();
      r := ListResult(users);
    }

    /** `GET api/users/{id}`: 404 exactly when no stored user has the id. */
    method GetUser(id: int) returns (r: ActionResult<UserResponseDto>)
      ensures StatusCode(r) == 404 <==> !HasId(service.repository.users, id)
      ensures r.Ok? ==> r.value == MapUserToResponseDto(FindById(service.repository.users, id).value)
      ensures r.Ok? || r.NotFound?
    {
      var user := service.GetUserById(id);
      r := UserOrNotFound(user);
    }

    /** `POST api/users`. */
    method CreateUser(dto: UserCreateDto, now: DateTime) returns (r: ActionResult<UserResponseDto>)
      requires Valid()
      modifies service.repository
      ensures Valid()
      ensures service.repository.nextId == old(service.repository.nextId) + 1
      ensures service.repository.users ==
              old(service.repository.users) + [UserFromCreateDto(dto, now).(id := old(service.repository.nextId))]
      ensures r == CreatedAtAction("GetUser", old(service.repository.nextId),
                                   MapUserToResponseDto(service.repository.users[|service.repository.users| - 1]))
      ensures r.value.username == dto.username && r.value.email == dto.email
      ensures r.value.firstName == dto.firstName && r.value.lastName == dto.lastName
    {
      var user := service.CreateUser(dto, now);
      r := CreatedResult(user);
    }

    /** `PUT api/users/{id}`: the path id and the request go to the service unchanged. */
    method UpdateUser(id: int, dto: UserUpdateDto) returns (r: ActionResult<UserResponseDto>)
      requires Valid()
      modifies service.repository
      ensures Valid()
      ensures StatusCode(r) == 404 <==> !HasId(old(service.repository.users), id)
      ensures service.repository.nextId == old(service.repository.nextId)
      ensures match IndexOfId(old(service.repository.users), id)
        case None => service.repository.users == old(service.repository.users) && r == NotFound
        case Some(i) =>
          && service.repository.users == old(service.repository.users)[i := ApplyUpdateDto(old(service.repository.users)[i], dto)]
          && r == Ok(MapUserToResponseDto(service.repository.users[i]))
    {
      var user := service.UpdateUser(id, dto);
      r := UserOrNotFound(user);
    }

    /** `DELETE api/users/{id}`: 204 when a user was removed, 404 when there was none. */
    method DeleteUser(id: int) returns (r: ActionResult<()>)
      requires Valid()
      modifies service.repository
      ensures Valid()
      ensures StatusCode(r) == 204 <==> HasId(old(service.repository.users), id)
      ensures StatusCode(r) == 404 <==> !HasId(old(service.repository.users), id)
      ensures !HasId(service.repository.users, id)
      ensures service.repository.nextId == old(service.repository.nextId)
      ensures match IndexOfId(old(service.repository.users), id)
        case None => service.repository.users == old(service.repository.users)
        case Some(i) => service.repository.users == RemoveAt(old(service.repository.users), i)
    {
      var removed := service.DeleteUser(id);
      r := DeleteResult(removed);
    }
  }

  /** A controller over a fresh, empty store. */
  method NewApplication() returns (c: UsersController)
    ensures fresh(c) && fresh(c.service) && fresh(c.service.repository)
    ensures c.Valid() && c.service.repository.users == [] && c.service.repository.nextId == 1
  {
    var repository := new InMemoryUserRepository();
    var service := new UserService(repository);
    c := new UsersController(service);
  }

  /** Two creates on a fresh store, then a listing: both users, in creation order, ids 1 and 2. */
  method CreateTwoThenList(first: UserCreateDto, second: UserCreateDto, t1: DateTime, t2: DateTime)
    returns (listed: ActionResult<seq<UserResponseDto>>)
    ensures listed.Ok? && |listed.value| == 2
    ensures listed.value[0].id == 1 && listed.value[1].id == 2
    ensures listed.value[0].username == first.username && listed.value[1].username == second.username
    ensures listed.value[0].createdAt == t1 && listed.value[1].createdAt == t2
  {
    var c := NewApplication();
    var r1 := c.CreateUser(first, t1);
    var r2 := c.CreateUser(second, t2);
    listed := c.GetUsers();
  }

  /** A created user is returned by a later GET of its id, unchanged. */
  method CreateThenGet(dto: UserCreateDto, now: DateTime)
    returns (created: ActionResult<UserResponseDto>, fetched: ActionResult<UserResponseDto>)
    ensures StatusCode(created) == 201 && StatusCode(fetched) == 200
    ensures fetched == Ok(created.value)
    ensures fetched.value.username == dto.username && fetched.value.email == dto.email
    ensures fetched.value.firstName == dto.firstName && fetched.value.lastName == dto.lastName
  {
    var c := NewApplication();
    created := c.CreateUser(dto, now);
    FindAfterAppend([], c.service.repository.users[0]);
    fetched := c.GetUser(created.routeId);
  }

  /**
   * Create one user (id 1), delete it (204), then GET it (404); a second create
   * gets id 2: the deleted id is not handed out again.
   */
  method DeleteThenGet(dto: UserCreateDto, now: DateTime)
    returns (deleted: ActionResult<()>, fetched: ActionResult<UserResponseDto>,
             recreated: ActionResult<UserResponseDto>)
    ensures StatusCode(deleted) == 204 && StatusCode(fetched) == 404
    ensures StatusCode(recreated) == 201 && recreated.routeId == 2
  {
    var c := NewApplication();
    var created := c.CreateUser(dto, now);
    assert c.service.repository.users[0].id == 1;
    deleted := c.DeleteUser(1);
    fetched := c.GetUser(1);
    recreated := c.CreateUser(dto, now);
  }

  /** An update of an id no user has is 404 and leaves the stored user exactly as it was. */
  method UpdateMissing(created: UserCreateDto, dto: UserUpdateDto, now: DateTime)
    returns (stored: ActionResult<UserResponseDto>, updated: ActionResult<UserResponseDto>,
             listed: ActionResult<seq<UserResponseDto>>)
    ensures StatusCode(stored) == 201 && stored.routeId == 1
    ensures StatusCode(updated) == 404
    ensures listed == Ok([stored.value])
  {
    var c := NewApplication();
    stored := c.CreateUser(created, now);
    updated := c.UpdateUser(999, dto);
    listed := c.GetUsers();
    assert MapAll(c.service.repository.users) == [stored.value];
  }
}
