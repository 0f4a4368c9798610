# In-memory user store: a Dafny model

This project models a small CRUD web API for "user" records kept in process
memory. The API has three layers:

- **Repository.** `InMemoryUserRepository` holds a list of users and a counter
  `_nextId` that hands out ids starting at 1. It creates, lists, finds, updates
  and deletes users by linear search on the id.
- **Service.** `UserService` copies fields between the request and response
  shapes (DTOs, data-transfer objects) and the `User` entity.
- **Controller.** `UsersController` turns each service answer (a user, a null,
  or a boolean) into an HTTP result: 200 `Ok`, 404 `NotFound`, 204 `NoContent`,
  or 201 `CreatedAtAction("GetUser", id)`.

The request shapes carry declarative validation attributes: required fields,
length limits, and the date pattern `^\d{4}-\d{2}-\d{2}$`.

Files, one module each:

- `wrappers.dfy`: `Option`.
- `models.dfy`: the `User` entity and its defaults.
- `dtos.dfy`: the request and response shapes, their defaults and the validation predicates.
- `repository.dfy`: the repository. It is a class with `users: seq<User>` and `nextId`, plus a ghost set of every id handed out so far.
- `services.dfy`: the service. It is a class over the repository, with the pure mappings beside it.
- `controllers.dfy`: the controller. It has the pure result mappings, a class over the service, and end-to-end scenarios run on a fresh store.

The repository's object invariant (`Valid`) states these facts:

- Stored ids grow strictly in list order, so they are pairwise distinct.
- Every stored id lies in `[1, nextId)`.
- Every id ever handed out is below `nextId`.

Every operation keeps `Valid`. Create raises `nextId` by exactly one. Update and
delete leave it alone. So an id is never handed out twice, even after its user
is deleted.

The model follows the code on three points where a reader might expect otherwise:

- Update performs no date-of-birth check.
- The response shape has no date of birth.
- Create does not store the request's date of birth.

## Open questions

These are kept as the code has them, not resolved:

- `UserService.cs:38` reads `LastName` from the create request, but
  `UserDtos.cs:6-22` declares no such field. The test at
  `UserServiceTests.cs:103` sets one. The model gives the create request a
  `lastName` field with no length limit.
- In `User.cs:15-17`, `DateOfBirth` stands after the closing brace of the class.
  The model keeps it on `User` as an optional field, absent by default.
- The tests set `IsEmailVerified` on `User` (`UserDateOfBirthTests.cs:90`) and
  `DateOfBirth` on the response (`UserDateOfBirthTests.cs:42`). Neither type
  declares that field, and the model has neither.
- The test at `UserDateOfBirthTests.cs:73-74` expects a 400 response with the
  message "Invalid dateOfBirth value. Expected format is YYYY-MM-DD.". No code
  among the modelled files produces that message. In particular, the action
  the test calls (UsersController.cs:55-63) makes no date check. Start-up code
  outside these files could still configure such a response. The model
  produces no such response. What it does state is the
  `[RegularExpression]` constraint, as `Dtos.ValidDateOfBirth`.

## Model

| member | source | states |
|---|---|---|
| `Models.NewUser` | API/Models/User.cs:7-17 | a new user has id 0, empty username, email, first and last name, is active, has no date of birth, and was created at the given instant |
| `Dtos.DefaultCreateDto` | API/DTOs/UserDtos.cs:6-22 | a new create request has empty strings, no date of birth, and email not verified |
| `Dtos.DefaultUpdateDto` | API/DTOs/UserDtos.cs:24-42 | a new update request has empty strings, is active, and has no date of birth |
| `Dtos.FullMatchPointwise` | API/DTOs/UserDtos.cs:40 | an anchored match of a repetition-free pattern holds iff pattern and string have equal length and each character is in its position's class |
| `Dtos.IsDateString` | API/DTOs/UserDtos.cs:40 | the positional date check (10 characters, `-` at positions 4 and 7, digits elsewhere) accepts exactly the strings `^\d{4}-\d{2}-\d{2}$` matches as a whole, in both directions |
| `Dtos.ValidDateOfBirth` | API/DTOs/UserDtos.cs:39-41 | the update's date of birth passes iff it is absent, empty, or wholly matched by `\d{4}-\d{2}-\d{2}` |
| `Dtos.Required` | API/DTOs/UserDtos.cs:8-13 | `[Required]` (`Trim().Length != 0`) holds iff some character of the string is not white space |
| `Dtos.Utf16Length` | API/DTOs/UserDtos.cs:9 | the UTF-16 length `[StringLength]` measures is between the character count and twice it |
| `Dtos.Utf16LengthOfBmp` | API/DTOs/UserDtos.cs:9 | for characters up to U+FFFF, the UTF-16 length equals the character count |
| `Dtos.Utf16LengthOfAstral` | API/DTOs/UserDtos.cs:9 | for characters beyond U+FFFF, the UTF-16 length is twice the character count |
| `Dtos.ValidCreateDto` | API/DTOs/UserDtos.cs:8-17 | a create request that passes has a username of 1 to 50 characters, a non-empty email, and a first name of at most 100 characters |
| `Dtos.ValidUpdateDto` | API/DTOs/UserDtos.cs:26-41 | an update request that passes has username, first and last name within 50/100/100 characters, and a date of birth that is absent, empty or 10 characters long |
| `Dtos.SurrogatePairsCountTwice` | API/DTOs/UserDtos.cs:9 | a username of 26 characters beyond U+FFFF (52 UTF-16 units) is refused by `[StringLength(50)]` |
| `Dtos.DateOfBirthAccepted` | API/DTOs/UserDtos.cs:39-41 | "1990-01-01" passes the date-of-birth constraint |
| `Dtos.DateOfBirthRejected` | API/DTOs/UserDtos.cs:39-41 | "invalid-date" and "1990-1-01" fail; an absent or empty date of birth passes |
| `Dtos.InvalidDateRefusesUpdate` | API/DTOs/UserDtos.cs:39-41 | an update request with date of birth "invalid-date" is refused, whatever its other fields hold |
| `Dtos.DefaultUpdateDtoValidity` | API/DTOs/UserDtos.cs:26-41 | a default update request passes validation iff the empty string passes the email-address check |
| `Dtos.LengthLimits` | API/DTOs/UserDtos.cs:8-36 | a username over 50 or a first name over 100 UTF-16 units is refused on create and update, and a last name over 100 on update; a create request meeting its other constraints passes iff both of its lengths are within the limits |
| `Dtos.DefaultCreateDtoIsInvalid` | API/DTOs/UserDtos.cs:8-10 | a create request with the default empty username is refused, because the username is required |
| `Repositories.IndexOfId` | API/Repositories/InMemoryUserRepository.cs:37-41 | the result is the first position holding the id, or none exactly when no stored user has it |
| `Repositories.FindById` | API/Repositories/InMemoryUserRepository.cs:37-41 | the result is none exactly when no user has the id; otherwise it is the first stored user with that id |
| `Repositories.IncreasingIdsAreUnique` | API/Repositories/InMemoryUserRepository.cs:12-18 | ids that grow along the list are pairwise distinct |
| `Repositories.RemoveAt` | API/Repositories/InMemoryUserRepository.cs:28 | removing one position shortens the list by one; the elements before it stay put and those after it shift down by one, in order |
| `Repositories.RemoveAtKeepsIds` | API/Repositories/InMemoryUserRepository.cs:22-30 | removing a user keeps ids increasing and within `[1, nextId)` |
| `Repositories.RemoveAtDropsId` | API/Repositories/InMemoryUserRepository.cs:22-30 | with unique ids, after the removal no user has the removed user's id |
| `Repositories.FindAfterAppend` | API/Repositories/InMemoryUserRepository.cs:14-41 | a user appended under an id no stored user has is what a later lookup of that id returns |
| `Repositories.Overwrite` | API/Repositories/InMemoryUserRepository.cs:49-53 | the updated user keeps its id, creation time and date of birth, and takes its username, email, first name, last name and active flag from the update |
| `Repositories.OverwriteIsUnique` | API/Repositories/InMemoryUserRepository.cs:49-53 | any user with those two properties is exactly the overwritten user |
| `Repositories.InMemoryUserRepository.constructor` | API/Repositories/InMemoryUserRepository.cs:11-12 | a new repository is empty, its counter is 1, and the invariant holds |
| `Repositories.InMemoryUserRepository.CreateUser` | API/Repositories/InMemoryUserRepository.cs:14-20 | the user gets id = old counter and the given creation time; it is appended after the unchanged old list; the counter rises by exactly 1; the new id was never handed out before and exceeds every stored id |
| `Repositories.InMemoryUserRepository.FindIndex` | API/Repositories/InMemoryUserRepository.cs:24 | the linear search returns the first position of the id, or none |
| `Repositories.InMemoryUserRepository.GetAllUsers` | API/Repositories/InMemoryUserRepository.cs:32-35 | returns the stored users in insertion order and changes nothing |
| `Repositories.InMemoryUserRepository.GetUserById` | API/Repositories/InMemoryUserRepository.cs:37-41 | returns the first user with the id, or none exactly when there is no such user; changes nothing |
| `Repositories.InMemoryUserRepository.UpdateUser` | API/Repositories/InMemoryUserRepository.cs:43-56 | an absent id returns none and changes nothing; otherwise only that user's five editable fields change, and the other users, the length, the counter and the issued ids stay as they were |
| `Repositories.InMemoryUserRepository.DeleteUser` | API/Repositories/InMemoryUserRepository.cs:22-30 | returns whether the id was stored; an absent id changes nothing; otherwise exactly that user is removed and the others keep their order; afterwards no user has the id; the counter is unchanged |
| `Services.MapUserToResponseDto` | API/Services/UserService.cs:66-78 | the response copies id, username, email, first name, last name, creation time and active flag unchanged |
| `Services.ResponseRoundTrip` | API/Services/UserService.cs:66-78 | a response together with the user's date of birth rebuilds the user exactly, and a rebuilt user maps back to the same response |
| `Services.ResponseIgnoresOnlyDateOfBirth` | API/Services/UserService.cs:66-78 | two users have equal responses iff they differ at most in their date of birth |
| `Services.MapAll` | API/Services/UserService.cs:22 | the projection gives one response per user, at the same position |
| `Services.ListingKeepsIdOrder` | API/Services/UserService.cs:19-23 | a store with increasing ids lists responses with increasing ids |
| `Services.UserFromCreateDto` | API/Services/UserService.cs:33-39 | the entity takes username, email, first and last name from the request; it is active, has the default id 0, and has no date of birth; the request's date of birth and email-verified flag are dropped |
| `Services.ApplyUpdateDto` | API/Services/UserService.cs:51-55 | the edited user takes the request's five editable fields and keeps its id, creation time and date of birth |
| `Services.UpdateIgnoresDateOfBirth` | API/Services/UserService.cs:51-55 | the update result does not depend on the request's date of birth |
| `Services.OverwriteWithEditedCopy` | API/Services/UserService.cs:51-57 | the repository's overwrite with the service's edited copy yields that copy |
| `Services.UserService.constructor` | API/Services/UserService.cs:14-17 | the service uses the given repository |
| `Services.UserService.GetAllUsers` | API/Services/UserService.cs:19-23 | one mapped response per stored user, in store order |
| `Services.UserService.GetUserById` | API/Services/UserService.cs:25-29 | none exactly when no user has the id; otherwise the mapped stored user, carrying that id |
| `Services.UserService.CreateUser` | API/Services/UserService.cs:31-43 | appends the entity built from the request under the next id; the response carries the request's four fields, that id, and the creation time |
| `Services.UserService.UpdateUser` | API/Services/UserService.cs:45-59 | a missing id returns none and leaves the store unchanged; otherwise the stored user gets the request's five editable fields, keeps its identity, and the response maps it |
| `Services.UserService.DeleteUser` | API/Services/UserService.cs:61-64 | returns exactly the repository's answer (whether the id was stored), with the repository's effect |
| `Controllers.ListResult` | API/Controllers/UsersController.cs:23-27 | always 200 `Ok`, carrying the service's list unchanged |
| `Controllers.UserOrNotFound` | API/Controllers/UsersController.cs:34-39 | 404 iff the service answered null, 200 with that user iff it answered a user (shared by `GetUser` and `UpdateUser`) |
| `Controllers.CreatedResult` | API/Controllers/UsersController.cs:47-48 | 201 `CreatedAtAction` with action name "GetUser", route id equal to the created user's id, and that user as body |
| `Controllers.DeleteResult` | API/Controllers/UsersController.cs:70-75 | 204 iff the service answered true, 404 iff it answered false |
| `Controllers.UsersController.constructor` | API/Controllers/UsersController.cs:16-19 | the controller uses the given service |
| `Controllers.UsersController.GetUsers` | API/Controllers/UsersController.cs:21-27 | `Ok` with the mapped listing of the store |
| `Controllers.UsersController.GetUser` | API/Controllers/UsersController.cs:29-40 | 404 exactly when no stored user has the id, otherwise 200 with the mapped user |
| `Controllers.UsersController.CreateUser` | API/Controllers/UsersController.cs:42-49 | the store gains the new user under the old counter value; the result is `CreatedAtAction("GetUser", that id, response)` carrying the request's fields |
| `Controllers.UsersController.UpdateUser` | API/Controllers/UsersController.cs:51-63 | the path id and request reach the service unchanged; 404 and an unchanged store iff the id is absent; otherwise 200 with the updated user |
| `Controllers.UsersController.DeleteUser` | API/Controllers/UsersController.cs:65-76 | 204 iff the id was stored and 404 otherwise; afterwards no user has the id; the counter is unchanged |
| `Controllers.CreateTwoThenList` | API/Repositories/InMemoryUserRepository.cs:12-35 | two creates on a fresh store, then a listing, return both users in creation order with ids 1 and 2 |
| `Controllers.CreateThenGet` | API/Controllers/UsersController.cs:29-49 | a GET of a just-created user's id returns 200 with exactly the created response |
| `Controllers.DeleteThenGet` | API/Repositories/InMemoryUserRepository.cs:12-30 | create (id 1), delete (204), then get (404); a further create gets id 2, so the deleted id is not reissued |
| `Controllers.UpdateMissing` | API/Services/UserService.cs:45-49 | after one create (201, id 1), updating id 999 gives 404, and the listing is exactly the created response |

## Left out

- The async wrappers (`Task`, `await`, `Task.FromResult`) are left out. Every operation is synchronous.
- Clock reads (`DateTime.UtcNow` in User.cs:12 and InMemoryUserRepository.cs:17) are left out. They become a `now` parameter, and the service passes the same `now` to the entity's initialiser and to the repository. `DateTime` is modelled as a tick count.
- Reference aliasing is left out, and the model uses values:
  - The repository stores the caller's own `User` object.
  - `GetAllUsersAsync` returns a live view of the list, and `Select` maps it lazily.
  - The service edits the stored object before it calls the repository's update.
  - `List.Remove` finds the object by reference. The model removes the position the search found, which is the same element while the list never holds one object twice.
- Concurrency is left out. The list and counter are unsynchronised, and the model is single-threaded.
- The 32-bit wrap-around of `_nextId` is left out. The model uses an unbounded integer.
- `[EmailAddress]` is left out, because the library's rule is not shown. It is the parameter `isEmailAddress` of the validation predicates.
- Unicode cases in `[Required]` and `\d` are left out. The model counts only ASCII white space and treats `\d` as an ASCII digit. .NET also accepts other Unicode spaces and decimal digits.
- ASP.NET plumbing is left out: routing, model binding, `ProducesResponseType`, and the automatic 400 response that `[ApiController]` gives a request failing its constraints. The constraints themselves are modelled as predicates. They are not wired into the controller actions.
- The null check after the repository's update (UserService.cs:58) cannot fail once the id was found. The model keeps the branch, and the contract shows the result is always present in that case.
- IUserService.cs and the repository interface `IUserRepository` are not part of this model. The service is verified against the concrete in-memory repository, not against the mocks in the tests.
