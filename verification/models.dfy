/**
 * The `User` entity of API/Models/User.cs.
 *
 * Open questions recorded here rather than resolved silently:
 *  - In User.cs the `DateOfBirth` property (lines 15-17) stands after the closing
 *    brace of the class body. The tests build a `User` with a `DateOfBirth`
 *    (API.Tests/UserDateOfBirthTests.cs:89), so the model keeps it as an optional
 *    field of the entity, absent by default.
 *  - The same test sets `IsEmailVerified` on a `User` (UserDateOfBirthTests.cs:90),
 *    but the entity declares no such property; the model has none.
 */
module Models {
  import opened Wrappers

  /** A `DateTime` value, as its tick count. Only equality of instants matters here. */
  datatype DateTime = DateTime(ticks: int)

  datatype User = User(
    id: int,
    username: string,
    email: string,
    firstName: string,
    lastName: string,
    createdAt: DateTime,
    isActive: bool,
    dateOfBirth: Option<DateTime>)

  /**
   * `new User()`: every initialiser of User.cs. The clock read of the `CreatedAt`
   * initialiser (`DateTime.UtcNow`) is the parameter `now`.
   */
  function NewUser(now: DateTime): (u: User)
    ensures u.id == 0
    ensures u.username == "" && u.email == "" && u.firstName == "" && u.lastName == ""
    ensures u.createdAt == now
    ensures u.isActive
    ensures u.dateOfBirth == None
  {
    User(0, "", "", "", "", now, true, None)
  }
}
