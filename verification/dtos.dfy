/**
 * The request and response shapes of API/DTOs/UserDtos.cs, their default values,
 * and the declarative validation constraints their attributes state.
 *
 * The attributes are checked by the web framework before an action runs; the
 * model states each one as a predicate. Their library semantics are taken as:
 *  - `[Required]` on a string: the string is not empty once white space is
 *    trimmed from both ends (ASCII white space only; .NET also trims other
 *    Unicode spaces);
 *  - `[StringLength(n)]`: `string.Length` is at most n, where `Length` counts
 *    UTF-16 code units, so a character beyond U+FFFF counts twice;
 *  - `[EmailAddress]`: not shown in the repository, so it is the parameter
 *    `isEmailAddress` of the predicates that use it;
 *  - `[DataType(DataType.Date)]`: a display hint that rejects nothing;
 *  - `[RegularExpression(p)]`: an absent or empty string passes; any other
 *    string passes when p matches all of it.
 */
module Dtos {
  import opened Wrappers
  import opened Models

  /**
   * Open question: UserDtos.cs:6-22 declares no `LastName` on the create request,
   * yet UserService.cs:38 reads `userCreateDto.LastName` and
   * API.Tests/UserServiceTests.cs:103 sets it. The model follows the service and
   * its test and carries the field, with no length constraint (none is declared).
   */
  datatype UserCreateDto = UserCreateDto(
    username: string,
    email: string,
    firstName: string,
    lastName: string,
    dateOfBirth: Option<DateTime>,
    isEmailVerified: bool)

  datatype UserUpdateDto = UserUpdateDto(
    username: string,
    email: string,
    firstName: string,
    lastName: string,
    isActive: bool,
    dateOfBirth: Option<string>)

  /**
   * The response shape. It has no `DateOfBirth`, although
   * API.Tests/UserDateOfBirthTests.cs:42 sets one on it (open question).
   */
  datatype UserResponseDto = UserResponseDto(
    id: int,
    username: string,
    email: string,
    firstName: string,
    lastName: string,
    createdAt: DateTime,
    isActive: bool)

  const MaxUsernameLength: nat := 50
  const MaxNameLength: nat := 100

  /** `new UserCreateDto()`. */
  function DefaultCreateDto(): (d: UserCreateDto)
    ensures d.username == "" && d.email == "" && d.firstName == "" && d.lastName == ""
    ensures d.dateOfBirth == None && !d.isEmailVerified
  {
    UserCreateDto("", "", "", "", None, false)
  }

  /** `new UserUpdateDto()`. */
  function DefaultUpdateDto(): (d: UserUpdateDto)
    ensures d.username == "" && d.email == "" && d.firstName == "" && d.lastName == ""
    ensures d.isActive && d.dateOfBirth == None
  {
    UserUpdateDto("", "", "", "", true, None)
  }

  predicate IsWhiteSpace(c: char) {
    c == ' ' || c == '\t' || c == '\n' || c == '\r' || c == '\U{B}' || c == '\U{C}'
  }

  predicate AllWhiteSpace(s: string) {
    forall i :: 0 <= i < |s| ==> IsWhiteSpace(s[i])
  }

  /** `String.TrimStart()`: drops the white space at the front. */
  function TrimStart(s: string): string {
    if s != [] && IsWhiteSpace(s[0]) then TrimStart(s[1..]) else s
  }

  /** `String.TrimEnd()`: drops the white space at the back. */
  function TrimEnd(s: string): string {
    if s != [] && IsWhiteSpace(s[|s| - 1]) then TrimEnd(s[..|s| - 1]) else s
  }

  lemma {:induction false} TrimStartEmptyIffBlank(s: string)
    ensures TrimStart(s) == [] <==> AllWhiteSpace(s)
    ensures TrimStart(s) != [] ==> !IsWhiteSpace(TrimStart(s)[0])
  {
    if s != [] && IsWhiteSpace(s[0]) {
      TrimStartEmptyIffBlank(s[1..]);
      assert AllWhiteSpace(s[1..]) ==> AllWhiteSpace(s) by {
        if AllWhiteSpace(s[1..]) {
          forall i | 0 <= i < |s| ensures IsWhiteSpace(s[i]) {
            if i > 0 { assert s[i] == s[1..][i - 1]; }
          }
        }
      }
    }
  }

  lemma {:induction false} TrimEndKeepsNonBlankStart(s: string)
    requires s != [] ==> !IsWhiteSpace(s[0])
    ensures s != [] ==> TrimEnd(s) != []
    decreases |s|
  {
    if s != [] && IsWhiteSpace(s[|s| - 1]) {
      TrimEndKeepsNonBlankStart(s[..|s| - 1]);
    }
  }

  /**
   * `[Required]` on a string property: `s.Trim().Length != 0`, which is to say
   * that some character of `s` is not white space.
   */
  predicate Required(s: string)
    ensures Required(s) <==> exists i :: 0 <= i < |s| && !IsWhiteSpace(s[i])
  {
    TrimStartEmptyIffBlank(s);
    TrimEndKeepsNonBlankStart(TrimStart(s));
    TrimEnd(TrimStart(s)) != []
  }

  /** Code units one character takes in UTF-16: two for a surrogate pair. */
  function Utf16Units(c: char): nat {
    if c as int > 0xFFFF then 2 else 1
  }

  /** `string.Length` in .NET: the number of UTF-16 code units. */
  function Utf16Length(s: string): (n: nat)
    ensures |s| <= n <= 2 * |s|
  {
    if s == [] then 0 else Utf16Units(s[0]) + Utf16Length(s[1..])
  }

  /** Strings of characters from the Basic Multilingual Plane have one code unit per character. */
  lemma {:induction false} Utf16LengthOfBmp(s: string)
    requires forall i :: 0 <= i < |s| ==> s[i] as int <= 0xFFFF
    ensures Utf16Length(s) == |s|
  {
    if s != [] {
      assert forall i :: 0 <= i < |s[1..]| ==> s[1..][i] == s[i + 1];
      Utf16LengthOfBmp(s[1..]);
    }
  }

  /** Strings of characters beyond U+FFFF take two code units per character. */
  lemma {:induction false} Utf16LengthOfAstral(s: string)
    requires forall i :: 0 <= i < |s| ==> s[i] as int > 0xFFFF
    ensures Utf16Length(s) == 2 * |s|
  {
    if s != [] {
      assert forall i :: 0 <= i < |s[1..]| ==> s[1..][i] == s[i + 1];
      Utf16LengthOfAstral(s[1..]);
    }
  }

  /** `[StringLength(max)]`: an absent value passes, a string passes when `Length <= max`. */
  predicate WithinLength(s: string, max: nat) {
    Utf16Length(s) <= max
  }

  /**
   * The constraints of `UserCreateDto` (UserDtos.cs:8-20). A request that passes
   * has a username of 1 to 50 characters and a first name of at most 100.
   */
  predicate ValidCreateDto(d: UserCreateDto, isEmailAddress: string -> bool)
    ensures ValidCreateDto(d, isEmailAddress) ==>
              0 < |d.username| <= MaxUsernameLength && |d.firstName| <= MaxNameLength && d.email != []
  {
    && Required(d.username) && WithinLength(d.username, MaxUsernameLength)
    && Required(d.email) && isEmailAddress(d.email)
    && WithinLength(d.firstName, MaxNameLength)
  }

  /**
   * The constraints of `UserUpdateDto` (UserDtos.cs:26-41). A request that passes
   * has names within their limits and a date of birth that is absent, empty or
   * ten characters long.
   */
  predicate ValidUpdateDto(d: UserUpdateDto, isEmailAddress: string -> bool)
    ensures ValidUpdateDto(d, isEmailAddress) ==>
              && |d.username| <= MaxUsernameLength
              && |d.firstName| <= MaxNameLength && |d.lastName| <= MaxNameLength
              && (d.dateOfBirth.Some? && d.dateOfBirth.value != "" ==> |d.dateOfBirth.value| == 10)
  {
    && WithinLength(d.username, MaxUsernameLength)
    && isEmailAddress(d.email)
    && WithinLength(d.firstName, MaxNameLength)
    && WithinLength(d.lastName, MaxNameLength)
    && ValidDateOfBirth(d.dateOfBirth)
  }

  /**
   * `[RegularExpression(@"^\d{4}-\d{2}-\d{2}$")]` on the optional update string:
   * absent and empty pass, anything else must match the pattern as a whole.
   */
  predicate ValidDateOfBirth(s: Option<string>)
    ensures ValidDateOfBirth(s) <==> s.None? || s.value == "" || FullMatch(DatePattern(), s.value)
  {
    s.None? || s.value == "" || IsDateString(s.value)
  }

  predicate IsAsciiDigit(c: char) {
    '0' <= c <= '9'
  }

  /**
   * The pattern `^\d{4}-\d{2}-\d{2}$` read position by position: ten characters,
   * a dash at 4 and 7 and a digit everywhere else. `\d` is taken as an ASCII
   * digit (.NET also accepts other Unicode decimal digits). The framework keeps a
   * match only when it spans the whole string, so the `$` that .NET lets match
   * before a final newline does not admit an eleventh character.
   */
  predicate IsDateString(s: string)
    ensures IsDateString(s) <==> FullMatch(DatePattern(), s)
  {
    FullMatchPointwise(DatePattern(), s);
    DatePatternPositions();
    && |s| == 10
    && s[4] == '-' && s[7] == '-'
    && forall i :: 0 <= i < 10 && i != 4 && i != 7 ==> IsAsciiDigit(s[i])
  }

  /** One element of a regular expression without repetition: `\d` or a literal. */
  datatype CharClass = Digit | Literal(c: char)

  predicate ClassMatches(k: CharClass, c: char) {
    match k
    case Digit => IsAsciiDigit(c)
    case Literal(l) => c == l
  }

  /** `\d{4}-\d{2}-\d{2}` with each repetition written out. */
  function DatePattern(): seq<CharClass> {
    [Digit, Digit, Digit, Digit, Literal('-'), Digit, Digit, Literal('-'), Digit, Digit]
  }

  /** What `DatePattern` expects at each of its ten positions. */
  lemma DatePatternPositions()
    ensures |DatePattern()| == 10
    ensures DatePattern()[4] == Literal('-') && DatePattern()[7] == Literal('-')
    ensures forall i :: 0 <= i < 10 && i != 4 && i != 7 ==> DatePattern()[i] == Digit
  {
  }

  /** Anchored match (`^...$`) of a repetition-free pattern against the whole string. */
  predicate FullMatch(p: seq<CharClass>, s: string)
    decreases p
  {
    if p == [] then s == []
    else s != [] && ClassMatches(p[0], s[0]) && FullMatch(p[1..], s[1..])
  }

  /** An anchored match pairs every pattern element with the character at its position. */
  lemma {:induction false} FullMatchPointwise(p: seq<CharClass>, s: string)
    ensures FullMatch(p, s) <==>
            |p| == |s| && forall i :: 0 <= i < |p| ==> ClassMatches(p[i], s[i])
    decreases p
  {
    if p != [] && s != [] {
      FullMatchPointwise(p[1..], s[1..]);
      if |p| == |s| && forall i :: 0 <= i < |p| ==> ClassMatches(p[i], s[i]) {
        forall i | 0 <= i < |p[1..]| ensures ClassMatches(p[1..][i], s[1..][i]) {
          assert ClassMatches(p[i + 1], s[i + 1]);
        }
      }
      if FullMatch(p, s) {
        forall i | 0 <= i < |p| ensures ClassMatches(p[i], s[i]) {
          if i > 0 {
            assert ClassMatches(p[1..][i - 1], s[1..][i - 1]);
          }
        }
      }
    }
  }

  /** The value of API.Tests/UserDateOfBirthTests.cs:32, written as a string, passes. */
  lemma DateOfBirthAccepted()
    ensures ValidDateOfBirth(Some("1990-01-01"))
  {
    var good := "1990-01-01";
    assert good[0] == '1' && good[1] == '9' && good[2] == '9' && good[3] == '0';
    assert good[5] == '0' && good[6] == '1' && good[8] == '0' && good[9] == '1';
    assert IsDateString(good);
  }

  /**
   * "invalid-date" (API.Tests/UserDateOfBirthTests.cs:66) and a date with a
   * one-digit month fail; an absent or empty date of birth passes.
   */
  lemma DateOfBirthRejected()
    ensures !ValidDateOfBirth(Some("invalid-date"))
    ensures !ValidDateOfBirth(Some("1990-1-01"))
    ensures ValidDateOfBirth(None) && ValidDateOfBirth(Some(""))
  {
    assert !IsDateString("invalid-date") by { assert "invalid-date"[0] == 'i'; }
    assert !IsDateString("1990-1-01");
  }

  /**
   * The update request of API.Tests/UserDateOfBirthTests.cs:62-67 is refused
   * whatever its other fields hold, because of its date of birth.
   */
  lemma InvalidDateRefusesUpdate(d: UserUpdateDto, isEmailAddress: string -> bool)
    requires d.dateOfBirth == Some("invalid-date")
    ensures !ValidUpdateDto(d, isEmailAddress)
  {
    DateOfBirthRejected();
  }

  /** An update request left at its defaults passes exactly when the empty email does. */
  lemma DefaultUpdateDtoValidity(isEmailAddress: string -> bool)
    ensures ValidUpdateDto(DefaultUpdateDto(), isEmailAddress) <==> isEmailAddress("")
  {
  }

  /**
   * A username over 50 code units, or a first name over 100, is refused on create
   * and on update; so is a last name over 100 on update, the only request that
   * constrains it. With the other constraints met, the limits are exact: a field
   * at its limit passes.
   */
  lemma LengthLimits(c: UserCreateDto, u: UserUpdateDto, isEmailAddress: string -> bool)
    ensures Utf16Length(c.username) > MaxUsernameLength || Utf16Length(c.firstName) > MaxNameLength
            ==> !ValidCreateDto(c, isEmailAddress)
    ensures Utf16Length(u.username) > MaxUsernameLength || Utf16Length(u.firstName) > MaxNameLength
            || Utf16Length(u.lastName) > MaxNameLength
            ==> !ValidUpdateDto(u, isEmailAddress)
    ensures Required(c.username) && Required(c.email) && isEmailAddress(c.email) ==>
              (ValidCreateDto(c, isEmailAddress) <==>
                 Utf16Length(c.username) <= MaxUsernameLength && Utf16Length(c.firstName) <= MaxNameLength)
  {
  }

  /**
   * 26 characters beyond U+FFFF are 52 UTF-16 code units, so `[StringLength(50)]`
   * refuses them as a username, although they are only 26 characters.
   */
  lemma SurrogatePairsCountTwice(c: UserCreateDto, isEmailAddress: string -> bool)
    requires |c.username| == 26 && forall i :: 0 <= i < 26 ==> c.username[i] == '\U{1F600}'
    ensures !ValidCreateDto(c, isEmailAddress)
  {
    Utf16LengthOfAstral(c.username);
  }

  /** A request left at its defaults fails validation: the username is required. */
  lemma DefaultCreateDtoIsInvalid(isEmailAddress: string -> bool)
    ensures !ValidCreateDto(DefaultCreateDto(), isEmailAddress)
  {
  }
}
