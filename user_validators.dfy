/**
 * The validator attached to `CustomUser.username`: the name `me` is reserved
 * (it is the path of the current-user endpoint) in any letter case.
 */
module UserValidators {
  import opened Wrappers
  import opened Text

  datatype UsernameError = ReservedUsername

  const Reserved: string := "me"

  /** `validate_reserved_username(value)`: raises a validation error, or returns nothing. */
  function ValidateReservedUsername(value: string): (r: Outcome<UsernameError>)
    ensures r.Fail? <==> value in {"me", "Me", "mE", "ME"}
    ensures r.Fail? ==> r.error == ReservedUsername
  {
    ReservedSpellings(value);
    if ToLower(value) == Reserved then Fail(ReservedUsername) else Pass
  }

  /** Exactly four spellings lower-case to `me`. */
  lemma ReservedSpellings(value: string)
    ensures ToLower(value) == Reserved <==> value in {"me", "Me", "mE", "ME"}
  {
    if ToLower(value) == Reserved {
      assert |value| == 2;
      assert LowerChar(value[0]) == 'm' && LowerChar(value[1]) == 'e';
      assert value[0] in {'m', 'M'} && value[1] in {'e', 'E'};
      assert value == [value[0], value[1]];
    }
    if value in {"me", "Me", "mE", "ME"} {
      assert ToLower(value) == [LowerChar(value[0]), LowerChar(value[1])];
    }
  }

  /** The verdict depends only on the lower-cased name. */
  lemma VerdictByLowerCase(a: string, b: string)
    requires ToLower(a) == ToLower(b)
    ensures ValidateReservedUsername(a) == ValidateReservedUsername(b)
  {
  }

  /** Names that merely resemble the reserved one are accepted. */
  lemma NearMissesAccepted()
    ensures ValidateReservedUsername("me ") == Pass
    ensures ValidateReservedUsername("mee") == Pass
    ensures ValidateReservedUsername("name") == Pass
    ensures ValidateReservedUsername("") == Pass
  {
  }
}
