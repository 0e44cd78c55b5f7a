/**
 * The registration serializer of the users app (users/serializers.py): the
 * same unique checks as the API's, plus a rule that refuses the username
 * "me" in any letter case.
 */
module UsersSerializers {
  import opened Wrappers
  import opened Tables
  import opened Schema
  import ApiSerializers

  /** `str.lower()` on one character, for the ASCII letters. */
  function LowerChar(c: char): char {
    if 'A' <= c <= 'Z' then (c as int + 32) as char else c
  }

  function Lower(s: string): (r: string)
    ensures |r| == |s|
    ensures forall i | 0 <= i < |s| :: r[i] == LowerChar(s[i])
  {
    seq(|s|, i requires 0 <= i < |s| => LowerChar(s[i]))
  }

  /** `CustomUserCreateSerializer.validate_username`. */
  function ValidateUsername(name: string): (r: Result<string, ApiSerializers.FieldError>)
    ensures r.Ok? ==> r.value == name
    ensures r.Err? ==> r.error == ApiSerializers.UsernameReserved
    ensures r.Err? <==> Lower(name) == "me"
  {
    if Lower(name) == "me" then Err(ApiSerializers.UsernameReserved) else Ok(name)
  }

  /** The names the rule refuses are exactly the four spellings of "me". */
  lemma ReservedUsernames(name: string)
    ensures ValidateUsername(name).Err? <==> name in {"me", "Me", "mE", "ME"}
  {
    if Lower(name) == "me" {
      assert |name| == 2;
      assert LowerChar(name[0]) == 'm' && LowerChar(name[1]) == 'e';
      assert name[0] == 'm' || name[0] == 'M';
      assert name[1] == 'e' || name[1] == 'E';
      assert name == [name[0], name[1]];
    }
    if name in {"me", "Me", "mE", "ME"} {
      assert Lower(name) == [LowerChar(name[0]), LowerChar(name[1])];
    }
  }

  /**
   * The field checks of `CustomUserCreateSerializer`: each CharField strips
   * its value and refuses it blank; then a taken username is reported
   * instead of the "me" rule, because the field's validators run before
   * `validate_username`, which sees the stripped value; the email is checked
   * on its own.
   */
  function RegistrationErrors(db: Db, email: string, username: string): (errs: set<ApiSerializers.FieldError>)
    ensures ApiSerializers.UsernameBlank in errs <==> Strip(username) == []
    ensures ApiSerializers.UsernameTaken in errs <==>
      Strip(username) != [] && exists u | u in db.users :: u.username == Strip(username)
    ensures ApiSerializers.UsernameReserved in errs <==>
      && Strip(username) != []
      && (forall u | u in db.users :: u.username != Strip(username))
      && ValidateUsername(Strip(username)).Err?
    ensures ApiSerializers.EmailBlank in errs <==> Strip(email) == []
    ensures ApiSerializers.EmailTaken in errs <==> Strip(email) != [] && exists u | u in db.users :: u.email == Strip(email)
    ensures errs == {} <==>
      && Strip(email) != [] && Strip(username) != []
      && UserInsertable(db, Strip(email), Strip(username)) && ValidateUsername(Strip(username)).Ok?
  {
    var name, mail := Strip(username), Strip(email);
    var usernameErrors :=
      if name == [] then {ApiSerializers.UsernameBlank}
      else if exists u | u in db.users :: u.username == name then {ApiSerializers.UsernameTaken}
      else match ValidateUsername(name)
        case Err(e) => {e}
        case Ok(_) => {};
    var emailErrors :=
      if mail == [] then {ApiSerializers.EmailBlank}
      else if exists u | u in db.users :: u.email == mail then {ApiSerializers.EmailTaken}
      else {};
    usernameErrors + emailErrors
  }

  /** This serializer refuses everything the API's does, and "me" on top. */
  lemma RegistrationStricter(db: Db, email: string, username: string)
    ensures ApiSerializers.RegistrationErrors(db, email, username) <= RegistrationErrors(db, email, username)
    ensures RegistrationErrors(db, email, username) - ApiSerializers.RegistrationErrors(db, email, username)
      <= {ApiSerializers.UsernameReserved}
  {
  }
}
