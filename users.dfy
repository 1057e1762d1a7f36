/**
  The User record exchanged as JSON and stored as one row, and the field
  validation that create and update apply before touching the store.
 */
module Users {
  import opened Ints
  import opened Text

  /** `{"id": uint64, "name": string, "email": string, "age": uint}`. */
  datatype User = User(id: Uint64, name: string, email: string, age: Uint64)

  const NameRequired: string := "name은 필수입니다."
  const EmailRequired: string := "email은 필수입니다."
  const EmailMalformed: string := "email 형식이 올바르지 않습니다."

  /** What may be persisted: a non-blank name, and a non-blank email that
      contains '@'. The id and the age are not checked. */
  predicate UserIsValid(u: User) {
    !IsBlank(u.name) && !IsBlank(u.email) && '@' in u.email
  }

  /** validateUser: "" when the user is acceptable, otherwise the message of the
      first rule that fails, in the order blank name, blank email, missing '@'. */
  function ValidateUser(u: User): (msg: string)
    ensures msg == "" <==> UserIsValid(u)
    ensures IsBlank(u.name) ==> msg == NameRequired
    ensures !IsBlank(u.name) && IsBlank(u.email) ==> msg == EmailRequired
    ensures !IsBlank(u.name) && !IsBlank(u.email) && '@' !in u.email ==> msg == EmailMalformed
  {
    if TrimSpace(u.name) == "" then NameRequired
    else if TrimSpace(u.email) == "" then EmailRequired
    else if '@' !in u.email then EmailMalformed
    else ""
  }
}
