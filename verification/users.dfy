/** The user record (`app/models/user.py`) and its field-visibility rule. */
module Users {
  import opened Common

  /** A row of the user table. `id` and `createdAt` are assigned when the
      row is inserted; a record that has not been inserted carries 0 in both. */
  datatype User = User(
    id: nat,
    username: string,
    email: string,
    passwordHash: Credential,
    bio: Option<string>,
    isAdmin: bool,
    createdAt: nat,
    emailPublic: bool,
    bioPublic: bool)

  /** `User(username, email, password, bio=None, is_admin=False)`: the password
      is stored hashed, and the privacy columns take their defaults (email
      hidden, bio shown). */
  function NewUser(username: string, email: string, password: string,
                   bio: Option<string> := None, isAdmin: bool := false): (u: User)
    ensures u.username == username && u.email == email && u.bio == bio
    ensures u.isAdmin == isAdmin
    ensures forall attempt :: CheckPassword(u.passwordHash, attempt) <==> attempt == password
    ensures !u.emailPublic && u.bioPublic
  {
    User(0, username, email, HashPassword(password), bio, isAdmin, 0, false, true)
  }

  /** Every key a user dictionary can carry. */
  const UserKeys: set<string> :=
    {"id", "username", "created_at", "is_admin", "bio", "email", "email_public", "bio_public"}

  /** `User.to_dict(include_private)`: identity fields always; bio and email
      when the owner made them public or private data is requested; the two
      privacy flags only with private data. */
  function UserToDict(u: User, includePrivate: bool): (d: Dict)
    ensures d.Keys <= UserKeys
    ensures "id" in d && d["id"] == Int(u.id)
    ensures "username" in d && d["username"] == Str(u.username)
    ensures "created_at" in d && d["created_at"] == Time(u.createdAt)
    ensures "is_admin" in d && d["is_admin"] == Bool(u.isAdmin)
    ensures "bio" in d <==> u.bioPublic || includePrivate
    ensures "bio" in d ==> d["bio"] == OptStr(u.bio)
    ensures "email" in d <==> u.emailPublic || includePrivate
    ensures "email" in d ==> d["email"] == Str(u.email)
    ensures "email_public" in d <==> includePrivate
    ensures "bio_public" in d <==> includePrivate
    ensures includePrivate ==> d["email_public"] == Bool(u.emailPublic) && d["bio_public"] == Bool(u.bioPublic)
  {
    var always := map["id" := Int(u.id), "username" := Str(u.username),
                      "created_at" := Time(u.createdAt), "is_admin" := Bool(u.isAdmin)];
    var withBio := if u.bioPublic || includePrivate then always["bio" := OptStr(u.bio)] else always;
    var withEmail := if u.emailPublic || includePrivate then withBio["email" := Str(u.email)] else withBio;
    if includePrivate then
      withEmail["email_public" := Bool(u.emailPublic)]["bio_public" := Bool(u.bioPublic)]
    else withEmail
  }

  /** Requesting private data only ever adds fields: every field of the public
      view appears, with the same value, in the private view. */
  lemma UserToDictMonotone(u: User)
    ensures UserToDict(u, false).Keys <= UserToDict(u, true).Keys
    ensures forall k :: k in UserToDict(u, false) ==> UserToDict(u, true)[k] == UserToDict(u, false)[k]
  {
  }
}
