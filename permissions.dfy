/**
 * The two permission classes of the recipes API: `IsAuthorOrReadOnly`
 * (object level) and `IsAdmin` (view level). The requesting user is an
 * explicit parameter.
 */
module Permissions {
  import opened Wrappers
  import opened Models

  /** `request.user`: Django's anonymous user, or a stored user with its flags. */
  datatype RequestUser =
    | Anonymous
    | Authenticated(id: Id, isAdmin: bool, isSuperuser: bool)

  /** `permissions.SAFE_METHODS` */
  const SafeMethods: set<string> := {"GET", "HEAD", "OPTIONS"}

  /** `IsAuthorOrReadOnly.has_object_permission` for an object whose author has id `author`. */
  function HasObjectPermission(verb: string, user: RequestUser, author: Id): (r: bool)
    ensures verb in SafeMethods ==> r
    ensures verb !in SafeMethods ==> (r <==> user.Authenticated? && user.id == author)
  {
    verb in SafeMethods || (user.Authenticated? && user.id == author)
  }

  /** Anyone may read; only the author may write, whatever their flags. */
  lemma OnlyAuthorWrites(verb: string, user: RequestUser, author: Id)
    ensures HasObjectPermission("GET", user, author)
    ensures verb !in SafeMethods && HasObjectPermission(verb, user, author) ==> user.Authenticated? && user.id == author
    ensures verb !in SafeMethods ==> !HasObjectPermission(verb, Anonymous, author)
    ensures verb !in SafeMethods && user.Authenticated? && user.id != author ==>
              !HasObjectPermission(verb, Authenticated(user.id, true, true), author)
  {
  }

  /** `IsAdmin.has_permission`, for a user model that declares an `is_admin` flag beside
      `is_superuser`. */
  function HasAdminPermission(user: RequestUser): (r: bool)
    ensures user.Anonymous? ==> !r
    ensures user.Authenticated? ==> (r <==> user.isAdmin || user.isSuperuser)
  {
    match user
    case Anonymous => false
    case Authenticated(_, isAdmin, isSuperuser) => isAdmin || isSuperuser
  }

  /** `getattr(user, name)` for one of the two flags, on a user model that declares the flags in `declared`. */
  function Flag(user: RequestUser, name: string, declared: set<string>): Result<bool, AttributeError>
    requires user.Authenticated?
  {
    if name !in declared then Failure(NoSuchAttribute(name))
    else if name == AdminFlag then Success(user.isAdmin)
    else Success(user.isSuperuser)
  }

  const AdminFlag: string := "is_admin"
  const SuperuserFlag: string := "is_superuser"

  /** The flags `CustomUser` has: `is_superuser` comes from `AbstractUser`, and no class declares `is_admin`. */
  const CustomUserFlags: set<string> := {SuperuserFlag}

  /** The body of `IsAdmin.has_permission`: `request.user.is_admin or request.user.is_superuser`
      for an authenticated user, with Python's short-circuit `or`. */
  function AdminCheck(user: RequestUser, declared: set<string>): Result<bool, AttributeError> {
    if user.Anonymous? then Success(false)
    else
      var admin :- Flag(user, AdminFlag, declared);
      if admin then Success(true) else Flag(user, SuperuserFlag, declared)
  }

  /** `IsAdmin.has_permission` as written, on `CustomUser`. */
  function HasAdminPermissionAsWritten(user: RequestUser): Result<bool, AttributeError> {
    AdminCheck(user, CustomUserFlags)
  }

  /** As written, the check refuses anonymous users and raises `AttributeError` for every
      authenticated one, superusers included. */
  lemma AdminCheckAlwaysFails(user: RequestUser)
    ensures user.Anonymous? ==> HasAdminPermissionAsWritten(user) == Success(false)
    ensures user.Authenticated? ==> HasAdminPermissionAsWritten(user) == Failure(NoSuchAttribute(AdminFlag))
  {
    assert AdminFlag != SuperuserFlag by {
      assert |AdminFlag| != |SuperuserFlag|;
    }
  }

  /** Once the user model declares `is_admin`, the written expression never fails and answers
      `HasAdminPermission`. */
  lemma AdminCheckWithDeclaredFlag(user: RequestUser)
    ensures AdminCheck(user, {AdminFlag, SuperuserFlag}) == Success(HasAdminPermission(user))
  {
    assert AdminFlag != SuperuserFlag by {
      assert |AdminFlag| != |SuperuserFlag|;
    }
  }
}
