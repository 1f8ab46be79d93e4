/** The three object- and view-level permission classes of the server. A
    request is made by a principal with an HTTP method; object permissions
    look at whether the object has a `user` (a give) or only an `id` (an
    account). The anonymous principal has no `is_superadmin` attribute, so a
    check that reads it raises instead of answering. */
module Permissions {

  datatype Principal = Anonymous | Member(id: nat, isSuperadmin: bool)

  datatype Method = GET | HEAD | OPTIONS | POST | PUT | PATCH | DELETE

  /** DRF's `SAFE_METHODS`. */
  predicate IsSafe(m: Method) {
    m == GET || m == HEAD || m == OPTIONS
  }

  /** What the permission is asked about: an object with a `user` field (its
      owner's id), an object with only an `id`, or an object with neither. */
  datatype Target = Owned(ownerId: nat) | Account(accountId: nat) | Opaque

  /** The answer of a permission check: `Crash` is the `AttributeError` of
      reading `is_superadmin` on the anonymous user. */
  datatype Verdict = Allow | Deny | Crash

  /** `IsSuperAdmin.has_permission`: authenticated and flagged superadmin. */
  function IsSuperAdmin(p: Principal): (ok: bool)
    ensures ok <==> p.Member? && p.isSuperadmin
  {
    match p
    case Anonymous => false
    case Member(_, admin) => admin
  }

  /** `IsOwnerOrSuperAdmin.has_object_permission`. */
  function IsOwnerOrSuperAdmin(p: Principal, obj: Target): (v: Verdict)
    ensures p.Anonymous? <==> v == Crash
    ensures p.Member? && p.isSuperadmin ==> v == Allow
    ensures p.Member? && !p.isSuperadmin ==>
              (v == Allow <==> (obj.Owned? && obj.ownerId == p.id) || (obj.Account? && obj.accountId == p.id))
  {
    match p
    case Anonymous => Crash
    case Member(uid, admin) =>
      if admin then Allow
      else match obj
        case Owned(owner) => if owner == uid then Allow else Deny
        case Account(id) => if id == uid then Allow else Deny
        case Opaque => Deny
  }

  /** `IsOwnerOrReadOnly.has_object_permission`. */
  function IsOwnerOrReadOnly(p: Principal, m: Method, obj: Target): (v: Verdict)
    ensures IsSafe(m) ==> v == Allow
    ensures !IsSafe(m) ==> (p.Anonymous? <==> v == Crash)
    ensures p.Member? && p.isSuperadmin ==> v == Allow
    ensures p.Member? && !p.isSuperadmin && !IsSafe(m) ==>
              (v == Allow <==> obj.Owned? && obj.ownerId == p.id)
  {
    if IsSafe(m) then Allow
    else match p
      case Anonymous => Crash
      case Member(uid, admin) =>
        if admin then Allow
        else match obj
          case Owned(owner) => if owner == uid then Allow else Deny
          case _ => Deny
  }

  /** On an object with an owner, passing `IsOwnerOrSuperAdmin` means passing
      `IsOwnerOrReadOnly` for every method. */
  lemma OwnerOrAdminImpliesOwnerOrReadOnly(p: Principal, m: Method, owner: nat)
    requires IsOwnerOrSuperAdmin(p, Owned(owner)) == Allow
    ensures IsOwnerOrReadOnly(p, m, Owned(owner)) == Allow
  {
  }

  /** Granting `is_superadmin` never takes a permission away. */
  lemma PromotionKeepsPermissions(id: nat, m: Method, obj: Target)
    ensures IsSuperAdmin(Member(id, false)) ==> IsSuperAdmin(Member(id, true))
    ensures IsOwnerOrSuperAdmin(Member(id, false), obj) == Allow ==>
              IsOwnerOrSuperAdmin(Member(id, true), obj) == Allow
    ensures IsOwnerOrReadOnly(Member(id, false), m, obj) == Allow ==>
              IsOwnerOrReadOnly(Member(id, true), m, obj) == Allow
  {
  }
}
