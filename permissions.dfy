/** The access rules of the user endpoints: the `IsAdmin` and `IsOwner`
    permission classes, the permission list of each view, and the decision
    they give for each request. A second, rule-by-rule statement of the
    policy serves as the reference the view decisions are proved against. */
module Permissions {
  import opened Wrappers
  import opened Models

  /** The requesting user: anonymous, or an authenticated stored user. */
  datatype Actor = Anonymous | Member(user: UserRecord)

  /** The permission classes in use; `Or` is the `|` combination. */
  datatype Permission =
    | AllowAny
    | IsAuthenticated
    | IsAdmin
    | IsOwner
    | Or(left: Permission, right: Permission)

  /** The view-level check `has_permission`. A permission class that does not
      define it allows every request. */
  function HasPermission(p: Permission, actor: Actor): bool {
    match p
    case AllowAny => true
    case IsAuthenticated => actor.Member?
    case IsAdmin => actor.Member? && actor.user.role == RoleName(Admin)
    case IsOwner => true
    case Or(l, r) => HasPermission(l, actor) || HasPermission(r, actor)
  }

  /** The object-level check `has_object_permission` on the user with primary
      key `target`. An operand of `|` counts only when its view-level check
      passes too. */
  function HasObjectPermission(p: Permission, actor: Actor, target: nat): bool {
    match p
    case IsOwner => actor.Member? && actor.user.id == target
    case Or(l, r) =>
      || (HasPermission(l, actor) && HasObjectPermission(l, actor, target))
      || (HasPermission(r, actor) && HasObjectPermission(r, actor, target))
    case _ => true
  }

  datatype View = RegisterView | LoginView | LogoutView | UserListView | UserDetailView | ProfileView

  function PermissionClasses(v: View): seq<Permission> {
    match v
    case RegisterView => [AllowAny]
    case LoginView => []
    case LogoutView => [AllowAny]
    case UserListView => [IsAdmin]
    case UserDetailView => [Or(IsAdmin, IsOwner)]
    case ProfileView => [IsAuthenticated]
  }

  /** The requests the endpoints serve; the detail actions name their target
      by primary key, the profile actions never name one. */
  datatype Action =
    | Register
    | Login
    | Logout
    | ListUsers
    | RetrieveUser(target: nat)
    | UpdateUser(target: nat)
    | DestroyUser(target: nat)
    | RetrieveProfile
    | UpdateProfile

  function ViewOf(a: Action): View {
    match a
    case Register => RegisterView
    case Login => LoginView
    case Logout => LogoutView
    case ListUsers => UserListView
    case RetrieveUser(_) => UserDetailView
    case UpdateUser(_) => UserDetailView
    case DestroyUser(_) => UserDetailView
    case RetrieveProfile => ProfileView
    case UpdateProfile => ProfileView
  }

  /** The object whose permissions the view checks: the detail target. The
      profile view fetches the requesting user itself and checks none. */
  function CheckedObject(a: Action): Option<nat> {
    match a
    case RetrieveUser(t) => Some(t)
    case UpdateUser(t) => Some(t)
    case DestroyUser(t) => Some(t)
    case _ => None
  }

  /** The user the profile view acts on: always the requesting user. */
  function ProfileObject(actor: Actor): (target: Option<nat>)
    ensures target.Some? <==> actor.Member?
    ensures target.Some? ==> target.value == actor.user.id
  {
    match actor
    case Anonymous => None
    case Member(u) => Some(u.id)
  }

  /** Whether the view lets the request through: every permission class of
      the view passes its view-level check and, where the view checks an
      object, its object-level check. */
  function Authorize(actor: Actor, action: Action): bool {
    var perms := PermissionClasses(ViewOf(action));
    && AllHavePermission(perms, actor)
    && (CheckedObject(action).Some? ==>
          AllHaveObjectPermission(perms, actor, CheckedObject(action).value))
  }

  predicate AllHavePermission(perms: seq<Permission>, actor: Actor) {
    perms == [] || (HasPermission(perms[0], actor) && AllHavePermission(perms[1..], actor))
  }

  predicate AllHaveObjectPermission(perms: seq<Permission>, actor: Actor, target: nat) {
    perms == [] || (HasObjectPermission(perms[0], actor, target)
                    && AllHaveObjectPermission(perms[1..], actor, target))
  }

  /** Whether permission `p` lets the request through: its view-level check
      and, when the view checks object `obj`, its object-level check. */
  predicate Grants(p: Permission, actor: Actor, obj: Option<nat>) {
    HasPermission(p, actor) && (obj.Some? ==> HasObjectPermission(p, actor, obj.value))
  }

  /** The defaults of `BasePermission`: a class that defines only one of the
      two checks passes the other, so `IsOwner` on its own lets every caller,
      anonymous included, through a view that checks no object. */
  lemma BasePermissionDefaults(actor: Actor, target: nat)
    ensures Grants(IsOwner, actor, None)
    ensures HasObjectPermission(AllowAny, actor, target)
    ensures HasObjectPermission(IsAuthenticated, actor, target)
    ensures HasObjectPermission(IsAdmin, actor, target)
  {
  }

  /** `l | r` lets a request through exactly when one of its operands does on
      its own, with or without an object to check. */
  lemma OrCombination(l: Permission, r: Permission, actor: Actor, obj: Option<nat>)
    ensures Grants(Or(l, r), actor, obj) <==> Grants(l, actor, obj) || Grants(r, actor, obj)
  {
  }

  lemma {:induction false} AllHavePermissionEach(perms: seq<Permission>, actor: Actor)
    ensures AllHavePermission(perms, actor) <==>
              forall i | 0 <= i < |perms| :: HasPermission(perms[i], actor)
    decreases |perms|
  {
    if perms != [] {
      AllHavePermissionEach(perms[1..], actor);
      assert forall i | 1 <= i < |perms| :: perms[i] == perms[1..][i - 1];
    }
  }

  lemma {:induction false} AllHaveObjectPermissionEach(perms: seq<Permission>, actor: Actor, target: nat)
    ensures AllHaveObjectPermission(perms, actor, target) <==>
              forall i | 0 <= i < |perms| :: HasObjectPermission(perms[i], actor, target)
    decreases |perms|
  {
    if perms != [] {
      AllHaveObjectPermissionEach(perms[1..], actor, target);
      assert forall i | 1 <= i < |perms| :: perms[i] == perms[1..][i - 1];
    }
  }

  /** A view lets a request through exactly when every one of its permission
      classes does: all view-level checks first, then all object-level ones. */
  lemma AuthorizeChecksEveryClass(actor: Actor, action: Action)
    ensures Authorize(actor, action) <==>
              forall p | p in PermissionClasses(ViewOf(action)) :: Grants(p, actor, CheckedObject(action))
  {
    var perms := PermissionClasses(ViewOf(action));
    AllHavePermissionEach(perms, actor);
    var obj := CheckedObject(action);
    if obj.Some? {
      AllHaveObjectPermissionEach(perms, actor, obj.value);
    }
    assert (forall p | p in perms :: Grants(p, actor, obj))
       <==> (forall i | 0 <= i < |perms| :: Grants(perms[i], actor, obj));
  }

  predicate IsPublic(a: Action) {
    a.Register? || a.Login? || a.Logout?
  }

  predicate IsAdminActor(actor: Actor) {
    actor.Member? && actor.user.role == RoleName(Admin)
  }

  /** The access policy as ordered rules: public actions are open; otherwise
      an anonymous caller is refused; an Admin may do anything; only an Admin
      may list users; a detail action is allowed on oneself only; the
      profile is always one's own. */
  function PolicyDecision(actor: Actor, action: Action): bool {
    if IsPublic(action) then true
    else if actor.Anonymous? then false
    else if IsAdminActor(actor) then true
    else
      match action
      case ListUsers => false
      case RetrieveUser(t) => t == actor.user.id
      case UpdateUser(t) => t == actor.user.id
      case DestroyUser(t) => t == actor.user.id
      case _ => true
  }

  /** `IsAdmin | IsOwner` on an object: an Admin, or the object itself. */
  lemma AdminOrOwner(actor: Actor, action: Action)
    ensures HasPermission(Or(IsAdmin, IsOwner), actor)
    ensures CheckedObject(action).Some? ==>
              HasObjectPermission(Or(IsAdmin, IsOwner), actor, CheckedObject(action).value)
              == (IsAdminActor(actor) || (actor.Member? && actor.user.id == CheckedObject(action).value))
  {
    if CheckedObject(action).Some? {
      var t := CheckedObject(action).value;
      assert HasObjectPermission(IsAdmin, actor, t);
      assert HasObjectPermission(IsOwner, actor, t) == (actor.Member? && actor.user.id == t);
    }
  }

  /** The per-view permission lists decide exactly as the ordered rules. */
  lemma AuthorizeFollowsPolicy(actor: Actor, action: Action)
    ensures Authorize(actor, action) == PolicyDecision(actor, action)
  {
    AdminOrOwner(actor, action);
    var perms := PermissionClasses(ViewOf(action));
    if perms != [] {
      var p := perms[0];
      assert perms == [p];
      assert perms[1..] == [];
      assert AllHavePermission(perms, actor) == HasPermission(p, actor);
      if CheckedObject(action).Some? {
        assert AllHaveObjectPermission(perms, actor, CheckedObject(action).value)
            == HasObjectPermission(p, actor, CheckedObject(action).value);
      }
    }
    match action
    case ListUsers =>
      assert Authorize(actor, action) == HasPermission(IsAdmin, actor);
    case RetrieveUser(t) =>
      assert Authorize(actor, action) == HasObjectPermission(Or(IsAdmin, IsOwner), actor, t);
    case UpdateUser(t) =>
      assert Authorize(actor, action) == HasObjectPermission(Or(IsAdmin, IsOwner), actor, t);
    case DestroyUser(t) =>
      assert Authorize(actor, action) == HasObjectPermission(Or(IsAdmin, IsOwner), actor, t);
    case RetrieveProfile =>
      assert Authorize(actor, action) == actor.Member?;
    case UpdateProfile =>
      assert Authorize(actor, action) == actor.Member?;
    case Register =>
      assert Authorize(actor, action);
    case Login =>
      assert Authorize(actor, action);
    case Logout =>
      assert Authorize(actor, action);
  }

  /** `IsAdmin` passes exactly for an authenticated user whose role is Admin;
      the staff and superuser flags play no part. */
  lemma IsAdminIgnoresStaffFlags(u: UserRecord, staff: bool, superuser: bool)
    ensures HasPermission(IsAdmin, Member(u)) <==> u.role == "Admin"
    ensures !HasPermission(IsAdmin, Anonymous)
    ensures HasPermission(IsAdmin, Member(u.(isStaff := staff, isSuperuser := superuser)))
            == HasPermission(IsAdmin, Member(u))
  {
  }

  /** `IsOwner` passes on an object exactly when it is the requesting user. */
  lemma IsOwnerMeansSelf(actor: Actor, target: nat)
    ensures HasObjectPermission(IsOwner, actor, target) <==> actor.Member? && actor.user.id == target
  {
  }

  /** Fail closed: an anonymous caller gets through exactly the public
      actions. */
  lemma AnonymousOnlyPublic(action: Action)
    ensures Authorize(Anonymous, action) <==> IsPublic(action)
  {
    AuthorizeFollowsPolicy(Anonymous, action);
  }

  /** Only an Admin may list users. */
  lemma ListingIsAdminOnly(actor: Actor)
    ensures Authorize(actor, ListUsers) <==> IsAdminActor(actor)
  {
    AuthorizeFollowsPolicy(actor, ListUsers);
  }

  /** Retrieving, updating or deleting a user is allowed exactly for an Admin
      or for that user itself. */
  lemma DetailIsAdminOrOwner(actor: Actor, target: nat)
    ensures Authorize(actor, RetrieveUser(target)) <==>
              actor.Member? && (actor.user.role == "Admin" || actor.user.id == target)
    ensures Authorize(actor, UpdateUser(target)) == Authorize(actor, RetrieveUser(target))
    ensures Authorize(actor, DestroyUser(target)) == Authorize(actor, RetrieveUser(target))
  {
    AuthorizeFollowsPolicy(actor, RetrieveUser(target));
    AuthorizeFollowsPolicy(actor, UpdateUser(target));
    AuthorizeFollowsPolicy(actor, DestroyUser(target));
  }

  /** The profile endpoints need authentication only, act on the caller's
      own record, and allow what the detail endpoints allow on it. */
  lemma ProfileIsOwnRecord(actor: Actor)
    ensures Authorize(actor, RetrieveProfile) <==> actor.Member?
    ensures Authorize(actor, UpdateProfile) <==> actor.Member?
    ensures actor.Member? ==>
              ProfileObject(actor) == Some(actor.user.id)
              && Authorize(actor, RetrieveUser(actor.user.id))
              && Authorize(actor, UpdateUser(actor.user.id))
  {
    AuthorizeFollowsPolicy(actor, RetrieveProfile);
    AuthorizeFollowsPolicy(actor, UpdateProfile);
    if actor.Member? {
      AuthorizeFollowsPolicy(actor, RetrieveUser(actor.user.id));
      AuthorizeFollowsPolicy(actor, UpdateUser(actor.user.id));
    }
  }

  /** An Admin gets through every action. */
  lemma AdminMayDoAnything(actor: Actor, action: Action)
    requires IsAdminActor(actor)
    ensures Authorize(actor, action)
  {
    AuthorizeFollowsPolicy(actor, action);
  }

  /** Apart from Admin, roles carry no privilege: two users with the same key
      and non-Admin roles get the same decision on every action. */
  lemma NonAdminRolesAlike(u: UserRecord, otherRole: string, action: Action)
    requires u.role != "Admin" && otherRole != "Admin"
    ensures Authorize(Member(u), action) == Authorize(Member(u.(role := otherRole)), action)
  {
    AuthorizeFollowsPolicy(Member(u), action);
    AuthorizeFollowsPolicy(Member(u.(role := otherRole)), action);
  }

  /** The decisions the endpoint tests expect, for an Admin that is also
      staff and superuser, a Patient and a Doctor. */
  lemma EndpointTestOutcomes(admin: UserRecord, patient: UserRecord, doctor: UserRecord)
    requires admin.role == "Admin" && admin.isStaff && admin.isSuperuser
    requires patient.role == "Patient" && doctor.role == "Doctor"
    requires patient.id != doctor.id
    ensures Authorize(Member(admin), ListUsers)
    ensures !Authorize(Member(patient), ListUsers)
    ensures Authorize(Member(admin), RetrieveUser(patient.id))
    ensures Authorize(Member(patient), RetrieveUser(patient.id))
    ensures !Authorize(Member(patient), RetrieveUser(doctor.id))
    ensures Authorize(Member(patient), RetrieveProfile)
    ensures Authorize(Member(patient), UpdateProfile)
    ensures Authorize(Anonymous, Register) && Authorize(Anonymous, Login) && Authorize(Anonymous, Logout)
  {
    ListingIsAdminOnly(Member(admin));
    ListingIsAdminOnly(Member(patient));
    DetailIsAdminOrOwner(Member(admin), patient.id);
    DetailIsAdminOrOwner(Member(patient), patient.id);
    DetailIsAdminOrOwner(Member(patient), doctor.id);
    ProfileIsOwnRecord(Member(patient));
    AnonymousOnlyPublic(Register);
    AnonymousOnlyPublic(Login);
    AnonymousOnlyPublic(Logout);
  }
}
