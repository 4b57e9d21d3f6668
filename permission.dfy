/**
 * The `v-permission` directive: a role requirement is checked against the user store, and an
 * element whose requirement fails is removed from its parent.
 */
module Permission {
  import User

  /**
   * The directive's binding value: absent (`undefined`/`null`), one role name, or a list of
   * role names.
   */
  datatype Requirement = Unset | Role(name: string) | Roles(names: seq<string>)

  /** The `mode` argument of `hasPermission`. */
  datatype Mode = Or | And

  /** `!requiredRoles || !requiredRoles.length`: absent, the empty string, or the empty list. */
  predicate Blank(req: Requirement) {
    match req
    case Unset => true
    case Role(name) => |name| == 0
    case Roles(names) => |names| == 0
  }

  /** `Array.isArray(requiredRoles) ? requiredRoles : [requiredRoles]`, for a requirement that is not blank. */
  function RequiredRoles(req: Requirement): (roles: seq<string>)
    requires !Blank(req)
    ensures req.Role? ==> roles == [req.name]
    ensures req.Roles? ==> roles == req.names
    ensures |roles| > 0
  {
    match req
    case Role(name) => [name]
    case Roles(names) => names
  }

  /** `hasPermission(requiredRoles, mode)`, with its second emptiness check kept as it is written. */
  predicate HasPermission(req: Requirement, mode: Mode, s: User.UserState)
  {
    if Blank(req) then true
    else if !User.IsLoggedIn(s) then false
    else
      var roles := RequiredRoles(req);
      if |roles| == 0 then true
      else if mode == And then User.HasAllRoles(s, roles)
      else User.HasAnyRole(s, roles)
  }

  /** The decision without the emptiness check that follows the login check. */
  predicate HasPermissionWithoutRecheck(req: Requirement, mode: Mode, s: User.UserState)
  {
    if Blank(req) then true
    else if !User.IsLoggedIn(s) then false
    else if mode == And then User.HasAllRoles(s, RequiredRoles(req))
    else User.HasAnyRole(s, RequiredRoles(req))
  }

  /** The second emptiness check can never fire: leaving it out changes no decision. */
  lemma RecheckUnreachable(req: Requirement, mode: Mode, s: User.UserState)
    ensures HasPermission(req, mode, s) == HasPermissionWithoutRecheck(req, mode, s)
  {
  }

  /**
   * What `hasPermission` decides, in terms of sets of roles: a blank requirement always passes;
   * otherwise the user must be logged in and hold all (`and`) or some (`or`) of the required roles.
   */
  lemma PermissionBySets(req: Requirement, mode: Mode, s: User.UserState)
    ensures Blank(req) ==> HasPermission(req, mode, s)
    ensures !Blank(req) ==>
      (HasPermission(req, mode, s) <==>
        && User.IsLoggedIn(s)
        && (mode == And ==> User.Elements(RequiredRoles(req)) <= User.Elements(User.Roles(s)))
        && (mode == Or ==> User.Elements(RequiredRoles(req)) * User.Elements(User.Roles(s)) != {}))
  {
    if !Blank(req) {
      User.RoleSets(s, RequiredRoles(req));
    }
  }

  /** A requirement that is not blank is refused to a visitor who is not logged in. */
  lemma LoggedOutRefused(req: Requirement, mode: Mode, s: User.UserState)
    requires !Blank(req) && !User.IsLoggedIn(s)
    ensures !HasPermission(req, mode, s)
  {
  }

  /** A single non-empty role name means the same as the one-element list holding it, in both modes. */
  lemma SingleRoleIsList(name: string, mode: Mode, s: User.UserState)
    requires name != ""
    ensures HasPermission(Role(name), mode, s) == HasPermission(Roles([name]), mode, s)
  {
  }

  /**
   * The empty role name is blank, but the list holding it is not: for a visitor who is not logged
   * in the two differ.
   */
  lemma EmptyNameIsBlank(mode: Mode)
    ensures HasPermission(Role(""), mode, User.Initial)
    ensures !HasPermission(Roles([""]), mode, User.Initial)
  {
    User.InitialLoggedOut();
  }

  /** `and` mode is the stricter one: whatever it grants, `or` mode grants too. */
  lemma ModesCompared(req: Requirement, s: User.UserState)
    ensures HasPermission(req, And, s) ==> HasPermission(req, Or, s)
  {
    if !Blank(req) && User.IsLoggedIn(s) {
      User.AllImpliesAny(s, RequiredRoles(req));
    }
  }

  /** `modifiers.and ? 'and' : 'or'`. */
  function ModeFor(andModifier: bool): (m: Mode)
    ensures m == And <==> andModifier
  {
    if andModifier then And else Or
  }

  /** An element carrying the directive; `attached` is whether it still has a parent node. */
  class GuardedElement {
    var attached: bool

    constructor (attached: bool)
      ensures this.attached == attached
    {
      this.attached := attached;
    }

    /** `mounted`: the element is removed from its parent when the check fails. */
    method Mounted(store: User.UserStore, value: Requirement, andModifier: bool)
      modifies this
      ensures attached == (old(attached) && HasPermission(value, ModeFor(andModifier), store.State()))
    {
      var mode := ModeFor(andModifier);
      if !HasPermission(value, mode, store.State()) {
        if attached {
          attached := false;
        }
      }
    }

    /** `updated`: removes the element when the check fails and it still has a parent; it never re-attaches it. */
    method Updated(store: User.UserStore, value: Requirement, andModifier: bool)
      modifies this
      ensures attached == (old(attached) && HasPermission(value, ModeFor(andModifier), store.State()))
    {
      var mode := ModeFor(andModifier);
      var show := HasPermission(value, mode, store.State());
      if !show && attached {
        attached := false;
      }
    }
  }
}
