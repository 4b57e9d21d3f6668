/**
 * The `user` store: the session token, the signed-in user's record with its role list, the
 * getters that answer role questions, and the actions that replace parts of the state.
 */
module User {
  import opened Wrappers
  import Js

  /**
   * `userInfo`: the role list (which `setUserInfo` may leave out) and the record's other
   * properties (`id`, `username`, `avatar`, ...).
   */
  datatype UserInfo = UserInfo(roles: Option<seq<string>>, attrs: map<string, Js.Value>)

  /** A snapshot of the store's state, as the getters see it. */
  datatype UserState = UserState(token: Option<string>, userInfo: Option<UserInfo>)

  /** The state before any action: no token, no user. */
  const Initial: UserState := UserState(None, None)

  /** `isLoggedIn`: `!!state.token`. */
  predicate IsLoggedIn(s: UserState) {
    Js.StrTruthy(s.token)
  }

  /** `roles`: the user's role list, or `[]` when there is no user or no list. */
  function Roles(s: UserState): (r: seq<string>)
    ensures s.userInfo.None? || s.userInfo.value.roles.None? ==> r == []
    ensures s.userInfo.Some? && s.userInfo.value.roles.Some? ==> r == s.userInfo.value.roles.value
  {
    if s.userInfo.Some? && s.userInfo.value.roles.Some? then s.userInfo.value.roles.value else []
  }

  /** `hasRole(role)`: `userInfo?.roles?.includes(role) || false`. */
  predicate HasRole(s: UserState, role: string)
  {
    match s.userInfo
    case None => false
    case Some(info) => info.roles.Some? && role in info.roles.value
  }

  /** `hasAnyRole(rs)`: `rs.some(...)`, scanning `rs` from the front. */
  predicate HasAnyRole(s: UserState, rs: seq<string>)
  {
    |rs| > 0 && (HasRole(s, rs[0]) || HasAnyRole(s, rs[1..]))
  }

  /** `hasAllRoles(rs)`: `rs.every(...)`, scanning `rs` from the front. */
  predicate HasAllRoles(s: UserState, rs: seq<string>)
  {
    |rs| == 0 || (HasRole(s, rs[0]) && HasAllRoles(s, rs[1..]))
  }

  /** The store starts logged out, with no roles. */
  lemma InitialLoggedOut()
    ensures !IsLoggedIn(Initial) && Roles(Initial) == []
  {
  }

  /** `isLoggedIn` holds exactly for a non-null, non-empty token. */
  lemma LoggedInIff(s: UserState)
    ensures IsLoggedIn(s) <==> s.token.Some? && |s.token.value| > 0
  {
  }

  /** `hasRole` is membership in the `roles` getter's list. */
  lemma HasRoleIff(s: UserState, role: string)
    ensures HasRole(s, role) <==> role in Roles(s)
  {
  }

  /** `hasAnyRole(rs)` holds iff some element of `rs` is one of the user's roles. */
  lemma {:induction false} HasAnyRoleIff(s: UserState, rs: seq<string>)
    ensures HasAnyRole(s, rs) <==> exists i :: 0 <= i < |rs| && rs[i] in Roles(s)
    decreases |rs|
  {
    if |rs| > 0 {
      HasAnyRoleIff(s, rs[1..]);
      HasRoleIff(s, rs[0]);
      if HasAnyRole(s, rs[1..]) {
        var i :| 0 <= i < |rs[1..]| && rs[1..][i] in Roles(s);
        assert rs[i + 1] in Roles(s);
      }
      if exists i :: 0 <= i < |rs| && rs[i] in Roles(s) {
        var i :| 0 <= i < |rs| && rs[i] in Roles(s);
        if i > 0 {
          assert rs[1..][i - 1] in Roles(s);
        }
      }
    }
  }

  /** `hasAllRoles(rs)` holds iff every element of `rs` is one of the user's roles. */
  lemma {:induction false} HasAllRolesIff(s: UserState, rs: seq<string>)
    ensures HasAllRoles(s, rs) <==> forall i :: 0 <= i < |rs| ==> rs[i] in Roles(s)
    decreases |rs|
  {
    if |rs| > 0 {
      HasAllRolesIff(s, rs[1..]);
      HasRoleIff(s, rs[0]);
      if forall i :: 0 <= i < |rs| ==> rs[i] in Roles(s) {
        assert forall i :: 0 <= i < |rs[1..]| ==> rs[1..][i] == rs[i + 1];
      }
      if HasAllRoles(s, rs) {
        forall i | 0 <= i < |rs| ensures rs[i] in Roles(s) {
          if i > 0 {
            assert rs[i] == rs[1..][i - 1];
          }
        }
      }
    }
  }

  /** The roles of a list, as a set. */
  function Elements(rs: seq<string>): set<string> {
    set r | r in rs
  }

  /** In set terms: `hasAnyRole` is a non-empty intersection, `hasAllRoles` is inclusion. */
  lemma RoleSets(s: UserState, rs: seq<string>)
    ensures HasAnyRole(s, rs) <==> Elements(rs) * Elements(Roles(s)) != {}
    ensures HasAllRoles(s, rs) <==> Elements(rs) <= Elements(Roles(s))
  {
    HasAnyRoleIff(s, rs);
    HasAllRolesIff(s, rs);
    var both := Elements(rs) * Elements(Roles(s));
    if HasAnyRole(s, rs) {
      var i :| 0 <= i < |rs| && rs[i] in Roles(s);
      assert rs[i] in both;
    }
    if both != {} {
      var r :| r in both;
      var i :| 0 <= i < |rs| && rs[i] == r;
    }
    if Elements(rs) <= Elements(Roles(s)) {
      assert forall i :: 0 <= i < |rs| ==> rs[i] in Elements(rs);
    }
  }

  /** With no user, or with no roles asked for, `hasAnyRole` is false. */
  lemma HasAnyRoleFalse(s: UserState, rs: seq<string>)
    requires |rs| == 0 || s.userInfo.None?
    ensures !HasAnyRole(s, rs)
  {
    HasAnyRoleIff(s, rs);
  }

  /** With no roles asked for, `hasAllRoles` is true, whoever is signed in (or nobody). */
  lemma HasAllRolesVacuous(s: UserState)
    ensures HasAllRoles(s, [])
  {
  }

  /** With no user, `hasAllRoles` holds only for the empty list. */
  lemma HasAllRolesWithoutUser(s: UserState, rs: seq<string>)
    requires s.userInfo.None?
    ensures HasAllRoles(s, rs) <==> |rs| == 0
  {
  }

  /** Having every one of a non-empty list of roles implies having some of them. */
  lemma AllImpliesAny(s: UserState, rs: seq<string>)
    requires |rs| > 0
    ensures HasAllRoles(s, rs) ==> HasAnyRole(s, rs)
  {
  }

  /** The store itself: `token` and `userInfo` are replaced by its actions. */
  class UserStore {
    var token: Option<string>
    var userInfo: Option<UserInfo>

    /** The current state as the getters read it. */
    function State(): UserState
      reads this
    {
      UserState(token, userInfo)
    }

    /** A new store, in the initial state. */
    constructor ()
      ensures State() == Initial
      ensures !IsLoggedIn(State())
    {
      token := None;
      userInfo := None;
    }

    /** `setUserInfo(info)`. */
    method SetUserInfo(info: Option<UserInfo>)
      modifies this
      ensures userInfo == info
      ensures token == old(token)
    {
      userInfo := info;
    }

    /** `setToken(t)`: an empty `t` leaves the store logged out. */
    method SetToken(t: string)
      modifies this
      ensures token == Some(t)
      ensures userInfo == old(userInfo)
      ensures IsLoggedIn(State()) <==> t != ""
    {
      token := Some(t);
    }

    /** `setRoles(rs)`: creates `{ roles: [] }` when there is no user, then replaces its role list. */
    method SetRoles(rs: seq<string>)
      modifies this
      ensures old(userInfo).None? ==> userInfo == Some(UserInfo(Some(rs), map[]))
      ensures old(userInfo).Some? ==> userInfo == Some(old(userInfo).value.(roles := Some(rs)))
      ensures token == old(token)
      ensures Roles(State()) == rs
      ensures forall r :: HasRole(State(), r) <==> r in rs
    {
      if userInfo.None? {
        userInfo := Some(UserInfo(Some([]), map[]));
      }
      userInfo := Some(userInfo.value.(roles := Some(rs)));
    }

    /** `logout()`: forgets the token and the user. */
    method Logout()
      modifies this
      ensures State() == Initial
      ensures !IsLoggedIn(State()) && Roles(State()) == []
    {
      token := None;
      userInfo := None;
    }
  }
}
