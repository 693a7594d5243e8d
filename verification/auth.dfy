/**
 * The authentication hook: the role predicates, the state reset on every
 * session change, the deferred role lookup, and sign-out with its fallback
 * chain and local-storage clean-up. Supabase calls appear as their outcomes.
 */
module Auth {
  import opened Common
  import Text
  import Seqs

  /** The database `app_role` enum (the hook's own `AppRole` type omits `guest`, but the column can hold it). */
  datatype Role = SuperAdmin | Staff | Guest

  datatype User = User(id: string)

  /** A session and the user it carries, if any. */
  datatype Session = Session(user: Option<User>)

  /** The hook's state, plus the effect's `cancelled` flag (set on unmount). */
  datatype AuthState = AuthState(
    session: Option<Session>,
    user: Option<User>,
    loading: bool,
    role: Option<Role>,
    cancelled: bool)

  function InitialState(): (s: AuthState)
    ensures s.session.None? && s.user.None? && s.role.None? && s.loading && !s.cancelled
  {
    AuthState(None, None, true, None, false)
  }

  // ---------------------------------------------------------------- roles

  /** `isAdmin`: super admins and staff. */
  predicate IsAdmin(role: Option<Role>) {
    role == Some(SuperAdmin) || role == Some(Staff)
  }

  /** `isSuperAdmin`. */
  predicate IsSuperAdmin(role: Option<Role>) {
    role == Some(SuperAdmin)
  }

  /** Every super admin is an admin; no role, or the guest role, grants neither. */
  lemma RolePredicates(role: Option<Role>)
    ensures IsSuperAdmin(role) ==> IsAdmin(role)
    ensures role.None? ==> !IsAdmin(role) && !IsSuperAdmin(role)
    ensures role == Some(Guest) ==> !IsAdmin(role)
    ensures IsAdmin(role) && !IsSuperAdmin(role) <==> role == Some(Staff)
  {}

  // ----------------------------------------------------- session changes

  /** `nextSession?.user?.id`, with `!userId` read as "no lookup". */
  function LookupId(next: Option<Session>): (id: Option<string>)
    ensures id.Some? <==> next.Some? && next.value.user.Some? && next.value.user.value.id != ""
    ensures id.Some? ==> id.value == next.value.user.value.id
  {
    if next.Some? && next.value.user.Some? && next.value.user.value.id != "" then Some(next.value.user.value.id) else None
  }

  /** `applySessionSync`: the new state, and the user id whose role lookup is scheduled, if any. */
  datatype Applied = Applied(state: AuthState, lookup: Option<string>)

  function ApplySessionSync(s: AuthState, next: Option<Session>): (a: Applied)
    ensures a.state.session == next
    ensures a.state.user == (if next.Some? then next.value.user else None)
    ensures a.state.role.None?
    ensures a.state.loading == s.loading && a.state.cancelled == s.cancelled
    ensures a.lookup == LookupId(next)
  {
    Applied(s.(session := next, user := if next.Some? then next.value.user else None, role := None), LookupId(next))
  }

  /** The listener and the initial `getSession`: loading on, apply, loading off unless cancelled. */
  function OnSession(s: AuthState, next: Option<Session>): (a: Applied)
    ensures a.state == ApplySessionSync(s, next).state.(loading := s.cancelled)
    ensures a.lookup == LookupId(next)
  {
    var applied := ApplySessionSync(s.(loading := true), next);
    applied.(state := applied.state.(loading := if !s.cancelled then false else applied.state.loading))
  }

  /** The effect's clean-up: later results see `cancelled`. */
  function Unmount(s: AuthState): (r: AuthState)
    ensures r.cancelled && r.(cancelled := s.cancelled) == s
  {
    s.(cancelled := true)
  }

  // ----------------------------------------------------------- role lookup

  /** What the `user_roles` query yields: the role of the row (none when there is no row), or an error. */
  datatype Lookup = Found(role: Option<Role>) | LookupFailed(message: string)

  /** The state after a role result, and the toast raised, if any. */
  datatype RoleOutcome = RoleOutcome(state: AuthState, toast: Option<string>)

  /** `err?.message || "Could not fetch user role."`. */
  function LookupToast(message: string): (t: string)
    ensures t != ""
    ensures message != "" ==> t == message
  {
    if message != "" then message else "Could not fetch user role."
  }

  /**
   * A started lookup's result, as written: applied whenever the hook is still
   * mounted, whichever user it was fetched for. A failure always raises a
   * toast, even once cancelled.
   */
  function RoleResult(s: AuthState, result: Lookup): (o: RoleOutcome)
    ensures s.cancelled ==> o.state == s
    ensures !s.cancelled ==> o.state == s.(role := if result.Found? then result.role else None)
    ensures o.toast.Some? <==> result.LookupFailed?
    ensures result.LookupFailed? ==> o.toast == Some(LookupToast(result.message))
  {
    match result
    case Found(role) => RoleOutcome(if s.cancelled then s else s.(role := role), None)
    case LookupFailed(message) => RoleOutcome(if s.cancelled then s else s.(role := None), Some(LookupToast(message)))
  }

  /** The role result, applied only when it was fetched for the user the state currently holds. */
  function RoleResultFor(s: AuthState, userId: string, result: Lookup): (o: RoleOutcome)
    ensures s.cancelled || s.user != Some(User(userId)) ==> o.state == s
    ensures !s.cancelled && s.user == Some(User(userId)) ==> o == RoleResult(s, result)
    ensures o.toast == RoleResult(s, result).toast
  {
    var r := RoleResult(s, result);
    if s.user == Some(User(userId)) then r else RoleOutcome(s, r.toast)
  }

  // --------------------------------------------------------------- sign-out

  /** The two sign-out scopes the hook uses. */
  datatype Scope = Global | Local

  /** An awaited Supabase call: it returns (with or without an error) or throws. */
  datatype Call = Returned(error: Option<string>) | Threw(message: string)

  datatype SignOutResult = SignOutResult(
    calls: seq<Scope>,
    lastError: Option<string>,
    removedKeys: seq<string>,
    state: AuthState,
    warning: Option<string>)

  /** Persisted Supabase auth tokens: `k.startsWith("sb-") && k.includes("auth-token")`. */
  predicate IsAuthTokenKey(k: string) {
    Text.StartsWith(k, "sb-") && Text.Includes(k, "auth-token")
  }

  /** The local-storage keys the fail-safe removes; nothing when storage cannot be read. */
  function TokenKeys(keys: seq<string>, storageReadable: bool): (r: seq<string>)
    ensures !storageReadable ==> r == []
    ensures storageReadable ==> forall i :: 0 <= i < |keys| ==> (keys[i] in r <==> IsAuthTokenKey(keys[i]))
    ensures forall i :: 0 <= i < |r| ==> r[i] in keys && IsAuthTokenKey(r[i])
  {
    if storageReadable then Seqs.Filter(keys, IsAuthTokenKey) else []
  }

  /** `lastError?.message || "Signed out locally, but server revoke failed."`. */
  function SignOutWarning(lastError: Option<string>): (w: Option<string>)
    ensures w.Some? <==> lastError.Some?
    ensures w.Some? ==> w.value != ""
    ensures lastError.Some? && lastError.value != "" ==> w == lastError
  {
    match lastError
    case None => None
    case Some(m) => Some(if m != "" then m else "Signed out locally, but server revoke failed.")
  }

  /**
   * `signOut`: a global revoke; on an error result, or a throw, a local
   * sign-out (repeated once more when the local call made after an error
   * result throws); then token clean-up and a full reset.
   */
  function SignOut(s: AuthState, global: Call, local1: Call, local2: Call,
                   keys: seq<string>, storageReadable: bool): (r: SignOutResult)
    ensures r.state == s.(session := None, user := None, role := None, loading := false)
    ensures |r.calls| >= 1 && r.calls[0] == Global
    ensures forall i :: 1 <= i < |r.calls| ==> r.calls[i] == Local
    ensures |r.calls| == 1 <==> global == Returned(None)
    ensures |r.calls| == 3 <==> global.Returned? && global.error.Some? && local1.Threw?
    ensures r.lastError.None? <==> global == Returned(None)
    ensures r.warning == SignOutWarning(r.lastError)
    ensures r.removedKeys == TokenKeys(keys, storageReadable)
  {
    var (calls, lastError) :=
      match global
      case Returned(None) => ([Global], None)
      case Returned(Some(e)) =>
        (match local1
         case Returned(_) => ([Global, Local], Some(e))
         case Threw(e1) =>
           (match local2
            case Returned(_) => ([Global, Local, Local], Some(e1))
            case Threw(e2) => ([Global, Local, Local], Some(e2))))
      case Threw(e) =>
        (match local1
         case Returned(_) => ([Global, Local], Some(e))
         case Threw(e1) => ([Global, Local], Some(e1)));
    SignOutResult(calls, lastError, TokenKeys(keys, storageReadable),
                  s.(session := None, user := None, role := None, loading := false),
                  SignOutWarning(lastError))
  }

  /** Whichever path failed, sign-out ends with no session, user or role, and admin rights gone. */
  lemma SignOutClearsRights(s: AuthState, global: Call, local1: Call, local2: Call, keys: seq<string>, storageReadable: bool)
    ensures var r := SignOut(s, global, local1, local2, keys, storageReadable);
      !IsAdmin(r.state.role) && !IsSuperAdmin(r.state.role) && r.state.user.None?
  {}

  /** A local sign-out runs exactly when the global revoke did not succeed cleanly. */
  lemma LocalFallbackIffRevokeFailed(s: AuthState, global: Call, local1: Call, local2: Call, keys: seq<string>, storageReadable: bool)
    ensures var r := SignOut(s, global, local1, local2, keys, storageReadable);
      (Local in r.calls <==> global != Returned(None)) && (r.warning.Some? <==> Local in r.calls)
  {
    var r := SignOut(s, global, local1, local2, keys, storageReadable);
    if global != Returned(None) {
      assert r.calls[1] == Local;
    }
  }

  // --------------------------------------------------- traces of events

  /**
   * What can happen to the hook: a session event, a role result for a user, a
   * sign-out, unmounting. `RoleArrived` is the result of a lookup that started;
   * a deferred callback that fires after unmounting returns before querying and
   * leaves no event.
   */
  datatype Event =
    | SessionEvent(next: Option<Session>)
    | RoleArrived(userId: string, result: Lookup)
    | SignedOut(global: Call, local1: Call, local2: Call)
    | Unmounted

  /** One event, with the role callback as written. */
  function Step(s: AuthState, e: Event): (r: AuthState)
    ensures e.SessionEvent? ==> r.role.None?
    ensures e.SignedOut? ==> r.role.None? && r.user.None?
  {
    match e
    case SessionEvent(next) => OnSession(s, next).state
    case RoleArrived(_, result) => RoleResult(s, result).state
    case SignedOut(g, l1, l2) => SignOut(s, g, l1, l2, [], true).state
    case Unmounted => Unmount(s)
  }

  /** One event, with the role callback guarded by the user it was fetched for. */
  function GuardedStep(s: AuthState, e: Event): (r: AuthState)
    ensures e.RoleArrived? && s.user != Some(User(e.userId)) ==> r == s
    ensures !e.RoleArrived? ==> r == Step(s, e)
  {
    match e
    case RoleArrived(userId, result) => RoleResultFor(s, userId, result).state
    case _ => Step(s, e)
  }

  function Run(s: AuthState, events: seq<Event>): (r: AuthState)
    decreases |events|
  {
    if events == [] then s else Run(Step(s, events[0]), events[1..])
  }

  function GuardedRun(s: AuthState, events: seq<Event>): (r: AuthState)
    decreases |events|
  {
    if events == [] then s else GuardedRun(GuardedStep(s, events[0]), events[1..])
  }

  /** A role is only ever held while a user is signed in. */
  predicate RoleBelongsToUser(s: AuthState) {
    s.role.Some? ==> s.user.Some?
  }

  /** A role lookup whose result is applied verbatim can outlive the user it was fetched for. */
  lemma StaleRoleAfterSignOut()
    ensures var s := Run(InitialState(), [SessionEvent(Some(Session(Some(User("alice"))))),
                                          SignedOut(Returned(None), Returned(None), Returned(None)),
                                          RoleArrived("alice", Found(Some(SuperAdmin)))]);
      s.user.None? && IsSuperAdmin(s.role) && !RoleBelongsToUser(s)
  {
    var s0 := InitialState();
    var s1 := Step(s0, SessionEvent(Some(Session(Some(User("alice"))))));
    var s2 := Step(s1, SignedOut(Returned(None), Returned(None), Returned(None)));
    var s3 := Step(s2, RoleArrived("alice", Found(Some(SuperAdmin))));
    assert s3.role == Some(SuperAdmin) && s3.user.None?;
    assert Run(s2, [RoleArrived("alice", Found(Some(SuperAdmin)))]) == Run(s3, []);
    assert [SignedOut(Returned(None), Returned(None), Returned(None)), RoleArrived("alice", Found(Some(SuperAdmin)))][1..]
        == [RoleArrived("alice", Found(Some(SuperAdmin)))];
  }

  /** The same race between two users: the earlier user's late role lands on the later user. */
  lemma StaleRoleAcrossUsers()
    ensures var s := Run(InitialState(), [SessionEvent(Some(Session(Some(User("alice"))))),
                                          SessionEvent(Some(Session(Some(User("bob"))))),
                                          RoleArrived("bob", Found(Some(Staff))),
                                          RoleArrived("alice", Found(Some(SuperAdmin)))]);
      s.user == Some(User("bob")) && IsSuperAdmin(s.role)
  {
    var e := [SessionEvent(Some(Session(Some(User("alice"))))),
              SessionEvent(Some(Session(Some(User("bob"))))),
              RoleArrived("bob", Found(Some(Staff))),
              RoleArrived("alice", Found(Some(SuperAdmin)))];
    var s1 := Step(InitialState(), e[0]);
    var s2 := Step(s1, e[1]);
    var s3 := Step(s2, e[2]);
    var s4 := Step(s3, e[3]);
    assert e[1..][1..][1..][1..] == [];
    assert s4.user == Some(User("bob")) && s4.role == Some(SuperAdmin);
  }

  /** With the guarded callback, every reachable state holds a role only together with a user. */
  lemma {:induction false} GuardedRoleBelongsToUser(s: AuthState, events: seq<Event>)
    requires RoleBelongsToUser(s)
    ensures RoleBelongsToUser(GuardedRun(s, events))
    decreases |events|
  {
    if events != [] {
      var e := events[0];
      var t := GuardedStep(s, e);
      if e.RoleArrived? {
        assert t == s || t.user == Some(User(e.userId));
      }
      assert RoleBelongsToUser(t);
      GuardedRoleBelongsToUser(t, events[1..]);
    }
  }

  /** With the guarded callback, a result fetched for anyone but the current user never changes the state. */
  lemma GuardedIgnoresOtherUsers(s: AuthState, userId: string, result: Lookup)
    requires s.user != Some(User(userId))
    ensures GuardedStep(s, RoleArrived(userId, result)) == s
  {}
}
