/**
 * The SSH handlers of src/ssh_wire.rs: cloned handlers share an atomic session counter and a locked
 * control plane, and a session takes its id in one step and the lock in a later one.
 */
module Ssh {
  import opened Prelude
  import opened Ids
  import opened Model
  import opened Text
  import opened Storage
  import Plane
  import Runs
  import Control

  type Grants = map<string, set<Id>>

  /** `AllowListAuthorizer::can_open`. */
  predicate CanOpen(grants: Grants, key: string, w: Id) {
    key in grants && w in grants[key]
  }

  function SessionName(n: nat): string {
    "ssh_" + Decimal(n)
  }

  /** The principal after a key is offered; a key that cannot be encoded is `None`, and a rejection changes nothing. */
  function Authenticated(grants: Grants, w: Id, principal: Option<string>, user: string, key: Option<string>): Option<string> {
    if key.Some? && CanOpen(grants, key.value, w) then Some(user + ":" + key.value) else principal
  }

  // ---- One handler, as the source's object ----

  class SessionCounter {
    var value: U64

    constructor ()
      ensures value == 1
    {
      value := 1;
    }

    /** Returns the old value; the addition wraps. */
    method FetchAdd() returns (before: U64)
      modifies this
      ensures before == old(value) && value == (old(value) + 1) % WRAP
    {
      before := value;
      value := (value + 1) % WRAP;
    }
  }

  class SshHandler {
    const workspace: Id
    const grants: Grants
    const controlPlane: Control.ControlPlane
    const counter: SessionCounter
    var principal: Option<string>

    constructor (workspace: Id, grants: Grants, controlPlane: Control.ControlPlane, counter: SessionCounter)
      ensures this.workspace == workspace && this.grants == grants && this.controlPlane == controlPlane
      ensures this.counter == counter && principal == None
    {
      this.workspace := workspace;
      this.grants := grants;
      this.controlPlane := controlPlane;
      this.counter := counter;
      principal := None;
    }

    /** A clone that shares the plane and the counter and has authenticated nobody. */
    method NewClient() returns (client: SshHandler)
      ensures fresh(client) && client.principal == None
      ensures client.workspace == workspace && client.grants == grants
      ensures client.controlPlane == controlPlane && client.counter == counter
    {
      client := new SshHandler(workspace, grants, controlPlane, counter);
    }

    method AuthPublickey(user: string, key: Option<string>) returns (accepted: bool)
      modifies this
      ensures accepted <==> key.Some? && key.value in grants && workspace in grants[key.value]
      ensures principal == if accepted then Some(user + ":" + key.value) else old(principal)
    {
      if key.None? {
        return false;
      }
      accepted := CanOpen(grants, key.value, workspace);
      if accepted {
        principal := Some(user + ":" + key.value);
      }
    }

    method NextSessionId() returns (r: Result<Id>)
      modifies counter
      ensures r == Ok(SessionName(old(counter.value)))
      ensures counter.value == (old(counter.value) + 1) % WRAP
    {
      var n := counter.FetchAdd();
      SessionNameIsValid(n);
      r := NewId("ssh_" + Decimal(n));
    }

    /** A whole request, when no other handler comes between its steps. */
    method OpenFlarenvSession(request: SessionRequest, now: Time) returns (r: Result<int>)
      modifies counter, controlPlane, controlPlane.executor
      ensures old(principal).None? ==> r.Err? && counter.value == old(counter.value) && controlPlane.View() == old(controlPlane.View())
      ensures old(principal).Some? ==>
        && counter.value == (old(counter.value) + 1) % WRAP
        && Plane.Outcome(controlPlane.View(), r)
             == Plane.OpenSession(old(controlPlane.View()), workspace, SessionName(old(counter.value)), request, now, Works)
    {
      if principal.None? {
        return Err(PreconditionFailed);
      }
      var id := NextSessionId(); // always succeeds, so the arm for an invalid id is dead
      r := controlPlane.OpenSession(workspace, id.value, request, now);
    }
  }

  lemma SessionNameIsValid(n: nat)
    ensures ValidId(SessionName(n))
  {
    var s := SessionName(n);
    forall i | 0 <= i < |s| ensures IdChar(s[i]) {
      if i >= 4 { assert s[i] == Decimal(n)[i - 4] && IsDigit(Decimal(n)[i - 4]); }
    }
  }

  lemma SessionNameIsInjective(a: nat, b: nat)
    requires SessionName(a) == SessionName(b)
    ensures a == b
  {
    assert SessionName(a)[4..] == Decimal(a) && SessionName(b)[4..] == Decimal(b);
    DecimalIsInjective(a, b);
  }

  // ---- All handlers, interleaved ----

  /** A request that has its id, the `index`-th one handed out, and waits for the lock. */
  datatype Pending = Pending(index: nat, request: SessionRequest)

  datatype Handler = Handler(principal: Option<string>, pending: Option<Pending>)

  /** `issued` and `begun` record, in order, the ids handed out and the indices of those whose session began. */
  datatype Server = Server(
    counter: U64,
    plane: Plane.Plane,
    handlers: map<nat, Handler>,
    issued: seq<Id>,
    begun: seq<nat>)

  datatype Config = Config(workspace: Id, grants: Grants)

  datatype Action =
    | Connect(h: nat)
    | Auth(h: nat, user: string, key: Option<string>)
    | Allocate(h: nat, request: SessionRequest)
    | Enter(h: nat, now: Time, executor: Fault)

  predicate Idle(s: Server, h: nat) {
    h in s.handlers && s.handlers[h].pending.None?
  }

  /** The action's handler is at that point of its code; a handler serves one request at a time. */
  predicate Enabled(s: Server, a: Action) {
    match a
    case Connect(h) => h !in s.handlers
    case Auth(h, _, _) => Idle(s, h)
    case Allocate(h, _) => Idle(s, h) && s.handlers[h].principal.Some?
    case Enter(h, _, _) => h in s.handlers && s.handlers[h].pending.Some? && s.handlers[h].pending.value.index < |s.issued|
  }

  function Next(c: Config, s: Server, a: Action): Server {
    if !Enabled(s, a) then s
    else
      match a
      case Connect(h) => s.(handlers := s.handlers[h := Handler(None, None)])
      case Auth(h, user, key) =>
        var handler := s.handlers[h];
        s.(handlers := s.handlers[h := handler.(principal := Authenticated(c.grants, c.workspace, handler.principal, user, key))])
      case Allocate(h, request) =>
        s.(counter := (s.counter + 1) % WRAP,
           issued := s.issued + [SessionName(s.counter)],
           handlers := s.handlers[h := s.handlers[h].(pending := Some(Pending(|s.issued|, request)))])
      case Enter(h, now, executor) =>
        var p := s.handlers[h].pending.value;
        var o := Plane.OpenSession(s.plane, c.workspace, s.issued[p.index], p.request, now, executor);
        s.(plane := o.plane,
           begun := s.begun + if o.result.Ok? then [p.index] else [],
           handlers := s.handlers[h := s.handlers[h].(pending := None)])
  }

  function Start(plane: Plane.Plane): Server {
    Server(1, plane, map[], [], [])
  }

  /** The server after the first `n` actions of any interleaving. */
  function Reached(c: Config, s: Server, actions: seq<Action>, n: nat): Server
    requires n <= |actions|
  {
    if n == 0 then s else Next(c, Reached(c, s, actions, n - 1), actions[n - 1])
  }

  // ---- Ids ----

  /** The counter after `n` increments. */
  function CounterAfter(n: nat): U64 {
    (1 + n) % WRAP
  }

  lemma CounterSteps(n: nat)
    ensures (CounterAfter(n) + 1) % WRAP == CounterAfter(n + 1)
  {
    ModuloAdds(1 + n, 1);
  }

  /** The ids handed out so far are the counter's values in turn. */
  ghost predicate Numbered(s: Server) {
    && s.counter == CounterAfter(|s.issued|)
    && forall i | 0 <= i < |s.issued| :: s.issued[i] == SessionName(CounterAfter(i))
  }

  lemma NextIsNumbered(c: Config, s: Server, a: Action)
    requires Numbered(s)
    ensures Numbered(Next(c, s, a))
  {
    hide SessionName, CounterAfter, Plane.OpenSession;
    CounterSteps(|s.issued|);
  }

  lemma {:induction false} RunIsNumbered(c: Config, s: Server, actions: seq<Action>, n: nat)
    requires Numbered(s) && n <= |actions|
    ensures Numbered(Reached(c, s, actions, n))
  {
    hide Next, Numbered;
    if n > 0 {
      RunIsNumbered(c, s, actions, n - 1);
      NextIsNumbered(c, Reached(c, s, actions, n - 1), actions[n - 1]);
    }
  }

  lemma CounterRepeats(a: nat, b: nat)
    requires a < b
    ensures CounterAfter(a) == CounterAfter(b) ==> b - a >= WRAP
    ensures CounterAfter(0) == CounterAfter(WRAP)
  {
  }

  ghost predicate AllDistinct(ids: seq<Id>) {
    forall i, j | 0 <= i < j < |ids| :: ids[i] != ids[j]
  }

  /**
   * In every interleaving each id handed out is valid, and they are pairwise distinct exactly as long
   * as no more than 2^64 were handed out.
   */
  lemma SessionIdsAreDistinct(c: Config, plane: Plane.Plane, actions: seq<Action>, n: nat)
    requires n <= |actions|
    ensures var s := Reached(c, Start(plane), actions, n);
      && (forall i | 0 <= i < |s.issued| :: ValidId(s.issued[i]))
      && (AllDistinct(s.issued) <==> |s.issued| <= WRAP)
  {
    hide Next, SessionName, ValidId;
    var s := Reached(c, Start(plane), actions, n);
    RunIsNumbered(c, Start(plane), actions, n);
    NumberedIdsAreDistinct(s);
  }

  lemma NumberedIdsAreDistinct(s: Server)
    requires Numbered(s)
    ensures forall i | 0 <= i < |s.issued| :: ValidId(s.issued[i])
    ensures AllDistinct(s.issued) <==> |s.issued| <= WRAP
  {
    hide SessionName, CounterAfter, ValidId;
    forall i | 0 <= i < |s.issued| ensures ValidId(s.issued[i]) { SessionNameIsValid(CounterAfter(i)); }
    if |s.issued| <= WRAP {
      forall i, j | 0 <= i < j < |s.issued| ensures s.issued[i] != s.issued[j] {
        if s.issued[i] == s.issued[j] {
          SessionNameIsInjective(CounterAfter(i), CounterAfter(j));
          CounterRepeats(i, j);
        }
      }
    } else {
      CounterRepeats(0, WRAP);
      assert s.issued[0] == s.issued[WRAP];
    }
  }

  // ---- Recorded sessions ----

  /** Nobody else holds or has used the index a handler waits with, and the sessions are those that began. */
  ghost predicate Accounted(s: Server) {
    && (forall h | h in s.handlers && s.handlers[h].pending.Some? ::
          s.handlers[h].pending.value.index < |s.issued| && s.handlers[h].pending.value.index !in s.begun)
    && (forall g, h | g in s.handlers && h in s.handlers && g != h && s.handlers[g].pending.Some? && s.handlers[h].pending.Some? ::
          s.handlers[g].pending.value.index != s.handlers[h].pending.value.index)
    && (forall i | 0 <= i < |s.begun| :: s.begun[i] < |s.issued|)
    && (forall i, j | 0 <= i < j < |s.begun| :: s.begun[i] != s.begun[j])
    && (forall id :: id in s.plane.sessions <==> exists i | 0 <= i < |s.begun| :: s.issued[s.begun[i]] == id)
  }

  lemma OpenSessions(p: Plane.Plane, w: Id, id: Id, request: SessionRequest, now: Time, executor: Fault)
    ensures var o := Plane.OpenSession(p, w, id, request, now, executor);
      o.plane.sessions.Keys == p.sessions.Keys + if o.result.Ok? then {id} else {}
  {
  }

  lemma NextIsAccounted(c: Config, s: Server, a: Action)
    requires Accounted(s)
    ensures Accounted(Next(c, s, a))
  {
    hide SessionName, Authenticated, Plane.OpenSession;
    if Enabled(s, a) && a.Enter? { EnterIsAccounted(c, s, a); }
  }

  lemma EnterIsAccounted(c: Config, s: Server, a: Action)
    requires Accounted(s) && a.Enter? && Enabled(s, a)
    ensures Accounted(Next(c, s, a))
  {
    hide Plane.OpenSession;
    var p := s.handlers[a.h].pending.value;
    OpenSessions(s.plane, c.workspace, s.issued[p.index], p.request, a.now, a.executor);
    var q := Next(c, s, a);
    forall id ensures id in q.plane.sessions <==> exists i | 0 <= i < |q.begun| :: q.issued[q.begun[i]] == id {
      if i :| 0 <= i < |s.begun| && s.issued[s.begun[i]] == id { assert q.issued[q.begun[i]] == id; }
      if |q.begun| > |s.begun| { assert q.issued[q.begun[|s.begun|]] == s.issued[p.index]; }
    }
  }

  lemma {:induction false} RunIsAccounted(c: Config, s: Server, actions: seq<Action>, n: nat)
    requires Accounted(s) && n <= |actions|
    ensures Accounted(Reached(c, s, actions, n))
  {
    hide Next, Accounted;
    if n > 0 {
      RunIsAccounted(c, s, actions, n - 1);
      NextIsAccounted(c, Reached(c, s, actions, n - 1), actions[n - 1]);
    }
  }

  /** The ids of the sessions that began, in order. */
  ghost function Opened(s: Server): (ids: seq<Id>)
    requires forall i | 0 <= i < |s.begun| :: s.begun[i] < |s.issued|
    ensures |ids| == |s.begun| && forall i | 0 <= i < |ids| :: ids[i] == s.issued[s.begun[i]]
  {
    seq(|s.begun|, i requires 0 <= i < |s.begun| => s.issued[s.begun[i]])
  }

  lemma OpenedAreDistinct(s: Server)
    requires Accounted(s) && AllDistinct(s.issued)
    ensures AllDistinct(Opened(s))
    ensures forall id :: id in s.plane.sessions <==> id in Opened(s)
  {
    var ids := Opened(s);
    forall i, j | 0 <= i < j < |ids| ensures ids[i] != ids[j] {
      assert s.begun[i] != s.begun[j];
    }
  }

  lemma {:induction false} DistinctCount(ids: seq<Id>)
    requires AllDistinct(ids)
    ensures |set id | id in ids| == |ids|
  {
    if ids != [] {
      var front, last := ids[..|ids| - 1], ids[|ids| - 1];
      DistinctCount(front);
      assert (set id | id in ids) == (set id | id in front) + {last};
    }
  }

  /**
   * As long as no more than 2^64 ids were handed out, no session record overwrites another: there are
   * as many as sessions that began.
   */
  lemma NoSessionIsOverwritten(c: Config, plane: Plane.Plane, actions: seq<Action>, n: nat)
    requires n <= |actions| && plane.sessions == map[]
    requires |Reached(c, Start(plane), actions, n).issued| <= WRAP
    ensures var s := Reached(c, Start(plane), actions, n); |s.plane.sessions| == |s.begun|
  {
    hide Next, AllDistinct;
    var s := Reached(c, Start(plane), actions, n);
    RunIsAccounted(c, Start(plane), actions, n);
    RunIsNumbered(c, Start(plane), actions, n);
    NumberedIdsAreDistinct(s);
    OpenedAreDistinct(s);
    DistinctCount(Opened(s));
    assert (set id | id in Opened(s)) == s.plane.sessions.Keys;
  }

  // ---- Authorization ----

  /** In step `i` handler `h`, connected and idle, was offered a key that is granted the configured workspace. */
  ghost predicate AcceptsAt(c: Config, s: Server, actions: seq<Action>, i: nat, h: nat)
    requires i < |actions|
  {
    var t, a := Reached(c, s, actions, i), actions[i];
    && a.Auth? && a.h == h && a.key.Some?
    && a.key.value in c.grants && c.workspace in c.grants[a.key.value]
    && h in t.handlers && t.handlers[h].pending.None?
  }

  ghost predicate LatestAccept(c: Config, s: Server, actions: seq<Action>, i: nat, n: nat, h: nat)
    requires i < n <= |actions|
  {
    AcceptsAt(c, s, actions, i, h) && forall j | i < j < n :: !AcceptsAt(c, s, actions, j, h)
  }

  /** What the handler holds: nothing before it connects. */
  function PrincipalOf(s: Server, h: nat): Option<string> {
    if h in s.handlers then s.handlers[h].principal else None
  }

  lemma NextPrincipal(c: Config, s: Server, actions: seq<Action>, i: nat, h: nat)
    requires i < |actions|
    ensures PrincipalOf(Reached(c, s, actions, i + 1), h) ==
      if AcceptsAt(c, s, actions, i, h) then Some(actions[i].user + ":" + actions[i].key.value) else PrincipalOf(Reached(c, s, actions, i), h)
  {
    hide Plane.OpenSession, SessionName;
  }

  /**
   * A handler's principal is the user and key of the latest offer it accepted, in any interleaving: it
   * has one exactly when some earlier offer of its own was of a key granted the configured workspace.
   */
  lemma {:induction false} PrincipalMeaning(c: Config, s: Server, actions: seq<Action>, n: nat, h: nat)
    requires n <= |actions| && s.handlers == map[]
    ensures PrincipalOf(Reached(c, s, actions, n), h).Some? <==> exists i | 0 <= i < n :: AcceptsAt(c, s, actions, i, h)
    ensures forall i | 0 <= i < n && LatestAccept(c, s, actions, i, n, h) ::
      PrincipalOf(Reached(c, s, actions, n), h) == Some(actions[i].user + ":" + actions[i].key.value)
  {
    hide AcceptsAt, Reached;
    if n == 0 {
      assert Reached(c, s, actions, 0) == s by { ReachedFirst(c, s, actions); }
    } else {
      PrincipalMeaning(c, s, actions, n - 1, h);
      NextPrincipal(c, s, actions, n - 1, h);
      forall i | 0 <= i < n - 1 && LatestAccept(c, s, actions, i, n, h)
        ensures LatestAccept(c, s, actions, i, n - 1, h) && !AcceptsAt(c, s, actions, n - 1, h)
      {
      }
    }
  }

  lemma ReachedFirst(c: Config, s: Server, actions: seq<Action>)
    ensures Reached(c, s, actions, 0) == s
  {
  }

  /** In step `i` handler `h`, authenticated, took the id of index `k`. */
  ghost predicate AllocatesAt(c: Config, s: Server, actions: seq<Action>, i: nat, h: nat, k: nat)
    requires i < |actions|
  {
    var t := Reached(c, s, actions, i);
    actions[i].Allocate? && actions[i].h == h && Enabled(t, actions[i]) && |t.issued| == k
  }

  lemma {:induction false} PendingWasAllocated(c: Config, s: Server, actions: seq<Action>, n: nat, h: nat)
    requires n <= |actions| && s.handlers == map[]
    requires var t := Reached(c, s, actions, n); h in t.handlers && t.handlers[h].pending.Some?
    ensures var t := Reached(c, s, actions, n); exists i | 0 <= i < n :: AllocatesAt(c, s, actions, i, h, t.handlers[h].pending.value.index)
  {
    hide Plane.OpenSession, SessionName, Authenticated;
    var t := Reached(c, s, actions, n - 1);
    if h in t.handlers && t.handlers[h].pending.Some? {
      PendingWasAllocated(c, s, actions, n - 1, h);
    } else {
      assert AllocatesAt(c, s, actions, n - 1, h, |t.issued|);
    }
  }

  /** In step `i` handler `h` entered the lock with the id of index `k`, and the session began. */
  ghost predicate OpensAt(c: Config, s: Server, actions: seq<Action>, i: nat, h: nat, k: nat, id: Id)
    requires i < |actions|
  {
    var t := Reached(c, s, actions, i);
    && actions[i].Enter? && actions[i].h == h && Enabled(t, actions[i])
    && t.handlers[h].pending.value.index == k && t.issued[k] == id
    && Plane.OpenSession(t.plane, c.workspace, id, t.handlers[h].pending.value.request, actions[i].now, actions[i].executor).result.Ok?
  }

  lemma NextRecords(c: Config, s: Server, a: Action, id: Id)
    requires id in Next(c, s, a).plane.sessions && id !in s.plane.sessions
    ensures a.Enter? && Enabled(s, a) && s.issued[s.handlers[a.h].pending.value.index] == id
    ensures Plane.OpenSession(s.plane, c.workspace, id, s.handlers[a.h].pending.value.request, a.now, a.executor).result.Ok?
  {
    hide SessionName, Authenticated, Plane.OpenSession;
    if a.Enter? && Enabled(s, a) {
      var p := s.handlers[a.h].pending.value;
      OpenSessions(s.plane, c.workspace, s.issued[p.index], p.request, a.now, a.executor);
    }
  }

  lemma {:induction false} SessionWasOpened(c: Config, s: Server, actions: seq<Action>, n: nat, id: Id)
    returns (i: nat, h: nat, k: nat)
    requires n <= |actions| && s.plane.sessions == map[] && id in Reached(c, s, actions, n).plane.sessions
    ensures i < n && OpensAt(c, s, actions, i, h, k, id)
  {
    hide Next, Plane.OpenSession;
    var t := Reached(c, s, actions, n - 1);
    if id in t.plane.sessions {
      i, h, k := SessionWasOpened(c, s, actions, n - 1, id);
    } else {
      NextRecords(c, t, actions[n - 1], id);
      i, h, k := n - 1, actions[n - 1].h, t.handlers[actions[n - 1].h].pending.value.index;
    }
  }

  /**
   * Every recorded session was started, under the id it was given, by a handler that took the id in an
   * earlier step and had, before that, offered a key granted for the configured workspace.
   */
  lemma SessionProvenance(c: Config, plane: Plane.Plane, actions: seq<Action>, n: nat, id: Id)
    returns (accepted: nat, taken: nat, entered: nat, h: nat, k: nat)
    requires n <= |actions| && plane.sessions == map[] && id in Reached(c, Start(plane), actions, n).plane.sessions
    ensures accepted < taken < entered < n
    ensures AcceptsAt(c, Start(plane), actions, accepted, h)
    ensures AllocatesAt(c, Start(plane), actions, taken, h, k)
    ensures OpensAt(c, Start(plane), actions, entered, h, k, id)
  {
    hide Next, Plane.OpenSession, AcceptsAt;
    entered, h, k := SessionWasOpened(c, Start(plane), actions, n, id);
    PendingWasAllocated(c, Start(plane), actions, entered, h);
    taken :| 0 <= taken < entered && AllocatesAt(c, Start(plane), actions, taken, h, k);
    PrincipalMeaning(c, Start(plane), actions, taken, h);
    accepted :| 0 <= accepted < taken && AcceptsAt(c, Start(plane), actions, accepted, h);
  }

  /** If no key is granted the configured workspace, no interleaving records a session. */
  lemma NoGrantNoSession(c: Config, plane: Plane.Plane, actions: seq<Action>, n: nat)
    requires n <= |actions| && plane.sessions == map[] && forall key | key in c.grants :: c.workspace !in c.grants[key]
    ensures Reached(c, Start(plane), actions, n).plane.sessions == map[]
  {
    hide Reached, AllocatesAt, OpensAt;
    var sessions := Reached(c, Start(plane), actions, n).plane.sessions;
    if id :| id in sessions {
      var accepted, taken, entered, h, k := SessionProvenance(c, plane, actions, n, id);
    }
  }

  /**
   * A handler that nobody comes between: connecting, offering a granted key and asking for a session
   * runs the control plane's `OpenSession` under the next id, and a ready workspace gets its session.
   */
  lemma GrantedKeyOpens(c: Config, s: Server, h: nat, user: string, key: string, request: SessionRequest, now: Time, executor: Fault)
    requires h !in s.handlers && key in c.grants && c.workspace in c.grants[key]
    ensures var actions := [Connect(h), Auth(h, user, Some(key)), Allocate(h, request), Enter(h, now, executor)];
      var t, id := Reached(c, s, actions, 4), SessionName(s.counter);
      && t.plane == Plane.OpenSession(s.plane, c.workspace, id, request, now, executor).plane
      && t.counter == (s.counter + 1) % WRAP && t.issued == s.issued + [id]
      && (Runs.Inv(s.plane) && Runs.IsReady(s.plane.meta, c.workspace) && executor.Works? ==>
            id in t.plane.sessions && t.plane.sessions[id].session == request && t.begun == s.begun + [|s.issued|])
  {
    hide SessionName, Plane.OpenSession, Runs.Inv;
    var actions := [Connect(h), Auth(h, user, Some(key)), Allocate(h, request), Enter(h, now, executor)];
    var s1, s2, s3 := Reached(c, s, actions, 1), Reached(c, s, actions, 2), Reached(c, s, actions, 3);
    assert s1 == Next(c, s, actions[0]) by { ReachedFirst(c, s, actions); }
    assert s2 == Next(c, s1, actions[1]);
    assert s3 == Next(c, s2, actions[2]);
    assert Reached(c, s, actions, 4) == Next(c, s3, actions[3]);
    assert s3.plane == s.plane && s3.issued == s.issued + [SessionName(s.counter)] && s3.handlers[h].pending == Some(Pending(|s.issued|, request));
    if Runs.Inv(s.plane) && Runs.IsReady(s.plane.meta, c.workspace) && executor.Works? {
      ReadyOpens(s.plane, c.workspace, SessionName(s.counter), request, now, executor);
    }
  }

  lemma ReadyOpens(p: Plane.Plane, w: Id, id: Id, request: SessionRequest, now: Time, executor: Fault)
    requires Runs.Inv(p) && Runs.IsReady(p.meta, w) && executor.Works?
    ensures var o := Plane.OpenSession(p, w, id, request, now, executor);
      o.result.Ok? && id in o.plane.sessions && o.plane.sessions[id].session == request
  {
  }

  /** The sessions are for the configured workspace, which was ready, and its policy. */
  ghost predicate ForWorkspace(p: Plane.Plane, w: Id) {
    Runs.Inv(p) && forall id | id in p.sessions :: p.sessions[id].workspace.id == w
  }

  lemma NextIsForWorkspace(c: Config, s: Server, a: Action)
    requires ForWorkspace(s.plane, c.workspace)
    ensures ForWorkspace(Next(c, s, a).plane, c.workspace)
  {
    hide SessionName, Authenticated, Runs.Linked, Runs.Rooted, Runs.Recorded;
    if Enabled(s, a) && a.Enter? {
      var p := s.handlers[a.h].pending.value;
      Runs.OpenKeepsInv(s.plane, c.workspace, s.issued[p.index], p.request, a.now, a.executor);
    }
  }

  lemma {:induction false} SessionsAreForWorkspace(c: Config, plane: Plane.Plane, actions: seq<Action>, n: nat)
    requires n <= |actions| && Runs.Inv(plane) && plane.sessions == map[]
    ensures ForWorkspace(Reached(c, Start(plane), actions, n).plane, c.workspace)
  {
    hide Next;
    if n > 0 {
      SessionsAreForWorkspace(c, plane, actions, n - 1);
      NextIsForWorkspace(c, Reached(c, Start(plane), actions, n - 1), actions[n - 1]);
    }
  }
}
