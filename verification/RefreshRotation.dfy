// Refresh rotation as a state machine: each statement on the session table is a
// step, and any number of logins, refreshes, replays and logouts interleave.
module RefreshRotation {
  import opened Lists
  import opened RefreshSessions

  // How far a request has come. `Won` has consumed its session and has yet to look
  // the user up; `Issuing` has yet to insert the next session of its family.
  datatype Phase =
    | Presented(token: Token)
    | Consuming(row: Session)
    | Won(userId: Id, familyId: Id)
    | Issuing(userId: Id, familyId: Id)
    | Revoking(familyId: Id, reason: Reason)

  // A session that was exchanged for a new one.
  datatype Exchange = Exchange(id: Id, familyId: Id)

  // `ids` and `families` collect every uuid drawn so far.
  datatype State = State(
    rows: Table, requests: map<Id, Phase>, now: nat, ids: set<Id>, families: set<Id>, exchanges: seq<Exchange>)

  const INITIAL := State(map[], map[], 0, {}, {}, [])

  datatype Action =
    | Login(pid: Id, userId: Id, familyId: Id)
    | Present(pid: Id, token: Token)
    | Look(pid: Id, found: Option<Session>)
    | TryConsume(pid: Id)
    | CheckUser(pid: Id, active: bool)
    | Issue(pid: Id, id: Id, expiresAt: nat)
    | Revoke(pid: Id)
    | LogoutFamily(familyId: Id)
    | RevokeAll(userId: Id, reason: Reason)
    | Purge(userId: Id)
    | DeleteUser(userId: Id)
    | Tick(to: nat)
    | Drop(pid: Id)

  // What consumeRefreshToken decides from the row it found.
  function AfterLook(token: Token, found: Option<Session>): Option<Phase> {
    match found
    case None => if token.fid.Some? then Some(Revoking(token.fid.value, ReuseDetected)) else None
    case Some(row) =>
      if row.userId != token.sub then Some(Revoking(row.familyId, ReuseDetected))
      else if !Usable(row) then Some(Revoking(row.familyId, ReuseDetected))
      else Some(Consuming(row))
  }

  // Uuids are fresh when drawn.
  ghost predicate Enabled(s: State, a: Action) {
    match a
    case Login(pid, _, familyId) => pid !in s.requests && familyId !in s.families
    case Present(pid, _) => pid !in s.requests
    case Look(pid, found) =>
      pid in s.requests && s.requests[pid].Presented? && Finds(s.rows, s.requests[pid].token, found)
    case TryConsume(pid) => pid in s.requests && s.requests[pid].Consuming?
    case CheckUser(pid, _) => pid in s.requests && s.requests[pid].Won?
    case Issue(pid, id, _) => pid in s.requests && s.requests[pid].Issuing? && id !in s.ids
    case Revoke(pid) => pid in s.requests && s.requests[pid].Revoking?
    case Tick(to) => s.now <= to
    case Drop(pid) => pid in s.requests
    case _ => true
  }

  function SetPhase(s: State, pid: Id, phase: Option<Phase>): State {
    s.(requests := if phase.Some? then s.requests[pid := phase.value] else s.requests - {pid})
  }

  function Apply(s: State, a: Action): State
    requires Enabled(s, a)
  {
    match a
    case Login(pid, userId, familyId) =>
      SetPhase(s, pid, Some(Issuing(userId, familyId))).(families := s.families + {familyId})
    case Present(pid, token) => SetPhase(s, pid, Some(Presented(token)))
    case Look(pid, found) => SetPhase(s, pid, AfterLook(s.requests[pid].token, found))
    case TryConsume(pid) =>
      var row := s.requests[pid].row;
      if CanConsume(s.rows, row.id, s.now) then
        SetPhase(s, pid, Some(Won(row.userId, row.familyId)))
          .(rows := Consume(s.rows, row.id, s.now), exchanges := s.exchanges + [Exchange(row.id, row.familyId)])
      else SetPhase(s, pid, Some(Revoking(row.familyId, RotationConflict)))
    case CheckUser(pid, active) =>
      var r := s.requests[pid];
      SetPhase(s, pid, Some(if active then Issuing(r.userId, r.familyId) else Revoking(r.familyId, Logout)))
    case Issue(pid, id, expiresAt) =>
      var r := s.requests[pid];
      SetPhase(s, pid, None)
        .(rows := Insert(s.rows, id, r.userId, r.familyId, Token(r.userId, id, Some(r.familyId)), expiresAt),
          ids := s.ids + {id})
    case Revoke(pid) =>
      var r := s.requests[pid];
      SetPhase(s, pid, None).(rows := RevokeFamily(s.rows, r.familyId, s.now, r.reason))
    case LogoutFamily(familyId) => s.(rows := RevokeFamily(s.rows, familyId, s.now, Logout))
    case RevokeAll(userId, reason) => s.(rows := RevokeUser(s.rows, userId, s.now, reason))
    case Purge(userId) => s.(rows := DeleteExpired(s.rows, userId, s.now))
    case DeleteUser(userId) => s.(rows := map id | id in s.rows && s.rows[id].userId != userId :: s.rows[id])
    case Tick(to) => s.(now := to)
    case Drop(pid) => SetPhase(s, pid, None)
  }

  // t is reached from s by these actions.
  ghost predicate Runs(s: State, actions: seq<Action>, t: State)
    decreases |actions|
  {
    if actions == [] then s == t
    else Enabled(s, actions[0]) && Runs(Apply(s, actions[0]), actions[1..], t)
  }

  // ---- Who may continue a family ---------------------------------------------------

  // A family is continued by a session that can still be exchanged, or by a
  // request that is on its way to issue one.
  datatype Holder = HeldBySession(id: Id) | HeldByRequest(pid: Id)

  predicate Issues(phase: Phase, familyId: Id) {
    (phase.Won? || phase.Issuing?) && phase.familyId == familyId
  }

  predicate IsHolder(s: State, familyId: Id, h: Holder) {
    match h
    case HeldBySession(id) => id in s.rows && s.rows[id].familyId == familyId && Usable(s.rows[id])
    case HeldByRequest(pid) => pid in s.requests && Issues(s.requests[pid], familyId)
  }

  ghost predicate AtMostOneHolder(s: State, familyId: Id) {
    forall g, h | IsHolder(s, familyId, g) && IsHolder(s, familyId, h) :: g == h
  }

  ghost predicate NoHolder(s: State, familyId: Id) {
    forall h :: !IsHolder(s, familyId, h)
  }

  // ---- The invariant -----------------------------------------------------------------

  ghost predicate RowOk(s: State, id: Id, row: Session) {
    && row.id == id && id in s.ids && row.familyId in s.families
    && row.tokenHash == Token(row.userId, id, Some(row.familyId))
  }

  ghost predicate RequestOk(s: State, phase: Phase) {
    match phase
    case Consuming(row) => RowOk(s, row.id, row)
    case Won(_, familyId) => familyId in s.families
    case Issuing(_, familyId) => familyId in s.families
    case _ => true
  }

  // An exchanged session is gone or consumed, and its family is the row's.
  ghost predicate ExchangeOk(s: State, x: Exchange) {
    && x.id in s.ids && x.familyId in s.families
    && (x.id in s.rows ==> s.rows[x.id].consumedAt.Some? && s.rows[x.id].familyId == x.familyId)
  }

  ghost predicate ExchangedOnce(s: State) {
    forall i, j | 0 <= i < j < |s.exchanges| :: s.exchanges[i].id != s.exchanges[j].id
  }

  ghost predicate Inv(s: State) {
    && (forall id | id in s.rows :: RowOk(s, id, s.rows[id]))
    && (forall pid | pid in s.requests :: RequestOk(s, s.requests[pid]))
    && (forall x | x in s.exchanges :: ExchangeOk(s, x))
    && ExchangedOnce(s)
    && (forall f :: AtMostOneHolder(s, f))
    // a row seen by a request keeps its identity as long as it exists
    && (forall pid | pid in s.requests && s.requests[pid].Consuming? && s.requests[pid].row.id in s.rows ::
          s.rows[s.requests[pid].row.id].familyId == s.requests[pid].row.familyId)
  }

  // The rows of t are rows of s, possibly consumed or revoked further.
  ghost predicate Shrinks(rows: Table, rows': Table) {
    forall id | id in rows' ::
      && id in rows
      && rows'[id].id == rows[id].id && rows'[id].familyId == rows[id].familyId
      && rows'[id].userId == rows[id].userId && rows'[id].tokenHash == rows[id].tokenHash
      && (rows[id].consumedAt.Some? ==> rows'[id].consumedAt.Some?) && (Usable(rows'[id]) ==> Usable(rows[id]))
  }

  // Steps that only revoke, delete, or drop a request.
  lemma ShrinkKeepsInv(s: State, t: State)
    requires Inv(s) && Shrinks(s.rows, t.rows)
    requires forall pid | pid in t.requests ::
        t.requests[pid].Presented? || t.requests[pid].Revoking?
        || (pid in s.requests && t.requests[pid] == s.requests[pid])
        || (t.requests[pid].Consuming? && t.requests[pid].row.id in s.rows
            && t.requests[pid].row == s.rows[t.requests[pid].row.id])
        || (t.requests[pid].Issuing? && pid in s.requests && s.requests[pid].Won?
            && t.requests[pid].familyId == s.requests[pid].familyId)
    requires t.ids == s.ids && t.families == s.families && t.exchanges == s.exchanges
    ensures Inv(t)
    ensures forall f, h | IsHolder(t, f, h) :: IsHolder(s, f, h)
  {
    forall f, h | IsHolder(t, f, h) ensures IsHolder(s, f, h) {
    }
    forall f ensures AtMostOneHolder(t, f) {
      assert AtMostOneHolder(s, f);
    }
    forall x | x in t.exchanges ensures ExchangeOk(t, x) {
      assert ExchangeOk(s, x);
    }
    forall id | id in t.rows ensures RowOk(t, id, t.rows[id]) {
      assert RowOk(s, id, s.rows[id]);
    }
    forall pid | pid in t.requests ensures RequestOk(t, t.requests[pid]) {
      if pid in s.requests { assert RequestOk(s, s.requests[pid]); }
    }
  }

  lemma LoginKeepsInv(s: State, a: Action)
    requires Inv(s) && a.Login? && Enabled(s, a)
    ensures Inv(Apply(s, a))
  {
    var t := Apply(s, a);
    forall f, h | IsHolder(t, f, h) ensures if f == a.familyId then h == HeldByRequest(a.pid) else IsHolder(s, f, h) {
      if h.HeldBySession? { assert RowOk(s, h.id, s.rows[h.id]); }
      if h.HeldByRequest? && h.pid != a.pid { assert RequestOk(s, s.requests[h.pid]); }
    }
    forall f ensures AtMostOneHolder(t, f) {
      assert AtMostOneHolder(s, f);
    }
    forall x | x in t.exchanges ensures ExchangeOk(t, x) {
      assert ExchangeOk(s, x);
    }
    forall pid | pid in t.requests ensures RequestOk(t, t.requests[pid]) {
      if pid != a.pid { assert RequestOk(s, s.requests[pid]); }
    }
    forall id | id in t.rows ensures RowOk(t, id, t.rows[id]) {
      assert RowOk(s, id, s.rows[id]);
    }
  }

  // Consuming a session hands its family over to the request.
  lemma ConsumeKeepsInv(s: State, a: Action)
    requires Inv(s) && a.TryConsume? && Enabled(s, a) && CanConsume(s.rows, s.requests[a.pid].row.id, s.now)
    ensures Inv(Apply(s, a))
    ensures forall f, h | IsHolder(Apply(s, a), f, h) ::
        if h == HeldByRequest(a.pid) then IsHolder(s, f, HeldBySession(s.requests[a.pid].row.id)) else IsHolder(s, f, h)
  {
    var t := Apply(s, a);
    var row := s.requests[a.pid].row;
    assert RequestOk(s, s.requests[a.pid]);
    forall f, h | IsHolder(t, f, h)
      ensures if h == HeldByRequest(a.pid) then IsHolder(s, f, HeldBySession(row.id)) else IsHolder(s, f, h)
      ensures h != HeldBySession(row.id)
    {
    }
    forall f ensures AtMostOneHolder(t, f) {
      assert AtMostOneHolder(s, f);
    }
    forall x | x in s.exchanges ensures x.id != row.id && ExchangeOk(t, x) {
      assert ExchangeOk(s, x);
    }
    assert RowOk(s, row.id, s.rows[row.id]);
    assert ExchangeOk(t, Exchange(row.id, row.familyId));
    forall pid | pid in t.requests ensures RequestOk(t, t.requests[pid]) {
      assert RequestOk(s, s.requests[pid]);
    }
    forall id | id in t.rows ensures RowOk(t, id, t.rows[id]) {
      assert RowOk(s, id, s.rows[id]);
    }
  }

  // Issuing a session hands the family over from the request to the session.
  lemma IssueKeepsInv(s: State, a: Action)
    requires Inv(s) && a.Issue? && Enabled(s, a)
    ensures Inv(Apply(s, a))
    ensures forall f, h | IsHolder(Apply(s, a), f, h) ::
        if h == HeldBySession(a.id) then IsHolder(s, f, HeldByRequest(a.pid)) else IsHolder(s, f, h)
  {
    var t := Apply(s, a);
    forall id | id in s.rows ensures RowOk(s, id, s.rows[id]) && id != a.id {
    }
    assert RequestOk(s, s.requests[a.pid]);
    forall f, h | IsHolder(t, f, h)
      ensures if h == HeldBySession(a.id) then IsHolder(s, f, HeldByRequest(a.pid)) else IsHolder(s, f, h)
      ensures h != HeldByRequest(a.pid)
    {
    }
    forall f ensures AtMostOneHolder(t, f) {
      assert AtMostOneHolder(s, f);
    }
    forall x | x in t.exchanges ensures ExchangeOk(t, x) {
      assert ExchangeOk(s, x);
    }
    forall pid | pid in t.requests ensures RequestOk(t, t.requests[pid]) {
      assert RequestOk(s, s.requests[pid]);
    }
    forall pid | pid in t.requests && t.requests[pid].Consuming? && t.requests[pid].row.id in t.rows
      ensures t.rows[t.requests[pid].row.id].familyId == t.requests[pid].row.familyId
    {
      assert RequestOk(s, s.requests[pid]);
    }
  }

  // What a step may do to the families: none without a holder gets one, and only a family
  // with a holder sees an exchange.
  ghost predicate KeepsFamilies(s: State, t: State) {
    && (forall f | f in s.families && NoHolder(s, f) :: NoHolder(t, f))
    && s.exchanges <= t.exchanges && s.families <= t.families
    && forall i | |s.exchanges| <= i < |t.exchanges| :: !NoHolder(s, t.exchanges[i].familyId)
  }

  lemma LoginStep(s: State, a: Action)
    requires Inv(s) && Enabled(s, a) && a.Login?
    ensures Inv(Apply(s, a)) && KeepsFamilies(s, Apply(s, a))
  {
    LoginKeepsInv(s, a);
    forall f, h | f in s.families && IsHolder(Apply(s, a), f, h) ensures IsHolder(s, f, h) {
    }
  }

  lemma ConsumeStep(s: State, a: Action)
    requires Inv(s) && Enabled(s, a) && a.TryConsume?
    ensures Inv(Apply(s, a)) && KeepsFamilies(s, Apply(s, a))
  {
    var row := s.requests[a.pid].row;
    if CanConsume(s.rows, row.id, s.now) {
      ConsumeKeepsInv(s, a);
      assert IsHolder(s, row.familyId, HeldBySession(row.id));
    } else {
      ShrinkKeepsInv(s, Apply(s, a));
    }
  }

  lemma IssueStep(s: State, a: Action)
    requires Inv(s) && Enabled(s, a) && a.Issue?
    ensures Inv(Apply(s, a)) && KeepsFamilies(s, Apply(s, a))
  {
    IssueKeepsInv(s, a);
  }

  lemma OtherSteps(s: State, a: Action)
    requires Inv(s) && Enabled(s, a) && !a.Login? && !a.TryConsume? && !a.Issue?
    ensures Inv(Apply(s, a)) && KeepsFamilies(s, Apply(s, a))
  {
    ShrinkKeepsInv(s, Apply(s, a));
  }

  lemma StepKeepsInv(s: State, a: Action)
    requires Inv(s) && Enabled(s, a)
    ensures Inv(Apply(s, a)) && KeepsFamilies(s, Apply(s, a))
  {
    match a {
      case Login(_, _, _) => LoginStep(s, a);
      case TryConsume(_) => ConsumeStep(s, a);
      case Issue(_, _, _) => IssueStep(s, a);
      case _ => OtherSteps(s, a);
    }
  }

  lemma {:induction false} RunKeepsInv(s: State, actions: seq<Action>, t: State)
    requires Inv(s) && Runs(s, actions, t)
    ensures Inv(t)
    decreases |actions|
  {
    if actions != [] {
      StepKeepsInv(s, actions[0]);
      RunKeepsInv(Apply(s, actions[0]), actions[1..], t);
    }
  }

  // ---- What every run guarantees --------------------------------------------------------

  // Each family is continued in at most one place, and no token is exchanged twice.
  lemma RotationIsLinear(actions: seq<Action>, s: State, familyId: Id)
    requires Runs(INITIAL, actions, s)
    ensures AtMostOneHolder(s, familyId)
    ensures ExchangedOnce(s)
  {
    RunKeepsInv(INITIAL, actions, s);
  }

  // A family nobody can continue stays so, and none of its tokens is accepted again.
  lemma {:induction false} DeadFamilyStaysDead(s: State, actions: seq<Action>, t: State, familyId: Id)
    requires Inv(s) && familyId in s.families && NoHolder(s, familyId) && Runs(s, actions, t)
    ensures NoHolder(t, familyId) && s.exchanges <= t.exchanges
    ensures forall i | |s.exchanges| <= i < |t.exchanges| :: t.exchanges[i].familyId != familyId
    decreases |actions|
  {
    if actions != [] {
      var mid := Apply(s, actions[0]);
      StepKeepsInv(s, actions[0]);
      DeadFamilyStaysDead(mid, actions[1..], t, familyId);
      forall i | |s.exchanges| <= i < |t.exchanges| ensures t.exchanges[i].familyId != familyId {
        if i < |mid.exchanges| {
          assert t.exchanges[i] == mid.exchanges[i];
        }
      }
    }
  }

  // ---- Revocation, and the issuance it can miss ----------------------------------------------

  ghost predicate Issuance(s: State, familyId: Id) {
    exists pid | pid in s.requests :: Issues(s.requests[pid], familyId)
  }

  // Some continuation exchanges another token of the family.
  ghost predicate CanContinue(s: State, familyId: Id) {
    exists actions, t :: Runs(s, actions, t) && Exchanges(s, t, familyId)
  }

  ghost predicate Exchanges(s: State, t: State, familyId: Id) {
    exists i | |s.exchanges| <= i < |t.exchanges| :: t.exchanges[i].familyId == familyId
  }

  // Once the rows of a family are revoked, it can be continued exactly by a request that
  // is about to issue a session of it.
  lemma RevokedExactly(revoked: State, familyId: Id, rows: Table, now: nat, reason: Reason)
    requires Inv(revoked) && familyId in revoked.families && revoked.rows == RevokeFamily(rows, familyId, now, reason)
    ensures CanContinue(revoked, familyId) <==> Issuance(revoked, familyId)
  {
    if Issuance(revoked, familyId) {
      var pid :| pid in revoked.requests && Issues(revoked.requests[pid], familyId);
      IssuanceContinues(revoked, pid, familyId);
    } else {
      assert NoHolder(revoked, familyId);
      forall more, t | Runs(revoked, more, t) ensures !Exchanges(revoked, t, familyId) {
        DeadFamilyStaysDead(revoked, more, t, familyId);
      }
    }
  }

  // Revoking a family ends it for good exactly when no request is about to issue a
  // session of it at that moment.
  lemma RevocationIsFinal(actions: seq<Action>, s: State, familyId: Id)
    requires Runs(INITIAL, actions, s) && familyId in s.families
    ensures CanContinue(Apply(s, LogoutFamily(familyId)), familyId) <==> Issuance(s, familyId)
  {
    RunKeepsInv(INITIAL, actions, s);
    var a := LogoutFamily(familyId);
    StepKeepsInv(s, a);
    RevokedExactly(Apply(s, a), familyId, s.rows, s.now, Logout);
  }

  // Both cases happen: a login is such an issuance, and once it has issued its session
  // the family exists and nothing is in flight.
  lemma BothHappen() returns (inFlight: State, settled: State)
    ensures Runs(INITIAL, [Login(0, 0, 0)], inFlight) && 0 in inFlight.families && Issuance(inFlight, 0)
    ensures Runs(INITIAL, [Login(0, 0, 0), Issue(0, 1, 2)], settled) && 0 in settled.families && !Issuance(settled, 0)
  {
    var a, b := Login(0, 0, 0), Issue(0, 1, 2);
    inFlight := Apply(INITIAL, a);
    assert inFlight.requests[0] == Issuing(0, 0);
    settled := Apply(inFlight, b);
    RunsCons(INITIAL, a, [], inFlight);
    assert [a] + [] == [a];
    RunsCons(inFlight, b, [], settled);
    assert [b] + [] == [b] && [a] + [b] == [a, b];
    RunsCons(INITIAL, a, [b], settled);
  }

  // ---- Replays ------------------------------------------------------------------------------

  function Actor(a: Action): Option<Id> {
    match a
    case Login(pid, _, _) => Some(pid)
    case Present(pid, _) => Some(pid)
    case Look(pid, _) => Some(pid)
    case TryConsume(pid) => Some(pid)
    case CheckUser(pid, _) => Some(pid)
    case Issue(pid, _, _) => Some(pid)
    case Revoke(pid) => Some(pid)
    case Drop(pid) => Some(pid)
    case _ => None
  }

  ghost predicate ByOthers(actions: seq<Action>, pid: Id) {
    forall a | a in actions :: Actor(a) != Some(pid)
  }

  lemma OtherStep(s: State, a: Action, pid: Id)
    requires Enabled(s, a) && pid in s.requests && Actor(a) != Some(pid)
    ensures pid in Apply(s, a).requests && Apply(s, a).requests[pid] == s.requests[pid]
    ensures s.families <= Apply(s, a).families
  {
  }

  // A request waits where it is while others work.
  lemma {:induction false} RequestWaits(s: State, others: seq<Action>, t: State, pid: Id)
    requires Runs(s, others, t) && pid in s.requests && ByOthers(others, pid)
    ensures pid in t.requests && t.requests[pid] == s.requests[pid] && s.families <= t.families
    decreases |others|
  {
    if others != [] {
      assert others[0] in others;
      OtherStep(s, others[0], pid);
      RequestWaits(Apply(s, others[0]), others[1..], t, pid);
    }
  }

  // Presenting a token that was exchanged before leads to the decision to revoke its own
  // family, whatever has happened since.
  lemma ReplayIsDetected(s: State, pid: Id, found: Option<Session>, userId: Id, x: Exchange)
    requires Inv(s) && x in s.exchanges
    requires Enabled(s, Look(pid, found)) && s.requests[pid] == Presented(Token(userId, x.id, Some(x.familyId)))
    ensures Apply(s, Look(pid, found)).requests == s.requests[pid := Revoking(x.familyId, ReuseDetected)]
    ensures Apply(s, Look(pid, found)).families == s.families && x.familyId in s.families
  {
    assert ExchangeOk(s, x);
    if found.Some? {
      assert RowOk(s, found.value.id, s.rows[found.value.id]);
    }
  }

  // However others go on in between, the request then revokes that family: no session of
  // it is open any more, and it is over for good unless a request is about to issue one.
  lemma ReplayIsCaught(actions: seq<Action>, s: State, pid: Id, found: Option<Session>, userId: Id, x: Exchange,
                       others: seq<Action>, t: State)
    requires Runs(INITIAL, actions, s) && x in s.exchanges
    requires Enabled(s, Look(pid, found)) && s.requests[pid] == Presented(Token(userId, x.id, Some(x.familyId)))
    requires Runs(Apply(s, Look(pid, found)), others, t) && ByOthers(others, pid)
    ensures Enabled(t, Revoke(pid)) && OpenInFamily(Apply(t, Revoke(pid)).rows, x.familyId) == {}
    ensures CanContinue(Apply(t, Revoke(pid)), x.familyId) <==> Issuance(t, x.familyId)
  {
    var decided := Apply(s, Look(pid, found));
    RunKeepsInv(INITIAL, actions, s);
    ReplayIsDetected(s, pid, found, userId, x);
    StepKeepsInv(s, Look(pid, found));
    RunKeepsInv(decided, others, t);
    RequestWaits(decided, others, t, pid);
    RevokingEnds(t, pid, x.familyId);
  }

  // What a request that has decided to revoke a family achieves.
  lemma RevokingEnds(t: State, pid: Id, familyId: Id)
    requires Inv(t) && familyId in t.families
    requires pid in t.requests && t.requests[pid] == Revoking(familyId, ReuseDetected)
    ensures OpenInFamily(Apply(t, Revoke(pid)).rows, familyId) == {}
    ensures CanContinue(Apply(t, Revoke(pid)), familyId) <==> Issuance(t, familyId)
  {
    StepKeepsInv(t, Revoke(pid));
    RevokedExactly(Apply(t, Revoke(pid)), familyId, t.rows, t.now, ReuseDetected);
    SameIssuance(t, pid, familyId);
  }

  lemma SameIssuance(t: State, pid: Id, familyId: Id)
    requires pid in t.requests && t.requests[pid].Revoking?
    ensures Issuance(Apply(t, Revoke(pid)), familyId) <==> Issuance(t, familyId)
  {
    var after := Apply(t, Revoke(pid));
    if p :| p in t.requests && Issues(t.requests[p], familyId) {
      assert p in after.requests && Issues(after.requests[p], familyId);
    }
  }

  lemma FreshId(used: set<Id>) returns (id: Id)
    ensures id !in used
  {
    id := 0;
    var rest := used;
    while exists x :: x in rest && x >= id
      invariant forall x | x in used && x !in rest :: x < id
      decreases |rest|
    {
      var x :| x in rest && x >= id;
      id := x + 1;
      rest := rest - {x};
    }
  }

  // From an issuance in flight: issue, present the new token, exchange it.
  lemma IssuanceContinues(s: State, pid: Id, familyId: Id)
    requires Inv(s) && pid in s.requests && Issues(s.requests[pid], familyId)
    ensures CanContinue(s, familyId)
  {
    if s.requests[pid].Won? {
      var a := CheckUser(pid, true);
      var mid := Apply(s, a);
      StepKeepsInv(s, a);
      var t, rest := IssuedContinues(mid, pid, familyId);
      RunsCons(s, a, rest, t);
      assert Exchanges(s, t, familyId);
    } else {
      var t, rest := IssuedContinues(s, pid, familyId);
      assert Exchanges(s, t, familyId);
    }
  }

  lemma IssuedContinues(s: State, pid: Id, familyId: Id) returns (t: State, actions: seq<Action>)
    requires Inv(s) && pid in s.requests && s.requests[pid].Issuing? && s.requests[pid].familyId == familyId
    ensures Runs(s, actions, t) && Exchanges(s, t, familyId)
  {
    var id := FreshId(s.ids);
    var a := Issue(pid, id, s.now + 1);
    var s1 := Apply(s, a);
    StepKeepsInv(s, a);
    var token := Token(s.requests[pid].userId, id, Some(familyId));
    var b := Present(pid, token);
    var s2 := Apply(s1, b);
    var c := Look(pid, Some(s2.rows[id]));
    var s3 := Apply(s2, c);
    var d := TryConsume(pid);
    t := Apply(s3, d);
    assert t.exchanges == s.exchanges + [Exchange(id, familyId)];
    assert t.exchanges[|s.exchanges|].familyId == familyId;
    RunsCons(s3, d, [], t);
    assert [d] + [] == [d];
    RunsCons(s2, c, [d], t);
    RunsCons(s1, b, [c] + [d], t);
    RunsCons(s, a, [b] + ([c] + [d]), t);
    actions := [a] + ([b] + ([c] + [d]));
  }

  lemma RunsCons(s: State, a: Action, rest: seq<Action>, t: State)
    requires Enabled(s, a) && Runs(Apply(s, a), rest, t)
    ensures Runs(s, [a] + rest, t)
  {
    assert ([a] + rest)[1..] == rest;
  }

  // ---- One request alone -----------------------------------------------------------------

  // The steps of a request that presents a token, up to where it would issue a session.
  predicate StepOf(a: Action, pid: Id, user: UserState) {
    match a
    case Look(p, _) => p == pid
    case TryConsume(p) => p == pid
    case CheckUser(p, active) => p == pid && active == (user == Active)
    case Revoke(p) => p == pid
    case _ => false
  }

  ghost predicate Alone(s: State, actions: seq<Action>, t: State, pid: Id, user: UserState) {
    && Runs(s, actions, t) && (forall a | a in actions :: StepOf(a, pid, user))
    && (pid in t.requests ==> t.requests[pid].Issuing?)
  }

  // The family it goes on to issue a session of.
  function GoesOn(t: State, pid: Id): Option<Id> {
    if pid in t.requests && t.requests[pid].Issuing? then Some(t.requests[pid].familyId) else None
  }

  lemma AloneStep(s: State, actions: seq<Action>, t: State, pid: Id, user: UserState)
    requires Alone(s, actions, t, pid, user) && actions != []
    ensures Enabled(s, actions[0]) && StepOf(actions[0], pid, user)
    ensures Alone(Apply(s, actions[0]), actions[1..], t, pid, user)
  {
  }

  lemma AloneDone(s: State, actions: seq<Action>, t: State, pid: Id, user: UserState)
    requires Alone(s, actions, t, pid, user) && (pid !in s.requests || s.requests[pid].Issuing?)
    ensures t == s
  {
    if actions != [] {
      AloneStep(s, actions, t, pid, user);
      assert false;
    }
  }

  lemma AloneRevokes(s: State, actions: seq<Action>, t: State, pid: Id, user: UserState)
    requires Alone(s, actions, t, pid, user) && pid in s.requests && s.requests[pid].Revoking?
    ensures Ended(s.rows, t.rows, s.requests[pid].familyId, s.now, s.requests[pid].reason) && GoesOn(t, pid).None?
  {
    assert actions != [];
    AloneStep(s, actions, t, pid, user);
    AloneDone(Apply(s, actions[0]), actions[1..], t, pid, user);
  }

  lemma AloneWon(s: State, actions: seq<Action>, t: State, pid: Id, user: UserState)
    requires Alone(s, actions, t, pid, user) && pid in s.requests && s.requests[pid].Won?
    ensures if user == Active then GoesOn(t, pid) == Some(s.requests[pid].familyId) && t.rows == s.rows
            else Ended(s.rows, t.rows, s.requests[pid].familyId, s.now, Logout) && GoesOn(t, pid).None?
  {
    assert actions != [];
    AloneStep(s, actions, t, pid, user);
    var mid := Apply(s, actions[0]);
    if user == Active {
      AloneDone(mid, actions[1..], t, pid, user);
    } else {
      AloneRevokes(mid, actions[1..], t, pid, user);
    }
  }

  lemma AloneConsumes(s: State, actions: seq<Action>, t: State, pid: Id, user: UserState, token: Token)
    requires Alone(s, actions, t, pid, user) && pid in s.requests && s.requests[pid].Consuming?
    requires Finds(s.rows, token, Some(s.requests[pid].row)) && Usable(s.requests[pid].row)
    requires s.requests[pid].row.userId == token.sub
    ensures ServedFrom(s.rows, token, Some(s.requests[pid].row), user, s.now, t.rows, GoesOn(t, pid))
  {
    assert actions != [];
    AloneStep(s, actions, t, pid, user);
    var mid := Apply(s, actions[0]);
    if CanConsume(s.rows, s.requests[pid].row.id, s.now) {
      AloneWon(mid, actions[1..], t, pid, user);
    } else {
      AloneRevokes(mid, actions[1..], t, pid, user);
    }
  }

  // A request that nothing interleaves with leaves the table, and goes on, as the method
  // `AuthService.ConsumeRefreshToken` says.
  lemma AloneIsServed(s: State, pid: Id, token: Token, actions: seq<Action>, t: State, user: UserState)
    requires pid !in s.requests && Alone(Apply(s, Present(pid, token)), actions, t, pid, user)
    ensures Served(s.rows, token, user, s.now, t.rows, GoesOn(t, pid))
  {
    var presented := Apply(s, Present(pid, token));
    assert actions != [];
    AloneStep(presented, actions, t, pid, user);
    var found := actions[0].found;
    var looked := Apply(presented, actions[0]);
    if pid !in looked.requests {
      AloneDone(looked, actions[1..], t, pid, user);
    } else if looked.requests[pid].Revoking? {
      AloneRevokes(looked, actions[1..], t, pid, user);
    } else {
      AloneConsumes(looked, actions[1..], t, pid, user, token);
    }
    assert ServedFrom(s.rows, token, found, user, s.now, t.rows, GoesOn(t, pid));
  }
}
