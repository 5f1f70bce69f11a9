// Refresh sessions (auth/refresh-session.repository.ts) and the token exchange
// built on them (auth/auth.service.ts).
module RefreshSessions {
  import opened Lists

  // Uuids and user ids are numbers; instants are numbers of milliseconds.
  type Id = nat

  const THIRTY_DAYS: nat := 30 * 24 * 60 * 60 * 1000

  // A refresh token whose signature has been checked is its payload. The table
  // keeps a hash of it, taken to be collision-free, so the token stands for its hash.
  datatype Token = Token(sub: Id, jti: Id, fid: Option<Id>)

  datatype Reason = Logout | ReuseDetected | CredentialsChanged | RotationConflict

  datatype Session = Session(
    id: Id, userId: Id, familyId: Id, tokenHash: Token, expiresAt: nat,
    consumedAt: Option<nat>, revokedAt: Option<nat>, revokedReason: Option<Reason>)

  type Table = map<Id, Session>

  predicate Usable(row: Session) {
    row.consumedAt.None? && row.revokedAt.None?
  }

  // ---- The statements, each one transaction --------------------------------------

  function Insert(rows: Table, id: Id, userId: Id, familyId: Id, token: Token, expiresAt: nat): Table {
    rows[id := Session(id, userId, familyId, token, expiresAt, None, None, None)]
  }

  // UPDATE ... WHERE id AND not consumed AND not revoked AND not expired
  predicate CanConsume(rows: Table, id: Id, now: nat) {
    id in rows && Usable(rows[id]) && rows[id].expiresAt > now
  }

  function Consume(rows: Table, id: Id, now: nat): Table {
    if CanConsume(rows, id, now) then rows[id := rows[id].(consumedAt := Some(now))] else rows
  }

  function RevokedRow(row: Session, now: nat, reason: Reason): Session {
    if row.revokedAt.None? then row.(revokedAt := Some(now), revokedReason := Some(reason)) else row
  }

  function RevokeFamily(rows: Table, familyId: Id, now: nat, reason: Reason): Table {
    map id | id in rows :: if rows[id].familyId == familyId then RevokedRow(rows[id], now, reason) else rows[id]
  }

  function RevokeUser(rows: Table, userId: Id, now: nat, reason: Reason): Table {
    map id | id in rows :: if rows[id].userId == userId then RevokedRow(rows[id], now, reason) else rows[id]
  }

  function DeleteExpired(rows: Table, userId: Id, now: nat): Table {
    map id | id in rows && !(rows[id].userId == userId && rows[id].expiresAt + THIRTY_DAYS < now) :: rows[id]
  }

  // The rows a revocation concerns: those of the family, or the user, not yet revoked.
  function OpenInFamily(rows: Table, familyId: Id): set<Id> {
    set id | id in rows && rows[id].familyId == familyId && rows[id].revokedAt.None?
  }

  function OpenOfUser(rows: Table, userId: Id): set<Id> {
    set id | id in rows && rows[id].userId == userId && rows[id].revokedAt.None?
  }

  // The row a look-up by token hash finds; the hash column is unique.
  ghost predicate Finds(rows: Table, token: Token, found: Option<Session>) {
    match found
    case Some(row) => row.id in rows && rows[row.id] == row && row.tokenHash == token
    case None => forall id | id in rows :: rows[id].tokenHash != token
  }

  // ---- The repository and the service ----------------------------------------------

  class RefreshSessionRepository {
    var rows: Table

    constructor ()
      ensures rows == map[]
    {
      rows := map[];
    }

    ghost predicate Valid()
      reads this
    {
      forall id | id in rows :: rows[id].id == id
    }

    method Create(id: Id, userId: Id, familyId: Id, token: Token, expiresAt: nat)
      requires Valid()
      modifies this
      ensures Valid() && rows == Insert(old(rows), id, userId, familyId, token, expiresAt)
      ensures rows.Keys == old(rows).Keys + {id} && forall other | other in old(rows) && other != id ::
          rows[other] == old(rows)[other]
      ensures rows[id].userId == userId && rows[id].familyId == familyId && rows[id].tokenHash == token
      ensures forall now: nat :: CanConsume(rows, id, now) <==> now < expiresAt
    {
      rows := rows[id := Session(id, userId, familyId, token, expiresAt, None, None, None)];
    }

    method FindByTokenHash(token: Token) returns (found: Option<Session>)
      requires Valid()
      ensures Finds(rows, token, found)
      ensures found.Some? <==> exists id :: id in rows && rows[id].tokenHash == token
      ensures found.Some? ==> found.value in rows.Values && found.value.tokenHash == token
    {
      if id :| id in rows && rows[id].tokenHash == token {
        assert id in rows.Keys;
        found := Some(rows[id]);
      } else {
        found := None;
      }
    }

    method ConsumeSession(id: Id, now: nat) returns (won: bool)
      requires Valid()
      modifies this
      ensures Valid() && rows == Consume(old(rows), id, now)
      ensures won <==> CanConsume(old(rows), id, now)
      ensures won <==> id in old(rows) && old(rows)[id].consumedAt.None? && old(rows)[id].revokedAt.None?
                       && now < old(rows)[id].expiresAt
      ensures rows == if won then old(rows)[id := old(rows)[id].(consumedAt := Some(now))] else old(rows)
    {
      won := id in rows && rows[id].consumedAt.None? && rows[id].revokedAt.None? && rows[id].expiresAt > now;
      if won {
        rows := rows[id := rows[id].(consumedAt := Some(now))];
      }
    }

    method RevokeByFamily(familyId: Id, now: nat, reason: Reason) returns (affected: nat)
      requires Valid()
      modifies this
      ensures Valid() && rows == RevokeFamily(old(rows), familyId, now, reason)
      ensures rows.Keys == old(rows).Keys && affected == |OpenInFamily(old(rows), familyId)|
      ensures forall id | id in rows && id !in OpenInFamily(old(rows), familyId) :: rows[id] == old(rows)[id]
      ensures forall id | id in OpenInFamily(old(rows), familyId) ::
          rows[id] == old(rows)[id].(revokedAt := Some(now), revokedReason := Some(reason))
      ensures OpenInFamily(rows, familyId) == {}
    {
      affected := |OpenInFamily(rows, familyId)|;
      rows := map id | id in rows ::
        if rows[id].familyId == familyId && rows[id].revokedAt.None?
        then rows[id].(revokedAt := Some(now), revokedReason := Some(reason)) else rows[id];
    }

    method RevokeAllForUser(userId: Id, now: nat, reason: Reason) returns (affected: nat)
      requires Valid()
      modifies this
      ensures Valid() && rows == RevokeUser(old(rows), userId, now, reason)
      ensures rows.Keys == old(rows).Keys && affected == |OpenOfUser(old(rows), userId)|
      ensures forall id | id in rows && id !in OpenOfUser(old(rows), userId) :: rows[id] == old(rows)[id]
      ensures forall id | id in OpenOfUser(old(rows), userId) ::
          rows[id] == old(rows)[id].(revokedAt := Some(now), revokedReason := Some(reason))
      ensures OpenOfUser(rows, userId) == {}
    {
      affected := |OpenOfUser(rows, userId)|;
      rows := map id | id in rows ::
        if rows[id].userId == userId && rows[id].revokedAt.None?
        then rows[id].(revokedAt := Some(now), revokedReason := Some(reason)) else rows[id];
    }

    method DeleteExpiredSessions(userId: Id, now: nat)
      requires Valid()
      modifies this
      ensures Valid() && rows == DeleteExpired(old(rows), userId, now)
      ensures rows.Keys <= old(rows).Keys && forall id | id in rows :: rows[id] == old(rows)[id]
      ensures forall id | id in old(rows) ::
          id !in rows <==> old(rows)[id].userId == userId && now > old(rows)[id].expiresAt + THIRTY_DAYS
      ensures forall id :: CanConsume(rows, id, now) <==> CanConsume(old(rows), id, now)
    {
      rows := map id | id in rows && (rows[id].userId != userId || rows[id].expiresAt + THIRTY_DAYS >= now) :: rows[id];
    }
  }

  datatype UserState = Missing | Inactive | Active

  class AuthService {
    const sessions: RefreshSessionRepository

    constructor (sessions: RefreshSessionRepository)
      ensures this.sessions == sessions
    {
      this.sessions := sessions;
    }

    // consumeRefreshToken with nothing else running: who gets through, and what
    // happens to the rows in every case.
    method ConsumeRefreshToken(token: Token, user: UserState, now: nat) returns (family: Option<Id>)
      requires sessions.Valid()
      modifies sessions
      ensures sessions.Valid()
      ensures Served(old(sessions.rows), token, user, now, sessions.rows, family)
    {
      var found := sessions.FindByTokenHash(token);
      ghost var before := sessions.rows;
      assert Finds(before, token, found);
      if found.None? {
        if token.fid.Some? {
          var _ := sessions.RevokeByFamily(token.fid.value, now, ReuseDetected);
        }
        assert ServedFrom(before, token, found, user, now, sessions.rows, None);
        return None;
      }
      var session := found.value;
      if session.userId != token.sub || session.consumedAt.Some? || session.revokedAt.Some? {
        var _ := sessions.RevokeByFamily(session.familyId, now, ReuseDetected);
        assert ServedFrom(before, token, found, user, now, sessions.rows, None);
        return None;
      }
      var won := sessions.ConsumeSession(session.id, now);
      if !won {
        var _ := sessions.RevokeByFamily(session.familyId, now, RotationConflict);
        assert ServedFrom(before, token, found, user, now, sessions.rows, None);
        return None;
      }
      if user != Active {
        var _ := sessions.RevokeByFamily(session.familyId, now, Logout);
        assert ServedFrom(before, token, found, user, now, sessions.rows, None);
        return None;
      }
      assert ServedFrom(before, token, found, user, now, sessions.rows, Some(session.familyId));
      return Some(session.familyId);
    }

    method LogoutSession(userId: Id, familyId: Option<Id>, now: nat)
      requires sessions.Valid()
      modifies sessions
      ensures sessions.Valid()
      ensures sessions.rows == match familyId
                               case Some(fid) => RevokeFamily(old(sessions.rows), fid, now, Logout)
                               case None => RevokeUser(old(sessions.rows), userId, now, Logout)
      ensures familyId.Some? ==> Ended(old(sessions.rows), sessions.rows, familyId.value, now, Logout)
      ensures familyId.None? ==> OpenOfUser(sessions.rows, userId) == {}
    {
      if familyId.Some? {
        var _ := sessions.RevokeByFamily(familyId.value, now, Logout);
      } else {
        var _ := sessions.RevokeAllForUser(userId, now, Logout);
      }
    }
  }

  // What presenting a token does to the table, and the family that goes on, if any.
  ghost predicate Served(before: Table, token: Token, user: UserState, now: nat, after: Table, family: Option<Id>) {
    exists found :: Finds(before, token, found) && ServedFrom(before, token, found, user, now, after, family)
  }

  // By the row the token was found in. Of a known token, a foreign, spent or revoked row
  // ends its family as reuse, an expired one as a conflict; what is exchanged for a user
  // who may not go on ends its family as a logout. An unknown token ends the family it
  // names.
  ghost predicate ServedFrom(before: Table, token: Token, found: Option<Session>, user: UserState, now: nat,
                             after: Table, family: Option<Id>)
  {
    match found
    case None =>
      family.None? && if token.fid.None? then after == before
                      else Ended(before, after, token.fid.value, now, ReuseDetected)
    case Some(row) =>
      if row.userId != token.sub || row.consumedAt.Some? || row.revokedAt.Some? then
        family.None? && Ended(before, after, row.familyId, now, ReuseDetected)
      else if row.expiresAt <= now then
        family.None? && Ended(before, after, row.familyId, now, RotationConflict)
      else
        var exchanged := before[row.id := row.(consumedAt := Some(now))];
        if user == Active then family == Some(row.familyId) && after == exchanged
        else family.None? && Ended(exchanged, after, row.familyId, now, Logout)
  }

  // No session of the family is open any more: those that were are revoked now, for this
  // reason, and all other rows are as before.
  ghost predicate Ended(before: Table, after: Table, familyId: Id, now: nat, reason: Reason) {
    && after.Keys == before.Keys
    && (forall id | id in after && after[id].familyId == familyId :: after[id].revokedAt.Some?)
    && forall id | id in after ::
         if before[id].familyId == familyId && before[id].revokedAt.None?
         then after[id] == before[id].(revokedAt := Some(now), revokedReason := Some(reason))
         else after[id] == before[id]
  }

  // What a revocation settles, later steps leave: no session of the family is ever
  // exchanged from these rows, and a second revocation keeps the first one's time and reason.
  lemma RevokedForGood(rows: Table, familyId: Id, now: nat, reason: Reason, later: nat, another: Reason)
    ensures (var revoked := RevokeFamily(rows, familyId, now, reason);
             && (forall id, at: nat | id in rows && rows[id].familyId == familyId :: !CanConsume(revoked, id, at))
             && RevokeFamily(revoked, familyId, later, another) == revoked)
  {
    var revoked := RevokeFamily(rows, familyId, now, reason);
    var again := RevokeFamily(revoked, familyId, later, another);
    forall id | id in rows ensures again[id] == revoked[id] {
      assert rows[id].familyId == familyId ==> revoked[id].revokedAt.Some?;
    }
  }
}
