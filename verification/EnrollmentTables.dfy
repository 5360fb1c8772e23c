/** The two enrolment tables and the SQL statements that touch them, one at a time. */
module EnrollmentTables {
  import opened Net

  /** Times are microseconds, the resolution of TIMESTAMP(6). */
  const MINUTE := 60_000_000
  const REQUEST_TTL := 10 * MINUTE
  const GRANT_TTL := 5 * MINUTE

  datatype Status = Pending | Approved | Rejected

  datatype Request = Request(install: string, status: Status, grant: Option<string>, createdAt: nat, expiresAt: nat)

  /** `maxUses` 0 means unlimited. Rows are keyed by the secret, its hash being collision free. */
  datatype Token = Token(maxUses: nat, used: nat, expiresAt: nat, revoked: bool)

  predicate IsPending(r: Request, now: nat) {
    r.status == Pending && now < r.expiresAt
  }

  predicate Redeemable(t: Token, now: nat) {
    !t.revoked && now < t.expiresAt && (t.maxUses == 0 || t.used < t.maxUses)
  }

  datatype Word = Active | Revoked | Expired | UsedUp

  /** The console's one-word status of a token. */
  function TokenStatus(t: Token, now: nat): Word {
    if t.revoked then Revoked
    else if t.expiresAt < now then Expired
    else if 0 < t.maxUses && t.maxUses <= t.used then UsedUp
    else Active
  }

  /** "active" on the console and redeemable differ at one instant only: the expiry itself. */
  lemma ActiveMeansRedeemable(t: Token, now: nat)
    ensures TokenStatus(t, now) == Active && now != t.expiresAt <==> Redeemable(t, now)
    ensures TokenStatus(t, now) == Revoked <==> t.revoked
    ensures TokenStatus(t, now) == Expired <==> !t.revoked && t.expiresAt < now
    ensures TokenStatus(t, now) == UsedUp ==> 0 < t.maxUses <= t.used
  {
  }

  /** 1 to 36 characters. */
  predicate ValidInstallId(install: string) {
    1 <= |install| <= 36
  }

  // ----- The statements as functions on the tables ----------------------------

  function Supersede(rs: map<string, Request>, install: string): map<string, Request> {
    map id | id in rs ::
      if rs[id].install == install && rs[id].status == Pending then rs[id].(status := Rejected) else rs[id]
  }

  predicate Approvable(rs: map<string, Request>, id: string, now: nat) {
    id in rs && IsPending(rs[id], now)
  }

  function Approve(rs: map<string, Request>, id: string, grant: string, now: nat): map<string, Request> {
    if Approvable(rs, id, now) then rs[id := rs[id].(status := Approved, grant := Some(grant))] else rs
  }

  function Reject(rs: map<string, Request>, id: string): map<string, Request> {
    if id in rs && rs[id].status == Pending then rs[id := rs[id].(status := Rejected)] else rs
  }

  predicate Holds(rs: map<string, Request>, id: string, grant: string) {
    id in rs && rs[id].grant == Some(grant)
  }

  function ClearGrant(rs: map<string, Request>, id: string, grant: string): map<string, Request> {
    if Holds(rs, id, grant) then rs[id := rs[id].(grant := None)] else rs
  }

  predicate Usable(ts: map<string, Token>, secret: string, now: nat) {
    secret in ts && Redeemable(ts[secret], now)
  }

  function Redeem(ts: map<string, Token>, secret: string, now: nat): map<string, Token> {
    if Usable(ts, secret, now) then ts[secret := ts[secret].(used := ts[secret].used + 1)] else ts
  }

  function RevokeToken(ts: map<string, Token>, secret: string): map<string, Token> {
    if secret in ts then ts[secret := ts[secret].(revoked := true)] else ts
  }

  /** In columns: unrevoked, before its expiry, and with a use left unless unlimited. */
  predicate CanRedeem(ts: map<string, Token>, secret: string, now: nat) {
    && secret in ts && ts[secret].revoked == false && now < ts[secret].expiresAt
    && (ts[secret].maxUses != 0 ==> ts[secret].used < ts[secret].maxUses)
  }

  /** One row changed to `row`, everything else as it was. */
  predicate OneRow<K, V(==)>(was: map<K, V>, now: map<K, V>, key: K, row: V) {
    now.Keys == was.Keys + {key} && now[key] == row && forall k | k in was && k != key :: now[k] == was[k]
  }

  // ----- The service over those tables -----------------------------------------

  class Service {
    var requests: map<string, Request>
    var tokens: map<string, Token>

    constructor ()
      ensures requests == map[] && tokens == map[]
    {
      requests, tokens := map[], map[];
    }

    /** Wrong or unset shared password, a missing field or an overlong install id stores nothing. */
    method CreateEnrollmentRequest(shared: string, supplied: string, install: string, key: string, id: string, now: nat)
      returns (ok: bool)
      requires id !in requests
      modifies this`requests
      ensures ok <==> shared != "" && shared == supplied && 1 <= |install| <= 36 && key != ""
      ensures requests == if ok
              then Supersede(old(requests), install)[id := Request(install, Pending, None, now, now + REQUEST_TTL)]
              else old(requests)
      ensures ok ==> forall r | r in requests && requests[r].install == install && requests[r].status == Pending :: r == id
      ensures ok ==> requests.Keys == old(requests).Keys + {id}
                     && requests[id] == Request(install, Pending, None, now, now + 600_000_000)
      ensures ok ==> forall r | r in old(requests) ::
                if old(requests)[r].install == install && old(requests)[r].status == Pending
                then requests[r] == old(requests)[r].(status := Rejected) else requests[r] == old(requests)[r]
    {
      ok := false;
      if shared == "" || shared != supplied {
        return;
      }
      if install == "" || key == "" {
        return;
      }
      if !ValidInstallId(install) {
        return;
      }
      var expires := now + REQUEST_TTL;
      requests := map r | r in requests ::
        if requests[r].install == install && requests[r].status == Pending then requests[r].(status := Rejected) else requests[r];
      requests := requests[id := Request(install, Pending, None, now, expires)];
      ok := true;
    }

    method MarkApprovedWithGrant(id: string, grant: string, now: nat) returns (ok: bool)
      modifies this`requests
      ensures ok <==> Approvable(old(requests), id, now)
      ensures requests == Approve(old(requests), id, grant, now)
      ensures ok <==> id in old(requests) && old(requests)[id].status == Pending && now < old(requests)[id].expiresAt
      ensures ok ==> OneRow(old(requests), requests, id, old(requests)[id].(status := Approved, grant := Some(grant)))
      ensures !ok ==> requests == old(requests)
    {
      ok := id in requests && requests[id].status == Pending && now < requests[id].expiresAt;
      if ok {
        requests := requests[id := requests[id].(status := Approved, grant := Some(grant))];
      }
    }

    method RejectEnrollmentRequest(id: string) returns (ok: bool)
      modifies this`requests
      ensures ok <==> id in old(requests) && old(requests)[id].status == Pending
      ensures requests == Reject(old(requests), id)
      ensures ok ==> OneRow(old(requests), requests, id, old(requests)[id].(status := Rejected))
      ensures !ok ==> requests == old(requests)
    {
      ok := id in requests && requests[id].status == Pending;
      if ok {
        requests := requests[id := requests[id].(status := Rejected)];
      }
    }

    /** Read, then compare and clear. Undisturbed, it returns the parked grant and leaves none. */
    method TakeGrant(id: string) returns (grant: Option<string>)
      modifies this`requests
      ensures grant == if id in old(requests) then old(requests)[id].grant else None
      ensures requests == if grant.Some? then ClearGrant(old(requests), id, grant.value) else old(requests)
      ensures id in requests ==> OneRow(old(requests), requests, id, old(requests)[id].(grant := None))
      ensures id !in requests ==> requests == old(requests)
    {
      if id !in requests {
        return None;
      }
      grant := requests[id].grant;
      if grant.None? {
        return;
      }
      if requests[id].grant == grant {
        requests := requests[id := requests[id].(grant := None)];
      } else {
        grant := None;
      }
    }

    method CreateEnrollmentToken(secret: string, name: string, maxUses: int, ttl: int, now: nat) returns (ok: bool)
      requires secret !in tokens
      modifies this`tokens
      ensures ok <==> name != "" && 0 <= maxUses
      ensures tokens == if ok
              then old(tokens)[secret := Token(maxUses, 0, now + (if ttl <= 0 then 24 * 60 * MINUTE else ttl), false)]
              else old(tokens)
    {
      ok := name != "" && 0 <= maxUses;
      if ok {
        var life := if ttl <= 0 then 24 * 60 * MINUTE else ttl;
        tokens := tokens[secret := Token(maxUses, 0, now + life, false)];
      }
    }

    /** Check and consumption are one decision; without `consume` nothing changes. */
    method CheckEnrollmentToken(secret: string, consume: bool, now: nat) returns (ok: bool)
      modifies this`tokens
      ensures ok <==> Usable(old(tokens), secret, now)
      ensures tokens == if consume then Redeem(old(tokens), secret, now) else old(tokens)
      ensures ok <==> CanRedeem(old(tokens), secret, now)
      ensures ok && consume ==> OneRow(old(tokens), tokens, secret, old(tokens)[secret].(used := old(tokens)[secret].used + 1))
      ensures !ok || !consume ==> tokens == old(tokens)
    {
      ok := secret in tokens && !tokens[secret].revoked && now < tokens[secret].expiresAt
            && (tokens[secret].maxUses == 0 || tokens[secret].used < tokens[secret].maxUses);
      if ok && consume {
        tokens := tokens[secret := tokens[secret].(used := tokens[secret].used + 1)];
      }
    }

    method RevokeEnrollmentToken(secret: string) returns (ok: bool)
      modifies this`tokens
      ensures ok <==> secret in old(tokens) && !old(tokens)[secret].revoked
      ensures tokens == RevokeToken(old(tokens), secret)
      ensures ok ==> OneRow(old(tokens), tokens, secret, old(tokens)[secret].(revoked := true))
      ensures !ok ==> tokens == old(tokens)
      ensures secret in tokens ==> forall now :: !Redeemable(tokens[secret], now)
    {
      ok := secret in tokens && !tokens[secret].revoked;
      if ok {
        tokens := tokens[secret := tokens[secret].(revoked := true)];
      }
    }

    /** The middleware: only the register call spends the grant. */
    method RequireEnrollmentGrant(path: string, secret: string, now: nat) returns (admitted: bool)
      modifies this`tokens
      ensures admitted <==> Usable(old(tokens), secret, now)
      ensures tokens == if path == "/devices/register" then Redeem(old(tokens), secret, now) else old(tokens)
      ensures admitted <==> CanRedeem(old(tokens), secret, now)
      ensures admitted && path == "/devices/register" ==>
                OneRow(old(tokens), tokens, secret, old(tokens)[secret].(used := old(tokens)[secret].used + 1))
      ensures !admitted || path != "/devices/register" ==> tokens == old(tokens)
    {
      var consume := path == "/devices/register";
      admitted := CheckEnrollmentToken(secret, consume, now);
    }
  }
}
