/**
 * The enrolment protocol as a state machine whose steps are single SQL
 * statements, so phones, admins and pollers interleave at every statement.
 */
module Enrollment {
  import opened Net
  import opened EnrollmentTables

  /** What one running handler still has to do. */
  datatype Process =
    | Idle
    | Creating(install: string, createdAt: nat)          // superseded, not yet inserted
    | Approving(request: string)                          // saw the request pending
    | Minted(request: string, secret: string)             // token stored, not yet parked
    | Collecting(request: string, grant: string)          // read the grant, not yet cleared

  datatype Delivery = Delivery(request: string, secret: string)

  datatype Redemption = Redemption(secret: string, at: nat)

  /** Tables and processes, with the history the properties are about. */
  datatype State = State(
    now: nat,
    requests: map<string, Request>,
    tokens: map<string, Token>,
    processes: map<nat, Process>,
    mintedFor: map<string, string>,      // secrets minted by an approver, and for which request
    parked: map<string, string>,         // the grant each approved request was given
    delivered: seq<Delivery>,
    redeemed: seq<Redemption>,
    registered: set<nat>)                // positions in `redeemed` whose registration succeeded

  const Initial := State(0, map[], map[], map[], map[], map[], [], [], {})

  datatype Step =
    | Tick(micros: nat)
    | BeginCreate(proc: nat, install: string)
    | FinishCreate(proc: nat, id: string)
    | RejectRequest(id: string)
    | ReadPending(proc: nat, id: string)
    | Mint(proc: nat, secret: string)
    | Park(proc: nat)
    | ReadGrant(proc: nat, id: string)
    | TakeIt(proc: nat)
    | ConsoleToken(secret: string, maxUses: nat, ttl: nat)
    | Revoke(secret: string)
    | Challenge(secret: string)
    | Spend(secret: string)
    | Register(redemption: nat)

  function At(s: State, proc: nat): Process {
    if proc in s.processes then s.processes[proc] else Idle
  }

  function Set(s: State, proc: nat, p: Process): State {
    s.(processes := s.processes[proc := p])
  }

  /** Secrets leave the server by delivery, or by being shown on the console. */
  predicate Known(s: State, secret: string) {
    (secret in s.tokens && secret !in s.mintedFor) || (exists i :: 0 <= i < |s.delivered| && s.delivered[i].secret == secret)
  }

  predicate Enabled(s: State, step: Step) {
    match step
    case Tick(_) => true
    case BeginCreate(p, _) => At(s, p).Idle?
    case FinishCreate(p, id) => At(s, p).Creating? && id !in s.requests
    case RejectRequest(_) => true
    case ReadPending(p, id) => At(s, p).Idle? && id in s.requests && IsPending(s.requests[id], s.now)
    case Mint(p, secret) => At(s, p).Approving? && secret !in s.tokens
    case Park(p) => At(s, p).Minted?
    case ReadGrant(p, id) => At(s, p).Idle? && id in s.requests && s.requests[id].status == Approved && s.requests[id].grant.Some?
    case TakeIt(p) => At(s, p).Collecting?
    case ConsoleToken(secret, _, _) => secret !in s.tokens
    case Revoke(_) => true
    case Challenge(secret) => Known(s, secret)
    case Spend(secret) => Known(s, secret)
    case Register(k) => k < |s.redeemed|
  }

  function Apply(s: State, step: Step): State
    requires Enabled(s, step)
  {
    match step
    case Tick(micros) => s.(now := s.now + micros)
    case BeginCreate(p, install) => Set(s, p, Creating(install, s.now)).(requests := Supersede(s.requests, install))
    case FinishCreate(p, id) =>
      var c := At(s, p);
      Set(s, p, Idle).(requests := s.requests[id := Request(c.install, Pending, None, c.createdAt, c.createdAt + REQUEST_TTL)])
    case RejectRequest(id) => s.(requests := Reject(s.requests, id))
    case ReadPending(p, id) => Set(s, p, Approving(id))
    case Mint(p, secret) =>
      var id := At(s, p).request;
      Set(s, p, Minted(id, secret)).(tokens := s.tokens[secret := Token(1, 0, s.now + GRANT_TTL, false)],
                                     mintedFor := s.mintedFor[secret := id])
    case Park(p) =>
      var id, secret := At(s, p).request, At(s, p).secret;
      var won := Approvable(s.requests, id, s.now);
      Set(s, p, Idle).(requests := Approve(s.requests, id, secret, s.now),
                       parked := if won then s.parked[id := secret] else s.parked)
    case ReadGrant(p, id) => Set(s, p, Collecting(id, s.requests[id].grant.value))
    case TakeIt(p) =>
      var id, grant := At(s, p).request, At(s, p).grant;
      Set(s, p, Idle).(requests := ClearGrant(s.requests, id, grant),
                       delivered := if Holds(s.requests, id, grant) then s.delivered + [Delivery(id, grant)] else s.delivered)
    case ConsoleToken(secret, maxUses, ttl) => s.(tokens := s.tokens[secret := Token(maxUses, 0, s.now + ttl, false)])
    case Revoke(secret) => s.(tokens := RevokeToken(s.tokens, secret))
    case Challenge(_) => s
    case Spend(secret) =>
      s.(tokens := Redeem(s.tokens, secret, s.now),
         redeemed := if Usable(s.tokens, secret, s.now) then s.redeemed + [Redemption(secret, s.now)] else s.redeemed)
    case Register(k) => s.(registered := s.registered + {k})
  }

  /** `steps` is an interleaving that can happen from `s`. */
  predicate Runs(s: State, steps: seq<Step>)
    decreases steps
  {
    steps == [] || (Enabled(s, steps[0]) && Runs(Apply(s, steps[0]), steps[1..]))
  }

  function After(s: State, steps: seq<Step>): State
    requires Runs(s, steps)
    decreases steps
  {
    if steps == [] then s else After(Apply(s, steps[0]), steps[1..])
  }

  // ----- What every interleaving keeps ----------------------------------------

  predicate DeliveredOnce(d: seq<Delivery>) {
    forall i, j | 0 <= i < j < |d| :: d[i].request != d[j].request
  }

  predicate GrantParked(s: State, id: string)
    requires id in s.requests
  {
    s.requests[id].grant.Some? ==>
      && id in s.parked && s.parked[id] == s.requests[id].grant.value
      && forall i | 0 <= i < |s.delivered| :: s.delivered[i].request != id
  }

  /** Requests: a grant exists only as the parked one, before its delivery. */
  predicate RequestsOk(s: State) {
    && (forall id | id in s.requests && s.requests[id].status == Pending :: id !in s.parked)
    && (forall id | id in s.requests :: GrantParked(s, id))
    && (forall id | id in s.requests :: s.requests[id].expiresAt == s.requests[id].createdAt + REQUEST_TTL)
  }

  /** A parked grant is that request's own single-use token, expiring inside the quarter hour. */
  predicate ParkedOk(s: State, id: string)
    requires id in s.parked
  {
    && id in s.requests && s.requests[id].status == Approved
    && s.parked[id] in s.mintedFor && s.mintedFor[s.parked[id]] == id
    && s.parked[id] in s.tokens && s.tokens[s.parked[id]].expiresAt < s.requests[id].createdAt + 15 * MINUTE
  }

  predicate TokensOk(s: State) {
    && (forall x | x in s.mintedFor :: x in s.tokens && s.tokens[x].maxUses == 1 && s.tokens[x].expiresAt <= s.now + GRANT_TTL)
    && (forall id | id in s.parked :: ParkedOk(s, id))
  }

  predicate ProcessOk(s: State, p: Process) {
    && (p.Minted? ==> p.secret in s.mintedFor && s.mintedFor[p.secret] == p.request)
    && (p.Collecting? ==> p.request in s.parked && s.parked[p.request] == p.grant)
  }

  predicate ProcessesOk(s: State) {
    forall k | k in s.processes :: ProcessOk(s, s.processes[k])
  }

  predicate DeliveriesOk(s: State) {
    && DeliveredOnce(s.delivered)
    && forall i | 0 <= i < |s.delivered| ::
         s.delivered[i].request in s.parked && s.parked[s.delivered[i].request] == s.delivered[i].secret
  }

  function Uses(r: seq<Redemption>, secret: string): nat {
    if r == [] then 0 else Uses(r[..|r| - 1], secret) + if r[|r| - 1].secret == secret then 1 else 0
  }

  predicate RedemptionOk(s: State, r: Redemption) {
    && r.secret in s.tokens && r.at < s.tokens[r.secret].expiresAt
    && (r.secret in s.mintedFor ==> s.mintedFor[r.secret] in s.parked && s.parked[s.mintedFor[r.secret]] == r.secret)
  }

  predicate RedemptionsOk(s: State) {
    && (forall i | 0 <= i < |s.redeemed| :: RedemptionOk(s, s.redeemed[i]))
    && (forall x | x in s.tokens :: Uses(s.redeemed, x) == s.tokens[x].used)
    && (forall x | x in s.mintedFor && x in s.tokens :: s.tokens[x].used <= 1)
    && (forall k | k in s.registered :: k < |s.redeemed|)
  }

  predicate Inv(s: State) {
    RequestsOk(s) && TokensOk(s) && ProcessesOk(s) && DeliveriesOk(s) && RedemptionsOk(s)
  }

  /** Steps other than parking, taking and spending: grants, decisions and counts stay, new rows are blank. */
  predicate Quiet(s: State, t: State) {
    && t.parked == s.parked && t.delivered == s.delivered && t.redeemed == s.redeemed
    && (forall id | id in s.requests :: id in t.requests && SameGrant(s.requests[id], t.requests[id]))
    && (forall id | id in t.requests && id !in s.requests ::
          t.requests[id].grant == None && t.requests[id].expiresAt == t.requests[id].createdAt + REQUEST_TTL)
    && (forall x | x in s.tokens :: x in t.tokens && SameToken(s.tokens[x], t.tokens[x]))
    && (forall x | x in t.tokens && x !in s.tokens :: t.tokens[x].used == 0)
    && (forall x | x in s.mintedFor :: x in t.mintedFor && t.mintedFor[x] == s.mintedFor[x])
  }

  predicate SameGrant(r: Request, q: Request) {
    && q.grant == r.grant && q.createdAt == r.createdAt && q.expiresAt == r.expiresAt
    && (q.status == r.status || (r.status == Pending && q.status == Rejected))
  }

  predicate SameToken(x: Token, y: Token) {
    y.maxUses == x.maxUses && y.used == x.used && y.expiresAt == x.expiresAt
  }

  predicate IsQuiet(step: Step) {
    !step.Park? && !step.TakeIt? && !step.Spend?
  }

  lemma QuietStep(s: State, step: Step)
    requires Enabled(s, step) && IsQuiet(step) && forall x | x in s.mintedFor :: x in s.tokens
    ensures Quiet(s, Apply(s, step))
  {
  }

  lemma GrantKeptQuietly(s: State, t: State, id: string)
    requires RequestsOk(s) && Quiet(s, t) && id in t.requests
    ensures GrantParked(t, id)
  {
    if id in s.requests {
      assert GrantParked(s, id) && SameGrant(s.requests[id], t.requests[id]);
    }
  }

  lemma GrantKeptByPark(s: State, proc: nat, id: string)
    requires RequestsOk(s) && DeliveriesOk(s) && Enabled(s, Park(proc)) && id in Apply(s, Park(proc)).requests
    ensures GrantParked(Apply(s, Park(proc)), id)
  {
    assert id in s.requests && GrantParked(s, id);
  }

  lemma GrantKeptByTake(s: State, proc: nat, id: string)
    requires RequestsOk(s) && Enabled(s, TakeIt(proc)) && id in Apply(s, TakeIt(proc)).requests
    ensures GrantParked(Apply(s, TakeIt(proc)), id)
  {
    assert id in s.requests && GrantParked(s, id);
  }

  lemma GrantKept(s: State, step: Step, id: string)
    requires RequestsOk(s) && DeliveriesOk(s) && TokensOk(s) && Enabled(s, step) && id in Apply(s, step).requests
    ensures GrantParked(Apply(s, step), id)
  {
    if IsQuiet(step) {
      QuietStep(s, step);
      GrantKeptQuietly(s, Apply(s, step), id);
    } else if step.Park? {
      GrantKeptByPark(s, step.proc, id);
    } else if step.TakeIt? {
      GrantKeptByTake(s, step.proc, id);
    } else {
      assert GrantParked(s, id);
    }
  }

  lemma RequestsKept(s: State, step: Step)
    requires Inv(s) && Enabled(s, step)
    ensures RequestsOk(Apply(s, step))
  {
    var t := Apply(s, step);
    forall id | id in t.requests ensures GrantParked(t, id) {
      GrantKept(s, step, id);
    }
    PendingUnparked(s, step);
  }

  /** No pending request has a parked grant, and every request lives its ten minutes. */
  predicate PendingOk(s: State) {
    && (forall id | id in s.requests && s.requests[id].status == Pending :: id !in s.parked)
    && (forall id | id in s.requests :: s.requests[id].expiresAt == s.requests[id].createdAt + REQUEST_TTL)
  }

  lemma PendingQuietly(s: State, t: State)
    requires PendingOk(s) && Quiet(s, t) && forall id | id in s.parked :: id in s.requests
    ensures PendingOk(t)
  {
    forall id | id in t.requests && t.requests[id].status == Pending ensures id !in t.parked {
      assert id in s.requests ==> SameGrant(s.requests[id], t.requests[id]);
    }
    forall id | id in t.requests ensures t.requests[id].expiresAt == t.requests[id].createdAt + REQUEST_TTL {
      assert id in s.requests ==> SameGrant(s.requests[id], t.requests[id]);
    }
  }

  lemma PendingUnparked(s: State, step: Step)
    requires RequestsOk(s) && TokensOk(s) && Enabled(s, step)
    ensures PendingOk(Apply(s, step))
  {
    assert forall id | id in s.parked :: ParkedOk(s, id);
    if IsQuiet(step) {
      QuietStep(s, step);
      PendingQuietly(s, Apply(s, step));
    }
  }

  lemma ParkedQuietly(s: State, t: State, id: string)
    requires TokensOk(s) && Quiet(s, t) && id in t.parked
    ensures ParkedOk(t, id)
  {
    assert ParkedOk(s, id);
    assert SameGrant(s.requests[id], t.requests[id]) && SameToken(s.tokens[s.parked[id]], t.tokens[t.parked[id]]);
  }

  lemma ParkedByPark(s: State, proc: nat, id: string)
    requires TokensOk(s) && ProcessesOk(s) && RequestsOk(s) && Enabled(s, Park(proc)) && id in Apply(s, Park(proc)).parked
    ensures ParkedOk(Apply(s, Park(proc)), id)
  {
    if id in s.parked {
      assert ParkedOk(s, id);
    }
    assert ProcessOk(s, At(s, proc));
  }

  lemma ParkedKept(s: State, step: Step, id: string)
    requires TokensOk(s) && ProcessesOk(s) && RequestsOk(s) && Enabled(s, step) && id in Apply(s, step).parked
    ensures ParkedOk(Apply(s, step), id)
  {
    if IsQuiet(step) {
      QuietStep(s, step);
      ParkedQuietly(s, Apply(s, step), id);
    } else if step.Park? {
      ParkedByPark(s, step.proc, id);
    } else {
      assert ParkedOk(s, id);
    }
  }

  lemma TokensKept(s: State, step: Step)
    requires Inv(s) && Enabled(s, step)
    ensures TokensOk(Apply(s, step))
  {
    var t := Apply(s, step);
    forall id | id in t.parked ensures ParkedOk(t, id) {
      ParkedKept(s, step, id);
    }
    forall x | x in t.mintedFor
      ensures x in t.tokens && t.tokens[x].maxUses == 1 && t.tokens[x].expiresAt <= t.now + GRANT_TTL
    {
    }
  }

  lemma ProcessesKept(s: State, step: Step)
    requires ProcessesOk(s) && RequestsOk(s) && TokensOk(s) && Enabled(s, step)
    ensures ProcessesOk(Apply(s, step))
  {
    var t := Apply(s, step);
    forall k | k in t.processes ensures ProcessOk(t, t.processes[k]) {
      if k in s.processes {
        assert ProcessOk(s, s.processes[k]);
      }
      if step.ReadGrant? {
        assert GrantParked(s, step.id);
      }
    }
  }

  lemma DeliveriesKept(s: State, step: Step)
    requires DeliveriesOk(s) && ProcessesOk(s) && RequestsOk(s) && Enabled(s, step)
    ensures DeliveriesOk(Apply(s, step))
  {
    if step.TakeIt? {
      assert ProcessOk(s, At(s, step.proc));
      if Holds(s.requests, At(s, step.proc).request, At(s, step.proc).grant) {
        assert GrantParked(s, At(s, step.proc).request);
      }
    }
  }

  lemma {:induction false} UsesOf(r: seq<Redemption>, secret: string)
    ensures Uses(r, secret) == 0 <==> forall i | 0 <= i < |r| :: r[i].secret != secret
  {
    if r != [] {
      UsesOf(r[..|r| - 1], secret);
      assert r == r[..|r| - 1] + [r[|r| - 1]];
    }
  }

  lemma RedemptionKept(s: State, step: Step, i: nat)
    requires RedemptionsOk(s) && DeliveriesOk(s) && TokensOk(s) && Enabled(s, step) && i < |Apply(s, step).redeemed|
    ensures RedemptionOk(Apply(s, step), Apply(s, step).redeemed[i])
  {
    if i < |s.redeemed| {
      assert RedemptionOk(s, s.redeemed[i]);
    }
  }

  lemma OneMoreUse(r: seq<Redemption>, e: Redemption, x: string)
    ensures Uses(r + [e], x) == Uses(r, x) + if e.secret == x then 1 else 0
  {
    assert (r + [e])[..|r|] == r;
  }

  lemma UnknownUnused(s: State, x: string)
    requires RedemptionsOk(s) && x !in s.tokens
    ensures Uses(s.redeemed, x) == 0
  {
    forall i | 0 <= i < |s.redeemed| ensures s.redeemed[i].secret != x {
      assert RedemptionOk(s, s.redeemed[i]);
    }
    UsesOf(s.redeemed, x);
  }

  lemma UsesQuietly(s: State, t: State, x: string)
    requires RedemptionsOk(s) && Quiet(s, t) && x in t.tokens
    ensures Uses(t.redeemed, x) == t.tokens[x].used
  {
    if x in s.tokens {
      assert SameToken(s.tokens[x], t.tokens[x]);
    } else {
      UnknownUnused(s, x);
    }
  }

  lemma UsesSpent(s: State, secret: string, x: string)
    requires RedemptionsOk(s) && Enabled(s, Spend(secret)) && x in Apply(s, Spend(secret)).tokens
    ensures Uses(Apply(s, Spend(secret)).redeemed, x) == Apply(s, Spend(secret)).tokens[x].used
  {
    OneMoreUse(s.redeemed, Redemption(secret, s.now), x);
  }

  lemma UsesKept(s: State, step: Step, x: string)
    requires RedemptionsOk(s) && TokensOk(s) && Enabled(s, step) && x in Apply(s, step).tokens
    ensures Uses(Apply(s, step).redeemed, x) == Apply(s, step).tokens[x].used
  {
    if IsQuiet(step) {
      QuietStep(s, step);
      UsesQuietly(s, Apply(s, step), x);
    } else if step.Spend? {
      UsesSpent(s, step.secret, x);
    }
  }

  lemma RedemptionsKept(s: State, step: Step)
    requires Inv(s) && Enabled(s, step)
    ensures RedemptionsOk(Apply(s, step))
  {
    var t := Apply(s, step);
    forall i: nat | i < |t.redeemed| ensures RedemptionOk(t, t.redeemed[i]) {
      RedemptionKept(s, step, i);
    }
    forall x | x in t.tokens ensures Uses(t.redeemed, x) == t.tokens[x].used {
      UsesKept(s, step, x);
    }
    UsedAtMostOnce(s, step);
  }

  lemma UsedAtMostOnce(s: State, step: Step)
    requires RedemptionsOk(s) && TokensOk(s) && Enabled(s, step)
    ensures var t := Apply(s, step);
            && (forall x | x in t.mintedFor && x in t.tokens :: t.tokens[x].used <= 1)
            && (forall k | k in t.registered :: k < |t.redeemed|)
  {
  }

  lemma StepKeeps(s: State, step: Step)
    requires Inv(s) && Enabled(s, step)
    ensures Inv(Apply(s, step))
  {
    RequestsKept(s, step);
    TokensKept(s, step);
    ProcessesKept(s, step);
    DeliveriesKept(s, step);
    RedemptionsKept(s, step);
  }

  lemma {:induction false} RunKeeps(s: State, steps: seq<Step>)
    requires Inv(s) && Runs(s, steps)
    ensures Inv(After(s, steps))
    decreases steps
  {
    if steps != [] {
      StepKeeps(s, steps[0]);
      RunKeeps(Apply(s, steps[0]), steps[1..]);
    }
  }

  // ----- Main results -----------------------------------------------------------

  lemma {:induction false} UsedTwice(r: seq<Redemption>, secret: string, i: nat, j: nat)
    requires i < j < |r| && r[i].secret == r[j].secret == secret
    ensures 2 <= Uses(r, secret)
  {
    var init := r[..|r| - 1];
    if j < |r| - 1 {
      assert init[i] == r[i] && init[j] == r[j];
      UsedTwice(init, secret, i, j);
    } else {
      UsesOf(init, secret);
      assert init[i] == r[i];
    }
  }

  /**
   * Over every interleaving: a request has at most one grant delivered, always
   * the winning approver's; at most one redemption, hence at most one successful
   * registration, uses a token minted for it; and that happens strictly within
   * fifteen minutes of the request's creation.
   */
  lemma OneRequestOneRegistration(steps: seq<Step>)
    requires Runs(Initial, steps)
    ensures var s := After(Initial, steps);
            && DeliveredOnce(s.delivered)
            && (forall i | 0 <= i < |s.delivered| ::
                  s.delivered[i].request in s.parked && s.parked[s.delivered[i].request] == s.delivered[i].secret)
            && (forall i, j | 0 <= i < j < |s.redeemed| ::
                  s.redeemed[i].secret in s.mintedFor && s.redeemed[j].secret in s.mintedFor ==>
                    s.mintedFor[s.redeemed[i].secret] != s.mintedFor[s.redeemed[j].secret])
            && (forall i | 0 <= i < |s.redeemed| && s.redeemed[i].secret in s.mintedFor ::
                  s.mintedFor[s.redeemed[i].secret] in s.requests &&
                  s.redeemed[i].at < s.requests[s.mintedFor[s.redeemed[i].secret]].createdAt + 15 * MINUTE)
            && (forall k | k in s.registered :: k < |s.redeemed|)
  {
    RunKeeps(Initial, steps);
    var s := After(Initial, steps);
    forall i, j | 0 <= i < j < |s.redeemed| && s.redeemed[i].secret in s.mintedFor && s.redeemed[j].secret in s.mintedFor
      ensures s.mintedFor[s.redeemed[i].secret] != s.mintedFor[s.redeemed[j].secret]
    {
      assert RedemptionOk(s, s.redeemed[i]) && RedemptionOk(s, s.redeemed[j]);
      if s.redeemed[i].secret == s.redeemed[j].secret {
        UsedTwice(s.redeemed, s.redeemed[i].secret, i, j);
      }
    }
    forall i | 0 <= i < |s.redeemed| && s.redeemed[i].secret in s.mintedFor
      ensures s.mintedFor[s.redeemed[i].secret] in s.requests
      ensures s.redeemed[i].at < s.requests[s.mintedFor[s.redeemed[i].secret]].createdAt + 15 * MINUTE
    {
      assert RedemptionOk(s, s.redeemed[i]);
      assert ParkedOk(s, s.mintedFor[s.redeemed[i].secret]);
    }
  }

  /** A secret minted by an approver who lost the race is never delivered and never redeemed. */
  lemma LosingTokensStayInside(steps: seq<Step>, secret: string)
    requires Runs(Initial, steps)
    requires var s := After(Initial, steps);
             secret in s.mintedFor && !(s.mintedFor[secret] in s.parked && s.parked[s.mintedFor[secret]] == secret)
    ensures var s := After(Initial, steps);
            !Known(s, secret) && forall i | 0 <= i < |s.redeemed| :: s.redeemed[i].secret != secret
  {
    RunKeeps(Initial, steps);
    var s := After(Initial, steps);
    forall i | 0 <= i < |s.delivered| ensures s.delivered[i].secret != secret {
      var id := s.delivered[i].request;
      assert ParkedOk(s, id);
    }
    forall i | 0 <= i < |s.redeemed| ensures s.redeemed[i].secret != secret {
      assert RedemptionOk(s, s.redeemed[i]);
    }
  }

  lemma DecisionStands(s: State, step: Step, id: string)
    requires Enabled(s, step) && id in s.requests && s.requests[id].status != Pending
    ensures var t := Apply(s, step);
            && id in t.requests && t.requests[id].status == s.requests[id].status
            && (id in s.parked ==> id in t.parked && t.parked[id] == s.parked[id])
  {
  }

  /** A decided request stays decided the same way for ever, and keeps the grant it was given. */
  lemma {:induction false} DecisionIsFinal(s: State, steps: seq<Step>, id: string)
    requires Inv(s) && Runs(s, steps) && id in s.requests && s.requests[id].status != Pending
    ensures id in After(s, steps).requests && After(s, steps).requests[id].status == s.requests[id].status
    ensures id in s.parked ==> id in After(s, steps).parked && After(s, steps).parked[id] == s.parked[id]
    decreases steps
  {
    if steps != [] {
      StepKeeps(s, steps[0]);
      DecisionStands(s, steps[0], id);
      DecisionIsFinal(Apply(s, steps[0]), steps[1..], id);
    }
  }

  // ----- What a revocation stops ------------------------------------------------------

  lemma RevokedStep(s: State, step: Step, secret: string)
    requires Enabled(s, step) && secret in s.tokens && s.tokens[secret].revoked
    ensures var t := Apply(s, step);
            && secret in t.tokens && t.tokens[secret].revoked && |s.redeemed| <= |t.redeemed|
            && (forall i | 0 <= i < |s.redeemed| :: t.redeemed[i] == s.redeemed[i])
            && (forall i | |s.redeemed| <= i < |t.redeemed| :: t.redeemed[i].secret != secret)
  {
  }

  /** A revoked token is never redeemed again. */
  lemma {:induction false} RevokedRun(s: State, steps: seq<Step>, secret: string)
    requires Runs(s, steps) && secret in s.tokens && s.tokens[secret].revoked
    ensures var t := After(s, steps);
            && |s.redeemed| <= |t.redeemed| && (forall i | 0 <= i < |s.redeemed| :: t.redeemed[i] == s.redeemed[i])
            && (forall i | |s.redeemed| <= i < |t.redeemed| :: t.redeemed[i].secret != secret)
    decreases steps
  {
    if steps != [] {
      RevokedStep(s, steps[0], secret);
      RevokedRun(Apply(s, steps[0]), steps[1..], secret);
    }
  }

  /** Revoking a stored token at the console changes that token alone, and from then on nothing anybody
      does redeems it. */
  lemma RevocationStops(s: State, secret: string, steps: seq<Step>)
    requires secret in s.tokens && Runs(Apply(s, Revoke(secret)), steps)
    ensures var t := Apply(s, Revoke(secret));
            && t.redeemed == s.redeemed && t.tokens.Keys == s.tokens.Keys
            && (forall x | x in s.tokens && x != secret :: t.tokens[x] == s.tokens[x])
    ensures var u := After(Apply(s, Revoke(secret)), steps);
            && |s.redeemed| <= |u.redeemed| && forall i | |s.redeemed| <= i < |u.redeemed| :: u.redeemed[i].secret != secret
  {
    RevokedRun(Apply(s, Revoke(secret)), steps, secret);
  }

  // ----- The remaining steps, in columns --------------------------------------------------

  /** Time passes and nothing else does. */
  lemma TimePasses(s: State, micros: nat)
    ensures Enabled(s, Tick(micros)) && var t := Apply(s, Tick(micros)); t.now == s.now + micros && t == s.(now := t.now)
  {
  }

  /** A console token is stored as asked for, is known, and can be redeemed until it expires. */
  lemma ConsoleTokenAdmits(s: State, secret: string, maxUses: nat, ttl: nat)
    requires secret !in s.tokens && secret !in s.mintedFor
    ensures Enabled(s, ConsoleToken(secret, maxUses, ttl))
    ensures var t := Apply(s, ConsoleToken(secret, maxUses, ttl));
            && OneRow(s.tokens, t.tokens, secret, Token(maxUses, 0, s.now + ttl, false)) && t == s.(tokens := t.tokens)
            && Known(t, secret) && (0 < ttl <==> CanRedeem(t.tokens, secret, t.now))
  {
  }

  /** Rejecting decides a pending request and touches no other. */
  lemma RejectionDecides(s: State, id: string)
    ensures Enabled(s, RejectRequest(id))
    ensures var t := Apply(s, RejectRequest(id));
            && t == s.(requests := t.requests)
            && (if id in s.requests && s.requests[id].status == Pending
                then OneRow(s.requests, t.requests, id, s.requests[id].(status := Rejected)) else t.requests == s.requests)
  {
  }

  /** Approvers start on live pending requests only, and polls read approved requests' parked grants only. */
  lemma LooksAreGuarded(s: State, proc: nat, id: string)
    ensures Enabled(s, ReadPending(proc, id)) ==>
              id in s.requests && s.requests[id].status == Pending && s.now < s.requests[id].expiresAt
    ensures Enabled(s, ReadGrant(proc, id)) ==>
              id in s.requests && s.requests[id].status == Approved && s.requests[id].grant.Some?
  {
  }

  // ----- What the protocol is for -----------------------------------------------------

  lemma {:induction false} RunsThen(s: State, a: seq<Step>, b: seq<Step>)
    requires Runs(s, a) && Runs(After(s, a), b)
    ensures Runs(s, a + b) && After(s, a + b) == After(After(s, a), b)
    decreases a
  {
    if a == [] {
      assert a + b == b;
    } else {
      assert (a + b)[0] == a[0] && (a + b)[1..] == a[1..] + b;
      RunsThen(Apply(s, a[0]), a[1..], b);
    }
  }

  lemma TwoSteps(s: State, x: Step, y: Step)
    requires Enabled(s, x) && Enabled(Apply(s, x), y)
    ensures Runs(s, [x, y]) && After(s, [x, y]) == Apply(Apply(s, x), y)
  {
    OneStepFirst(Apply(s, x), y, []);
    OneStepFirst(s, x, [y] + []);
    assert [x, y] == [x] + ([y] + []);
  }

  lemma ApproverMints(s: State, proc: nat, id: string, secret: string)
    requires At(s, proc).Idle? && id in s.requests && IsPending(s.requests[id], s.now) && secret !in s.tokens
    ensures var steps := [ReadPending(proc, id), Mint(proc, secret)];
            && Runs(s, steps)
            && var t := After(s, steps);
               && t == s.(processes := t.processes, tokens := t.tokens, mintedFor := t.mintedFor)
               && At(t, proc) == Minted(id, secret) && Usable(t.tokens, secret, s.now) && t.tokens[secret].maxUses == 1
               && t.tokens[secret].used == 0
  {
    TwoSteps(s, ReadPending(proc, id), Mint(proc, secret));
  }

  lemma ApproverParks(s: State, proc: nat, id: string, secret: string)
    requires At(s, proc) == Minted(id, secret) && id in s.requests && IsPending(s.requests[id], s.now)
    ensures var steps := [Park(proc), ReadGrant(proc, id)];
            && Runs(s, steps)
            && var t := After(s, steps);
               && t == s.(processes := t.processes, requests := t.requests, parked := t.parked)
               && At(t, proc) == Collecting(id, secret)
               && t.requests == s.requests[id := s.requests[id].(status := Approved, grant := Some(secret))]
  {
    TwoSteps(s, Park(proc), ReadGrant(proc, id));
  }

  lemma PhoneTakes(s: State, proc: nat, id: string, secret: string)
    requires At(s, proc) == Collecting(id, secret) && id in s.requests && s.requests[id].grant == Some(secret)
    ensures Runs(s, [TakeIt(proc)])
    ensures var t := After(s, [TakeIt(proc)]);
            && t.delivered == s.delivered + [Delivery(id, secret)] && t.redeemed == s.redeemed && At(t, proc).Idle?
            && t.requests == s.requests[id := s.requests[id].(grant := None)] && t.tokens == s.tokens && t.now == s.now
  {
    OneStepFirst(s, TakeIt(proc), []);
    assert [TakeIt(proc)] == [TakeIt(proc)] + [];
  }

  lemma DeliveredGrantRedeems(s: State, secret: string)
    requires s.delivered != [] && s.delivered[|s.delivered| - 1].secret == secret
    requires Usable(s.tokens, secret, s.now) && s.tokens[secret].maxUses == 1 && s.tokens[secret].used == 0
    ensures Redeems(s, secret)
  {
  }

  /** A pending request, one approver and the phone, undisturbed: the approver's grant is delivered,
      and it registers the phone. */
  lemma UndisturbedEnrolment(s: State, proc: nat, id: string, secret: string)
    requires At(s, proc).Idle? && id in s.requests && IsPending(s.requests[id], s.now) && secret !in s.tokens
    ensures var steps := [ReadPending(proc, id), Mint(proc, secret)] + ([Park(proc), ReadGrant(proc, id)] + [TakeIt(proc)]);
            && Runs(s, steps)
            && var t := After(s, steps);
               && t.delivered == s.delivered + [Delivery(id, secret)] && t.redeemed == s.redeemed && At(t, proc).Idle?
               && t.requests == s.requests[id := s.requests[id].(status := Approved, grant := None)]
               && Redeems(t, secret)
  {
    var a, b, c := [ReadPending(proc, id), Mint(proc, secret)], [Park(proc), ReadGrant(proc, id)], [TakeIt(proc)];
    ApproverMints(s, proc, id, secret);
    var t := After(s, a);
    ApproverParks(t, proc, id, secret);
    var u := After(t, b);
    PhoneTakes(u, proc, id, secret);
    DeliveredGrantRedeems(After(u, c), secret);
    RunsThen(t, b, c);
    RunsThen(s, a, b + c);
  }

  /** The challenge passes and the registration that follows spends the secret and succeeds. */
  predicate Redeems(s: State, secret: string) {
    && Enabled(s, Challenge(secret)) && Apply(s, Challenge(secret)) == s && Enabled(s, Spend(secret))
    && var t := Apply(s, Spend(secret));
       && t.redeemed == s.redeemed + [Redemption(secret, s.now)] && !Usable(t.tokens, secret, s.now)
       && Enabled(t, Register(|s.redeemed|)) && |s.redeemed| in Apply(t, Register(|s.redeemed|)).registered
  }

  // ----- One pending request per install ------------------------------------------

  predicate OnePending(rs: map<string, Request>) {
    forall a, b | a in rs && b in rs && rs[a].status == Pending && rs[b].status == Pending
                  && rs[a].install == rs[b].install :: a == b
  }

  lemma OneStepFirst(s: State, step: Step, rest: seq<Step>)
    requires Enabled(s, step) && Runs(Apply(s, step), rest)
    ensures Runs(s, [step] + rest) && After(s, [step] + rest) == After(Apply(s, step), rest)
  {
    assert ([step] + rest)[0] == step && ([step] + rest)[1..] == rest;
  }

  /** Creation is two statements; interleaved with another one it leaves two pending requests. */
  lemma TwoCreationsCanBothStayPending()
    ensures exists steps :: Runs(Initial, steps) && !OnePending(After(Initial, steps).requests)
  {
    var a, b, c, d := BeginCreate(1, "phone"), BeginCreate(2, "phone"), FinishCreate(1, "a"), FinishCreate(2, "b");
    var s1 := Apply(Initial, a);
    var s2 := Apply(s1, b);
    var s3 := Apply(s2, c);
    var s4 := Apply(s3, d);
    OneStepFirst(s3, d, []);
    OneStepFirst(s2, c, [d] + []);
    OneStepFirst(s1, b, [c] + ([d] + []));
    OneStepFirst(Initial, a, [b] + ([c] + ([d] + [])));
    assert s4.requests["a"].status == Pending && s4.requests["b"].status == Pending;
  }

  /** No step but the insert can break the rule, and the insert breaks it exactly when a pending one is there. */
  lemma OnlyTheInsertCanBreakOnePending(s: State, step: Step)
    requires Enabled(s, step) && OnePending(s.requests)
    ensures OnePending(Apply(s, step).requests) <==>
            (step.FinishCreate? ==> forall r | r in s.requests && s.requests[r].status == Pending ::
                                      s.requests[r].install != At(s, step.proc).install)
  {
    var t := Apply(s, step);
    if step.FinishCreate? {
      assert t.requests[step.id].status == Pending;
      if r :| r in s.requests && s.requests[r].status == Pending && s.requests[r].install == At(s, step.proc).install {
        assert t.requests[r] == s.requests[r];
        assert r != step.id;
      }
    }
  }

  /** Undisturbed, the two statements together keep one pending request per install. */
  lemma UndisturbedCreationKeepsOnePending(s: State, proc: nat, install: string, id: string)
    requires OnePending(s.requests) && Enabled(s, BeginCreate(proc, install)) && id !in s.requests
    ensures var mid := Apply(s, BeginCreate(proc, install));
            Enabled(mid, FinishCreate(proc, id)) && OnePending(Apply(mid, FinishCreate(proc, id)).requests)
  {
    var mid := Apply(s, BeginCreate(proc, install));
    OnlyTheInsertCanBreakOnePending(s, BeginCreate(proc, install));
    OnlyTheInsertCanBreakOnePending(mid, FinishCreate(proc, id));
  }
}
