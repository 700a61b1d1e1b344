/** What holds over every run of the distribution-point store, whatever the
    transactions and their order. */
module DistributionRuns {
  import opened Basics
  import opened DistributionPoints

  /** A transaction and PostgreSQL's time when it ran. */
  datatype Event = Event(time: int, op: Operation)

  /** A run: every event with its outcome, and the tables before and after it. */
  datatype Trace = Trace(events: seq<Event>, states: seq<Tables>, outcomes: seq<Outcome>)

  ghost predicate WellShaped(t: Trace) {
    |t.states| == |t.events| + 1 && |t.outcomes| == |t.events|
  }

  ghost predicate StepAt(t: Trace, i: nat)
    requires WellShaped(t) && i < |t.events|
  {
    (t.states[i + 1], t.outcomes[i]) == Apply(t.states[i], t.events[i].time, t.events[i].op)
  }

  ghost predicate Run(t: Trace) {
    WellShaped(t) && t.states[0] == EMPTY && forall i: nat :: i < |t.events| ==> StepAt(t, i)
  }

  /** Event i is an accepted claim of the point by the connection. */
  ghost predicate Claims(t: Trace, i: nat, id: Id, connection: string)
    requires WellShaped(t) && i < |t.events|
  {
    t.outcomes[i] == Done
    && t.events[i].op.Claim? && t.events[i].op.point == id && t.events[i].op.connection == connection
  }

  ghost predicate ClaimedBySome(t: Trace, i: nat, id: Id)
    requires WellShaped(t) && i < |t.events|
  {
    t.outcomes[i] == Done && t.events[i].op.Claim? && t.events[i].op.point == id
  }

  /** Event i claims or renews the point's session for the connection. */
  ghost predicate Extends(t: Trace, i: nat, id: Id, connection: string)
    requires WellShaped(t) && i < |t.events|
  {
    Claims(t, i, id, connection)
    || (t.outcomes[i] == Done && t.events[i].op == Renew(id, connection))
  }

  /** Event i is an accepted report about the point by the connection. */
  ghost predicate Records(t: Trace, i: nat, id: Id, connection: string)
    requires WellShaped(t) && i < |t.events|
  {
    t.outcomes[i] == Done
    && t.events[i].op.Record? && t.events[i].op.point == id && t.events[i].op.connection == connection
  }

  /** Event i is a write of the connection to the point: a claim, renewal or report
      that was accepted, or a release that ended its session. */
  ghost predicate Acts(t: Trace, i: nat, id: Id, connection: string)
    requires WellShaped(t) && i < |t.events|
  {
    Extends(t, i, id, connection) || Records(t, i, id, connection)
    || (t.events[i].op == Release(id, connection) && t.states[i + 1] != t.states[i])
  }

  // ------------------------------------------------------- what every state keeps

  ghost predicate PositionsConsistent(s: Tables) {
    PositionsDistinct(s.points) && PositionsNonNegative(s.points)
  }

  ghost predicate NamesConsistent(s: Tables) {
    (forall id :: id in s.points ==> id.number < s.nextID)
    && (forall a, b :: a in s.points && b in s.points && a != b ==>
          s.points[a].name != s.points[b].name && s.points[a].key != s.points[b].key)
  }

  ghost predicate WorkersConsistent(s: Tables) {
    (forall id :: id in s.points ==> id.number < s.nextID)
    && (forall id :: id in s.sessions ==> id in s.points && s.points[id].enabled)
    && (forall id :: id in s.rejections ==> id in s.points && s.points[id].enabled)
  }

  ghost predicate MirrorsConsistent(s: Tables) {
    forall at :: at in s.mirrors ==> at.0 in s.points && at.1 in s.installers
  }

  lemma CreateKeepsPoints(s: Tables, mutation: Mutation, key: string)
    requires NamesConsistent(s)
    ensures PositionsConsistent(s) ==> PositionsConsistent(Created(s, mutation, key).0)
    ensures NamesConsistent(Created(s, mutation, key).0)
  {
    CreateKeepsNames(s, mutation, key);
    CreateKeepsPositions(s, mutation, key);
  }

  lemma CreateKeepsPositions(s: Tables, mutation: Mutation, key: string)
    requires NamesConsistent(s)
    ensures PositionsConsistent(s) ==> PositionsConsistent(Created(s, mutation, key).0)
  {}

  lemma CreateKeepsNames(s: Tables, mutation: Mutation, key: string)
    requires NamesConsistent(s)
    ensures NamesConsistent(Created(s, mutation, key).0)
  {}

  lemma CreateKeepsWorkers(s: Tables, mutation: Mutation, key: string)
    requires NamesConsistent(s)
    ensures WorkersConsistent(s) ==> WorkersConsistent(Created(s, mutation, key).0)
    ensures MirrorsConsistent(s) ==> MirrorsConsistent(Created(s, mutation, key).0)
  {}

  lemma UpdateKeepsPoints(s: Tables, id: Id, mutation: Mutation)
    ensures PositionsConsistent(s) ==> PositionsConsistent(Updated(s, id, mutation).0)
    ensures NamesConsistent(s) ==> NamesConsistent(Updated(s, id, mutation).0)
  {}

  lemma UpdateKeepsWorkers(s: Tables, id: Id, mutation: Mutation)
    ensures WorkersConsistent(s) ==> WorkersConsistent(Updated(s, id, mutation).0)
    ensures MirrorsConsistent(s) ==> MirrorsConsistent(Updated(s, id, mutation).0)
  {}

  lemma DeleteKeepsPoints(s: Tables, id: Id)
    ensures PositionsConsistent(s) ==> PositionsConsistent(Deleted(s, id).0)
    ensures NamesConsistent(s) ==> NamesConsistent(Deleted(s, id).0)
  {}

  lemma DeleteKeepsWorkers(s: Tables, id: Id)
    ensures WorkersConsistent(s) ==> WorkersConsistent(Deleted(s, id).0)
    ensures MirrorsConsistent(s) ==> MirrorsConsistent(Deleted(s, id).0)
  {}

  lemma RotateKeepsPoints(s: Tables, id: Id, key: string)
    ensures PositionsConsistent(s) ==> PositionsConsistent(KeyRotated(s, id, key).0)
    ensures NamesConsistent(s) ==> NamesConsistent(KeyRotated(s, id, key).0)
  {}

  lemma RotateKeepsWorkers(s: Tables, id: Id, key: string)
    ensures WorkersConsistent(s) ==> WorkersConsistent(KeyRotated(s, id, key).0)
    ensures MirrorsConsistent(s) ==> MirrorsConsistent(KeyRotated(s, id, key).0)
  {}

  lemma ReorderKeepsPoints(s: Tables, ids: seq<Id>)
    ensures PositionsConsistent(s) ==> PositionsConsistent(Reordered(s, ids).0)
    ensures NamesConsistent(s) ==> NamesConsistent(Reordered(s, ids).0)
  {
    if s.points != map[] && IsPermutation(ids, s.points) {
      PermutationCovers(ids, s.points);
    }
  }

  lemma ReorderKeepsWorkers(s: Tables, ids: seq<Id>)
    ensures WorkersConsistent(s) ==> WorkersConsistent(Reordered(s, ids).0)
    ensures MirrorsConsistent(s) ==> MirrorsConsistent(Reordered(s, ids).0)
  {}

  lemma ClaimKeeps(s: Tables, now: int, id: Id, key: string, connection: string, worker: Worker)
    requires WorkersConsistent(s)
    ensures WorkersConsistent(Claimed(s, now, id, key, connection, worker).0)
    ensures WorkersConsistent(Observed(s, now, id, key, worker).0)
    ensures WorkersConsistent(Renewed(s, now, id, connection).0)
    ensures WorkersConsistent(Released(s, id, connection).0)
  {}

  lemma StepKeepsPositions(s: Tables, now: int, op: Operation)
    requires PositionsConsistent(s) && NamesConsistent(s)
    ensures PositionsConsistent(Apply(s, now, op).0)
    ensures NamesConsistent(Apply(s, now, op).0)
  {
    match op
    case Create(mutation, key) => CreateKeepsPoints(s, mutation, key);
    case Update(id, mutation) => UpdateKeepsPoints(s, id, mutation);
    case Delete(id) => DeleteKeepsPoints(s, id);
    case RotateKey(id, key) => RotateKeepsPoints(s, id, key);
    case Reorder(ids) => ReorderKeepsPoints(s, ids);
    case _ => assert Apply(s, now, op).0.points == s.points;
  }

  lemma StepKeepsWorkers(s: Tables, now: int, op: Operation)
    requires NamesConsistent(s) && WorkersConsistent(s)
    ensures WorkersConsistent(Apply(s, now, op).0)
  {
    match op
    case Create(mutation, key) => CreateKeepsWorkers(s, mutation, key);
    case Update(id, mutation) => UpdateKeepsWorkers(s, id, mutation);
    case Delete(id) => DeleteKeepsWorkers(s, id);
    case RotateKey(id, key) => RotateKeepsWorkers(s, id, key);
    case Reorder(ids) => ReorderKeepsWorkers(s, ids);
    case Claim(id, key, connection, worker) => ClaimKeeps(s, now, id, key, connection, worker);
    case Observe(id, key, worker) => ClaimKeeps(s, now, id, key, "", worker);
    case Renew(id, connection) => ClaimKeeps(s, now, id, "", connection, Worker(false, None, ""));
    case Release(id, connection) => ClaimKeeps(s, now, id, "", connection, Worker(false, None, ""));
    case _ =>
  }

  lemma StepKeepsMirrors(s: Tables, now: int, op: Operation)
    requires NamesConsistent(s) && MirrorsConsistent(s)
    ensures MirrorsConsistent(Apply(s, now, op).0)
  {
    match op
    case Create(mutation, key) => CreateKeepsWorkers(s, mutation, key);
    case Update(id, mutation) => UpdateKeepsWorkers(s, id, mutation);
    case Delete(id) => DeleteKeepsWorkers(s, id);
    case RotateKey(id, key) => RotateKeepsWorkers(s, id, key);
    case Reorder(ids) => ReorderKeepsWorkers(s, ids);
    case _ =>
  }

  /** In every reachable state positions are distinct and non-negative, names and
      keys are unique, only enabled points have a session or a rejection, and
      every mirror row belongs to an existing point and package. */
  lemma {:induction false} RunsStayConsistent(t: Trace, n: nat)
    requires Run(t) && n < |t.states|
    ensures PositionsConsistent(t.states[n]) && NamesConsistent(t.states[n])
    ensures WorkersConsistent(t.states[n]) && MirrorsConsistent(t.states[n])
  {
    if n > 0 {
      RunsStayConsistent(t, n - 1);
      var s, now, op := t.states[n - 1], t.events[n - 1].time, t.events[n - 1].op;
      assert StepAt(t, n - 1);
      StepKeepsPositions(s, now, op);
      StepKeepsWorkers(s, now, op);
      StepKeepsMirrors(s, now, op);
    }
  }

  // --------------------------------------------------------------------- sessions

  /** How a step may leave a session behind that it did not claim: the session was
      there before, for the same connection and key, and only its own renewal has
      moved its deadline. */
  ghost predicate CarriedOver(s: Tables, after: (Tables, Outcome), now: int, op: Operation, id: Id) {
    id in after.0.sessions ==>
      id in s.sessions && id in s.points && id in after.0.points
      && after.0.sessions[id].connection == s.sessions[id].connection
      && after.0.points[id].key == s.points[id].key
      && (after.0.sessions[id].expires == s.sessions[id].expires
          || (op == Renew(id, s.sessions[id].connection) && after.1 == Done
              && after.0.sessions[id].expires == now + SESSION_TTL))
  }

  lemma CreateAndUpdateCarryOver(s: Tables, now: int, op: Operation, id: Id)
    requires WorkersConsistent(s) && (op.Create? || op.Update?)
    ensures CarriedOver(s, Apply(s, now, op), now, op, id)
  {
    match op
    case Create(mutation, key) =>
    case _ =>
  }

  lemma AdministrationCarriesOver(s: Tables, now: int, op: Operation, id: Id)
    requires WorkersConsistent(s) && (op.Delete? || op.RotateKey? || op.Reorder?)
    ensures CarriedOver(s, Apply(s, now, op), now, op, id)
  {
    match op
    case Delete(at) =>
    case RotateKey(at, key) =>
    case _ =>
  }

  lemma WorkerCarriesOver(s: Tables, now: int, op: Operation, id: Id)
    requires WorkersConsistent(s)
    requires op.Claim? || op.Observe? || op.Renew? || op.Release? || op.Record?
    requires !(op.Claim? && op.point == id && Apply(s, now, op).1 == Done)
    ensures CarriedOver(s, Apply(s, now, op), now, op, id)
  {
    match op
    case Claim(at, key, connection, worker) =>
    case Observe(at, key, worker) =>
    case Renew(at, connection) =>
    case Release(at, connection) =>
    case _ =>
  }

  lemma SessionCarriesOver(t: Trace, i: nat, id: Id)
    requires Run(t) && i < |t.events| && !ClaimedBySome(t, i, id)
    ensures CarriedOver(t.states[i], (t.states[i + 1], t.outcomes[i]), t.events[i].time, t.events[i].op, id)
  {
    RunsStayConsistent(t, i);
    assert StepAt(t, i);
    var s, now, op := t.states[i], t.events[i].time, t.events[i].op;
    if op.Create? || op.Update? {
      CreateAndUpdateCarryOver(s, now, op, id);
    } else if op.Delete? || op.RotateKey? || op.Reorder? {
      AdministrationCarriesOver(s, now, op, id);
    } else if op.SetInstaller? || op.RemovePackage? {
    } else {
      WorkerCarriesOver(s, now, op, id);
    }
  }

  lemma ClaimStartsSession(t: Trace, i: nat, id: Id, connection: string)
    requires Run(t) && i < |t.events| && Claims(t, i, id, connection)
    ensures id in t.states[i + 1].sessions && t.states[i + 1].sessions[id].connection == connection
    ensures t.states[i + 1].sessions[id].expires == t.events[i].time + SESSION_TTL
    ensures id in t.states[i + 1].points && t.states[i + 1].points[id].key == t.events[i].op.key
  {
    assert StepAt(t, i);
  }

  /** Where a session came from: claim was the last claim of the point, made with
      the key the point has now, and the session has been this connection's ever
      since; extended is that claim or its last accepted renewal, and the session
      runs out one TTL after it. */
  ghost predicate Origin(t: Trace, n: nat, id: Id, claim: nat, extended: nat)
    requires WellShaped(t) && n < |t.states| && id in t.states[n].sessions
  {
    var session := t.states[n].sessions[id];
    claim <= extended < n
    && Claims(t, claim, id, session.connection)
    && id in t.states[n].points && t.events[claim].op.key == t.states[n].points[id].key
    && (forall k :: claim < k <= n ==>
          id in t.states[k].sessions && t.states[k].sessions[id].connection == session.connection)
    && Extends(t, extended, id, session.connection)
    && session.expires == t.events[extended].time + SESSION_TTL
  }

  /** Every session of a reachable state has such an origin and an enabled point. It
      was claimed with the point's current key, so no session outlives a rotation
      or a disable. */
  lemma {:induction false} SessionHasOrigin(t: Trace, n: nat, id: Id)
    requires Run(t) && n < |t.states| && id in t.states[n].sessions
    ensures id in t.states[n].points && t.states[n].points[id].enabled
    ensures exists claim: nat, extended: nat :: Origin(t, n, id, claim, extended)
  {
    RunsStayConsistent(t, n);
    assert n > 0;
    var session := t.states[n].sessions[id];
    if ClaimedBySome(t, n - 1, id) {
      ClaimStartsSession(t, n - 1, id, t.events[n - 1].op.connection);
      assert Origin(t, n, id, n - 1, n - 1);
    } else {
      SessionCarriesOver(t, n - 1, id);
      SessionHasOrigin(t, n - 1, id);
      var claim: nat, extended: nat :| Origin(t, n - 1, id, claim, extended);
      if session.expires == t.states[n - 1].sessions[id].expires {
        assert Origin(t, n, id, claim, extended);
      } else {
        assert Origin(t, n, id, claim, n - 1);
      }
    }
  }

  /** A session that is live at a time was claimed or renewed, by its own
      connection, less than one TTL before. */
  lemma LiveSessionIsRecent(t: Trace, n: nat, now: int, id: Id)
    requires Run(t) && n < |t.states| && Live(t.states[n], now, id)
    ensures exists i: nat :: i < n && now < t.events[i].time + SESSION_TTL
                             && Extends(t, i, id, t.states[n].sessions[id].connection)
  {
    SessionHasOrigin(t, n, id);
    var claim: nat, extended: nat :| Origin(t, n, id, claim, extended);
    assert Extends(t, extended, id, t.states[n].sessions[id].connection);
  }

  // ---------------------------------------------------------------------- fencing

  lemma {:induction false} FencedOut(t: Trace, i: nat, j: nat, id: Id, owner: string, stale: string)
    requires Run(t) && i < j < |t.states|
    requires Claims(t, i, id, owner) && owner != stale
    requires forall k: nat :: i < k < j ==> !Claims(t, k, id, stale)
    ensures id in t.states[j].sessions ==> t.states[j].sessions[id].connection != stale
  {
    if ClaimedBySome(t, j - 1, id) {
      ClaimStartsSession(t, j - 1, id, t.events[j - 1].op.connection);
      assert j - 1 > i ==> !Claims(t, j - 1, id, stale);
    } else {
      FencedOut(t, i, j - 1, id, owner, stale);
      SessionCarriesOver(t, j - 1, id);
    }
  }

  /** Once another connection has claimed a point, nothing a superseded connection
      does there has any effect until it claims the point again: renewals and
      reports are refused and a release removes nothing. */
  lemma SupersededConnectionIsFenced(t: Trace, i: nat, j: nat, id: Id, owner: string, stale: string)
    requires Run(t) && i < j < |t.events|
    requires Claims(t, i, id, owner) && owner != stale
    requires forall k: nat :: i < k < j ==> !Claims(t, k, id, stale)
    requires t.events[j].op == Renew(id, stale) || t.events[j].op == Release(id, stale)
             || (t.events[j].op.Record? && t.events[j].op.point == id && t.events[j].op.connection == stale)
    ensures t.states[j + 1] == t.states[j]
    ensures t.events[j].op.Release? || t.outcomes[j] == Failed(SessionInvalid)
  {
    FencedOut(t, i, j, id, owner, stale);
    assert StepAt(t, j);
  }

  /** A point without a live worker gets one back only through a new claim. */
  lemma {:induction false} OnlyAClaimRevives(t: Trace, i: nat, j: nat, now: int, id: Id)
    requires Run(t) && i <= j < |t.states|
    requires !Live(t.states[i], now, id) && Live(t.states[j], now, id)
    requires forall k :: i <= k < j ==> now <= t.events[k].time
    ensures exists k: nat :: i <= k < j && ClaimedBySome(t, k, id)
  {
    assert i < j;
    if !ClaimedBySome(t, j - 1, id) {
      SessionCarriesOver(t, j - 1, id);
      if t.events[j - 1].op.Renew? && t.events[j - 1].op.point == id {
        RenewNeedsLiveSession(t, j - 1, id);
      }
      OnlyAClaimRevives(t, i, j - 1, now, id);
    }
  }

  lemma RenewNeedsLiveSession(t: Trace, i: nat, id: Id)
    requires Run(t) && i < |t.events| && t.events[i].op.Renew? && t.events[i].op.point == id
    ensures if t.outcomes[i] == Done then Live(t.states[i], t.events[i].time, id)
            else t.states[i + 1] == t.states[i]
  {
    assert StepAt(t, i);
  }

  /** What a connection writes it writes under its own claim: the claim is this very
      write, or the session has been the connection's ever since. */
  ghost predicate ActsUnder(t: Trace, i: nat, id: Id, connection: string, claim: nat)
    requires WellShaped(t) && i < |t.events|
  {
    claim <= i && Claims(t, claim, id, connection)
    && forall k :: claim < k <= i ==> id in t.states[k].sessions && t.states[k].sessions[id].connection == connection
  }

  lemma ActorOwnsSession(t: Trace, i: nat, id: Id, connection: string)
    requires Run(t) && i < |t.events| && Acts(t, i, id, connection) && !Claims(t, i, id, connection)
    ensures id in t.states[i].sessions && t.states[i].sessions[id].connection == connection
  {
    assert StepAt(t, i);
  }

  lemma ActorHasClaim(t: Trace, i: nat, id: Id, connection: string) returns (claim: nat)
    requires Run(t) && i < |t.events| && Acts(t, i, id, connection)
    ensures ActsUnder(t, i, id, connection, claim)
  {
    claim := i;
    if !Claims(t, i, id, connection) {
      ActorOwnsSession(t, i, id, connection);
      SessionHasOrigin(t, i, id);
      var origin: nat, extended: nat :| Origin(t, i, id, origin, extended);
      claim := origin;
    }
  }

  /** When no connection claims a point twice, the writes of two connections never
      interleave: whoever writes between two writes of a connection is that
      connection. */
  lemma WritesDoNotInterleave(t: Trace, id: Id, a: nat, b: nat, c: nat, first: string, second: string)
    requires Run(t) && a < b < c < |t.events|
    requires forall i: nat, j: nat, connection ::
      i < j < |t.events| && Claims(t, i, id, connection) ==> !Claims(t, j, id, connection)
    requires Acts(t, a, id, first) && Acts(t, b, id, second) && Acts(t, c, id, first)
    ensures first == second
  {
    var claimA := ActorHasClaim(t, a, id, first);
    var claimC := ActorHasClaim(t, c, id, first);
    assert claimA == claimC;
    if Claims(t, b, id, second) {
      ClaimStartsSession(t, b, id, second);
      assert t.states[b + 1].sessions[id].connection == first;
    } else {
      ActorOwnsSession(t, b, id, second);
      assert t.states[b].sessions[id].connection == first;
    }
  }

  // ------------------------------------------------------------------ eligibility

  /** No accepted report about the package, and no change to its installer. */
  ghost predicate Quiet(t: Trace, i: nat, id: Id, package: Id)
    requires WellShaped(t) && i < |t.events|
  {
    (t.events[i].op.Record? && t.events[i].op.point == id && t.events[i].op.package == package ==>
       t.outcomes[i] != Done)
    && (t.events[i].op.SetInstaller? || t.events[i].op.RemovePackage? ==> t.events[i].op.package != package)
  }

  lemma QuietStep(t: Trace, i: nat, id: Id, package: Id)
    requires Run(t) && i < |t.events| && Quiet(t, i, id, package)
    ensures (id, package) in t.states[i + 1].mirrors ==>
      (id, package) in t.states[i].mirrors
      && t.states[i + 1].mirrors[(id, package)] == t.states[i].mirrors[(id, package)]
    ensures package in t.states[i].installers ==>
      package in t.states[i + 1].installers
      && t.states[i + 1].installers[package] == t.states[i].installers[package]
  {
    assert StepAt(t, i);
    match t.events[i].op
    case Delete(_) =>
    case RemovePackage(_) =>
    case SetInstaller(_, _) =>
    case Record(_, _, _, _) =>
    case _ =>
  }

  lemma {:induction false} QuietRun(t: Trace, i: nat, j: nat, id: Id, package: Id)
    requires Run(t) && i <= j < |t.states|
    requires forall k: nat :: i <= k < j ==> Quiet(t, k, id, package)
    ensures (id, package) in t.states[j].mirrors ==>
      (id, package) in t.states[i].mirrors
      && t.states[j].mirrors[(id, package)] == t.states[i].mirrors[(id, package)]
    ensures package in t.states[i].installers ==>
      package in t.states[j].installers
      && t.states[j].installers[package] == t.states[i].installers[package]
  {
    if i < j {
      QuietRun(t, i, j - 1, id, package);
      QuietStep(t, j - 1, id, package);
    }
  }

  /** Ids lie below the sequence, which never goes back, so a deleted point never
      returns. */
  lemma PointWasThere(t: Trace, i: nat, id: Id)
    requires Run(t) && i < |t.events|
    requires id.number < t.states[i].nextID && id in t.states[i + 1].points
    ensures id in t.states[i].points && t.states[i].nextID <= t.states[i + 1].nextID
  {
    assert StepAt(t, i);
    match t.events[i].op
    case Create(_, _) =>
    case Update(_, _) =>
    case _ =>
  }

  lemma SequenceGrows(t: Trace, i: nat)
    requires Run(t) && i < |t.events|
    ensures t.states[i].nextID <= t.states[i + 1].nextID
  {
    assert StepAt(t, i);
    match t.events[i].op
    case Create(_, _) =>
    case Update(_, _) =>
    case RotateKey(_, _) =>
    case Reorder(_) =>
    case _ =>
  }

  lemma {:induction false} PointWasThroughout(t: Trace, i: nat, j: nat, id: Id)
    requires Run(t) && i <= j < |t.states|
    requires id.number < t.states[i].nextID && id in t.states[j].points
    ensures forall k: nat :: i <= k <= j ==> id in t.states[k].points
    decreases j - i
  {
    if i < j {
      SequenceGrows(t, i);
      PointWasThroughout(t, i + 1, j, id);
      PointWasThere(t, i, id);
    }
  }

  lemma KeptStep(t: Trace, i: nat, id: Id, package: Id)
    requires Run(t) && i < |t.events| && Quiet(t, i, id, package)
    requires id in t.states[i + 1].points && (id, package) in t.states[i].mirrors
    ensures (id, package) in t.states[i + 1].mirrors
  {
    assert StepAt(t, i);
    match t.events[i].op
    case Delete(_) =>
    case RemovePackage(_) =>
    case Record(_, _, _, _) =>
    case _ =>
  }

  /** The converse of QuietRun: while its point exists, a mirror row stays. */
  lemma {:induction false} KeptRun(t: Trace, i: nat, j: nat, id: Id, package: Id)
    requires Run(t) && i <= j < |t.states|
    requires forall k: nat :: i <= k < j ==> Quiet(t, k, id, package)
    requires forall k: nat :: i <= k <= j ==> id in t.states[k].points
    requires (id, package) in t.states[i].mirrors
    ensures (id, package) in t.states[j].mirrors
  {
    if i < j {
      KeptRun(t, i, j - 1, id, package);
      KeptStep(t, j - 1, id, package);
    }
  }

  lemma InstallerStep(t: Trace, i: nat, id: Id, package: Id)
    requires Run(t) && i < |t.events| && Quiet(t, i, id, package) && package in t.states[i].installers
    ensures package in t.states[i + 1].installers
  {
    assert StepAt(t, i);
  }

  lemma {:induction false} InstallerRun(t: Trace, i: nat, j: nat, id: Id, package: Id)
    requires Run(t) && i <= j < |t.states|
    requires forall k: nat :: i <= k < j ==> Quiet(t, k, id, package)
    requires package in t.states[i].installers
    ensures package in t.states[j].installers
  {
    if i < j {
      InstallerRun(t, i, j - 1, id, package);
      InstallerStep(t, j - 1, id, package);
    }
  }

  /** Over quiet steps the last report of a point that is still there is what it was. */
  lemma ReportStays(t: Trace, i: nat, j: nat, id: Id, package: Id, sha256: string)
    requires Run(t) && i <= j < |t.states|
    requires forall k: nat :: i <= k < j ==> Quiet(t, k, id, package)
    requires id in t.states[j].points
    ensures Reported(t.states[i], id, package, sha256) <==> Reported(t.states[j], id, package, sha256)
  {
    QuietRun(t, i, j, id, package);
    RunsStayConsistent(t, i);
    if (id, package) in t.states[i].mirrors {
      PointWasThroughout(t, i, j, id);
      KeptRun(t, i, j, id, package);
    }
  }

  /** What a point needs to serve clients, apart from the bytes. */
  ghost predicate Serves(
    s: Tables, now: int, covers: (string, Address) -> bool, clientIP: Address, id: Id)
  {
    clientIP.Unmap() != Invalid && Candidate(s, covers, clientIP.Unmap(), id)
    && s.points[id].baseURL != "" && Live(s, now, id)
  }

  /** After a package gets a new installer, a point that has not reported since is
      eligible exactly when it serves at all and its last report before the change
      already named the new hash. So a new installer needs a new report exactly from
      the points whose last report names another hash. */
  lemma EligibleAfterNewInstaller(
    t: Trace, i: nat, j: nat, now: int,
    covers: (string, Address) -> bool, clientIP: Address, id: Id, package: Id, sha256: string)
    requires Run(t) && i < j < |t.states|
    requires t.events[i].op == SetInstaller(package, Some(sha256))
    requires forall k: nat :: i < k < j ==> Quiet(t, k, id, package)
    ensures Eligible(t.states[j], now, covers, clientIP, package, id)
            <==> Serves(t.states[j], now, covers, clientIP, id) && Reported(t.states[i], id, package, sha256)
  {
    assert StepAt(t, i);
    QuietRun(t, i + 1, j, id, package);
    InstallerRun(t, i + 1, j, id, package);
    if id in t.states[j].points {
      ReportStays(t, i + 1, j, id, package, sha256);
    }
  }

  /** When an installer changes and goes back to the content a point last reported,
      the point is eligible again without a report whenever it serves; in between it
      is not, unless the content was the same. */
  lemma RevertedInstallerNeedsNoReport(
    t: Trace, i: nat, k: nat, j: nat, now: int,
    covers: (string, Address) -> bool, clientIP: Address, id: Id, package: Id, first: string, other: string)
    requires Run(t) && i < k < j < |t.states|
    requires t.events[i].op == SetInstaller(package, Some(other))
    requires t.events[k].op == SetInstaller(package, Some(first))
    requires forall m: nat :: i < m < j && m != k ==> Quiet(t, m, id, package)
    requires Reported(t.states[i], id, package, first)
    ensures Eligible(t.states[j], now, covers, clientIP, package, id)
            <==> Serves(t.states[j], now, covers, clientIP, id)
    ensures Eligible(t.states[k], now, covers, clientIP, package, id)
            <==> Serves(t.states[k], now, covers, clientIP, id) && other == first
  {
    EligibleAfterNewInstaller(t, i, k, now, covers, clientIP, id, package, other);
    EligibleAfterNewInstaller(t, k, j, now, covers, clientIP, id, package, first);
    if id in t.states[j].points {
      assert StepAt(t, i);
      RunsStayConsistent(t, i);
      PointWasThroughout(t, i, j, id);
      ReportStays(t, i + 1, k, id, package, first);
    }
  }

  function CreatedAlone(m: Mutation, key: string): Tables {
    EMPTY.(points := map[Id(1) := Point(m.name, m.enabled, 0, m.cidrs, m.baseURL, key)], nextID := 2)
  }

  function Publishing(s: Tables, sha256: string): Tables {
    s.(installers := map[Id(7) := Some(sha256)])
  }

  function ReportedAlone(m: Mutation, key: string, sha256: string): Tables {
    Publishing(CreatedAlone(m, key), sha256).(
      sessions := map[Id(1) := Session("c", 1, "", SESSION_TTL)],
      mirrors := map[(Id(1), Id(7)) := Mirror(Current, Some("a"), "")])
  }

  const WORKER := Worker(true, Some(1), "")

  lemma FirstSteps(m: Mutation, key: string)
    ensures Apply(EMPTY, 0, Create(m, key)) == (CreatedAlone(m, key), Done)
    ensures Apply(CreatedAlone(m, key), 0, SetInstaller(Id(7), Some("a")))
         == (Publishing(CreatedAlone(m, key), "a"), Done)
  {
    assert EMPTY.points[Id(1) := CreatedAlone(m, key).points[Id(1)]] == CreatedAlone(m, key).points;
    assert EMPTY.installers[Id(7) := Some("a")] == map[Id(7) := Some("a")];
  }

  lemma WorkerSteps(m: Mutation, key: string)
    requires m.enabled
    ensures var published := Publishing(CreatedAlone(m, key), "a");
      var claimed := published.(sessions := map[Id(1) := Session("c", 1, "", SESSION_TTL)]);
      Apply(published, 0, Claim(Id(1), key, "c", WORKER)) == (claimed, Done)
      && Apply(claimed, 0, Record(Id(1), "c", Id(7), Mirror(Current, Some("a"), "")))
         == (ReportedAlone(m, key, "a"), Done)
  {}

  lemma InstallerSteps(m: Mutation, key: string, was: string, now: string)
    ensures Apply(ReportedAlone(m, key, was), 0, SetInstaller(Id(7), Some(now)))
         == (ReportedAlone(m, key, now), Done)
  {
    assert map[Id(7) := Some(was)][Id(7) := Some(now)] == map[Id(7) := Some(now)];
  }

  lemma ReportedServes(
    m: Mutation, key: string, covers: (string, Address) -> bool, clientIP: Address, sha256: string)
    requires m.enabled && m.baseURL != "" && clientIP.Unmap() != Invalid
    requires CoveredBy(covers, m.cidrs, clientIP.Unmap())
    ensures Eligible(ReportedAlone(m, key, sha256), 1, covers, clientIP, Id(7), Id(1)) <==> sha256 == "a"
  {}

  /** Such a run: create, publish, claim, report, change, change back. The point is
      eligible at the end although it has not reported since the last two changes. */
  lemma RevertedRun(m: Mutation, key: string, covers: (string, Address) -> bool, clientIP: Address)
    returns (t: Trace)
    requires m.enabled && m.baseURL != "" && clientIP.Unmap() != Invalid
    requires CoveredBy(covers, m.cidrs, clientIP.Unmap())
    ensures Run(t) && |t.events| == 6
    ensures t.events[3].op.Record? && t.events[4].op == SetInstaller(Id(7), Some("b"))
    ensures t.events[5].op == SetInstaller(Id(7), Some("a"))
    ensures !Eligible(t.states[5], 1, covers, clientIP, Id(7), Id(1))
    ensures Eligible(t.states[6], 1, covers, clientIP, Id(7), Id(1))
  {
    var published := Publishing(CreatedAlone(m, key), "a");
    var claimed := published.(sessions := map[Id(1) := Session("c", 1, "", SESSION_TTL)]);
    var a, b := ReportedAlone(m, key, "a"), ReportedAlone(m, key, "b");
    t := Trace(
      [Event(0, Create(m, key)), Event(0, SetInstaller(Id(7), Some("a"))), Event(0, Claim(Id(1), key, "c", WORKER)),
       Event(0, Record(Id(1), "c", Id(7), Mirror(Current, Some("a"), ""))),
       Event(0, SetInstaller(Id(7), Some("b"))), Event(0, SetInstaller(Id(7), Some("a")))],
      [EMPTY, CreatedAlone(m, key), published, claimed, a, b, a],
      [Done, Done, Done, Done, Done, Done]);
    FirstSteps(m, key);
    WorkerSteps(m, key);
    InstallerSteps(m, key, "a", "b");
    InstallerSteps(m, key, "b", "a");
    ReportedServes(m, key, covers, clientIP, "a");
    ReportedServes(m, key, covers, clientIP, "b");
  }

  // ------------------------------------------------------------------------ order

  /** A reorder is accepted exactly for a permutation of the existing ids, or when
      there are none, and then the i-th id of the list has position i. */
  lemma ReorderPlaces(s: Tables, ids: seq<Id>)
    ensures Reordered(s, ids).1 == Done <==> s.points == map[] || IsPermutation(ids, s.points)
    ensures Reordered(s, ids).1 != Done ==> Reordered(s, ids).0 == s
    ensures s.points != map[] && Reordered(s, ids).1 == Done ==>
      Reordered(s, ids).0.points.Keys == s.points.Keys == (set id | id in ids)
      && forall i: nat :: i < |ids| ==> Reordered(s, ids).0.points[ids[i]].position == i
  {
    if s.points != map[] && IsPermutation(ids, s.points) {
      PermutationCovers(ids, s.points);
    }
  }
}
