/** The store: one field per table, one method per transaction, each statement of
    the transaction in order. */
module DistributionStore {
  import opened Basics
  import opened DistributionPoints

  class Store {
    var points: map<Id, Point>
    var sessions: map<Id, Session>
    var rejections: map<Id, Rejection>
    var mirrors: map<(Id, Id), Mirror>
    var installers: map<Id, Option<string>>
    var nextID: nat

    /** inet containment, which PostgreSQL decides. */
    const covers: (string, Address) -> bool

    ghost function State(): Tables reads this {
      Tables(points, sessions, rejections, mirrors, installers, nextID)
    }

    constructor (covers: (string, Address) -> bool)
      ensures State() == EMPTY && this.covers == covers
    {
      this.covers := covers;
      points, sessions, rejections, mirrors, installers := map[], map[], map[], map[], map[];
      nextID := 1;
    }

    // ----------------------------------------------------------- administration

    method FreePosition() returns (position: int)
      ensures position == NextPosition(points)
      ensures forall id :: id in points ==> points[id].position < position
      ensures if points == map[] then position == 0
              else exists id :: id in points && points[id].position == position - 1
    {
      if points == map[] {
        return 0;
      }
      var pending := points.Keys;
      var row :| row in pending;
      var max := points[row].position;
      while pending != {}
        invariant pending <= points.Keys
        invariant forall done :: done in points.Keys - pending ==> points[done].position <= max
        invariant exists done :: done in points && points[done].position == max
        decreases pending
      {
        row :| row in pending;
        pending := pending - {row};
        if max < points[row].position {
          max := points[row].position;
        }
      }
      position := max + 1;
    }

    method Create(mutation: Mutation, key: string) returns (r: Outcome)
      modifies this
      ensures (State(), r) == Created(old(State()), mutation, key)
      ensures r == Failed(Conflict) || r == Done
      ensures r == Failed(Conflict) <==>
        exists id :: id in old(points) && id != Id(old(nextID))
                     && (old(points)[id].name == mutation.name || old(points)[id].key == key)
      ensures r == Done ==>
        exists position ::
          points == old(points)[Id(old(nextID)) := Point(
            name := mutation.name, enabled := mutation.enabled, position := position, cidrs := mutation.cidrs,
            baseURL := mutation.baseURL, key := key)]
          && forall id :: id in old(points) ==> old(points)[id].position < position
      ensures State() == old(State()).(nextID := old(nextID) + 1, points := points)
      ensures r != Done ==> points == old(points)
    {
      var id := Id(nextID);
      nextID := nextID + 1;
      var position := FreePosition();
      if (exists row :: row in points && row != id && points[row].name == mutation.name)
         || (exists row :: row in points && row != id && points[row].key == key) {
        return Failed(Conflict);
      }
      points := points[id := Point(mutation.name, mutation.enabled, position,
                                   mutation.cidrs, mutation.baseURL, key)];
      r := Done;
    }

    method Update(id: Id, mutation: Mutation) returns (r: Outcome)
      modifies this
      ensures (State(), r) == Updated(old(State()), id, mutation)
      ensures r == Failed(NotFound) <==> id !in old(points)
      ensures r == Failed(Conflict) <==>
        id in old(points) && exists other :: other in old(points) && other != id
                                             && old(points)[other].name == mutation.name
      ensures r == Done ==>
        points == old(points)[id := Point(
          name := mutation.name, enabled := mutation.enabled, position := old(points)[id].position,
          cidrs := mutation.cidrs, baseURL := mutation.baseURL, key := old(points)[id].key)]
      ensures r == Done && !mutation.enabled ==> id !in sessions && id !in rejections
      ensures r == Done && mutation.enabled ==> sessions == old(sessions) && rejections == old(rejections)
      ensures r != Done ==> State() == old(State())
    {
      if id !in points {
        return Failed(NotFound);
      }
      if exists row :: row in points && row != id && points[row].name == mutation.name {
        return Failed(Conflict);
      }
      points := points[id := points[id].(
        name := mutation.name,
        enabled := mutation.enabled,
        cidrs := mutation.cidrs,
        baseURL := mutation.baseURL)];
      if !mutation.enabled {
        ClearWorkerStates(id);
      }
      r := Done;
    }

    method ClearWorkerStates(id: Id)
      modifies this
      ensures State() == WithoutWorkers(old(State()), id)
    {
      sessions := sessions - {id};
      rejections := rejections - {id};
    }

    /** The rows that refer to the point go with it. */
    method Delete(id: Id) returns (r: Outcome)
      modifies this
      ensures (State(), r) == Deleted(old(State()), id)
      ensures r == if id in old(points) then Done else Failed(NotFound)
      ensures r == Done ==>
        id !in points && id !in sessions && id !in rejections
        && forall point, package :: (point, package) in mirrors <==> (point, package) in old(mirrors) && point != id
      ensures forall other :: other in old(points) && other != id ==>
        other in points && points[other] == old(points)[other]
        && (other in sessions <==> other in old(sessions)) && (other in rejections <==> other in old(rejections))
    {
      if id !in points {
        return Failed(NotFound);
      }
      points := points - {id};
      ClearWorkerStates(id);
      mirrors := map at | at in mirrors && at.0 != id :: mirrors[at];
      r := Done;
    }

    method RotateKey(id: Id, key: string) returns (r: Outcome)
      modifies this
      ensures (State(), r) == KeyRotated(old(State()), id, key)
      ensures r == Failed(NotFound) <==> id !in old(points)
      ensures r == Failed(Conflict) <==>
        id in old(points) && exists other :: other in old(points) && other != id && old(points)[other].key == key
      ensures r == Done ==>
        id in points && points == old(points)[id := points[id]] && points[id] == old(points)[id].(key := key)
        && id !in sessions && id !in rejections
      ensures r != Done ==> State() == old(State())
    {
      if id !in points {
        return Failed(NotFound);
      }
      if exists row :: row in points && row != id && points[row].key == key {
        return Failed(Conflict);
      }
      points := points[id := points[id].(key := key)];
      ClearWorkerStates(id);
      r := Done;
    }

    // ------------------------------------------------------------------ sessions

    method LockWorkerCredential(id: Id, key: string) returns (found: bool)
      ensures found <==> Authenticates(State(), id, key)
    {
      found := id in points && points[id].enabled && points[id].key == key;
    }

    method ClaimWorkerSession(now: int, id: Id, key: string, connection: string, worker: Worker)
      returns (r: Outcome)
      modifies this
      ensures (State(), r) == Claimed(old(State()), now, id, key, connection, worker)
      ensures r == Failed(InvalidInput) <==> connection == "" || !worker.compatible || worker.protocol.None?
      ensures r == Done ==> id in points && points[id].enabled && points[id].key == key
      ensures r == Failed(SessionInvalid) ==> !(id in points && points[id].enabled && points[id].key == key)
      ensures r == Done ==>
        id in sessions && sessions == old(sessions)[id := sessions[id]] && sessions[id].connection == connection
        && Some(sessions[id].protocol) == worker.protocol && sessions[id].build == worker.build
        && sessions[id].expires == now + 15_000_000
        && id !in rejections
      ensures r == Done || r.fault == InvalidInput || r.fault == SessionInvalid
      ensures r != Done ==> State() == old(State())
    {
      if connection == "" || !worker.compatible || worker.protocol == None {
        return Failed(InvalidInput);
      }
      var found := LockWorkerCredential(id, key);
      if !found {
        return Failed(SessionInvalid);
      }
      sessions := sessions[id := Session(connection, worker.protocol.value, worker.build, now + SESSION_TTL)];
      rejections := rejections - {id};
      r := Done;
    }

    method ObserveRejectedWorker(now: int, id: Id, key: string, worker: Worker) returns (r: Outcome)
      modifies this
      ensures (State(), r) == Observed(old(State()), now, id, key, worker)
      ensures r == Failed(InvalidInput) <==> worker.compatible
      ensures r == Done ==> id in points && points[id].enabled && points[id].key == key
      ensures r == Failed(SessionInvalid) ==> !(id in points && points[id].enabled && points[id].key == key)
      ensures r == Done ==>
        id in rejections && rejections == old(rejections)[id := rejections[id]]
        && rejections[id].protocol == worker.protocol && rejections[id].build == worker.build
        && rejections[id].expires == now + 300_000_000
      ensures State() == old(State()).(rejections := rejections)
      ensures r != Done ==> State() == old(State())
    {
      if worker.compatible {
        return Failed(InvalidInput);
      }
      var found := LockWorkerCredential(id, key);
      if !found {
        return Failed(SessionInvalid);
      }
      rejections := rejections[id := Rejection(worker.protocol, worker.build, now + REJECTION_TTL)];
      r := Done;
    }

    method RenewWorkerSession(now: int, id: Id, connection: string) returns (r: Outcome)
      modifies this
      ensures (State(), r) == Renewed(old(State()), now, id, connection)
      ensures r == Done <==>
        id in points && points[id].enabled && id in old(sessions)
        && old(sessions)[id].connection == connection && now < old(sessions)[id].expires
      ensures r == Done ==> sessions == old(sessions)[id := old(sessions)[id].(expires := now + 15_000_000)]
      ensures r != Done ==> r == Failed(SessionInvalid) && State() == old(State())
    {
      var rowsAffected := 0;
      if id in sessions && sessions[id].connection == connection && sessions[id].expires > now
         && id in points && points[id].enabled {
        sessions := sessions[id := sessions[id].(expires := now + SESSION_TTL)];
        rowsAffected := 1;
      }
      r := if rowsAffected == 0 then Failed(SessionInvalid) else Done;
    }

    method ReleaseWorkerSession(id: Id, connection: string) returns (r: Outcome)
      modifies this
      ensures (State(), r) == Released(old(State()), id, connection)
      ensures r == Done && State() == old(State()).(sessions := sessions)
      ensures forall other :: other in sessions <==>
        other in old(sessions) && (other == id ==> old(sessions)[id].connection != connection)
    {
      if id in sessions && sessions[id].connection == connection {
        sessions := sessions - {id};
      }
      r := Done;
    }

    method RecordPackageState(now: int, id: Id, connection: string, package: Id, mirror: Mirror)
      returns (r: Outcome)
      modifies this
      ensures (State(), r) == Recorded(old(State()), now, id, connection, package, mirror)
      ensures r == Failed(SessionInvalid) <==>
        !(id in points && points[id].enabled && id in sessions
          && sessions[id].connection == connection && now < sessions[id].expires)
      ensures r == Done ==> package in installers && mirrors == old(mirrors)[(id, package) := mirror]
      ensures r == Failed(MissingPackage) ==> package !in installers
      ensures State() == old(State()).(mirrors := mirrors) && (r != Done ==> mirrors == old(mirrors))
    {
      if id !in points || !points[id].enabled {
        return Failed(SessionInvalid);
      }
      if !(id in sessions && sessions[id].connection == connection && sessions[id].expires > now) {
        return Failed(SessionInvalid);
      }
      if package !in installers {
        return Failed(MissingPackage);
      }
      mirrors := mirrors[(id, package) := mirror];
      r := Done;
    }

    // ----------------------------------------------------------------- selection

    /** The enabled points whose ranges cover an address, ORDER BY position, id. */
    method Matching(address: Address) returns (ids: seq<Id>)
      ensures InAdminOrder(points, ids)
      ensures forall id :: id in ids <==> Candidate(State(), covers, address, id)
      ensures forall id :: id in ids <==>
        id in points && points[id].enabled
        && exists cidr :: cidr in points[id].cidrs && covers(cidr, address)
      ensures OrderedByPosition(points, ids)
    {
      ids := [];
      var pending := set id | id in points && points[id].enabled && CoveredBy(covers, points[id].cidrs, address);
      while pending != {}
        invariant forall id :: id in pending ==> id !in ids
        invariant forall id :: id in pending || id in ids <==> Candidate(State(), covers, address, id)
        invariant InAdminOrder(points, ids)
        invariant forall i, id :: 0 <= i < |ids| && id in pending ==> Precedes(points, ids[i], id)
        decreases pending
      {
        FirstExists(points, pending);
        var id :| id in pending && forall other :: other in pending && other != id ==> Precedes(points, id, other);
        pending := pending - {id};
        ids := ids + [id];
      }
    }

    /** The valid addresses, each once. */
    method DistinctAddresses(clientIPs: seq<Address>) returns (addresses: seq<Address>)
      ensures forall address :: address in addresses <==>
        address != Invalid && exists ip :: ip in clientIPs && ip.Unmap() == address
      ensures forall a, b :: 0 <= a < b < |addresses| ==> addresses[a] != addresses[b]
    {
      addresses := [];
      for i := 0 to |clientIPs|
        invariant forall address :: address in addresses <==>
          address != Invalid && exists ip :: ip in clientIPs[..i] && ip.Unmap() == address
        invariant forall a, b :: 0 <= a < b < |addresses| ==> addresses[a] != addresses[b]
      {
        assert clientIPs[..i + 1] == clientIPs[..i] + [clientIPs[i]];
        var address := clientIPs[i].Unmap();
        if address != Invalid && address !in addresses {
          addresses := addresses + [address];
        }
      }
      assert clientIPs[..|clientIPs|] == clientIPs;
    }

    method CandidatesForClients(clientIPs: seq<Address>) returns (candidates: map<Address, seq<Id>>)
      ensures forall address :: address in candidates <==>
        address != Invalid && exists ip :: ip in clientIPs && ip.Unmap() == address
      ensures forall address :: address in candidates ==> InAdminOrder(points, candidates[address])
      ensures forall address, id :: address in candidates ==>
        (id in candidates[address] <==> Candidate(State(), covers, address, id))
      ensures forall bits :: V4(bits) in candidates <==> V4(bits) in clientIPs || V4In6(bits) in clientIPs
      ensures forall bits :: V6(bits) in candidates <==> V6(bits) in clientIPs
      ensures forall address :: address in candidates ==> address.V4? || address.V6?
      ensures forall address, id :: address in candidates ==>
        (id in candidates[address] <==>
          id in points && points[id].enabled
          && exists cidr :: cidr in points[id].cidrs && covers(cidr, address))
      ensures forall address :: address in candidates ==> OrderedByPosition(points, candidates[address])
    {
      var addresses := DistinctAddresses(clientIPs);
      candidates := CandidatesByAddress(addresses);
      forall bits ensures V4(bits) in addresses <==> V4(bits) in clientIPs || V4In6(bits) in clientIPs {
        assert V4In6(bits).Unmap() == V4(bits) && V4(bits).Unmap() == V4(bits);
      }
      forall bits ensures V6(bits) in addresses <==> V6(bits) in clientIPs {
        assert V6(bits).Unmap() == V6(bits);
      }
      forall address | address in candidates ensures OrderedByPosition(points, candidates[address]) {
        AdminOrder(points, candidates[address]);
      }
    }

    method CandidatesByAddress(addresses: seq<Address>) returns (candidates: map<Address, seq<Id>>)
      requires forall a, b :: 0 <= a < b < |addresses| ==> addresses[a] != addresses[b]
      ensures forall address :: address in candidates <==> address in addresses
      ensures forall address :: address in candidates ==> InAdminOrder(points, candidates[address])
      ensures forall address, id :: address in candidates ==>
        (id in candidates[address] <==> Candidate(State(), covers, address, id))
    {
      candidates := map address | address in addresses :: [];
      for i := 0 to |addresses|
        invariant forall address :: address in candidates <==> address in addresses
        invariant forall j :: i <= j < |addresses| ==> candidates[addresses[j]] == []
        invariant forall j :: 0 <= j < i ==>
          InAdminOrder(points, candidates[addresses[j]])
          && forall id :: id in candidates[addresses[j]] <==> Candidate(State(), covers, addresses[j], id)
      {
        var rows := Matching(addresses[i]);
        for k := 0 to |rows|
          invariant forall address :: address in candidates <==> address in addresses
          invariant candidates[addresses[i]] == rows[..k]
          invariant forall j :: i < j < |addresses| ==> candidates[addresses[j]] == []
          invariant forall j :: 0 <= j < i ==>
            InAdminOrder(points, candidates[addresses[j]])
            && forall id :: id in candidates[addresses[j]] <==> Candidate(State(), covers, addresses[j], id)
        {
          candidates := candidates[addresses[i] := candidates[addresses[i]] + [rows[k]]];
        }
        assert rows[..|rows|] == rows;
      }
    }

    method CandidatesForClient(clientIP: Address) returns (ids: seq<Id>)
      ensures InAdminOrder(points, ids)
      ensures forall id :: id in ids <==>
        clientIP.Unmap() != Invalid && Candidate(State(), covers, clientIP.Unmap(), id)
    {
      var address := clientIP.Unmap();
      var byAddress := CandidatesForClients([address]);
      assert address.Unmap() == address;
      ids := if address in byAddress then byAddress[address] else [];
    }

    /** The point to redirect to: the first eligible one in administrative order,
        and none only when no point is eligible. */
    method ResolveForClient(now: int, clientIP: Address, package: Id) returns (point: Option<Id>)
      ensures point.Some? ==> Eligible(State(), now, covers, clientIP, package, point.value)
      ensures forall id :: Eligible(State(), now, covers, clientIP, package, id) ==>
        point.Some? && (id == point.value || Precedes(points, point.value, id))
      ensures forall id :: Eligible(State(), now, covers, clientIP, package, id) ==>
        points[point.value].position <= points[id].position
        && (points[point.value].position == points[id].position ==> point.value.number <= id.number)
    {
      var candidates := CandidatesForClient(clientIP);
      var current := set id | id in candidates && points[id].baseURL != ""
        && (id, package) in mirrors && package in installers
        && id in sessions && sessions[id].expires > now
        && mirrors[(id, package)].status == Current
        && installers[package].Some? && installers[package] == mirrors[(id, package)].sha256;
      for i := 0 to |candidates|
        invariant forall j :: 0 <= j < i ==> candidates[j] !in current
      {
        if points[candidates[i]].baseURL != "" && candidates[i] in current {
          return Some(candidates[i]);
        }
      }
      point := None;
    }

    // ------------------------------------------------------------------- reorder

    method ExactlyMatches(ids: seq<Id>) returns (matched: bool)
      ensures matched <==> IsPermutation(ids, points)
    {
      matched := true;
      for i := 0 to |ids|
        invariant matched <==>
          (forall a, b :: 0 <= a < b < i ==> ids[a] != ids[b])
          && (forall a :: 0 <= a < i ==> ids[a] in points)
      {
        matched := matched && ids[i] in points && ids[i] !in ids[..i];
      }
      matched := matched && |ids| == |points.Keys|;
    }

    /** Row updates in whatever order the database picks. After every one of them
        the positions are distinct, so the unique constraint never fires. */
    method Negate(ids: seq<Id>)
      requires PositionsDistinct(points) && PositionsNonNegative(points)
      requires forall id :: id in points ==> id in ids
      modifies `points
      ensures points == Negated(old(points), ids, old(points).Keys)
      ensures PositionsDistinct(points)
    {
      ghost var before, done := points, {};
      assert points == Negated(before, ids, done);
      var pending := points.Keys;
      while pending != {}
        invariant pending + done == before.Keys && pending !! done
        invariant points == Negated(before, ids, done)
        invariant PositionsDistinct(points)
        decreases pending
      {
        var id :| id in pending;
        pending := pending - {id};
        points := points[id := points[id].(position := -(IndexOf(ids, id) + 1))];
        NegatedStep(before, ids, done, id);
        done := done + {id};
        NegatedDistinct(before, ids, done);
      }
    }

    /** The second pass, as the first: any order, no collision at any point. */
    method Restore(ghost before: map<Id, Point>, ids: seq<Id>)
      requires forall id :: id in before ==> id in ids
      requires points == Restored(before, ids, {})
      modifies `points
      ensures points == Restored(before, ids, before.Keys)
    {
      ghost var done := {};
      RestoredDistinct(before, ids, done);
      var pending := points.Keys;
      while pending != {}
        invariant pending + done == before.Keys && pending !! done
        invariant points == Restored(before, ids, done)
        invariant PositionsDistinct(points)
        decreases pending
      {
        var id :| id in pending;
        pending := pending - {id};
        points := points[id := points[id].(position := -points[id].position - 1)];
        RestoredStep(before, ids, done, id);
        done := done + {id};
        RestoredDistinct(before, ids, done);
      }
    }

    method Reorder(ids: seq<Id>) returns (r: Outcome)
      requires PositionsDistinct(points) && PositionsNonNegative(points)
      modifies this
      ensures (State(), r) == Reordered(old(State()), ids)
    {
      if points == map[] {
        return Done;
      }
      var matched := ExactlyMatches(ids);
      if !matched {
        return Failed(InvalidInput);
      }
      PermutationCovers(ids, points);
      ghost var before := points;
      Negate(ids);
      PassesMeet(before, ids);
      Restore(before, ids);
      r := Done;
    }
  }

  /** Positions do not decrease along the list, and ids increase where they are equal. */
  ghost predicate OrderedByPosition(points: map<Id, Point>, ids: seq<Id>) {
    (forall id :: id in ids ==> id in points)
    && forall i, j :: 0 <= i < j < |ids| ==>
         points[ids[i]].position <= points[ids[j]].position
         && (points[ids[i]].position == points[ids[j]].position ==> ids[i].number < ids[j].number)
  }

  lemma AdminOrder(points: map<Id, Point>, ids: seq<Id>)
    ensures InAdminOrder(points, ids) <==> OrderedByPosition(points, ids)
  {}

  /** The table while the first pass has updated the rows in done. */
  ghost function Negated(points: map<Id, Point>, ids: seq<Id>, done: set<Id>): map<Id, Point> {
    map id | id in points ::
      if id in done then points[id].(position := -(IndexOf(ids, id) + 1)) else points[id]
  }

  /** The table while the second pass has updated the rows in done. */
  ghost function Restored(points: map<Id, Point>, ids: seq<Id>, done: set<Id>): map<Id, Point> {
    map id | id in points ::
      points[id].(position := if id in done then IndexOf(ids, id) else -(IndexOf(ids, id) + 1))
  }

  lemma {:induction false} FirstExists(points: map<Id, Point>, ids: set<Id>)
    requires ids != {} && ids <= points.Keys
    ensures exists id :: id in ids && forall other :: other in ids && other != id ==> Precedes(points, id, other)
  {
    var some :| some in ids;
    var rest := ids - {some};
    if rest == {} {
      assert ids == {some};
    } else {
      FirstExists(points, rest);
      var first :| first in rest && forall other :: other in rest && other != first ==> Precedes(points, first, other);
      var id := if Precedes(points, some, first) then some else first;
      assert forall other :: other in ids && other != id ==> other == some || other in rest;
      assert forall other :: other in ids && other != id ==> Precedes(points, id, other);
    }
  }

  lemma NegatedStep(points: map<Id, Point>, ids: seq<Id>, done: set<Id>, id: Id)
    requires id in points && id !in done
    ensures Negated(points, ids, done)[id := points[id].(position := -(IndexOf(ids, id) + 1))]
            == Negated(points, ids, done + {id})
  {}

  lemma RestoredStep(points: map<Id, Point>, ids: seq<Id>, done: set<Id>, id: Id)
    requires id in points && id !in done
    ensures Restored(points, ids, done)[id := points[id].(position := IndexOf(ids, id))]
            == Restored(points, ids, done + {id})
  {}

  /** The first pass ends where the second begins, and the second where Apply does. */
  lemma PassesMeet(points: map<Id, Point>, ids: seq<Id>)
    ensures Negated(points, ids, points.Keys) == Restored(points, ids, {})
    ensures Restored(points, ids, points.Keys) == Placed(points, ids)
  {}

  /** Whatever rows the first pass has reached, no two positions collide. */
  lemma NegatedDistinct(points: map<Id, Point>, ids: seq<Id>, done: set<Id>)
    requires PositionsDistinct(points) && PositionsNonNegative(points)
    requires forall id :: id in points ==> id in ids
    ensures PositionsDistinct(Negated(points, ids, done))
  {}

  /** Whatever rows the second pass has reached, no two positions collide. */
  lemma RestoredDistinct(points: map<Id, Point>, ids: seq<Id>, done: set<Id>)
    requires forall id :: id in points ==> id in ids
    ensures PositionsDistinct(Restored(points, ids, done))
  {}
}
