/** The stores behind hosts, users and labels: one field per table, one method per
    transaction, each statement of the transaction in order. */
module DirectoryStore {
  import opened Basics
  import opened Directory
  import opened DirectorySteps
  import opened Strings

  class Store {
    var hosts: set<Id>
    var primary: map<(Id, PrimarySource), string>
    var users: map<Id, User>
    var roles: map<Id, string>
    var roleKeys: set<string>
    var groups: map<Id, Group>
    var members: set<(Id, Id)>
    var labels: map<Id, Label>
    var rows: set<(Id, Id)>
    var nextUser: nat
    var nextGroup: nat
    var nextLabel: nat

    /** The validator's email grammar. */
    const isEmail: string -> bool

    function State(): Tables reads this {
      Tables(hosts, primary, users, roles, roleKeys, groups, members, labels, rows,
             nextUser, nextGroup, nextLabel)
    }

    constructor (isEmail: string -> bool)
      ensures State() == EMPTY && this.isEmail == isEmail
      ensures hosts == {} && primary == map[] && users == map[] && groups == map[] && members == {} && rows == {}
      ensures labels == map[Id(1) := Label("All Hosts", Some("all-hosts"), Manual, None, None)]
    {
      this.isEmail := isEmail;
      hosts, primary, users, roles, groups, members, rows := {}, map[], map[], map[], map[], {}, {};
      roleKeys := {"admin", "viewer"};
      labels := map[Id(1) := Label("All Hosts", Some(ALL_HOSTS), Manual, None, None)];
      nextUser, nextGroup, nextLabel := 1, 1, 2;
    }

    /** A rolled-back transaction leaves nothing but advanced sequences. */
    method Rollback(saved: Tables)
      modifies this
      ensures State() == saved.(nextUser := old(nextUser), nextGroup := old(nextGroup), nextLabel := old(nextLabel))
    {
      hosts, primary, users, roles := saved.hosts, saved.primary, saved.users, saved.roles;
      roleKeys, groups, members := saved.roleKeys, saved.groups, saved.members;
      labels, rows := saved.labels, saved.rows;
    }

    // ------------------------------------------------------------------- refresh

    /** The lateral join: the first of the users that answer the address. */
    method ResolvePrimaryUser(host: Id) returns (user: Option<Id>)
      ensures forall u :: Resolves(State(), host, u) <==> user == Some(u)
      ensures user.Some? ==> user.value in users && !users[user.value].deleted
      ensures user.Some? && (host, ManualSource) in primary ==>
        users[user.value].email == primary[(host, ManualSource)]
        || users[user.value].userPrincipalName == Some(primary[(host, ManualSource)])
      ensures user.Some? && (host, ManualSource) !in primary ==>
        (host, OrbitProfile) in primary
        && (users[user.value].email == primary[(host, OrbitProfile)]
            || users[user.value].userPrincipalName == Some(primary[(host, OrbitProfile)]))
    {
      user := None;
      var address := Preferred(State(), host);
      if address.None? {
        return;
      }
      var pending := users.Keys;
      while pending != {}
        invariant pending <= users.Keys
        invariant user.Some? ==> user.value in users.Keys - pending && Answers(users[user.value], address.value)
        invariant forall u :: u in users.Keys - pending && Answers(users[u], address.value) ==>
          user.Some? && (u == user.value || Outranks(users[user.value], user.value, users[u], u, address.value))
        decreases pending
      {
        var u :| u in pending;
        pending := pending - {u};
        if Answers(users[u], address.value)
           && (user.None? || Outranks(users[u], u, users[user.value], user.value, address.value)) {
          user := Some(u);
        }
      }
    }

    method ResolvedPrimaryUsers(hostID: Option<Id>) returns (resolved: set<(Id, Id)>)
      ensures forall h, u :: (h, u) in resolved <==> h in hosts && InScope(hostID, h) && Resolves(State(), h, u)
    {
      resolved := {};
      var pending := set h | h in hosts && InScope(hostID, h);
      while pending != {}
        invariant forall h :: h in pending ==> h in hosts && InScope(hostID, h)
        invariant forall h, u :: (h, u) in resolved <==>
          h in hosts && InScope(hostID, h) && h !in pending && Resolves(State(), h, u)
        decreases pending
      {
        var host :| host in pending;
        var user := ResolvePrimaryUser(host);
        pending := pending - {host};
        if user.Some? {
          resolved := resolved + {(host, user.value)};
        }
      }
    }

    ghost predicate Covers(labelID: Option<Id>, l: Id)
      reads this
    {
      IsDerived(State(), l) && InScope(labelID, l) && labels[l].criteria.Some?
    }

    predicate OfGroup(l: Id, g: Id)
      requires l in labels && labels[l].criteria.Some? && g in groups
      reads this
    {
      Selects(labels[l].criteria.value, DirectoryGroup, groups[g].externalID)
    }

    predicate OfDepartment(l: Id, u: Id)
      requires l in labels && labels[l].criteria.Some? && u in users
      reads this
    {
      Selects(labels[l].criteria.value, UserDepartment, users[u].department.GetOr(""))
    }

    method ByDepartment(labelID: Option<Id>, resolved: set<(Id, Id)>) returns (matching: set<(Id, Id)>)
      requires forall r :: r in resolved ==> r.1 in users
      ensures forall l, h :: (l, h) in matching <==>
        Covers(labelID, l)
        && exists u :: (h, u) in resolved && u in users && OfDepartment(l, u)
    {
      matching := set l, r | l in labels && r in resolved
        && labels[l].kind == Derived && InScope(labelID, l) && labels[l].criteria.Some?
        && Selects(labels[l].criteria.value, UserDepartment, users[r.1].department.GetOr("")) :: (l, r.0);
      forall r | r in resolved ensures r == (r.0, r.1) {}
    }

    method ByGroup(labelID: Option<Id>, resolved: set<(Id, Id)>) returns (matching: set<(Id, Id)>)
      ensures forall l, h :: (l, h) in matching <==>
        Covers(labelID, l)
        && exists u, g :: (h, u) in resolved && (u, g) in members && g in groups && OfGroup(l, g)
    {
      matching := set l, r, g | l in labels && r in resolved && g in groups && (r.1, g) in members
        && labels[l].kind == Derived && InScope(labelID, l) && labels[l].criteria.Some?
        && Selects(labels[l].criteria.value, DirectoryGroup, groups[g].externalID) :: (l, r.0);
      forall r | r in resolved ensures r == (r.0, r.1) {}
    }

    method ByUser(labelID: Option<Id>, resolved: set<(Id, Id)>) returns (matching: set<(Id, Id)>)
      ensures forall l, h :: (l, h) in matching <==>
        Covers(labelID, l)
        && exists u :: (h, u) in resolved && Selects(labels[l].criteria.value, SpecificUser, FormatInt(u.number))
    {
      matching := set l, r | l in labels && r in resolved
        && labels[l].kind == Derived && InScope(labelID, l) && labels[l].criteria.Some?
        && Selects(labels[l].criteria.value, SpecificUser, FormatInt(r.1.number)) :: (l, r.0);
      forall r | r in resolved ensures r == (r.0, r.1) {}
    }

    /** The union of the three ways a resolved user meets a derived label. */
    method MatchingMemberships(labelID: Option<Id>, resolved: set<(Id, Id)>) returns (matching: set<(Id, Id)>)
      requires forall r :: r in resolved ==> r.1 in users
      ensures forall l, h :: (l, h) in matching <==>
        Covers(labelID, l)
        && exists u :: (h, u) in resolved && Meets(State(), labels[l].criteria.value, u)
    {
      var byDepartment := ByDepartment(labelID, resolved);
      var byGroup := ByGroup(labelID, resolved);
      var byUser := ByUser(labelID, resolved);
      matching := byDepartment + byGroup + byUser;
    }

    method ValidateDerived(labelID: Option<Id>) returns (valid: bool)
      ensures valid <==> Refreshable(State(), labelID)
    {
      var pending := set l | l in labels && labels[l].kind == Derived && InScope(labelID, l);
      while pending != {}
        invariant forall l :: l in pending ==> IsDerived(State(), l) && InScope(labelID, l)
        invariant forall l :: IsDerived(State(), l) && InScope(labelID, l) && l !in pending ==>
          ValidCriteria(labels[l].criteria)
        decreases pending
      {
        var l :| l in pending;
        pending := pending - {l};
        if !ValidCriteria(labels[l].criteria) {
          return false;
        }
      }
      valid := true;
    }

    method InsertDerived(labelID: Option<Id>, hostID: Option<Id>)
      modifies `rows
      ensures rows == old(rows) + Derivable(old(State()), labelID, hostID)
    {
      var resolved := ResolvedPrimaryUsers(hostID);
      forall r | r in resolved ensures r.1 in users {
        assert r == (r.0, r.1);
      }
      var matching := MatchingMemberships(labelID, resolved);
      MatchingIsDerivable(State(), labelID, hostID, resolved, matching);
      rows := rows + matching;
    }

    /** Validate, delete, insert. */
    method RefreshDerived(labelID: Option<Id>, hostID: Option<Id>) returns (refreshed: bool)
      modifies `rows
      ensures refreshed <==> Refreshable(old(State()), labelID)
      ensures State() == if refreshed then Refreshed(old(State()), labelID, hostID) else old(State())
      ensures refreshed ==> forall l, h ::
        l in labels && labels[l].kind == Derived && h in hosts
        && (labelID.None? || labelID == Some(l)) && (hostID.None? || hostID == Some(h)) ==>
          ((l, h) in rows <==>
            labels[l].criteria.Some?
            && exists u :: Resolves(State(), h, u) && Meets(State(), labels[l].criteria.value, u))
      ensures forall l, h ::
        l !in labels || labels[l].kind != Derived
        || (labelID.Some? && labelID != Some(l)) || (hostID.Some? && hostID != Some(h)) ==>
          ((l, h) in rows <==> (l, h) in old(rows))
    {
      refreshed := ValidateDerived(labelID);
      if !refreshed {
        return;
      }
      ghost var before := State();
      rows := set row | row in rows
                && !(row.0 in labels && labels[row.0].kind == Derived
                     && InScope(labelID, row.0) && InScope(hostID, row.1));
      RowsDeriveNothing(before, State(), labelID, hostID);
      InsertDerived(labelID, hostID);
      RefreshedRows(before, State(), labelID, hostID);
    }

    // --------------------------------------------------------------------- hosts

    method Enroll(host: Id) returns (r: Outcome)
      modifies this
      ensures (State(), r) == Enrolled(old(State()), host)
      ensures r == Done && hosts == old(hosts) + {host}
      ensures forall l, h :: (l, h) in rows <==>
        (l, h) in old(rows)
        || (h == host && l in labels && labels[l].builtinKey == Some("all-hosts") && labels[l].kind == Manual)
    {
      hosts := hosts + {host};
      rows := rows + (set l | l in labels && labels[l].builtinKey == Some(ALL_HOSTS)
                              && labels[l].kind == Manual :: (l, host));
      r := Done;
    }

    method DeleteHosts(ids: seq<Id>) returns (r: Outcome)
      modifies this
      ensures (State(), r) == HostsDeleted(old(State()), ids)
      ensures forall h :: h in hosts <==> h in old(hosts) && h !in ids
      ensures forall l, h :: (l, h) in rows <==> (l, h) in old(rows) && h !in ids
      ensures forall h, source :: (h, source) in primary <==> (h, source) in old(primary) && h !in ids
      ensures r == Handled(|set h | h in old(hosts) && h in ids|)
    {
      var deleted := set h | h in hosts && h in ids;
      r := Handled(|deleted|);
      hosts := set h | h in hosts && h !in ids;
      primary := map at | at in primary && at.0 !in ids :: primary[at];
      rows := set row | row in rows && row.1 !in ids;
    }

    method DeleteHost(id: Id) returns (r: Outcome)
      modifies this
      ensures (State(), r) == HostDeleted(old(State()), id)
      ensures r == if id in old(hosts) then Done else Failed(NotFound)
      ensures forall h :: h in hosts <==> h in old(hosts) && h != id
      ensures id in old(hosts) ==> forall l, h :: (l, h) in rows <==> (l, h) in old(rows) && h != id
      ensures id in old(hosts) ==>
        forall h, source :: (h, source) in primary <==> (h, source) in old(primary) && h != id
      ensures id !in old(hosts) ==> State() == old(State())
    {
      if id !in hosts {
        return Failed(NotFound);
      }
      r := DeleteHosts([id]);
      r := Done;
    }

    method UpsertPrimaryUser(host: Id, email: string, source: PrimarySource) returns (r: Outcome)
      modifies this
      ensures (State(), r) == PrimaryUpserted(old(State()), isEmail, host, email, source)
      ensures Trim(email) == "" || !isEmail(Trim(email)) ==> r == Failed(InvalidInput)
      ensures Trim(email) != "" && isEmail(Trim(email)) ==>
        (r == Failed(NotFound) <==> host !in hosts)
        && (r == Done ==> primary == old(primary)[(host, source) := Trim(email)])
      ensures r != Done ==> State() == old(State())
    {
      if Trim(email) == "" || !isEmail(Trim(email)) {
        return Failed(InvalidInput);
      }
      if host !in hosts {
        return Failed(NotFound);
      }
      var saved := State();
      primary := primary[(host, source) := Trim(email)];
      var refreshed := RefreshDerived(None, Some(host));
      if !refreshed {
        Rollback(saved);
        return Failed(InvalidInput);
      }
      r := Done;
    }

    method DeletePrimaryUser(host: Id, source: PrimarySource) returns (r: Outcome)
      modifies this
      ensures (State(), r) == PrimaryDeleted(old(State()), host, source)
      ensures r == Failed(NotFound) <==> (host, source) !in old(primary) && host !in hosts
      ensures r == Done ==> primary == map at | at in old(primary) && at != (host, source) :: old(primary)[at]
      ensures r != Done ==> State() == old(State())
    {
      var saved := State();
      if (host, source) !in primary && host !in hosts {
        return Failed(NotFound);
      }
      primary := primary - {(host, source)};
      var refreshed := RefreshDerived(None, Some(host));
      if !refreshed {
        Rollback(saved);
        return Failed(InvalidInput);
      }
      r := Done;
    }

    // --------------------------------------------------------------------- users

    method ReplaceUserRole(id: Id, role: Option<string>) returns (known: bool)
      modifies `roles
      ensures known <==> role.Some? ==> role.value in roleKeys
      ensures known ==>
        roles == if role.Some? then old(roles)[id := role.value] else old(roles) - {id}
    {
      roles := roles - {id};
      if role.None? {
        return true;
      }
      known := role.value in roleKeys;
      if known {
        roles := roles[id := role.value];
      }
    }

    method CreateUser(email: string, name: string, hash: string, role: string) returns (r: Outcome)
      modifies this
      ensures (State(), r) == UserCreated(old(State()), email, name, hash, role)
    {
      var saved := State();
      var id := Id(nextUser);
      nextUser := nextUser + 1;
      if LocalEmailTaken(State(), email) {
        return Failed(AlreadyExists);
      }
      users := users[id := User(email, name, Some(hash), Local, None, None, None, None, None, None, false)];
      var known := ReplaceUserRole(id, Some(role));
      if !known {
        Rollback(saved);
        return Failed(InvalidInput);
      }
      var refreshed := RefreshDerived(None, None);
      if !refreshed {
        Rollback(saved);
        return Failed(InvalidInput);
      }
      r := Done;
    }

    method UpdateUser(id: Id, name: string, hash: Option<string>, role: Option<string>) returns (r: Outcome)
      modifies this
      ensures (State(), r) == UserUpdated(old(State()), id, name, hash, role)
      ensures r == Failed(NotFound) <==> id !in old(users) || old(users)[id].deleted
      ensures r == Failed(InvalidInput) ==> role.Some? && role.value !in roleKeys
      ensures r == Done ==>
        users.Keys == old(users).Keys && (forall u :: u in users && u != id ==> users[u] == old(users)[u])
        && users[id] == old(users)[id].(name := users[id].name, passwordHash := users[id].passwordHash)
      ensures r == Done && old(users)[id].source != Local ==> users[id] == old(users)[id]
      ensures r == Done && old(users)[id].source == Local ==>
        users[id].name == name
        && users[id].passwordHash == if hash == None then old(users)[id].passwordHash else hash
      ensures r == Done ==>
        (id in roles <==> role.Some?) && (role.Some? ==> roles[id] == role.value)
        && forall u :: u != id ==> (u in roles <==> u in old(roles)) && (u in roles ==> roles[u] == old(roles)[u])
      ensures r != Done ==> State() == old(State())
    {
      if id !in users || users[id].deleted {
        return Failed(NotFound);
      }
      var saved := State();
      var was := users[id];
      users := users[id := was.(
        name := if was.source == Local then name else was.name,
        passwordHash := if was.source == Local && hash.Some? then hash else was.passwordHash)];
      var known := ReplaceUserRole(id, role);
      if !known {
        Rollback(saved);
        return Failed(InvalidInput);
      }
      r := Done;
    }

    method DeleteUser(id: Id) returns (r: Outcome)
      modifies this
      ensures (State(), r) == UserDeleted(old(State()), id)
      ensures r == Failed(NotFound) <==> id !in old(users) || old(users)[id].deleted
      ensures r == Done ==>
        (forall u :: u != id ==> (u in users <==> u in old(users)) && (u in users ==> users[u] == old(users)[u]))
        && (id in users <==> old(users)[id].source != Local)
        && (id in users ==> users[id] == old(users)[id].(deleted := true))
      ensures r == Done ==>
        forall u, g :: (u, g) in members <==> (u, g) in old(members) && (u == id ==> id in users)
      ensures r == Done ==> roles == if id in users then old(roles) else old(roles) - {id}
      ensures r != Done ==> State() == old(State())
    {
      if id !in users || users[id].deleted {
        return Failed(NotFound);
      }
      var saved := State();
      if users[id].source == Local {
        users := users - {id};
        roles := roles - {id};
        members := set member | member in members && member.0 != id;
      } else {
        users := users[id := users[id].(deleted := true)];
      }
      var refreshed := RefreshDerived(None, None);
      if !refreshed {
        Rollback(saved);
        return Failed(InvalidInput);
      }
      r := Done;
    }

    // -------------------------------------------------------------------- labels

    method DeleteMembership(id: Id)
      modifies `rows
      ensures State() == WithoutRows(old(State()), id)
    {
      rows := set row | row in rows && row.0 != id;
    }

    /** INSERT ... SELECT unnest(ids): duplicates and unknown hosts are refused. */
    method InsertManual(id: Id, hostIDs: seq<Id>) returns (r: Outcome)
      modifies `rows
      ensures r == if exists i, j :: 0 <= i < j < |hostIDs| && hostIDs[i] == hostIDs[j] then Failed(AlreadyExists)
                   else if exists host :: host in hostIDs && host !in hosts then Failed(NotFound)
                   else Done
      ensures r == Done ==> rows == old(rows) + (set host | host in hostIDs :: (id, host))
    {
      for i := 0 to |hostIDs|
        invariant forall a, b :: 0 <= a < b < i ==> hostIDs[a] != hostIDs[b]
        invariant rows == old(rows) + (set host | host in hostIDs[..i] :: (id, host))
      {
        if hostIDs[i] in hostIDs[..i] {
          return Failed(AlreadyExists);
        }
        rows := rows + {(id, hostIDs[i])};
        assert hostIDs[..i + 1] == hostIDs[..i] + [hostIDs[i]];
      }
      assert hostIDs[..|hostIDs|] == hostIDs;
      r := if exists host :: host in hostIDs && host !in hosts then Failed(NotFound) else Done;
    }

    method ReplaceMembership(id: Id, hostIDs: seq<Id>) returns (r: Outcome)
      requires id in labels
      modifies `rows
      ensures r == MembershipReplaced(old(State()), id, hostIDs).1
      ensures r == Done ==> State() == MembershipReplaced(old(State()), id, hostIDs).0
    {
      match labels[id].kind
      case Manual =>
        DeleteMembership(id);
        r := InsertManual(id, hostIDs);
      case Derived =>
        var refreshed := RefreshDerived(Some(id), None);
        r := if refreshed then Done else Failed(InvalidInput);
      case Dynamic =>
        DeleteMembership(id);
        r := Done;
    }

    /** What rolls back is only this part: the label's own id stays taken. */
    method WriteLabel(id: Id, row: Label, hostIDs: seq<Id>) returns (r: Outcome)
      modifies this
      ensures (State(), r) == LabelWritten(old(State()), id, row, hostIDs)
    {
      var saved := State();
      if exists l :: l in labels && l != id && labels[l].name == row.name {
        return Failed(AlreadyExists);
      }
      labels := labels[id := row];
      r := ReplaceMembership(id, hostIDs);
      if r != Done {
        Rollback(saved);
      }
    }

    method CreateLabel(mutation: LabelMutation) returns (r: Outcome)
      modifies this
      ensures (State(), r) == LabelCreated(old(State()), Checked(mutation), mutation.hostIDs)
    {
      var row := Checked(mutation);
      if row.None? {
        return Failed(InvalidInput);
      }
      r := InsertLabel(row.value, mutation.hostIDs);
    }

    method InsertLabel(row: Label, hostIDs: seq<Id>) returns (r: Outcome)
      modifies this
      ensures (State(), r) == LabelCreated(old(State()), Some(row), hostIDs)
    {
      var id := Id(nextLabel);
      nextLabel := nextLabel + 1;
      r := WriteLabel(id, row, hostIDs);
    }

    method UpdateLabel(id: Id, mutation: LabelMutation) returns (r: Outcome)
      modifies this
      ensures (State(), r) == LabelUpdated(old(State()), id, Checked(mutation), mutation.hostIDs)
      ensures r == Done ==> id in old(labels) && old(labels)[id].builtinKey.None?
      ensures r == Failed(InvalidInput) ==> Checked(mutation).None? || Checked(mutation).value.kind == Derived
      ensures r != Done ==> State() == old(State())
    {
      var row := Checked(mutation);
      if row.None? {
        return Failed(InvalidInput);
      }
      if id !in labels || labels[id].builtinKey.Some? {
        return Failed(NotFound);
      }
      r := WriteLabel(id, row.value, mutation.hostIDs);
    }

    method DeleteLabel(id: Id, referenced: bool) returns (r: Outcome)
      modifies this
      ensures (State(), r) == LabelDeleted(old(State()), id, referenced)
      ensures r == Failed(NotFound) <==> id !in old(labels) || old(labels)[id].builtinKey.Some?
      ensures r == Failed(Conflict) ==> referenced
      ensures r == Done ==>
        !referenced && labels == (map l | l in old(labels) && l != id :: old(labels)[l])
        && forall l, h :: (l, h) in rows <==> (l, h) in old(rows) && l != id
      ensures r != Done ==> State() == old(State())
    {
      if id !in labels || labels[id].builtinKey.Some? {
        return Failed(NotFound);
      }
      if referenced {
        return Failed(Conflict);
      }
      labels := labels - {id};
      DeleteMembership(id);
      r := Done;
    }

    /** The ids and matches of the results in two slices, unless a label repeats. */
    method DynamicMembershipValues(results: seq<DynamicMembership>)
      returns (values: Option<(seq<Id>, seq<bool>)>)
      ensures values.Some? <==> !Duplicated(results)
      ensures values.Some? ==>
        |values.value.0| == |values.value.1| == |results|
        && forall i :: 0 <= i < |results| ==>
             results[i] == DynamicMembership(values.value.0[i], values.value.1[i])
    {
      var seen: set<Id> := {};
      var ids, matches := [], [];
      for i := 0 to |results|
        invariant |ids| == |matches| == i
        invariant forall j :: 0 <= j < i ==> results[j] == DynamicMembership(ids[j], matches[j])
        invariant forall id :: id in seen <==> exists j :: 0 <= j < i && results[j].labelID == id
        invariant forall a, b :: 0 <= a < b < i ==> results[a].labelID != results[b].labelID
      {
        if results[i].labelID in seen {
          return None;
        }
        seen := seen + {results[i].labelID};
        ids := ids + [results[i].labelID];
        matches := matches + [results[i].matched];
      }
      values := Some((ids, matches));
    }

    method SetDynamicMemberships(host: Id, results: seq<DynamicMembership>) returns (r: Outcome)
      modifies this
      ensures (State(), r) == DynamicSet(old(State()), host, results)
    {
      if results == [] {
        return Handled(0);
      }
      var values := DynamicMembershipValues(results);
      if values.None? {
        return Failed(InvalidInput);
      }
      var (labelIDs, matches) := values.value;
      var unnested := seq(|labelIDs|, i requires 0 <= i < |labelIDs| => DynamicMembership(labelIDs[i], matches[i]));
      assert unnested == results;
      var applicable := Applicable(State(), unnested);
      ApplicableAreDynamic(State(), results);
      var inserted := set result | result in applicable && result.matched :: (result.labelID, host);
      if inserted != {} && host !in hosts {
        assert exists result :: result in results && Applies(State(), result) && result.matched by {
          var row :| row in inserted;
        }
        return Failed(Unexpected);
      }
      forall result | result in results && Applies(State(), result) && result.matched ensures host in hosts {
        assert (result.labelID, host) in inserted;
      }
      var deleted := set row | row in rows && row.1 == host && DynamicMembership(row.0, false) in applicable;
      rows := rows - deleted + inserted;
      r := Handled(|applicable|);
      assert rows == DynamicSet(old(State()), host, results).0.rows;
    }

    // ---------------------------------------------------------- provider snapshots

    /** INSERT ... ON CONFLICT (source, external_id) DO UPDATE of one group. The
        sequence advances either way. */
    method UpsertGroup(
      ghost before: map<Id, Group>, ghost first: nat, source: Source, latest: map<string, ProviderGroup>,
      ghost done: set<string>, key: string)
      requires first <= nextGroup && forall id :: id in groups ==> id.number < nextGroup
      requires forall k :: k in latest ==> latest[k].externalID == k
      requires done <= latest.Keys && key in latest && key !in done
      requires GroupsReplaced(before, first, source, latest, done, false, groups)
      modifies `groups, `nextGroup
      ensures old(nextGroup) <= nextGroup && forall id :: id in groups ==> id.number < nextGroup
      ensures GroupsReplaced(before, first, source, latest, done + {key}, false, groups)
    {
      ghost var was := groups;
      var id := Id(nextGroup);
      nextGroup := nextGroup + 1;
      if found :| found in groups && groups[found].source == source && groups[found].externalID == key {
        id := found;
      }
      groups := groups[id := GroupRow(source, latest[key])];
      GroupUpserted(before, first, source, latest, done, was, key, id);
    }

    /** All the groups, in any order. */
    method UpsertGroups(source: Source, latest: map<string, ProviderGroup>)
      requires GroupsDistinct(groups) && forall id :: id in groups ==> id.number < nextGroup
      requires forall key :: key in latest ==> latest[key].externalID == key
      modifies `groups, `nextGroup
      ensures GroupsReplaced(old(groups), old(nextGroup), source, latest, latest.Keys, false, groups)
      ensures old(nextGroup) <= nextGroup && forall id :: id in groups ==> id.number < nextGroup
    {
      ghost var before, first := groups, nextGroup;
      var pending := latest.Keys;
      while pending != {}
        invariant pending <= latest.Keys
        invariant first <= nextGroup && forall id :: id in groups ==> id.number < nextGroup
        invariant GroupsReplaced(before, first, source, latest, latest.Keys - pending, false, groups)
        decreases pending
      {
        var key :| key in pending;
        ghost var done := latest.Keys - pending;
        UpsertGroup(before, first, source, latest, done, key);
        pending := pending - {key};
        assert latest.Keys - pending == done + {key};
      }
      assert latest.Keys - pending == latest.Keys;
    }

    /** Upsert the snapshot's groups, then delete the source's others and with them
        their memberships. */
    method ReconcileGroups(source: Source, latest: map<string, ProviderGroup>)
      requires GroupsDistinct(groups) && forall id :: id in groups ==> id.number < nextGroup
      requires forall key :: key in latest ==> latest[key].externalID == key
      modifies `groups, `nextGroup, `members
      ensures GroupsReplaced(old(groups), old(nextGroup), source, latest, latest.Keys, true, groups)
      ensures old(nextGroup) <= nextGroup && forall id :: id in groups ==> id.number < nextGroup
      ensures members == set m | m in old(members) && (m.1 in old(groups) ==> m.1 in groups)
    {
      UpsertGroups(source, latest);
      var deleted := set id | id in groups && groups[id].source == source && groups[id].externalID !in latest;
      GroupsPruned(old(groups), old(nextGroup), source, latest, groups, deleted);
      groups := groups - deleted;
      members := set m | m in members && m.1 !in deleted;
    }

    /** Whether the row would break a unique index on active provider users. */
    method ProviderIndexesHold(id: Id, user: User) returns (held: bool)
      requires user.source != Local
      ensures held <==> forall u :: u in users && u != id ==> !ClashesWith(users[u], user)
    {
      held := user.deleted
        || !exists u :: u in users && u != id && users[u].source != Local && !users[u].deleted
                        && (users[u].email == user.email || users[u].userPrincipalName == user.userPrincipalName);
    }

    /** Tombstone the source's users. */
    method TombstoneUsers(source: Source)
      modifies `users
      ensures users == map id | id in old(users) ::
                if old(users)[id].source == source then old(users)[id].(deleted := true) else old(users)[id]
    {
      users := map id | id in users ::
        if users[id].source == source then users[id].(deleted := true) else users[id];
    }

    /** Upsert one entry, unless it breaks a unique index. */
    method UpsertUser(
      ghost before: map<Id, User>, ghost first: nat, source: Source, latest: map<string, ProviderUser>,
      ghost done: set<string>, key: string) returns (held: bool)
      requires source != Local && first <= nextUser && forall id :: id in users ==> id.number < nextUser
      requires forall id :: id in before ==> id in users
      requires forall k :: k in latest ==> latest[k].externalID == k
      requires done <= latest.Keys && key in latest && key !in done
      requires UsersReplaced(before, first, source, latest, done, users)
      modifies `users, `nextUser
      ensures first <= nextUser && forall id :: id in users ==> id.number < nextUser
      ensures held <==> forall k :: k in done ==> !Collide(latest[k], latest[key])
      ensures held ==> UsersReplaced(before, first, source, latest, done + {key}, users)
    {
      ghost var was := users;
      var id, hash := Id(nextUser), None;
      nextUser := nextUser + 1;
      if found :| found in users && users[found].source == source && users[found].externalID == Some(key) {
        id, hash := found, users[found].passwordHash;
      }
      var row := UserRow(source, latest[key], hash);
      held := ProviderIndexesHold(id, row);
      IndexesTellClashes(before, first, source, latest, done, was, key, id, row);
      if held {
        users := users[id := row];
        UserUpserted(before, first, source, latest, done, was, key, id, row);
      }
    }

    /** The user upsert; it fails on the first row that breaks a unique index. */
    method UpsertUsers(ghost before: map<Id, User>, source: Source, latest: map<string, ProviderUser>)
      returns (accepted: bool)
      requires source != Local && forall id :: id in users ==> id.number < nextUser
      requires forall key :: key in latest ==> latest[key].externalID == key
      requires UsersReplaced(before, nextUser, source, latest, {}, users)
      modifies `users, `nextUser
      ensures accepted <==> !Clashes(latest)
      ensures accepted ==> UsersReplaced(before, old(nextUser), source, latest, latest.Keys, users)
      ensures old(nextUser) <= nextUser
      ensures forall id :: id in users ==> id.number < nextUser
    {
      ghost var first, done := nextUser, {};
      var pending := latest.Keys;
      while pending != {}
        invariant pending + done == latest.Keys && pending !! done
        invariant first <= nextUser && forall id :: id in users ==> id.number < nextUser
        invariant UsersReplaced(before, first, source, latest, done, users)
        invariant NoClashAmong(latest, done)
        decreases pending
      {
        var key :| key in pending;
        pending := pending - {key};
        KeptUsersExist(before, first, source, latest, done, users);
        var held := UpsertUser(before, first, source, latest, done, key);
        if !held {
          ClashIsFound(latest, done, key);
          return false;
        }
        NoClashGrows(latest, done, key);
        done := done + {key};
      }
      assert done == latest.Keys;
      accepted := true;
    }

    /** Delete the memberships between the source's users and groups, insert the
        snapshot's. */
    method ReconcileMemberships(source: Source, latest: map<string, ProviderUser>)
      modifies `members
      ensures forall user, group :: (user, group) in members <==>
        if user in users && group in groups && users[user].source == source && groups[group].source == source
        then Member(latest, users[user], groups[group])
        else (user, group) in old(members)
    {
      members := set m | m in members
        && !(m.0 in users && m.1 in groups && users[m.0].source == source && groups[m.1].source == source);
      var inserted := set u, g | u in users && g in groups
        && users[u].source == source && groups[g].source == source && Member(latest, users[u], groups[g]) :: (u, g);
      members := members + inserted;
    }

    /** Tombstone the source's users, then upsert the snapshot's. */
    method ReconcileUsers(source: Source, latest: map<string, ProviderUser>) returns (accepted: bool)
      requires source != Local && UsersDistinct(users) && forall id :: id in users ==> id.number < nextUser
      requires forall key :: key in latest ==> latest[key].externalID == key
      modifies `users, `nextUser
      ensures accepted <==> !Clashes(latest)
      ensures accepted ==> UsersReplaced(old(users), old(nextUser), source, latest, latest.Keys, users)
      ensures old(nextUser) <= nextUser && forall id :: id in users ==> id.number < nextUser
    {
      ghost var before := users;
      TombstoneUsers(source);
      TombstonesAreStart(before, nextUser, source, latest, users);
      accepted := UpsertUsers(before, source, latest);
    }

    /** The three reconciliations. */
    method ReconcileDirectory(
      source: Source, latestUsers: map<string, ProviderUser>, latestGroups: map<string, ProviderGroup>)
      returns (accepted: bool)
      requires source != Local && UsersDistinct(users) && GroupsDistinct(groups) && IdsBelow(State())
      requires forall m :: m in members ==> m.1 in groups
      requires forall key :: key in latestUsers ==> latestUsers[key].externalID == key
      requires forall key :: key in latestGroups ==> latestGroups[key].externalID == key
      modifies `users, `groups, `members, `nextUser, `nextGroup
      ensures accepted <==> !Clashes(latestUsers)
      ensures old(nextUser) <= nextUser && old(nextGroup) <= nextGroup
      ensures accepted ==> IdsBelow(State())
      ensures accepted ==> UsersReplaced(old(users), old(nextUser), source, latestUsers, latestUsers.Keys, users)
      ensures accepted ==>
        GroupsReplaced(old(groups), old(nextGroup), source, latestGroups, latestGroups.Keys, true, groups)
      ensures accepted ==> MembersReplaced(old(State()), source, latestUsers, State())
    {
      ReconcileGroups(source, latestGroups);
      accepted := ReconcileUsers(source, latestUsers);
      if accepted {
        ReconcileMemberships(source, latestUsers);
      }
    }

    method ApplyProviderSnapshot(source: Source, snapshot: ProviderSnapshot) returns (r: Outcome)
      requires UsersDistinct(users) && GroupsDistinct(groups) && IdsBelow(State())
      requires forall m :: m in members ==> m.1 in groups
      modifies this
      ensures SnapshotApplied(old(State()), source, snapshot, State(), r)
    {
      if source == Local {
        return Failed(Unexpected);
      }
      var saved := State();
      var accepted := ReconcileDirectory(source, LatestUsers(snapshot.users), LatestGroups(snapshot.groups));
      if !accepted {
        Rollback(saved);
        return Failed(Unexpected);
      }
      ghost var reconciled := State();
      var refreshed := RefreshDerived(None, None);
      if !refreshed {
        Rollback(saved);
        return Failed(InvalidInput);
      }
      RowsDeriveNothing(reconciled, State(), None, None);
      r := Done;
    }
  }

  lemma TombstonesAreStart(
    s: map<Id, User>, first: nat, source: Source, latest: map<string, ProviderUser>, t: map<Id, User>)
    requires UsersDistinct(s)
    requires t == map id | id in s :: if s[id].source == source then s[id].(deleted := true) else s[id]
    ensures UsersReplaced(s, first, source, latest, {}, t)
  {}

  predicate ClashesWith(a: User, b: User) {
    a.source != Local && !a.deleted && !b.deleted
    && (a.email == b.email || a.userPrincipalName == b.userPrincipalName)
  }

  ghost predicate NoClashAmong(latest: map<string, ProviderUser>, done: set<string>)
    requires done <= latest.Keys
  {
    forall a, b :: a in done && b in done && a != b ==> !Collide(latest[a], latest[b])
  }

  lemma ClashIsFound(latest: map<string, ProviderUser>, done: set<string>, key: string)
    requires done <= latest.Keys && key in latest && key !in done
    requires exists k :: k in done && Collide(latest[k], latest[key])
    ensures Clashes(latest)
  {
    var k :| k in done && Collide(latest[k], latest[key]);
    assert k in latest && k != key;
  }

  lemma NoClashGrows(latest: map<string, ProviderUser>, done: set<string>, key: string)
    requires done <= latest.Keys && key in latest && NoClashAmong(latest, done)
    requires forall k :: k in done ==> !Collide(latest[k], latest[key])
    ensures NoClashAmong(latest, done + {key})
  {}

  lemma GroupUpserted(
    s: map<Id, Group>, first: nat, source: Source, latest: map<string, ProviderGroup>, done: set<string>,
    t: map<Id, Group>, key: string, id: Id)
    requires done <= latest.Keys && key in latest && key !in done && latest[key].externalID == key
    requires GroupsReplaced(s, first, source, latest, done, false, t)
    requires if id in t then t[id].source == source && t[id].externalID == key
             else id.number >= first && id !in s
                  && forall g :: g in t ==> !(t[g].source == source && t[g].externalID == key)
    ensures GroupsReplaced(s, first, source, latest, done + {key}, false, t[id := GroupRow(source, latest[key])])
  {
    var u := t[id := GroupRow(source, latest[key])];
    UpsertCoversGroups(source, done, t, key, id, GroupRow(source, latest[key]));
    GroupsStayDistinct(source, t, key, id, GroupRow(source, latest[key]));
  }

  lemma GroupsStayDistinct(source: Source, t: map<Id, Group>, key: string, id: Id, row: Group)
    requires GroupsDistinct(t) && row.source == source && row.externalID == key
    requires if id in t then t[id].source == source && t[id].externalID == key
             else forall g :: g in t ==> !(t[g].source == source && t[g].externalID == key)
    ensures GroupsDistinct(t[id := row])
  {}

  lemma UpsertCoversGroups(source: Source, done: set<string>, t: map<Id, Group>, key: string, id: Id, row: Group)
    requires forall k :: k in done ==> GroupCovered(source, k, t)
    requires row.source == source && row.externalID == key
    requires id in t ==> t[id].source == source && t[id].externalID == key
    ensures forall k :: k in done + {key} ==> GroupCovered(source, k, t[id := row])
  {
    forall k | k in done + {key} ensures GroupCovered(source, k, t[id := row]) {
      UpsertCoversGroup(source, k, t, key, id, row);
    }
  }

  lemma UpsertCoversGroup(source: Source, k: string, t: map<Id, Group>, key: string, id: Id, row: Group)
    requires GroupCovered(source, k, t) || k == key
    requires row.source == source && row.externalID == key
    requires id in t ==> t[id].source == source && t[id].externalID == key
    ensures GroupCovered(source, k, t[id := row])
  {
    var u := t[id := row];
    if k == key {
      assert id in u;
    } else {
      var g :| g in t && t[g].source == source && t[g].externalID == k;
      assert g in u && u[g].externalID == k;
    }
  }

  lemma GroupsPruned(
    s: map<Id, Group>, first: nat, source: Source, latest: map<string, ProviderGroup>,
    t: map<Id, Group>, deleted: set<Id>)
    requires GroupsReplaced(s, first, source, latest, latest.Keys, false, t)
    requires deleted == set id | id in t && t[id].source == source && t[id].externalID !in latest
    ensures GroupsReplaced(s, first, source, latest, latest.Keys, true, t - deleted)
  {
    forall key | key in latest.Keys ensures GroupCovered(source, key, t - deleted) {
      assert GroupCovered(source, key, t);
      var g :| g in t && t[g].source == source && t[g].externalID == key;
      assert g in t - deleted;
    }
  }

  lemma KeptUsersExist(
    s: map<Id, User>, first: nat, source: Source, latest: map<string, ProviderUser>, done: set<string>,
    t: map<Id, User>)
    requires done <= latest.Keys && UsersReplaced(s, first, source, latest, done, t)
    ensures forall id :: id in s ==> id in t
  {}

  lemma UpsertKeepsUsers(s: map<Id, User>, source: Source, t: map<Id, User>, key: string, id: Id, row: User)
    requires KeepsUsers(s, source, t) && Of(row, source, key)
    requires if id in t then Of(t[id], source, key) && row.passwordHash == t[id].passwordHash else id !in s
    ensures KeepsUsers(s, source, t[id := row])
  {}

  lemma UpsertTombstones(
    s: map<Id, User>, source: Source, done: set<string>, t: map<Id, User>, key: string, id: Id, row: User)
    requires KeepsUsers(s, source, t) && Tombstones(s, source, done, t)
    requires if id in t then Of(t[id], source, key) else id !in s
    ensures Tombstones(s, source, done + {key}, t[id := row])
  {}

  lemma UpsertWrites(
    source: Source, latest: map<string, ProviderUser>, done: set<string>, t: map<Id, User>, key: string,
    id: Id, row: User)
    requires done <= latest.Keys && key in latest && latest[key].externalID == key
    requires Written(source, latest, done, t) && row == UserRow(source, latest[key], row.passwordHash)
    requires forall u :: u in t && Of(t[u], source, key) ==> u == id
    ensures Written(source, latest, done + {key}, t[id := row])
  {}

  lemma UpsertCovers(source: Source, k: string, t: map<Id, User>, key: string, id: Id, row: User)
    requires Covered(source, k, t) || k == key
    requires Of(row, source, key) && (id in t ==> Of(t[id], source, key))
    ensures Covered(source, k, t[id := row])
  {
    var u := t[id := row];
    if k == key {
      assert id in u && Of(u[id], source, k);
    } else {
      var x :| x in t && Of(t[x], source, k);
      assert x in u && Of(u[x], source, k);
    }
  }

  lemma UpsertStaysDistinct(t: map<Id, User>, source: Source, key: string, id: Id, row: User)
    requires UsersDistinct(t) && source != Local && Of(row, source, key)
    requires if id in t then Of(t[id], source, key) else forall u :: u in t ==> !Of(t[u], source, key)
    ensures UsersDistinct(t[id := row])
  {}

  lemma UserUpserted(
    s: map<Id, User>, first: nat, source: Source, latest: map<string, ProviderUser>, done: set<string>,
    t: map<Id, User>, key: string, id: Id, row: User)
    requires source != Local
    requires done <= latest.Keys && key in latest && latest[key].externalID == key
    requires UsersReplaced(s, first, source, latest, done, t)
    requires row == UserRow(source, latest[key], if id in t then t[id].passwordHash else None)
    requires if id in t then Of(t[id], source, key)
             else id.number >= first && id !in s && forall u :: u in t ==> !Of(t[u], source, key)
    ensures UsersReplaced(s, first, source, latest, done + {key}, t[id := row])
  {
    var u := t[id := row];
    UpsertStaysDistinct(t, source, key, id, row);
    UpsertKeepsUsers(s, source, t, key, id, row);
    UpsertTombstones(s, source, done, t, key, id, row);
    UpsertWrites(source, latest, done, t, key, id, row);
    forall k | k in done + {key} ensures Covered(source, k, u) {
      UpsertCovers(source, k, t, key, id, row);
    }
    assert NewUsersWritten(s, first, source, done + {key}, u);
  }

  lemma IndexesTellClashes(
    s: map<Id, User>, first: nat, source: Source, latest: map<string, ProviderUser>, done: set<string>,
    t: map<Id, User>, key: string, id: Id, row: User)
    requires source != Local
    requires done <= latest.Keys && key in latest && key !in done
    requires forall k :: k in latest ==> latest[k].externalID == k
    requires UsersReplaced(s, first, source, latest, done, t)
    requires id in t ==> Of(t[id], source, key)
    requires row == UserRow(source, latest[key], row.passwordHash)
    ensures (forall u :: u in t && u != id ==> !ClashesWith(t[u], row))
            <==> forall k :: k in done ==> !Collide(latest[k], latest[key])
  {
    forall u | u in t && u != id && ClashesWith(t[u], row)
      ensures exists k :: k in done && Collide(latest[k], latest[key])
    {
      assert t[u].source == source && t[u].externalID.Some?;
      assert t[u].externalID.value in done;
      assert t[u] == UserRow(source, latest[t[u].externalID.value], t[u].passwordHash);
    }
    forall k | k in done && Collide(latest[k], latest[key])
      ensures exists u :: u in t && u != id && ClashesWith(t[u], row)
    {
      var u :| u in t && Of(t[u], source, k);
      assert t[u] == UserRow(source, latest[k], t[u].passwordHash);
    }
  }

  /** A refresh row by row. */
  lemma RefreshedRows(s: Tables, t: Tables, labelID: Option<Id>, hostID: Option<Id>)
    requires t == Refreshed(s, labelID, hostID)
    ensures forall l, h ::
      l in t.labels && t.labels[l].kind == Derived && h in t.hosts
      && (labelID.None? || labelID == Some(l)) && (hostID.None? || hostID == Some(h)) ==>
        ((l, h) in t.rows <==>
          t.labels[l].criteria.Some?
          && exists u :: Resolves(t, h, u) && Meets(t, t.labels[l].criteria.value, u))
    ensures forall l, h ::
      l !in t.labels || t.labels[l].kind != Derived
      || (labelID.Some? && labelID != Some(l)) || (hostID.Some? && hostID != Some(h)) ==>
        ((l, h) in t.rows <==> (l, h) in s.rows)
  {
    forall l, h | IsDerived(s, l) && InScope(labelID, l) && InScope(hostID, h)
      ensures (l, h) in t.rows <==> Belongs(t, l, h)
    {
      RefreshIsExact(s, labelID, hostID, l, h);
    }
  }

  lemma MatchingIsDerivable(
    s: Tables, labelID: Option<Id>, hostID: Option<Id>, resolved: set<(Id, Id)>, matching: set<(Id, Id)>)
    requires forall h, u :: (h, u) in resolved <==> h in s.hosts && InScope(hostID, h) && Resolves(s, h, u)
    requires forall l, h :: (l, h) in matching <==>
      IsDerived(s, l) && InScope(labelID, l) && s.labels[l].criteria.Some?
      && exists u :: (h, u) in resolved && u in s.users && Meets(s, s.labels[l].criteria.value, u)
    ensures matching == Derivable(s, labelID, hostID)
  {
    forall l, h ensures (l, h) in matching <==>
        l in s.labels && h in s.hosts && InScope(labelID, l) && InScope(hostID, h) && Belongs(s, l, h) {}
    forall row ensures row in matching <==> row in Derivable(s, labelID, hostID) {
      assert row == (row.0, row.1);
    }
  }

  /** Derivation does not read the rows it derives. */
  lemma RowsDeriveNothing(s: Tables, t: Tables, labelID: Option<Id>, hostID: Option<Id>)
    requires t == s.(rows := t.rows)
    ensures Derivable(t, labelID, hostID) == Derivable(s, labelID, hostID)
  {
    forall l, h ensures Belongs(t, l, h) <==> Belongs(s, l, h) {
      SameDerivation(s, t, l, h);
    }
  }
}
