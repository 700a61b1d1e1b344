/** What each transaction on hosts, users and labels does to the tables. */
module DirectorySteps {
  import opened Basics
  import opened Directory
  import opened Strings

  datatype Fault = InvalidInput | NotFound | AlreadyExists | Conflict | Unexpected

  /** Handled is the answer of SetDynamicMemberships. */
  datatype Outcome = Done | Handled(count: nat) | Failed(fault: Fault)

  datatype LabelMutation = LabelMutation(
    name: string,
    kind: string,
    query: Option<string>,
    criteria: Option<(string, seq<string>)>,
    hostIDs: seq<Id>)

  datatype DynamicMembership = DynamicMembership(labelID: Id, matched: bool)

  datatype ProviderUser = ProviderUser(
    externalID: string,
    userPrincipalName: string,
    mail: string,
    mailNickname: string,
    displayName: string,
    givenName: string,
    familyName: string,
    department: string,
    enabled: bool,
    groupExternalIDs: seq<string>)

  datatype ProviderGroup = ProviderGroup(externalID: string, displayName: string, mailNickname: string)

  datatype ProviderSnapshot = ProviderSnapshot(users: seq<ProviderUser>, groups: seq<ProviderGroup>)

  const ALL_HOSTS := "all-hosts"

  const EMPTY := Tables({}, map[], map[], map[], {"admin", "viewer"}, map[], {},
                        map[Id(1) := Label("All Hosts", Some(ALL_HOSTS), Manual, None, None)], {}, 1, 1, 2)

  /** The end of a transaction: the refresh, or a rollback that leaves nothing but
      the advanced sequences of next. */
  ghost function Refreshing(next: Tables, t: Tables, labels: Option<Id>, hosts: Option<Id>): (Tables, Outcome) {
    if Refreshable(t, labels) then (Refreshed(t, labels, hosts), Done) else (next, Failed(InvalidInput))
  }

  // --------------------------------------------------------------------- hosts

  /** Enrolling, again or for the first time, puts a host among All Hosts. */
  ghost function Enrolled(s: Tables, host: Id): (Tables, Outcome) {
    (s.(hosts := s.hosts + {host},
        rows := s.rows + (set l | l in s.labels && s.labels[l].builtinKey == Some(ALL_HOSTS)
                                  && s.labels[l].kind == Manual :: (l, host))), Done)
  }

  /** Everything that refers to a host goes with it. */
  function WithoutHosts(s: Tables, ids: seq<Id>): Tables {
    s.(hosts := (set h | h in s.hosts && h !in ids),
       primary := (map at | at in s.primary && at.0 !in ids :: s.primary[at]),
       rows := (set row | row in s.rows && row.1 !in ids))
  }

  /** DeleteMany counts the hosts there were. */
  ghost function HostsDeleted(s: Tables, ids: seq<Id>): (Tables, Outcome) {
    (WithoutHosts(s, ids), Handled(|set h | h in s.hosts && h in ids|))
  }

  ghost function HostDeleted(s: Tables, id: Id): (Tables, Outcome) {
    if id !in s.hosts then (s, Failed(NotFound)) else (WithoutHosts(s, [id]), Done)
  }

  ghost function PrimaryUpserted(
    s: Tables, isEmail: string -> bool, host: Id, email: string, source: PrimarySource): (Tables, Outcome)
  {
    if Trim(email) == "" || !isEmail(Trim(email)) then (s, Failed(InvalidInput))
    else if host !in s.hosts then (s, Failed(NotFound))
    else Refreshing(s, s.(primary := s.primary[(host, source) := Trim(email)]), None, Some(host))
  }

  ghost function PrimaryDeleted(s: Tables, host: Id, source: PrimarySource): (Tables, Outcome) {
    if (host, source) !in s.primary && host !in s.hosts then (s, Failed(NotFound))
    else Refreshing(s, s.(primary := s.primary - {(host, source)}), None, Some(host))
  }

  // --------------------------------------------------------------------- users

  /** users_active_local_email_idx. */
  predicate LocalEmailTaken(s: Tables, email: string) {
    exists id :: id in s.users && s.users[id].source == Local && !s.users[id].deleted && s.users[id].email == email
  }

  ghost function UserCreated(s: Tables, email: string, name: string, hash: string, role: string)
    : (Tables, Outcome)
  {
    var id := Id(s.nextUser);
    var next := s.(nextUser := s.nextUser + 1);
    if LocalEmailTaken(s, email) then (next, Failed(AlreadyExists))
    else if role !in s.roleKeys then (next, Failed(InvalidInput))
    else
      var user := User(email, name, Some(hash), Local, None, None, None, None, None, None, false);
      Refreshing(next, next.(users := s.users[id := user], roles := s.roles[id := role]), None, None)
  }

  /** A created user is local and active, has the next id and the role, and is refused for
      the address of another active local user, for an unknown role, or by the refresh. */
  lemma CreatedUser(s: Tables, email: string, name: string, hash: string, role: string, t: Tables, outcome: Outcome)
    requires (t, outcome) == UserCreated(s, email, name, hash, role)
    ensures outcome == Failed(AlreadyExists) <==>
      exists u :: u in s.users && s.users[u].source == Local && !s.users[u].deleted && s.users[u].email == email
    ensures outcome == Done ==> role in s.roleKeys
    ensures outcome == Done ==>
      t.users.Keys == s.users.Keys + {Id(s.nextUser)} && t.roles == s.roles[Id(s.nextUser) := role]
      && forall u :: u in s.users && u != Id(s.nextUser) ==> t.users[u] == s.users[u]
    ensures outcome == Done ==>
      var user := t.users[Id(s.nextUser)];
      user.email == email && user.name == name && user.passwordHash == Some(hash) && user.source == Local
      && user.externalID.None? && user.userPrincipalName.None? && user.department.None? && !user.deleted
    ensures t.nextUser == s.nextUser + 1 && (outcome != Done ==> t == s.(nextUser := t.nextUser))
  {
    if outcome == Done {
      var user := User(email, name, Some(hash), Local, None, None, None, None, None, None, false);
      assert t.users == s.users[Id(s.nextUser) := user];
    }
  }

  /** The one change to users that refreshes nothing. */
  ghost function UserUpdated(s: Tables, id: Id, name: string, hash: Option<string>, role: Option<string>)
    : (Tables, Outcome)
  {
    if id !in s.users || s.users[id].deleted then (s, Failed(NotFound))
    else if role.Some? && role.value !in s.roleKeys then (s, Failed(InvalidInput))
    else
      var was := s.users[id];
      var user := if was.source != Local then was
                  else was.(name := name, passwordHash := if hash.Some? then hash else was.passwordHash);
      (s.(users := s.users[id := user],
          roles := if role.Some? then s.roles[id := role.value] else s.roles - {id}), Done)
  }

  ghost function UserDeleted(s: Tables, id: Id): (Tables, Outcome) {
    if id !in s.users || s.users[id].deleted then (s, Failed(NotFound))
    else if s.users[id].source == Local then
      Refreshing(s, s.(users := s.users - {id},
                       roles := s.roles - {id},
                       members := (set member | member in s.members && member.0 != id)), None, None)
    else Refreshing(s, s.(users := s.users[id := s.users[id].(deleted := true)]), None, None)
  }

  // -------------------------------------------------------------------- labels

  function KindOf(text: string): Option<MembershipKind> {
    if text == "" then Some(Dynamic)
    else
      var kind := Trim(text);
      if kind == "dynamic" then Some(Dynamic)
      else if kind == "manual" then Some(Manual)
      else if kind == "derived" then Some(Derived)
      else None
  }

  function AttributeOf(text: string): Attribute {
    if text == "user_department" then UserDepartment
    else if text == "directory_group" then DirectoryGroup
    else if text == "user" then SpecificUser
    else UnknownAttribute(text)
  }

  /** normalize and Validate: the row a mutation asks for, if it is valid. */
  function Checked(mutation: LabelMutation): Option<Label> {
    var name := Trim(mutation.name);
    var query := if mutation.query.Some? then Some(Trim(mutation.query.value)) else None;
    var criteria := if mutation.criteria.Some?
                    then Some(Criteria(AttributeOf(Trim(mutation.criteria.value.0)),
                                       NormalizedValues(mutation.criteria.value.1)))
                    else None;
    if name == "" then None
    else
      match KindOf(mutation.kind)
      case None => None
      case Some(Dynamic) =>
        if query.GetOr("") == "" || criteria.Some? || mutation.hostIDs != [] then None
        else Some(Label(name, None, Dynamic, query, None))
      case Some(Manual) =>
        if query.Some? || criteria.Some? then None
        else Some(Label(name, None, Manual, None, None))
      case Some(Derived) =>
        if query.Some? || mutation.hostIDs != [] || !ValidCriteria(criteria) then None
        else Some(Label(name, None, Derived, None, criteria))
  }

  lemma KindIsRead(text: string)
    ensures KindOf(text) == Some(Dynamic) <==> text == "" || Trim(text) == "dynamic"
    ensures KindOf(text) == Some(Manual) <==> Trim(text) == "manual"
    ensures KindOf(text) == Some(Derived) <==> Trim(text) == "derived"
  {
    assert Trim("") == "";
  }

  lemma AttributeIsRead(text: string)
    ensures AttributeOf(text) == UserDepartment <==> text == "user_department"
    ensures AttributeOf(text) == DirectoryGroup <==> text == "directory_group"
    ensures AttributeOf(text) == SpecificUser <==> text == "user"
  {}

  /** What a mutation of a kind must be to be accepted: named, and with the query, the
      criteria or the hosts that the kind takes and nothing that it does not. */
  lemma CheckedIsAccepted(mutation: LabelMutation, kind: MembershipKind)
    requires KindOf(mutation.kind) == Some(kind)
    ensures Checked(mutation).Some? <==>
      Trim(mutation.name) != ""
      && match kind
         case Dynamic =>
           mutation.query.Some? && Trim(mutation.query.value) != "" && mutation.criteria.None?
           && mutation.hostIDs == []
         case Manual => mutation.query.None? && mutation.criteria.None?
         case Derived =>
           mutation.query.None? && mutation.hostIDs == [] && mutation.criteria.Some?
           && AttributeOf(Trim(mutation.criteria.value.0)) in {UserDepartment, DirectoryGroup, SpecificUser}
           && exists i :: 0 <= i < |mutation.criteria.value.1| && Trim(mutation.criteria.value.1[i]) != ""
  {
    if mutation.criteria.Some? {
      UsableCriteria(AttributeOf(Trim(mutation.criteria.value.0)), mutation.criteria.value.1);
    }
  }

  /** The row an accepted mutation asks for. */
  lemma CheckedRow(mutation: LabelMutation)
    requires Checked(mutation).Some?
    ensures var row := Checked(mutation).value;
      KindOf(mutation.kind) == Some(row.kind) && row.name == Trim(mutation.name) && row.builtinKey.None?
      && row.query == (if row.kind == Dynamic then Some(Trim(mutation.query.GetOr(""))) else None)
      && row.criteria == if row.kind == Derived && mutation.criteria.Some?
                         then Some(Criteria(AttributeOf(Trim(mutation.criteria.value.0)),
                                            NormalizedValues(mutation.criteria.value.1)))
                         else None
  {}

  predicate LabelNameTaken(s: Tables, name: string, but: Id) {
    exists id :: id in s.labels && id != but && s.labels[id].name == name
  }

  function WithoutRows(s: Tables, id: Id): Tables {
    s.(rows := (set row | row in s.rows && row.0 != id))
  }

  /** replaceMembership, once the label's own row is written. */
  ghost function MembershipReplaced(s: Tables, id: Id, hostIDs: seq<Id>): (Tables, Outcome)
    requires id in s.labels
  {
    match s.labels[id].kind
    case Dynamic => (WithoutRows(s, id), Done)
    case Derived => Refreshing(s, s, Some(id), None)
    case Manual =>
      if exists i, j :: 0 <= i < j < |hostIDs| && hostIDs[i] == hostIDs[j] then (s, Failed(AlreadyExists))
      else if exists host :: host in hostIDs && host !in s.hosts then (s, Failed(NotFound))
      else (s.(rows := WithoutRows(s, id).rows + (set host | host in hostIDs :: (id, host))), Done)
  }

  /** Write a label's row and then its membership; before is what a rollback
      leaves. */
  ghost function LabelWritten(before: Tables, id: Id, row: Label, hostIDs: seq<Id>): (Tables, Outcome) {
    if LabelNameTaken(before, row.name, id) then (before, Failed(AlreadyExists))
    else
      var (t, outcome) := MembershipReplaced(before.(labels := before.labels[id := row]), id, hostIDs);
      if outcome == Done then (t, Done) else (before, outcome)
  }

  /** The label sequence after one more id. */
  function WithNextLabel(s: Tables): Tables {
    s.(nextLabel := s.nextLabel + 1)
  }

  ghost function LabelCreated(s: Tables, row: Option<Label>, hostIDs: seq<Id>): (Tables, Outcome) {
    if row.None? then (s, Failed(InvalidInput))
    else LabelWritten(WithNextLabel(s), Id(s.nextLabel), row.value, hostIDs)
  }

  /** A label's membership after it is written: none for a dynamic label, the listed hosts
      for a manual one, whatever the refresh derives for a derived one. Other labels keep
      theirs. */
  lemma WrittenLabel(before: Tables, id: Id, row: Label, hostIDs: seq<Id>, t: Tables)
    requires LabelWritten(before, id, row, hostIDs) == (t, Done)
    ensures t.labels.Keys == before.labels.Keys + {id} && t.labels[id] == row
    ensures forall l :: l in before.labels && l != id ==>
      t.labels[l] == before.labels[l] && t.labels[l].name != row.name
    ensures row.kind == Dynamic ==> forall h :: (id, h) !in t.rows
    ensures row.kind == Manual ==> forall h :: (id, h) in t.rows <==> h in hostIDs
    ensures row.kind == Manual ==> forall h :: h in hostIDs ==> h in before.hosts
    ensures row.kind == Manual ==> forall i, j :: 0 <= i < j < |hostIDs| ==> hostIDs[i] != hostIDs[j]
    ensures row.kind == Derived ==> forall h :: (id, h) in t.rows <==> Belongs(t, id, h)
    ensures forall l, h :: l != id ==> ((l, h) in t.rows <==> (l, h) in before.rows)
  {
    if row.kind == Derived {
      var written := before.(labels := before.labels[id := row]);
      forall h ensures (id, h) in t.rows <==> Belongs(t, id, h) {
        RefreshIsExact(written, Some(id), None, id, h);
      }
    }
  }

  /** A write is refused for the name of another label, and a manual one for a host that
      is listed twice or does not exist. */
  lemma RefusedLabel(before: Tables, id: Id, row: Label, hostIDs: seq<Id>, t: Tables, outcome: Outcome)
    requires (t, outcome) == LabelWritten(before, id, row, hostIDs) && outcome != Done
    ensures t == before
    ensures outcome == Failed(AlreadyExists) <==>
      (exists l :: l in before.labels && l != id && before.labels[l].name == row.name)
      || (row.kind == Manual && exists i, j :: 0 <= i < j < |hostIDs| && hostIDs[i] == hostIDs[j])
    ensures outcome == Failed(NotFound) ==> row.kind == Manual && exists h :: h in hostIDs && h !in before.hosts
    ensures outcome == Failed(InvalidInput) ==> row.kind == Derived
    ensures outcome == Failed(AlreadyExists) || outcome == Failed(NotFound) || outcome == Failed(InvalidInput)
  {}

  predicate IsRegular(s: Tables, id: Id) {
    id in s.labels && s.labels[id].builtinKey.None?
  }

  ghost function LabelUpdated(s: Tables, id: Id, row: Option<Label>, hostIDs: seq<Id>): (Tables, Outcome) {
    if row.None? then (s, Failed(InvalidInput))
    else if !IsRegular(s, id) then (s, Failed(NotFound))
    else LabelWritten(s, id, row.value, hostIDs)
  }

  /** referenced: another table holds a reference that forbids the delete. */
  ghost function LabelDeleted(s: Tables, id: Id, referenced: bool): (Tables, Outcome) {
    if !IsRegular(s, id) then (s, Failed(NotFound))
    else if referenced then (s, Failed(Conflict))
    else (WithoutRows(s, id).(labels := s.labels - {id}), Done)
  }

  ghost predicate Duplicated(results: seq<DynamicMembership>) {
    exists i, j :: 0 <= i < j < |results| && results[i].labelID == results[j].labelID
  }

  predicate Applies(s: Tables, result: DynamicMembership) {
    result.labelID in s.labels && s.labels[result.labelID].kind == Dynamic
  }

  function Applicable(s: Tables, results: seq<DynamicMembership>): seq<DynamicMembership> {
    if results == [] then []
    else
      var rest := Applicable(s, results[..|results| - 1]);
      if Applies(s, results[|results| - 1]) then rest + [results[|results| - 1]] else rest
  }

  lemma {:induction false} ApplicableAreDynamic(s: Tables, results: seq<DynamicMembership>)
    ensures forall result :: result in Applicable(s, results) <==> result in results && Applies(s, result)
  {
    if results != [] {
      ApplicableAreDynamic(s, results[..|results| - 1]);
      assert results == results[..|results| - 1] + [results[|results| - 1]];
    }
  }

  lemma {:induction false} ApplicableInOrder(
    s: Tables, results: seq<DynamicMembership>, applies: DynamicMembership -> bool)
    requires forall result :: applies(result) <==> Applies(s, result)
    ensures var kept := Kept(applies, results);
      |Applicable(s, results)| == |kept|
      && forall i :: 0 <= i < |kept| ==> Applicable(s, results)[i] == results[kept[i]]
  {
    if results != [] {
      ApplicableInOrder(s, results[..|results| - 1], applies);
    }
  }

  /** Only dynamic labels are touched, and only for the host that answered. */
  ghost function DynamicSet(s: Tables, host: Id, results: seq<DynamicMembership>): (Tables, Outcome) {
    if results == [] then (s, Handled(0))
    else if Duplicated(results) then (s, Failed(InvalidInput))
    else if host !in s.hosts
            && exists result :: result in results && Applies(s, result) && result.matched
    then (s, Failed(Unexpected))
    else
      (s.(rows := (set row | row in s.rows
                     && !(row.1 == host && DynamicMembership(row.0, false) in Applicable(s, results)))
                  + (set result | result in Applicable(s, results) && result.matched :: (result.labelID, host))),
       Handled(|Applicable(s, results)|))
  }

  /** Results are refused when they name a label twice, or find a label for a host that
      is not there. */
  lemma SetDynamicRefuses(s: Tables, host: Id, results: seq<DynamicMembership>)
    ensures DynamicSet(s, host, results).1 == Failed(InvalidInput) <==>
      exists i, j :: 0 <= i < j < |results| && results[i].labelID == results[j].labelID
    ensures DynamicSet(s, host, results).1 == Failed(Unexpected) <==>
      host !in s.hosts && DynamicSet(s, host, results).1 != Failed(InvalidInput)
      && exists i :: 0 <= i < |results| && results[i].labelID in s.labels
           && s.labels[results[i].labelID].kind == Dynamic && results[i].matched
    ensures DynamicSet(s, host, results).1.Failed? ==> DynamicSet(s, host, results).0 == s
  {}

  /** After results are stored, a reported dynamic label has the host exactly when it
      matched; every other row stays, and the answer counts the dynamic labels reported. */
  lemma SetDynamicRows(
    s: Tables, host: Id, results: seq<DynamicMembership>, t: Tables, count: nat, dynamic: DynamicMembership -> bool)
    requires DynamicSet(s, host, results) == (t, Handled(count))
    requires forall result :: dynamic(result) <==>
      result.labelID in s.labels && s.labels[result.labelID].kind == Dynamic
    ensures t == s.(rows := t.rows)
    ensures forall i | 0 <= i < |results| && dynamic(results[i]) ::
      (results[i].labelID, host) in t.rows <==> results[i].matched
    ensures count == |Kept(dynamic, results)|
    ensures forall l, h ::
      h != host || l !in s.labels || s.labels[l].kind != Dynamic
      || (forall i :: 0 <= i < |results| ==> results[i].labelID != l) ==>
        ((l, h) in t.rows <==> (l, h) in s.rows)
  {
    ApplicableAreDynamic(s, results);
    ApplicableInOrder(s, results, dynamic);
    forall i | 0 <= i < |results| && Applies(s, results[i])
      ensures (results[i].labelID, host) in t.rows <==> results[i].matched
    {
      assert results[i] in Applicable(s, results);
    }
  }

  // ----------------------------------------------------------- provider snapshot

  /** DISTINCT ON (external_id) ... ORDER BY position DESC: the last entry of each
      external id. */
  function Latest<T>(externalID: T -> string, entries: seq<T>): (latest: map<string, T>)
    ensures forall key :: key in latest ==> latest[key] in entries && externalID(latest[key]) == key
  {
    if entries == [] then map[]
    else
      var last := entries[|entries| - 1];
      Latest(externalID, entries[..|entries| - 1])[externalID(last) := last]
  }

  function LatestUsers(users: seq<ProviderUser>): (latest: map<string, ProviderUser>)
    ensures forall key :: key in latest ==> latest[key] in users && latest[key].externalID == key
  {
    Latest((user: ProviderUser) => user.externalID, users)
  }

  function LatestGroups(groups: seq<ProviderGroup>): (latest: map<string, ProviderGroup>)
    ensures forall key :: key in latest ==> latest[key] in groups && latest[key].externalID == key
  {
    Latest((group: ProviderGroup) => group.externalID, groups)
  }

  function NullString(s: string): Option<string> {
    if s == "" then None else Some(s)
  }

  function GroupRow(source: Source, entry: ProviderGroup): Group {
    Group(source, entry.externalID, entry.displayName, NullString(entry.mailNickname))
  }

  /** COALESCE(mail, user_principal_name) of the trimmed values. */
  function EmailOf(entry: ProviderUser): string {
    NullString(Trim(entry.mail)).GetOr(Trim(entry.userPrincipalName))
  }

  function UserRow(source: Source, entry: ProviderUser, hash: Option<string>): User {
    User(EmailOf(entry), entry.displayName, hash, source,
         Some(entry.externalID), Some(Trim(entry.userPrincipalName)),
         NullString(entry.mailNickname), NullString(entry.givenName),
         NullString(entry.familyName), NullString(entry.department), !entry.enabled)
  }

  /** Two enabled entries that one directory cannot have at once. */
  predicate Collide(a: ProviderUser, b: ProviderUser) {
    a.enabled && b.enabled
    && (EmailOf(a) == EmailOf(b) || Trim(a.userPrincipalName) == Trim(b.userPrincipalName))
  }

  ghost predicate Clashes(latest: map<string, ProviderUser>) {
    exists a, b :: a in latest && b in latest && a != b && Collide(latest[a], latest[b])
  }

  predicate Of(user: User, source: Source, key: string) {
    user.source == source && user.externalID == Some(key)
  }

  /** The users after the entries in done are written: nobody else's users change,
      every row keeps its id and identity, the source's other users are tombstones,
      and there is exactly one row per written entry. */
  ghost predicate UsersReplaced(
    s: map<Id, User>, first: nat, source: Source, latest: map<string, ProviderUser>, done: set<string>,
    t: map<Id, User>)
    requires done <= latest.Keys
  {
    KeepsUsers(s, source, t)
    && Tombstones(s, source, done, t)
    && Written(source, latest, done, t)
    && (forall key :: key in done ==> Covered(source, key, t))
    && NewUsersWritten(s, first, source, done, t)
    && UsersDistinct(t)
  }

  ghost predicate KeepsUsers(s: map<Id, User>, source: Source, t: map<Id, User>) {
    forall id :: id in s ==>
      id in t
      && if s[id].source != source then t[id] == s[id]
         else t[id].source == source
              && t[id].externalID == s[id].externalID && t[id].passwordHash == s[id].passwordHash
  }

  ghost predicate Tombstones(s: map<Id, User>, source: Source, done: set<string>, t: map<Id, User>) {
    forall id :: id in s && id in t && s[id].source == source && s[id].externalID.GetOr("") !in done ==>
      t[id] == s[id].(deleted := true)
  }

  ghost predicate Written(
    source: Source, latest: map<string, ProviderUser>, done: set<string>, t: map<Id, User>)
    requires done <= latest.Keys
  {
    forall id :: id in t && t[id].source == source && t[id].externalID.Some? && t[id].externalID.value in done ==>
      t[id] == UserRow(source, latest[t[id].externalID.value], t[id].passwordHash)
  }

  ghost predicate Covered(source: Source, key: string, t: map<Id, User>) {
    exists id :: id in t && Of(t[id], source, key)
  }

  ghost predicate NewUsersWritten(
    s: map<Id, User>, first: nat, source: Source, done: set<string>, t: map<Id, User>)
  {
    forall id :: id in t && id !in s ==>
      t[id].source == source && t[id].externalID.GetOr("") in done && t[id].passwordHash.None?
      && id.number >= first
  }

  /** UNIQUE (source, external_id), where only local users have none. */
  ghost predicate UsersDistinct(users: map<Id, User>) {
    (forall id :: id in users ==> (users[id].source == Local <==> users[id].externalID.None?))
    && (forall a, b ::
          a in users && b in users && a != b && users[a].source == users[b].source && users[a].externalID.Some?
          ==> users[a].externalID != users[b].externalID)
  }

  /** UNIQUE (source, external_id). */
  ghost predicate GroupsDistinct(groups: map<Id, Group>) {
    forall a, b :: a in groups && b in groups && a != b && groups[a].source == groups[b].source ==>
      groups[a].externalID != groups[b].externalID
  }

  /** The groups after the entries in done are upserted and, when pruned, the
      source's other groups deleted. */
  ghost predicate GroupsReplaced(
    s: map<Id, Group>, first: nat, source: Source, latest: map<string, ProviderGroup>, done: set<string>,
    pruned: bool, t: map<Id, Group>)
    requires done <= latest.Keys
  {
    (forall id :: id in s && s[id].source != source ==> id in t && t[id] == s[id])
    && (forall id :: id in s && s[id].source == source && (s[id].externalID in done || !pruned) ==>
          id in t && t[id].source == source && t[id].externalID == s[id].externalID
          && (s[id].externalID !in done ==> t[id] == s[id]))
    && (forall id :: id in t && t[id].source == source && t[id].externalID in done ==>
          t[id] == GroupRow(source, latest[t[id].externalID]))
    && (forall id :: id in s && s[id].source == source && s[id].externalID !in done && pruned ==> id !in t)
    && (forall key :: key in done ==> GroupCovered(source, key, t))
    && (forall id :: id in t && id !in s ==>
          t[id].source == source && t[id].externalID in done && id.number >= first)
    && GroupsDistinct(t)
  }

  ghost predicate GroupCovered(source: Source, key: string, t: map<Id, Group>) {
    exists id :: id in t && t[id].source == source && t[id].externalID == key
  }

  /** Membership between the source's users and groups is the snapshot's; every
      other membership of a remaining group is kept. */
  ghost predicate MembersReplaced(s: Tables, source: Source, latest: map<string, ProviderUser>, t: Tables) {
    forall user, group ::
      (user, group) in t.members <==>
        if user in t.users && group in t.groups && t.users[user].source == source && t.groups[group].source == source
        then Member(latest, t.users[user], t.groups[group])
        else (user, group) in s.members && group in t.groups
  }

  predicate Member(latest: map<string, ProviderUser>, user: User, group: Group) {
    user.externalID.Some? && user.externalID.value in latest
    && group.externalID in latest[user.externalID.value].groupExternalIDs
  }

  /** ApplyProviderSnapshot. The ids of new rows are the database's to choose. */
  ghost predicate SnapshotApplied(
    s: Tables, source: Source, snapshot: ProviderSnapshot, t: Tables, outcome: Outcome)
  {
    var users, groups := LatestUsers(snapshot.users), LatestGroups(snapshot.groups);
    s.nextUser <= t.nextUser && s.nextGroup <= t.nextGroup
    && if source == Local then t == s && outcome == Failed(Unexpected)
       else if Clashes(users) || !Refreshable(s, None) then
         t == s.(nextUser := t.nextUser, nextGroup := t.nextGroup)
         && outcome == Failed(if Clashes(users) then Unexpected else InvalidInput)
       else
         outcome == Done
         && UsersReplaced(s.users, s.nextUser, source, users, users.Keys, t.users)
         && GroupsReplaced(s.groups, s.nextGroup, source, groups, groups.Keys, true, t.groups)
         && MembersReplaced(s, source, users, t)
         && IdsBelow(t)
         && t == Refreshed(t.(rows := s.rows), None, None)
         && t == s.(users := t.users, groups := t.groups, members := t.members, rows := t.rows,
                    nextUser := t.nextUser, nextGroup := t.nextGroup)
  }

  /** Ids come from the sequences. */
  ghost predicate IdsBelow(s: Tables) {
    (forall id :: id in s.users ==> id.number < s.nextUser)
    && (forall id :: id in s.groups ==> id.number < s.nextGroup)
    && (forall id :: id in s.labels ==> id.number < s.nextLabel)
  }

  // ---------------------------------------------------------------------- a step

  datatype Operation =
    | Enroll(host: Id)
    | DeleteHost(host: Id)
    | DeleteHosts(ids: seq<Id>)
    | UpsertPrimary(host: Id, email: string, primarySource: PrimarySource)
    | DeletePrimary(host: Id, primarySource: PrimarySource)
    | CreateUser(email: string, name: string, passwordHash: string, roleKey: string)
    | UpdateUser(user: Id, name: string, hash: Option<string>, role: Option<string>)
    | DeleteUser(user: Id)
    | ApplySnapshot(source: Source, snapshot: ProviderSnapshot)
    | CreateLabel(mutation: LabelMutation)
    | UpdateLabel(labelID: Id, mutation: LabelMutation)
    | DeleteLabel(labelID: Id, referenced: bool)
    | SetDynamic(host: Id, results: seq<DynamicMembership>)
    | RefreshAll

  /** What one transaction may do. Only a snapshot leaves the database a choice. */
  ghost predicate Step(isEmail: string -> bool, s: Tables, op: Operation, t: Tables, outcome: Outcome) {
    match op
    case Enroll(host) => (t, outcome) == Enrolled(s, host)
    case DeleteHost(host) => (t, outcome) == HostDeleted(s, host)
    case DeleteHosts(ids) => (t, outcome) == HostsDeleted(s, ids)
    case UpsertPrimary(host, email, source) => (t, outcome) == PrimaryUpserted(s, isEmail, host, email, source)
    case DeletePrimary(host, source) => (t, outcome) == PrimaryDeleted(s, host, source)
    case CreateUser(email, name, hash, role) => (t, outcome) == UserCreated(s, email, name, hash, role)
    case UpdateUser(id, name, hash, role) => (t, outcome) == UserUpdated(s, id, name, hash, role)
    case DeleteUser(id) => (t, outcome) == UserDeleted(s, id)
    case ApplySnapshot(source, snapshot) => SnapshotApplied(s, source, snapshot, t, outcome)
    case CreateLabel(mutation) => (t, outcome) == LabelCreated(s, Checked(mutation), mutation.hostIDs)
    case UpdateLabel(id, mutation) => (t, outcome) == LabelUpdated(s, id, Checked(mutation), mutation.hostIDs)
    case DeleteLabel(id, referenced) => (t, outcome) == LabelDeleted(s, id, referenced)
    case SetDynamic(host, results) => (t, outcome) == DynamicSet(s, host, results)
    case RefreshAll => (t, outcome) == Refreshing(s, s, None, None)
  }
}
