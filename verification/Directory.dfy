/** Hosts, their primary users, the user directory and labels: the tables, and
    what membership of a derived label means. */
module Directory {
  import opened Basics
  import opened Strings

  datatype Source = Local | Entra

  datatype User = User(
    email: string,
    name: string,
    passwordHash: Option<string>,
    source: Source,
    externalID: Option<string>,
    userPrincipalName: Option<string>,
    mailNickname: Option<string>,
    givenName: Option<string>,
    familyName: Option<string>,
    department: Option<string>,
    deleted: bool)

  datatype Group = Group(
    source: Source,
    externalID: string,
    displayName: string,
    mailNickname: Option<string>)

  datatype PrimarySource = ManualSource | OrbitProfile

  datatype Attribute = UserDepartment | DirectoryGroup | SpecificUser | UnknownAttribute(name: string)

  datatype Criteria = Criteria(attribute: Attribute, values: seq<string>)

  datatype MembershipKind = Manual | Dynamic | Derived

  datatype Label = Label(
    name: string,
    builtinKey: Option<string>,
    kind: MembershipKind,
    query: Option<string>,
    criteria: Option<Criteria>)

  /** members holds (user, group) pairs and rows the label_membership table as
      (label, host) pairs. roleKeys are the roles there are. The next* fields are
      the id sequences. */
  datatype Tables = Tables(
    hosts: set<Id>,
    primary: map<(Id, PrimarySource), string>,
    users: map<Id, User>,
    roles: map<Id, string>,
    roleKeys: set<string>,
    groups: map<Id, Group>,
    members: set<(Id, Id)>,
    labels: map<Id, Label>,
    rows: set<(Id, Id)>,
    nextUser: nat,
    nextGroup: nat,
    nextLabel: nat)

  // ------------------------------------------------------------- primary users

  /** The address of a host's preferred source: manual, then orbit_profile. */
  function Preferred(s: Tables, host: Id): Option<string> {
    if (host, ManualSource) in s.primary then Some(s.primary[(host, ManualSource)])
    else if (host, OrbitProfile) in s.primary then Some(s.primary[(host, OrbitProfile)])
    else None
  }

  predicate Answers(user: User, address: string) {
    !user.deleted && (user.email == address || user.userPrincipalName == Some(address))
  }

  /** ORDER BY email match, directory source, id. */
  predicate Outranks(a: User, aID: Id, b: User, bID: Id, address: string) {
    var aMiss, bMiss := a.email != address, b.email != address;
    if aMiss != bMiss then bMiss
    else if (a.source == Local) != (b.source == Local) then b.source == Local
    else aID.number < bID.number
  }

  /** The host's primary user: the first user its preferred address leads to. */
  predicate Resolves(s: Tables, host: Id, user: Id) {
    Preferred(s, host).Some?
    && user in s.users
    && Answers(s.users[user], Preferred(s, host).value)
    && forall other ::
         other in s.users && other != user && Answers(s.users[other], Preferred(s, host).value)
         ==> Outranks(s.users[user], user, s.users[other], other, Preferred(s, host).value)
  }

  /** A host resolves by its manual address if it has one, and otherwise by its Orbit
      profile's, to the active user with that email or principal name whom no other one
      precedes: a match by email comes first, then a directory user, then the least id. */
  lemma ResolvesByPreference(s: Tables, host: Id, user: Id, source: PrimarySource, address: string)
    requires (host, source) in s.primary && s.primary[(host, source)] == address
    requires source == OrbitProfile ==> (host, ManualSource) !in s.primary
    ensures Resolves(s, host, user) <==>
      user in s.users && !s.users[user].deleted
      && (s.users[user].email == address || s.users[user].userPrincipalName == Some(address))
      && forall other | other in s.users && other != user && !s.users[other].deleted
             && (s.users[other].email == address || s.users[other].userPrincipalName == Some(address)) ::
           (s.users[other].email == address ==> s.users[user].email == address)
           && ((s.users[other].email == address <==> s.users[user].email == address) ==>
                 (s.users[other].source != Local ==> s.users[user].source != Local)
                 && ((s.users[other].source == Local <==> s.users[user].source == Local) ==>
                       user.number < other.number))
  {
    assert Preferred(s, host) == Some(address);
  }

  /** What leads a host to a user: its manual address, or its Orbit profile's where there
      is no manual one. A host without either has no primary user. */
  lemma ResolvedAddress(s: Tables, host: Id, user: Id)
    requires Resolves(s, host, user)
    ensures user in s.users && !s.users[user].deleted
    ensures (host, ManualSource) in s.primary ==>
      s.users[user].email == s.primary[(host, ManualSource)]
      || s.users[user].userPrincipalName == Some(s.primary[(host, ManualSource)])
    ensures (host, ManualSource) !in s.primary ==>
      (host, OrbitProfile) in s.primary
      && (s.users[user].email == s.primary[(host, OrbitProfile)]
          || s.users[user].userPrincipalName == Some(s.primary[(host, OrbitProfile)]))
  {}

  // ------------------------------------------------------------ derived labels

  /** SQL btrim: spaces only. */
  function BTrim(s: string): string {
    if s != "" && s[0] == ' ' then BTrim(s[1..])
    else if s != "" && s[|s| - 1] == ' ' then BTrim(s[..|s| - 1])
    else s
  }

  /** Trimming drops exactly the spaces around a text that begins and ends without one. */
  lemma {:induction false} BTrimDropsSpaces(s: string) returns (i: nat, j: nat)
    ensures BTrim(s) == "" || (BTrim(s)[0] != ' ' && BTrim(s)[|BTrim(s)| - 1] != ' ')
    ensures IsWithin(c => c == ' ', s, i, j) && BTrim(s) == s[i..j]
  {
    if s != "" && s[0] == ' ' {
      i, j := BTrimDropsSpaces(s[1..]);
      i, j := i + 1, j + 1;
    } else if s != "" && s[|s| - 1] == ' ' {
      i, j := BTrimDropsSpaces(s[..|s| - 1]);
    } else {
      i, j := 0, |s|;
    }
  }

  predicate Selects(criteria: Criteria, attribute: Attribute, value: string) {
    criteria.attribute == attribute && value != "" && exists v :: v in criteria.values && BTrim(v) == value
  }

  /** A user meets criteria by department, by a group's external id or by id. */
  predicate Meets(s: Tables, criteria: Criteria, user: Id)
    requires user in s.users
  {
    Selects(criteria, UserDepartment, s.users[user].department.GetOr(""))
    || Selects(criteria, SpecificUser, FormatInt(user.number))
    || exists group :: group in s.groups && (user, group) in s.members
         && Selects(criteria, DirectoryGroup, s.groups[group].externalID)
  }

  /** Criteria are met by one of their trimmed values, which an empty one never does: the
      user's department, its id in decimal, or the external id of one of its groups. */
  lemma MeetsByValue(s: Tables, criteria: Criteria, user: Id)
    requires user in s.users
    ensures Meets(s, criteria, user) <==>
      exists v :: v in criteria.values && BTrim(v) != ""
        && match criteria.attribute
           case UserDepartment => s.users[user].department == Some(BTrim(v))
           case SpecificUser => FormatInt(user.number) == BTrim(v)
           case DirectoryGroup =>
             exists group :: group in s.groups && (user, group) in s.members && s.groups[group].externalID == BTrim(v)
           case UnknownAttribute(_) => false
  {
    FormatIsDigits(user.number);
  }

  predicate IsDerived(s: Tables, labelID: Id) {
    labelID in s.labels && s.labels[labelID].kind == Derived
  }

  /** What derived membership means, from scratch. */
  ghost predicate Belongs(s: Tables, labelID: Id, host: Id) {
    IsDerived(s, labelID) && s.labels[labelID].criteria.Some? && host in s.hosts
    && exists user :: Resolves(s, host, user) && Meets(s, s.labels[labelID].criteria.value, user)
  }

  /** A host has a row of a derived label exactly when it belongs to it. */
  ghost predicate ExactAt(s: Tables, labelID: Id, host: Id) {
    IsDerived(s, labelID) ==> ((labelID, host) in s.rows <==> Belongs(s, labelID, host))
  }

  /** The rows of every derived label are exactly its members. */
  ghost predicate Exact(s: Tables) {
    forall labelID, host :: ExactAt(s, labelID, host)
  }

  function NormalizedValues(values: seq<string>): seq<string> {
    if values == [] then []
    else
      var value := Trim(values[|values| - 1]);
      NormalizedValues(values[..|values| - 1]) + (if value == "" then [] else [value])
  }

  predicate IsNonblank(value: string) {
    Trim(value) != ""
  }

  /** The nonblank values, trimmed, in order and as often as they are given. */
  lemma {:induction false} NormalizedInOrder(values: seq<string>)
    ensures var kept := Kept(IsNonblank, values);
      |NormalizedValues(values)| == |kept|
      && forall i :: 0 <= i < |kept| ==> NormalizedValues(values)[i] == Trim(values[kept[i]])
  {
    if values != [] {
      NormalizedInOrder(values[..|values| - 1]);
    }
  }

  ghost predicate SaysSomething(values: seq<string>) {
    exists i :: 0 <= i < |values| && Trim(values[i]) != ""
  }

  lemma NormalizedSays(values: seq<string>)
    ensures NormalizedValues(values) != [] <==> SaysSomething(values)
    ensures SaysSomething(NormalizedValues(values)) <==> SaysSomething(values)
  {
    NormalizedInOrder(values);
    var kept := Kept(IsNonblank, values);
    if i: nat :| i < |values| && Trim(values[i]) != "" {
      assert i in kept;
    }
    if NormalizedValues(values) != [] {
      assert kept[0] in kept;
      TrimIsTrimmed(values[kept[0]]);
      TrimIsTrimmed(NormalizedValues(values)[0]);
      assert Trim(NormalizedValues(values)[0]) != "";
    }
  }

  /** Normalized criteria are usable when the attribute is known and some value is not
      blank. */
  lemma UsableCriteria(attribute: Attribute, values: seq<string>)
    ensures ValidCriteria(Some(Criteria(attribute, NormalizedValues(values)))) <==>
      attribute in {UserDepartment, DirectoryGroup, SpecificUser}
      && exists i :: 0 <= i < |values| && Trim(values[i]) != ""
  {
    NormalizedSays(values);
    NormalizedSays(NormalizedValues(values));
    assert attribute.UnknownAttribute? <==> attribute !in {UserDepartment, DirectoryGroup, SpecificUser};
  }

  predicate ValidCriteria(criteria: Option<Criteria>) {
    criteria.Some?
    && !criteria.value.attribute.UnknownAttribute?
    && NormalizedValues(criteria.value.values) != []
  }

  // ------------------------------------------------------------------- refresh

  predicate InScope(scope: Option<Id>, id: Id) {
    scope == None || scope == Some(id)
  }

  ghost function Derivable(s: Tables, labels: Option<Id>, hosts: Option<Id>): set<(Id, Id)> {
    set l, h | l in s.labels && h in s.hosts
      && InScope(labels, l) && InScope(hosts, h) && Belongs(s, l, h) :: (l, h)
  }

  /** Refreshing recomputes the rows of derived labels in scope and leaves every
      other row. */
  ghost function Refreshed(s: Tables, labels: Option<Id>, hosts: Option<Id>): Tables {
    s.(rows := (set row | row in s.rows
                  && !(IsDerived(s, row.0) && InScope(labels, row.0) && InScope(hosts, row.1)))
               + Derivable(s, labels, hosts))
  }

  /** A refresh is refused when a derived label it covers has unusable criteria. */
  ghost predicate Refreshable(s: Tables, labels: Option<Id>) {
    forall l :: IsDerived(s, l) && InScope(labels, l) ==> ValidCriteria(s.labels[l].criteria)
  }

  /** A refresh makes every derived row in its scope exact. */
  lemma RefreshIsExact(s: Tables, labels: Option<Id>, hosts: Option<Id>, l: Id, h: Id)
    requires IsDerived(s, l) && InScope(labels, l) && InScope(hosts, h)
    ensures (l, h) in Refreshed(s, labels, hosts).rows <==> Belongs(Refreshed(s, labels, hosts), l, h)
  {
    SameDerivation(s, Refreshed(s, labels, hosts), l, h);
  }

  /** Everything outside the scope, and every manual or dynamic row, is left. */
  lemma RefreshKeepsOtherRows(s: Tables, labels: Option<Id>, hosts: Option<Id>, l: Id, h: Id)
    requires !IsDerived(s, l) || !InScope(labels, l) || !InScope(hosts, h)
    ensures (l, h) in Refreshed(s, labels, hosts).rows <==> (l, h) in s.rows
  {}

  /** Two states that agree on everything derivation reads of the directory. */
  ghost predicate SameIdentities(s: Tables, t: Tables) {
    s.groups == t.groups && s.members == t.members
    && s.users.Keys == t.users.Keys
    && forall user :: user in s.users ==> SameIdentity(s.users[user], t.users[user])
  }

  ghost predicate SameIdentity(u: User, v: User) {
    u.email == v.email && u.userPrincipalName == v.userPrincipalName
    && u.department == v.department && u.source == v.source && u.deleted == v.deleted
  }

  /** Derivation for a label and a host depends on nothing else. */
  lemma SameDerivation(s: Tables, t: Tables, labelID: Id, host: Id)
    requires SameIdentities(s, t)
    requires host in s.hosts <==> host in t.hosts
    requires Preferred(s, host) == Preferred(t, host)
    requires IsDerived(s, labelID) ==>
      IsDerived(t, labelID) && s.labels[labelID].criteria == t.labels[labelID].criteria
    requires IsDerived(t, labelID) ==> IsDerived(s, labelID)
    ensures Belongs(s, labelID, host) <==> Belongs(t, labelID, host)
  {
    forall user ensures Resolves(s, host, user) <==> Resolves(t, host, user) {
      SameResolution(s, t, host, user);
      SameResolution(t, s, host, user);
    }
    if IsDerived(s, labelID) && s.labels[labelID].criteria.Some? {
      var criteria := s.labels[labelID].criteria.value;
      forall user | user in s.users ensures Meets(s, criteria, user) <==> Meets(t, criteria, user) {}
    }
  }

  lemma SameResolution(s: Tables, t: Tables, host: Id, user: Id)
    requires SameIdentities(s, t) && Preferred(s, host) == Preferred(t, host)
    ensures Resolves(s, host, user) ==> Resolves(t, host, user)
  {}

  /** A host resolves to at most one user, and to one if any user answers. */
  lemma ResolutionIsUnique(s: Tables, host: Id, u: Id, v: Id)
    requires Resolves(s, host, u) && Resolves(s, host, v)
    ensures u == v
  {}

  lemma ResolutionExists(s: Tables, host: Id, user: Id)
    requires Preferred(s, host).Some? && user in s.users && Answers(s.users[user], Preferred(s, host).value)
    ensures exists u :: Resolves(s, host, u)
  {
    var answering := set u | u in s.users && Answers(s.users[u], Preferred(s, host).value);
    assert user in answering;
    var first := First(s, Preferred(s, host).value, answering);
    assert Resolves(s, host, first);
  }

  lemma {:induction false} First(s: Tables, address: string, ids: set<Id>) returns (first: Id)
    requires ids != {} && ids <= s.users.Keys
    ensures first in ids
    ensures forall id :: id in ids && id != first ==> Outranks(s.users[first], first, s.users[id], id, address)
  {
    first :| first in ids;
    if ids != {first} {
      var rest := First(s, address, ids - {first});
      if Outranks(s.users[rest], rest, s.users[first], first, address) {
        first := rest;
      }
    }
  }
}
