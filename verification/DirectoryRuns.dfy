/** What holds over every run of transactions on hosts, users and labels. */
module DirectoryRuns {
  import opened Basics
  import opened Directory
  import opened DirectorySteps
  import opened Strings

  datatype Trace = Trace(operations: seq<Operation>, states: seq<Tables>, outcomes: seq<Outcome>)

  ghost predicate WellShaped(t: Trace) {
    |t.states| == |t.operations| + 1 && |t.outcomes| == |t.operations|
  }

  ghost predicate StepAt(isEmail: string -> bool, t: Trace, i: nat)
    requires WellShaped(t) && i < |t.operations|
  {
    Step(isEmail, t.states[i], t.operations[i], t.states[i + 1], t.outcomes[i])
  }

  ghost predicate Run(isEmail: string -> bool, t: Trace) {
    WellShaped(t) && t.states[0] == EMPTY && forall i: nat :: i < |t.operations| ==> StepAt(isEmail, t, i)
  }

  // ---------------------------------------------------------- what every state keeps

  /** A derived label always has criteria that a refresh accepts. */
  ghost predicate LabelsSound(labels: map<Id, Label>, next: nat) {
    (forall l :: l in labels ==> l.number < next)
    && (forall l :: l in labels && labels[l].kind == Derived ==> ValidCriteria(labels[l].criteria))
    && (forall l :: l in labels && labels[l].builtinKey.Some? ==> labels[l].kind == Manual)
    && (forall a, b :: a in labels && b in labels && a != b ==> labels[a].name != labels[b].name)
  }

  ghost predicate LabelsConsistent(s: Tables) {
    LabelsSound(s.labels, s.nextLabel)
  }

  ghost predicate RowsConsistent(s: Tables) {
    (forall row :: row in s.rows ==> row.0 in s.labels && row.1 in s.hosts)
    && (forall at :: at in s.primary ==> at.0 in s.hosts)
  }

  /** No two active accounts of a kind share an address. */
  ghost predicate AccountsDistinct(users: map<Id, User>) {
    forall a, b :: a in users && b in users ==> Distinguished(users, a, b)
  }

  ghost predicate Distinguished(users: map<Id, User>, a: Id, b: Id)
    requires a in users && b in users
  {
    a != b && !users[a].deleted && !users[b].deleted && (users[a].source == Local <==> users[b].source == Local)
    ==> users[a].email != users[b].email
        && (users[a].source != Local ==> users[a].userPrincipalName != users[b].userPrincipalName)
  }

  ghost predicate UsersSound(users: map<Id, User>, next: nat) {
    (forall id :: id in users ==> id.number < next) && UsersDistinct(users) && AccountsDistinct(users)
  }

  ghost predicate GroupsSound(groups: map<Id, Group>, next: nat) {
    (forall id :: id in groups ==> id.number < next && groups[id].source != Local) && GroupsDistinct(groups)
  }

  ghost predicate MembersSound(s: Tables) {
    forall member :: member in s.members ==> member.0 in s.users && member.1 in s.groups
  }

  /** Every enrolled host is in All Hosts. */
  ghost predicate AllHostsComplete(s: Tables) {
    forall l, h :: l in s.labels && s.labels[l].builtinKey == Some(ALL_HOSTS) && h in s.hosts ==> (l, h) in s.rows
  }

  ghost predicate Consistent(s: Tables) {
    LabelsConsistent(s) && RowsConsistent(s) && AllHostsComplete(s)
    && UsersSound(s.users, s.nextUser) && GroupsSound(s.groups, s.nextGroup) && MembersSound(s)
  }

  // --------------------------------------------------------------- refresh suffices

  /** After a refresh in scope, the view is exact if it was exact outside it. */
  lemma RefreshCompletes(s: Tables, labels: Option<Id>, hosts: Option<Id>)
    requires forall l, h :: !(InScope(labels, l) && InScope(hosts, h)) ==> ExactAt(s, l, h)
    ensures Exact(Refreshed(s, labels, hosts))
  {
    var t := Refreshed(s, labels, hosts);
    forall l, h ensures ExactAt(t, l, h) {
      SameDerivation(s, t, l, h);
      if !IsDerived(s, l) {
      } else if InScope(labels, l) && InScope(hosts, h) {
        RefreshIsExact(s, labels, hosts, l, h);
      } else {
        assert ExactAt(s, l, h);
        RefreshKeepsOtherRows(s, labels, hosts, l, h);
      }
    }
  }

  /** A host-scoped refresh does what a full one would, when nothing but that
      host's primary user has changed since the view was last exact. */
  lemma HostRefreshSuffices(s: Tables, t: Tables, host: Id)
    requires Exact(s) && t == s.(primary := t.primary)
    requires forall other :: other != host ==> Preferred(s, other) == Preferred(t, other)
    ensures Refreshed(t, None, Some(host)) == Refreshed(t, None, None)
    ensures Exact(Refreshed(t, None, Some(host)))
  {
    forall l, h | h != host ensures ExactAt(t, l, h) {
      assert ExactAt(s, l, h);
      SameDerivation(s, t, l, h);
    }
    RefreshCompletes(t, None, Some(host));
    SameRows(t, None, Some(host));
  }

  /** A label-scoped refresh does what a full one would, when nothing but that
      label has changed. */
  lemma LabelRefreshSuffices(s: Tables, t: Tables, labelID: Id)
    requires Exact(s) && t == s.(labels := t.labels, nextLabel := t.nextLabel)
    requires labelID in t.labels && t.labels == s.labels[labelID := t.labels[labelID]]
    ensures Refreshed(t, Some(labelID), None) == Refreshed(t, None, None)
    ensures Exact(Refreshed(t, Some(labelID), None))
  {
    forall l, h | l != labelID ensures ExactAt(t, l, h) {
      assert ExactAt(s, l, h);
      SameDerivation(s, t, l, h);
    }
    RefreshCompletes(t, Some(labelID), None);
    SameRows(t, Some(labelID), None);
  }

  lemma SameRows(s: Tables, labels: Option<Id>, hosts: Option<Id>)
    requires Exact(Refreshed(s, labels, hosts))
    requires forall l, h :: !(InScope(labels, l) && InScope(hosts, h)) ==> ExactAt(s, l, h)
    ensures Refreshed(s, labels, hosts) == Refreshed(s, None, None)
  {
    var scoped, full := Refreshed(s, labels, hosts), Refreshed(s, None, None);
    forall l, h ensures (l, h) in scoped.rows <==> (l, h) in full.rows {
      if IsDerived(s, l) {
        assert ExactAt(scoped, l, h);
        RefreshIsExact(s, None, None, l, h);
        SameDerivation(s, full, l, h);
        SameDerivation(s, scoped, l, h);
      }
    }
    forall row ensures row in scoped.rows <==> row in full.rows {
      assert row == (row.0, row.1);
    }
    assert scoped.rows == full.rows;
  }

  /** A refresh of a consistent state is never refused. */
  lemma RefreshIsAccepted(s: Tables, labels: Option<Id>)
    requires LabelsConsistent(s)
    ensures Refreshable(s, labels)
  {}

  // ------------------------------------------------------------- exact, step by step

  lemma EnrollKeepsExact(s: Tables, host: Id)
    requires Consistent(s) && Exact(s)
    ensures Exact(Enrolled(s, host).0)
  {
    var t := Enrolled(s, host).0;
    forall l, h ensures ExactAt(t, l, h) {
      assert ExactAt(s, l, h);
      if h in s.hosts || h != host {
        SameDerivation(s, t, l, h);
      } else {
        assert Preferred(t, h) == None;
      }
    }
  }

  lemma DeleteHostsKeepsExact(s: Tables, ids: seq<Id>)
    requires Consistent(s) && Exact(s)
    ensures Exact(WithoutHosts(s, ids))
  {
    var t := WithoutHosts(s, ids);
    forall l, h ensures ExactAt(t, l, h) {
      assert ExactAt(s, l, h);
      if h !in ids {
        SameDerivation(s, t, l, h);
      }
    }
  }

  lemma PrimaryKeepsExact(s: Tables, isEmail: string -> bool, host: Id, email: string, source: PrimarySource)
    requires Exact(s)
    ensures Exact(PrimaryUpserted(s, isEmail, host, email, source).0)
    ensures Exact(PrimaryDeleted(s, host, source).0)
  {
    HostRefreshSuffices(s, s.(primary := s.primary[(host, source) := Trim(email)]), host);
    HostRefreshSuffices(s, s.(primary := s.primary - {(host, source)}), host);
  }

  lemma FullRefreshIsExact(next: Tables, t: Tables)
    requires Exact(next)
    ensures Exact(Refreshing(next, t, None, None).0)
  {
    RefreshCompletes(t, None, None);
  }

  lemma SequencesKeepExact(s: Tables, t: Tables)
    requires Exact(s)
    requires t == s.(nextUser := t.nextUser, nextGroup := t.nextGroup, nextLabel := t.nextLabel)
    ensures Exact(t)
  {
    forall l, h ensures ExactAt(t, l, h) {
      assert ExactAt(s, l, h);
      SameDerivation(s, t, l, h);
    }
  }

  lemma CreateUserKeepsExact(s: Tables, email: string, name: string, hash: string, role: string)
    requires Exact(s)
    ensures Exact(UserCreated(s, email, name, hash, role).0)
  {
    var next := s.(nextUser := s.nextUser + 1);
    SequencesKeepExact(s, next);
    var user := User(email, name, Some(hash), Local, None, None, None, None, None, None, false);
    FullRefreshIsExact(next, next.(users := s.users[Id(s.nextUser) := user], roles := s.roles[Id(s.nextUser) := role]));
  }

  /** updateUser changes nothing that derivation reads and may skip the refresh. */
  lemma UpdateUserNeedsNoRefresh(s: Tables, id: Id, name: string, hash: Option<string>, role: Option<string>)
    requires Exact(s)
    ensures Exact(UserUpdated(s, id, name, hash, role).0)
    ensures Refreshed(UserUpdated(s, id, name, hash, role).0, None, None) == UserUpdated(s, id, name, hash, role).0
  {
    var t := UserUpdated(s, id, name, hash, role).0;
    forall l, h ensures ExactAt(t, l, h) {
      assert ExactAt(s, l, h);
      SameDerivation(s, t, l, h);
    }
    ExactIsFixpoint(t);
  }

  /** Exactness is what a refresh leaves alone. */
  lemma ExactIsFixpoint(s: Tables)
    ensures Exact(s) ==> Refreshed(s, None, None) == s
    ensures RowsConsistent(s) && Refreshed(s, None, None) == s ==> Exact(s)
  {
    var t := Refreshed(s, None, None);
    if Exact(s) {
      forall row ensures row in t.rows <==> row in s.rows {
        if IsDerived(s, row.0) {
          assert ExactAt(s, row.0, row.1);
          RefreshIsExact(s, None, None, row.0, row.1);
          SameDerivation(s, t, row.0, row.1);
          assert row == (row.0, row.1);
        }
      }
      assert t.rows == s.rows;
    }
    RefreshCompletes(s, None, None);
  }

  lemma DeleteUserKeepsExact(s: Tables, id: Id)
    requires Exact(s)
    ensures Exact(UserDeleted(s, id).0)
  {
    if id in s.users {
      FullRefreshIsExact(s, s.(users := s.users - {id}, roles := s.roles - {id},
                               members := (set member | member in s.members && member.0 != id)));
      FullRefreshIsExact(s, s.(users := s.users[id := s.users[id].(deleted := true)]));
    }
  }

  lemma SnapshotKeepsExact(s: Tables, source: Source, snapshot: ProviderSnapshot, t: Tables, outcome: Outcome)
    requires Exact(s) && SnapshotApplied(s, source, snapshot, t, outcome)
    ensures Exact(t)
  {
    if outcome == Done {
      RefreshCompletes(t.(rows := s.rows), None, None);
    } else {
      SequencesKeepExact(s, t);
    }
  }

  lemma ReplaceMembershipKeepsExact(s: Tables, t: Tables, id: Id, hostIDs: seq<Id>)
    requires Exact(s) && t == s.(labels := t.labels)
    requires id in t.labels && t.labels == s.labels[id := t.labels[id]]
    requires MembershipReplaced(t, id, hostIDs).1 == Done
    ensures Exact(MembershipReplaced(t, id, hostIDs).0)
  {
    if t.labels[id].kind == Derived {
      LabelRefreshSuffices(s, t, id);
    } else {
      OtherLabelsStayExact(s, t, id, MembershipReplaced(t, id, hostIDs).0);
    }
  }

  lemma OtherLabelsStayExact(s: Tables, t: Tables, id: Id, u: Tables)
    requires Exact(s) && t == s.(labels := t.labels) && u == t.(rows := u.rows)
    requires id in t.labels && t.labels == s.labels[id := t.labels[id]] && t.labels[id].kind != Derived
    requires forall l, h :: l != id ==> ((l, h) in u.rows <==> (l, h) in s.rows)
    ensures Exact(u)
  {
    forall l, h ensures ExactAt(u, l, h) {
      if l != id {
        assert ExactAt(s, l, h);
        SameDerivation(s, u, l, h);
      }
    }
  }

  /** Including a label that changes its type. */
  lemma WriteLabelKeepsExact(s: Tables, id: Id, row: Label, hostIDs: seq<Id>)
    requires Exact(s)
    ensures Exact(LabelWritten(s, id, row, hostIDs).0)
  {
    var t := s.(labels := s.labels[id := row]);
    if MembershipReplaced(t, id, hostIDs).1 == Done {
      ReplaceMembershipKeepsExact(s, t, id, hostIDs);
    }
  }

  lemma CreateLabelKeepsExact(s: Tables, row: Option<Label>, hostIDs: seq<Id>)
    requires Exact(s)
    ensures Exact(LabelCreated(s, row, hostIDs).0)
  {
    if row.Some? {
      SequencesKeepExact(s, WithNextLabel(s));
      WriteLabelKeepsExact(WithNextLabel(s), Id(s.nextLabel), row.value, hostIDs);
    }
  }

  lemma UpdateLabelKeepsExact(s: Tables, id: Id, row: Option<Label>, hostIDs: seq<Id>)
    requires Exact(s)
    ensures Exact(LabelUpdated(s, id, row, hostIDs).0)
  {
    if row.Some? {
      WriteLabelKeepsExact(s, id, row.value, hostIDs);
    }
  }

  lemma DeleteLabelKeepsExact(s: Tables, id: Id, referenced: bool)
    requires Exact(s)
    ensures Exact(LabelDeleted(s, id, referenced).0)
  {
    var t := LabelDeleted(s, id, referenced).0;
    forall l, h ensures ExactAt(t, l, h) {
      assert ExactAt(s, l, h);
      if IsDerived(t, l) {
        SameDerivation(s, t, l, h);
      }
    }
  }

  lemma SetDynamicKeepsExact(s: Tables, host: Id, results: seq<DynamicMembership>)
    requires Exact(s)
    ensures Exact(DynamicSet(s, host, results).0)
  {
    var t := DynamicSet(s, host, results).0;
    ApplicableAreDynamic(s, results);
    forall l, h ensures ExactAt(t, l, h) {
      assert ExactAt(s, l, h);
      SameDerivation(s, t, l, h);
      assert IsDerived(s, l) ==> ((l, h) in t.rows <==> (l, h) in s.rows);
    }
  }

  lemma StepKeepsExact(isEmail: string -> bool, s: Tables, op: Operation, t: Tables, outcome: Outcome)
    requires Consistent(s) && Exact(s) && Step(isEmail, s, op, t, outcome)
    ensures Exact(t)
  {
    match op
    case Enroll(host) => EnrollKeepsExact(s, host);
    case DeleteHost(host) => DeleteHostsKeepsExact(s, [host]);
    case DeleteHosts(ids) => DeleteHostsKeepsExact(s, ids);
    case UpsertPrimary(host, email, source) => PrimaryKeepsExact(s, isEmail, host, email, source);
    case DeletePrimary(host, source) => PrimaryKeepsExact(s, isEmail, host, "", source);
    case CreateUser(email, name, hash, role) => CreateUserKeepsExact(s, email, name, hash, role);
    case UpdateUser(id, name, hash, role) => UpdateUserNeedsNoRefresh(s, id, name, hash, role);
    case DeleteUser(id) => DeleteUserKeepsExact(s, id);
    case ApplySnapshot(source, snapshot) => SnapshotKeepsExact(s, source, snapshot, t, outcome);
    case CreateLabel(mutation) => CreateLabelKeepsExact(s, Checked(mutation), mutation.hostIDs);
    case UpdateLabel(id, mutation) => UpdateLabelKeepsExact(s, id, Checked(mutation), mutation.hostIDs);
    case DeleteLabel(id, referenced) => DeleteLabelKeepsExact(s, id, referenced);
    case SetDynamic(host, results) => SetDynamicKeepsExact(s, host, results);
    case RefreshAll => FullRefreshIsExact(s, s);
  }

  predicate OnHosts(op: Operation) {
    op.Enroll? || op.DeleteHost? || op.DeleteHosts? || op.UpsertPrimary? || op.DeletePrimary?
  }

  predicate OnLabels(op: Operation) {
    op.CreateLabel? || op.UpdateLabel? || op.DeleteLabel? || op.SetDynamic? || op.RefreshAll?
  }

  // ------------------------------------------------------ consistent, step by step

  /** What a mutation may write is always refreshable. */
  lemma CheckedIsValid(mutation: LabelMutation)
    ensures Checked(mutation).Some? && Checked(mutation).value.kind == Derived ==>
      ValidCriteria(Checked(mutation).value.criteria)
    ensures Checked(mutation).Some? ==> Checked(mutation).value.builtinKey.None?
  {}

  ghost predicate Writable(row: Label) {
    row.builtinKey.None? && (row.kind == Derived ==> ValidCriteria(row.criteria))
  }

  /** Writing one row keeps the labels consistent, whatever membership becomes. */
  lemma LabelWriteKeepsLabels(s: Tables, id: Id, row: Label, t: Tables)
    requires LabelsConsistent(s) && Writable(row) && !LabelNameTaken(s, row.name, id)
    requires s.nextLabel <= t.nextLabel && id.number < t.nextLabel
    requires t.labels == s.labels[id := row]
    ensures LabelsConsistent(t)
  {}

  lemma MembershipKeepsTables(t: Tables, id: Id, hostIDs: seq<Id>)
    requires id in t.labels
    ensures var u := MembershipReplaced(t, id, hostIDs).0; u == t.(rows := u.rows)
  {}

  lemma WriteFrame(s: Tables, id: Id, row: Label, hostIDs: seq<Id>)
    ensures var t := LabelWritten(s, id, row, hostIDs).0;
      t == s || (!LabelNameTaken(s, row.name, id) && t == s.(labels := s.labels[id := row], rows := t.rows))
  {
    MembershipKeepsTables(s.(labels := s.labels[id := row]), id, hostIDs);
  }

  lemma WriteKeepsLabels(s: Tables, id: Id, row: Label, hostIDs: seq<Id>, t: Tables)
    requires LabelsConsistent(s) && Writable(row) && id.number < s.nextLabel
    requires t == LabelWritten(s, id, row, hostIDs).0
    ensures LabelsConsistent(t)
  {
    WriteFrame(s, id, row, hostIDs);
    if t != s {
      LabelWriteKeepsLabels(s, id, row, t);
    }
  }

  lemma CreateLabelKeepsLabels(s: Tables, row: Label, hostIDs: seq<Id>)
    requires LabelsConsistent(s) && Writable(row)
    ensures LabelsConsistent(LabelCreated(s, Some(row), hostIDs).0)
  {
    WiderBound(s.labels, s.nextLabel);
    WriteKeepsLabels(WithNextLabel(s), Id(s.nextLabel), row, hostIDs, LabelCreated(s, Some(row), hostIDs).0);
  }

  lemma WiderBound(labels: map<Id, Label>, next: nat)
    requires LabelsSound(labels, next)
    ensures LabelsSound(labels, next + 1)
  {}

  lemma UpdateLabelKeepsLabels(s: Tables, id: Id, row: Label, hostIDs: seq<Id>)
    requires LabelsConsistent(s) && Writable(row)
    ensures LabelsConsistent(LabelUpdated(s, id, Some(row), hostIDs).0)
  {
    if IsRegular(s, id) {
      WriteKeepsLabels(s, id, row, hostIDs, LabelUpdated(s, id, Some(row), hostIDs).0);
    }
  }

  lemma StepKeepsLabels(isEmail: string -> bool, s: Tables, op: Operation, t: Tables, outcome: Outcome)
    requires LabelsConsistent(s) && Step(isEmail, s, op, t, outcome)
    ensures LabelsConsistent(t)
  {
    if op.CreateLabel? {
      CheckedIsValid(op.mutation);
      if Checked(op.mutation).Some? {
        CreateLabelKeepsLabels(s, Checked(op.mutation).value, op.mutation.hostIDs);
      }
    } else if op.UpdateLabel? {
      CheckedIsValid(op.mutation);
      if Checked(op.mutation).Some? {
        UpdateLabelKeepsLabels(s, op.labelID, Checked(op.mutation).value, op.mutation.hostIDs);
      }
    } else if !op.DeleteLabel? {
      OthersLeaveLabels(isEmail, s, op, t, outcome);
    }
  }

  lemma OthersLeaveLabels(isEmail: string -> bool, s: Tables, op: Operation, t: Tables, outcome: Outcome)
    requires Step(isEmail, s, op, t, outcome) && !op.CreateLabel? && !op.UpdateLabel? && !op.DeleteLabel?
    ensures t.labels == s.labels && t.nextLabel == s.nextLabel
  {
    if OnHosts(op) {
      HostStepFrame(isEmail, s, op, t, outcome);
    } else if op.CreateUser? {
      CreateUserFrame(s, op.email, op.name, op.passwordHash, op.roleKey, t);
    } else if op.UpdateUser? {
      UpdateUserFrame(s, op.user, op.name, op.hash, op.role, t);
    } else if op.DeleteUser? {
      DeleteUserFrame(s, op.user, t);
    } else if op.ApplySnapshot? {
      SnapshotFrame(s, op.source, op.snapshot, t, outcome);
    }
  }

  /** A refresh reads and writes nothing but the rows of existing labels and hosts. */
  lemma RefreshKeepsRows(s: Tables, labels: Option<Id>, hosts: Option<Id>)
    ensures RowsConsistent(s) ==> RowsConsistent(Refreshed(s, labels, hosts))
    ensures LabelsConsistent(s) && AllHostsComplete(s) ==> AllHostsComplete(Refreshed(s, labels, hosts))
  {}

  lemma HostStepKeepsRows(s: Tables, host: Id, ids: seq<Id>)
    requires LabelsConsistent(s) && RowsConsistent(s) && AllHostsComplete(s)
    ensures RowsConsistent(Enrolled(s, host).0) && AllHostsComplete(Enrolled(s, host).0)
    ensures RowsConsistent(WithoutHosts(s, ids)) && AllHostsComplete(WithoutHosts(s, ids))
  {}

  lemma PrimaryStepKeepsRows(s: Tables, isEmail: string -> bool, host: Id, email: string, source: PrimarySource)
    requires LabelsConsistent(s) && RowsConsistent(s) && AllHostsComplete(s)
    ensures var t := PrimaryUpserted(s, isEmail, host, email, source).0; RowsConsistent(t) && AllHostsComplete(t)
    ensures var t := PrimaryDeleted(s, host, source).0; RowsConsistent(t) && AllHostsComplete(t)
  {
    if host in s.hosts {
      RefreshKeepsRows(s.(primary := s.primary[(host, source) := Trim(email)]), None, Some(host));
    }
    RefreshKeepsRows(s.(primary := s.primary - {(host, source)}), None, Some(host));
  }

  lemma SnapshotFrame(s: Tables, source: Source, snapshot: ProviderSnapshot, t: Tables, outcome: Outcome)
    requires SnapshotApplied(s, source, snapshot, t, outcome)
    ensures t == s.(users := t.users, groups := t.groups, members := t.members, rows := t.rows,
                    nextUser := t.nextUser, nextGroup := t.nextGroup)
    ensures outcome == Done ==> t.rows == Refreshed(t.(rows := s.rows), None, None).rows
    ensures outcome != Done ==> t.rows == s.rows
  {}

  lemma UserStepKeepsRows(isEmail: string -> bool, s: Tables, op: Operation, t: Tables, outcome: Outcome)
    requires LabelsConsistent(s) && RowsConsistent(s) && AllHostsComplete(s)
    requires op.CreateUser? || op.UpdateUser? || op.DeleteUser? || op.ApplySnapshot?
    requires Step(isEmail, s, op, t, outcome)
    ensures RowsConsistent(t) && AllHostsComplete(t)
  {
    RefreshKeepsRows(t.(rows := s.rows), None, None);
    if op.CreateUser? {
      CreateUserFrame(s, op.email, op.name, op.passwordHash, op.roleKey, t);
    } else if op.UpdateUser? {
      UpdateUserFrame(s, op.user, op.name, op.hash, op.role, t);
    } else if op.DeleteUser? {
      DeleteUserFrame(s, op.user, t);
      DeleteUserRefreshes(s, op.user, t);
    } else {
      SnapshotFrame(s, op.source, op.snapshot, t, outcome);
    }
  }

  /** Rows of one regular label may change as long as its hosts exist. */
  lemma LabelRowsKeepRows(s: Tables, id: Id, t: Tables)
    requires RowsConsistent(s) && AllHostsComplete(s)
    requires id in s.labels ==> s.labels[id].builtinKey.None?
    requires id in t.labels && t.labels[id].builtinKey.None? && t.labels == s.labels[id := t.labels[id]]
    requires t.hosts == s.hosts && t.primary == s.primary
    requires forall row :: row in t.rows && row.0 == id ==> row.1 in t.hosts
    requires forall row: (Id, Id) :: row.0 != id ==> (row in t.rows <==> row in s.rows)
    ensures RowsConsistent(t) && AllHostsComplete(t)
  {}

  lemma MembershipRows(t: Tables, id: Id, hostIDs: seq<Id>)
    requires id in t.labels && forall row :: row in t.rows ==> row.1 in t.hosts
    ensures var u := MembershipReplaced(t, id, hostIDs).0;
      (forall row :: row in u.rows && row.0 == id ==> row.1 in t.hosts)
      && (forall row: (Id, Id) :: row.0 != id ==> (row in u.rows <==> row in t.rows))
  {}

  lemma WriteKeepsRows(s: Tables, id: Id, row: Label, hostIDs: seq<Id>)
    requires RowsConsistent(s) && AllHostsComplete(s) && Writable(row)
    requires id in s.labels ==> s.labels[id].builtinKey.None?
    ensures var t := LabelWritten(s, id, row, hostIDs).0; RowsConsistent(t) && AllHostsComplete(t)
  {
    var t, u := s.(labels := s.labels[id := row]), LabelWritten(s, id, row, hostIDs).0;
    WriteFrame(s, id, row, hostIDs);
    MembershipRows(t, id, hostIDs);
    if u != s {
      LabelRowsKeepRows(s, id, u);
    }
  }

  lemma CreateLabelKeepsRows(s: Tables, row: Option<Label>, hostIDs: seq<Id>)
    requires RowsConsistent(s) && AllHostsComplete(s) && Id(s.nextLabel) !in s.labels
    requires row.Some? ==> Writable(row.value)
    ensures var t := LabelCreated(s, row, hostIDs).0; RowsConsistent(t) && AllHostsComplete(t)
  {
    if row.Some? {
      var next, id := s.(nextLabel := s.nextLabel + 1), Id(s.nextLabel);
      assert RowsConsistent(next) && AllHostsComplete(next);
      CreatedRowKeepsRows(next, id, row.value, hostIDs, LabelCreated(s, row, hostIDs).0);
    }
  }

  lemma CreatedRowKeepsRows(next: Tables, id: Id, row: Label, hostIDs: seq<Id>, t: Tables)
    requires RowsConsistent(next) && AllHostsComplete(next) && Writable(row) && id !in next.labels
    requires t == LabelWritten(next, id, row, hostIDs).0
    ensures RowsConsistent(t) && AllHostsComplete(t)
  {
    WriteKeepsRows(next, id, row, hostIDs);
  }

  lemma UpdateLabelKeepsRows(s: Tables, id: Id, row: Option<Label>, hostIDs: seq<Id>)
    requires RowsConsistent(s) && AllHostsComplete(s)
    requires row.Some? ==> Writable(row.value)
    ensures var t := LabelUpdated(s, id, row, hostIDs).0; RowsConsistent(t) && AllHostsComplete(t)
  {
    if row.Some? && IsRegular(s, id) {
      WriteKeepsRows(s, id, row.value, hostIDs);
    }
  }

  lemma LabelStepKeepsRows(isEmail: string -> bool, s: Tables, op: Operation, t: Tables, outcome: Outcome)
    requires LabelsConsistent(s) && RowsConsistent(s) && AllHostsComplete(s)
    requires OnLabels(op)
    requires Step(isEmail, s, op, t, outcome)
    ensures RowsConsistent(t) && AllHostsComplete(t)
  {
    match op
    case CreateLabel(mutation) =>
      CheckedIsValid(mutation);
      CreateLabelKeepsRows(s, Checked(mutation), mutation.hostIDs);
    case UpdateLabel(id, mutation) =>
      CheckedIsValid(mutation);
      UpdateLabelKeepsRows(s, id, Checked(mutation), mutation.hostIDs);
    case DeleteLabel(id, referenced) => DeleteLabelKeepsRows(s, id, referenced);
    case SetDynamic(host, results) => SetDynamicKeepsRows(s, host, results);
    case RefreshAll => RefreshKeepsRows(s, None, None);
  }

  lemma DeleteLabelKeepsRows(s: Tables, id: Id, referenced: bool)
    requires RowsConsistent(s) && AllHostsComplete(s)
    ensures var t := LabelDeleted(s, id, referenced).0; RowsConsistent(t) && AllHostsComplete(t)
  {}

  lemma SetDynamicKeepsRows(s: Tables, host: Id, results: seq<DynamicMembership>)
    requires LabelsConsistent(s) && RowsConsistent(s) && AllHostsComplete(s)
    ensures var t := DynamicSet(s, host, results).0; RowsConsistent(t) && AllHostsComplete(t)
  {
    ApplicableAreDynamic(s, results);
  }

  /** An active user of the source is an enabled entry of the snapshot. */
  lemma ActiveComesFromSnapshot(
    s: map<Id, User>, first: nat, source: Source, latest: map<string, ProviderUser>, t: map<Id, User>, id: Id)
    requires UsersReplaced(s, first, source, latest, latest.Keys, t)
    requires source != Local && id in t && t[id].source == source && !t[id].deleted
    ensures t[id].externalID.Some? && t[id].externalID.value in latest && latest[t[id].externalID.value].enabled
    ensures t[id] == UserRow(source, latest[t[id].externalID.value], t[id].passwordHash)
  {
    assert UsersDistinct(t);
    assert t[id].externalID.GetOr("") !in latest && id in s ==> t[id] == s[id].(deleted := true);
  }

  lemma SnapshotKeepsAccounts(
    s: map<Id, User>, first: nat, source: Source, latest: map<string, ProviderUser>, t: map<Id, User>)
    requires UsersReplaced(s, first, source, latest, latest.Keys, t)
    requires AccountsDistinct(s) && source != Local && !Clashes(latest)
    ensures AccountsDistinct(t)
  {
    forall a, b | a in t && b in t ensures Distinguished(t, a, b) {
      SnapshotDistinguishes(s, first, source, latest, t, a, b);
    }
  }

  lemma SnapshotDistinguishes(
    s: map<Id, User>, first: nat, source: Source, latest: map<string, ProviderUser>, t: map<Id, User>, a: Id, b: Id)
    requires UsersReplaced(s, first, source, latest, latest.Keys, t)
    requires AccountsDistinct(s) && source != Local && !Clashes(latest)
    requires a in t && b in t
    ensures Distinguished(t, a, b)
  {
    if a != b && !t[a].deleted && !t[b].deleted && (t[a].source == Local <==> t[b].source == Local) {
      if t[a].source != Local {
        ActiveComesFromSnapshot(s, first, source, latest, t, a);
        ActiveComesFromSnapshot(s, first, source, latest, t, b);
        var keyA, keyB := t[a].externalID.value, t[b].externalID.value;
        assert keyA != keyB by {
          assert UsersDistinct(t);
        }
        assert !Collide(latest[keyA], latest[keyB]);
      } else {
        assert a in s && b in s && Distinguished(s, a, b);
      }
    }
  }

  lemma SnapshotKeepsUsers(s: Tables, source: Source, snapshot: ProviderSnapshot, t: Tables, outcome: Outcome)
    requires UsersSound(s.users, s.nextUser) && SnapshotApplied(s, source, snapshot, t, outcome)
    ensures UsersSound(t.users, t.nextUser)
  {
    if outcome == Done {
      var latest := LatestUsers(snapshot.users);
      SnapshotKeepsAccounts(s.users, s.nextUser, source, latest, t.users);
      assert UsersDistinct(t.users);
    }
  }

  /** A new, changed or removed user keeps the rest sound. */
  lemma UserWriteKeepsUsers(users: map<Id, User>, next: nat, id: Id, user: User)
    requires UsersSound(users, next) && id.number <= next
    requires user.source == Local <==> user.externalID.None?
    requires if id in users then
               user.source == users[id].source && user.externalID == users[id].externalID
               && (user.deleted || (!users[id].deleted && user.email == users[id].email
                                    && user.userPrincipalName == users[id].userPrincipalName))
             else
               user.source == Local && forall other :: other in users && users[other].source == Local ==>
                 users[other].deleted || users[other].email != user.email
    ensures UsersSound(users[id := user], next + 1)
    ensures id in users ==> UsersSound(users[id := user], next)
  {}

  lemma UserRemovalKeepsUsers(users: map<Id, User>, next: nat, id: Id)
    requires UsersSound(users, next)
    ensures UsersSound(users - {id}, next) && UsersSound(users, next + 1)
  {}

  lemma HostStepFrame(isEmail: string -> bool, s: Tables, op: Operation, t: Tables, outcome: Outcome)
    requires OnHosts(op) && Step(isEmail, s, op, t, outcome)
    ensures t == s.(hosts := t.hosts, primary := t.primary, rows := t.rows)
  {}

  lemma CreateLabelFrame(s: Tables, row: Option<Label>, hostIDs: seq<Id>)
    ensures var t := LabelCreated(s, row, hostIDs).0;
      t == s.(labels := t.labels, nextLabel := t.nextLabel, rows := t.rows)
  {
    if row.Some? {
      WriteFrame(WithNextLabel(s), Id(s.nextLabel), row.value, hostIDs);
    }
  }

  lemma UpdateLabelFrame(s: Tables, id: Id, row: Option<Label>, hostIDs: seq<Id>)
    ensures var t := LabelUpdated(s, id, row, hostIDs).0; t == s.(labels := t.labels, rows := t.rows)
  {
    if row.Some? {
      WriteFrame(s, id, row.value, hostIDs);
    }
  }

  lemma LabelStepFrame(isEmail: string -> bool, s: Tables, op: Operation, t: Tables, outcome: Outcome)
    requires OnLabels(op) && Step(isEmail, s, op, t, outcome)
    ensures t == s.(labels := t.labels, nextLabel := t.nextLabel, rows := t.rows)
  {
    if op.CreateLabel? {
      CreateLabelFrame(s, Checked(op.mutation), op.mutation.hostIDs);
    } else if op.UpdateLabel? {
      UpdateLabelFrame(s, op.labelID, Checked(op.mutation), op.mutation.hostIDs);
    }
  }

  lemma CreateUserFrame(s: Tables, email: string, name: string, hash: string, role: string, t: Tables)
    requires t == UserCreated(s, email, name, hash, role).0
    ensures t == s.(users := t.users, roles := t.roles, nextUser := s.nextUser + 1, rows := t.rows)
    ensures t.rows == s.rows || t.rows == Refreshed(t.(rows := s.rows), None, None).rows
    ensures t.users == s.users
      || (!LocalEmailTaken(s, email)
          && t.users == s.users[Id(s.nextUser) :=
                                User(email, name, Some(hash), Local, None, None, None, None, None, None, false)])
  {}

  lemma UpdateUserFrame(s: Tables, id: Id, name: string, hash: Option<string>, role: Option<string>, t: Tables)
    requires t == UserUpdated(s, id, name, hash, role).0
    ensures t == s.(users := t.users, roles := t.roles)
    ensures t.users == s.users
      || (id in s.users && !s.users[id].deleted && id in t.users
          && t.users == s.users[id := s.users[id].(name := t.users[id].name,
                                                   passwordHash := t.users[id].passwordHash)])
  {}

  lemma DeleteUserRefreshes(s: Tables, id: Id, t: Tables)
    requires t == UserDeleted(s, id).0
    ensures t.rows == s.rows || t.rows == Refreshed(t.(rows := s.rows), None, None).rows
  {}

  lemma DeleteUserFrame(s: Tables, id: Id, t: Tables)
    requires t == UserDeleted(s, id).0
    ensures t == s.(users := t.users, roles := t.roles, members := t.members, rows := t.rows)
    ensures t.users == s.users
      || t.users == s.users - {id}
      || (id in s.users && t.users == s.users[id := s.users[id].(deleted := true)])
  {
    DeleteUserTables(s, id, t);
    DeleteUserUsers(s, id, t);
  }

  lemma DeleteUserTables(s: Tables, id: Id, t: Tables)
    requires t == UserDeleted(s, id).0
    ensures t == s.(users := t.users, roles := t.roles, members := t.members, rows := t.rows)
  {
    if id in s.users && !s.users[id].deleted {
      var users := if s.users[id].source == Local then s.users - {id}
                   else s.users[id := s.users[id].(deleted := true)];
      var roles := if s.users[id].source == Local then s.roles - {id} else s.roles;
      var members := if s.users[id].source == Local then set member | member in s.members && member.0 != id
                     else s.members;
      RefreshingFrame(s, s.(users := users, roles := roles, members := members));
    }
  }

  lemma RefreshingFrame(s: Tables, t: Tables)
    ensures var u := Refreshing(s, t, None, None).0; u == s || u == t.(rows := u.rows)
  {}

  lemma DeleteUserUsers(s: Tables, id: Id, t: Tables)
    requires t == UserDeleted(s, id).0
    ensures t.users == s.users
      || t.users == s.users - {id}
      || (id in s.users && t.users == s.users[id := s.users[id].(deleted := true)])
  {}

  lemma DeleteUserMembers(s: Tables, id: Id, t: Tables)
    requires t == UserDeleted(s, id).0
    ensures t.members <= s.members
    ensures id in s.users && id !in t.users ==> forall member :: member in t.members ==> member.0 != id
  {}

  lemma StepKeepsUsers(isEmail: string -> bool, s: Tables, op: Operation, t: Tables, outcome: Outcome)
    requires UsersSound(s.users, s.nextUser) && Step(isEmail, s, op, t, outcome)
    ensures UsersSound(t.users, t.nextUser)
  {
    if op.ApplySnapshot? {
      SnapshotKeepsUsers(s, op.source, op.snapshot, t, outcome);
    } else if op.CreateUser? {
      CreateUserFrame(s, op.email, op.name, op.passwordHash, op.roleKey, t);
      UserRemovalKeepsUsers(s.users, s.nextUser, Id(s.nextUser));
      if t.users != s.users {
        UserWriteKeepsUsers(s.users, s.nextUser, Id(s.nextUser), t.users[Id(s.nextUser)]);
      }
    } else if op.UpdateUser? {
      UpdateUserFrame(s, op.user, op.name, op.hash, op.role, t);
      if t.users != s.users {
        UserWriteKeepsUsers(s.users, s.nextUser, op.user, t.users[op.user]);
      }
    } else if op.DeleteUser? {
      DeleteUserFrame(s, op.user, t);
      UserRemovalKeepsUsers(s.users, s.nextUser, op.user);
      if op.user in s.users && op.user in t.users && t.users != s.users {
        UserWriteKeepsUsers(s.users, s.nextUser, op.user, t.users[op.user]);
      }
    } else if OnHosts(op) {
      HostStepFrame(isEmail, s, op, t, outcome);
    } else {
      LabelStepFrame(isEmail, s, op, t, outcome);
    }
  }

  lemma SnapshotKeepsGroups(s: map<Id, Group>, first: nat, source: Source, latest: map<string, ProviderGroup>,
                            t: map<Id, Group>, next: nat)
    requires GroupsSound(s, first) && source != Local
    requires GroupsReplaced(s, first, source, latest, latest.Keys, true, t)
    requires forall id :: id in t ==> id.number < next
    ensures GroupsSound(t, next)
  {
    forall id | id in t ensures t[id].source != Local {
      if id in s && s[id].source == source {
        assert s[id].externalID in latest;
      }
    }
  }

  lemma SnapshotKeepsMembers(s: Tables, source: Source, latest: map<string, ProviderUser>, t: Tables)
    requires MembersSound(s) && MembersReplaced(s, source, latest, t)
    requires forall id :: id in s.users ==> id in t.users
    ensures MembersSound(t)
  {
    forall member | member in t.members ensures member.0 in t.users && member.1 in t.groups {
      assert member == (member.0, member.1);
      if member in s.members {
        assert member.0 in s.users;
      }
    }
  }

  lemma StepKeepsGroups(isEmail: string -> bool, s: Tables, op: Operation, t: Tables, outcome: Outcome)
    requires GroupsSound(s.groups, s.nextGroup) && MembersSound(s) && Step(isEmail, s, op, t, outcome)
    ensures GroupsSound(t.groups, t.nextGroup) && MembersSound(t)
  {
    if op.CreateUser? {
      CreateUserFrame(s, op.email, op.name, op.passwordHash, op.roleKey, t);
    } else if op.UpdateUser? {
      UpdateUserFrame(s, op.user, op.name, op.hash, op.role, t);
    } else if op.DeleteUser? {
      DeleteUserFrame(s, op.user, t);
      DeleteUserMembers(s, op.user, t);
    } else if OnHosts(op) {
      HostStepFrame(isEmail, s, op, t, outcome);
    } else if OnLabels(op) {
      LabelStepFrame(isEmail, s, op, t, outcome);
    } else {
      SnapshotKeepsDirectory(s, op.source, op.snapshot, t, outcome);
    }
  }

  lemma SnapshotKeepsDirectory(s: Tables, source: Source, snapshot: ProviderSnapshot, t: Tables, outcome: Outcome)
    requires GroupsSound(s.groups, s.nextGroup) && MembersSound(s) && SnapshotApplied(s, source, snapshot, t, outcome)
    ensures GroupsSound(t.groups, t.nextGroup) && MembersSound(t)
  {
    if outcome == Done {
      SnapshotFacts(s, source, snapshot, t);
      SnapshotKeepsGroups(s.groups, s.nextGroup, source, LatestGroups(snapshot.groups), t.groups, t.nextGroup);
      SnapshotKeepsMembers(s, source, LatestUsers(snapshot.users), t);
    }
  }

  lemma SnapshotFacts(s: Tables, source: Source, snapshot: ProviderSnapshot, t: Tables)
    requires SnapshotApplied(s, source, snapshot, t, Done)
    ensures source != Local && IdsBelow(t)
    ensures forall id :: id in s.users ==> id in t.users
  {}

  lemma HostStepsKeepRows(isEmail: string -> bool, s: Tables, op: Operation, t: Tables, outcome: Outcome)
    requires LabelsConsistent(s) && RowsConsistent(s) && AllHostsComplete(s)
    requires OnHosts(op) && Step(isEmail, s, op, t, outcome)
    ensures RowsConsistent(t) && AllHostsComplete(t)
  {
    match op
    case Enroll(host) => HostStepKeepsRows(s, host, []);
    case DeleteHost(host) => HostStepKeepsRows(s, host, [host]);
    case DeleteHosts(ids) => HostStepKeepsRows(s, Id(0), ids);
    case UpsertPrimary(host, email, source) => PrimaryStepKeepsRows(s, isEmail, host, email, source);
    case DeletePrimary(host, source) => PrimaryStepKeepsRows(s, isEmail, host, "", source);
  }

  lemma StepKeepsConsistent(isEmail: string -> bool, s: Tables, op: Operation, t: Tables, outcome: Outcome)
    requires Consistent(s) && Step(isEmail, s, op, t, outcome)
    ensures Consistent(t)
  {
    StepKeepsLabels(isEmail, s, op, t, outcome);
    StepKeepsUsers(isEmail, s, op, t, outcome);
    StepKeepsGroups(isEmail, s, op, t, outcome);
    StepKeepsRows(isEmail, s, op, t, outcome);
  }

  lemma StepKeepsRows(isEmail: string -> bool, s: Tables, op: Operation, t: Tables, outcome: Outcome)
    requires LabelsConsistent(s) && RowsConsistent(s) && AllHostsComplete(s) && Step(isEmail, s, op, t, outcome)
    ensures RowsConsistent(t) && AllHostsComplete(t)
  {
    if OnHosts(op) {
      HostStepsKeepRows(isEmail, s, op, t, outcome);
    } else if OnLabels(op) {
      LabelStepKeepsRows(isEmail, s, op, t, outcome);
    } else {
      UserStepKeepsRows(isEmail, s, op, t, outcome);
    }
  }

  /** Exactness, row by row. */
  lemma ExactRows(s: Tables)
    requires LabelsConsistent(s) && Exact(s)
    ensures forall l, h | l in s.labels && s.labels[l].kind == Derived ::
      s.labels[l].criteria.Some?
      && ((l, h) in s.rows <==>
            h in s.hosts && exists user :: Resolves(s, h, user) && Meets(s, s.labels[l].criteria.value, user))
  {
    forall l, h | l in s.labels && s.labels[l].kind == Derived
      ensures s.labels[l].criteria.Some?
      ensures (l, h) in s.rows <==>
        h in s.hosts && exists user :: Resolves(s, h, user) && Meets(s, s.labels[l].criteria.value, user)
    {
      assert ExactAt(s, l, h);
    }
  }

  /** In every state of every run the rows of every derived label are exactly the
      hosts that a derivation from scratch would find, and the tables keep their
      constraints. */
  lemma {:induction false} RunsStayExact(isEmail: string -> bool, t: Trace, n: nat)
    requires Run(isEmail, t) && n < |t.states|
    ensures Consistent(t.states[n]) && Exact(t.states[n])
    ensures var s := t.states[n];
      forall l, h | l in s.labels && s.labels[l].kind == Derived ::
        s.labels[l].criteria.Some?
        && ((l, h) in s.rows <==>
              h in s.hosts && exists user :: Resolves(s, h, user) && Meets(s, s.labels[l].criteria.value, user))
  {
    if n > 0 {
      RunsStayExact(isEmail, t, n - 1);
      assert StepAt(isEmail, t, n - 1);
      var s, op, next, outcome := t.states[n - 1], t.operations[n - 1], t.states[n], t.outcomes[n - 1];
      StepKeepsConsistent(isEmail, s, op, next, outcome);
      StepKeepsExact(isEmail, s, op, next, outcome);
    } else {
      forall l, h ensures ExactAt(EMPTY, l, h) {}
    }
    ExactRows(t.states[n]);
  }

  // ----------------------------------------------------------- hand-kept membership

  /** The steps that are about a label's own hosts: enrolment, host deletion, a
      change to the label, and, for a dynamic label, its query results. */
  predicate Concerns(op: Operation, l: Id, h: Id) {
    match op
    case Enroll(host) => host == h
    case DeleteHost(host) => host == h
    case DeleteHosts(ids) => h in ids
    case UpdateLabel(id, _) => id == l
    case DeleteLabel(id, _) => id == l
    case SetDynamic(host, results) => host == h && exists result :: result in results && result.labelID == l
    case _ => false
  }

  lemma HostStepsKeepHandRows(
    isEmail: string -> bool, s: Tables, op: Operation, t: Tables, outcome: Outcome, l: Id, h: Id)
    requires OnHosts(op) && Step(isEmail, s, op, t, outcome) && !Concerns(op, l, h)
    requires l in s.labels && s.labels[l].kind != Derived
    ensures (l, h) in t.rows <==> (l, h) in s.rows
  {}

  lemma WriteKeepsHandRows(s: Tables, id: Id, row: Label, hostIDs: seq<Id>, t: Tables, l: Id, h: Id)
    requires l != id && t == LabelWritten(s, id, row, hostIDs).0
    ensures (l, h) in t.rows <==> (l, h) in s.rows
  {
    var written := s.(labels := s.labels[id := row]);
    MembershipElsewhere(written, id, hostIDs, l, h);
    assert t == s || t == MembershipReplaced(written, id, hostIDs).0;
  }

  lemma MembershipElsewhere(t: Tables, id: Id, hostIDs: seq<Id>, l: Id, h: Id)
    requires l != id && id in t.labels
    ensures (l, h) in MembershipReplaced(t, id, hostIDs).0.rows <==> (l, h) in t.rows
  {}

  lemma CreateKeepsHandRows(s: Tables, row: Option<Label>, hostIDs: seq<Id>, l: Id, h: Id)
    requires Id(s.nextLabel) != l
    ensures (l, h) in LabelCreated(s, row, hostIDs).0.rows <==> (l, h) in s.rows
  {
    if row.Some? {
      WriteKeepsHandRows(
        WithNextLabel(s), Id(s.nextLabel), row.value, hostIDs, LabelCreated(s, row, hostIDs).0, l, h);
    }
  }

  lemma UpdateKeepsHandRows(s: Tables, id: Id, row: Option<Label>, hostIDs: seq<Id>, l: Id, h: Id)
    requires l != id
    ensures (l, h) in LabelUpdated(s, id, row, hostIDs).0.rows <==> (l, h) in s.rows
  {
    if row.Some? {
      if IsRegular(s, id) {
        WriteKeepsHandRows(s, id, row.value, hostIDs, LabelUpdated(s, id, row, hostIDs).0, l, h);
      }
    }
  }

  lemma LabelStepsKeepHandRows(
    isEmail: string -> bool, s: Tables, op: Operation, t: Tables, outcome: Outcome, l: Id, h: Id)
    requires OnLabels(op) && Step(isEmail, s, op, t, outcome) && !Concerns(op, l, h)
    requires l in s.labels && s.labels[l].kind != Derived && Id(s.nextLabel) != l
    ensures (l, h) in t.rows <==> (l, h) in s.rows
  {
    match op
    case CreateLabel(mutation) => CreateKeepsHandRows(s, Checked(mutation), mutation.hostIDs, l, h);
    case UpdateLabel(id, mutation) => UpdateKeepsHandRows(s, id, Checked(mutation), mutation.hostIDs, l, h);
    case SetDynamic(host, results) => ApplicableAreDynamic(s, results);
    case _ =>
  }

  /** No refresh ever touches a manual or dynamic label: whatever happens to users,
      groups, primary users and other labels, its rows change only in a step that
      concerns the label and the host. */
  lemma HandRowsAreKept(
    isEmail: string -> bool, s: Tables, op: Operation, t: Tables, outcome: Outcome, l: Id, h: Id)
    requires Consistent(s) && Step(isEmail, s, op, t, outcome) && !Concerns(op, l, h)
    requires l in s.labels && s.labels[l].kind != Derived
    ensures (l, h) in t.rows <==> (l, h) in s.rows
  {
    if OnHosts(op) {
      HostStepsKeepHandRows(isEmail, s, op, t, outcome, l, h);
    } else if OnLabels(op) {
      LabelStepsKeepHandRows(isEmail, s, op, t, outcome, l, h);
    } else if op.CreateUser? {
      CreateUserFrame(s, op.email, op.name, op.passwordHash, op.roleKey, t);
    } else if op.UpdateUser? {
      UpdateUserFrame(s, op.user, op.name, op.hash, op.role, t);
    } else if op.DeleteUser? {
      DeleteUserFrame(s, op.user, t);
      DeleteUserRefreshes(s, op.user, t);
    } else {
      SnapshotFrame(s, op.source, op.snapshot, t, outcome);
    }
  }

  // ------------------------------------------------------------- provider snapshots

  /** The last entry of an external id is the one that counts, for users and groups. */
  lemma {:induction false} LastEntryWins<T>(externalID: T -> string, entries: seq<T>, i: nat)
    requires i < |entries| && forall j :: i < j < |entries| ==> externalID(entries[j]) != externalID(entries[i])
    ensures externalID(entries[i]) in Latest(externalID, entries)
    ensures Latest(externalID, entries)[externalID(entries[i])] == entries[i]
  {
    if i < |entries| - 1 {
      LastEntryWins(externalID, entries[..|entries| - 1], i);
    }
  }

  /** In a consistent state a provider snapshot is refused exactly when two of its
      enabled users claim one address or principal name. */
  lemma SnapshotIsAccepted(s: Tables, source: Source, snapshot: ProviderSnapshot, t: Tables, outcome: Outcome)
    requires LabelsConsistent(s) && source != Local && SnapshotApplied(s, source, snapshot, t, outcome)
    ensures outcome == Done <==> !Clashes(LatestUsers(snapshot.users))
    ensures var latest := LatestUsers(snapshot.users);
      outcome == Done <==>
        forall a, b | a in latest && b in latest && a != b && latest[a].enabled && latest[b].enabled ::
          Trim(latest[a].userPrincipalName) != Trim(latest[b].userPrincipalName)
          && (if Trim(latest[a].mail) != "" then Trim(latest[a].mail) else Trim(latest[a].userPrincipalName))
             != (if Trim(latest[b].mail) != "" then Trim(latest[b].mail) else Trim(latest[b].userPrincipalName))
  {
    RefreshIsAccepted(s, None);
    var latest := LatestUsers(snapshot.users);
    forall a | a in latest
      ensures EmailOf(latest[a])
           == if Trim(latest[a].mail) != "" then Trim(latest[a].mail) else Trim(latest[a].userPrincipalName)
    {}
  }

  /** The source's active users are exactly the snapshot's enabled entries, with
      the snapshot's attributes. */
  lemma SnapshotSetsActiveUsers(s: Tables, source: Source, snapshot: ProviderSnapshot, t: Tables, key: string)
    requires UsersSound(s.users, s.nextUser) && SnapshotApplied(s, source, snapshot, t, Done)
    ensures var latest := LatestUsers(snapshot.users);
      (key in latest && latest[key].enabled)
      <==> exists id :: id in t.users && Of(t.users[id], source, key) && !t.users[id].deleted
                        && t.users[id] == UserRow(source, latest[key], t.users[id].passwordHash)
  {
    var latest := LatestUsers(snapshot.users);
    if key in latest && latest[key].enabled {
      var id :| id in t.users && Of(t.users[id], source, key);
      assert t.users[id] == UserRow(source, latest[key], t.users[id].passwordHash);
    }
    forall id | id in t.users && Of(t.users[id], source, key) && !t.users[id].deleted
      ensures key in latest && latest[key].enabled
    {
      ActiveComesFromSnapshot(s.users, s.nextUser, source, latest, t.users, id);
    }
  }

  /** A user of the source after a snapshot is as its entry says, and a tombstone if it
      has none; users keep their ids, identities and passwords, and others are left. */
  lemma SnapshotUser(s: Tables, source: Source, snapshot: ProviderSnapshot, t: Tables, id: Id)
    requires SnapshotApplied(s, source, snapshot, t, Done) && id in t.users
    ensures t.users[id].source != source ==> id in s.users && t.users[id] == s.users[id]
    ensures id in s.users ==>
      t.users[id].source == s.users[id].source && t.users[id].externalID == s.users[id].externalID
      && t.users[id].passwordHash == s.users[id].passwordHash
    ensures id !in s.users ==> t.users[id].passwordHash.None? && id.number >= s.nextUser
    ensures t.users[id].source == source ==>
      t.users[id].externalID.Some?
      && if t.users[id].externalID.value in LatestUsers(snapshot.users)
         then IsEntryOf(LatestUsers(snapshot.users)[t.users[id].externalID.value], t.users[id])
         else id in s.users && t.users[id] == s.users[id].(deleted := true)
  {
    assert UsersDistinct(t.users);
    var latest := LatestUsers(snapshot.users);
    assert NewUsersWritten(s.users, s.nextUser, source, latest.Keys, t.users);
    if t.users[id].source == source && t.users[id].externalID.value in latest {
      assert t.users[id] == UserRow(source, latest[t.users[id].externalID.value], t.users[id].passwordHash);
    }
  }

  /** The address is the mail, or the principal name where that is blank. */
  ghost predicate IsEntryOf(entry: ProviderUser, user: User) {
    user.email == (if Trim(entry.mail) != "" then Trim(entry.mail) else Trim(entry.userPrincipalName))
    && user.userPrincipalName == Some(Trim(entry.userPrincipalName))
    && user.name == entry.displayName
    && user.externalID == Some(entry.externalID)
    && user.deleted == !entry.enabled
    && user.mailNickname.GetOr("") == entry.mailNickname && user.mailNickname != Some("")
    && user.givenName.GetOr("") == entry.givenName && user.givenName != Some("")
    && user.familyName.GetOr("") == entry.familyName && user.familyName != Some("")
    && user.department.GetOr("") == entry.department && user.department != Some("")
  }

  /** The source's groups after a snapshot are exactly its entries', under the ids they
      had, and other groups are left. */
  lemma SnapshotGroups(s: Tables, source: Source, snapshot: ProviderSnapshot, t: Tables)
    requires SnapshotApplied(s, source, snapshot, t, Done)
    ensures forall id :: id in t.groups && t.groups[id].source == source ==>
      t.groups[id].externalID in LatestGroups(snapshot.groups)
      && var entry := LatestGroups(snapshot.groups)[t.groups[id].externalID];
         t.groups[id].displayName == entry.displayName
         && t.groups[id].mailNickname.GetOr("") == entry.mailNickname && t.groups[id].mailNickname != Some("")
    ensures forall key :: key in LatestGroups(snapshot.groups) ==>
      exists id :: id in t.groups && t.groups[id].source == source && t.groups[id].externalID == key
    ensures forall id :: id in s.groups && id in t.groups ==>
      t.groups[id].source == s.groups[id].source && t.groups[id].externalID == s.groups[id].externalID
    ensures forall id :: id in s.groups ==>
      (id in t.groups <==>
        s.groups[id].source != source || s.groups[id].externalID in LatestGroups(snapshot.groups))
    ensures forall id :: id in s.groups && s.groups[id].source != source ==> t.groups[id] == s.groups[id]
  {
    var latest := LatestGroups(snapshot.groups);
    assert GroupsReplaced(s.groups, s.nextGroup, source, latest, latest.Keys, true, t.groups);
    forall key | key in latest
      ensures exists id :: id in t.groups && t.groups[id].source == source && t.groups[id].externalID == key
    {
      assert GroupCovered(source, key, t.groups);
    }
  }

  /** A user of the source is in a group of the source exactly when its entry lists the
      group; every other membership stays as long as its group does. */
  lemma SnapshotMembers(
    s: Tables, source: Source, snapshot: ProviderSnapshot, t: Tables, user: Id, group: Id)
    requires SnapshotApplied(s, source, snapshot, t, Done)
    ensures user in t.users && group in t.groups
            && t.users[user].source == source && t.groups[group].source == source ==>
      ((user, group) in t.members <==>
        exists key :: key in LatestUsers(snapshot.users) && t.users[user].externalID == Some(key)
          && t.groups[group].externalID in LatestUsers(snapshot.users)[key].groupExternalIDs)
    ensures !(user in t.users && group in t.groups
              && t.users[user].source == source && t.groups[group].source == source) ==>
      ((user, group) in t.members <==> (user, group) in s.members && group in t.groups)
  {
    assert MembersReplaced(s, source, LatestUsers(snapshot.users), t);
  }

  lemma SnapshotIsAcceptedAgain(
    s: Tables, source: Source, snapshot: ProviderSnapshot, t: Tables, u: Tables, outcome: Outcome)
    requires SnapshotApplied(s, source, snapshot, t, Done) && SnapshotApplied(t, source, snapshot, u, outcome)
    ensures outcome == Done
  {
    SnapshotFrame(s, source, snapshot, t, Done);
    assert forall l :: IsDerived(t, l) <==> IsDerived(s, l);
  }

  lemma ReplacedTwice(s: Tables, source: Source, snapshot: ProviderSnapshot, t: Tables, u: Tables)
    requires SnapshotApplied(s, source, snapshot, t, Done) && SnapshotApplied(t, source, snapshot, u, Done)
    requires MembersSound(t)
    ensures u.users == t.users && u.groups == t.groups && u.members == t.members
  {
    var users, groups := LatestUsers(snapshot.users), LatestGroups(snapshot.groups);
    UsersReplacedTwice(s.users, s.nextUser, source, users, t.users, t.nextUser, u.users);
    GroupsReplacedTwice(s.groups, s.nextGroup, source, groups, t.groups, t.nextGroup, u.groups);
    MembersReplacedTwice(s, source, users, t, u);
  }

  /** Applying a snapshot again changes nothing but the sequences. */
  lemma SnapshotIsIdempotent(
    s: Tables, source: Source, snapshot: ProviderSnapshot, t: Tables, u: Tables, outcome: Outcome)
    requires SnapshotApplied(s, source, snapshot, t, Done) && SnapshotApplied(t, source, snapshot, u, outcome)
    requires Consistent(s)
    ensures outcome == Done
    ensures u == t.(nextUser := u.nextUser, nextGroup := u.nextGroup)
  {
    SnapshotIsAcceptedAgain(s, source, snapshot, t, u, outcome);
    SnapshotKeepsDirectory(s, source, snapshot, t, Done);
    RefreshCompletes(t.(rows := s.rows), None, None);
    ReplacedTwice(s, source, snapshot, t, u);
    SnapshotFrame(t, source, snapshot, u, Done);
    ViewIsFixpoint(t, u.(rows := t.rows));
  }

  /** The view is as exact under other sequences. */
  lemma ViewIsFixpoint(t: Tables, v: Tables)
    requires Exact(t) && v == t.(nextUser := v.nextUser, nextGroup := v.nextGroup)
    ensures Refreshed(v, None, None) == v
  {
    forall l, h ensures ExactAt(v, l, h) {
      assert ExactAt(t, l, h);
      SameDerivation(t, v, l, h);
    }
    ExactIsFixpoint(v);
  }

  lemma UserKeptTwice(s: map<Id, User>, first: nat, source: Source, latest: map<string, ProviderUser>,
                      t: map<Id, User>, second: nat, u: map<Id, User>, id: Id)
    requires source != Local && id in t
    requires UsersReplaced(s, first, source, latest, latest.Keys, t)
    requires UsersReplaced(t, second, source, latest, latest.Keys, u)
    ensures id in u && u[id] == t[id]
  {
    if t[id].source == source {
      assert t[id].externalID.Some?;
      if t[id].externalID.value !in latest {
        assert id in s && t[id] == s[id].(deleted := true);
      } else {
        assert t[id] == UserRow(source, latest[t[id].externalID.value], t[id].passwordHash);
        assert u[id] == UserRow(source, latest[u[id].externalID.value], u[id].passwordHash);
      }
    }
  }

  lemma NoNewUserTwice(source: Source, latest: map<string, ProviderUser>,
                       t: map<Id, User>, second: nat, u: map<Id, User>, id: Id)
    requires source != Local && id in u
    requires forall key :: key in latest ==> exists same :: same in t && Of(t[same], source, key)
    requires UsersReplaced(t, second, source, latest, latest.Keys, u)
    ensures id in t
  {
    if u[id].source == source && u[id].externalID.GetOr("") in latest {
      assert UsersDistinct(u);
      var same :| same in t && Of(t[same], source, u[id].externalID.value);
      assert same in u && Of(u[same], source, u[id].externalID.value);
      assert same == id;
    }
  }

  lemma UsersReplacedTwice(s: map<Id, User>, first: nat, source: Source, latest: map<string, ProviderUser>,
                           t: map<Id, User>, second: nat, u: map<Id, User>)
    requires source != Local
    requires UsersReplaced(s, first, source, latest, latest.Keys, t)
    requires UsersReplaced(t, second, source, latest, latest.Keys, u)
    ensures u == t
  {
    forall id | id in t ensures id in u && u[id] == t[id] {
      UserKeptTwice(s, first, source, latest, t, second, u, id);
    }
    forall id | id in u ensures id in t {
      NoNewUserTwice(source, latest, t, second, u, id);
    }
  }

  lemma NoNewGroupTwice(source: Source, latest: map<string, ProviderGroup>,
                        t: map<Id, Group>, second: nat, u: map<Id, Group>, id: Id)
    requires id in u
    requires forall key :: key in latest ==>
      exists same :: same in t && t[same].source == source && t[same].externalID == key
    requires GroupsReplaced(t, second, source, latest, latest.Keys, true, u)
    ensures id in t
  {
    if u[id].source == source && u[id].externalID in latest {
      assert GroupsDistinct(u);
      var same :| same in t && t[same].source == source && t[same].externalID == u[id].externalID;
      assert same == id;
    }
  }

  lemma GroupsReplacedTwice(s: map<Id, Group>, first: nat, source: Source, latest: map<string, ProviderGroup>,
                            t: map<Id, Group>, second: nat, u: map<Id, Group>)
    requires GroupsReplaced(s, first, source, latest, latest.Keys, true, t)
    requires GroupsReplaced(t, second, source, latest, latest.Keys, true, u)
    ensures u == t
  {
    forall id | id in t ensures id in u && u[id] == t[id] {
      if t[id].source == source {
        assert t[id].externalID in latest;
      }
    }
    forall id | id in u ensures id in t {
      NoNewGroupTwice(source, latest, t, second, u, id);
    }
  }

  lemma MembersReplacedTwice(s: Tables, source: Source, latest: map<string, ProviderUser>, t: Tables, u: Tables)
    requires MembersReplaced(s, source, latest, t) && MembersReplaced(t, source, latest, u)
    requires t.users == u.users && t.groups == u.groups && MembersSound(t)
    ensures u.members == t.members
  {
    forall member ensures member in u.members <==> member in t.members {
      assert member == (member.0, member.1);
    }
  }
}
