/** One read and one write of an osquery agent: the query map that goes out, and
    the routing of the results that come back. */
module QueryDispatch {
  import opened Basics
  import opened QueryNames
  import opened Strings

  // ------------------------------------------------------------------------- read

  /** A label, or a live query, with its SQL. */
  datatype Item = Item(id: int, sql: string)

  datatype Issued = Issued(evaluation: Evaluation, sql: string)

  /** What is due for a host. The ids are primary keys, and a policy is evaluated
      at most once. */
  datatype Work = Work(
    details: map<string, string>,
    labels: seq<Item>,
    evaluations: seq<Issued>,
    live: seq<Item>)

  ghost predicate IsWork(work: Work) {
    "" !in work.details
    && DistinctItems(work.labels) && DistinctItems(work.live)
    && (forall i :: 0 <= i < |work.evaluations| ==> IsEvaluation(work.evaluations[i].evaluation))
    && (forall i, j :: 0 <= i < j < |work.evaluations| ==>
          work.evaluations[i].evaluation.policyID != work.evaluations[j].evaluation.policyID)
  }

  ghost predicate DistinctItems(items: seq<Item>) {
    (forall i :: 0 <= i < |items| ==> IsID(items[i].id))
    && forall i, j :: 0 <= i < j < |items| ==> items[i].id != items[j].id
  }

  /** One entry of the query map: this piece of work is due, and this is its name. */
  datatype Entry =
    | DetailEntry(suffix: string)
    | LabelEntry(id: int)
    | PolicyEntry(evaluation: Evaluation)
    | LiveEntry(id: int)

  function EntryName(entry: Entry): string {
    match entry
    case DetailEntry(suffix) => Name(Detail, suffix)
    case LabelEntry(id) => NameOfID(Label, id)
    case PolicyEntry(evaluation) => NameOfEvaluation(evaluation)
    case LiveEntry(id) => NameOfID(Live, id)
  }

  ghost predicate Due(work: Work, entry: Entry, sql: string) {
    match entry
    case DetailEntry(suffix) => suffix in work.details && work.details[suffix] == sql
    case LabelEntry(id) => Item(id, sql) in work.labels
    case PolicyEntry(evaluation) => Issued(evaluation, sql) in work.evaluations
    case LiveEntry(id) => Item(id, sql) in work.live
  }

  ghost predicate WellFormed(entry: Entry) {
    match entry
    case DetailEntry(suffix) => suffix != ""
    case LabelEntry(id) => IsID(id)
    case PolicyEntry(evaluation) => IsEvaluation(evaluation)
    case LiveEntry(id) => IsID(id)
  }

  /** Names tell pieces of work apart, within and across the kinds. */
  lemma EntryNamesAreInjective(a: Entry, b: Entry)
    requires WellFormed(a) && WellFormed(b) && EntryName(a) == EntryName(b)
    ensures a == b
  {
    var (k, x) := Parts(a);
    var (l, y) := Parts(b);
    NamesAreInjective(k, x, l, y);
    match a
    case DetailEntry(_) =>
    case LabelEntry(id) => IDNamesAreInjective(Label, id, b.id);
    case PolicyEntry(evaluation) => EvaluationNamesAreInjective(evaluation, b.evaluation);
    case LiveEntry(id) => IDNamesAreInjective(Live, id, b.id);
  }

  function Parts(entry: Entry): (parts: (Kind, string))
    ensures EntryName(entry) == Name(parts.0, parts.1)
  {
    match entry
    case DetailEntry(suffix) => (Detail, suffix)
    case LabelEntry(id) => (Label, FormatInt(id))
    case PolicyEntry(evaluation) => (Policy, EvaluationSuffix(evaluation))
    case LiveEntry(id) => (Live, FormatInt(id))
  }

  type Queue = seq<(Entry, string)>

  /** Distinct well-formed pieces of work. */
  ghost predicate IsQueue(queue: Queue) {
    (forall i :: 0 <= i < |queue| ==> WellFormed(queue[i].0))
    && forall i, j :: 0 <= i < j < |queue| ==> queue[i].0 != queue[j].0
  }

  /** The map has an entry for each piece of work queued, and no other. */
  ghost predicate Holds(queries: map<string, string>, queue: Queue) {
    |queries| == |queue|
    && (forall i :: 0 <= i < |queue| ==>
          EntryName(queue[i].0) in queries && queries[EntryName(queue[i].0)] == queue[i].1)
    && (forall name {:trigger QueuedAs(queue, name)} :: name in queries ==> QueuedAs(queue, name))
  }

  ghost predicate QueuedAs(queue: Queue, name: string) {
    exists i :: 0 <= i < |queue| && EntryName(queue[i].0) == name
  }

  /** Adding a piece of work overwrites none. */
  lemma NothingIsOverwritten(queries: map<string, string>, queue: Queue, entry: Entry, sql: string)
    requires Holds(queries, queue) && IsQueue(queue + [(entry, sql)])
    ensures EntryName(entry) !in queries
    ensures Holds(queries[EntryName(entry) := sql], queue + [(entry, sql)])
  {
    var longer := queue + [(entry, sql)];
    forall i | 0 <= i < |queue| ensures EntryName(queue[i].0) != EntryName(entry) {
      assert longer[i].0 != longer[|queue|].0;
      if EntryName(longer[i].0) == EntryName(entry) {
        EntryNamesAreInjective(longer[i].0, entry);
      }
    }
    assert EntryName(entry) in queries ==> QueuedAs(queue, EntryName(entry));
    var after := queries[EntryName(entry) := sql];
    forall name | name in after ensures QueuedAs(longer, name) {
      if name in queries {
        assert QueuedAs(queue, name);
        var i :| 0 <= i < |queue| && EntryName(queue[i].0) == name;
        assert longer[i] == queue[i];
      } else {
        assert longer[|queue|] == (entry, sql);
      }
    }
  }

  function LabelQueue(items: seq<Item>): (queue: Queue)
    ensures |queue| == |items|
    ensures forall i :: 0 <= i < |items| ==> queue[i] == (LabelEntry(items[i].id), items[i].sql)
  {
    seq(|items|, i requires 0 <= i < |items| => (LabelEntry(items[i].id), items[i].sql))
  }

  function PolicyQueue(items: seq<Issued>): (queue: Queue)
    ensures |queue| == |items|
    ensures forall i :: 0 <= i < |items| ==> queue[i] == (PolicyEntry(items[i].evaluation), items[i].sql)
  {
    seq(|items|, i requires 0 <= i < |items| => (PolicyEntry(items[i].evaluation), items[i].sql))
  }

  function LiveQueue(items: seq<Item>): (queue: Queue)
    ensures |queue| == |items|
    ensures forall i :: 0 <= i < |items| ==> queue[i] == (LiveEntry(items[i].id), items[i].sql)
  {
    seq(|items|, i requires 0 <= i < |items| => (LiveEntry(items[i].id), items[i].sql))
  }

  /** The map that goes out, filled by one queue method after the other. */
  class QueryMap {
    var queries: map<string, string>

    constructor ()
      ensures Holds(queries, [])
    {
      queries := map[];
    }

    method QueueDetail(details: map<string, string>, ghost done: set<string>, ghost queue: Queue, suffix: string)
      returns (ghost longer: Queue)
      requires Detailed(queries, details, done, queue)
      requires suffix in details && suffix !in done && suffix != ""
      modifies this
      ensures Detailed(queries, details, done + {suffix}, longer)
    {
      DetailStep(details, done, queue, suffix);
      Put(queue, DetailEntry(suffix), details[suffix]);
      longer := queue + [(DetailEntry(suffix), details[suffix])];
    }

    /** The detail queries, in whatever order the map yields them. */
    method QueueDetails(details: map<string, string>) returns (ghost queue: Queue)
      requires Holds(queries, []) && "" !in details
      modifies this
      ensures Detailed(queries, details, details.Keys, queue)
    {
      var pending := details.Keys;
      queue := [];
      NoneQueued(queries, details);
      assert details.Keys - pending == {};
      while pending != {}
        invariant pending <= details.Keys
        invariant Detailed(queries, details, details.Keys - pending, queue)
        decreases pending
      {
        var suffix :| suffix in pending;
        TakenFrom(details.Keys, pending, suffix);
        queue := QueueDetail(details, details.Keys - pending, queue, suffix);
        pending := pending - {suffix};
      }
      assert details.Keys - pending == details.Keys;
    }

    /** queryMap[name of entry] = sql. */
    method Put(ghost queue: Queue, entry: Entry, sql: string)
      requires Holds(queries, queue) && IsQueue(queue + [(entry, sql)])
      modifies this
      ensures Holds(queries, queue + [(entry, sql)])
    {
      NothingIsOverwritten(queries, queue, entry, sql);
      queries := queries[EntryName(entry) := sql];
    }

    method QueueLabelQueries(ghost queue: Queue, labels: seq<Item>) returns (count: nat)
      requires Holds(queries, queue) && IsQueue(queue + LabelQueue(labels))
      modifies this
      ensures count == |labels| && Holds(queries, queue + LabelQueue(labels))
    {
      count := 0;
      assert queue + LabelQueue(labels)[..0] == queue;
      for i := 0 to |labels|
        invariant count == i && Holds(queries, queue + LabelQueue(labels)[..i])
      {
        QueueStep(queue, LabelQueue(labels), i);
        Put(queue + LabelQueue(labels)[..i], LabelEntry(labels[i].id), labels[i].sql);
        count := count + 1;
      }
      assert LabelQueue(labels)[..|labels|] == LabelQueue(labels);
    }

    method QueuePolicyQueries(ghost queue: Queue, evaluations: seq<Issued>) returns (count: nat)
      requires Holds(queries, queue) && IsQueue(queue + PolicyQueue(evaluations))
      modifies this
      ensures count == |evaluations| && Holds(queries, queue + PolicyQueue(evaluations))
    {
      assert queue + PolicyQueue(evaluations)[..0] == queue;
      for i := 0 to |evaluations|
        invariant Holds(queries, queue + PolicyQueue(evaluations)[..i])
      {
        QueueStep(queue, PolicyQueue(evaluations), i);
        Put(queue + PolicyQueue(evaluations)[..i], PolicyEntry(evaluations[i].evaluation), evaluations[i].sql);
      }
      assert PolicyQueue(evaluations)[..|evaluations|] == PolicyQueue(evaluations);
      count := |evaluations|;
    }

    method QueueLiveQueries(ghost queue: Queue, live: seq<Item>) returns (count: nat)
      requires Holds(queries, queue) && IsQueue(queue + LiveQueue(live))
      modifies this
      ensures count == |live| && Holds(queries, queue + LiveQueue(live))
    {
      assert queue + LiveQueue(live)[..0] == queue;
      for i := 0 to |live|
        invariant Holds(queries, queue + LiveQueue(live)[..i])
      {
        QueueStep(queue, LiveQueue(live), i);
        Put(queue + LiveQueue(live)[..i], LiveEntry(live[i].id), live[i].sql);
      }
      assert LiveQueue(live)[..|live|] == LiveQueue(live);
      count := |live|;
    }
  }

  ghost predicate DetailsQueued(details: map<string, string>, done: set<string>, queue: Queue) {
    IsQueue(queue) && |queue| == |done|
    && (forall i :: 0 <= i < |queue| ==>
          queue[i].0.DetailEntry? && queue[i].0.suffix in done && queue[i].0.suffix in details
          && queue[i].1 == details[queue[i].0.suffix])
    && (forall suffix {:trigger DetailQueued(details, suffix, queue)} ::
          suffix in done ==> DetailQueued(details, suffix, queue))
  }

  ghost predicate DetailQueued(details: map<string, string>, suffix: string, queue: Queue) {
    suffix in details && (DetailEntry(suffix), details[suffix]) in queue
  }

  ghost predicate Detailed(
    queries: map<string, string>, details: map<string, string>, done: set<string>, queue: Queue)
  {
    Holds(queries, queue) && DetailsQueued(details, done, queue)
  }

  lemma NoneQueued(queries: map<string, string>, details: map<string, string>)
    requires Holds(queries, [])
    ensures Detailed(queries, details, {}, [])
  {}

  lemma DetailStep(details: map<string, string>, done: set<string>, queue: Queue, suffix: string)
    requires DetailsQueued(details, done, queue) && suffix in details && suffix !in done && suffix != ""
    ensures var longer := queue + [(DetailEntry(suffix), details[suffix])];
      IsQueue(longer) && DetailsQueued(details, done + {suffix}, longer)
  {
    var longer := queue + [(DetailEntry(suffix), details[suffix])];
    forall other | other in done + {suffix} ensures DetailQueued(details, other, longer) {
      if other != suffix {
        assert DetailQueued(details, other, queue);
      } else {
        assert longer[|queue|] == (DetailEntry(suffix), details[suffix]);
      }
    }
  }

  lemma QueueStep(queue: Queue, list: Queue, i: nat)
    requires IsQueue(queue + list) && i < |list|
    ensures queue + list[..i + 1] == queue + list[..i] + [list[i]]
    ensures IsQueue(queue + list[..i] + [list[i]])
  {
    QueuePrefix(queue + list, |queue| + i + 1);
    assert (queue + list)[..|queue| + i + 1] == queue + list[..i] + [list[i]];
  }

  /** Lists of different kinds, each without duplicates, make a queue. */
  lemma QueuesJoin(a: Queue, b: Queue)
    requires IsQueue(a) && IsQueue(b)
    requires forall i, j :: 0 <= i < |a| && 0 <= j < |b| ==> a[i].0 != b[j].0
    ensures IsQueue(a + b)
  {}

  lemma QueuePrefix(queue: Queue, n: nat)
    requires IsQueue(queue) && n <= |queue|
    ensures IsQueue(queue[..n])
  {}

  /** The map holds each piece of work that is due under its own name, with its own
      SQL, and nothing else. */
  ghost predicate IsExactly(queries: map<string, string>, work: Work) {
    |queries| == |work.details| + |work.labels| + |work.evaluations| + |work.live|
    && (forall entry, sql :: Due(work, entry, sql) ==>
          EntryName(entry) in queries && queries[EntryName(entry)] == sql)
    && (forall name :: name in queries ==>
          exists entry :: Due(work, entry, queries[name]) && EntryName(entry) == name)
  }

  method DistributedRead(work: Work) returns (queries: map<string, string>)
    requires IsWork(work)
    ensures IsExactly(queries, work)
  {
    var queryMap := new QueryMap();
    ghost var details := queryMap.QueueDetails(work.details);
    assert |work.details.Keys| == |work.details|;
    WorkIsQueue(work, details);
    var labelCount := queryMap.QueueLabelQueries(details, work.labels);
    var policyCount := queryMap.QueuePolicyQueries(details + LabelQueue(work.labels), work.evaluations);
    var liveCount := queryMap.QueueLiveQueries(
      details + LabelQueue(work.labels) + PolicyQueue(work.evaluations), work.live);
    queries := queryMap.queries;
    QueueIsDue(work, details, details + LabelQueue(work.labels) + PolicyQueue(work.evaluations) + LiveQueue(work.live));
    QueueIsExact(work, queries,
                 details + LabelQueue(work.labels) + PolicyQueue(work.evaluations) + LiveQueue(work.live));
  }

  lemma WorkIsQueue(work: Work, details: Queue)
    requires IsWork(work) && IsQueue(details) && forall i :: 0 <= i < |details| ==> details[i].0.DetailEntry?
    ensures IsQueue(details + LabelQueue(work.labels))
    ensures IsQueue(details + LabelQueue(work.labels) + PolicyQueue(work.evaluations))
    ensures IsQueue(details + LabelQueue(work.labels) + PolicyQueue(work.evaluations) + LiveQueue(work.live))
  {
    QueuesJoin(details, LabelQueue(work.labels));
    QueuesJoin(details + LabelQueue(work.labels), PolicyQueue(work.evaluations));
    QueuesJoin(details + LabelQueue(work.labels) + PolicyQueue(work.evaluations), LiveQueue(work.live));
  }

  lemma QueueIsExact(work: Work, queries: map<string, string>, all: Queue)
    requires Holds(queries, all)
    requires |all| == |work.details| + |work.labels| + |work.evaluations| + |work.live|
    requires forall i :: 0 <= i < |all| ==> Due(work, all[i].0, all[i].1)
    requires forall entry, sql :: Due(work, entry, sql) ==> (entry, sql) in all
    ensures IsExactly(queries, work)
  {
    forall entry, sql | Due(work, entry, sql)
      ensures EntryName(entry) in queries && queries[EntryName(entry)] == sql
    {
      var i :| 0 <= i < |all| && all[i] == (entry, sql);
    }
    forall name | name in queries
      ensures exists entry :: Due(work, entry, queries[name]) && EntryName(entry) == name
    {
      assert QueuedAs(all, name);
      var i :| 0 <= i < |all| && EntryName(all[i].0) == name;
      assert Due(work, all[i].0, queries[name]);
    }
  }

  lemma QueueIsDue(work: Work, details: Queue, all: Queue)
    requires all == details + LabelQueue(work.labels) + PolicyQueue(work.evaluations) + LiveQueue(work.live)
    requires forall i :: 0 <= i < |details| ==>
      details[i].0.DetailEntry? && details[i].0.suffix in work.details
      && details[i].1 == work.details[details[i].0.suffix]
    requires forall suffix :: suffix in work.details ==> DetailQueued(work.details, suffix, details)
    ensures forall i :: 0 <= i < |all| ==> Due(work, all[i].0, all[i].1)
    ensures forall entry, sql :: Due(work, entry, sql) ==> (entry, sql) in all
  {
    forall entry, sql | Due(work, entry, sql) ensures (entry, sql) in all {
      match entry
      case DetailEntry(suffix) =>
        assert DetailQueued(work.details, suffix, details);
      case LabelEntry(id) =>
        var i :| 0 <= i < |work.labels| && work.labels[i] == Item(id, sql);
        assert LabelQueue(work.labels)[i] == (entry, sql);
      case PolicyEntry(evaluation) =>
        var i :| 0 <= i < |work.evaluations| && work.evaluations[i] == Issued(evaluation, sql);
        assert PolicyQueue(work.evaluations)[i] == (entry, sql);
      case LiveEntry(id) =>
        var i :| 0 <= i < |work.live| && work.live[i] == Item(id, sql);
        assert LiveQueue(work.live)[i] == (entry, sql);
    }
  }

  // ------------------------------------------------------------------------ write

  type Row = map<string, string>

  /** statuses are the raw JSON values; messages default to none. */
  datatype Request = Request(
    queries: map<string, seq<Row>>,
    statuses: map<string, string>,
    messages: map<string, string>)

  datatype DetailQuery = DetailQuery(optional: bool, deferred: bool)

  datatype DetailResult = DetailResult(rows: seq<Row>, succeeded: bool)

  datatype LabelResult = LabelResult(labelID: int, matched: bool)

  datatype PolicyStatus = Pass | Fail | Error

  datatype PolicyResult = PolicyResult(evaluation: Evaluation, status: PolicyStatus, error: string)

  datatype LiveResult = LiveResult(queryID: int, collected: bool, rows: seq<Row>, error: string)

  /** distributedStatusOK; isZero decides whether the raw status decodes to 0. */
  predicate Succeeded(isZero: string -> bool, request: Request, name: string) {
    name in request.statuses && isZero(request.statuses[name])
  }

  function Message(request: Request, name: string): string {
    if name in request.messages then request.messages[name] else ""
  }

  // What a name's result means, by its kind. Nothing else reads the name.

  function LabelOutcome(isZero: string -> bool, request: Request, name: string): Option<LabelResult>
    requires name in request.queries
  {
    match ParseName(name)
    case Some((Label, suffix)) =>
      if ParsePositive(suffix).None? || !Succeeded(isZero, request, name) then None
      else Some(LabelResult(ParsePositive(suffix).value, |request.queries[name]| > 0))
    case _ => None
  }

  function PolicyOutcome(isZero: string -> bool, request: Request, name: string): Option<PolicyResult>
    requires name in request.queries
  {
    match ParseName(name)
    case Some((Policy, suffix)) =>
      if ParseEvaluation(suffix).None? then None
      else if !Succeeded(isZero, request, name) then
        Some(PolicyResult(ParseEvaluation(suffix).value, Error, Message(request, name)))
      else
        Some(PolicyResult(ParseEvaluation(suffix).value, if |request.queries[name]| > 0 then Pass else Fail, ""))
    case _ => None
  }

  function LiveOutcome(isZero: string -> bool, request: Request, name: string): Option<LiveResult>
    requires name in request.queries
  {
    match ParseName(name)
    case Some((Live, suffix)) =>
      if ParsePositive(suffix).None? then None
      else Some(LiveResult(ParsePositive(suffix).value, Succeeded(isZero, request, name),
                           request.queries[name], Message(request, name)))
    case _ => None
  }

  function LabelsFrom(isZero: string -> bool, request: Request, names: seq<string>): seq<LabelResult>
    requires forall name :: name in names ==> name in request.queries
  {
    if names == [] then []
    else
      var last := LabelOutcome(isZero, request, names[|names| - 1]);
      LabelsFrom(isZero, request, names[..|names| - 1]) + if last.Some? then [last.value] else []
  }

  function PoliciesFrom(isZero: string -> bool, request: Request, names: seq<string>): seq<PolicyResult>
    requires forall name :: name in names ==> name in request.queries
  {
    if names == [] then []
    else
      var last := PolicyOutcome(isZero, request, names[|names| - 1]);
      PoliciesFrom(isZero, request, names[..|names| - 1]) + if last.Some? then [last.value] else []
  }

  function LiveFrom(isZero: string -> bool, request: Request, names: seq<string>): seq<LiveResult>
    requires forall name :: name in names ==> name in request.queries
  {
    if names == [] then []
    else
      var last := LiveOutcome(isZero, request, names[|names| - 1]);
      LiveFrom(isZero, request, names[..|names| - 1]) + if last.Some? then [last.value] else []
  }

  lemma PlainName(kind: Kind, name: string, suffix: string)
    requires kind != Report
    ensures ParseName(name) == Some((kind, suffix)) <==> suffix != "" && name == Name(kind, suffix)
  {
    NameRoundTrip(kind, suffix);
    if ParseName(name) == Some((kind, suffix)) {
      ParsePrints(name);
    }
  }

  /** A label's result is that of a name with its id whose query succeeded; the host matches
      when there are rows. */
  lemma LabelOutcomeMeans(isZero: string -> bool, request: Request, suffix: string)
    requires "woodstar_label_query_" + suffix in request.queries
    ensures var name := "woodstar_label_query_" + suffix;
      LabelOutcome(isZero, request, name) ==
        if ParseInt(suffix).GetOr(0) > 0 && name in request.statuses && isZero(request.statuses[name])
        then Some(LabelResult(labelID := ParseInt(suffix).value, matched := request.queries[name] != []))
        else None
  {
    NamesAreWritten(suffix);
    PlainName(Label, Name(Label, suffix), suffix);
    if suffix == "" {
      NameRoundTrip(Label, suffix);
    }
  }

  lemma LabelOutcomeHasName(isZero: string -> bool, request: Request, name: string) returns (suffix: string)
    requires name in request.queries && LabelOutcome(isZero, request, name).Some?
    ensures name == "woodstar_label_query_" + suffix
  {
    suffix := ParseName(name).value.1;
    ParsePrints(name);
    NamesAreWritten(suffix);
  }

  /** A policy's result is that of a name with its evaluation: an error with the agent's
      message where the query failed, and otherwise a pass when there are rows. */
  lemma PolicyOutcomeMeans(isZero: string -> bool, request: Request, suffix: string)
    requires "woodstar_policy_query_" + suffix in request.queries
    ensures var name := "woodstar_policy_query_" + suffix;
      PolicyOutcome(isZero, request, name) ==
        if ParseEvaluation(suffix).None? then None
        else if name in request.statuses && isZero(request.statuses[name])
        then Some(PolicyResult(
          evaluation := ParseEvaluation(suffix).value,
          status := if request.queries[name] != [] then Pass else Fail, error := ""))
        else Some(PolicyResult(
          evaluation := ParseEvaluation(suffix).value,
          status := Error, error := if name in request.messages then request.messages[name] else ""))
  {
    NamesAreWritten(suffix);
    if suffix == "" {
      NameRoundTrip(Policy, suffix);
      NothingIsNoEvaluation();
    } else {
      PlainName(Policy, Name(Policy, suffix), suffix);
    }
  }

  lemma NothingIsNoEvaluation()
    ensures ParseEvaluation("") == None
  {}

  lemma PolicyOutcomeHasName(isZero: string -> bool, request: Request, name: string) returns (suffix: string)
    requires name in request.queries && PolicyOutcome(isZero, request, name).Some?
    ensures name == "woodstar_policy_query_" + suffix
  {
    suffix := ParseName(name).value.1;
    ParsePrints(name);
    NamesAreWritten(suffix);
  }

  /** A live query's result is that of a name with its id, with its rows and message
      whether it succeeded or not. */
  lemma LiveOutcomeMeans(isZero: string -> bool, request: Request, suffix: string)
    requires "woodstar_live_query_" + suffix in request.queries
    ensures var name := "woodstar_live_query_" + suffix;
      LiveOutcome(isZero, request, name) ==
        if ParseInt(suffix).GetOr(0) > 0
        then Some(LiveResult(
          queryID := ParseInt(suffix).value,
          collected := name in request.statuses && isZero(request.statuses[name]),
          rows := request.queries[name],
          error := if name in request.messages then request.messages[name] else ""))
        else None
  {
    NamesAreWritten(suffix);
    PlainName(Live, Name(Live, suffix), suffix);
    if suffix == "" {
      NameRoundTrip(Live, suffix);
    }
  }

  lemma LiveOutcomeHasName(isZero: string -> bool, request: Request, name: string) returns (suffix: string)
    requires name in request.queries && LiveOutcome(isZero, request, name).Some?
    ensures name == "woodstar_live_query_" + suffix
  {
    suffix := ParseName(name).value.1;
    ParsePrints(name);
    NamesAreWritten(suffix);
  }

  /** The results of a kind are the outcomes of the names that have one, in order and each
      once. */
  lemma {:induction false} LabelsInOrder(
    isZero: string -> bool, request: Request, names: seq<string>, has: string -> bool)
    requires forall name :: name in names ==> name in request.queries
    requires forall name :: name in names ==> (has(name) <==> LabelOutcome(isZero, request, name).Some?)
    ensures var kept, results := Kept(has, names), LabelsFrom(isZero, request, names);
      |results| == |kept|
      && forall i :: 0 <= i < |kept| ==> LabelOutcome(isZero, request, names[kept[i]]) == Some(results[i])
  {
    if names != [] {
      LabelsInOrder(isZero, request, names[..|names| - 1], has);
    }
  }

  lemma {:induction false} PoliciesInOrder(
    isZero: string -> bool, request: Request, names: seq<string>, has: string -> bool)
    requires forall name :: name in names ==> name in request.queries
    requires forall name :: name in names ==> (has(name) <==> PolicyOutcome(isZero, request, name).Some?)
    ensures var kept, results := Kept(has, names), PoliciesFrom(isZero, request, names);
      |results| == |kept|
      && forall i :: 0 <= i < |kept| ==> PolicyOutcome(isZero, request, names[kept[i]]) == Some(results[i])
  {
    if names != [] {
      PoliciesInOrder(isZero, request, names[..|names| - 1], has);
    }
  }

  lemma {:induction false} LiveInOrder(
    isZero: string -> bool, request: Request, names: seq<string>, has: string -> bool)
    requires forall name :: name in names ==> name in request.queries
    requires forall name :: name in names ==> (has(name) <==> LiveOutcome(isZero, request, name).Some?)
    ensures var kept, results := Kept(has, names), LiveFrom(isZero, request, names);
      |results| == |kept|
      && forall i :: 0 <= i < |kept| ==> LiveOutcome(isZero, request, names[kept[i]]) == Some(results[i])
  {
    if names != [] {
      LiveInOrder(isZero, request, names[..|names| - 1], has);
    }
  }

  /** The detail results are those of the detail names, by suffix. */
  ghost predicate DetailsAre(
    isZero: string -> bool, request: Request, names: seq<string>, details: map<string, DetailResult>)
  {
    (forall suffix {:trigger Name(Detail, suffix)} ::
       suffix in details <==> suffix != "" && Name(Detail, suffix) in names)
    && (forall suffix {:trigger Name(Detail, suffix)} ::
          suffix in details && Name(Detail, suffix) in request.queries ==>
          details[suffix] == DetailResult(request.queries[Name(Detail, suffix)],
                                          Succeeded(isZero, request, Name(Detail, suffix))))
  }

  /** No required query has been seen to fail. */
  ghost predicate NoneFailed(registry: map<string, DetailQuery>, details: map<string, DetailResult>) {
    forall suffix :: suffix in details && suffix in registry && !registry[suffix].optional ==> details[suffix].succeeded
  }

  /** Every required query has succeeded. */
  ghost predicate Complete(registry: map<string, DetailQuery>, details: map<string, DetailResult>) {
    forall suffix :: suffix in registry && !registry[suffix].optional ==>
      suffix in details && details[suffix].succeeded
  }

  /** The passes of one write. */
  class Dispatcher {
    const registry: map<string, DetailQuery>
    const isZero: string -> bool
    var labels: seq<LabelResult>
    var policies: seq<PolicyResult>
    var live: seq<LiveResult>
    var details: map<string, DetailResult>
    var ingested: map<string, seq<Row>>
    var allSucceeded: bool

    constructor (registry: map<string, DetailQuery>, isZero: string -> bool)
      ensures this.registry == registry && this.isZero == isZero
      ensures labels == [] && policies == [] && live == [] && details == map[] && ingested == map[] && allSucceeded
    {
      this.registry, this.isZero := registry, isZero;
      labels, policies, live, details, ingested, allSucceeded := [], [], [], map[], map[], true;
    }

    /** Detail rows go to the projector at once unless their ingestion is deferred. */
    ghost predicate Ingested()
      reads this
    {
      forall suffix ::
        (suffix in ingested <==> suffix in details && suffix in registry && details[suffix].succeeded
                                 && !registry[suffix].deferred)
        && (suffix in ingested ==> ingested[suffix] == details[suffix].rows)
    }

    method HandleDetail(suffix: string, rows: seq<Row>, succeeded: bool)
      requires suffix !in details && Ingested()
      requires allSucceeded <==> NoneFailed(registry, details)
      modifies `details, `ingested, `allSucceeded
      ensures details == old(details)[suffix := DetailResult(rows, succeeded)] && Ingested()
      ensures allSucceeded <==> NoneFailed(registry, details)
    {
      details := details[suffix := DetailResult(rows, succeeded)];
      if suffix !in registry {
        return;
      }
      if !succeeded {
        if !registry[suffix].optional {
          allSucceeded := false;
        }
        return;
      }
      if !registry[suffix].deferred {
        ingested := ingested[suffix := rows];
      }
    }

    method HandleLabel(ghost request: Request, ghost name: string, suffix: string, rows: seq<Row>, succeeded: bool)
      requires ParseName(name) == Some((Label, suffix))
      requires name in request.queries && rows == request.queries[name]
      requires succeeded == Succeeded(isZero, request, name)
      modifies `labels
      ensures var outcome := LabelOutcome(isZero, request, name);
        labels == old(labels) + if outcome.Some? then [outcome.value] else []
    {
      var labelID := ParsePositive(suffix);
      if labelID.None? || !succeeded {
        return;
      }
      labels := labels + [LabelResult(labelID.value, |rows| > 0)];
    }

    method HandlePolicy(
      ghost request: Request, ghost name: string, suffix: string, rows: seq<Row>, succeeded: bool, message: string)
      requires ParseName(name) == Some((Policy, suffix))
      requires name in request.queries && rows == request.queries[name]
      requires succeeded == Succeeded(isZero, request, name) && message == Message(request, name)
      modifies `policies
      ensures var outcome := PolicyOutcome(isZero, request, name);
        policies == old(policies) + if outcome.Some? then [outcome.value] else []
    {
      var evaluation := ParseEvaluation(suffix);
      if evaluation.None? {
        return;
      }
      var result := PolicyResult(evaluation.value, Error, message);
      if succeeded {
        result := result.(status := if |rows| > 0 then Pass else Fail, error := "");
      }
      policies := policies + [result];
    }

    method HandleLive(
      ghost request: Request, ghost name: string, suffix: string, rows: seq<Row>, succeeded: bool, message: string)
      requires ParseName(name) == Some((Live, suffix))
      requires name in request.queries && rows == request.queries[name]
      requires succeeded == Succeeded(isZero, request, name) && message == Message(request, name)
      modifies `live
      ensures var outcome := LiveOutcome(isZero, request, name);
        live == old(live) + if outcome.Some? then [outcome.value] else []
    {
      var queryID := ParsePositive(suffix);
      if queryID.None? {
        return;
      }
      live := live + [LiveResult(queryID.value, succeeded, rows, message)];
    }

    ghost predicate Routed(request: Request, names: seq<string>)
      requires forall name :: name in names ==> name in request.queries
      reads this
    {
      labels == LabelsFrom(isZero, request, names)
      && policies == PoliciesFrom(isZero, request, names)
      && live == LiveFrom(isZero, request, names)
    }

    ghost predicate DetailsRouted(request: Request, names: seq<string>)
      reads this
    {
      DetailsAre(isZero, request, names, details) && Ingested() && (allSucceeded <==> NoneFailed(registry, details))
    }

    ghost function Grown<T>(before: seq<T>, outcome: Option<T>): seq<T> {
      before + if outcome.Some? then [outcome.value] else []
    }

    /** The switch on the kind. */
    method Handle(request: Request, name: string, kind: Kind, suffix: string)
      requires name in request.queries && ParseName(name) == Some((kind, suffix))
      requires (kind == Detail ==> suffix !in details) && Ingested()
      requires allSucceeded <==> NoneFailed(registry, details)
      modifies this
      ensures labels == Grown(old(labels), LabelOutcome(isZero, request, name))
      ensures policies == Grown(old(policies), PolicyOutcome(isZero, request, name))
      ensures live == Grown(old(live), LiveOutcome(isZero, request, name))
      ensures details ==
        if kind == Detail
        then old(details)[suffix := DetailResult(request.queries[name], Succeeded(isZero, request, name))]
        else old(details)
      ensures Ingested() && (allSucceeded <==> NoneFailed(registry, details))
    {
      var rows := request.queries[name];
      var succeeded, message := Succeeded(isZero, request, name), Message(request, name);
      match kind
      case Detail => HandleDetail(suffix, rows, succeeded);
      case Label => HandleLabel(request, name, suffix, rows, succeeded);
      case Policy => HandlePolicy(request, name, suffix, rows, succeeded, message);
      case Live => HandleLive(request, name, suffix, rows, succeeded, message);
      case Report =>
    }

    method Route(request: Request, ghost names: seq<string>, name: string)
      requires name in request.queries && name !in names && forall n :: n in names ==> n in request.queries
      requires Routed(request, names) && DetailsRouted(request, names)
      modifies this
      ensures Routed(request, names + [name]) && DetailsRouted(request, names + [name])
    {
      var parsed := ParseName(name);
      Extended(request, names, name);
      if parsed.None? {
        DetailNamesParse(name);
        return;
      }
      ParsePrints(name);
      Handle(request, name, parsed.value.0, parsed.value.1);
      DetailsExtended(isZero, request, names, name, old(details), details);
    }

    lemma Extended(request: Request, names: seq<string>, name: string)
      requires name in request.queries && forall n :: n in names ==> n in request.queries
      ensures var last := LabelOutcome(isZero, request, name);
        LabelsFrom(isZero, request, names + [name]) == Grown(LabelsFrom(isZero, request, names), last)
      ensures var last := PolicyOutcome(isZero, request, name);
        PoliciesFrom(isZero, request, names + [name]) == Grown(PoliciesFrom(isZero, request, names), last)
      ensures var last := LiveOutcome(isZero, request, name);
        LiveFrom(isZero, request, names + [name]) == Grown(LiveFrom(isZero, request, names), last)
    {
      assert (names + [name])[..|names|] == names;
    }
  }

  lemma DetailNamesParse(name: string)
    requires ParseName(name).None? || ParseName(name).value.0 != Detail
    ensures forall suffix {:trigger Name(Detail, suffix)} :: suffix != "" ==> Name(Detail, suffix) != name
  {
    forall suffix | suffix != "" ensures Name(Detail, suffix) != name {
      NameRoundTrip(Detail, suffix);
    }
  }

  lemma DetailsExtended(
    isZero: string -> bool, request: Request, names: seq<string>, name: string,
    before: map<string, DetailResult>, after: map<string, DetailResult>)
    requires DetailsAre(isZero, request, names, before) && ParseName(name).Some? && name in request.queries
    requires var (kind, suffix) := ParseName(name).value;
      Name(kind, suffix) == name
      && after == if kind == Detail
                  then before[suffix := DetailResult(request.queries[name], Succeeded(isZero, request, name))]
                  else before
    ensures DetailsAre(isZero, request, names + [name], after)
  {
    var (kind, suffix) := ParseName(name).value;
    forall other ensures Name(Detail, other) == name ==> kind == Detail && other == suffix {
      if Name(Detail, other) == name {
        NamesAreInjective(Detail, other, kind, suffix);
      }
    }
    if kind == Detail {
      NameRoundTrip(Detail, suffix);
    }
  }

  method SawEveryRequired(registry: map<string, DetailQuery>, details: map<string, DetailResult>) returns (saw: bool)
    ensures saw <==> Complete(registry, details)
  {
    var pending := registry.Keys;
    while pending != {}
      invariant pending <= registry.Keys
      invariant forall suffix :: suffix in registry.Keys - pending && !registry[suffix].optional ==>
        suffix in details && details[suffix].succeeded
      decreases pending
    {
      var suffix :| suffix in pending;
      pending := pending - {suffix};
      if !registry[suffix].optional && (suffix !in details || !details[suffix].succeeded) {
        return false;
      }
    }
    saw := true;
  }

  ghost predicate Lists(names: seq<string>, keys: set<string>) {
    (forall name :: name in names <==> name in keys)
    && forall i, j :: 0 <= i < j < |names| ==> names[i] != names[j]
  }

  /** dispatchWriteResults: the results of each kind are routed in the order the map
      yields them, and the inventory is fresh exactly when every required detail
      query of the registry has come back with success. */
  method DispatchWriteResults(registry: map<string, DetailQuery>, isZero: string -> bool, request: Request)
    returns (d: Dispatcher, isFresh: bool, ghost names: seq<string>)
    requires "" !in registry
    ensures Lists(names, request.queries.Keys)
    ensures d.registry == registry && d.isZero == isZero
    ensures d.Routed(request, names) && d.DetailsRouted(request, names)
    ensures isFresh <==> forall suffix :: suffix in registry && !registry[suffix].optional ==>
      Name(Detail, suffix) in request.queries && Succeeded(isZero, request, Name(Detail, suffix))
    ensures forall suffix :: suffix in d.ingested <==>
      suffix in registry && !registry[suffix].deferred
      && Name(Detail, suffix) in request.queries && Succeeded(isZero, request, Name(Detail, suffix))
    ensures forall suffix :: suffix in d.ingested ==> d.ingested[suffix] == request.queries[Name(Detail, suffix)]
  {
    d := new Dispatcher(registry, isZero);
    names := [];
    var pending := request.queries.Keys;
    while pending != {}
      invariant d.registry == registry && d.isZero == isZero && fresh(d)
      invariant pending <= request.queries.Keys && Lists(names, request.queries.Keys - pending)
      invariant d.Routed(request, names) && d.DetailsRouted(request, names)
      decreases pending
    {
      var name :| name in pending;
      pending := pending - {name};
      d.Route(request, names, name);
      names := names + [name];
    }
    var saw := SawEveryRequired(registry, d.details);
    isFresh := d.allSucceeded && saw;
    FreshWhenComplete(registry, isZero, request, names, d.details);
  }

  /** The flag for failures adds nothing: it is up whenever every required query has
      been seen to succeed. */
  lemma FreshWhenComplete(registry: map<string, DetailQuery>, isZero: string -> bool, request: Request,
                          names: seq<string>, details: map<string, DetailResult>)
    requires "" !in registry && Lists(names, request.queries.Keys) && DetailsAre(isZero, request, names, details)
    ensures Complete(registry, details) ==> NoneFailed(registry, details)
    ensures Complete(registry, details) <==>
      forall suffix :: suffix in registry && !registry[suffix].optional ==>
        Name(Detail, suffix) in request.queries && Succeeded(isZero, request, Name(Detail, suffix))
  {}

  // ----------------------------------------------------------------- there and back

  /** The name of a piece of work parses back to exactly that piece of work. */
  lemma NamesRouteBack(entry: Entry)
    requires WellFormed(entry)
    ensures match entry
      case DetailEntry(suffix) => ParseName(EntryName(entry)) == Some((Detail, suffix))
      case LabelEntry(id) =>
        ParseName(EntryName(entry)) == Some((Label, FormatInt(id))) && ParsePositive(FormatInt(id)) == Some(id)
      case PolicyEntry(evaluation) =>
        ParseName(EntryName(entry)) == Some((Policy, EvaluationSuffix(evaluation)))
        && ParseEvaluation(EvaluationSuffix(evaluation)) == Some(evaluation)
      case LiveEntry(id) =>
        ParseName(EntryName(entry)) == Some((Live, FormatInt(id))) && ParsePositive(FormatInt(id)) == Some(id)
  {
    var (kind, suffix) := Parts(entry);
    NameRoundTrip(kind, suffix);
    match entry
    case DetailEntry(_) =>
    case LabelEntry(id) => IDRoundTrip(id);
    case PolicyEntry(evaluation) =>
      EvaluationRoundTrip(evaluation);
      assert |EvaluationSuffix(evaluation)| > 0;
    case LiveEntry(id) => IDRoundTrip(id);
  }

  /** The map, in the texts the agent sees: one entry per piece of work, no more. */
  lemma IssuedTexts(queries: map<string, string>, work: Work)
    requires IsExactly(queries, work)
    ensures |queries| == |work.details| + |work.labels| + |work.evaluations| + |work.live|
    ensures forall suffix :: suffix in work.details ==>
      "woodstar_detail_query_" + suffix in queries
      && queries["woodstar_detail_query_" + suffix] == work.details[suffix]
    ensures forall item :: item in work.labels ==>
      "woodstar_label_query_" + FormatInt(item.id) in queries
      && queries["woodstar_label_query_" + FormatInt(item.id)] == item.sql
    ensures forall item :: item in work.live ==>
      "woodstar_live_query_" + FormatInt(item.id) in queries
      && queries["woodstar_live_query_" + FormatInt(item.id)] == item.sql
    ensures forall issued :: issued in work.evaluations ==>
      var e := issued.evaluation;
      var suffix := FormatInt(e.policyID) + "_" + e.hash + "_" + FormatInt(e.revision) + "_" + FormatInt(e.sequence);
      "woodstar_policy_query_" + suffix in queries && queries["woodstar_policy_query_" + suffix] == issued.sql
  {
    forall suffix | suffix in work.details
      ensures "woodstar_detail_query_" + suffix in queries
      ensures queries["woodstar_detail_query_" + suffix] == work.details[suffix]
    {
      NamesAreWritten(suffix);
      assert Due(work, DetailEntry(suffix), work.details[suffix]);
    }
    forall item | item in work.labels
      ensures "woodstar_label_query_" + FormatInt(item.id) in queries
      ensures queries["woodstar_label_query_" + FormatInt(item.id)] == item.sql
    {
      NamesAreWritten(FormatInt(item.id));
      assert item == Item(item.id, item.sql) && Due(work, LabelEntry(item.id), item.sql);
    }
    forall item | item in work.live
      ensures "woodstar_live_query_" + FormatInt(item.id) in queries
      ensures queries["woodstar_live_query_" + FormatInt(item.id)] == item.sql
    {
      NamesAreWritten(FormatInt(item.id));
      assert item == Item(item.id, item.sql) && Due(work, LiveEntry(item.id), item.sql);
    }
    forall issued | issued in work.evaluations
      ensures var e := issued.evaluation;
        var suffix := FormatInt(e.policyID) + "_" + e.hash + "_" + FormatInt(e.revision) + "_" + FormatInt(e.sequence);
        "woodstar_policy_query_" + suffix in queries && queries["woodstar_policy_query_" + suffix] == issued.sql
    {
      NamesAreWritten(EvaluationSuffix(issued.evaluation));
      assert issued == Issued(issued.evaluation, issued.sql);
      assert Due(work, PolicyEntry(issued.evaluation), issued.sql);
    }
  }

  ghost predicate Canonical(name: string) {
    match ParseName(name)
    case Some((Label, suffix)) => ParsePositive(suffix).Some? ==> suffix == FormatInt(ParsePositive(suffix).value)
    case _ => true
  }

  lemma LabelResultsHaveNames(isZero: string -> bool, request: Request, names: seq<string>, i: nat)
    returns (name: string)
    requires forall n :: n in names ==> n in request.queries
    requires i < |LabelsFrom(isZero, request, names)|
    ensures name in names && LabelOutcome(isZero, request, name) == Some(LabelsFrom(isZero, request, names)[i])
  {
    var before := names[..|names| - 1];
    if i < |LabelsFrom(isZero, request, before)| {
      name := LabelResultsHaveNames(isZero, request, before, i);
    } else {
      name := names[|names| - 1];
    }
  }

  lemma SameLabelSameName(isZero: string -> bool, request: Request, a: string, b: string)
    requires a in request.queries && b in request.queries && Canonical(a) && Canonical(b)
    requires LabelOutcome(isZero, request, a).Some? && LabelOutcome(isZero, request, b).Some?
    requires LabelOutcome(isZero, request, a).value.labelID == LabelOutcome(isZero, request, b).value.labelID
    ensures a == b
  {
    ParsePrints(a);
    ParsePrints(b);
  }

  /** When an agent answers under the names it was given, no label is reported twice,
      as SetDynamicMemberships demands. */
  lemma {:induction false} EchoedLabelsAreDistinct(isZero: string -> bool, request: Request, names: seq<string>)
    requires forall name :: name in names ==> name in request.queries && Canonical(name)
    requires forall i, j :: 0 <= i < j < |names| ==> names[i] != names[j]
    ensures var labels := LabelsFrom(isZero, request, names);
      forall i, j :: 0 <= i < j < |labels| ==> labels[i].labelID != labels[j].labelID
  {
    if names != [] {
      var before, last := names[..|names| - 1], names[|names| - 1];
      EchoedLabelsAreDistinct(isZero, request, before);
      var labels, outcome := LabelsFrom(isZero, request, before), LabelOutcome(isZero, request, last);
      if outcome.Some? {
        forall i: nat | i < |labels| ensures labels[i].labelID != outcome.value.labelID {
          var name := LabelResultsHaveNames(isZero, request, before, i);
          if labels[i].labelID == outcome.value.labelID {
            SameLabelSameName(isZero, request, name, last);
          }
        }
      }
    }
  }

  /** Every name the server issues is canonical, and so is every name of another kind. */
  lemma IssuedIsCanonical(entry: Entry)
    requires WellFormed(entry)
    ensures Canonical(EntryName(entry))
  {
    NamesRouteBack(entry);
  }
}
