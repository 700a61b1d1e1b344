/** The distribution-point tables and what each transaction does to them. Times
    are PostgreSQL's, in microseconds. */
module DistributionPoints {
  import opened Basics

  const SESSION_TTL: int := 15_000_000
  const REJECTION_TTL: int := 300_000_000

  datatype Point = Point(
    name: string,
    enabled: bool,
    position: int,
    cidrs: seq<string>,
    baseURL: string,
    key: string)

  datatype Session = Session(connection: string, protocol: int, build: string, expires: int)

  datatype Rejection = Rejection(protocol: Option<int>, build: string, expires: int)

  datatype Status = Pending | Syncing | Current | Error

  datatype Mirror = Mirror(status: Status, sha256: Option<string>, error: string)

  datatype Worker = Worker(compatible: bool, protocol: Option<int>, build: string)

  datatype Mutation = Mutation(name: string, enabled: bool, cidrs: seq<string>, baseURL: string)

  /** installers holds, for every package, the hash of its installer object if it
      has one. nextID is the id sequence, which never goes back. */
  datatype Tables = Tables(
    points: map<Id, Point>,
    sessions: map<Id, Session>,
    rejections: map<Id, Rejection>,
    mirrors: map<(Id, Id), Mirror>,
    installers: map<Id, Option<string>>,
    nextID: nat)

  const EMPTY := Tables(map[], map[], map[], map[], map[], 1)

  datatype Fault = InvalidInput | SessionInvalid | NotFound | Conflict | MissingPackage

  datatype Outcome = Done | Failed(fault: Fault)

  datatype Operation =
    | Create(mutation: Mutation, key: string)
    | Update(point: Id, mutation: Mutation)
    | Delete(point: Id)
    | RotateKey(point: Id, key: string)
    | Reorder(ids: seq<Id>)
    | Claim(point: Id, key: string, connection: string, worker: Worker)
    | Observe(point: Id, key: string, worker: Worker)
    | Renew(point: Id, connection: string)
    | Release(point: Id, connection: string)
    | Record(point: Id, connection: string, package: Id, mirror: Mirror)
    | SetInstaller(package: Id, sha256: Option<string>)
    | RemovePackage(package: Id)

  // ------------------------------------------------------------ what a step does

  /** Every point at the place the list gives it. */
  ghost function Placed(points: map<Id, Point>, ids: seq<Id>): map<Id, Point> {
    map id | id in points :: points[id].(position := IndexOf(ids, id))
  }

  /** The credential check that claim and rejection share. */
  predicate Authenticates(s: Tables, id: Id, key: string) {
    id in s.points && s.points[id].enabled && s.points[id].key == key
  }

  /** The session a renew or a report needs: this connection's, and not expired. */
  predicate Owns(s: Tables, now: int, id: Id, connection: string) {
    id in s.points && s.points[id].enabled
    && id in s.sessions && s.sessions[id].connection == connection && s.sessions[id].expires > now
  }

  predicate NameTaken(s: Tables, name: string, but: Id) {
    exists id :: id in s.points && id != but && s.points[id].name == name
  }

  predicate KeyTaken(s: Tables, key: string, but: Id) {
    exists id :: id in s.points && id != but && s.points[id].key == key
  }

  function WithoutWorkers(s: Tables, id: Id): Tables {
    s.(sessions := s.sessions - {id}, rejections := s.rejections - {id})
  }

  ghost function MaxOver(points: map<Id, Point>, ids: set<Id>): (m: int)
    requires ids != {} && ids <= points.Keys
    ensures forall id :: id in ids ==> points[id].position <= m
    ensures exists id :: id in ids && points[id].position == m
  {
    var id :| id in ids;
    if ids == {id} then points[id].position
    else
      var rest := MaxOver(points, ids - {id});
      if points[id].position > rest then points[id].position else rest
  }

  /** COALESCE(MAX(position) + 1, 0). */
  ghost function NextPosition(points: map<Id, Point>): int {
    if points == map[] then 0 else MaxOver(points, points.Keys) + 1
  }

  ghost predicate IsPermutation(ids: seq<Id>, points: map<Id, Point>) {
    |ids| == |points.Keys|
    && (forall i, j :: 0 <= i < j < |ids| ==> ids[i] != ids[j])
    && (forall id :: id in ids ==> id in points)
  }

  ghost function Created(s: Tables, mutation: Mutation, key: string): (Tables, Outcome) {
    var id := Id(s.nextID);
    var next := s.(nextID := s.nextID + 1);
    if NameTaken(s, mutation.name, id) || KeyTaken(s, key, id) then (next, Failed(Conflict))
    else
      var point := Point(mutation.name, mutation.enabled, NextPosition(s.points),
                         mutation.cidrs, mutation.baseURL, key);
      (next.(points := s.points[id := point]), Done)
  }

  ghost function Updated(s: Tables, id: Id, mutation: Mutation): (Tables, Outcome) {
    if id !in s.points then (s, Failed(NotFound))
    else if NameTaken(s, mutation.name, id) then (s, Failed(Conflict))
    else
      var point := s.points[id].(name := mutation.name, enabled := mutation.enabled,
                                 cidrs := mutation.cidrs, baseURL := mutation.baseURL);
      var updated := s.(points := s.points[id := point]);
      (if mutation.enabled then updated else WithoutWorkers(updated, id), Done)
  }

  /** The rows that refer to a point go with it. */
  ghost function Deleted(s: Tables, id: Id): (Tables, Outcome) {
    if id !in s.points then (s, Failed(NotFound))
    else
      (WithoutWorkers(s, id).(
         points := s.points - {id},
         mirrors := map at | at in s.mirrors && at.0 != id :: s.mirrors[at]), Done)
  }

  ghost function KeyRotated(s: Tables, id: Id, key: string): (Tables, Outcome) {
    if id !in s.points then (s, Failed(NotFound))
    else if KeyTaken(s, key, id) then (s, Failed(Conflict))
    else (WithoutWorkers(s.(points := s.points[id := s.points[id].(key := key)]), id), Done)
  }

  /** Only an exact permutation of the rows is accepted; an empty table accepts
      any list. */
  ghost function Reordered(s: Tables, ids: seq<Id>): (Tables, Outcome) {
    if s.points == map[] then (s, Done)
    else if !IsPermutation(ids, s.points) then (s, Failed(InvalidInput))
    else (s.(points := Placed(s.points, ids)), Done)
  }

  ghost function Claimed(s: Tables, now: int, id: Id, key: string, connection: string, worker: Worker)
    : (Tables, Outcome)
  {
    if connection == "" || !worker.compatible || worker.protocol.None? then (s, Failed(InvalidInput))
    else if !Authenticates(s, id, key) then (s, Failed(SessionInvalid))
    else
      var session := Session(connection, worker.protocol.value, worker.build, now + SESSION_TTL);
      (s.(sessions := s.sessions[id := session], rejections := s.rejections - {id}), Done)
  }

  ghost function Observed(s: Tables, now: int, id: Id, key: string, worker: Worker): (Tables, Outcome) {
    if worker.compatible then (s, Failed(InvalidInput))
    else if !Authenticates(s, id, key) then (s, Failed(SessionInvalid))
    else
      var rejection := Rejection(worker.protocol, worker.build, now + REJECTION_TTL);
      (s.(rejections := s.rejections[id := rejection]), Done)
  }

  ghost function Renewed(s: Tables, now: int, id: Id, connection: string): (Tables, Outcome) {
    if !Owns(s, now, id, connection) then (s, Failed(SessionInvalid))
    else (s.(sessions := s.sessions[id := s.sessions[id].(expires := now + SESSION_TTL)]), Done)
  }

  ghost function Released(s: Tables, id: Id, connection: string): (Tables, Outcome) {
    if id in s.sessions && s.sessions[id].connection == connection
    then (s.(sessions := s.sessions - {id}), Done)
    else (s, Done)
  }

  ghost function Recorded(s: Tables, now: int, id: Id, connection: string, package: Id, mirror: Mirror)
    : (Tables, Outcome)
  {
    if !Owns(s, now, id, connection) then (s, Failed(SessionInvalid))
    else if package !in s.installers then (s, Failed(MissingPackage))
    else (s.(mirrors := s.mirrors[(id, package) := mirror]), Done)
  }

  /** One transaction of the store, or a change to the packages it mirrors. */
  ghost function Apply(s: Tables, now: int, op: Operation): (Tables, Outcome) {
    match op
    case Create(mutation, key) => Created(s, mutation, key)
    case Update(id, mutation) => Updated(s, id, mutation)
    case Delete(id) => Deleted(s, id)
    case RotateKey(id, key) => KeyRotated(s, id, key)
    case Reorder(ids) => Reordered(s, ids)
    case Claim(id, key, connection, worker) => Claimed(s, now, id, key, connection, worker)
    case Observe(id, key, worker) => Observed(s, now, id, key, worker)
    case Renew(id, connection) => Renewed(s, now, id, connection)
    case Release(id, connection) => Released(s, id, connection)
    case Record(id, connection, package, mirror) => Recorded(s, now, id, connection, package, mirror)
    case SetInstaller(package, sha256) =>
      (s.(installers := s.installers[package := sha256]), Done)
    case RemovePackage(package) =>
      (s.(installers := s.installers - {package},
          mirrors := map at | at in s.mirrors && at.1 != package :: s.mirrors[at]), Done)
  }

  function IndexOf(ids: seq<Id>, id: Id): (i: nat)
    ensures id in ids ==> 0 <= i < |ids| && ids[i] == id
  {
    if ids == [] then 0 else if ids[0] == id then 0 else 1 + IndexOf(ids[1..], id)
  }

  ghost predicate PositionsDistinct(points: map<Id, Point>) {
    forall a, b :: a in points && b in points && a != b ==> points[a].position != points[b].position
  }

  ghost predicate PositionsNonNegative(points: map<Id, Point>) {
    forall id :: id in points ==> points[id].position >= 0
  }

  /** Duplicate-free ids of the right number that all exist name every row. */
  lemma PermutationCovers(ids: seq<Id>, points: map<Id, Point>)
    requires IsPermutation(ids, points)
    ensures forall id :: id in points ==> id in ids
  {
    var named := set id | id in ids;
    DistinctCount(ids);
    assert named <= points.Keys;
    SameSize(named, points.Keys);
  }

  lemma {:induction false} DistinctCount(ids: seq<Id>)
    requires forall i, j :: 0 <= i < j < |ids| ==> ids[i] != ids[j]
    ensures |set id | id in ids| == |ids|
  {
    if ids != [] {
      var rest := ids[..|ids| - 1];
      DistinctCount(rest);
      assert (set id | id in ids) == (set id | id in rest) + {ids[|ids| - 1]};
    }
  }

  lemma {:induction false} SameSize(a: set<Id>, b: set<Id>)
    requires a <= b && |a| == |b|
    ensures a == b
  {
    if a != {} {
      var x :| x in a;
      SameSize(a - {x}, b - {x});
    }
  }

  // ------------------------------------------------------------ what clients see

  /** A client address as netip gives it; an IPv4 address may come mapped. */
  datatype Address = Invalid | V4(bits: nat) | V6(bits: nat) | V4In6(bits: nat) {
    function Unmap(): Address {
      if V4In6? then V4(bits) else this
    }
  }

  predicate CoveredBy(covers: (string, Address) -> bool, cidrs: seq<string>, address: Address) {
    exists cidr :: cidr in cidrs && covers(cidr, address)
  }

  ghost predicate Candidate(s: Tables, covers: (string, Address) -> bool, address: Address, id: Id) {
    id in s.points && s.points[id].enabled && CoveredBy(covers, s.points[id].cidrs, address)
  }

  /** ORDER BY position, id. */
  predicate Precedes(points: map<Id, Point>, a: Id, b: Id)
    requires a in points && b in points
  {
    points[a].position < points[b].position
    || (points[a].position == points[b].position && a.number < b.number)
  }

  ghost predicate InAdminOrder(points: map<Id, Point>, ids: seq<Id>) {
    (forall id :: id in ids ==> id in points)
    && forall i, j :: 0 <= i < j < |ids| ==> Precedes(points, ids[i], ids[j])
  }

  ghost predicate Live(s: Tables, now: int, id: Id) {
    id in s.sessions && s.sessions[id].expires > now
  }

  /** The last report for the package was 'current' with this hash. */
  ghost predicate Reported(s: Tables, id: Id, package: Id, sha256: string) {
    (id, package) in s.mirrors
    && s.mirrors[(id, package)].status == Current
    && s.mirrors[(id, package)].sha256 == Some(sha256)
  }

  /** A point may serve a package to a client: enabled, covering the address,
      reachable at a URL, with a live worker, and known to hold exactly the bytes
      of the package's present installer. */
  ghost predicate Eligible(
    s: Tables, now: int, covers: (string, Address) -> bool, clientIP: Address, package: Id, id: Id)
  {
    clientIP.Unmap() != Invalid
    && Candidate(s, covers, clientIP.Unmap(), id)
    && s.points[id].baseURL != ""
    && Live(s, now, id)
    && package in s.installers && s.installers[package].Some?
    && Reported(s, id, package, s.installers[package].value)
  }

  /** A point is eligible exactly when it is enabled, covers the address (that of an IPv4
      client, mapped or not), has a URL and an unexpired session, and its last report for
      the package is of the present installer's hash. */
  lemma EligibleMeans(
    s: Tables, now: int, covers: (string, Address) -> bool, clientIP: Address, address: Address, package: Id, id: Id)
    requires address == if clientIP.V4In6? then V4(clientIP.bits) else clientIP
    ensures Eligible(s, now, covers, clientIP, package, id) <==>
      !clientIP.Invalid?
      && id in s.points && s.points[id].enabled && s.points[id].baseURL != ""
      && (exists cidr :: cidr in s.points[id].cidrs && covers(cidr, address))
      && id in s.sessions && now < s.sessions[id].expires
      && package in s.installers && s.installers[package].Some?
      && (id, package) in s.mirrors && s.mirrors[(id, package)].status == Current
      && s.mirrors[(id, package)].sha256 == s.installers[package]
  {}
}
