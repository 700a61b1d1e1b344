/** When a host was last heard from: writes are throttled, and what is stored
    still tells the last contact to within half a minute. */
module Heartbeats {
  import opened Basics

  /** Times are PostgreSQL's, in microseconds. */
  const THROTTLE: int := 30_000_000
  const ONLINE_WINDOW: int := 300_000_000

  datatype Source = Orbit | Osquery | Munki | Santa

  datatype Contact = Contact(remoteIP: string, userAgent: string)

  /** remoteIP is the address as PostgreSQL keeps it. */
  datatype Heartbeat = Heartbeat(lastSeen: int, remoteIP: Option<string>, userAgent: string)

  type Rows = map<(Id, Source), Heartbeat>

  datatype Outcome = Done | InvalidInput | UnknownHost

  /** An address is empty or parses, without a zone, to its canonical form. */
  predicate Accepts(parse: string -> Option<string>, ip: string) {
    ip == "" || parse(ip).Some?
  }

  function Address(parse: string -> Option<string>, ip: string): Option<string> {
    if ip == "" then None else parse(ip)
  }

  predicate Refreshes(row: Heartbeat, now: int, ip: Option<string>, userAgent: string) {
    row.lastSeen < now - THROTTLE || row.remoteIP != ip || row.userAgent != userAgent
  }

  class Store {
    var hosts: set<Id>
    var rows: Rows

    /** netip.ParseAddr followed by the inet cast; None is an error or a zone. */
    const parse: string -> Option<string>

    constructor (parse: string -> Option<string>)
      ensures hosts == {} && rows == map[] && this.parse == parse
    {
      hosts, rows, this.parse := {}, map[], parse;
    }

    /** One statement over one snapshot: update the row if it is stale or
        different, insert it if there was none. */
    method Record(now: int, host: Id, source: Source, contact: Contact) returns (r: Outcome)
      modifies `rows
      ensures r == (if host.number == 0 || !Accepts(parse, contact.remoteIP) then InvalidInput
                    else if host !in hosts && (host, source) !in old(rows) then UnknownHost
                    else Done)
      ensures rows == if r == Done then Recorded(old(rows), now, host, source,
                                                 Address(parse, contact.remoteIP), contact.userAgent)
                      else old(rows)
      ensures contact.remoteIP != "" && parse(contact.remoteIP).None? ==> r == InvalidInput
      ensures r == Done ==>
        (host, source) in rows
        && rows[(host, source)].remoteIP == (if contact.remoteIP == "" then None else parse(contact.remoteIP))
        && rows[(host, source)].userAgent == contact.userAgent
        && now - 30_000_000 <= rows[(host, source)].lastSeen
      ensures (r == Done && (host, source) in old(rows) && now - 30_000_000 <= old(rows)[(host, source)].lastSeen
               && old(rows)[(host, source)].userAgent == contact.userAgent
               && old(rows)[(host, source)].remoteIP
                  == (if contact.remoteIP == "" then None else parse(contact.remoteIP)))
              ==> rows == old(rows)
      ensures r == Done && rows != old(rows) ==> rows[(host, source)].lastSeen == now
      ensures forall at :: at != (host, source) ==>
        (at in rows <==> at in old(rows)) && (at in rows ==> rows[at] == old(rows)[at])
    {
      if host.number == 0 {
        return InvalidInput;
      }
      if contact.remoteIP != "" && parse(contact.remoteIP).None? {
        return InvalidInput;
      }
      var key, ip := (host, source), if contact.remoteIP == "" then None else parse(contact.remoteIP);
      var current := key in rows;
      if current && (rows[key].lastSeen < now - THROTTLE
                     || rows[key].remoteIP != ip || rows[key].userAgent != contact.userAgent) {
        rows := rows[key := Heartbeat(now, ip, contact.userAgent)];
      }
      if !current {
        if host !in hosts {
          return UnknownHost;
        }
        rows := rows[key := Heartbeat(now, ip, contact.userAgent)];
      }
      r := Done;
    }
  }

  function Recorded(rows: Rows, now: int, host: Id, source: Source, ip: Option<string>, userAgent: string): Rows {
    var key := (host, source);
    if key in rows && !Refreshes(rows[key], now, ip, userAgent) then rows
    else rows[key := Heartbeat(now, ip, userAgent)]
  }

  // --------------------------------------------------------- against always writing

  datatype Event =
    | Heard(now: int, host: Id, source: Source, ip: Option<string>, userAgent: string)
    | Deleted(now: int, host: Id)

  function WithoutHost(rows: Rows, host: Id): Rows {
    map key | key in rows && key.0 != host :: rows[key]
  }

  /** What the store keeps after some events. */
  function Throttled(events: seq<Event>): Rows {
    if events == [] then map[]
    else
      var rows := Throttled(events[..|events| - 1]);
      match events[|events| - 1]
      case Heard(now, host, source, ip, userAgent) => Recorded(rows, now, host, source, ip, userAgent)
      case Deleted(_, host) => WithoutHost(rows, host)
  }

  /** The last contacts themselves: every one of them written. */
  function Contacts(events: seq<Event>): Rows {
    if events == [] then map[]
    else
      var rows := Contacts(events[..|events| - 1]);
      match events[|events| - 1]
      case Heard(now, host, source, ip, userAgent) => rows[(host, source) := Heartbeat(now, ip, userAgent)]
      case Deleted(_, host) => WithoutHost(rows, host)
  }

  ghost predicate Monotone(events: seq<Event>) {
    forall i, j :: 0 <= i < j < |events| ==> events[i].now <= events[j].now
  }

  /** A stored row stands for a last contact: same address and agent, and a time
      that is not later and at most the throttle earlier. */
  predicate StandsFor(row: Heartbeat, contact: Heartbeat) {
    row.remoteIP == contact.remoteIP && row.userAgent == contact.userAgent
    && row.lastSeen <= contact.lastSeen <= row.lastSeen + THROTTLE
  }

  /** Throttling loses nothing but half a minute: after any run under one monotone
      clock, every last contact is stored up to the throttle, and nothing else is. */
  lemma {:induction false} ThrottlingRefines(events: seq<Event>)
    requires Monotone(events)
    ensures Throttled(events).Keys == Contacts(events).Keys
    ensures forall key :: key in Throttled(events) ==> StandsFor(Throttled(events)[key], Contacts(events)[key])
    ensures forall key :: key in Contacts(events) ==>
      exists i :: 0 <= i < |events| && Contacts(events)[key].lastSeen == events[i].now
  {
    if events != [] {
      var before, last := events[..|events| - 1], events[|events| - 1];
      ThrottlingRefines(before);
      forall key | key in Contacts(events)
        ensures exists i :: 0 <= i < |events| && Contacts(events)[key].lastSeen == events[i].now
      {
        if last.Heard? && key == (last.host, last.source) {
          assert events[|events| - 1].now == last.now;
        } else {
          var i :| 0 <= i < |before| && Contacts(before)[key].lastSeen == before[i].now;
          assert events[i] == before[i];
        }
      }
      forall key | key in Throttled(events)
        ensures key in Contacts(events) && StandsFor(Throttled(events)[key], Contacts(events)[key])
      {
        if last.Heard? && key == (last.host, last.source) && key in Throttled(before) {
          var i :| 0 <= i < |before| && Contacts(before)[key].lastSeen == before[i].now;
          assert events[i].now <= events[|events| - 1].now;
        }
      }
    }
  }

  // ----------------------------------------------------------------------- status

  datatype Status = Online | Offline

  function StatusOf(rows: Rows, host: Id, now: int): Status {
    if (host, Osquery) !in rows || rows[(host, Osquery)].lastSeen < now - ONLINE_WINDOW then Offline else Online
  }

  ghost predicate HeardSince(events: seq<Event>, host: Id, since: int) {
    (host, Osquery) in Contacts(events) && Contacts(events)[(host, Osquery)].lastSeen >= since
  }

  /** A host heard within four and a half minutes is online, and an online host was
      heard within five. */
  lemma StatusTellsContact(events: seq<Event>, host: Id, now: int)
    requires Monotone(events)
    ensures HeardSince(events, host, now - (ONLINE_WINDOW - THROTTLE)) ==>
      StatusOf(Throttled(events), host, now) == Online
    ensures StatusOf(Throttled(events), host, now) == Online ==> HeardSince(events, host, now - ONLINE_WINDOW)
    ensures (host, Osquery) in Contacts(events) && Contacts(events)[(host, Osquery)].lastSeen >= now - 270_000_000 ==>
      StatusOf(Throttled(events), host, now) == Online
    ensures StatusOf(Throttled(events), host, now) == Online ==>
      (host, Osquery) in Contacts(events) && Contacts(events)[(host, Osquery)].lastSeen >= now - 300_000_000
  {
    ThrottlingRefines(events);
    if (host, Osquery) in Throttled(events) {
      assert StandsFor(Throttled(events)[(host, Osquery)], Contacts(events)[(host, Osquery)]);
    }
  }

  /** The half minute between is real: with a last contact of the same age, a host
      that called once is online and one whose last call was throttled is not. */
  lemma BetweenIsUndecided(host: Id, age: int)
    requires ONLINE_WINDOW - THROTTLE < age <= ONLINE_WINDOW
    ensures var once := [Heard(THROTTLE, host, Osquery, None, "")];
      var twice := [Heard(0, host, Osquery, None, ""), Heard(THROTTLE, host, Osquery, None, "")];
      Contacts(once) == Contacts(twice)
      && StatusOf(Throttled(once), host, THROTTLE + age) == Online
      && StatusOf(Throttled(twice), host, THROTTLE + age) == Offline
  {
    var first := [Heard(0, host, Osquery, None, "")];
    var once := [Heard(THROTTLE, host, Osquery, None, "")];
    var twice := first + once;
    assert twice == [Heard(0, host, Osquery, None, ""), Heard(THROTTLE, host, Osquery, None, "")];
    assert once[..0] == [] && first[..0] == [] && twice[..1] == first;
    assert Throttled(once) == map[(host, Osquery) := Heartbeat(THROTTLE, None, "")];
    assert Throttled(first) == map[(host, Osquery) := Heartbeat(0, None, "")];
    assert Throttled(twice) == Throttled(first);
    assert Contacts(once) == map[(host, Osquery) := Heartbeat(THROTTLE, None, "")];
    assert Contacts(first) == map[(host, Osquery) := Heartbeat(0, None, "")];
  }
}
