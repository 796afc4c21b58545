/** The tables of schema/product.sql, one map per table keyed by its primary key. */
module Schema {
  import opened Basics
  import opened Aggregation

  datatype Device = Device(os: string, osVersion: Option<string>, kernelVersion: Option<string>,
                           arch: string, clientVersion: string)

  /** A client report. `reportId` and `hostId` are None when the text is not a UUID. */
  datatype Report = Report(reportId: Option<Uuid>, hostId: Option<Uuid>, schemaVersion: int, collectedAt: Time,
                           device: Device, interval: real, capabilities: seq<int>, system: int)

  /** A report that passed the HTTP checks, with the token it came with and its scalar metrics. */
  datatype ReportWrite = ReportWrite(report: Report, tokenHash: Digest, metrics: Metrics)

  /** monitored_hosts */
  datatype Host = Host(name: string, device: Device, capabilities: seq<int>, registeredAt: Time, lastSeenAt: Time,
                       latestId: Option<Uuid>, latestAt: Option<Time>, latestInterval: Option<real>, active: bool)

  /** client_metric_reports */
  datatype Row = Row(hostId: Uuid, schemaVersion: int, collectedAt: Time, receivedAt: Time, interval: real,
                     payload: Option<Report>, metrics: Metrics, aggregatedAt: Option<Time>)

  /** client_credentials */
  datatype Credential = Credential(hostId: Uuid, tokenHash: Digest, issuedAt: Time,
                                   lastUsedAt: Option<Time>, revokedAt: Option<Time>)

  datatype Status = Pending | Active | Cancelled | Denied

  /** client_instance_invites */
  datatype Invite = Invite(instanceId: Uuid, codeHash: Digest, displayName: string, status: Status,
                           createdAt: Time, activatedAt: Option<Time>, cancelledAt: Option<Time>)

  /** client_pairing_requests */
  datatype Pairing = Pairing(requestedHostId: Uuid, device: Device, tokenHash: Digest, secretHash: Digest,
                             status: Status, inviteId: Option<Uuid>, instanceId: Option<Uuid>,
                             expiresAt: Time, createdAt: Time, activatedAt: Option<Time>)

  datatype BucketKey = BucketKey(hostId: Uuid, start: Time)

  /** A summary whose non-empty metrics carry their three values. */
  type BucketSummary = s: Summary | Mergeable(s)
    witness Summary(0, 0, 0, seq(METRICS, _ => NO_VALUES))

  /** client_metric_hourly_aggregates */
  datatype Bucket = Bucket(summary: BucketSummary, updatedAt: Time)

  datatype Db = Db(hosts: map<Uuid, Host>, reports: map<Uuid, Row>, credentials: map<Uuid, Credential>,
                   invites: map<Uuid, Invite>, pairings: map<Uuid, Pairing>, buckets: map<BucketKey, Bucket>)

  const EMPTY_DB := Db(map[], map[], map[], map[], map[], map[])

  function SampleOf(id: Uuid, row: Row): Sample {
    Sample(id, row.hostId, row.collectedAt, row.metrics)
  }

  function BucketOf(s: Sample): BucketKey {
    BucketKey(s.hostId, HourOf(s.collectedAt))
  }

  /** `NOT EXISTS (SELECT 1 FROM monitored_hosts h WHERE h.latest_report_id = id)`, negated. */
  predicate IsLatest(hosts: map<Uuid, Host>, id: Uuid) {
    exists h <- hosts :: hosts[h].latestId == Some(id)
  }

  predicate IsSpace(c: char) {
    c == ' ' || '\t' <= c <= '\r'
  }

  /** `str::trim`. */
  function Trim(s: string): (t: string)
    ensures |t| <= |s|
    ensures t == [] || (!IsSpace(t[0]) && !IsSpace(t[|t| - 1]))
  {
    if s == [] then []
    else if IsSpace(s[0]) then Trim(s[1..])
    else if IsSpace(s[|s| - 1]) then Trim(s[..|s| - 1])
    else s
  }

  predicate AllSpace(s: string) {
    forall i :: 0 <= i < |s| ==> IsSpace(s[i])
  }

  /** Spaces, the text, spaces; the text itself has none at either end. */
  predicate TrimsTo(s: string, before: string, t: string, after: string) {
    s == before + t + after && AllSpace(before) && AllSpace(after) && (t == [] || (!IsSpace(t[0]) && !IsSpace(t[|t| - 1])))
  }

  lemma SpaceBefore(s: string, before: string, t: string, after: string)
    requires s != [] && IsSpace(s[0]) && TrimsTo(s[1..], before, t, after)
    ensures TrimsTo(s, [s[0]] + before, t, after)
  {
    assert s == [s[0]] + s[1..];
  }

  lemma SpaceAfter(s: string, before: string, t: string, after: string)
    requires s != [] && IsSpace(s[|s| - 1]) && TrimsTo(s[..|s| - 1], before, t, after)
    ensures TrimsTo(s, before, t, after + [s[|s| - 1]])
  {
    assert s == s[..|s| - 1] + [s[|s| - 1]];
  }

  lemma {:induction false} TrimSplits(s: string) returns (before: string, after: string)
    ensures TrimsTo(s, before, Trim(s), after)
  {
    before, after := [], [];
    if s != [] && IsSpace(s[0]) {
      before, after := TrimSplits(s[1..]);
      SpaceBefore(s, before, Trim(s), after);
      before := [s[0]] + before;
    } else if s != [] && IsSpace(s[|s| - 1]) {
      before, after := TrimSplits(s[..|s| - 1]);
      SpaceAfter(s, before, Trim(s), after);
      after := after + [s[|s| - 1]];
    }
  }

  /** Whatever text is left between spaces and has none at its ends is the trimmed text. */
  lemma {:induction false} TrimUnique(s: string, before: string, t: string, after: string)
    requires TrimsTo(s, before, t, after)
    ensures Trim(s) == t
    decreases |s|
  {
    if before != [] {
      assert s[1..] == before[1..] + t + after;
      TrimUnique(s[1..], before[1..], t, after);
    } else if t == [] && after != [] {
      assert s[1..] == [] + t + after[1..];
      TrimUnique(s[1..], [], t, after[1..]);
    } else if after != [] {
      assert s[..|s| - 1] == [] + t + after[..|after| - 1];
      TrimUnique(s[..|s| - 1], [], t, after[..|after| - 1]);
    } else {
      assert s == t;
    }
  }

  lemma TrimExactly(s: string, t: string)
    ensures t == Trim(s) <==> exists before: string, after: string :: TrimsTo(s, before, t, after)
  {
    var before, after := TrimSplits(s);
    if b: string, a: string :| TrimsTo(s, b, t, a) {
      TrimUnique(s, b, t, a);
    }
  }

  /** Operating system, architecture and client version are stored trimmed; the two versions are not. */
  function Stored(d: Device): Device {
    d.(os := Trim(d.os), arch := Trim(d.arch), clientVersion := Trim(d.clientVersion))
  }

  // ---- What the administrator reads (store.rs, HOST_SELECT) ----

  datatype HostSummary = HostSummary(id: Uuid, name: string, device: Device, registeredAt: Time, lastSeenAt: Time,
                                     latestAt: Option<Time>, latestInterval: Option<real>,
                                     capabilities: seq<int>, metrics: Metrics)

  const NO_METRICS: Metrics := [None, None, None, None, None, None, None, None, None]

  function Summarize(db: Db, h: Uuid): HostSummary
    requires h in db.hosts
  {
    var host := db.hosts[h];
    HostSummary(h, host.name, host.device, host.registeredAt, host.lastSeenAt, host.latestAt, host.latestInterval,
                host.capabilities,
                if host.latestId.Some? && host.latestId.value in db.reports
                then db.reports[host.latestId.value].metrics else NO_METRICS)
  }

  /** `get_host`: the summary and the stored payload of the latest report. */
  function GetHost(db: Db, h: Uuid): Option<(HostSummary, Option<Report>)> {
    if h in db.hosts && db.hosts[h].active then
      var latest := db.hosts[h].latestId;
      Some((Summarize(db, h),
            if latest.Some? && latest.value in db.reports then db.reports[latest.value].payload else None))
    else None
  }

  datatype HostPage = Absent | Vanished | Detail(summary: HostSummary, payload: Option<Report>)

  /**
   `get_host` as it is: the summary and the payload are two statements, and other transactions may commit between
   them. A host deleted in between is an error of the second statement.
   */
  function ReadHost(first: Db, second: Db, h: Uuid): HostPage {
    if GetHost(first, h).None? then Absent
    else if h !in second.hosts then Vanished
    else
      var latest := second.hosts[h].latestId;
      Detail(Summarize(first, h), if latest.Some? && latest.value in second.reports then second.reports[latest.value].payload else None)
  }

  function ActiveKeys(hosts: map<Uuid, Host>): set<OrderKey> {
    set h | h in hosts && hosts[h].active :: OrderKey(hosts[h].registeredAt, h, 0)
  }

  function ListKeys(hosts: map<Uuid, Host>, limit: nat, offset: nat): (q: seq<OrderKey>)
    ensures forall k :: k in q ==> k in ActiveKeys(hosts) && k.middle in hosts
  {
    var page := Page(ActiveKeys(hosts), limit + offset);
    if offset <= |page| then
      assert page == page[..offset] + page[offset..];
      page[offset..]
    else []
  }

  /** `list_hosts`: one page in registration order, and the number of active hosts. */
  function ListHosts(db: Db, limit: nat, offset: nat): (seq<HostSummary>, nat) {
    (SummarizeAll(db, ListKeys(db.hosts, limit, offset)), |ActiveKeys(db.hosts)|)
  }

  function SummarizeAll(db: Db, keys: seq<OrderKey>): (r: seq<HostSummary>)
    requires forall k :: k in keys ==> k.middle in db.hosts
  {
    seq(|keys|, i requires 0 <= i < |keys| => assert keys[i] in keys; Summarize(db, keys[i].middle))
  }

  /** Both views depend only on the host table and on the rows the latest pointers name. */
  lemma ViewDependsOnLatest(a: Db, b: Db, h: Uuid, limit: nat, offset: nat)
    requires a.hosts == b.hosts
    requires forall g <- a.hosts :: a.hosts[g].latestId.Some? ==>
               var i := a.hosts[g].latestId.value;
               i in a.reports && i in b.reports && a.reports[i] == b.reports[i]
    ensures GetHost(a, h) == GetHost(b, h)
    ensures ListHosts(a, limit, offset) == ListHosts(b, limit, offset)
  {
    var keys := ListKeys(a.hosts, limit, offset);
    forall i | 0 <= i < |keys|
      ensures SummarizeAll(a, keys)[i] == SummarizeAll(b, keys)[i]
    {
      assert keys[i] in keys;
    }
    assert SummarizeAll(a, keys) == SummarizeAll(b, keys);
  }
}
