/** What the administrator's pages hold, host by host (store.rs, `list_hosts`). */
module Listing {
  import opened Basics
  import opened Schema

  /** The hosts that are listed. */
  function Listed(hosts: map<Uuid, Host>): set<Uuid> {
    set h | h in hosts && hosts[h].active
  }

  /** Registered earlier, or at the same time with the smaller id. */
  predicate Earlier(hosts: map<Uuid, Host>, g: Uuid, h: Uuid)
    requires g in hosts && h in hosts
  {
    hosts[g].registeredAt < hosts[h].registeredAt || (hosts[g].registeredAt == hosts[h].registeredAt && g < h)
  }

  function ListedBefore(hosts: map<Uuid, Host>, h: Uuid): set<Uuid>
    requires h in hosts
  {
    set g | g in Listed(hosts) && Earlier(hosts, g, h)
  }

  lemma ActiveCount(hosts: map<Uuid, Host>)
    ensures |ActiveKeys(hosts)| == |Listed(hosts)|
  {
    var key := (h: Uuid) => OrderKey(if h in hosts then hosts[h].registeredAt else 0, h, 0);
    KeysCount(Listed(hosts), ActiveKeys(hosts), key, (k: OrderKey) => k.middle);
  }

  lemma BeforeCount(hosts: map<Uuid, Host>, h: Uuid)
    requires h in hosts
    ensures |Preceding(ActiveKeys(hosts), OrderKey(hosts[h].registeredAt, h, 0))| == |ListedBefore(hosts, h)|
  {
    var key := (g: Uuid) => OrderKey(if g in hosts then hosts[g].registeredAt else 0, g, 0);
    var keys := Preceding(ActiveKeys(hosts), OrderKey(hosts[h].registeredAt, h, 0));
    KeysCount(ListedBefore(hosts, h), keys, key, (k: OrderKey) => k.middle);
  }

  /** The entry shows a listed host that has this many listed hosts before it, as its own page does. */
  predicate ShowsHostAt(db: Db, entry: HostSummary, place: nat) {
    && entry.id in db.hosts && db.hosts[entry.id].active && |ListedBefore(db.hosts, entry.id)| == place
    && GetHost(db, entry.id).Some? && GetHost(db, entry.id).value.0 == entry
  }

  /** A page has as many entries as fit; the i-th shows the host at place `offset + i`; the total counts the listed hosts. */
  lemma ListHostsExact(db: Db, limit: nat, offset: nat)
    ensures var (entries, total) := ListHosts(db, limit, offset);
            && total == |Listed(db.hosts)|
            && |entries| == MinInt(limit, MaxInt(0, total - offset))
            && forall i :: 0 <= i < |entries| ==> ShowsHostAt(db, entries[i], offset + i)
  {
    ActiveCount(db.hosts);
    var entries := ListHosts(db, limit, offset).0;
    forall i | 0 <= i < |entries|
      ensures ShowsHostAt(db, entries[i], offset + i)
    {
      EntryAt(db, limit, offset, i);
    }
  }

  lemma EntryAt(db: Db, limit: nat, offset: nat, i: nat)
    requires i < |ListHosts(db, limit, offset).0|
    ensures ShowsHostAt(db, ListHosts(db, limit, offset).0[i], offset + i)
  {
    var keys := ActiveKeys(db.hosts);
    var page := Page(keys, limit + offset);
    assert ListKeys(db.hosts, limit, offset)[i] == page[offset + i];
    PageAt(keys, limit + offset, offset + i);
    BeforeCount(db.hosts, page[offset + i].middle);
  }

  /** No two listed hosts are at one place. */
  lemma PlacesDiffer(hosts: map<Uuid, Host>, g: Uuid, h: Uuid)
    requires g in Listed(hosts) && h in Listed(hosts) && |ListedBefore(hosts, g)| == |ListedBefore(hosts, h)|
    ensures g == h
  {
    if g != h {
      var a, b := if Earlier(hosts, g, h) then g else h, if Earlier(hosts, g, h) then h else g;
      assert ListedBefore(hosts, a) + {a} <= ListedBefore(hosts, b);
      SubsetCardinality(ListedBefore(hosts, a) + {a}, ListedBefore(hosts, b));
    }
  }

  lemma PlaceExists(hosts: map<Uuid, Host>, h: Uuid)
    requires h in Listed(hosts)
    ensures |ListedBefore(hosts, h)| < |Listed(hosts)|
  {
    assert ListedBefore(hosts, h) + {h} <= Listed(hosts);
    SubsetCardinality(ListedBefore(hosts, h) + {h}, Listed(hosts));
  }

  /** Read page after page, every listed host is shown exactly once: at its own place and at no other. */
  lemma EveryHostListedOnce(db: Db, limit: nat, h: Uuid)
    requires limit > 0 && h in Listed(db.hosts)
    ensures var place := |ListedBefore(db.hosts, h)|;
            && place % limit < |ListHosts(db, limit, place / limit * limit).0|
            && ListHosts(db, limit, place / limit * limit).0[place % limit].id == h
    ensures forall offset: nat, i: nat :: i < |ListHosts(db, limit, offset).0| && ListHosts(db, limit, offset).0[i].id == h ==>
              offset + i == |ListedBefore(db.hosts, h)|
  {
    var place := |ListedBefore(db.hosts, h)|;
    var offset := place / limit * limit;
    PlaceExists(db.hosts, h);
    ListHostsExact(db, limit, offset);
    assert offset + place % limit == place;
    PlacesDiffer(db.hosts, h, ListHosts(db, limit, offset).0[place % limit].id);
    forall o: nat, i: nat | i < |ListHosts(db, limit, o).0| && ListHosts(db, limit, o).0[i].id == h
      ensures o + i == place
    {
      EntryAt(db, limit, o, i);
    }
  }
}
