/**
 The desired-state cache: at most one state per host, valid for one version of
 the tenant's configuration, with a generation per host and an epoch for the whole table, by
 which a result computed across an invalidation is turned away.

 `Table` is the cache's contents as a value; the class is proved against it, and what the
 tickets guarantee is proved about `Table` over every sequence of operations.
 */
module DesiredStateCaches {
  import opened JsonModel

  const MAX_ENTRIES := 100_000
  const IDLE_TTL_SECS := 3600

  datatype HostKey = HostKey(tenant: int, host: string)

  /** `state` is `None` in a tombstone, kept only to carry the generation. */
  datatype Entry<+S> = Entry(configVersion: int, state: Option<S>, generation: nat, lastUsed: int)

  datatype Ticket = Ticket(epoch: nat, generation: nat)

  datatype Table<+S> = Table(entries: map<HostKey, Entry<S>>, epoch: nat)

  // ---- What each operation does to the table ----

  function GenerationOf<S>(t: Table<S>, key: HostKey): nat {
    if key in t.entries then t.entries[key].generation else 0
  }

  function TicketFor<S>(t: Table<S>, key: HostKey): Ticket {
    Ticket(t.epoch, GenerationOf(t, key))
  }

  /** What a lookup answers. */
  function Served<S>(t: Table<S>, key: HostKey, version: int): Option<S> {
    if key in t.entries && t.entries[key].configVersion == version then t.entries[key].state else None
  }

  function Touched<S>(t: Table<S>, key: HostKey, version: int, now: int): Table<S> {
    if Served(t, key, version).Some? then t.(entries := t.entries[key := t.entries[key].(lastUsed := now)]) else t
  }

  predicate Idle<S>(e: Entry<S>, now: int) {
    e.lastUsed < now - IDLE_TTL_SECS
  }

  function Live<S>(entries: map<HostKey, Entry<S>>, now: int): map<HostKey, Entry<S>> {
    map k | k in entries && !Idle(entries[k], now) :: entries[k]
  }

  /** A full table is swept before a store: idle entries go, or everything when nothing
      was idle. */
  function Swept<S>(t: Table<S>, now: int): Table<S> {
    if |t.entries| < MAX_ENTRIES then t
    else
      var live := Live(t.entries, now);
      var kept := if |live| < MAX_ENTRIES then live else map[];
      Table(kept, if |kept| < |t.entries| then t.epoch + 1 else t.epoch)
  }

  function Stored<S>(t: Table<S>, key: HostKey, ticket: Ticket, version: int, state: S, now: int): Table<S> {
    if ticket != TicketFor(t, key) then t
    else
      var swept := Swept(t, now);
      swept.(entries := swept.entries[key := Entry(version, Some(state), GenerationOf(t, key), now)])
  }

  function Invalidated<S>(t: Table<S>, key: HostKey, now: int): Table<S> {
    var e := if key in t.entries then t.entries[key] else Entry(0, None, 0, now);
    t.(entries := t.entries[key := e.(state := None, generation := e.generation + 1)])
  }

  function Forgotten<S>(t: Table<S>, key: HostKey): Table<S> {
    if key in t.entries then Table(t.entries - {key}, t.epoch + 1) else t
  }

  // ---- The class ----

  class DesiredStateCache<S> {
    var entries: map<HostKey, Entry<S>>
    var epoch: nat
    var hits: nat
    var misses: nat

    ghost function View(): Table<S>
      reads this
    {
      Table(entries, epoch)
    }

    constructor ()
      ensures View() == Table(map[], 0) && hits == 0 && misses == 0
    {
      entries, epoch, hits, misses := map[], 0, 0, 0;
    }

    method Get(tenant: int, host: string, version: int, now: int) returns (r: Option<S>)
      modifies this
      ensures r == Served(old(View()), HostKey(tenant, host), version)
      ensures View() == Touched(old(View()), HostKey(tenant, host), version, now)
      ensures hits == old(hits) + (if r.Some? then 1 else 0)
      ensures misses == old(misses) + (if r.None? then 1 else 0)
    {
      var key := HostKey(tenant, host);
      r := None;
      if key in entries {
        var e := entries[key];
        if e.state.Some? && e.configVersion == version {
          entries := entries[key := e.(lastUsed := now)];
          r := e.state;
        }
      }
      if r.Some? {
        hits := hits + 1;
      } else {
        misses := misses + 1;
      }
    }

    method TakeTicket(tenant: int, host: string) returns (ticket: Ticket)
      ensures ticket == TicketFor(View(), HostKey(tenant, host))
    {
      var key := HostKey(tenant, host);
      ticket := Ticket(epoch, if key in entries then entries[key].generation else 0);
    }

    method PutIfCurrent(tenant: int, host: string, ticket: Ticket, version: int, state: S, now: int)
      returns (stored: bool)
      modifies `entries, `epoch
      ensures stored <==> ticket == old(TicketFor(View(), HostKey(tenant, host)))
      ensures View() == Stored(old(View()), HostKey(tenant, host), ticket, version, state, now)
      ensures stored ==> |entries| <= MAX_ENTRIES && Served(View(), HostKey(tenant, host), version) == Some(state)
    {
      StoreBounds(View(), HostKey(tenant, host), ticket, version, state, now);
      var key := HostKey(tenant, host);
      var generation := if key in entries then entries[key].generation else 0;
      if ticket.epoch != epoch || ticket.generation != generation {
        return false;
      }
      if |entries| >= MAX_ENTRIES {
        var before := |entries|;
        entries := Live(entries, now);
        if |entries| >= MAX_ENTRIES {
          entries := map[];
        }
        if |entries| < before {
          epoch := epoch + 1;
        }
      }
      entries := entries[key := Entry(version, Some(state), generation, now)];
      stored := true;
    }

    method ForgetHost(tenant: int, host: string)
      modifies `entries, `epoch
      ensures View() == Forgotten(old(View()), HostKey(tenant, host))
    {
      var key := HostKey(tenant, host);
      if key in entries {
        entries := entries - {key};
        epoch := epoch + 1;
      }
    }

    method InvalidateHost(tenant: int, host: string, now: int)
      modifies `entries
      ensures View() == Invalidated(old(View()), HostKey(tenant, host), now)
    {
      var key := HostKey(tenant, host);
      if key !in entries {
        entries := entries[key := Entry(0, None, 0, now)];
      }
      var e := entries[key];
      entries := entries[key := e.(state := None, generation := e.generation + 1)];
    }

    method Stats() returns (h: nat, m: nat)
      ensures h == hits && m == misses
    {
      h, m := hits, misses;
    }
  }

  // ---- The bound ----

  lemma InsertGrowsByOne<K, V>(m: map<K, V>, k: K, v: V)
    ensures |m[k := v]| == if k in m then |m| else |m| + 1
  {
    assert m[k := v].Keys == m.Keys + {k};
    assert |m[k := v]| == |m[k := v].Keys| && |m| == |m.Keys|;
  }

  /** However many tombstones invalidations have left, an accepted store leaves at most
      `MAX_ENTRIES` entries behind it. */
  lemma StoreBounds<S>(t: Table<S>, key: HostKey, ticket: Ticket, version: int, state: S, now: int)
    ensures ticket == TicketFor(t, key) ==> |Stored(t, key, ticket, version, state, now).entries| <= MAX_ENTRIES
  {
    var swept := Swept(t, now);
    assert |swept.entries| < MAX_ENTRIES;
    InsertGrowsByOne(swept.entries, key, Entry(version, Some(state), GenerationOf(t, key), now));
  }

  /** The hosts whose entries were used at `from` or later. */
  function UsedSince<S>(t: Table<S>, from: int): set<HostKey> {
    set k | k in t.entries && t.entries[k].lastUsed >= from
  }

  /** A table that is not full is left alone. Of a full one, the entries used within the hour
      stay as they are, and no others; if that would not make room, none does. */
  lemma SweepKeepsLiveEntries<S>(t: Table<S>, now: int)
    ensures var recent := UsedSince(t, now - 3600);
      var swept := Swept(t, now);
      && swept.entries.Keys ==
         (if |t.entries| < 100_000 then t.entries.Keys else if |recent| < 100_000 then recent else {})
      && forall k :: k in swept.entries ==> swept.entries[k] == t.entries[k]
  {
    var live := Live(t.entries, now);
    assert live.Keys == UsedSince(t, now - 3600);
    assert |live| == |live.Keys|;
  }

  lemma SmallerMeansDropped<K, V>(m: map<K, V>, n: map<K, V>)
    requires n.Keys <= m.Keys
    ensures |n| < |m| <==> n.Keys != m.Keys
  {
    assert |n| == |n.Keys| && |m| == |m.Keys|;
    if n.Keys != m.Keys {
      assert |m.Keys - n.Keys| == |m.Keys| - |n.Keys|;
      var k :| k in m.Keys - n.Keys;
      assert |m.Keys - n.Keys| > 0;
    }
  }

  /** The epoch moves exactly when the sweep dropped something. */
  lemma SweepMovesTheEpoch<S>(t: Table<S>, now: int)
    ensures Swept(t, now).entries.Keys <= t.entries.Keys
    ensures Swept(t, now).epoch == if Swept(t, now).entries.Keys == t.entries.Keys then t.epoch else t.epoch + 1
    ensures forall k :: k in Swept(t, now).entries ==> Swept(t, now).entries[k] == t.entries[k]
  {
    SmallerMeansDropped(t.entries, Swept(t, now).entries);
  }

  // ---- Tickets ----

  datatype Op<+S> =
    | Look(key: HostKey, version: int, now: int)
    | Put(key: HostKey, ticket: Ticket, version: int, state: S, now: int)
    | Invalidate(key: HostKey, now: int)
    | Forget(key: HostKey)

  function After<S>(t: Table<S>, op: Op<S>): Table<S> {
    match op
    case Look(key, version, now) => Touched(t, key, version, now)
    case Put(key, ticket, version, state, now) => Stored(t, key, ticket, version, state, now)
    case Invalidate(key, now) => Invalidated(t, key, now)
    case Forget(key) => Forgotten(t, key)
  }

  /** Some entry goes: forgotten, or dropped by the sweep of an accepted store (even when the
      store puts one back under the same key). */
  predicate Drops<S>(t: Table<S>, op: Op<S>) {
    match op
    case Put(key, ticket, _, _, now) => ticket == TicketFor(t, key) && Swept(t, now).entries.Keys != t.entries.Keys
    case Forget(key) => key in t.entries
    case _ => false
  }

  /** What a ticket for `key` must not live through. */
  predicate Voids<S>(t: Table<S>, op: Op<S>, key: HostKey) {
    (op.Invalidate? && op.key == key) || Drops(t, op)
  }

  function Run<S>(t: Table<S>, ops: seq<Op<S>>): Table<S>
    decreases |ops|
  {
    if ops == [] then t else Run(After(t, ops[0]), ops[1..])
  }

  predicate Voided<S>(t: Table<S>, ops: seq<Op<S>>, key: HostKey)
    decreases |ops|
  {
    ops != [] && (Voids(t, ops[0], key) || Voided(After(t, ops[0]), ops[1..], key))
  }

  /** The order tickets of one host move in. */
  predicate Before(a: Ticket, b: Ticket) {
    a.epoch < b.epoch || (a.epoch == b.epoch && a.generation < b.generation)
  }

  /** One operation either leaves a host's ticket as it was or moves it strictly forward,
      and it moves it exactly when the operation voids it. */
  lemma OneStep<S>(t: Table<S>, op: Op<S>, key: HostKey)
    ensures Voids(t, op, key) ==> Before(TicketFor(t, key), TicketFor(After(t, op), key))
    ensures !Voids(t, op, key) ==> TicketFor(After(t, op), key) == TicketFor(t, key)
  {
    match op
    case Put(k, ticket, _, _, now) =>
      SweepMovesTheEpoch(t, now);
      assert key in Swept(t, now).entries ==> Swept(t, now).entries[key] == t.entries[key];
    case _ =>
  }

  lemma {:induction false} TicketsMoveForward<S>(t: Table<S>, ops: seq<Op<S>>, key: HostKey)
    ensures Voided(t, ops, key) ==> Before(TicketFor(t, key), TicketFor(Run(t, ops), key))
    ensures !Voided(t, ops, key) ==> TicketFor(Run(t, ops), key) == TicketFor(t, key)
    decreases |ops|
  {
    if ops == [] {
    } else {
      OneStep(t, ops[0], key);
      TicketsMoveForward(After(t, ops[0]), ops[1..], key);
    }
  }

  /**
   Tickets are exact, although generations restart when entries are dropped: after any
   operations at all, a store under a ticket taken before them is accepted if and only if
   the host was not invalidated meanwhile and no entry of any host was dropped.
   */
  lemma TicketExact<S>(t: Table<S>, ops: seq<Op<S>>, key: HostKey, version: int, state: S, now: int)
    ensures var ticket, later := TicketFor(t, key), Run(t, ops);
      var stored := Stored(later, key, ticket, version, state, now);
      if Voided(t, ops, key) then stored == later && ticket != TicketFor(later, key)
      else Served(stored, key, version) == Some(state) && ticket == TicketFor(later, key)
  {
    TicketsMoveForward(t, ops, key);
  }

  /** The ABA case the epoch is there for: forgetting a host and invalidating it again
      brings its old generation back, and the ticket from before is refused all the same. */
  lemma GenerationComesBackButNotTheTicket<S>(t: Table<S>, key: HostKey, now: int)
    requires GenerationOf(t, key) == 1
    ensures var later := Run(t, [Forget(key), Invalidate(key, now)]);
      GenerationOf(later, key) == 1 && TicketFor(later, key) != TicketFor(t, key)
  {
    var ops: seq<Op<S>> := [Forget(key), Invalidate(key, now)];
    assert ops[1..] == [Invalidate(key, now)] && ops[1..][1..] == [];
    assert Run(t, ops) == Run(After(t, ops[0]), ops[1..]) == Run(After(After(t, ops[0]), ops[1]), []);
  }

  // ---- Use ----

  /** An entry that stays keeps the time it was last used, except for the host of a lookup that
      hits and of a store that is accepted: theirs is the time of that, as is a new entry's. */
  lemma LastUsed<S>(t: Table<S>, op: Op<S>, key: HostKey)
    requires key in After(t, op).entries
    ensures key !in t.entries ==>
      (op.Put? || op.Invalidate?) && op.key == key && After(t, op).entries[key].lastUsed == op.now
    ensures key in t.entries ==>
      var hit := op.Look? && op.key == key && t.entries[key].state.Some? && t.entries[key].configVersion == op.version;
      var stored := op.Put? && op.key == key && op.ticket == TicketFor(t, key);
      After(t, op).entries[key].lastUsed == if hit || stored then op.now else t.entries[key].lastUsed
  {
    if op.Put? {
      SweepKeepsLiveEntries(t, op.now);
    }
  }

  /** The operation spares an entry used at `from`: it does not forget the host, and reads no
      earlier clock; if it stores, then within the hour, where a sweep can make room. */
  predicate Spares<S>(t: Table<S>, op: Op<S>, key: HostKey, from: int) {
    match op
    case Look(_, _, now) => from <= now
    case Put(_, _, _, _, now) => from <= now <= from + 3600 && |UsedSince(t, now - 3600)| < 100_000
    case Invalidate(_, _) => true
    case Forget(k) => k != key
  }

  predicate AllSpare<S>(t: Table<S>, ops: seq<Op<S>>, key: HostKey, from: int)
    decreases |ops|
  {
    ops == [] || (Spares(t, ops[0], key, from) && AllSpare(After(t, ops[0]), ops[1..], key, from))
  }

  lemma SweepSpares<S>(t: Table<S>, now: int, key: HostKey, from: int)
    requires key in t.entries && t.entries[key].lastUsed >= from && now <= from + 3600
    requires |UsedSince(t, now - 3600)| < 100_000
    ensures key in Swept(t, now).entries
  {
    SweepKeepsLiveEntries(t, now);
    hide Swept;
    assert key in UsedSince(t, now - 3600);
  }

  lemma SparedStays<S>(t: Table<S>, op: Op<S>, key: HostKey, from: int)
    requires key in t.entries && t.entries[key].lastUsed >= from && Spares(t, op, key, from)
    ensures key in After(t, op).entries && After(t, op).entries[key].lastUsed >= from
  {
    if op.Put? {
      SweepSpares(t, op.now, key, from);
    }
    hide UsedSince, Swept;
    if key in After(t, op).entries {
      LastUsed(t, op, key);
    }
  }

  lemma {:induction false} UsedStays<S>(t: Table<S>, ops: seq<Op<S>>, key: HostKey, from: int)
    requires key in t.entries && t.entries[key].lastUsed >= from && AllSpare(t, ops, key, from)
    ensures key in Run(t, ops).entries && Run(t, ops).entries[key].lastUsed >= from
    decreases |ops|
  {
    if ops == [] {
    } else {
      SparedStays(t, ops[0], key, from);
      UsedStays(After(t, ops[0]), ops[1..], key, from);
    }
  }

  /** For an hour after a lookup that hits or a store that is accepted, no sweep that can make
      room takes the host's entry, whatever else goes on. */
  lemma UseKeepsTheEntryForAnHour<S>(t: Table<S>, use: Op<S>, key: HostKey, ops: seq<Op<S>>)
    requires (use.Look? || use.Put?) && use.key == key
    requires if use.Look? then Served(t, key, use.version).Some? else use.ticket == TicketFor(t, key)
    requires AllSpare(After(t, use), ops, key, use.now)
    ensures key in Run(t, [use] + ops).entries
  {
    assert ([use] + ops)[1..] == ops;
    UsedStays(After(t, use), ops, key, use.now);
  }
}
