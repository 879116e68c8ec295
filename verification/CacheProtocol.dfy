/**
 The cache among everything that runs beside it: many computes in flight, each reading its
 inputs one query at a time, while hosts write their tags and documents, operators change
 the tenant's configuration, and hosts are invalidated and forgotten.

 The result is that no interleaving lets a lookup serve anything but what a compute on the
 current inputs would give, as long as the version asked for is the tenant's current one, no
 write to the host is still waiting for its invalidation, and no write to the tenant's
 configuration is still waiting for its version to move.
 */
module CacheProtocol {
  import opened JsonModel
  import opened Selectors
  import opened DesiredStates
  import opened DesiredStateCaches

  /** What `config_version` covers besides overrides. */
  datatype TenantRow = TenantRow(version: int, groups: seq<Group>, rows: seq<Assignment>)

  /** A host's tags and documents, covered by its invalidations, and its override, covered by
      the tenant's version while the host exists. */
  datatype HostRow = HostRow(tags: HostTags, docs: HostFacts, patch: Option<Json>)

  /** A compute in flight: the version it was handed, then what it has read so far, in the
      order it reads. */
  datatype Job = Job(
    key: HostKey,
    version: int,
    ticket: Option<Ticket>,
    tags: Option<HostTags>,
    groups: Option<seq<Group>>,
    docs: map<string, Option<Json>>,
    chosen: Option<seq<DesiredBundle>>,
    patch: Option<Option<Json>>)

  /** `unsettled` holds the hosts written to since they were last invalidated, and `unbumped`
      the tenants whose configuration was written to since their version last moved. */
  datatype World = World(
    cache: Table<DesiredState>,
    tenants: map<int, TenantRow>,
    hosts: map<HostKey, HostRow>,
    jobs: map<nat, Job>,
    unsettled: set<HostKey>,
    unbumped: set<int>)

  function TenantOf(w: World, tenant: int): TenantRow {
    if tenant in w.tenants then w.tenants[tenant] else TenantRow(0, [], [])
  }

  function HostOf(w: World, key: HostKey): HostRow {
    if key in w.hosts then w.hosts[key] else HostRow(map[], map[], None)
  }

  /** What a compute on the current inputs gives. */
  function Fresh(w: World, key: HostKey): DesiredState {
    var tenant, host := TenantOf(w, key.tenant), HostOf(w, key);
    Build(host.tags, tenant.groups, host.docs, tenant.rows, host.patch)
  }

  // ---- Steps ----

  /**
   Configuration changes in one of two ways. Importing, renaming and following a
   configuration source move the version in the transaction that writes (`TenantChange`).
   The console writes first and moves the version in a query of its own, which may fail and
   is then only logged (`TenantWrite`, and `Bump` if ever). Deleting a host takes its
   override along without moving the version (`HostWrite`).
   */
  datatype Step =
    | Arrive(id: nat, key: HostKey)
    | LookUp(id: nat, now: int)
    | Take(id: nat)
    | ReadTags(id: nat)
    | ReadGroups(id: nat)
    | ReadDoc(id: nat, source: string)
    | ReadBundles(id: nat)
    | ReadPatch(id: nat)
    | Finish(id: nat, now: int)
    | Abandon(id: nat)
    | HostWrite(key: HostKey, host: HostRow)
    | InvalidateStep(key: HostKey, now: int)
    | ForgetStep(key: HostKey)
    | TenantChange(tenant: int, row: TenantRow, changed: map<HostKey, HostRow>)
    | TenantWrite(tenant: int, groups: seq<Group>, rows: seq<Assignment>, changed: map<HostKey, HostRow>)
    | Bump(tenant: int)

  function Loaded(docs: map<string, Option<Json>>): HostFacts {
    map s | s in docs && docs[s].Some? :: docs[s].value
  }

  /** The hosts whose overrides a tenant's operators can write. */
  predicate AllOf(tenant: int, changed: map<HostKey, HostRow>) {
    forall k :: k in changed ==> k.tenant == tenant
  }

  predicate Enabled(w: World, s: Step) {
    match s
    case Arrive(id, key) => id !in w.jobs && key.tenant in w.tenants
    case LookUp(id, _) => id in w.jobs && w.jobs[id].ticket.None?
    case Take(id) => id in w.jobs && w.jobs[id].ticket.None?
    case ReadTags(id) => id in w.jobs && w.jobs[id].ticket.Some? && w.jobs[id].tags.None?
    case ReadGroups(id) => id in w.jobs && w.jobs[id].tags.Some? && w.jobs[id].groups.None?
    case ReadDoc(id, source) =>
      id in w.jobs && w.jobs[id].groups.Some?
      && source in SourcesRead(w.jobs[id].groups.value) - w.jobs[id].docs.Keys
    case ReadBundles(id) =>
      id in w.jobs && w.jobs[id].groups.Some? && w.jobs[id].tags.Some? && w.jobs[id].chosen.None?
      && w.jobs[id].docs.Keys == SourcesRead(w.jobs[id].groups.value)
    case ReadPatch(id) => id in w.jobs && w.jobs[id].chosen.Some? && w.jobs[id].patch.None?
    case Finish(id, _) => id in w.jobs && w.jobs[id].ticket.Some? && w.jobs[id].chosen.Some? && w.jobs[id].patch.Some?
    case Abandon(id) => id in w.jobs
    case HostWrite(_, _) => true
    case InvalidateStep(_, _) => true
    case ForgetStep(_) => true
    case TenantChange(tenant, row, changed) =>
      (tenant in w.tenants ==> row.version > w.tenants[tenant].version) && AllOf(tenant, changed)
    case TenantWrite(tenant, _, _, changed) => tenant in w.tenants && AllOf(tenant, changed)
    case Bump(tenant) => tenant in w.tenants
  }

  function ResultOf(j: Job): DesiredState
    requires j.chosen.Some? && j.patch.Some?
  {
    Assemble(j.chosen.value, j.patch.value)
  }

  /** Which hosts an operation of the cache settles: one invalidated, or one forgotten while
      it had an entry to lose. */
  function SettledBy(cache: Table<DesiredState>, op: Op<DesiredState>, unsettled: set<HostKey>): set<HostKey> {
    match op
    case Invalidate(key, _) => unsettled - {key}
    case Forget(key) => if key in cache.entries then unsettled - {key} else unsettled
    case _ => unsettled
  }

  function Perform(w: World, op: Op<DesiredState>): World {
    w.(cache := After(w.cache, op), unsettled := SettledBy(w.cache, op, w.unsettled))
  }

  function WithJob(w: World, id: nat, j: Job): World {
    w.(jobs := w.jobs[id := j])
  }

  function WithoutJob(w: World, id: nat): World {
    w.(jobs := w.jobs - {id})
  }

  /** The next thing a job reads, as it is stored now. */
  function Read(w: World, s: Step): Job
    requires Enabled(w, s) && (s.Take? || s.ReadTags? || s.ReadGroups? || s.ReadDoc? || s.ReadBundles? || s.ReadPatch?)
  {
    var j := w.jobs[s.id];
    match s
    case Take(_) => j.(ticket := Some(TicketFor(w.cache, j.key)))
    case ReadTags(_) => j.(tags := Some(HostOf(w, j.key).tags))
    case ReadGroups(_) => j.(groups := Some(TenantOf(w, j.key.tenant).groups))
    case ReadDoc(_, source) => j.(docs := j.docs[source := Field(HostOf(w, j.key).docs, source)])
    case ReadBundles(_) =>
      var ids := MatchingGroups(j.groups.value, j.tags.value, Loaded(j.docs));
      j.(chosen := Some(BundlesFor(TenantOf(w, j.key.tenant).rows, ids)))
    case ReadPatch(_) => j.(patch := Some(HostOf(w, j.key).patch))
  }

  function Effect(w: World, s: Step): World
    requires Enabled(w, s)
  {
    match s
    case Arrive(id, key) =>
      WithJob(w, id, Job(key, TenantOf(w, key.tenant).version, None, None, None, map[], None, None))
    case LookUp(id, now) =>
      var j := w.jobs[id];
      var w' := Perform(w, Look(j.key, j.version, now));
      if Served(w.cache, j.key, j.version).Some? then WithoutJob(w', id) else w'
    case Finish(id, now) =>
      var j := w.jobs[id];
      WithoutJob(Perform(w, Put(j.key, j.ticket.value, j.version, ResultOf(j), now)), id)
    case Abandon(id) => WithoutJob(w, id)
    case HostWrite(key, host) => w.(hosts := w.hosts[key := host], unsettled := w.unsettled + {key})
    case InvalidateStep(key, now) => Perform(w, Invalidate(key, now))
    case ForgetStep(key) => Perform(w, Forget(key))
    case TenantChange(tenant, row, changed) =>
      w.(tenants := w.tenants[tenant := row], hosts := w.hosts + changed, unbumped := w.unbumped - {tenant})
    case TenantWrite(tenant, groups, rows, changed) =>
      var row := TenantRow(w.tenants[tenant].version, groups, rows);
      w.(tenants := w.tenants[tenant := row], hosts := w.hosts + changed, unbumped := w.unbumped + {tenant})
    case Bump(tenant) =>
      var row := w.tenants[tenant];
      w.(tenants := w.tenants[tenant := row.(version := row.version + 1)], unbumped := w.unbumped - {tenant})
    case _ => WithJob(w, s.id, Read(w, s))
  }

  /** A step that is not enabled does nothing, so every list of steps is a run. */
  function Next(w: World, s: Step): World {
    if Enabled(w, s) then Effect(w, s) else w
  }

  function Run(w: World, steps: seq<Step>): World
    decreases |steps|
  {
    if steps == [] then w else Run(Next(w, steps[0]), steps[1..])
  }

  /** A server that has just started, over any stored data. */
  predicate Initial(w: World) {
    w.cache.entries == map[] && w.jobs == map[] && w.unsettled == {} && w.unbumped == {}
  }

  // ---- The invariant ----

  /** The version is the tenant's current one, no write to the host awaits its invalidation
      and none to the tenant its new version. */
  predicate Current(w: World, key: HostKey, version: int) {
    version == TenantOf(w, key.tenant).version && key !in w.unsettled && key.tenant !in w.unbumped
  }

  /** A state under a version is right to serve while that version is current. */
  predicate StateOk(w: World, key: HostKey, version: int, state: DesiredState) {
    && key.tenant in w.tenants
    && version <= TenantOf(w, key.tenant).version
    && (Current(w, key, version) ==> state == Fresh(w, key))
  }

  predicate EntryOk(w: World, key: HostKey, e: Entry<DesiredState>) {
    e.state.Some? ==> StateOk(w, key, e.configVersion, e.state.value)
  }

  function ChosenNow(w: World, key: HostKey): seq<DesiredBundle> {
    var tenant, host := TenantOf(w, key.tenant), HostOf(w, key);
    BundlesFor(tenant.rows, MatchingGroups(tenant.groups, host.tags, host.docs))
  }

  predicate DocsCurrent(docs: map<string, Option<Json>>, stored: HostFacts) {
    forall s :: s in docs ==> docs[s] == Field(stored, s)
  }

  /** Everything read so far is still what is stored. */
  predicate ReadsCurrent(w: World, j: Job) {
    var tenant, host := TenantOf(w, j.key.tenant), HostOf(w, j.key);
    && (j.tags.Some? ==> j.tags.value == host.tags)
    && (j.groups.Some? ==> j.groups.value == tenant.groups)
    && DocsCurrent(j.docs, host.docs)
    && (j.chosen.Some? ==> j.chosen.value == ChosenNow(w, j.key))
    && (j.patch.Some? ==> j.patch.value == host.patch)
  }

  predicate NothingRead(j: Job) {
    j.tags.None? && j.groups.None? && j.docs == map[] && j.chosen.None? && j.patch.None?
  }

  /** The job could still store a result that would be served. */
  predicate Valid(w: World, j: Job) {
    j.ticket == Some(TicketFor(w.cache, j.key)) && Current(w, j.key, j.version)
  }

  predicate JobOk(w: World, j: Job) {
    && j.key.tenant in w.tenants
    && j.version <= TenantOf(w, j.key.tenant).version
    && (j.ticket.None? ==> NothingRead(j))
    && (j.ticket.Some? ==> !Before(TicketFor(w.cache, j.key), j.ticket.value))
    && (Valid(w, j) ==> ReadsCurrent(w, j))
  }

  predicate EntriesOk(w: World) {
    forall k :: k in w.cache.entries ==> EntryOk(w, k, w.cache.entries[k])
  }

  predicate JobsOk(w: World) {
    forall id :: id in w.jobs ==> JobOk(w, w.jobs[id])
  }

  predicate Inv(w: World) {
    EntriesOk(w) && JobsOk(w)
  }

  // ---- Every step keeps it ----

  lemma SettlingVoids(w: World, op: Op<DesiredState>, k: HostKey)
    ensures k in w.unsettled && k !in Perform(w, op).unsettled ==> Voids(w.cache, op, k)
  {
  }

  lemma JobSurvivesCacheOp(w: World, op: Op<DesiredState>, j: Job)
    requires JobOk(w, j)
    ensures JobOk(Perform(w, op), j)
  {
    var w' := Perform(w, op);
    OneStep(w.cache, op, j.key);
    SettlingVoids(w, op, j.key);
    hide After, Voids, SettledBy, MatchingGroups, BundlesFor;
    assert Valid(w', j) ==> Valid(w, j);
    assert ReadsCurrent(w, j) ==> ReadsCurrent(w', j);
  }

  lemma EntrySurvivesCacheOp(w: World, op: Op<DesiredState>, k: HostKey)
    requires EntriesOk(w)
    requires op.Put? && op.ticket == TicketFor(w.cache, op.key) ==> StateOk(w, op.key, op.version, op.state)
    requires k in After(w.cache, op).entries
    ensures EntryOk(Perform(w, op), k, After(w.cache, op).entries[k])
  {
    hide Build;
    assert k in w.cache.entries ==> EntryOk(w, k, w.cache.entries[k]);
    if op.Put? {
      SweepMovesTheEpoch(w.cache, op.now);
    }
  }

  /** A whole job read under a ticket that is still good gives the current answer. */
  lemma GoodTicketGoodResult(w: World, j: Job)
    requires JobOk(w, j) && j.chosen.Some? && j.patch.Some?
    requires j.ticket == Some(TicketFor(w.cache, j.key))
    ensures StateOk(w, j.key, j.version, ResultOf(j))
  {
  }

  lemma CacheOpKeepsInv(w: World, op: Op<DesiredState>)
    requires Inv(w)
    requires op.Put? && op.ticket == TicketFor(w.cache, op.key) ==> StateOk(w, op.key, op.version, op.state)
    ensures Inv(Perform(w, op))
  {
    hide After, EntryOk, JobOk, StateOk, SettledBy;
    var w' := Perform(w, op);
    forall k | k in w'.cache.entries ensures EntryOk(w', k, w'.cache.entries[k]) {
      EntrySurvivesCacheOp(w, op, k);
    }
    forall id | id in w'.jobs ensures JobOk(w', w'.jobs[id]) {
      JobSurvivesCacheOp(w, op, w.jobs[id]);
    }
  }

  /** Changing or dropping one job leaves entries and other jobs alone. */
  lemma JobStepKeepsInv(w: World, id: nat, j: Job)
    requires Inv(w) && JobOk(w, j)
    ensures Inv(WithJob(w, id, j)) && Inv(WithoutJob(w, id))
  {
    hide Build, MatchingGroups, BundlesFor;
    forall w', k: HostKey, e: Entry<DesiredState> | w' in {WithJob(w, id, j), WithoutJob(w, id)} && EntryOk(w, k, e)
      ensures EntryOk(w', k, e)
    {
    }
    forall w', i: Job | w' in {WithJob(w, id, j), WithoutJob(w, id)} && JobOk(w, i) ensures JobOk(w', i) {
    }
  }

  /** The documents loaded one by one are the stored ones from the sources that count. */
  lemma LoadedIsRestricted(docs: map<string, Option<Json>>, stored: HostFacts)
    requires DocsCurrent(docs, stored)
    ensures Loaded(docs) == Restrict(stored, docs.Keys)
  {
  }

  lemma ReadKeepsJob(w: World, s: Step)
    requires JobsOk(w) && Enabled(w, s)
    requires s.Take? || s.ReadTags? || s.ReadGroups? || s.ReadDoc? || s.ReadBundles? || s.ReadPatch?
    ensures JobOk(w, Read(w, s))
  {
    hide MatchingGroups, BundlesFor, SourcesRead;
    var j := w.jobs[s.id];
    assert JobOk(w, j);
    if s.ReadBundles? && Valid(w, j) {
      LoadedIsRestricted(j.docs, HostOf(w, j.key).docs);
      MatchingNeedsOnlySourcesRead(j.groups.value, j.tags.value, HostOf(w, j.key).docs, j.docs.Keys);
    }
  }

  lemma HostWriteKeepsInv(w: World, s: Step)
    requires Inv(w) && s.HostWrite?
    ensures Inv(Effect(w, s))
  {
    hide Build, MatchingGroups, BundlesFor;
    var w' := Effect(w, s);
    forall k | k in w'.cache.entries ensures EntryOk(w', k, w'.cache.entries[k]) {
      assert EntryOk(w, k, w.cache.entries[k]);
    }
    forall id | id in w'.jobs ensures JobOk(w', w'.jobs[id]) {
      assert JobOk(w, w.jobs[id]);
    }
  }

  /** What was right for a host stays right: its tenant's version moves, or the host stops
      being current, or all that a compute reads about it is stored alike. */
  predicate StaysRight(w: World, w': World, key: HostKey) {
    var version := TenantOf(w, key.tenant).version;
    && key.tenant in w'.tenants && version <= TenantOf(w', key.tenant).version
    && (Current(w', key, version) ==>
          && Current(w, key, version)
          && TenantOf(w', key.tenant) == TenantOf(w, key.tenant)
          && HostOf(w', key) == HostOf(w, key))
  }

  lemma EntryStays(w: World, w': World, key: HostKey, e: Entry<DesiredState>)
    requires EntryOk(w, key, e)
    requires key.tenant in w.tenants ==> StaysRight(w, w', key)
    ensures EntryOk(w', key, e)
  {
    hide Build;
  }

  lemma JobStays(w: World, w': World, j: Job)
    requires JobOk(w, j) && w'.cache == w.cache
    requires j.key.tenant in w.tenants ==> StaysRight(w, w', j.key)
    ensures JobOk(w', j)
  {
    hide BundlesFor, MatchingGroups;
  }

  lemma TenantStepOutdates(w: World, s: Step, key: HostKey)
    requires Enabled(w, s) && (s.TenantChange? || s.TenantWrite? || s.Bump?)
    ensures Effect(w, s).cache == w.cache && Effect(w, s).jobs == w.jobs
    ensures key.tenant in w.tenants ==> StaysRight(w, Effect(w, s), key)
  {
    if key.tenant != s.tenant && !s.Bump? {
      assert key !in s.changed;
    }
  }

  /** A change of a tenant's configuration makes nothing wrong that was right: it moves the
      version, or leaves the tenant waiting for that. */
  lemma TenantStepKeepsInv(w: World, s: Step)
    requires Inv(w) && Enabled(w, s) && (s.TenantChange? || s.TenantWrite? || s.Bump?)
    ensures Inv(Effect(w, s))
  {
    hide Effect, Enabled, EntryOk, JobOk, StaysRight;
    var w' := Effect(w, s);
    TenantStepOutdates(w, s, HostKey(s.tenant, ""));
    forall k | k in w'.cache.entries ensures EntryOk(w', k, w'.cache.entries[k]) {
      TenantStepOutdates(w, s, k);
      EntryStays(w, w', k, w.cache.entries[k]);
    }
    forall id | id in w'.jobs ensures JobOk(w', w'.jobs[id]) {
      TenantStepOutdates(w, s, w.jobs[id].key);
      JobStays(w, w', w.jobs[id]);
    }
  }

  lemma StepKeepsInv(w: World, s: Step)
    requires Inv(w)
    ensures Inv(Next(w, s))
  {
    if Enabled(w, s) {
      match s
      case Arrive(id, key) =>
        JobStepKeepsInv(w, id, Job(key, TenantOf(w, key.tenant).version, None, None, None, map[], None, None));
      case LookUp(id, now) =>
        var j := w.jobs[id];
        CacheOpKeepsInv(w, Look(j.key, j.version, now));
        JobStepKeepsInv(Perform(w, Look(j.key, j.version, now)), id, j);
      case Finish(id, now) =>
        var j := w.jobs[id];
        var op := Put(j.key, j.ticket.value, j.version, ResultOf(j), now);
        if j.ticket.value == TicketFor(w.cache, j.key) {
          GoodTicketGoodResult(w, j);
        }
        CacheOpKeepsInv(w, op);
        JobStepKeepsInv(Perform(w, op), id, j);
      case Abandon(id) => JobStepKeepsInv(w, id, w.jobs[id]);
      case HostWrite(_, _) => HostWriteKeepsInv(w, s);
      case InvalidateStep(key, now) => CacheOpKeepsInv(w, Invalidate(key, now));
      case ForgetStep(key) => CacheOpKeepsInv(w, Forget(key));
      case TenantChange(_, _, _) => TenantStepKeepsInv(w, s);
      case TenantWrite(_, _, _, _) => TenantStepKeepsInv(w, s);
      case Bump(_) => TenantStepKeepsInv(w, s);
      case _ =>
        ReadKeepsJob(w, s);
        JobStepKeepsInv(w, s.id, Read(w, s));
    }
  }

  lemma {:induction false} RunKeepsInv(w: World, steps: seq<Step>)
    requires Inv(w)
    ensures Inv(Run(w, steps))
    decreases |steps|
  {
    if steps == [] {
    } else {
      StepKeepsInv(w, steps[0]);
      RunKeepsInv(Next(w, steps[0]), steps[1..]);
    }
  }

  /**
   Freshness, over every interleaving and every torn read: whatever a lookup answers for the
   tenant's current version, while no write to the host awaits its invalidation and none to
   the tenant its new version, is what a compute on the current inputs gives.
   */
  lemma Freshness(start: World, steps: seq<Step>, key: HostKey)
    requires Initial(start)
    ensures var w := Run(start, steps);
      var answer := Served(w.cache, key, TenantOf(w, key.tenant).version);
      answer.Some? && key !in w.unsettled && key.tenant !in w.unbumped ==> answer.value == Fresh(w, key)
  {
    RunKeepsInv(start, steps);
    var w := Run(start, steps);
    if key in w.cache.entries {
      assert EntryOk(w, key, w.cache.entries[key]);
    }
  }

  /** The step neither moves the tenant's version nor touches what is stored for the host:
      it does not invalidate or forget it, store for it, or sweep it away. */
  predicate LeavesStored(w: World, s: Step, key: HostKey) {
    match s
    case Bump(tenant) => tenant != key.tenant
    case TenantChange(tenant, _, _) => tenant != key.tenant
    case InvalidateStep(k, _) => k != key
    case ForgetStep(k) => k != key
    case Finish(id, now) => id in w.jobs ==> w.jobs[id].key != key && key in Swept(w.cache, now).entries
    case _ => true
  }

  predicate AllLeaveStored(w: World, steps: seq<Step>, key: HostKey)
    decreases |steps|
  {
    steps == [] || (LeavesStored(w, steps[0], key) && AllLeaveStored(Next(w, steps[0]), steps[1..], key))
  }

  /** What a lookup at the tenant's version is answered. */
  function Answer(w: World, key: HostKey): Option<DesiredState> {
    Served(w.cache, key, TenantOf(w, key.tenant).version)
  }

  lemma StaysStored(w: World, s: Step, key: HostKey)
    requires LeavesStored(w, s, key) && Answer(w, key).Some?
    ensures Answer(Next(w, s), key) == Answer(w, key)
  {
    hide Build, Assemble, SourcesRead, MatchingGroups, BundlesFor;
  }

  lemma {:induction false} RunStaysStored(w: World, steps: seq<Step>, key: HostKey)
    requires AllLeaveStored(w, steps, key) && Answer(w, key).Some?
    ensures Answer(Run(w, steps), key) == Answer(w, key)
    decreases |steps|
  {
    hide LeavesStored, Next, Answer;
    if steps == [] {
    } else {
      StaysStored(w, steps[0], key);
      RunStaysStored(Next(w, steps[0]), steps[1..], key);
    }
  }

  /**
   The window the console leaves. From its write on, through every run in which the version
   does not move and what is stored for the host is left alone, a cached host is served the
   state from before the write; so if the bump fails, that goes on. When the version moves,
   that state is served no more.
   */
  lemma ServedFromBeforeUntilTheBump(w: World, key: HostKey, s: Step, rest: seq<Step>)
    requires Inv(w) && s.TenantWrite? && s.tenant == key.tenant && Enabled(w, s)
    requires Current(w, key, TenantOf(w, key.tenant).version) && Answer(w, key).Some?
    requires AllLeaveStored(Next(w, s), rest, key)
    ensures var w1 := Run(Next(w, s), rest);
      && Answer(w1, key) == Some(Fresh(w, key))
      && Answer(Next(w1, Bump(key.tenant)), key).None?
  {
    hide Build, Run, AllLeaveStored;
    assert EntryOk(w, key, w.cache.entries[key]);
    RunStaysStored(Next(w, s), rest, key);
    StepKeepsInv(w, s);
    RunKeepsInv(Next(w, s), rest);
    ServedIsTenanted(Run(Next(w, s), rest), key);
  }

  lemma ServedIsTenanted(w: World, key: HostKey)
    requires Inv(w) && Answer(w, key).Some?
    ensures key.tenant in w.tenants
  {
    hide Build;
    assert EntryOk(w, key, w.cache.entries[key]);
  }

  lemma {:induction false} RunAppend(w: World, a: seq<Step>, b: seq<Step>)
    ensures Run(w, a + b) == Run(Run(w, a), b)
    decreases |a|
  {
    hide Next;
    if a == [] {
      assert a + b == b;
    } else {
      assert (a + b)[0] == a[0] && (a + b)[1..] == a[1..] + b;
      RunAppend(Next(w, a[0]), a[1..], b);
    }
  }

  lemma RunTwo(w: World, a: Step, b: Step)
    ensures Run(w, [a, b]) == Next(Next(w, a), b)
  {
    hide Next;
    assert [a, b][1..] == [b] && [b][1..] == [];
    assert Run(w, [a, b]) == Run(Next(w, a), [b]);
    assert Run(Next(w, a), [b]) == Run(Next(Next(w, a), b), []);
  }

  lemma RunThree(w: World, a: Step, b: Step, c: Step)
    ensures Run(w, [a, b, c]) == Next(Next(Next(w, a), b), c)
  {
    hide Next;
    assert [a, b, c][1..] == [b, c];
    assert Run(w, [a, b, c]) == Run(Next(w, a), [b, c]);
    RunTwo(Next(w, a), b, c);
  }

  /**
   Why `forget_host` counts as an invalidation only for a host that had an entry: for an
   uncached one it voids nothing, and a compute already done reading stores what it read
   before the write, which is then served as current.
   */
  lemma ForgettingAnUncachedHostSettlesNothing(w: World, id: nat, host: HostRow, now: int)
    requires id in w.jobs && w.jobs[id].key !in w.cache.entries
    requires Valid(w, w.jobs[id]) && w.jobs[id].chosen.Some? && w.jobs[id].patch.Some?
    ensures var j := w.jobs[id];
      var w' := Run(w, [HostWrite(j.key, host), ForgetStep(j.key), Finish(id, now)]);
      Served(w'.cache, j.key, TenantOf(w', j.key.tenant).version) == Some(ResultOf(j)) && j.key in w'.unsettled
  {
    hide MatchingGroups, BundlesFor, Message, ByPriority, SourcesRead, Swept;
    var j := w.jobs[id];
    RunThree(w, HostWrite(j.key, host), ForgetStep(j.key), Finish(id, now));
    var w1 := Next(w, HostWrite(j.key, host));
    var w2 := Next(w1, ForgetStep(j.key));
    assert w2.cache == w.cache && w2.jobs == w.jobs && w2.tenants == w.tenants;
    assert Enabled(w2, Finish(id, now));
  }

  // ---- A run into the window ----

  const SOME_HOST := HostKey(1, "web-1")

  /** One tenant with nothing configured. */
  const SOME_START := World(Table(map[], 0), map[1 := TenantRow(0, [], [])], map[], map[], {}, {})

  const SOME_READS :=
    [Arrive(0, SOME_HOST), Take(0), ReadTags(0)] + [ReadGroups(0), ReadBundles(0), ReadPatch(0)]

  const SOME_WRITE := TenantWrite(1, [], [], map[SOME_HOST := HostRow(map[], map[], Some(Obj(map["a" := Null])))])

  lemma ReadingNothing()
    ensures Run(SOME_START, SOME_READS) == SOME_START.(jobs :=
        map[0 := Job(SOME_HOST, 0, Some(Ticket(0, 0)), Some(map[]), Some([]), map[], Some([]), Some(None))])
  {
    var a, b := [Arrive(0, SOME_HOST), Take(0), ReadTags(0)], [ReadGroups(0), ReadBundles(0), ReadPatch(0)];
    RunAppend(SOME_START, a, b);
    RunThree(SOME_START, a[0], a[1], a[2]);
    RunThree(Run(SOME_START, a), b[0], b[1], b[2]);
  }

  lemma FinishingIt(w: World)
    requires w == Run(SOME_START, SOME_READS)
    ensures var w' := Next(w, Finish(0, 0));
      && Served(w'.cache, SOME_HOST, 0) == Some(Assemble([], None))
      && w'.tenants == SOME_START.tenants && w'.hosts == map[] && w'.unsettled == {}
  {
    hide Assemble, Run;
    ReadingNothing();
    assert Enabled(w, Finish(0, 0));
  }

  /** From a server just started: the host's state is computed and cached, its override is
      written, and a lookup before the version moves is answered without it. */
  lemma AWriteBeforeItsBumpIsNotServed()
    ensures Initial(SOME_START)
    ensures var w := Run(SOME_START, SOME_READS + [Finish(0, 0), SOME_WRITE]);
      var answer := Served(w.cache, SOME_HOST, TenantOf(w, 1).version);
      && answer.Some? && answer.value.config == EMPTY_OBJECT
      && Fresh(w, SOME_HOST).config == Obj(map["a" := Null])
      && SOME_HOST !in w.unsettled
  {
    hide Run, Message, ByPriority, BundlesFor, MatchingGroups;
    var w := Run(SOME_START, SOME_READS);
    FinishingIt(w);
    RunAppend(SOME_START, SOME_READS, [Finish(0, 0), SOME_WRITE]);
    RunTwo(w, Finish(0, 0), SOME_WRITE);
    var w1 := Next(w, Finish(0, 0));
    assert Enabled(w1, SOME_WRITE);
    assert HostOf(Next(w1, SOME_WRITE), SOME_HOST).patch == Some(Obj(map["a" := Null]));
  }
}
