/**
 * Runtime configuration as it runs: requests validate, commit and write the cache in separate steps that
 * interleave freely and may fail, while a reader copies the cache.
 */
module ConfigProtocol {
  import opened Digits
  import opened Keyspace
  import opened ConfigRules
  import opened ConfigStore
  import opened ConfigCache

  /** A request between two of its steps. */
  datatype Job =
    | Checked(key: string, change: Change)
    | Writing(cmds: seq<Command>)

  datatype System = System(table: Table, hashes: Hashes, jobs: seq<Job>, provider: map<string, Envelope>)

  datatype Action =
    | Seed(key: string, row: Row)
    | Create(key: string, row: Row)
    | BeginUpdate(key: string, value: string, expected: int)
    | BeginReset(key: string)
    | Commit(job: nat)
    | BeginSync(order: seq<string>)
    | Deliver(job: nat)
    | Lose(job: nat)
    | Abandon(job: nat)
    | Refresh

  function Start(): System { System(Table(map[], [], map[]), map[], [], map[]) }

  /** The rows in the order a listing returns them. */
  function Listing(rows: map<string, Row>, order: seq<string>): seq<Config>
    requires forall k <- order :: k in rows
  {
    if order == [] then [] else [(order[0], rows[order[0]])] + Listing(rows, order[1..])
  }

  predicate Lists(rows: map<string, Row>, order: seq<string>) {
    && (forall k <- order :: k in rows) && (forall k <- rows :: k in order)
    && forall i, j | 0 <= i < j < |order| :: order[i] != order[j]
  }

  function Without(jobs: seq<Job>, i: nat): seq<Job>
    requires i < |jobs|
  {
    jobs[..i] + jobs[i + 1..]
  }

  function Step(f: Formats, s: System, a: Action): System {
    match a
    case Seed(key, row) => s.(table := SeedOne(s.table, key, row))
    case Create(key, row) =>
      if !Accepts(f, row.spec, row.value) || !Accepts(f, row.spec, row.spec.defaultValue) then s else
        var (t, reply) := CreateRow(s.table, key, row);
        s.(table := t, jobs := if reply.Stored? then s.jobs + [Writing(Puts([(key, reply.row)]))] else s.jobs)
    case BeginUpdate(key, value, expected) =>
      if expected <= 0 || key !in s.table.rows || !Accepts(f, s.table.rows[key].spec, value) then s
      else s.(jobs := s.jobs + [Checked(key, SetTo(value, expected))])
    case BeginReset(key) =>
      if key !in s.table.rows || !Accepts(f, s.table.rows[key].spec, s.table.rows[key].spec.defaultValue) then s
      else s.(jobs := s.jobs + [Checked(key, Reset)])
    case Commit(i) =>
      if i >= |s.jobs| || !s.jobs[i].Checked? then s else
        var (t, reply) := UpdateRow(s.table, s.jobs[i].key, s.jobs[i].change);
        var rest := Without(s.jobs, i);
        s.(table := t, jobs := if reply.Stored? then rest + [Writing(Puts([(s.jobs[i].key, reply.row)]))] else rest)
    case BeginSync(order) =>
      if !Lists(s.table.rows, order) then s
      else s.(jobs := s.jobs + [Writing(Snapshot(Listing(s.table.rows, order)))])
    case Deliver(i) =>
      if i >= |s.jobs| || !s.jobs[i].Writing? || s.jobs[i].cmds == [] then s
      else s.(hashes := Apply(s.hashes, s.jobs[i].cmds[0]), jobs := s.jobs[i := Writing(s.jobs[i].cmds[1..])])
    case Lose(i) =>
      if i >= |s.jobs| || !s.jobs[i].Writing? || s.jobs[i].cmds == [] then s
      else s.(jobs := s.jobs[i := Writing(s.jobs[i].cmds[1..])])
    case Abandon(i) => if i >= |s.jobs| then s else s.(jobs := Without(s.jobs, i))
    case Refresh => s.(provider := GetAll(s.hashes, AllHash))
  }

  function Run(f: Formats, actions: seq<Action>): System {
    if actions == [] then Start() else Step(f, Run(f, actions[..|actions| - 1]), actions[|actions| - 1])
  }

  /** Seeding does not validate, so its rows must be acceptable to begin with. */
  predicate Legal(f: Formats, a: Action) {
    a.Seed? ==> Accepts(f, a.row.spec, a.row.value) && Accepts(f, a.row.spec, a.row.spec.defaultValue)
  }

  /** The integer settings the service ships with: key, scope, value and bounds. */
  const SHIPPED: seq<(string, string, string, real, real)> := [
    ("post.max_content_length", "post-service", "5000", 1.0, 20000.0),
    ("post.max_attach_files", "post-service", "10", 0.0, 50.0),
    ("post.max_comment_content_length", "post-service", "1000", 1.0, 10000.0),
    ("post.default_page_limit", "post-service", "20", 1.0, 100.0),
    ("post.max_page_limit", "post-service", "100", 1.0, 500.0),
    ("user.max_friend_count", "user-service", "100", 0.0, 10000.0),
    ("user.max_block_count", "user-service", "100", 0.0, 10000.0),
    ("user.max_sent_request_count", "user-service", "100", 0.0, 10000.0),
    ("user.max_received_request_count", "user-service", "100", 0.0, 10000.0),
    ("user.max_given_name_length", "user-service", "64", 1.0, 256.0),
    ("user.max_family_name_length", "user-service", "64", 1.0, 256.0),
    ("user.max_username_length", "user-service", "32", 1.0, 128.0),
    ("user.min_age", "user-service", "16", 1.0, 120.0)]

  function ShippedRow(d: (string, string, string, real, real)): Row {
    Row(Spec(d.1, Int, d.2, Rules(Some(d.3), Some(d.4), None)), d.2, true, 1)
  }

  function DigitAt(s: string, i: nat): int
    requires i < |s|
  {
    s[i] as int - '0' as int
  }

  lemma DigitsPrefix(s: string, n: nat)
    requires n < |s|
    ensures DigitsValue(s[..n + 1]) == 10 * DigitsValue(s[..n]) + DigitAt(s, n)
  {
    assert s[..n + 1][..n] == s[..n];
  }

  lemma UpToFourDigits(s: string)
    requires 2 <= |s| <= 4
    ensures |s| == 2 ==> DigitsValue(s) == 10 * DigitAt(s, 0) + DigitAt(s, 1)
    ensures |s| == 3 ==> DigitsValue(s) == 100 * DigitAt(s, 0) + 10 * DigitAt(s, 1) + DigitAt(s, 2)
    ensures |s| == 4 ==> DigitsValue(s) == 1000 * DigitAt(s, 0) + 100 * DigitAt(s, 1) + 10 * DigitAt(s, 2) + DigitAt(s, 3)
  {
    assert s[..|s|] == s;
    DigitsPrefix(s, 0);
    DigitsPrefix(s, 1);
    if |s| >= 3 { DigitsPrefix(s, 2); }
    if |s| >= 4 { DigitsPrefix(s, 3); }
  }

  lemma ShortNumber(s: string)
    requires 2 <= |s| <= 4 && forall i | 0 <= i < |s| :: IsDigit(s[i])
    ensures ParseInt(s) == Some(DigitsValue(s))
  {
    UpToFourDigits(s);
    assert forall i | 0 <= i < |s| :: 0 <= DigitAt(s, i) <= 9;
  }

  /** An example of legal actions: seeding the integer settings that the service ships with. */
  lemma ShippedDefaultsAreLegal(f: Formats, i: nat)
    requires i < |SHIPPED|
    ensures Legal(f, Seed(SHIPPED[i].0, ShippedRow(SHIPPED[i])))
  {
    ShortNumber(SHIPPED[i].2);
    UpToFourDigits(SHIPPED[i].2);
  }

  // ---------------------------------------------------------------- the invariant

  function Acceptance(f: Formats): Acceptor { (spec, value) => Accepts(f, spec, value) }

  /** An envelope that carries a version that was really committed, of a row that still has that scope and kind. */
  ghost predicate Genuine(t: Table, e: Envelope) {
    && e.key in t.rows && e.scope == t.rows[e.key].spec.scope && e.kind == t.rows[e.key].spec.kind
    && Committed(t, e.key, e.version, e.value)
  }

  predicate Belongs(name: HashName, e: Envelope) { name == AllHash || name == HashOf(e.scope) }

  ghost predicate EntriesGenuine(t: Table, m: map<string, Envelope>) {
    forall k <- m :: m[k].key == k && Genuine(t, m[k])
  }

  ghost predicate HashesGenuine(t: Table, h: Hashes) {
    forall name <- h :: EntriesGenuine(t, h[name]) && forall k <- h[name] :: Belongs(name, h[name][k])
  }

  ghost predicate CommandsGenuine(t: Table, cmds: seq<Command>) {
    forall c <- cmds :: c.Put? ==> Genuine(t, c.e) && Belongs(c.hash, c.e)
  }

  ghost predicate JobSound(ok: Acceptor, t: Table, job: Job) {
    match job
    case Checked(key, change) => key in t.rows && (change.SetTo? ==> ok(t.rows[key].spec, change.value))
    case Writing(cmds) => CommandsGenuine(t, cmds)
  }

  ghost predicate Inv(ok: Acceptor, s: System) {
    && Sound(ok, s.table)
    && HashesGenuine(s.table, s.hashes)
    && EntriesGenuine(s.table, s.provider)
    && (forall job <- s.jobs :: JobSound(ok, s.table, job))
  }

  lemma GenuineStays(t: Table, u: Table, e: Envelope)
    requires Extends(t, u) && Genuine(t, e)
    ensures Genuine(u, e)
  {
    CommittedStays(t, u, e.key, e.version, e.value);
  }

  lemma EntriesGenuineStay(t: Table, u: Table, m: map<string, Envelope>)
    requires Extends(t, u) && EntriesGenuine(t, m)
    ensures EntriesGenuine(u, m)
  {
    forall k | k in m { GenuineStays(t, u, m[k]); }
  }

  lemma JobSoundStays(ok: Acceptor, t: Table, u: Table, job: Job)
    requires Extends(t, u) && JobSound(ok, t, job)
    ensures JobSound(ok, u, job)
  {
    if job.Writing? {
      forall c | c in job.cmds && c.Put? { GenuineStays(t, u, c.e); }
    }
  }

  lemma InvStays(ok: Acceptor, s: System, u: Table)
    requires Inv(ok, s) && Extends(s.table, u) && Sound(ok, u)
    ensures Inv(ok, s.(table := u))
  {
    forall name | name in s.hashes { EntriesGenuineStay(s.table, u, s.hashes[name]); }
    EntriesGenuineStay(s.table, u, s.provider);
    forall job | job in s.jobs { JobSoundStays(ok, s.table, u, job); }
  }

  lemma TableExtends(f: Formats, s: System, a: Action)
    requires SeedsHaveRows(s.table)
    ensures Extends(s.table, Step(f, s, a).table) && SeedsHaveRows(Step(f, s, a).table)
  {
    match a
    case Seed(key, row) => SeedExtends(s.table, key, row);
    case Create(key, row) => CreateExtends(s.table, key, row);
    case Commit(i) =>
      if i < |s.jobs| && s.jobs[i].Checked? { UpdateExtends(s.table, s.jobs[i].key, s.jobs[i].change); }
    case _ =>
  }

  lemma AppendJob(ok: Acceptor, s: System, job: Job)
    requires Inv(ok, s) && JobSound(ok, s.table, job)
    ensures Inv(ok, s.(jobs := s.jobs + [job]))
  {
  }

  lemma RemoveJob(ok: Acceptor, s: System, i: nat)
    requires Inv(ok, s) && i < |s.jobs|
    ensures Inv(ok, s.(jobs := Without(s.jobs, i)))
  {
    assert forall job <- Without(s.jobs, i) :: job in s.jobs;
  }

  lemma ReplaceJob(ok: Acceptor, s: System, i: nat, job: Job)
    requires Inv(ok, s) && i < |s.jobs| && JobSound(ok, s.table, job)
    ensures Inv(ok, s.(jobs := s.jobs[i := job]))
  {
    assert forall other <- s.jobs[i := job] :: other == job || other in s.jobs;
  }

  lemma RowIsGenuine(ok: Acceptor, t: Table, key: string)
    requires Sound(ok, t) && key in t.rows
    ensures Genuine(t, Wrap((key, t.rows[key])))
  {
    var chain := AuditsOf(t.audits, key);
    assert RowSound(ok, SeedOf(t, key), chain, t.rows[key]);
    if chain != [] {
      AuditsOfContains(t.audits, key, chain[|chain| - 1]);
      assert chain[|chain| - 1] in t.audits;
    }
  }

  lemma {:induction false} ListingPutsGenuine(ok: Acceptor, t: Table, order: seq<string>)
    requires Sound(ok, t) && forall k <- order :: k in t.rows
    ensures CommandsGenuine(t, Puts(Listing(t.rows, order)))
  {
    if order != [] {
      var l := Listing(t.rows, order);
      assert forall k <- order[1..] :: k in order;
      ListingPutsGenuine(ok, t, order[1..]);
      RowIsGenuine(ok, t, order[0]);
      assert l[0] == (order[0], t.rows[order[0]]) && l[1..] == Listing(t.rows, order[1..]);
    }
  }

  lemma OnePutGenuine(ok: Acceptor, t: Table, key: string)
    requires Sound(ok, t) && key in t.rows
    ensures CommandsGenuine(t, Puts([(key, t.rows[key])]))
  {
    RowIsGenuine(ok, t, key);
    assert Puts([(key, t.rows[key])][1..]) == [];
  }

  lemma ApplyKeepsGenuine(t: Table, h: Hashes, c: Command)
    requires HashesGenuine(t, h) && (c.Put? ==> Genuine(t, c.e) && Belongs(c.hash, c.e))
    ensures HashesGenuine(t, Apply(h, c))
  {
  }

  /** After a transaction: the table has moved on, and a stored row waits to be written to the cache. */
  lemma TransactionKeepsInv(ok: Acceptor, s: System, t: Table, key: string, reply: Reply)
    requires Inv(ok, s) && Extends(s.table, t) && Sound(ok, t)
    requires reply.Stored? ==> key in t.rows && t.rows[key] == reply.row
    ensures Inv(ok, s.(table := t, jobs := if reply.Stored? then s.jobs + [Writing(Puts([(key, reply.row)]))] else s.jobs))
  {
    InvStays(ok, s, t);
    if reply.Stored? {
      OnePutGenuine(ok, t, key);
      AppendJob(ok, s.(table := t), Writing(Puts([(key, reply.row)])));
    }
  }

  lemma CommitKeepsInv(ok: Acceptor, f: Formats, s: System, i: nat)
    requires Inv(ok, s) && i < |s.jobs| && s.jobs[i].Checked?
    ensures Inv(ok, Step(f, s, Commit(i)))
  {
    var job := s.jobs[i];
    assert JobSound(ok, s.table, job);
    var (t, reply) := UpdateRow(s.table, job.key, job.change);
    UpdateKeepsSound(ok, s.table, job.key, job.change);
    UpdateExtends(s.table, job.key, job.change);
    var r := s.(jobs := Without(s.jobs, i));
    RemoveJob(ok, s, i);
    TransactionKeepsInv(ok, r, t, job.key, reply);
    assert Step(f, s, Commit(i)) ==
      r.(table := t, jobs := if reply.Stored? then r.jobs + [Writing(Puts([(job.key, reply.row)]))] else r.jobs);
  }

  lemma CreateKeepsInv(ok: Acceptor, f: Formats, s: System, key: string, row: Row)
    requires Inv(ok, s) && ok(row.spec, row.value) && ok(row.spec, row.spec.defaultValue)
    ensures Inv(ok, Step(f, s, Create(key, row)))
  {
    var (t, reply) := CreateRow(s.table, key, row);
    CreateKeepsSound(ok, s.table, key, row);
    CreateExtends(s.table, key, row);
    TransactionKeepsInv(ok, s, t, key, reply);
  }

  lemma DeliveryKeepsInv(ok: Acceptor, f: Formats, s: System, a: Action, i: nat)
    requires Inv(ok, s) && (a == Deliver(i) || a == Lose(i))
    ensures Inv(ok, Step(f, s, a))
  {
    if i < |s.jobs| && s.jobs[i].Writing? && s.jobs[i].cmds != [] {
      var cmds := s.jobs[i].cmds;
      assert JobSound(ok, s.table, s.jobs[i]);
      assert forall c <- cmds[1..] :: c in cmds;
      ApplyKeepsGenuine(s.table, s.hashes, cmds[0]);
      ReplaceJob(ok, s, i, Writing(cmds[1..]));
    }
  }

  lemma SeedingKeepsInv(ok: Acceptor, f: Formats, s: System, key: string, row: Row)
    requires Inv(ok, s) && ok(row.spec, row.value) && ok(row.spec, row.spec.defaultValue)
    ensures Inv(ok, Step(f, s, Seed(key, row)))
  {
    SeedKeepsSound(ok, s.table, key, row);
    SeedExtends(s.table, key, row);
    InvStays(ok, s, SeedOne(s.table, key, row));
  }

  lemma BeginKeepsInv(f: Formats, s: System, a: Action)
    requires Inv(Acceptance(f), s) && (a.BeginUpdate? || a.BeginReset?)
    ensures Inv(Acceptance(f), Step(f, s, a))
  {
    if Step(f, s, a) != s {
      AppendJob(Acceptance(f), s, if a.BeginUpdate? then Checked(a.key, SetTo(a.value, a.expected)) else Checked(a.key, Reset));
    }
  }

  lemma SnapshotGenuine(ok: Acceptor, t: Table, order: seq<string>)
    requires Sound(ok, t) && forall k <- order :: k in t.rows
    ensures CommandsGenuine(t, Snapshot(Listing(t.rows, order)))
  {
    ListingPutsGenuine(ok, t, order);
  }

  lemma SyncKeepsInv(ok: Acceptor, f: Formats, s: System, order: seq<string>)
    requires Inv(ok, s)
    ensures Inv(ok, Step(f, s, BeginSync(order)))
  {
    if Lists(s.table.rows, order) {
      SnapshotGenuine(ok, s.table, order);
      AppendJob(ok, s, Writing(Snapshot(Listing(s.table.rows, order))));
    }
  }

  lemma RefreshKeepsInv(ok: Acceptor, f: Formats, s: System)
    requires Inv(ok, s)
    ensures Inv(ok, Step(f, s, Refresh))
  {
  }

  /** Every step of every request, of the synchroniser and of the reader keeps the invariant. */
  lemma StepKeepsInv(f: Formats, s: System, a: Action)
    requires Inv(Acceptance(f), s) && Legal(f, a)
    ensures Inv(Acceptance(f), Step(f, s, a))
  {
    var ok := Acceptance(f);
    match a
    case Seed(key, row) => SeedingKeepsInv(ok, f, s, key, row);
    case Create(key, row) =>
      if ok(row.spec, row.value) && ok(row.spec, row.spec.defaultValue) { CreateKeepsInv(ok, f, s, key, row); }
    case BeginUpdate(_, _, _) => BeginKeepsInv(f, s, a);
    case BeginReset(_) => BeginKeepsInv(f, s, a);
    case Commit(i) => if i < |s.jobs| && s.jobs[i].Checked? { CommitKeepsInv(ok, f, s, i); }
    case BeginSync(order) => SyncKeepsInv(ok, f, s, order);
    case Deliver(i) => DeliveryKeepsInv(ok, f, s, a, i);
    case Lose(i) => DeliveryKeepsInv(ok, f, s, a, i);
    case Abandon(i) => if i < |s.jobs| { RemoveJob(ok, s, i); }
    case Refresh => RefreshKeepsInv(ok, f, s);
  }

  lemma {:induction false} RunKeepsInv(f: Formats, actions: seq<Action>)
    requires forall a <- actions :: Legal(f, a)
    ensures Inv(Acceptance(f), Run(f, actions))
  {
    if actions != [] {
      RunKeepsInv(f, actions[..|actions| - 1]);
      StepKeepsInv(f, Run(f, actions[..|actions| - 1]), actions[|actions| - 1]);
    }
  }

  // ---------------------------------------------------------------- what readers see

  /**
   * However the steps interleave and fail: whatever any hash holds for a key is a value that was committed for
   * it, no newer than the row, acceptable to the row, and filed under the row's scope.
   */
  lemma CachedIsCommitted(f: Formats, actions: seq<Action>, name: HashName, key: string)
    requires forall a <- actions :: Legal(f, a)
    requires key in GetAll(Run(f, actions).hashes, name)
    ensures var t, e := Run(f, actions).table, GetAll(Run(f, actions).hashes, name)[key];
            && key in t.rows && Committed(t, key, e.version, e.value)
            && e.version <= t.rows[key].version && Accepts(f, t.rows[key].spec, e.value)
            && (name == AllHash || name == HashOf(t.rows[key].spec.scope))
  {
    RunKeepsInv(f, actions);
    var t, e := Run(f, actions).table, GetAll(Run(f, actions).hashes, name)[key];
    assert EntriesGenuine(t, Run(f, actions).hashes[name]);
    CommittedIsOldAndAccepted(Acceptance(f), t, key, e.version, e.value);
  }

  /** The same holds of whatever the reader answers with. */
  lemma ReadIsCommitted(f: Formats, actions: seq<Action>, key: string)
    requires forall a <- actions :: Legal(f, a)
    requires key in Run(f, actions).provider
    ensures var t, e := Run(f, actions).table, Run(f, actions).provider[key];
            && key in t.rows && Committed(t, key, e.version, e.value)
            && e.version <= t.rows[key].version && Accepts(f, t.rows[key].spec, e.value)
  {
    RunKeepsInv(f, actions);
    var t, e := Run(f, actions).table, Run(f, actions).provider[key];
    assert EntriesGenuine(t, Run(f, actions).provider);
    CommittedIsOldAndAccepted(Acceptance(f), t, key, e.version, e.value);
  }

  /** An integer setting read through the reader lies within the bounds its row declares. */
  lemma ReadIntsAreWithinBounds(f: Formats, actions: seq<Action>, key: string)
    requires forall a <- actions :: Legal(f, a)
    requires key in Run(f, actions).provider && Run(f, actions).provider[key].kind == Int
    ensures var t, n := Run(f, actions).table, ParseInt(Run(f, actions).provider[key].value);
            n.Some? && key in t.rows && WithinBounds(t.rows[key].spec.rules, n.value)
  {
    RunKeepsInv(f, actions);
    ReadIsCommitted(f, actions, key);
    assert Genuine(Run(f, actions).table, Run(f, actions).provider[key]);
  }

  /** Each key's audits form a gap-free chain that ends at the live row, at every point of every run. */
  lemma AuditsFormChains(f: Formats, actions: seq<Action>, key: string)
    requires forall a <- actions :: Legal(f, a)
    ensures var t := Run(f, actions).table;
            if key in t.rows then Chain(SeedOf(t, key), AuditsOf(t.audits, key), t.rows[key]) else AuditsOf(t.audits, key) == []
  {
    RunKeepsInv(f, actions);
    var t := Run(f, actions).table;
    if key in t.rows {
      assert RowSound(Acceptance(f), SeedOf(t, key), AuditsOf(t.audits, key), t.rows[key]);
    } else {
      NoAuditsForAbsentKey(Acceptance(f), t, key);
    }
  }

  // ---------------------------------------------------------------- optimistic locking

  lemma {:induction false} SeededKeysHaveRows(f: Formats, actions: seq<Action>)
    ensures SeedsHaveRows(Run(f, actions).table)
  {
    if actions != [] {
      SeededKeysHaveRows(f, actions[..|actions| - 1]);
      TableExtends(f, Run(f, actions[..|actions| - 1]), actions[|actions| - 1]);
    }
  }

  lemma {:induction false} RunExtends(f: Formats, actions: seq<Action>, i: nat)
    requires i <= |actions|
    ensures Extends(Run(f, actions[..i]).table, Run(f, actions).table)
    decreases |actions|
  {
    if i < |actions| {
      var before := actions[..|actions| - 1];
      assert before[..i] == actions[..i];
      RunExtends(f, before, i);
      SeededKeysHaveRows(f, before);
      TableExtends(f, Run(f, before), actions[|actions| - 1]);
    } else {
      assert actions[..i] == actions;
    }
  }

  /** Step i stores an update of `key` that expected version `expected`. */
  predicate StoresAt(f: Formats, actions: seq<Action>, i: nat, key: string, expected: int)
    requires i < |actions|
  {
    var s := Run(f, actions[..i]);
    && actions[i].Commit? && actions[i].job < |s.jobs|
    && s.jobs[actions[i].job].Checked? && s.jobs[actions[i].job].key == key
    && s.jobs[actions[i].job].change.SetTo? && s.jobs[actions[i].job].change.expected == expected
    && UpdateRow(s.table, key, s.jobs[actions[i].job].change).1.Stored?
  }

  /** Of all updates that expect one version of a key, at most one is ever stored. */
  lemma AtMostOneUpdatePerVersion(f: Formats, actions: seq<Action>, i: nat, j: nat, key: string, expected: int)
    requires i < |actions| && j < |actions|
    requires StoresAt(f, actions, i, key, expected) && StoresAt(f, actions, j, key, expected)
    ensures i == j
  {
    if i < j {
      LaterVersionIsNewer(f, actions, i, j, key, expected);
    } else if j < i {
      LaterVersionIsNewer(f, actions, j, i, key, expected);
    }
  }

  lemma LaterVersionIsNewer(f: Formats, actions: seq<Action>, i: nat, j: nat, key: string, expected: int)
    requires i < j < |actions| && StoresAt(f, actions, i, key, expected)
    ensures key in Run(f, actions[..j]).table.rows && Run(f, actions[..j]).table.rows[key].version > expected
  {
    assert actions[..i + 1][..i] == actions[..i] && actions[..i + 1][i] == actions[i];
    assert Run(f, actions[..i + 1]) == Step(f, Run(f, actions[..i]), actions[i]);
    assert actions[..j][..i + 1] == actions[..i + 1];
    RunExtends(f, actions[..j], i + 1);
  }

  // ---------------------------------------------------------------- resynchronisation

  lemma {:induction false} ListingEntries(rows: map<string, Row>, order: seq<string>, key: string)
    requires forall k <- order :: k in rows
    ensures key in Entries(Listing(rows, order), AllHash) <==> key in order
    ensures key in order ==> Entries(Listing(rows, order), AllHash)[key] == Wrap((key, rows[key]))
  {
    if order != [] {
      var l := Listing(rows, order);
      assert forall k <- order[1..] :: k in order;
      assert l[0] == (order[0], rows[order[0]]) && l[1..] == Listing(rows, order[1..]);
      ListingEntries(rows, order[1..], key);
    }
  }

  /** A synchronisation that nothing disturbs leaves the main hash equal to the table, whatever it held before. */
  lemma SyncRestoresTheTable(h: Hashes, rows: map<string, Row>, order: seq<string>)
    requires Lists(rows, order)
    ensures GetAll(ApplyAll(h, Snapshot(Listing(rows, order))), AllHash) == TableEntries(rows)
  {
    SnapshotIsExact(h, Listing(rows, order));
    forall key { ListingEntries(rows, order, key); }
  }

  // ---------------------------------------------------------------- freshness

  predicate Delivers(s: System, a: Action) {
    a.Deliver? && a.job < |s.jobs| && s.jobs[a.job].Writing? && s.jobs[a.job].cmds != []
  }

  /** The commands that reached the store, in the order they did. */
  function Delivered(f: Formats, actions: seq<Action>): seq<Command> {
    if actions == [] then [] else
      var s, a := Run(f, actions[..|actions| - 1]), actions[|actions| - 1];
      Delivered(f, actions[..|actions| - 1]) + if Delivers(s, a) then [s.jobs[a.job].cmds[0]] else []
  }

  /** The version that the last put of a key left in the main hash, unless the hash was cleared since. */
  function LastPut(cmds: seq<Command>, key: string): Option<int> {
    if cmds == [] then None else
      match cmds[|cmds| - 1]
      case Put(name, e) => if name == AllHash && e.key == key then Some(e.version) else LastPut(cmds[..|cmds| - 1], key)
      case Delete(names) => if AllHash in names then None else LastPut(cmds[..|cmds| - 1], key)
  }

  function CachedVersion(h: Hashes, key: string): Option<int> {
    if key in GetAll(h, AllHash) then Some(GetAll(h, AllHash)[key].version) else None
  }

  /** What a command makes of the cached version of a key. */
  function VersionAfter(was: Option<int>, c: Command, key: string): Option<int> {
    match c
    case Put(name, e) => if name == AllHash && e.key == key then Some(e.version) else was
    case Delete(names) => if AllHash in names then None else was
  }

  lemma ApplyVersion(h: Hashes, c: Command, key: string)
    ensures CachedVersion(Apply(h, c), key) == VersionAfter(CachedVersion(h, key), c, key)
  {
  }

  lemma LastPutAppend(cmds: seq<Command>, c: Command, key: string)
    ensures LastPut(cmds + [c], key) == VersionAfter(LastPut(cmds, key), c, key)
  {
    assert (cmds + [c])[..|cmds|] == cmds;
  }

  lemma DeliveryStep(f: Formats, s: System, a: Action)
    ensures Step(f, s, a).hashes == if Delivers(s, a) then Apply(s.hashes, s.jobs[a.job].cmds[0]) else s.hashes
  {
  }

  lemma {:induction false} CacheFollowsDeliveries(f: Formats, actions: seq<Action>, key: string)
    ensures CachedVersion(Run(f, actions).hashes, key) == LastPut(Delivered(f, actions), key)
    decreases |actions|
  {
    if actions != [] {
      var before, a := actions[..|actions| - 1], actions[|actions| - 1];
      var s := Run(f, before);
      CacheFollowsDeliveries(f, before, key);
      DeliveryStep(f, s, a);
      if Delivers(s, a) {
        ApplyVersion(s.hashes, s.jobs[a.job].cmds[0], key);
        LastPutAppend(Delivered(f, before), s.jobs[a.job].cmds[0], key);
      } else {
        assert Delivered(f, before) + [] == Delivered(f, before);
      }
    }
  }

  lemma NewestIsTheRow(ok: Acceptor, t: Table, e: Envelope)
    requires Sound(ok, t) && Genuine(t, e) && e.version == t.rows[e.key].version
    ensures e == Wrap((e.key, t.rows[e.key]))
  {
    RowIsGenuine(ok, t, e.key);
    VersionNamesValue(ok, t, e.key, e.version, e.value, t.rows[e.key].value);
  }

  /** The entry of every row. */
  function TableEntries(rows: map<string, Row>): map<string, Envelope> { map key | key in rows :: Wrap((key, rows[key])) }

  predicate IsFresh(main: map<string, Envelope>, rows: map<string, Row>, key: string) {
    key in rows ==> key in main && main[key] == Wrap((key, rows[key]))
  }

  lemma FreshIffVersionsMatch(ok: Acceptor, t: Table, h: Hashes, key: string)
    requires Sound(ok, t) && EntriesGenuine(t, GetAll(h, AllHash)) && key in t.rows
    ensures IsFresh(GetAll(h, AllHash), t.rows, key) <==> CachedVersion(h, key) == Some(t.rows[key].version)
  {
    if CachedVersion(h, key) == Some(t.rows[key].version) {
      NewestIsTheRow(ok, t, GetAll(h, AllHash)[key]);
    }
  }

  lemma EqualIffAllFresh(main: map<string, Envelope>, rows: map<string, Row>)
    requires forall key <- main :: key in rows
    ensures main == TableEntries(rows) <==> forall key <- rows :: IsFresh(main, rows, key)
  {
    if forall key <- rows :: IsFresh(main, rows, key) {
      forall key | key in rows ensures key in main && main[key] == Wrap((key, rows[key])) { assert IsFresh(main, rows, key); }
    } else {
      var key :| key in rows && !IsFresh(main, rows, key);
      assert key in TableEntries(rows);
    }
  }

  /** At every point of every run the main hash equals the table exactly when, for each row, the last put of its
      key that reached the store carried its newest version. */
  lemma CacheIsFreshExactly(f: Formats, actions: seq<Action>)
    requires forall a <- actions :: Legal(f, a)
    ensures var s := Run(f, actions);
            GetAll(s.hashes, AllHash) == TableEntries(s.table.rows)
            <==> forall key <- s.table.rows :: LastPut(Delivered(f, actions), key) == Some(s.table.rows[key].version)
  {
    RunKeepsInv(f, actions);
    var s := Run(f, actions);
    forall key ensures CachedVersion(s.hashes, key) == LastPut(Delivered(f, actions), key) {
      CacheFollowsDeliveries(f, actions, key);
    }
    forall key | key in s.table.rows
      ensures IsFresh(GetAll(s.hashes, AllHash), s.table.rows, key) <==> CachedVersion(s.hashes, key) == Some(s.table.rows[key].version)
    {
      FreshIffVersionsMatch(Acceptance(f), s.table, s.hashes, key);
    }
    EqualIffAllFresh(GetAll(s.hashes, AllHash), s.table.rows);
  }

  lemma RunAppend(f: Formats, actions: seq<Action>, a: Action)
    ensures Run(f, actions + [a]) == Step(f, Run(f, actions), a)
  {
    assert (actions + [a])[..|actions|] == actions;
  }

  /** Every step is legal, and no write is lost or given up. */
  predicate Undisturbed(f: Formats, actions: seq<Action>) { forall a <- actions :: Legal(f, a) && !a.Lose? && !a.Abandon? }

  /** The row of the key, the requests under way, and the version of the key that the main hash holds. */
  predicate Shows(s: System, key: string, row: Row, jobs: seq<Job>, cached: Option<int>) {
    key in s.table.rows && s.table.rows[key] == row && s.jobs == jobs && CachedVersion(s.hashes, key) == cached
  }

  function WriteOf(key: string, row: Row): Job { Writing(Puts([(key, row)])) }

  lemma BeginStep(f: Formats, s: System, key: string, row: Row, jobs: seq<Job>, cached: Option<int>, value: string)
    requires Shows(s, key, row, jobs, cached) && row.version > 0 && Accepts(f, row.spec, value)
    ensures Shows(Step(f, s, BeginUpdate(key, value, row.version)), key, row, jobs + [Checked(key, SetTo(value, row.version))], cached)
  {
  }

  lemma CommitStep(f: Formats, s: System, key: string, row: Row, jobs: seq<Job>, cached: Option<int>, value: string)
    requires Shows(s, key, row, jobs + [Checked(key, SetTo(value, row.version))], cached) && row.editable
    ensures var next := row.(value := value, version := row.version + 1);
            Shows(Step(f, s, Commit(|jobs|)), key, next, jobs + [WriteOf(key, next)], cached)
  {
    assert Without(s.jobs, |jobs|) == jobs;
  }

  lemma PutsOfOne(key: string, row: Row)
    ensures Puts([(key, row)]) == [Put(AllHash, Wrap((key, row))), Put(HashOf(row.spec.scope), Wrap((key, row)))]
  {
    assert [(key, row)][1..] == [];
  }

  /** Delivering both commands of one write. */
  lemma WriteSteps(f: Formats, s: System, key: string, row: Row, jobs: seq<Job>, cached: Option<int>, i: nat, r: Row)
    requires Shows(s, key, row, jobs, cached) && i < |jobs| && jobs[i] == WriteOf(key, r)
    ensures Shows(Step(f, Step(f, s, Deliver(i)), Deliver(i)), key, row, jobs[i := Writing([])], Some(r.version))
  {
    PutsOfOne(key, r);
    var first := Step(f, s, Deliver(i));
    ApplyVersion(s.hashes, Puts([(key, r)])[0], key);
    assert first.jobs[i] == Writing([Put(HashOf(r.spec.scope), Wrap((key, r)))]);
    ApplyVersion(first.hashes, Puts([(key, r)])[1], key);
    assert first.jobs[i].cmds[1..] == [];
    assert jobs[i := first.jobs[i]][i := Writing([])] == jobs[i := Writing([])];
  }

  lemma CreateStep(f: Formats, key: string, row: Row)
    requires Accepts(f, row.spec, row.value) && Accepts(f, row.spec, row.spec.defaultValue)
    ensures var r := row.(version := 1, editable := true); Shows(Step(f, Start(), Create(key, row)), key, r, [WriteOf(key, r)], None)
  {
  }

  /** A created and cached row that two updates have changed, none of them cached yet. */
  lemma TwoUpdatesWaiting(f: Formats, key: string, row: Row, x: string, y: string) returns (run: seq<Action>)
    requires row.spec.kind == Text && row.spec.rules.allowed.None?
    ensures Undisturbed(f, run)
    ensures var r1 := row.(version := 1, editable := true);
            var r2, r3 := r1.(value := x, version := 2), r1.(value := y, version := 3);
            Shows(Run(f, run), key, r3, [Writing([]), WriteOf(key, r2), WriteOf(key, r3)], Some(1))
  {
    var r1 := row.(version := 1, editable := true);
    run := [Create(key, row)];
    assert Run(f, run) == Step(f, Start(), run[0]) by { assert run[..0] == []; }
    CreateStep(f, key, row);
    run := Written(f, run, key, r1, [WriteOf(key, r1)], None, 0, r1);
    run := Updated(f, run, key, r1, [Writing([])], Some(1), x);
    run := Updated(f, run, key, r1.(value := x, version := 2), [Writing([]), WriteOf(key, r1.(value := x, version := 2))], Some(1), y);
  }

  /** Nothing is lost and every write is done, and still the cache keeps the older of two updates: the later one
      was written first. */
  lemma DrainedCacheCanBeStale(f: Formats, key: string, row: Row, x: string, y: string) returns (actions: seq<Action>)
    requires row.spec.kind == Text && row.spec.rules.allowed.None?
    ensures Undisturbed(f, actions)
    ensures var s := Run(f, actions);
            && (forall job <- s.jobs :: job == Writing([]))
            && key in s.table.rows && s.table.rows[key].version == 3 && CachedVersion(s.hashes, key) == Some(2)
  {
    var done, r1 := Writing([]), row.(version := 1, editable := true);
    var r2, r3 := r1.(value := x, version := 2), r1.(value := y, version := 3);
    var waiting := TwoUpdatesWaiting(f, key, row, x, y);
    var later := Written(f, waiting, key, r3, [done, WriteOf(key, r2), WriteOf(key, r3)], Some(1), 2, r3);
    actions := Written(f, later, key, r3, [done, WriteOf(key, r2), done], Some(3), 1, r2);
    assert [done, WriteOf(key, r2), done][1 := done] == [done, done, done];
  }

  /** The run continued by an update that is validated and committed at once. */
  lemma Updated(f: Formats, run: seq<Action>, key: string, row: Row, jobs: seq<Job>, cached: Option<int>, value: string)
    returns (next: seq<Action>)
    requires Shows(Run(f, run), key, row, jobs, cached) && row.version > 0 && row.editable && Accepts(f, row.spec, value)
    ensures next == run + [BeginUpdate(key, value, row.version)] + [Commit(|jobs|)]
    ensures Undisturbed(f, run) ==> Undisturbed(f, next)
    ensures var newer := row.(value := value, version := row.version + 1);
            Shows(Run(f, next), key, newer, jobs + [WriteOf(key, newer)], cached)
  {
    var begun := run + [BeginUpdate(key, value, row.version)];
    next := begun + [Commit(|jobs|)];
    RunAppend(f, run, BeginUpdate(key, value, row.version));
    BeginStep(f, Run(f, run), key, row, jobs, cached, value);
    RunAppend(f, begun, Commit(|jobs|));
    CommitStep(f, Run(f, begun), key, row, jobs, cached, value);
  }

  /** The run continued by both commands of one write. */
  lemma Written(f: Formats, run: seq<Action>, key: string, row: Row, jobs: seq<Job>, cached: Option<int>, i: nat, r: Row)
    returns (next: seq<Action>)
    requires Shows(Run(f, run), key, row, jobs, cached) && i < |jobs| && jobs[i] == WriteOf(key, r)
    ensures next == run + [Deliver(i)] + [Deliver(i)]
    ensures Undisturbed(f, run) ==> Undisturbed(f, next)
    ensures Shows(Run(f, next), key, row, jobs[i := Writing([])], Some(r.version))
  {
    var begun := run + [Deliver(i)];
    next := begun + [Deliver(i)];
    RunAppend(f, run, Deliver(i));
    RunAppend(f, begun, Deliver(i));
    WriteSteps(f, Run(f, run), key, row, jobs, cached, i, r);
  }

  // ---------------------------------------------------------------- which value a row holds

  /** The request under way in this job, if it is one for the key. */
  function Requested(s: System, job: nat, key: string): Option<Change> {
    if job < |s.jobs| && s.jobs[job].Checked? && s.jobs[job].key == key then Some(s.jobs[job].change) else None
  }

  /** The request of the key that this step stores: the version of the row moves on. */
  function StoredBy(f: Formats, s: System, a: Action, key: string): Option<Change> {
    var t := Step(f, s, a);
    if a.Commit? && key in s.table.rows && key in t.table.rows && t.table.rows[key].version != s.table.rows[key].version
    then Requested(s, a.job, key) else None
  }

  /** The last request of the key that the run stored. */
  function LastStored(f: Formats, actions: seq<Action>, key: string): Option<Change> {
    if actions == [] then None else
      var before, a := actions[..|actions| - 1], actions[|actions| - 1];
      var now := StoredBy(f, Run(f, before), a, key);
      if now.Some? then now else LastStored(f, before, key)
  }

  /** A reset leaves the default in the row, an update the value asked for, one version after the one expected. */
  predicate Leaves(change: Change, row: Row) {
    match change
    case Reset => row.value == row.spec.defaultValue
    case SetTo(value, expected) => row.value == value && row.version == expected + 1
  }

  predicate Begins(a: Action, key: string, change: Change) {
    match change
    case Reset => a == BeginReset(key)
    case SetTo(value, expected) => a == BeginUpdate(key, value, expected)
  }

  predicate PutsThere(a: Action, key: string, row: Row) {
    (a.Seed? || a.Create?) && a.key == key && a.row.value == row.value && a.row.spec == row.spec
  }

  lemma StepAndRow(f: Formats, s: System, a: Action, key: string)
    ensures var t := Step(f, s, a).table;
            && (key in s.table.rows ==> key in t.rows)
            && (key !in s.table.rows && key in t.rows ==> PutsThere(a, key, t.rows[key]))
            && (key in s.table.rows && StoredBy(f, s, a, key).None? ==> t.rows[key] == s.table.rows[key])
            && (StoredBy(f, s, a, key).Some? ==> Leaves(StoredBy(f, s, a, key).value, t.rows[key]))
  {
  }

  lemma StepAndRequests(f: Formats, s: System, a: Action, job: nat, key: string)
    ensures var r := Requested(Step(f, s, a), job, key);
            r.Some? ==> Begins(a, key, r.value) || exists j: nat :: j <= job + 1 && Requested(s, j, key) == r
  {
    var t := Step(f, s, a);
    if Requested(t, job, key).Some? && !Begins(a, key, Requested(t, job, key).value) {
      assert Requested(s, job, key) == Requested(t, job, key) || Requested(s, job + 1, key) == Requested(t, job, key);
    }
  }

  ghost predicate WasBegun(actions: seq<Action>, key: string, change: Change) { exists a <- actions :: Begins(a, key, change) }

  ghost predicate WasPutThere(actions: seq<Action>, key: string, row: Row) { exists a <- actions :: PutsThere(a, key, row) }

  lemma {:induction false} RequestsWereBegun(f: Formats, actions: seq<Action>, job: nat, key: string)
    requires Requested(Run(f, actions), job, key).Some?
    ensures WasBegun(actions, key, Requested(Run(f, actions), job, key).value)
    decreases |actions|
  {
    var r := Requested(Run(f, actions), job, key);
    if actions != [] {
      var before, a := actions[..|actions| - 1], actions[|actions| - 1];
      StepAndRequests(f, Run(f, before), a, job, key);
      if !Begins(a, key, r.value) {
        var j: nat :| j <= job + 1 && Requested(Run(f, before), j, key) == r;
        RequestsWereBegun(f, before, j, key);
      }
    }
  }

  /** The row is what the last stored request asked for, or if there is none what the key started with. */
  ghost predicate HoldsLast(actions: seq<Action>, key: string, row: Row, last: Option<Change>) {
    match last
    case Some(change) => Leaves(change, row) && WasBegun(actions, key, change)
    case None => WasPutThere(actions, key, row)
  }

  lemma HoldsLastStays(actions: seq<Action>, a: Action, key: string, row: Row, last: Option<Change>)
    requires HoldsLast(actions, key, row, last)
    ensures HoldsLast(actions + [a], key, row, last)
  {
  }

  /** After every run a row holds what the last stored request asked for, or if there is none what it started with. */
  lemma {:induction false} RowHoldsLastStored(f: Formats, actions: seq<Action>, key: string)
    requires key in Run(f, actions).table.rows
    ensures HoldsLast(actions, key, Run(f, actions).table.rows[key], LastStored(f, actions, key))
    decreases |actions|
  {
    if actions != [] {
      var before, a := actions[..|actions| - 1], actions[|actions| - 1];
      var row, now := Run(f, actions).table.rows[key], StoredBy(f, Run(f, before), a, key);
      StepAndRow(f, Run(f, before), a, key);
      if now.Some? {
        RequestsWereBegun(f, before, a.job, key);
        HoldsLastStays(before, a, key, row, now);
      } else if key in Run(f, before).table.rows {
        RowHoldsLastStored(f, before, key);
        HoldsLastStays(before, a, key, row, LastStored(f, before, key));
      } else {
        NothingStoredWithoutRow(f, before, key);
        assert a in actions;
      }
      assert before + [a] == actions;
    }
  }

  lemma {:induction false} NothingStoredWithoutRow(f: Formats, actions: seq<Action>, key: string)
    requires key !in Run(f, actions).table.rows
    ensures LastStored(f, actions, key).None?
    decreases |actions|
  {
    if actions != [] {
      var before, a := actions[..|actions| - 1], actions[|actions| - 1];
      StepAndRow(f, Run(f, before), a, key);
      NothingStoredWithoutRow(f, before, key);
    }
  }
}
