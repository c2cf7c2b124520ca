/** The configuration table with its audit log: transactions, optimistic locking, and the version chain. */
module ConfigStore {
  import opened Keyspace
  import opened ConfigRules

  datatype Audit = Audit(key: string, oldValue: string, newValue: string, version: int)

  /** The rows by key, every audit record in commit order, and the rows that seeding put there without one. */
  datatype Table = Table(rows: map<string, Row>, audits: seq<Audit>, seeded: map<string, Row>)

  datatype Reply = Stored(row: Row) | NotFound | VersionConflict | NotEditable | AlreadyExists

  /** The update asked for: a new value under an expected version, or the default whatever the version. */
  datatype Change = SetTo(value: string, expected: int) | Reset

  // ---------------------------------------------------------------- the transactions as functions

  /** A default row is inserted only where its key is free. */
  function SeedOne(t: Table, key: string, row: Row): Table {
    if key in t.rows then t else
      var r := row.(version := if row.version == 0 then 1 else row.version, editable := true);
      t.(rows := t.rows[key := r], seeded := t.seeded[key := r])
  }

  function CreateRow(t: Table, key: string, row: Row): (Table, Reply) {
    if key in t.rows then (t, AlreadyExists) else
      var r := row.(version := 1, editable := true);
      (t.(rows := t.rows[key := r], audits := t.audits + [Audit(key, "", r.value, 1)]), Stored(r))
  }

  function UpdateRow(t: Table, key: string, change: Change): (Table, Reply) {
    if key !in t.rows then (t, NotFound)
    else if !t.rows[key].editable then (t, NotEditable)
    else if change.SetTo? && change.expected != t.rows[key].version then (t, VersionConflict)
    else
      var was := t.rows[key];
      var r := was.(value := if change.Reset? then was.spec.defaultValue else change.value, version := was.version + 1);
      (t.(rows := t.rows[key := r], audits := t.audits + [Audit(key, was.value, r.value, r.version)]), Stored(r))
  }

  // ---------------------------------------------------------------- the repository

  class Repository {
    var rows: map<string, Row>
    var audits: seq<Audit>
    ghost var seeded: map<string, Row>

    constructor ()
      ensures Contents() == Table(map[], [], map[])
    {
      rows, audits, seeded := map[], [], map[];
    }

    ghost function Contents(): Table reads this { Table(rows, audits, seeded) }

    method Get(key: string) returns (found: Option<Row>)
      ensures found == if key in Contents().rows then Some(Contents().rows[key]) else None
    {
      found := if key in rows then Some(rows[key]) else None;
    }

    /** Inserts a batch of defaults, each only if its key is still free. */
    method SeedDefaults(configs: seq<(string, Row)>)
      modifies this
      ensures Contents() == SeedAll(old(Contents()), configs)
    {
      for i := 0 to |configs|
        invariant SeedAll(Contents(), configs[i..]) == SeedAll(old(Contents()), configs)
      {
        var (key, row) := configs[i];
        assert configs[i..][0] == configs[i] && configs[i..][1..] == configs[i + 1..];
        if key !in rows {
          var r := row.(version := if row.version == 0 then 1 else row.version, editable := true);
          rows, seeded := rows[key := r], seeded[key := r];
        }
      }
    }

    method Create(key: string, row: Row) returns (reply: Reply)
      modifies this
      ensures (Contents(), reply) == CreateRow(old(Contents()), key, row)
      ensures reply == AlreadyExists <==> key in old(rows)
      ensures reply == AlreadyExists ==> unchanged(this)
      ensures reply != AlreadyExists ==>
                && reply == Stored(Row(row.spec, row.value, true, 1)) && rows == old(rows)[key := Row(row.spec, row.value, true, 1)]
                && audits == old(audits) + [Audit(key, "", row.value, 1)] && seeded == old(seeded)
    {
      if key in rows { return AlreadyExists; }
      var config := row.(version := 1, editable := true);
      rows := rows[key := config];
      audits := audits + [Audit(key, "", config.value, config.version)];
      return Stored(config);
    }

    method Update(key: string, change: Change) returns (reply: Reply)
      modifies this
      ensures (Contents(), reply) == UpdateRow(old(Contents()), key, change)
      ensures reply == NotFound <==> key !in old(rows)
      ensures reply == NotEditable <==> key in old(rows) && !old(rows)[key].editable
      ensures reply == VersionConflict <==>
                key in old(rows) && old(rows)[key].editable && change.SetTo? && change.expected != old(rows)[key].version
      ensures reply != AlreadyExists && (reply.Stored? || unchanged(this))
      ensures reply.Stored? && change.Reset? ==> reply.row.value == old(rows)[key].spec.defaultValue
      ensures reply.Stored? && change.SetTo? ==> reply.row.value == change.value && old(rows)[key].version == change.expected
      ensures reply.Stored? ==>
                && reply.row.spec == old(rows)[key].spec && reply.row.editable && reply.row.version == old(rows)[key].version + 1
                && rows == old(rows)[key := reply.row] && seeded == old(seeded)
                && audits == old(audits) + [Audit(key, old(rows)[key].value, reply.row.value, reply.row.version)]
    {
      if key !in rows { return NotFound; }
      var config := rows[key];
      if !config.editable { return NotEditable; }
      if change.SetTo? && change.expected != config.version { return VersionConflict; }
      var oldValue := config.value;
      config := config.(value := if change.Reset? then config.spec.defaultValue else change.value);
      config := config.(version := config.version + 1);
      rows := rows[key := config];
      audits := audits + [Audit(key, oldValue, config.value, config.version)];
      return Stored(config);
    }
  }

  function SeedAll(t: Table, configs: seq<(string, Row)>): Table
    decreases |configs|
  {
    if configs == [] then t else SeedAll(SeedOne(t, configs[0].0, configs[0].1), configs[1..])
  }

  /** Seeding keeps every row there was, and adds for each other key that is named the first row named for it. */
  lemma {:induction false} SeedingAddsFirsts(t: Table, configs: seq<(string, Row)>, key: string)
    ensures var u := SeedAll(t, configs);
            && u.audits == t.audits
            && (key in t.rows ==> key in u.rows && u.rows[key] == t.rows[key])
            && (key !in t.rows ==> (key in u.rows <==> FirstFor(configs, key).Some?))
            && (key !in t.rows && key in u.rows ==>
                  var r := FirstFor(configs, key).value;
                  u.rows[key] == Row(r.spec, r.value, true, if r.version == 0 then 1 else r.version))
    decreases |configs|
  {
    if configs != [] {
      SeedingAddsFirsts(SeedOne(t, configs[0].0, configs[0].1), configs[1..], key);
    }
  }

  function FirstFor(configs: seq<(string, Row)>, key: string): Option<Row> {
    if configs == [] then None else if configs[0].0 == key then Some(configs[0].1) else FirstFor(configs[1..], key)
  }

  // ---------------------------------------------------------------- the version chain

  function AuditsOf(audits: seq<Audit>, key: string): seq<Audit> {
    if audits == [] then [] else
      var last, before := audits[|audits| - 1], AuditsOf(audits[..|audits| - 1], key);
      if last.key == key then before + [last] else before
  }

  /**
   * The audits of a row form a chain without gaps: each takes the version up by one from the value the one
   * before it left, the first starts from the seeded row or from a creation, and the last left what the row holds.
   */
  ghost predicate Chain(seed: Option<Row>, audits: seq<Audit>, row: Row) {
    if audits == [] then seed.Some? && seed.value.version == row.version && seed.value.value == row.value else
      && audits[|audits| - 1].version == row.version && audits[|audits| - 1].newValue == row.value
      && (forall i | 0 < i < |audits| :: audits[i].version == audits[i - 1].version + 1 && audits[i].oldValue == audits[i - 1].newValue)
      && (if seed.Some? then audits[0].version == seed.value.version + 1 && audits[0].oldValue == seed.value.value
          else audits[0].version == 1 && audits[0].oldValue == "")
  }

  function SeedOf(t: Table, key: string): Option<Row> { if key in t.seeded then Some(t.seeded[key]) else None }

  /** Which values a row with a given specification may hold. */
  type Acceptor = (Spec, string) -> bool

  ghost predicate RowSound(ok: Acceptor, seed: Option<Row>, audits: seq<Audit>, row: Row) {
    && Chain(seed, audits, row)
    && ok(row.spec, row.value) && ok(row.spec, row.spec.defaultValue)
    && (forall a <- audits :: ok(row.spec, a.newValue))
    && (seed.Some? ==> seed.value.spec == row.spec && ok(row.spec, seed.value.value))
  }

  /** Every row ends a gap-free chain of acceptable values, and nothing is recorded for absent keys. */
  ghost predicate Sound(ok: Acceptor, t: Table) {
    && (forall key <- t.rows :: RowSound(ok, SeedOf(t, key), AuditsOf(t.audits, key), t.rows[key]))
    && (forall a <- t.audits :: a.key in t.rows)
    && SeedsHaveRows(t)
  }

  /** `value` was committed as version `version` of `key`. */
  ghost predicate Committed(t: Table, key: string, version: int, value: string) {
    || (key in t.seeded && t.seeded[key].version == version && t.seeded[key].value == value)
    || exists a :: a in t.audits && a.key == key && a.version == version && a.newValue == value
  }

  lemma AuditsOfAppend(audits: seq<Audit>, a: Audit, key: string)
    ensures AuditsOf(audits + [a], key) == if a.key == key then AuditsOf(audits, key) + [a] else AuditsOf(audits, key)
  {
    assert (audits + [a])[..|audits|] == audits;
  }

  lemma {:induction false} AuditsOfContains(audits: seq<Audit>, key: string, a: Audit)
    ensures a in AuditsOf(audits, key) <==> a in audits && a.key == key
  {
    if audits != [] {
      AuditsOfContains(audits[..|audits| - 1], key, a);
      assert audits == audits[..|audits| - 1] + [audits[|audits| - 1]];
    }
  }

  lemma NoAuditsForAbsentKey(ok: Acceptor, t: Table, key: string)
    requires Sound(ok, t) && key !in t.rows
    ensures AuditsOf(t.audits, key) == []
  {
    if AuditsOf(t.audits, key) != [] {
      AuditsOfContains(t.audits, key, AuditsOf(t.audits, key)[0]);
    }
  }

  lemma SeedKeepsSound(ok: Acceptor, t: Table, key: string, row: Row)
    requires Sound(ok, t) && ok(row.spec, row.value) && ok(row.spec, row.spec.defaultValue)
    ensures Sound(ok, SeedOne(t, key, row))
  {
    var u := SeedOne(t, key, row);
    if key !in t.rows {
      NoAuditsForAbsentKey(ok, t, key);
      forall k | k in u.rows ensures RowSound(ok, SeedOf(u, k), AuditsOf(u.audits, k), u.rows[k]) {
        if k != key { assert SeedOf(u, k) == SeedOf(t, k); }
      }
    }
  }

  lemma CreateKeepsSound(ok: Acceptor, t: Table, key: string, row: Row)
    requires Sound(ok, t) && ok(row.spec, row.value) && ok(row.spec, row.spec.defaultValue)
    ensures Sound(ok, CreateRow(t, key, row).0)
  {
    var u := CreateRow(t, key, row).0;
    if key !in t.rows {
      var a := Audit(key, "", row.value, 1);
      NoAuditsForAbsentKey(ok, t, key);
      forall k | k in u.rows ensures RowSound(ok, SeedOf(u, k), AuditsOf(u.audits, k), u.rows[k]) {
        AuditsOfAppend(t.audits, a, k);
        if k == key { CreatedRowSound(ok, u.rows[key], a); }
      }
    }
  }

  lemma CreatedRowSound(ok: Acceptor, row: Row, a: Audit)
    requires ok(row.spec, row.value) && ok(row.spec, row.spec.defaultValue)
    requires row.version == 1 == a.version && a.oldValue == "" && a.newValue == row.value
    ensures RowSound(ok, None, [a], row) && [] + [a] == [a]
  {
  }

  lemma RowSoundExtends(ok: Acceptor, seed: Option<Row>, audits: seq<Audit>, row: Row, a: Audit, next: Row)
    requires RowSound(ok, seed, audits, row) && next.spec == row.spec && ok(row.spec, next.value)
    requires a.oldValue == row.value && a.version == row.version + 1 == next.version && a.newValue == next.value
    ensures RowSound(ok, seed, audits + [a], next)
  {
  }

  lemma UpdateKeepsSound(ok: Acceptor, t: Table, key: string, change: Change)
    requires Sound(ok, t) && (change.SetTo? && key in t.rows ==> ok(t.rows[key].spec, change.value))
    ensures Sound(ok, UpdateRow(t, key, change).0)
  {
    var (u, reply) := UpdateRow(t, key, change);
    if reply.Stored? {
      var a := Audit(key, t.rows[key].value, reply.row.value, reply.row.version);
      forall k | k in u.rows ensures RowSound(ok, SeedOf(u, k), AuditsOf(u.audits, k), u.rows[k]) {
        AuditsOfAppend(t.audits, a, k);
        if k == key { RowSoundExtends(ok, SeedOf(t, k), AuditsOf(t.audits, k), t.rows[k], a, reply.row); }
      }
    }
  }

  lemma {:induction false} ChainVersions(seed: Option<Row>, audits: seq<Audit>, row: Row, i: nat)
    requires Chain(seed, audits, row) && i < |audits|
    ensures audits[i].version == row.version - (|audits| - 1 - i)
    decreases |audits| - i
  {
    if i + 1 < |audits| {
      ChainVersions(seed, audits, row, i + 1);
    }
  }

  lemma AuditIndex(t: Table, a: Audit) returns (i: nat)
    requires a in t.audits
    ensures i < |AuditsOf(t.audits, a.key)| && AuditsOf(t.audits, a.key)[i] == a
  {
    AuditsOfContains(t.audits, a.key, a);
    i :| 0 <= i < |AuditsOf(t.audits, a.key)| && AuditsOf(t.audits, a.key)[i] == a;
  }

  /** No committed version is newer than the row, and every committed value is acceptable to the row. */
  lemma CommittedIsOldAndAccepted(ok: Acceptor, t: Table, key: string, version: int, value: string)
    requires Sound(ok, t) && Committed(t, key, version, value)
    ensures key in t.rows && version <= t.rows[key].version && ok(t.rows[key].spec, value)
  {
    var chain := AuditsOf(t.audits, key);
    if key in t.seeded && t.seeded[key].version == version && t.seeded[key].value == value {
      if chain != [] {
        ChainVersions(SeedOf(t, key), chain, t.rows[key], 0);
      }
    } else {
      var a :| a in t.audits && a.key == key && a.version == version && a.newValue == value;
      var i := AuditIndex(t, a);
      ChainVersions(SeedOf(t, key), chain, t.rows[key], i);
      assert a in chain;
    }
  }

  /** The value that the chain assigns to a version: what its audit left, or else what seeding put there. */
  function ValueOf(seed: Option<Row>, audits: seq<Audit>, row: Row, version: int): string {
    var i := |audits| - 1 - (row.version - version);
    if 0 <= i < |audits| then audits[i].newValue else if seed.Some? then seed.value.value else ""
  }

  lemma AuditHasValueOf(ok: Acceptor, t: Table, a: Audit)
    requires Sound(ok, t) && a in t.audits
    ensures a.newValue == ValueOf(SeedOf(t, a.key), AuditsOf(t.audits, a.key), t.rows[a.key], a.version)
  {
    var i := AuditIndex(t, a);
    ChainVersions(SeedOf(t, a.key), AuditsOf(t.audits, a.key), t.rows[a.key], i);
  }

  lemma SeedHasValueOf(ok: Acceptor, t: Table, key: string)
    requires Sound(ok, t) && key in t.seeded
    ensures t.seeded[key].value == ValueOf(SeedOf(t, key), AuditsOf(t.audits, key), t.rows[key], t.seeded[key].version)
  {
    var chain := AuditsOf(t.audits, key);
    if chain != [] { ChainVersions(SeedOf(t, key), chain, t.rows[key], 0); }
  }

  lemma CommittedHasValueOf(ok: Acceptor, t: Table, key: string, version: int, value: string)
    requires Sound(ok, t) && Committed(t, key, version, value)
    ensures key in t.rows && value == ValueOf(SeedOf(t, key), AuditsOf(t.audits, key), t.rows[key], version)
  {
    if key in t.seeded && t.seeded[key].version == version && t.seeded[key].value == value {
      SeedHasValueOf(ok, t, key);
    } else {
      var a :| a in t.audits && a.key == key && a.version == version && a.newValue == value;
      AuditHasValueOf(ok, t, a);
    }
  }

  /** A version names one value for ever. */
  lemma VersionNamesValue(ok: Acceptor, t: Table, key: string, version: int, v: string, w: string)
    requires Sound(ok, t) && Committed(t, key, version, v) && Committed(t, key, version, w)
    ensures v == w
  {
    CommittedHasValueOf(ok, t, key, version, v);
    CommittedHasValueOf(ok, t, key, version, w);
  }

  /** What is committed stays committed, and versions only grow. */
  ghost predicate Extends(t: Table, u: Table) {
    && (forall key <- t.rows :: key in u.rows && t.rows[key].version <= u.rows[key].version && t.rows[key].spec == u.rows[key].spec)
    && t.audits <= u.audits
    && (forall key <- t.seeded :: key in u.seeded && u.seeded[key] == t.seeded[key])
  }

  predicate SeedsHaveRows(t: Table) { forall key <- t.seeded :: key in t.rows }

  lemma SeedExtends(t: Table, key: string, row: Row)
    requires SeedsHaveRows(t)
    ensures Extends(t, SeedOne(t, key, row)) && SeedsHaveRows(SeedOne(t, key, row))
  {
  }

  lemma CreateExtends(t: Table, key: string, row: Row)
    ensures Extends(t, CreateRow(t, key, row).0) && (SeedsHaveRows(t) ==> SeedsHaveRows(CreateRow(t, key, row).0))
  {
  }

  lemma UpdateExtends(t: Table, key: string, change: Change)
    ensures Extends(t, UpdateRow(t, key, change).0) && (SeedsHaveRows(t) ==> SeedsHaveRows(UpdateRow(t, key, change).0))
  {
  }

  lemma CommittedStays(t: Table, u: Table, key: string, version: int, value: string)
    requires Extends(t, u) && Committed(t, key, version, value)
    ensures Committed(u, key, version, value)
  {
    if exists a :: a in t.audits && a.key == key && a.version == version && a.newValue == value {
      var a :| a in t.audits && a.key == key && a.version == version && a.newValue == value;
      assert a in u.audits;
    }
  }
}
