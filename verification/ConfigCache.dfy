/** The cached copy of the configuration: pipelines of hash commands, and the polling reader. */
module ConfigCache {
  import opened Keyspace
  import opened ConfigRules

  /** The hash with every entry, and one hash per scope; a scope called "all" shares the first. */
  datatype HashName = AllHash | ScopeHash(scope: string)

  function HashOf(scope: string): HashName { if scope == "all" then AllHash else ScopeHash(scope) }

  datatype Envelope = Envelope(key: string, scope: string, kind: ConfigType, value: string, version: int)

  type Config = (string, Row)

  function Wrap(c: Config): Envelope { Envelope(c.0, c.1.spec.scope, c.1.spec.kind, c.1.value, c.1.version) }

  datatype Command = Put(hash: HashName, e: Envelope) | Delete(hashes: set<HashName>)

  type Hashes = map<HashName, map<string, Envelope>>

  function GetAll(h: Hashes, name: HashName): map<string, Envelope> { if name in h then h[name] else map[] }

  function Apply(h: Hashes, c: Command): Hashes {
    match c
    case Put(name, e) => h[name := GetAll(h, name)[e.key := e]]
    case Delete(names) => h - names
  }

  function ApplyAll(h: Hashes, cmds: seq<Command>): Hashes
    decreases |cmds|
  {
    if cmds == [] then h else ApplyAll(Apply(h, cmds[0]), cmds[1..])
  }

  /** The two writes per row, in order. */
  function Puts(configs: seq<Config>): seq<Command> {
    if configs == [] then [] else
      [Put(AllHash, Wrap(configs[0])), Put(HashOf(configs[0].1.spec.scope), Wrap(configs[0]))] + Puts(configs[1..])
  }

  function ScopesOf(configs: seq<Config>): set<HashName> { set c | c in configs :: HashOf(c.1.spec.scope) }

  function Snapshot(configs: seq<Config>): seq<Command> {
    [Delete({AllHash} + ScopesOf(configs))] + Puts(configs)
  }

  /** What a hash should hold for these rows: later rows win, and a scope hash takes only its own. */
  function Entries(configs: seq<Config>, name: HashName): map<string, Envelope> {
    if configs == [] then map[] else
      var rest := Entries(configs[1..], name);
      if name == AllHash || name == HashOf(configs[0].1.spec.scope) then map[configs[0].0 := Wrap(configs[0])] + rest else rest
  }

  // ---------------------------------------------------------------- the writer

  class Cache {
    var hashes: Hashes
    /** The global version key, which every write counts up and every snapshot sets anew. */
    var version: Option<int>

    constructor ()
      ensures hashes == map[] && version == None
    {
      hashes, version := map[], None;
    }

    method Exec(pipe: seq<Command>)
      modifies this`hashes
      ensures hashes == ApplyAll(old(hashes), pipe)
    {
      for i := 0 to |pipe|
        invariant ApplyAll(hashes, pipe[i..]) == ApplyAll(old(hashes), pipe)
      {
        assert pipe[i..][0] == pipe[i] && pipe[i..][1..] == pipe[i + 1..];
        hashes := Apply(hashes, pipe[i]);
      }
    }

    /** After a row is stored: every hash gains exactly the entries it should hold for these rows. */
    method WriteRuntimeConfigCache(configs: seq<Config>)
      modifies this
      ensures forall name :: GetAll(hashes, name) == GetAll(old(hashes), name) + Entries(configs, name)
      ensures version == if configs == [] then old(version) else Some(if old(version).Some? then old(version).value + 1 else 1)
    {
      if |configs| == 0 { return; }
      var pipe := [];
      for i := 0 to |configs|
        invariant pipe + Puts(configs[i..]) == Puts(configs)
      {
        assert configs[i..][0] == configs[i] && configs[i..][1..] == configs[i + 1..];
        pipe := pipe + [Put(AllHash, Wrap(configs[i])), Put(HashOf(configs[i].1.spec.scope), Wrap(configs[i]))];
      }
      assert pipe == Puts(configs);
      Exec(pipe);
      version := Some(if version.Some? then version.value + 1 else 1);
      forall name ensures GetAll(hashes, name) == GetAll(old(hashes), name) + Entries(configs, name) {
        PutsAddEntries(old(hashes), configs, name);
      }
    }

    /** A full resynchronisation: the listed hashes hold exactly the rows, and no other hash is touched. */
    method WriteRuntimeConfigSnapshot(configs: seq<Config>)
      modifies this
      ensures GetAll(hashes, AllHash) == Entries(configs, AllHash)
      ensures forall name <- ScopesOf(configs) :: GetAll(hashes, name) == Entries(configs, name)
      ensures forall name | name != AllHash && name !in ScopesOf(configs) :: GetAll(hashes, name) == GetAll(old(hashes), name)
      ensures version.Some? && (version.value == 0 || exists c <- configs :: c.1.version == version.value)
      ensures version.value >= 0 && forall c <- configs :: c.1.version <= version.value
    {
      var cleared: set<HashName> := {AllHash};
      for i := 0 to |configs|
        invariant cleared == {AllHash} + ScopesOf(configs[..i])
      {
        assert configs[..i + 1] == configs[..i] + [configs[i]];
        cleared := cleared + {HashOf(configs[i].1.spec.scope)};
      }
      assert configs[..|configs|] == configs;
      var pipe := [Delete(cleared)];
      for i := 0 to |configs|
        invariant pipe + Puts(configs[i..]) == Snapshot(configs)
      {
        assert configs[i..][0] == configs[i] && configs[i..][1..] == configs[i + 1..];
        pipe := pipe + [Put(AllHash, Wrap(configs[i])), Put(HashOf(configs[i].1.spec.scope), Wrap(configs[i]))];
      }
      assert pipe == Snapshot(configs);
      Exec(pipe);
      SnapshotIsExact(old(hashes), configs);
      var newest := NewestVersion(configs);
      version := Some(newest);
    }
  }

  /** The greatest version of the rows, or 0. */
  method NewestVersion(configs: seq<Config>) returns (newest: int)
    ensures newest >= 0 && (newest == 0 || exists c <- configs :: c.1.version == newest)
    ensures forall c <- configs :: c.1.version <= newest
  {
    newest := 0;
    for i := 0 to |configs|
      invariant newest >= 0 && (newest == 0 || exists j :: 0 <= j < i && configs[j].1.version == newest)
      invariant forall j | 0 <= j < i :: configs[j].1.version <= newest
    {
      if configs[i].1.version > newest { newest := configs[i].1.version; }
    }
  }

  function PutBoth(h: Hashes, c: Config): Hashes {
    Apply(Apply(h, Put(AllHash, Wrap(c))), Put(HashOf(c.1.spec.scope), Wrap(c)))
  }

  lemma PutsUnfold(h: Hashes, configs: seq<Config>)
    requires configs != []
    ensures ApplyAll(h, Puts(configs)) == ApplyAll(PutBoth(h, configs[0]), Puts(configs[1..]))
  {
    var c, p := configs[0], Puts(configs);
    assert p[0] == Put(AllHash, Wrap(c));
    assert p[1..][0] == Put(HashOf(c.1.spec.scope), Wrap(c)) && p[1..][1..] == Puts(configs[1..]);
  }

  lemma PutBothAddsEntry(h: Hashes, c: Config, name: HashName)
    ensures GetAll(PutBoth(h, c), name) ==
              if name == AllHash || name == HashOf(c.1.spec.scope) then GetAll(h, name)[c.0 := Wrap(c)] else GetAll(h, name)
  {
  }

  lemma {:induction false} PutsAddEntries(h: Hashes, configs: seq<Config>, name: HashName)
    ensures GetAll(ApplyAll(h, Puts(configs)), name) == GetAll(h, name) + Entries(configs, name)
    decreases |configs|
  {
    if configs != [] {
      var c := configs[0];
      PutsUnfold(h, configs);
      PutBothAddsEntry(h, c, name);
      PutsAddEntries(PutBoth(h, c), configs[1..], name);
      UpdateThenMerge(GetAll(h, name), c.0, Wrap(c), Entries(configs[1..], name));
    }
  }

  lemma UpdateThenMerge<K, V>(m: map<K, V>, k: K, v: V, n: map<K, V>)
    ensures m[k := v] + n == m + (map[k := v] + n)
  {
  }

  lemma {:induction false} EntriesOutsideScopes(configs: seq<Config>, name: HashName)
    requires name != AllHash && name !in ScopesOf(configs)
    ensures Entries(configs, name) == map[]
  {
    if configs != [] {
      assert configs[0] in configs && forall c <- configs[1..] :: c in configs;
      EntriesOutsideScopes(configs[1..], name);
    }
  }

  /** Each key is listed once. */
  predicate Listed(configs: seq<Config>) {
    configs == [] || ((forall c <- configs[1..] :: c.0 != configs[0].0) && Listed(configs[1..]))
  }

  /** The main hash holds every row, and the hash of a scope its own rows, except that a scope called "all" has none. */
  lemma {:induction false} EntriesAreTheRows(configs: seq<Config>, c: Config, scope: string)
    requires Listed(configs)
    ensures var e := Envelope(c.0, c.1.spec.scope, c.1.spec.kind, c.1.value, c.1.version);
            && (c in configs ==> c.0 in Entries(configs, AllHash) && Entries(configs, AllHash)[c.0] == e)
            && (c in configs && c.1.spec.scope == scope != "all" ==>
                  c.0 in Entries(configs, ScopeHash(scope)) && Entries(configs, ScopeHash(scope))[c.0] == e)
            && (c.0 in Entries(configs, AllHash) ==> exists d <- configs :: d.0 == c.0)
            && (c.0 in Entries(configs, ScopeHash(scope)) ==> exists d <- configs :: d.0 == c.0 && d.1.spec.scope == scope != "all")
    decreases |configs|
  {
    if configs != [] {
      EntriesAreTheRows(configs[1..], c, scope);
      assert configs == [configs[0]] + configs[1..];
    }
  }

  /** An undisturbed snapshot replaces the listed hashes by exactly the rows, whatever was cached before. */
  lemma SnapshotIsExact(h: Hashes, configs: seq<Config>)
    ensures var g := ApplyAll(h, Snapshot(configs));
            forall name :: GetAll(g, name) ==
              if name == AllHash || name in ScopesOf(configs) then Entries(configs, name) else GetAll(h, name)
  {
    var cleared := Apply(h, Snapshot(configs)[0]);
    assert Snapshot(configs)[1..] == Puts(configs);
    forall name ensures GetAll(ApplyAll(cleared, Puts(configs)), name) ==
        if name == AllHash || name in ScopesOf(configs) then Entries(configs, name) else GetAll(h, name)
    {
      PutsAddEntries(cleared, configs, name);
      if name == AllHash || name in ScopesOf(configs) {
        assert GetAll(cleared, name) == map[];
      } else {
        EntriesOutsideScopes(configs, name);
      }
    }
  }

  // ---------------------------------------------------------------- the reader

  /** A stored field: bytes that do not parse, or an envelope. */
  datatype Raw = Malformed | Parsed(e: Envelope)

  /** Malformed fields are left out; an envelope without a key takes the field's name. */
  function Decode(raws: map<string, Raw>): map<string, Envelope> {
    map k | k in raws && raws[k].Parsed? :: if raws[k].e.key == "" then raws[k].e.(key := k) else raws[k].e
  }

  const REFRESH_INTERVAL := 5 * SECOND

  class Provider {
    var values: map<string, Envelope>
    var lastRefresh: Option<int>

    constructor ()
      ensures values == map[] && lastRefresh == None
    {
      values, lastRefresh := map[], None;
    }

    /** `raws` is what the store answers, or None when it cannot be reached, which changes nothing. */
    method Refresh(now: int, raws: Option<map<string, Raw>>) returns (ok: bool)
      modifies this
      ensures ok == raws.Some?
      ensures if ok then values == Decode(raws.value) && lastRefresh == Some(now)
              else values == old(values) && lastRefresh == old(lastRefresh)
    {
      if raws.None? { return false; }
      var decoded: map<string, Envelope> := map[];
      var todo := raws.value.Keys;
      while todo != {}
        invariant todo <= raws.value.Keys
        invariant decoded == Decode(raws.value) - todo
      {
        var key :| key in todo;
        var raw := raws.value[key];
        if raw.Parsed? {
          var e := raw.e;
          if e.key == "" { e := e.(key := key); }
          decoded := decoded[key := e];
        }
        todo := todo - {key};
      }
      values, lastRefresh := decoded, Some(now);
      return true;
    }

    method EnsureFresh(now: int, raws: Option<map<string, Raw>>)
      modifies this
      ensures raws.Some? ==> lastRefresh.Some? && now - lastRefresh.value < 5_000_000_000
      ensures (values == old(values) && lastRefresh == old(lastRefresh))
              || (raws.Some? && values == Decode(raws.value) && lastRefresh == Some(now))
      ensures old(lastRefresh).Some? && now - old(lastRefresh).value < 5_000_000_000 ==>
                lastRefresh == old(lastRefresh) && values == old(values)
    {
      var stale := lastRefresh.None? || now - lastRefresh.value >= REFRESH_INTERVAL;
      if !stale { return; }
      var _ := Refresh(now, raws);
    }

    /** The value looked up is at most five seconds old whenever the store can be reached. */
    method Lookup(now: int, key: string, raws: Option<map<string, Raw>>) returns (found: Option<string>)
      modifies this
      ensures raws.Some? ==> lastRefresh.Some? && now - lastRefresh.value < 5_000_000_000
      ensures (values == old(values) && lastRefresh == old(lastRefresh))
              || (raws.Some? && values == Decode(raws.value) && lastRefresh == Some(now))
      ensures old(lastRefresh).Some? && now - old(lastRefresh).value < 5_000_000_000 ==>
                lastRefresh == old(lastRefresh) && values == old(values)
      ensures found == if key in values then Some(values[key].value) else None
    {
      EnsureFresh(now, raws);
      found := if key in values then Some(values[key].value) else None;
    }

    method LookupInt(now: int, key: string, fallback: int, raws: Option<map<string, Raw>>) returns (n: int)
      modifies this
      ensures raws.Some? ==> lastRefresh.Some? && now - lastRefresh.value < 5_000_000_000
      ensures (values == old(values) && lastRefresh == old(lastRefresh))
              || (raws.Some? && values == Decode(raws.value) && lastRefresh == Some(now))
      ensures old(lastRefresh).Some? && now - old(lastRefresh).value < 5_000_000_000 ==>
                lastRefresh == old(lastRefresh) && values == old(values)
      ensures n == if key in values && ParseInt(values[key].value).Some? then ParseInt(values[key].value).value else fallback
    {
      var raw := Lookup(now, key, raws);
      if raw.None? { return fallback; }
      var value := ParseInt(raw.value);
      if value.None? { return fallback; }
      return value.value;
    }
  }
}
