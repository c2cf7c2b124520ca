/** The store of one-time prekeys: conservation under any interleaving of requests, and the identifier format. */
module PreKeys {
  import opened Digits
  import opened Keyspace

  datatype PreKey = PreKey(id: string, userId: string, deviceId: string, keyId: nat, publicKey: string)

  datatype Device = Device(userId: string, deviceId: string, keys: string)

  // ---------------------------------------------------------------- identifiers

  function DeviceDocId(userId: string, deviceId: string): string { userId + ":" + deviceId }

  function DocId(userId: string, deviceId: string, keyId: nat): string { DeviceDocId(userId, deviceId) + ":" + Decimal(keyId) }

  lemma {:induction false} FirstColon(a: string, x: string, b: string, y: string)
    requires ':' !in a && ':' !in b && a + ":" + x == b + ":" + y
    ensures a == b && x == y
  {
    var s, t := a + ":" + x, b + ":" + y;
    assert s[0] == t[0];
    if a == "" || b == "" {
      assert s[1..] == t[1..];
    } else {
      assert s[1..] == a[1..] + ":" + x && t[1..] == b[1..] + ":" + y;
      assert (forall c <- a[1..] :: c in a) && forall c <- b[1..] :: c in b;
      FirstColon(a[1..], x, b[1..], y);
      assert a == [a[0]] + a[1..] && b == [b[0]] + b[1..];
    }
  }

  lemma {:induction false} LastColon(a: string, x: string, b: string, y: string)
    requires ':' !in x && ':' !in y && a + ":" + x == b + ":" + y
    ensures a == b && x == y
    decreases |x|
  {
    var s, t := a + ":" + x, b + ":" + y;
    var n := |s| - 1;
    assert s[n] == t[n] && s[..n] == t[..n];
    if x == "" || y == "" {
      assert x == "" ==> s[..n] == a;
      assert y == "" ==> t[..n] == b;
    } else {
      var x', y' := x[..|x| - 1], y[..|y| - 1];
      assert s[n] == x[|x| - 1] && t[n] == y[|y| - 1];
      assert s[..n] == a + ":" + x' && t[..n] == b + ":" + y';
      assert (forall c <- x' :: c in x) && forall c <- y' :: c in y;
      LastColon(a, x', b, y');
      assert x == x' + [x[|x| - 1]] && y == y' + [y[|y| - 1]];
    }
  }

  /** User ids without colons make the document id injective, whatever colons the device id holds. */
  lemma DocIdInjective(u: string, d: string, n: nat, u': string, d': string, n': nat)
    requires ':' !in u && ':' !in u' && DocId(u, d, n) == DocId(u', d', n')
    ensures u == u' && d == d' && n == n'
  {
    DecimalReadBack(n);
    DecimalReadBack(n');
    LastColon(DeviceDocId(u, d), Decimal(n), DeviceDocId(u', d'), Decimal(n'));
    FirstColon(u, d, u', d');
  }

  /** With a colon in a user id, the keys of two different users can collide. */
  lemma ColonsCollide(n: nat)
    ensures DocId("a", "b:c", n) == DocId("a:b", "c", n)
  {
    assert "a" + ":" + "b:c" == "a:b" + ":" + "c";
  }

  // ---------------------------------------------------------------- the ledger

  datatype Event = Inserted(id: string) | HandedOut(id: string) | Revoked(id: string)

  function Inserts(log: seq<Event>, id: string): nat {
    if log == [] then 0 else Inserts(log[..|log| - 1], id) + if log[|log| - 1] == Inserted(id) then 1 else 0
  }

  function HandOuts(log: seq<Event>, id: string): nat {
    if log == [] then 0 else HandOuts(log[..|log| - 1], id) + if log[|log| - 1] == HandedOut(id) then 1 else 0
  }

  function Revocations(log: seq<Event>, id: string): nat {
    if log == [] then 0 else Revocations(log[..|log| - 1], id) + if log[|log| - 1] == Revoked(id) then 1 else 0
  }

  /** What has been inserted under this id and not handed out or revoked since. */
  function Outstanding(log: seq<Event>, id: string): int {
    Inserts(log, id) - HandOuts(log, id) - Revocations(log, id)
  }

  lemma OutstandingAppend(log: seq<Event>, e: Event, id: string)
    ensures Outstanding(log + [e], id) ==
              if e.id != id then Outstanding(log, id) else if e.Inserted? then Outstanding(log, id) + 1 else Outstanding(log, id) - 1
  {
    assert (log + [e])[..|log|] == log;
  }

  /** Successful inserts = handed out + revoked + one if the key is still stored. */
  ghost predicate Conserved(docs: map<string, PreKey>, log: seq<Event>) {
    && (forall id <- docs :: docs[id].id == id)
    && forall id :: Outstanding(log, id) == if id in docs then 1 else 0
  }

  lemma ConservedAdd(docs: map<string, PreKey>, log: seq<Event>, k: PreKey)
    requires Conserved(docs, log) && k.id !in docs
    ensures Conserved(docs[k.id := k], log + [Inserted(k.id)])
  {
    forall id { OutstandingAppend(log, Inserted(k.id), id); }
  }

  lemma ConservedRemove(docs: map<string, PreKey>, log: seq<Event>, e: Event)
    requires Conserved(docs, log) && !e.Inserted? && e.id in docs
    ensures Conserved(docs - {e.id}, log + [e])
  {
    forall id { OutstandingAppend(log, e, id); }
  }

  // ---------------------------------------------------------------- any interleaving of database commands

  /**
   * One database command of some request. A take or a removal names the matching document the database
   * picks; if that document is not there or does not match, the command finds nothing.
   */
  datatype Command =
    | Insert(key: PreKey)
    | Take(userId: string, deviceId: string, pick: string)
    | Remove(userId: string, deviceId: string, pick: string)

  datatype Store = Store(docs: map<string, PreKey>, log: seq<Event>)

  predicate Matches(k: PreKey, userId: string, deviceId: string) { k.userId == userId && k.deviceId == deviceId }

  predicate Finds(docs: map<string, PreKey>, c: Command)
    requires !c.Insert?
  {
    c.pick in docs && Matches(docs[c.pick], c.userId, c.deviceId)
  }

  function Execute(s: Store, c: Command): Store {
    match c
    case Insert(k) => if k.id in s.docs then s else Store(s.docs[k.id := k], s.log + [Inserted(k.id)])
    case Take(_, _, pick) => if Finds(s.docs, c) then Store(s.docs - {pick}, s.log + [HandedOut(pick)]) else s
    case Remove(_, _, pick) => if Finds(s.docs, c) then Store(s.docs - {pick}, s.log + [Revoked(pick)]) else s
  }

  function Run(cmds: seq<Command>): Store {
    if cmds == [] then Store(map[], []) else Execute(Run(cmds[..|cmds| - 1]), cmds[|cmds| - 1])
  }

  /** The books balance for every id, after every interleaving of the commands of all requests. */
  lemma {:induction false} KeysAreConserved(cmds: seq<Command>)
    ensures Conserved(Run(cmds).docs, Run(cmds).log)
  {
    if cmds != [] {
      var s, c := Run(cmds[..|cmds| - 1]), cmds[|cmds| - 1];
      KeysAreConserved(cmds[..|cmds| - 1]);
      match c
      case Insert(k) => if k.id !in s.docs { ConservedAdd(s.docs, s.log, k); }
      case Take(_, _, pick) => if Finds(s.docs, c) { ConservedRemove(s.docs, s.log, HandedOut(pick)); }
      case Remove(_, _, pick) => if Finds(s.docs, c) { ConservedRemove(s.docs, s.log, Revoked(pick)); }
    }
  }

  /** The log of a run is written one entry at a time, each while the books balanced. */
  lemma {:induction false} PrefixWasARun(cmds: seq<Command>, i: nat) returns (n: nat)
    requires i <= |Run(cmds).log|
    ensures n <= |cmds| && Run(cmds[..n]).log == Run(cmds).log[..i]
  {
    if i == |Run(cmds).log| {
      n := |cmds|;
      assert cmds[..n] == cmds && Run(cmds).log[..i] == Run(cmds).log;
    } else {
      var before := cmds[..|cmds| - 1];
      assert Run(before).log <= Run(cmds).log;
      n := PrefixWasARun(before, i);
      assert before[..n] == cmds[..n];
      assert Run(before).log[..i] == Run(cmds).log[..i];
    }
  }

  lemma {:induction false} NoInsertNoGrowth(log: seq<Event>, i: nat, id: string)
    requires i <= |log| && forall k | i <= k < |log| :: log[k] != Inserted(id)
    ensures Outstanding(log, id) <= Outstanding(log[..i], id)
    decreases |log| - i
  {
    if i < |log| {
      var before := log[..|log| - 1];
      assert before[..i] == log[..i] && log == before + [log[|log| - 1]];
      OutstandingAppend(before, log[|log| - 1], id);
      NoInsertNoGrowth(before, i, id);
    } else {
      assert log[..i] == log;
    }
  }

  /** A key that is handed out was outstanding before and is not afterwards. */
  lemma HandOutTakesTheKey(cmds: seq<Command>, i: nat, id: string)
    requires i < |Run(cmds).log| && Run(cmds).log[i] == HandedOut(id)
    ensures Outstanding(Run(cmds).log[..i], id) == 1 && Outstanding(Run(cmds).log[..i + 1], id) == 0
  {
    var log := Run(cmds).log;
    var m := PrefixWasARun(cmds, i);
    var n := PrefixWasARun(cmds, i + 1);
    KeysAreConserved(cmds[..m]);
    KeysAreConserved(cmds[..n]);
    assert log[..i + 1] == log[..i] + [log[i]];
    OutstandingAppend(log[..i], log[i], id);
  }

  /** The same id is handed out twice only if somebody uploaded it again in between: no stored key has two takers. */
  lemma NoKeyTwice(cmds: seq<Command>, i: nat, j: nat, id: string)
    requires i < j < |Run(cmds).log| && Run(cmds).log[i] == HandedOut(id) == Run(cmds).log[j]
    ensures exists k :: i < k < j && Run(cmds).log[k] == Inserted(id)
  {
    var log := Run(cmds).log;
    HandOutTakesTheKey(cmds, i, id);
    HandOutTakesTheKey(cmds, j, id);
    if forall k | i < k < j :: log[k] != Inserted(id) {
      assert log[..j][..i + 1] == log[..i + 1];
      NoInsertNoGrowth(log[..j], i + 1, id);
    }
  }

  // ---------------------------------------------------------------- the requests

  ghost predicate IsDeviceOf(devices: map<string, Device>, b: Device, userId: string) {
    b.userId == userId && exists id :: id in devices && devices[id] == b
  }

  class ChatKeys {
    var devices: map<string, Device>
    var docs: map<string, PreKey>
    ghost var log: seq<Event>

    constructor ()
      ensures Valid() && devices == map[] && docs == map[] && log == []
    {
      devices, docs, log := map[], map[], [];
    }

    ghost predicate Valid()
      reads this
    {
      Conserved(docs, log)
    }

    /** One document of an unordered bulk insert; a duplicate id is refused and changes nothing. */
    method InsertOne(k: PreKey)
      requires Valid()
      modifies `docs, `log
      ensures Valid() && Store(docs, log) == Execute(old(Store(docs, log)), Insert(k))
    {
      if k.id !in docs {
        ConservedAdd(docs, log, k);
        docs := docs[k.id := k];
        log := log + [Inserted(k.id)];
      }
    }

    /** The atomic find-and-delete of one matching document. */
    method FindOneAndDelete(userId: string, deviceId: string) returns (found: Option<PreKey>)
      requires Valid()
      modifies `docs, `log
      ensures Valid()
      ensures found.None? ==> docs == old(docs) && log == old(log) && forall id <- docs :: !Matches(docs[id], userId, deviceId)
      ensures found.Some? ==>
                && found.value.id in old(docs) && old(docs)[found.value.id] == found.value
                && Matches(found.value, userId, deviceId)
                && Store(docs, log) == Execute(old(Store(docs, log)), Take(userId, deviceId, found.value.id))
    {
      var candidates := set id | id in docs && Matches(docs[id], userId, deviceId);
      if candidates == {} {
        forall id | id in docs ensures !Matches(docs[id], userId, deviceId) { assert id !in candidates; }
        return None;
      }
      var id :| id in candidates;
      found := Some(docs[id]);
      ConservedRemove(docs, log, HandedOut(id));
      docs := docs - {id};
      log := log + [HandedOut(id)];
    }

    method InsertMany(keys: seq<PreKey>)
      requires Valid()
      modifies `docs, `log
      ensures Valid() && docs == InsertAll(old(docs), keys)
    {
      for i := 0 to |keys|
        invariant Valid() && InsertAll(docs, keys[i..]) == InsertAll(old(docs), keys)
      {
        assert keys[i..][0] == keys[i] && keys[i..][1..] == keys[i + 1..];
        InsertOne(keys[i]);
      }
    }

    method RegisterDeviceKeys(userId: string, deviceId: string, keys: string, uploads: seq<(nat, string)>)
      requires Valid()
      modifies this
      ensures Valid() && docs == InsertAll(old(docs), Uploads(userId, deviceId, uploads))
      ensures devices == old(devices)[userId + ":" + deviceId := Device(userId, deviceId, keys)]
      ensures Added(old(docs), docs, userId, deviceId, uploads)
    {
      devices := devices[DeviceDocId(userId, deviceId) := Device(userId, deviceId, keys)];
      InsertMany(Uploads(userId, deviceId, uploads));
      UploadsAdd(old(docs), userId, deviceId, uploads);
    }

    /** The count returned is the number of keys stored for that user and device. */
    method AddOneTimePreKeys(userId: string, deviceId: string, uploads: seq<(nat, string)>) returns (count: nat)
      requires Valid()
      modifies `docs, `log
      ensures Valid() && docs == InsertAll(old(docs), Uploads(userId, deviceId, uploads))
      ensures Added(old(docs), docs, userId, deviceId, uploads)
      ensures count == |set id | id in docs && docs[id].userId == userId && docs[id].deviceId == deviceId|
    {
      InsertMany(Uploads(userId, deviceId, uploads));
      UploadsAdd(old(docs), userId, deviceId, uploads);
      count := |KeysOf(docs, userId, deviceId)|;
      assert KeysOf(docs, userId, deviceId) == set id | id in docs && docs[id].userId == userId && docs[id].deviceId == deviceId;
    }

    /** The devices of a user, each document once. */
    method DevicesOf(userId: string) returns (bundles: seq<Device>)
      ensures forall b :: b in bundles <==> IsDeviceOf(devices, b, userId)
    {
      bundles := [];
      var todo := devices.Keys;
      while todo != {}
        invariant todo <= devices.Keys
        invariant forall b <- bundles :: IsDeviceOf(devices, b, userId)
        invariant forall id | id in devices && id !in todo && devices[id].userId == userId :: devices[id] in bundles
      {
        var id :| id in todo;
        todo := todo - {id};
        if devices[id].userId == userId { bundles := bundles + [devices[id]]; }
      }
    }

    /** A user without devices is not found; otherwise the keys are handed out to the devices just read. */
    method GetPreKeyBundle(targetUserId: string) returns (bundles: seq<Device>, keys: Option<seq<Option<PreKey>>>)
      requires Valid()
      modifies `docs, `log
      ensures Valid() && forall b <- bundles :: IsDeviceOf(devices, b, targetUserId)
      ensures keys.None? <==> forall id <- devices :: devices[id].userId != targetUserId
      ensures keys.None? ==> docs == old(docs)
      ensures keys.Some? ==>
                && |keys.value| == |bundles| > 0 && docs == old(docs) - HandedIds(keys.value)
                && (forall i | 0 <= i < |bundles| :: Served(old(docs), docs, bundles[i], keys.value[i]))
                && forall i, j | 0 <= i < j < |bundles| && keys.value[i].Some? && keys.value[j].Some? ::
                     keys.value[i].value.id != keys.value[j].value.id
    {
      bundles := DevicesOf(targetUserId);
      if |bundles| == 0 {
        forall id | id in devices ensures devices[id].userId != targetUserId { assert !IsDeviceOf(devices, devices[id], targetUserId); }
        keys := None;
      } else {
        assert IsDeviceOf(devices, bundles[0], targetUserId);
        var handed := HandOut(bundles);
        keys := Some(handed);
      }
    }

    /**
     * Each device read beforehand gets at most one key of its own, different keys go to different devices,
     * exactly those keys leave the store, and a device goes without only if it has none.
     */
    method HandOut(bundles: seq<Device>) returns (keys: seq<Option<PreKey>>)
      requires Valid()
      modifies `docs, `log
      ensures Valid() && |keys| == |bundles| && docs == old(docs) - HandedIds(keys)
      ensures forall i | 0 <= i < |keys| :: Served(old(docs), docs, bundles[i], keys[i])
      ensures forall i, j | 0 <= i < j < |keys| && keys[i].Some? && keys[j].Some? :: keys[i].value.id != keys[j].value.id
    {
      keys := [];
      for i := 0 to |bundles|
        invariant Valid() && |keys| == i && docs == old(docs) - HandedIds(keys)
        invariant forall k | 0 <= k < i :: Served(old(docs), docs, bundles[k], keys[k])
        invariant forall k, l | 0 <= k < l < i && keys[k].Some? && keys[l].Some? :: keys[k].value.id != keys[l].value.id
      {
        ghost var served := keys;
        ghost var before := docs;
        var found := FindOneAndDelete(bundles[i].userId, bundles[i].deviceId);
        HandedIdsAppend(keys, found);
        keys := keys + [found];
        forall k | 0 <= k < i ensures Served(old(docs), docs, bundles[k], keys[k]) {
          assert keys[k] == served[k];
          ServedStays(old(docs), before, docs, bundles[k], served[k]);
        }
      }
    }

    /** The device and all its keys are gone, and nothing else is. */
    method RevokeDevice(userId: string, deviceId: string)
      requires Valid()
      modifies this
      ensures Valid() && devices == old(devices) - {userId + ":" + deviceId}
      ensures docs == old(docs) - KeysOf(old(docs), userId, deviceId)
    {
      devices := devices - {DeviceDocId(userId, deviceId)};
      var doomed := KeysOf(docs, userId, deviceId);
      ghost var all := doomed;
      while doomed != {}
        invariant Valid() && doomed <= all && docs == old(docs) - (all - doomed)
        invariant devices == old(devices) - {DeviceDocId(userId, deviceId)}
      {
        var id :| id in doomed;
        ConservedRemove(docs, log, Revoked(id));
        docs := docs - {id};
        log := log + [Revoked(id)];
        doomed := doomed - {id};
      }
      assert all - doomed == all;
    }
  }

  function KeysOf(docs: map<string, PreKey>, userId: string, deviceId: string): set<string> {
    set id | id in docs && Matches(docs[id], userId, deviceId)
  }

  function HandedIds(keys: seq<Option<PreKey>>): set<string> { set k | k in keys && k.Some? :: k.value.id }

  lemma HandedIdsAppend(keys: seq<Option<PreKey>>, k: Option<PreKey>)
    ensures HandedIds(keys + [k]) == if k.Some? then HandedIds(keys) + {k.value.id} else HandedIds(keys)
  {
    assert forall x :: x in keys + [k] <==> x in keys || x == k;
  }

  ghost predicate Served(before: map<string, PreKey>, now: map<string, PreKey>, b: Device, k: Option<PreKey>) {
    if k.Some? then k.value.id in before && before[k.value.id] == k.value && k.value.id !in now && Matches(k.value, b.userId, b.deviceId)
    else forall id <- now :: !Matches(now[id], b.userId, b.deviceId)
  }

  lemma ServedStays(before: map<string, PreKey>, mid: map<string, PreKey>, now: map<string, PreKey>, b: Device, k: Option<PreKey>)
    requires Served(before, mid, b, k) && forall id <- now :: id in mid && now[id] == mid[id]
    ensures Served(before, now, b, k)
  {
  }

  function Uploads(userId: string, deviceId: string, uploads: seq<(nat, string)>): (keys: seq<PreKey>)
    ensures |keys| == |uploads|
  {
    seq(|uploads|, i requires 0 <= i < |uploads| =>
      PreKey(DocId(userId, deviceId, uploads[i].0), userId, deviceId, uploads[i].0, uploads[i].1))
  }

  function InsertAll(docs: map<string, PreKey>, keys: seq<PreKey>): map<string, PreKey>
    decreases |keys|
  {
    if keys == [] then docs
    else InsertAll(if keys[0].id in docs then docs else docs[keys[0].id := keys[0]], keys[1..])
  }

  /** A bulk upload overwrites nothing, stores every id it names, and stores nothing else. */
  lemma {:induction false} UploadOverwritesNothing(docs: map<string, PreKey>, keys: seq<PreKey>)
    ensures var after := InsertAll(docs, keys);
            && (forall id <- docs :: id in after && after[id] == docs[id])
            && (forall k <- keys :: k.id in after)
            && (forall id <- after :: id in docs || (after[id] in keys && after[id].id == id))
    decreases |keys|
  {
    if keys != [] {
      var next := if keys[0].id in docs then docs else docs[keys[0].id := keys[0]];
      UploadOverwritesNothing(next, keys[1..]);
      assert keys == [keys[0]] + keys[1..];
    }
  }

  /** Every stored key stays, every upload has its id stored, and a new key is one of the uploads, under its own id. */
  ghost predicate Added(before: map<string, PreKey>, after: map<string, PreKey>, userId: string, deviceId: string,
                        uploads: seq<(nat, string)>) {
    && (forall id <- before :: id in after && after[id] == before[id])
    && (forall i | 0 <= i < |uploads| :: userId + ":" + deviceId + ":" + Decimal(uploads[i].0) in after)
    && (forall id <- after :: id !in before ==> exists i :: 0 <= i < |uploads| && IsUpload(id, after[id], userId, deviceId, uploads[i]))
  }

  predicate IsUpload(id: string, k: PreKey, userId: string, deviceId: string, upload: (nat, string)) {
    id == userId + ":" + deviceId + ":" + Decimal(upload.0) && k == PreKey(id, userId, deviceId, upload.0, upload.1)
  }

  lemma UploadsAdd(docs: map<string, PreKey>, userId: string, deviceId: string, uploads: seq<(nat, string)>)
    ensures Added(docs, InsertAll(docs, Uploads(userId, deviceId, uploads)), userId, deviceId, uploads)
  {
    var keys := Uploads(userId, deviceId, uploads);
    var after := InsertAll(docs, keys);
    UploadOverwritesNothing(docs, keys);
    forall i | 0 <= i < |uploads| ensures userId + ":" + deviceId + ":" + Decimal(uploads[i].0) in after { assert keys[i] in keys; }
    forall id | id in after && id !in docs
      ensures exists i :: 0 <= i < |uploads| && IsUpload(id, after[id], userId, deviceId, uploads[i])
    {
      var i :| 0 <= i < |keys| && keys[i] == after[id];
      assert IsUpload(id, after[id], userId, deviceId, uploads[i]);
    }
  }
}
