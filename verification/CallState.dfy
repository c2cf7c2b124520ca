/** Voice and video calls: four key families that must agree on who is in which call. */
module CallState {
  import opened Keyspace

  datatype User = User(name: string)
  datatype UserId = UserId(uuid: nat)
  type Call = string

  const PREPARED_TTL := 2 * MINUTE

  /** Which id each username has, as the user service answers; different users have different ids. */
  type Directory = map<User, UserId>

  predicate Injective(d: Directory) { forall u, v | u in d && v in d && d[u] == d[v] :: u == v }

  datatype State = State(
    incall: map<User, Call>,
    members: map<Call, set<User>>,
    ids: map<Call, set<UserId>>,
    prepared: map<(User, User), Entry<string>>)
  {
    function MembersOf(c: Call): set<User> { if c in members then members[c] else {} }

    function IdsOf(c: Call): set<UserId> { if c in ids then ids[c] else {} }
  }

  datatype Reply = Done | UserNotFound | AlreadyInCall | TargetAlreadyInCall | NotReadyForCall | ChatError

  datatype Op =
    | Prepare(now: int, caller: User, callee: User)
    | Init(now: int, callerId: UserId, callee: User)
    | StartGroup(call: Call, caller: User)
    | StartDirect(now: int, call: Call, caller: User, callee: User, chatOk: bool)
    | AnswerGroup(call: Call, userId: UserId)
    | End(call: Call)
    | EndByMember(user: User)

  // ---------------------------------------------------------------- the operations as functions

  function NameOf(d: Directory, id: UserId): (u: Option<User>)
    requires Injective(d)
    ensures u.Some? ==> u.value in d && d[u.value] == id
    ensures u.None? ==> forall v <- d :: d[v] != id
  {
    if exists u :: u in d && d[u] == id then
      var u :| u in d && d[u] == id; Some(u)
    else None
  }

  function IdsFor(d: Directory, users: set<User>): set<UserId> { set u | u in users && u in d :: d[u] }

  function MarkAll(users: set<User>, call: Call): map<User, Call> { map u | u in users :: call }

  /** The users join the call: each is marked, and both member sets grow. */
  function Join(d: Directory, s: State, call: Call, users: set<User>): State {
    State(s.incall + MarkAll(users, call), s.members[call := s.MembersOf(call) + users],
          s.ids[call := s.IdsOf(call) + IdsFor(d, users)], s.prepared)
  }

  function Pairs(us: set<User>): set<(User, User)> { set u, v | u in us && v in us && u != v :: (u, v) }

  function EndCallStep(s: State, call: Call): State {
    var us := s.MembersOf(call);
    if us == {} then s else
      State(s.incall - us, s.members - {call}, s.ids - {call}, s.prepared - Pairs(us))
  }

  function Step(d: Directory, s: State, op: Op): (State, Reply)
    requires Injective(d)
  {
    match op
    case Prepare(now, caller, callee) =>
      (s.(prepared := SetFor(s.prepared, (caller, callee), "true", now, PREPARED_TTL)), Done)
    case Init(now, callerId, callee) =>
      var caller := NameOf(d, callerId);
      if caller.None? then (s, UserNotFound)
      else if caller.value in s.incall then (s, AlreadyInCall)
      else if callee in s.incall then (s, TargetAlreadyInCall)
      else (s.(prepared := SetFor(s.prepared, (caller.value, callee), "true", now, PREPARED_TTL)), Done)
    case StartGroup(call, caller) =>
      if caller in s.incall then (s, AlreadyInCall)
      else if caller !in d then (s, UserNotFound)
      else (Join(d, s, call, {caller}), Done)
    case StartDirect(now, call, caller, callee, chatOk) =>
      if caller in s.incall || callee in s.incall || !Live(s.prepared, (caller, callee), now) then (s, NotReadyForCall)
      else if caller !in d || callee !in d then (s, UserNotFound)
      else if !chatOk then (s, ChatError)
      else (Join(d, s, call, {caller, callee}), Done)
    case AnswerGroup(call, userId) =>
      var user := NameOf(d, userId);
      if user.None? then (s, Done) else (Join(d, s, call, {user.value}), Done)
    case End(call) => (EndCallStep(s, call), Done)
    case EndByMember(user) =>
      if user !in s.incall || s.incall[user] == "" then (s, Done) else (EndCallStep(s, s.incall[user]), Done)
  }

  /** The users are marked in the call and join its two member sets, and nothing else has changed. */
  ghost predicate Joined(s: State, t: State, call: Call, users: set<User>, userIds: set<UserId>) {
    && (forall u :: u in t.incall <==> u in s.incall || u in users)
    && (forall u <- t.incall :: t.incall[u] == if u in users then call else s.incall[u])
    && t.members == s.members[call := s.MembersOf(call) + users]
    && t.ids == s.ids[call := s.IdsOf(call) + userIds]
    && t.prepared == s.prepared
  }

  // ---------------------------------------------------------------- the service

  class Calls {
    const directory: Directory
    var incall: map<User, Call>
    var members: map<Call, set<User>>
    var ids: map<Call, set<UserId>>
    var prepared: map<(User, User), Entry<string>>

    constructor (directory: Directory)
      requires Injective(directory)
      ensures this.directory == directory && View() == State(map[], map[], map[], map[])
    {
      this.directory := directory;
      incall, members, ids, prepared := map[], map[], map[], map[];
    }

    ghost function View(): State reads this { State(incall, members, ids, prepared) }

    method SMembers(call: Call) returns (users: seq<User>)
      ensures (set u | u in users) == View().MembersOf(call)
    {
      users := [];
      var todo := if call in members then members[call] else {};
      while todo != {}
        invariant (set u | u in users) + todo == View().MembersOf(call)
      {
        var u :| u in todo;
        users, todo := users + [u], todo - {u};
      }
    }

    method SAdd(call: Call, users: set<User>, userIds: set<UserId>)
      modifies this`members, this`ids
      ensures members == old(members)[call := old(View()).MembersOf(call) + users]
      ensures ids == old(ids)[call := old(View()).IdsOf(call) + userIds]
    {
      members := members[call := (if call in members then members[call] else {}) + users];
      ids := ids[call := (if call in ids then ids[call] else {}) + userIds];
    }

    method PrepareCall(now: int, caller: User, callee: User)
      requires Injective(directory)
      modifies this`prepared
      ensures View() == Step(directory, old(View()), Prepare(now, caller, callee)).0
      ensures prepared == old(prepared)[(caller, callee) := Entry("true", Some(now + 120_000_000_000))]
    {
      prepared := SetFor(prepared, (caller, callee), "true", now, PREPARED_TTL);
    }

    method InitCall(now: int, callerId: UserId, callee: User) returns (reply: Reply)
      requires Injective(directory)
      modifies this
      ensures (View(), reply) == Step(directory, old(View()), Init(now, callerId, callee))
      ensures incall == old(incall) && members == old(members) && ids == old(ids)
      ensures reply == UserNotFound <==> callerId !in directory.Values
      ensures reply in {UserNotFound, AlreadyInCall, TargetAlreadyInCall, Done} && (reply == Done || prepared == old(prepared))
      ensures forall caller | caller in directory && directory[caller] == callerId ::
                && (reply == AlreadyInCall <==> caller in incall)
                && (reply == TargetAlreadyInCall <==> caller !in incall && callee in incall)
                && (reply == Done ==> prepared == old(prepared)[(caller, callee) := Entry("true", Some(now + 120_000_000_000))])
    {
      var caller := NameOf(directory, callerId);
      if caller.None? { return UserNotFound; }
      if caller.value in incall { return AlreadyInCall; }
      if callee in incall { return TargetAlreadyInCall; }
      PrepareCall(now, caller.value, callee);
      return Done;
    }

    method StartGroupCall(call: Call, caller: User) returns (reply: Reply)
      requires Injective(directory)
      modifies this
      ensures (View(), reply) == Step(directory, old(View()), StartGroup(call, caller))
      ensures reply == AlreadyInCall <==> caller in old(incall)
      ensures reply == UserNotFound <==> caller !in old(incall) && caller !in directory
      ensures reply == Done <==> caller !in old(incall) && caller in directory
      ensures reply != Done ==> unchanged(this)
      ensures reply == Done ==> Joined(old(View()), View(), call, {caller}, {directory[caller]})
    {
      if caller in incall { return AlreadyInCall; }
      if caller !in directory { return UserNotFound; }
      incall := incall[caller := call];
      SAdd(call, {caller}, {directory[caller]});
      JoinOne(directory, old(View()), call, caller);
      return Done;
    }

    method StartCall(now: int, call: Call, caller: User, callee: User, chatOk: bool) returns (reply: Reply)
      requires Injective(directory)
      modifies this
      ensures (View(), reply) == Step(directory, old(View()), StartDirect(now, call, caller, callee, chatOk))
      ensures var ready := caller !in old(incall) && callee !in old(incall) && Live(old(prepared), (caller, callee), now);
              && (reply == NotReadyForCall <==> !ready)
              && (reply == UserNotFound <==> ready && (caller !in directory || callee !in directory))
              && (reply == ChatError <==> ready && caller in directory && callee in directory && !chatOk)
              && (reply == Done <==> ready && caller in directory && callee in directory && chatOk)
      ensures reply != Done ==> unchanged(this)
      ensures reply == Done ==> Joined(old(View()), View(), call, {caller, callee}, {directory[caller], directory[callee]})
    {
      var anyInCall := caller in incall || callee in incall;
      if anyInCall || !Live(prepared, (caller, callee), now) { return NotReadyForCall; }
      if caller !in directory { return UserNotFound; }
      if callee !in directory { return UserNotFound; }
      if !chatOk { return ChatError; }
      incall := incall[caller := call];
      incall := incall[callee := call];
      SAdd(call, {callee, caller}, {directory[caller], directory[callee]});
      JoinTwo(directory, old(View()), call, caller, callee);
      return Done;
    }

    method AnswerGroupCall(call: Call, userId: UserId) returns (reply: Reply)
      requires Injective(directory)
      modifies this
      ensures (View(), reply) == Step(directory, old(View()), AnswerGroup(call, userId))
      ensures reply == Done && (userId !in directory.Values ==> unchanged(this))
      ensures forall user | user in directory && directory[user] == userId :: Joined(old(View()), View(), call, {user}, {userId})
    {
      var user := NameOf(directory, userId);
      if user.None? { return Done; }
      incall := incall[user.value := call];
      SAdd(call, {user.value}, {userId});
      JoinOne(directory, old(View()), call, user.value);
      return Done;
    }

    method ClearMarks(users: seq<User>)
      modifies this`incall
      ensures incall == old(incall) - set u | u in users
    {
      for i := 0 to |users|
        invariant incall == old(incall) - set u | u in users[..i]
      {
        assert users[..i + 1] == users[..i] + [users[i]];
        incall := incall - {users[i]};
      }
      assert users[..|users|] == users;
    }

    method ClearPrepared(users: seq<User>)
      modifies this`prepared
      ensures prepared == old(prepared) - Pairs(set u | u in users)
    {
      for i := 0 to |users|
        invariant prepared == old(prepared) - PairsFrom(users[..i], users)
      {
        for j := 0 to |users|
          invariant prepared == old(prepared) - PairsFrom(users[..i], users) - PairsFrom([users[i]], users[..j])
        {
          assert users[..j + 1] == users[..j] + [users[j]];
          if users[i] != users[j] { prepared := prepared - {(users[i], users[j])}; }
        }
        assert users[..|users|] == users;
        assert users[..i + 1] == users[..i] + [users[i]];
        assert PairsFrom(users[..i + 1], users) == PairsFrom(users[..i], users) + PairsFrom([users[i]], users);
      }
      assert users[..|users|] == users;
      assert PairsFrom(users, users) == Pairs(set u | u in users);
    }

    method EndCall(call: Call)
      modifies this
      ensures View() == EndCallStep(old(View()), call)
      ensures old(View()).MembersOf(call) == {} ==> unchanged(this)
      ensures old(View()).MembersOf(call) != {} ==>
                var us := old(members)[call];
                && incall == old(incall) - us && members == old(members) - {call} && ids == old(ids) - {call}
                && (forall u, v :: (u, v) in prepared <==> (u, v) in old(prepared) && !(u in us && v in us && u != v))
                && (forall p <- prepared :: prepared[p] == old(prepared)[p])
    {
      var users := SMembers(call);
      if |users| > 0 {
        assert users[0] in View().MembersOf(call);
        ClearMarks(users);
        ClearPrepared(users);
        members := members - {call};
        ids := ids - {call};
      }
    }

    method EndCallByMemberUsername(user: User)
      requires Injective(directory)
      modifies this
      ensures View() == Step(directory, old(View()), EndByMember(user)).0
    {
      if user !in incall || incall[user] == "" { return; }
      EndCall(incall[user]);
    }
  }

  function PairsFrom(left: seq<User>, right: seq<User>): set<(User, User)> {
    set u, v | u in left && v in right && u != v :: (u, v)
  }

  lemma JoinOne(d: Directory, s: State, call: Call, u: User)
    requires u in d
    ensures Join(d, s, call, {u}) ==
              State(s.incall[u := call], s.members[call := s.MembersOf(call) + {u}], s.ids[call := s.IdsOf(call) + {d[u]}], s.prepared)
  {
    assert s.incall + MarkAll({u}, call) == s.incall[u := call];
    assert IdsFor(d, {u}) == {d[u]};
  }

  lemma JoinTwo(d: Directory, s: State, call: Call, u: User, v: User)
    requires u in d && v in d
    ensures Join(d, s, call, {u, v}) ==
              State(s.incall[u := call][v := call], s.members[call := s.MembersOf(call) + {v, u}],
                    s.ids[call := s.IdsOf(call) + {d[u], d[v]}], s.prepared)
  {
    assert s.incall + MarkAll({u, v}, call) == s.incall[u := call][v := call];
    assert {u, v} == {v, u};
    assert IdsFor(d, {u, v}) == {d[u], d[v]};
  }

  // ---------------------------------------------------------------- what every operation keeps

  ghost predicate Marked(s: State, u: User) { u in s.incall ==> u in s.MembersOf(s.incall[u]) }

  ghost predicate Agree(d: Directory, s: State, c: Call) {
    s.MembersOf(c) <= d.Keys && s.IdsOf(c) == IdsFor(d, s.MembersOf(c))
  }

  /** A marked user is a member of the call he is marked in, and the two member sets of every call agree. */
  ghost predicate Inv(d: Directory, s: State) {
    (forall u :: Marked(s, u)) && (forall c :: Agree(d, s, c))
  }

  /** Membership and mark are the same thing for this user and call. */
  ghost predicate Same(s: State, u: User, c: Call) { u in s.MembersOf(c) <==> u in s.incall && s.incall[u] == c }

  ghost predicate Exclusive(s: State) { forall u, c :: Same(s, u, c) }

  lemma JoinMembers(d: Directory, s: State, call: Call, users: set<User>, c: Call)
    ensures var t := Join(d, s, call, users);
            t.MembersOf(c) == s.MembersOf(c) + (if c == call then users else {})
            && t.IdsOf(c) == s.IdsOf(c) + (if c == call then IdsFor(d, users) else {})
  {
  }

  lemma EndMembers(s: State, call: Call, c: Call)
    requires s.MembersOf(call) != {}
    ensures var t := EndCallStep(s, call);
            t.MembersOf(c) == (if c == call then {} else s.MembersOf(c)) && t.IdsOf(c) == (if c == call then {} else s.IdsOf(c))
  {
  }

  lemma JoinKeepsInv(d: Directory, s: State, call: Call, users: set<User>)
    requires Inv(d, s) && users <= d.Keys
    ensures Inv(d, Join(d, s, call, users))
  {
    var t := Join(d, s, call, users);
    forall c ensures Agree(d, t, c) {
      JoinMembers(d, s, call, users, c);
      assert Agree(d, s, c);
      assert IdsFor(d, s.MembersOf(c) + users) == IdsFor(d, s.MembersOf(c)) + IdsFor(d, users);
    }
    forall u ensures Marked(t, u) {
      assert Marked(s, u);
      if u in t.incall { JoinMembers(d, s, call, users, t.incall[u]); }
    }
  }

  lemma EndKeepsInv(d: Directory, s: State, call: Call)
    requires Inv(d, s)
    ensures Inv(d, EndCallStep(s, call))
  {
    if s.MembersOf(call) != {} {
      var t := EndCallStep(s, call);
      forall c ensures Agree(d, t, c) {
        assert Agree(d, s, c);
        EndMembers(s, call, c);
      }
      forall u ensures Marked(t, u) {
        assert Marked(s, u);
        if u in t.incall { EndMembers(s, call, t.incall[u]); }
      }
    }
  }

  lemma PreparingKeepsInv(d: Directory, s: State, prepared: map<(User, User), Entry<string>>)
    requires Inv(d, s)
    ensures Inv(d, s.(prepared := prepared))
  {
    var t := s.(prepared := prepared);
    forall c ensures Agree(d, t, c) { assert Agree(d, s, c); }
    forall u ensures Marked(t, u) { assert Marked(s, u); }
  }

  lemma StepKeepsInv(d: Directory, s: State, op: Op)
    requires Injective(d) && Inv(d, s)
    ensures Inv(d, Step(d, s, op).0)
  {
    match op
    case Prepare(_, _, _) => PreparingKeepsInv(d, s, Step(d, s, op).0.prepared);
    case Init(_, _, _) => PreparingKeepsInv(d, s, Step(d, s, op).0.prepared);
    case StartGroup(call, caller) => if caller in d { JoinKeepsInv(d, s, call, {caller}); }
    case StartDirect(_, call, caller, callee, _) => if caller in d && callee in d { JoinKeepsInv(d, s, call, {caller, callee}); }
    case AnswerGroup(call, userId) =>
      var user := NameOf(d, userId);
      if user.Some? { JoinKeepsInv(d, s, call, {user.value}); }
    case End(call) => EndKeepsInv(d, s, call);
    case EndByMember(user) => if user in s.incall { EndKeepsInv(d, s, s.incall[user]); }
  }

  function Run(d: Directory, ops: seq<Op>): State
    requires Injective(d)
  {
    if ops == [] then State(map[], map[], map[], map[]) else Step(d, Run(d, ops[..|ops| - 1]), ops[|ops| - 1]).0
  }

  lemma {:induction false} RunKeepsInv(d: Directory, ops: seq<Op>)
    requires Injective(d)
    ensures Inv(d, Run(d, ops))
  {
    if ops != [] {
      RunKeepsInv(d, ops[..|ops| - 1]);
      StepKeepsInv(d, Run(d, ops[..|ops| - 1]), ops[|ops| - 1]);
    }
  }

  /** Ending a call leaves nobody marked in it, no member set behind, and no readiness between its members. */
  lemma EndCallClearsTheCall(d: Directory, ops: seq<Op>, call: Call)
    requires Injective(d)
    ensures var s, t := Run(d, ops), EndCallStep(Run(d, ops), call);
            && (forall u <- t.incall :: t.incall[u] != call)
            && t.MembersOf(call) == {} && t.IdsOf(call) == {}
            && (forall u, v | u in s.MembersOf(call) && v in s.MembersOf(call) && u != v :: (u, v) !in t.prepared)
  {
    RunKeepsInv(d, ops);
    var s := Run(d, ops);
    var t := EndCallStep(s, call);
    assert Agree(d, s, call);
    forall u | u in t.incall ensures t.incall[u] != call { assert Marked(s, u); }
    assert forall u, v | u in s.MembersOf(call) && v in s.MembersOf(call) && u != v :: (u, v) in Pairs(s.MembersOf(call));
  }

  /** Ending the call of a user frees that user, unless the call has the empty name. */
  lemma EndByMemberFreesTheMember(d: Directory, ops: seq<Op>, user: User)
    requires Injective(d)
    ensures var s, t := Run(d, ops), Step(d, Run(d, ops), EndByMember(user)).0;
            user in t.incall <==> user in s.incall && s.incall[user] == ""
  {
    RunKeepsInv(d, ops);
    assert Marked(Run(d, ops), user);
  }

  // ---------------------------------------------------------------- when calls stay disjoint

  /** A group answer from a user who is marked in another call. */
  predicate Poaches(d: Directory, s: State, op: Op)
    requires Injective(d)
  {
    op.AnswerGroup? && NameOf(d, op.userId).Some?
    && NameOf(d, op.userId).value in s.incall && s.incall[NameOf(d, op.userId).value] != op.call
  }

  lemma JoinKeepsExclusive(d: Directory, s: State, call: Call, users: set<User>)
    requires Exclusive(s) && users <= d.Keys && forall u <- users :: u in s.incall ==> s.incall[u] == call
    ensures Exclusive(Join(d, s, call, users))
  {
    var t := Join(d, s, call, users);
    forall u, c ensures Same(t, u, c) {
      assert Same(s, u, c);
      JoinMembers(d, s, call, users, c);
    }
  }

  lemma EndKeepsExclusive(s: State, call: Call)
    requires Exclusive(s)
    ensures Exclusive(EndCallStep(s, call))
  {
    if s.MembersOf(call) != {} {
      var t := EndCallStep(s, call);
      forall u, c ensures Same(t, u, c) {
        assert Same(s, u, c) && Same(s, u, call);
        EndMembers(s, call, c);
      }
    }
  }

  lemma PreparingKeepsExclusive(s: State, prepared: map<(User, User), Entry<string>>)
    requires Exclusive(s)
    ensures Exclusive(s.(prepared := prepared))
  {
    var t := s.(prepared := prepared);
    forall u, c ensures Same(t, u, c) { assert Same(s, u, c); }
  }

  lemma PoachingBreaksExclusive(d: Directory, s: State, op: Op)
    requires Injective(d) && Exclusive(s) && Poaches(d, s, op)
    ensures !Exclusive(Step(d, s, op).0)
  {
    var u := NameOf(d, op.userId).value;
    assert Same(s, u, s.incall[u]);
    JoinMembers(d, s, op.call, {u}, s.incall[u]);
    assert !Same(Step(d, s, op).0, u, s.incall[u]);
  }

  /** A step keeps membership and mark the same exactly when it is not an answer from a user of another call. */
  lemma ExclusiveKeptExactly(d: Directory, s: State, op: Op)
    requires Injective(d) && Inv(d, s) && Exclusive(s)
    ensures Exclusive(Step(d, s, op).0) <==> !Poaches(d, s, op)
  {
    if Poaches(d, s, op) {
      PoachingBreaksExclusive(d, s, op);
    } else {
      match op
      case Prepare(_, _, _) => PreparingKeepsExclusive(s, Step(d, s, op).0.prepared);
      case Init(_, _, _) => PreparingKeepsExclusive(s, Step(d, s, op).0.prepared);
      case StartGroup(call, caller) => if caller in d && caller !in s.incall { JoinKeepsExclusive(d, s, call, {caller}); }
      case StartDirect(_, call, caller, callee, _) =>
        if caller in d && callee in d && caller !in s.incall && callee !in s.incall { JoinKeepsExclusive(d, s, call, {caller, callee}); }
      case AnswerGroup(call, userId) =>
        var user := NameOf(d, userId);
        if user.Some? { JoinKeepsExclusive(d, s, call, {user.value}); }
      case End(call) => EndKeepsExclusive(s, call);
      case EndByMember(user) => if user in s.incall { EndKeepsExclusive(s, s.incall[user]); }
    }
  }

  /** No operation of the run is an answer from a user of another call. */
  predicate NoPoaching(d: Directory, ops: seq<Op>)
    requires Injective(d)
  {
    ops == [] || (NoPoaching(d, ops[..|ops| - 1]) && !Poaches(d, Run(d, ops[..|ops| - 1]), ops[|ops| - 1]))
  }

  lemma {:induction false} RunStaysExclusive(d: Directory, ops: seq<Op>)
    requires Injective(d) && NoPoaching(d, ops)
    ensures Exclusive(Run(d, ops))
    decreases |ops|
  {
    if ops != [] {
      var before := ops[..|ops| - 1];
      RunStaysExclusive(d, before);
      RunKeepsInv(d, before);
      ExclusiveKeptExactly(d, Run(d, before), ops[|ops| - 1]);
    }
  }

  /** If nobody answers into a second call, live calls never share a member. */
  lemma CallsStayDisjoint(d: Directory, ops: seq<Op>, b: Call, c: Call)
    requires Injective(d) && NoPoaching(d, ops) && b != c
    ensures Run(d, ops).MembersOf(b) !! Run(d, ops).MembersOf(c)
  {
    RunStaysExclusive(d, ops);
    var s := Run(d, ops);
    forall u | u in s.MembersOf(b) ensures u !in s.MembersOf(c) { assert Same(s, u, b) && Same(s, u, c); }
  }

  /** After an answer from a user of another call, ending that other call frees the user although he is in the new one. */
  lemma EndingCanFreeAnotherCall(d: Directory, s: State, op: Op)
    requires Injective(d) && Inv(d, s) && Poaches(d, s, op)
    ensures var u, t := NameOf(d, op.userId).value, Step(d, s, op).0;
            u in t.incall && t.incall[u] == op.call && u !in EndCallStep(t, s.incall[u]).incall
  {
    var u := NameOf(d, op.userId).value;
    assert Marked(s, u);
    JoinMembers(d, s, op.call, {u}, s.incall[u]);
  }

  lemma RunAppend(d: Directory, ops: seq<Op>, op: Op)
    requires Injective(d)
    ensures Run(d, ops + [op]) == Step(d, Run(d, ops), op).0
  {
    assert (ops + [op])[..|ops|] == ops;
  }

  const QUIET := State(map[], map[], map[], map[])

  lemma PoachingStates(d: Directory, u: User, b: Call, c: Call)
    requires Injective(d) && u in d && b != c
    ensures var s := Step(d, QUIET, StartGroup(b, u)).0;
            var t := Step(d, s, AnswerGroup(c, d[u])).0;
            && Poaches(d, s, AnswerGroup(c, d[u])) && u in t.MembersOf(b) && u in t.MembersOf(c)
            && u !in EndCallStep(t, b).incall && u in EndCallStep(t, b).MembersOf(c)
  {
    var s := Join(d, QUIET, b, {u});
    var t := Join(d, s, c, {u});
    assert NameOf(d, d[u]) == Some(u);
    JoinMembers(d, QUIET, b, {u}, b);
    JoinMembers(d, s, c, {u}, b);
    JoinMembers(d, s, c, {u}, c);
    EndMembers(t, b, c);
  }

  /** A user starts a group call and answers another one; ending the first then frees him although he is in the second. */
  lemma PoachingRun(d: Directory, u: User, b: Call, c: Call)
    requires Injective(d) && u in d && b != c
    ensures var start, answer := [] + [StartGroup(b, u)], AnswerGroup(c, d[u]);
            && Poaches(d, Run(d, start), answer)
            && u in Run(d, start + [answer]).MembersOf(b) && u in Run(d, start + [answer]).MembersOf(c)
            && u !in Run(d, start + [answer] + [End(b)]).incall && u in Run(d, start + [answer] + [End(b)]).MembersOf(c)
  {
    var start, answer := [] + [StartGroup(b, u)], AnswerGroup(c, d[u]);
    RunAppend(d, [], StartGroup(b, u));
    RunAppend(d, start, answer);
    RunAppend(d, start + [answer], End(b));
    PoachingStates(d, u, b, c);
  }

  // ---------------------------------------------------------------- who is ready for whom

  /** The operation makes u ready to call v. */
  predicate Readies(d: Directory, s: State, op: Op, u: User, v: User) {
    || (op.Prepare? && op.caller == u && op.callee == v)
    || (op.Init? && u in d && d[u] == op.callerId && op.callee == v && u !in s.incall && v !in s.incall)
  }

  /** The operation ends a call that both are in. */
  predicate Parts(s: State, op: Op, u: User, v: User) {
    && u != v
    && ((op.End? && {u, v} <= s.MembersOf(op.call))
        || (op.EndByMember? && op.user in s.incall && s.incall[op.user] != "" && {u, v} <= s.MembersOf(s.incall[op.user])))
  }

  /** Until when u is ready to call v: two minutes from the last time he got ready, unless a call they were both in ended since. */
  function ReadyUntil(d: Directory, ops: seq<Op>, u: User, v: User): Option<int>
    requires Injective(d)
  {
    if ops == [] then None else
      var before, op := ops[..|ops| - 1], ops[|ops| - 1];
      if Readies(d, Run(d, before), op, u, v) then Some(op.now + 120_000_000_000)
      else if Parts(Run(d, before), op, u, v) then None
      else ReadyUntil(d, before, u, v)
  }

  function ExpiryOf(s: State, u: User, v: User): Option<int> { if (u, v) in s.prepared then s.prepared[(u, v)].expires else None }

  predicate Expiring(s: State) { forall p <- s.prepared :: s.prepared[p].expires.Some? }

  lemma EndReadiness(s: State, call: Call, u: User, v: User)
    requires Expiring(s)
    ensures Expiring(EndCallStep(s, call))
    ensures ExpiryOf(EndCallStep(s, call), u, v) == if u != v && {u, v} <= s.MembersOf(call) then None else ExpiryOf(s, u, v)
  {
    assert (u, v) in Pairs(s.MembersOf(call)) <==> u != v && {u, v} <= s.MembersOf(call);
  }

  lemma StepReadiness(d: Directory, s: State, op: Op, u: User, v: User)
    requires Injective(d) && Expiring(s)
    ensures Expiring(Step(d, s, op).0)
    ensures ExpiryOf(Step(d, s, op).0, u, v) ==
              if Readies(d, s, op, u, v) then Some(op.now + 120_000_000_000) else if Parts(s, op, u, v) then None else ExpiryOf(s, u, v)
  {
    match op
    case Prepare(_, _, _) =>
    case Init(_, _, _) =>
    case StartGroup(_, _) =>
    case StartDirect(_, _, _, _, _) =>
    case AnswerGroup(_, _) =>
    case End(call) => EndReadiness(s, call, u, v);
    case EndByMember(user) => if user in s.incall { EndReadiness(s, s.incall[user], u, v); }
  }

  lemma {:induction false} ReadinessFollows(d: Directory, ops: seq<Op>, u: User, v: User)
    requires Injective(d)
    ensures Expiring(Run(d, ops)) && ExpiryOf(Run(d, ops), u, v) == ReadyUntil(d, ops, u, v)
  {
    if ops != [] {
      ReadinessFollows(d, ops[..|ops| - 1], u, v);
      StepReadiness(d, Run(d, ops[..|ops| - 1]), ops[|ops| - 1], u, v);
    }
  }

  /** After any run a direct call starts exactly when both users are free and known, and the caller has got ready for this
      callee less than two minutes before, no call of the two having ended since. */
  lemma DirectCallStartsExactly(d: Directory, ops: seq<Op>, now: int, call: Call, caller: User, callee: User)
    requires Injective(d)
    ensures var s, until := Run(d, ops), ReadyUntil(d, ops, caller, callee);
            Step(d, s, StartDirect(now, call, caller, callee, true)).1 == Done <==>
              caller in d && callee in d && caller !in s.incall && callee !in s.incall && until.Some? && now < until.value
  {
    ReadinessFollows(d, ops, caller, callee);
    assert Expiring(Run(d, ops));
  }
}
