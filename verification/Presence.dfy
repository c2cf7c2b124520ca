/** The chat service's connection registry and the presence counters it keeps in the key-value store. */
module Presence {
  import opened Collections

  datatype User = User(id: nat)
  datatype Conn = Conn(id: nat)
  type Chat = string

  /** An ONLINE_STATUS broadcast. */
  datatype Notice = Notice(user: User, isOnline: bool)

  datatype State = State(
    connections: map<User, set<Conn>>,
    mutexes: set<Conn>,
    activeChats: map<User, Chat>,
    counters: map<User, int>,
    onlineCount: int,
    notices: seq<Notice>)
  {
    function ConnsOf(u: User): set<Conn> { if u in connections then connections[u] else {} }

    function Counter(u: User): int { if u in counters then counters[u] else 0 }
  }

  datatype Event =
    | Register(user: User, conn: Conn)
    | Unregister(user: User, conn: Conn)
    | Subscribe(user: User, conn: Conn, chat: Chat)
    | Unsubscribe(user: User, conn: Conn, chat: Chat)

  const EMPTY := State(map[], {}, map[], map[], 0, [])

  // ---------------------------------------------------------------- one step

  function GoOnline(s: State, u: User): State {
    var n := s.Counter(u) + 1;
    var t := s.(counters := s.counters[u := n]);
    if n == 1 then t.(onlineCount := t.onlineCount + 1, notices := t.notices + [Notice(u, true)]) else t
  }

  function GoOffline(s: State, u: User): State {
    var n := s.Counter(u) - 1;
    if n < 0 then s.(counters := s.counters - {u}, notices := s.notices + [Notice(u, false)])
    else if n == 0 then
      s.(counters := s.counters - {u}, onlineCount := s.onlineCount - 1, notices := s.notices + [Notice(u, false)])
    else s.(counters := s.counters[u := n])
  }

  function AddConn(s: State, u: User, c: Conn): State {
    s.(connections := s.connections[u := s.ConnsOf(u) + {c}], mutexes := s.mutexes + {c})
  }

  /** Forget one connection, and the user with the last of them. */
  function DropConn(s: State, u: User, c: Conn): State {
    var mutexes := if c in s.ConnsOf(u) then s.mutexes - {c} else s.mutexes;
    if s.ConnsOf(u) - {c} == {} then
      s.(connections := s.connections - {u}, mutexes := mutexes, activeChats := s.activeChats - {u})
    else s.(connections := s.connections[u := s.ConnsOf(u) - {c}], mutexes := mutexes)
  }

  /** Unregistering this connection leaves its user without any. */
  predicate Disconnects(s: State, e: Event) {
    e.Unregister? && e.user in s.connections && s.connections[e.user] - {e.conn} == {}
  }

  function Step(s: State, e: Event): State {
    match e
    case Register(u, c) => GoOnline(AddConn(s, u, c), u)
    case Unregister(u, c) =>
      if u !in s.connections then s
      else if Disconnects(s, e) then GoOffline(DropConn(s, u, c), u)
      else DropConn(s, u, c)
    case Subscribe(u, c, chat) => if chat == "" then s else s.(activeChats := s.activeChats[u := chat])
    case Unsubscribe(u, c, chat) =>
      if u in s.activeChats && s.activeChats[u] == chat then s.(activeChats := s.activeChats - {u}) else s
  }

  /** A websocket is registered once, when it is opened, and its commands are read while it is registered. */
  predicate Enabled(s: State, e: Event) {
    match e
    case Register(u, c) => c !in s.mutexes
    case Unregister(u, c) => true
    case Subscribe(u, c, chat) => c in s.ConnsOf(u)
    case Unsubscribe(u, c, chat) => c in s.ConnsOf(u)
  }

  /** The counter has gone up by one, and the first connection of all was counted and broadcast. */
  ghost predicate CameOnline(s: State, t: State, u: User) {
    && t.counters == s.counters[u := s.Counter(u) + 1]
    && (s.Counter(u) == 0 ==> t.onlineCount == s.onlineCount + 1 && t.notices == s.notices + [Notice(u, true)])
    && (s.Counter(u) != 0 ==> t.onlineCount == s.onlineCount && t.notices == s.notices)
  }

  /** The counter has gone down by one; one that reaches zero, or was not above it, is removed and broadcast. */
  ghost predicate WentOffline(s: State, t: State, u: User) {
    && (s.Counter(u) > 1 ==> t.counters == s.counters[u := s.Counter(u) - 1] && t.notices == s.notices)
    && (s.Counter(u) <= 1 ==> t.counters == s.counters - {u} && t.notices == s.notices + [Notice(u, false)])
    && t.onlineCount == if s.Counter(u) == 1 then s.onlineCount - 1 else s.onlineCount
  }

  // ---------------------------------------------------------------- the service

  class Registry {
    var connections: map<User, set<Conn>>
    var writeMutexes: set<Conn>
    var activeChats: map<User, Chat>
    var counters: map<User, int>
    var onlineCount: int
    var notices: seq<Notice>

    constructor ()
      ensures View() == EMPTY
    {
      connections, writeMutexes, activeChats, counters, onlineCount, notices := map[], {}, map[], map[], 0, [];
    }

    ghost function View(): State reads this {
      State(connections, writeMutexes, activeChats, counters, onlineCount, notices)
    }

    method RegisterClient(user: User, conn: Conn)
      modifies this
      ensures View() == Step(old(View()), Register(user, conn))
      ensures connections == old(connections)[user := old(View()).ConnsOf(user) + {conn}] && writeMutexes == old(writeMutexes) + {conn}
      ensures activeChats == old(activeChats) && CameOnline(old(View()), View(), user)
    {
      if user !in connections { connections := connections[user := {}]; }
      connections := connections[user := connections[user] + {conn}];
      writeMutexes := writeMutexes + {conn};
      assert View() == AddConn(old(View()), user, conn);
      HandleRedisOnline(user);
    }

    method UnregisterClient(user: User, conn: Conn)
      modifies this
      ensures View() == Step(old(View()), Unregister(user, conn))
      ensures user !in old(connections) ==> unchanged(this)
      ensures user in old(connections) ==> writeMutexes == old(writeMutexes) - ({conn} * old(connections)[user])
      ensures user in old(connections) && old(connections)[user] <= {conn} ==>
                && connections == old(connections) - {user} && activeChats == old(activeChats) - {user}
                && WentOffline(old(View()), View(), user)
      ensures user in old(connections) && !(old(connections)[user] <= {conn}) ==>
                && connections == old(connections)[user := old(connections)[user] - {conn}] && activeChats == old(activeChats)
                && counters == old(counters) && onlineCount == old(onlineCount) && notices == old(notices)
    {
      if user in connections {
        var conns := connections[user];
        if conn in conns {
          connections := connections[user := conns - {conn}];
          writeMutexes := writeMutexes - {conn};
        } else {
          assert conns - {conn} == conns && connections[user := conns] == connections;
        }
        if connections[user] == {} {
          connections := connections - {user};
          activeChats := activeChats - {user};
          assert View() == DropConn(old(View()), user, conn);
          HandleRedisOffline(user);
          return;
        }
        assert View() == DropConn(old(View()), user, conn);
      }
    }

    method HandleRedisOnline(user: User)
      modifies this`counters, this`onlineCount, this`notices
      ensures View() == GoOnline(old(View()), user)
      ensures CameOnline(old(View()), View(), user)
    {
      var count := (if user in counters then counters[user] else 0) + 1;
      counters := counters[user := count];
      if count == 1 {
        onlineCount := onlineCount + 1;
        notices := notices + [Notice(user, true)];
      }
    }

    method HandleRedisOffline(user: User)
      modifies this`counters, this`onlineCount, this`notices
      ensures View() == GoOffline(old(View()), user)
      ensures WentOffline(old(View()), View(), user)
    {
      var count := (if user in counters then counters[user] else 0) - 1;
      counters := counters[user := count];
      if count < 0 {
        counters := counters - {user};
        notices := notices + [Notice(user, false)];
        assert counters == old(counters) - {user};
        return;
      }
      if count == 0 {
        counters := counters - {user};
        onlineCount := onlineCount - 1;
        notices := notices + [Notice(user, false)];
        assert counters == old(counters) - {user};
      }
    }

    method HandleSubscribe(user: User, conn: Conn, chat: Chat)
      modifies this`activeChats
      ensures View() == Step(old(View()), Subscribe(user, conn, chat))
      ensures activeChats == if chat == "" then old(activeChats) else old(activeChats)[user := chat]
    {
      if chat != "" { activeChats := activeChats[user := chat]; }
    }

    method HandleUnsubscribe(user: User, conn: Conn, chat: Chat)
      modifies this`activeChats
      ensures View() == Step(old(View()), Unsubscribe(user, conn, chat))
      ensures forall u :: u in activeChats <==> u in old(activeChats) && !(u == user && old(activeChats)[u] == chat)
      ensures forall u <- activeChats :: activeChats[u] == old(activeChats)[u]
    {
      if user in activeChats && activeChats[user] == chat { activeChats := activeChats - {user}; }
    }
  }

  // ---------------------------------------------------------------- the registry

  function AllConns(connections: map<User, set<Conn>>): set<Conn> {
    set u, c | u in connections && c in connections[u] :: c
  }

  /** The connections of one user: some, all with a write mutex, none shared with another user. */
  ghost predicate UserConnsOk(s: State, u: User) {
    u in s.connections ==>
      s.connections[u] != {} && forall v | v in s.connections && v != u :: s.connections[u] !! s.connections[v]
  }

  ghost predicate RegistryInv(s: State) {
    && s.mutexes == AllConns(s.connections)
    && (forall u :: UserConnsOk(s, u))
    && s.activeChats.Keys <= s.connections.Keys
  }

  lemma AddKeepsRegistry(s: State, u: User, c: Conn)
    requires RegistryInv(s) && c !in s.mutexes
    ensures RegistryInv(AddConn(s, u, c))
  {
    var t := AddConn(s, u, c);
    assert c in t.connections[u];
    forall d ensures d in t.mutexes <==> d in AllConns(t.connections) {
      if d in s.mutexes {
        var v :| v in s.connections && d in s.connections[v];
        assert d in t.connections[v];
      }
    }
    forall v ensures UserConnsOk(t, v) {
      assert UserConnsOk(s, v) && UserConnsOk(s, u);
      assert forall w | w in s.connections :: s.connections[w] <= s.mutexes;
    }
  }

  lemma DropKeepsRegistry(s: State, u: User, c: Conn)
    requires RegistryInv(s) && u in s.connections
    ensures RegistryInv(DropConn(s, u, c))
  {
    var t := DropConn(s, u, c);
    assert UserConnsOk(s, u);
    forall d ensures d in t.mutexes <==> d in AllConns(t.connections) {
      if d in s.mutexes {
        var v :| v in s.connections && d in s.connections[v];
        if v != u { assert t.connections[v] == s.connections[v]; }
        if v == u && d != c { assert d in s.ConnsOf(u) - {c} && u in t.connections; }
      }
      if d in AllConns(t.connections) {
        var v :| v in t.connections && d in t.connections[v];
        assert d in s.connections[v];
      }
    }
    forall v ensures UserConnsOk(t, v) { assert UserConnsOk(s, v); }
  }

  // ---------------------------------------------------------------- the counters

  /** The last status announced for a user; nobody is online before the first announcement. */
  function LastNotice(notices: seq<Notice>, u: User): bool {
    if notices == [] then false
    else if notices[|notices| - 1].user == u then notices[|notices| - 1].isOnline
    else LastNotice(notices[..|notices| - 1], u)
  }

  ghost predicate UserCountOk(s: State, u: User) {
    && (u in s.counters ==> s.counters[u] >= 1)
    && LastNotice(s.notices, u) == (u in s.counters)
  }

  ghost predicate CountersInv(s: State) {
    s.onlineCount == |s.counters| && forall u :: UserCountOk(s, u)
  }

  lemma NoticeAdded(notices: seq<Notice>, n: Notice, u: User)
    ensures LastNotice(notices + [n], u) == if n.user == u then n.isOnline else LastNotice(notices, u)
  {
    assert (notices + [n])[..|notices|] == notices;
  }

  lemma OnlineKeepsUser(s: State, u: User, v: User)
    requires UserCountOk(s, v)
    ensures UserCountOk(GoOnline(s, u), v)
  {
    NoticeAdded(s.notices, Notice(u, true), v);
  }

  lemma OfflineKeepsUser(s: State, u: User, v: User)
    requires UserCountOk(s, v) && u in s.counters && s.counters[u] >= 1
    ensures UserCountOk(GoOffline(s, u), v)
  {
    NoticeAdded(s.notices, Notice(u, false), v);
  }

  lemma OnlineKeepsCounters(s: State, u: User)
    requires CountersInv(s)
    ensures CountersInv(GoOnline(s, u)) && GoOnline(s, u).Counter(u) == s.Counter(u) + 1
  {
    forall v ensures UserCountOk(GoOnline(s, u), v) {
      assert UserCountOk(s, v);
      OnlineKeepsUser(s, u, v);
    }
    assert UserCountOk(s, u);
    CountOnline(s, u);
  }

  lemma CountOnline(s: State, u: User)
    requires s.onlineCount == |s.counters| && (u in s.counters ==> s.counters[u] >= 1)
    ensures GoOnline(s, u).onlineCount == |GoOnline(s, u).counters|
  {
    var t := GoOnline(s, u);
    if u in s.counters { assert t.counters.Keys == s.counters.Keys; } else { assert t.counters.Keys == s.counters.Keys + {u}; }
  }

  /** With a positive counter, going offline never takes the negative branch. */
  lemma OfflineKeepsCounters(s: State, u: User)
    requires CountersInv(s) && u in s.counters
    ensures CountersInv(GoOffline(s, u)) && GoOffline(s, u).Counter(u) == s.Counter(u) - 1 >= 0
  {
    var t := GoOffline(s, u);
    assert UserCountOk(s, u);
    forall v ensures UserCountOk(t, v) {
      assert UserCountOk(s, v);
      OfflineKeepsUser(s, u, v);
    }
    if s.counters[u] > 1 { assert t.counters.Keys == s.counters.Keys; } else { assert t.counters.Keys == s.counters.Keys - {u}; }
  }

  // ---------------------------------------------------------------- whole runs

  ghost predicate Inv(s: State) {
    RegistryInv(s) && CountersInv(s) && s.connections.Keys <= s.counters.Keys
  }

  lemma RegisterKeepsInv(s: State, u: User, c: Conn)
    requires Inv(s) && c !in s.mutexes
    ensures Inv(Step(s, Register(u, c)))
  {
    AddKeepsRegistry(s, u, c);
    SameCounters(s, AddConn(s, u, c));
    OnlineKeepsCounters(AddConn(s, u, c), u);
    SameRegistry(AddConn(s, u, c), Step(s, Register(u, c)));
  }

  lemma UnregisterKeepsInv(s: State, u: User, c: Conn)
    requires Inv(s) && u in s.connections
    ensures Inv(Step(s, Unregister(u, c)))
  {
    DropKeepsRegistry(s, u, c);
    SameCounters(s, DropConn(s, u, c));
    if Disconnects(s, Unregister(u, c)) {
      OfflineKeepsCounters(DropConn(s, u, c), u);
      SameRegistry(DropConn(s, u, c), Step(s, Unregister(u, c)));
    }
  }

  lemma ChatsKeepInv(s: State, chats: map<User, Chat>)
    requires Inv(s) && chats.Keys <= s.connections.Keys
    ensures Inv(s.(activeChats := chats))
  {
    SameCounters(s, s.(activeChats := chats));
    SameUsers(s, s.(activeChats := chats));
  }

  lemma StepKeepsInv(s: State, e: Event)
    requires Inv(s) && Enabled(s, e)
    ensures Inv(Step(s, e))
  {
    match e
    case Register(u, c) => RegisterKeepsInv(s, u, c);
    case Unregister(u, c) => if u in s.connections { UnregisterKeepsInv(s, u, c); }
    case Subscribe(u, c, chat) => ChatsKeepInv(s, Step(s, e).activeChats);
    case Unsubscribe(u, c, chat) => ChatsKeepInv(s, Step(s, e).activeChats);
  }

  lemma SameCounters(s: State, t: State)
    requires CountersInv(s) && t.counters == s.counters && t.onlineCount == s.onlineCount && t.notices == s.notices
    ensures CountersInv(t)
  {
    forall u ensures UserCountOk(t, u) { assert UserCountOk(s, u); }
  }

  lemma SameUsers(s: State, t: State)
    requires (forall u :: UserConnsOk(s, u)) && t.connections == s.connections
    ensures forall u :: UserConnsOk(t, u)
  {
    forall u ensures UserConnsOk(t, u) { assert UserConnsOk(s, u); }
  }

  lemma SameRegistry(s: State, t: State)
    requires RegistryInv(s) && t.connections == s.connections && t.mutexes == s.mutexes && t.activeChats == s.activeChats
    ensures RegistryInv(t)
  {
    SameUsers(s, t);
  }

  function Run(events: seq<Event>): State {
    if events == [] then EMPTY else Step(Run(events[..|events| - 1]), events[|events| - 1])
  }

  predicate Possible(events: seq<Event>) {
    events == [] || (Possible(events[..|events| - 1]) && Enabled(Run(events[..|events| - 1]), events[|events| - 1]))
  }

  /** How often the user opened a connection. */
  function Registrations(events: seq<Event>, u: User): nat {
    if events == [] then 0
    else Registrations(events[..|events| - 1], u)
         + if events[|events| - 1].Register? && events[|events| - 1].user == u then 1 else 0
  }

  /** How often the user closed the last of his connections. */
  function FullDisconnects(events: seq<Event>, u: User): nat {
    if events == [] then 0
    else FullDisconnects(events[..|events| - 1], u)
         + if Disconnects(Run(events[..|events| - 1]), events[|events| - 1]) && events[|events| - 1].user == u then 1 else 0
  }

  /** How often the user opened a connection while another of his was open. */
  function Overlaps(events: seq<Event>, u: User): nat {
    if events == [] then 0
    else Overlaps(events[..|events| - 1], u)
         + if events[|events| - 1].Register? && events[|events| - 1].user == u && u in Run(events[..|events| - 1]).connections
           then 1 else 0
  }

  lemma {:induction false} RunKeepsInv(events: seq<Event>)
    requires Possible(events)
    ensures Inv(Run(events))
    decreases |events|
  {
    if events == [] {
      forall u ensures UserConnsOk(EMPTY, u) && UserCountOk(EMPTY, u) {}
    } else {
      RunKeepsInv(events[..|events| - 1]);
      StepKeepsInv(Run(events[..|events| - 1]), events[|events| - 1]);
    }
  }

  /** A step changes the counter of a user by his registration or his full disconnect, and of nobody else. */
  lemma CounterStep(s: State, e: Event, u: User)
    requires Inv(s) && Enabled(s, e)
    ensures Step(s, e).Counter(u) == s.Counter(u)
              + (if e.Register? && e.user == u then 1 else 0) - (if Disconnects(s, e) && e.user == u then 1 else 0)
    ensures u in Step(s, e).connections <==>
              if e.Register? && e.user == u then true else u in s.connections && !(Disconnects(s, e) && e.user == u)
  {
    assert UserCountOk(s, e.user);
  }

  /** The counter is what the history says: opened connections less full disconnects. */
  lemma {:induction false} CounterIsHistory(events: seq<Event>, u: User)
    requires Possible(events)
    ensures Run(events).Counter(u) == Registrations(events, u) - FullDisconnects(events, u)
    ensures Run(events).Counter(u) == Overlaps(events, u) + if u in Run(events).connections then 1 else 0
    decreases |events|
  {
    if events != [] {
      CounterIsHistory(events[..|events| - 1], u);
      RunKeepsInv(events[..|events| - 1]);
      CounterStep(Run(events[..|events| - 1]), events[|events| - 1], u);
    }
  }

  /** What the status queries answer after any run: a connected user is never reported offline,
      and a disconnected one is reported offline exactly when he never had two connections at once. */
  lemma PresenceReported(events: seq<Event>, u: User)
    requires Possible(events)
    ensures LastNotice(Run(events).notices, u) <==> Run(events).Counter(u) > 0
    ensures u in Run(events).connections ==> Run(events).Counter(u) > 0
    ensures (Run(events).Counter(u) > 0 <==> u in Run(events).connections)
            <==> u in Run(events).connections || Overlaps(events, u) == 0
  {
    CounterIsHistory(events, u);
    RunKeepsInv(events);
    assert UserCountOk(Run(events), u);
  }

  /** The published number of online users is the number of users with a positive counter. */
  lemma OnlineCountIsExact(events: seq<Event>)
    requires Possible(events)
    ensures var s := Run(events); s.onlineCount == |set u | u in s.counters && s.counters[u] > 0| >= |s.connections|
  {
    RunKeepsInv(events);
    var s := Run(events);
    forall u | u in s.counters ensures s.counters[u] > 0 { assert UserCountOk(s, u); }
    assert (set u | u in s.counters && s.counters[u] > 0) == s.counters.Keys;
    SubsetSize(s.connections.Keys, s.counters.Keys);
  }

  /** An offline notice is only sent for a user without a connection, and the counter it finds is never negative. */
  lemma OfflineOnlyWithoutConnections(events: seq<Event>, e: Event)
    requires Possible(events) && Disconnects(Run(events), e)
    ensures Run(events).Counter(e.user) >= 1
    ensures e.user !in Step(Run(events), e).connections && e.user !in Step(Run(events), e).activeChats
    ensures Step(Run(events), e).onlineCount == Run(events).onlineCount - if Run(events).Counter(e.user) == 1 then 1 else 0
  {
    CounterIsHistory(events, e.user);
  }
}
