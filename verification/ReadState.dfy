/** Read and unread chat messages: how a message starts, what marking a chat does, and who still counts it as unread. */
module ReadState {
  import opened Collections

  /** The empty id, the sender of system notes, or a user. */
  datatype Who = NoOne | System | User(id: nat)
  datatype Chat = NoChat | Chat(id: nat)
  datatype MsgId = MsgId(uuid: nat)
  datatype Kind = TEXT | SYSTEM | CALL | OtherKind(name: string)
  datatype Status = SENT | READ

  datatype Message = Message(
    chat: Chat, sender: Who, recipient: Who, kind: Kind, deleted: bool, status: Status, readBy: seq<Who>)

  datatype State = State(messages: map<MsgId, Message>, activeChats: map<Who, Chat>)

  datatype Event =
    | Send(id: MsgId, chat: Chat, sender: Who, recipient: Who, isGroup: bool, members: seq<Who>, kind: Kind)
    | StartCall(id: MsgId, chat: Chat, sender: Who, recipient: Who)
    | SystemNote(id: MsgId, chat: Chat)
    | Open(chat: Chat, user: Who)
    | Subscribe(chat: Chat, user: Who)
    | Unsubscribe(chat: Chat, user: Who)
    | Disconnect(user: Who)
    | Delete(id: MsgId, user: Who)

  const EMPTY := State(map[], map[])

  // ---------------------------------------------------------------- one step

  /** The chat a user has open; a user without one has the empty chat id. */
  function ActiveChat(active: map<Who, Chat>, u: Who): Chat { if u in active then active[u] else NoChat }

  predicate ReadsAlong(active: map<Who, Chat>, u: Who, chat: Chat, sender: Who) {
    u != NoOne && u != sender && ActiveChat(active, u) == chat
  }

  function ActiveMembers(active: map<Who, Chat>, members: seq<Who>, chat: Chat, sender: Who): seq<Who> {
    if members == [] then []
    else
      var rest := ActiveMembers(active, members[..|members| - 1], chat, sender);
      if ReadsAlong(active, members[|members| - 1], chat, sender) then rest + [members[|members| - 1]] else rest
  }

  /** Who has the chat open when a message is sent to it. */
  function InitialReaders(active: map<Who, Chat>, chat: Chat, sender: Who, recipient: Who, isGroup: bool, members: seq<Who>)
    : seq<Who>
  {
    if isGroup then ActiveMembers(active, members, chat, sender)
    else if recipient != NoOne && recipient in active && active[recipient] == chat then [recipient]
    else []
  }

  function NewMessage(active: map<Who, Chat>, e: Event): Message
    requires e.Send? || e.StartCall? || e.SystemNote?
  {
    match e
    case Send(_, chat, sender, recipient, isGroup, members, kind) =>
      var readBy := InitialReaders(active, chat, sender, recipient, isGroup, members);
      Message(chat, sender, if isGroup then NoOne else recipient, kind, false, if readBy == [] then SENT else READ, readBy)
    case StartCall(_, chat, sender, recipient) => Message(chat, sender, recipient, CALL, false, SENT, [])
    case SystemNote(_, chat) => Message(chat, System, NoOne, SYSTEM, false, READ, [])
  }

  function AddToSet(xs: seq<Who>, x: Who): seq<Who> { if x in xs then xs else xs + [x] }

  function MarkOne(m: Message, chat: Chat, user: Who): Message {
    if m.chat == chat && m.sender != user && (user !in m.readBy || m.status != READ)
    then m.(readBy := AddToSet(m.readBy, user), status := READ) else m
  }

  function Marked(s: State, chat: Chat, user: Who): State {
    if chat == NoChat || user == NoOne then s
    else s.(messages := map id | id in s.messages :: MarkOne(s.messages[id], chat, user))
  }

  /** In this chat every message that the user did not send is now read, by him too; nothing else has changed. */
  ghost predicate MarksChat(before: map<MsgId, Message>, after: map<MsgId, Message>, chat: Chat, user: Who) {
    && after.Keys == before.Keys
    && forall id <- before ::
         var m := before[id];
         if chat != NoChat && user != NoOne && m.chat == chat && m.sender != user
         then after[id] == m.(status := READ, readBy := if user in m.readBy then m.readBy else m.readBy + [user])
         else after[id] == m
  }

  lemma MarkedMarksChat(s: State, chat: Chat, user: Who)
    ensures MarksChat(s.messages, Marked(s, chat, user).messages, chat, user)
  {
  }

  function Step(s: State, e: Event): State {
    match e
    case Send(id, _, _, _, _, _, _) => s.(messages := s.messages[id := NewMessage(s.activeChats, e)])
    case StartCall(id, _, _, _) => s.(messages := s.messages[id := NewMessage(s.activeChats, e)])
    case SystemNote(id, _) => s.(messages := s.messages[id := NewMessage(s.activeChats, e)])
    case Open(chat, user) => Marked(s, chat, user)
    case Subscribe(chat, user) =>
      if chat == NoChat then s else Marked(s.(activeChats := s.activeChats[user := chat]), chat, user)
    case Unsubscribe(chat, user) =>
      if user in s.activeChats && s.activeChats[user] == chat then s.(activeChats := s.activeChats - {user}) else s
    case Disconnect(user) => s.(activeChats := s.activeChats - {user})
    case Delete(id, user) =>
      if id in s.messages && s.messages[id].sender == user
      then s.(messages := s.messages[id := s.messages[id].(deleted := true)]) else s
  }

  /** Message ids are new, and only the two special operations write calls and system notes. */
  predicate Enabled(s: State, e: Event) {
    match e
    case Send(id, _, _, _, _, _, kind) => id !in s.messages && kind != SYSTEM && kind != CALL
    case StartCall(id, _, _, _) => id !in s.messages
    case SystemNote(id, _) => id !in s.messages
    case _ => true
  }

  // ---------------------------------------------------------------- the service

  class ChatService {
    var messages: map<MsgId, Message>
    var activeChats: map<Who, Chat>

    constructor ()
      ensures View() == EMPTY
    {
      messages, activeChats := map[], map[];
    }

    ghost function View(): State reads this { State(messages, activeChats) }

    method ComputeInitialReadState(chat: Chat, sender: Who, recipient: Who, isGroup: bool, members: seq<Who>)
      returns (status: Status, readBy: seq<Who>)
      ensures readBy == InitialReaders(activeChats, chat, sender, recipient, isGroup, members)
      ensures status == READ <==> readBy != []
      ensures !isGroup ==>
                readBy == if recipient != NoOne && recipient in activeChats && activeChats[recipient] == chat then [recipient] else []
      ensures isGroup ==> forall u :: u in readBy <==>
                u in members && u != NoOne && u != sender && (if u in activeChats then activeChats[u] else NoChat) == chat
    {
      status, readBy := SENT, [];
      if !isGroup {
        if recipient != NoOne && recipient in activeChats && activeChats[recipient] == chat {
          status := READ;
          readBy := readBy + [recipient];
        }
      } else {
        for i := 0 to |members|
          invariant readBy == ActiveMembers(activeChats, members[..i], chat, sender)
        {
          assert members[..i + 1][..i] == members[..i];
          if members[i] != NoOne && members[i] != sender && ActiveChat(activeChats, members[i]) == chat {
            readBy := readBy + [members[i]];
          }
        }
        assert members[..|members|] == members;
        forall u ensures u in readBy <==> u in members && ReadsAlong(activeChats, u, chat, sender) {
          ActiveMembersExactly(activeChats, members, chat, sender, u);
        }
        if |readBy| > 0 { status := READ; }
      }
    }

    method SendMessage(id: MsgId, chat: Chat, sender: Who, recipient: Who, isGroup: bool, members: seq<Who>, kind: Kind)
      requires id !in messages
      modifies this`messages
      ensures View() == Step(old(View()), Send(id, chat, sender, recipient, isGroup, members, kind))
      ensures id in messages && messages == old(messages)[id := messages[id]]
      ensures var m := messages[id];
              m == Message(chat, sender, if isGroup then NoOne else recipient, kind, false, if m.readBy == [] then SENT else READ, m.readBy)
    {
      var status, readBy := ComputeInitialReadState(chat, sender, recipient, isGroup, members);
      messages := messages[id := Message(chat, sender, if isGroup then NoOne else recipient, kind, false, status, readBy)];
    }

    method MarkMessagesAsRead(chat: Chat, user: Who)
      modifies this`messages
      ensures View() == Marked(old(View()), chat, user)
      ensures MarksChat(old(messages), messages, chat, user)
    {
      MarkedMarksChat(View(), chat, user);
      if chat == NoChat || user == NoOne { return; }
      messages := map id | id in messages :: MarkOne(messages[id], chat, user);
    }

    method HandleSubscribe(chat: Chat, user: Who)
      modifies this
      ensures View() == Step(old(View()), Subscribe(chat, user))
      ensures activeChats == if chat == NoChat then old(activeChats) else old(activeChats)[user := chat]
      ensures MarksChat(old(messages), messages, chat, user)
    {
      if chat != NoChat {
        activeChats := activeChats[user := chat];
        MarkMessagesAsRead(chat, user);
      }
    }

    method HandleUnsubscribe(chat: Chat, user: Who)
      modifies this`activeChats
      ensures View() == Step(old(View()), Unsubscribe(chat, user))
      ensures forall u :: u in activeChats <==> u in old(activeChats) && !(u == user && old(activeChats)[u] == chat)
      ensures forall u <- activeChats :: activeChats[u] == old(activeChats)[u]
    {
      if user in activeChats && activeChats[user] == chat { activeChats := activeChats - {user}; }
    }

    method DeleteMessage(id: MsgId, user: Who) returns (ok: bool)
      modifies this`messages
      ensures View() == Step(old(View()), Delete(id, user))
      ensures ok == (id in old(messages) && old(messages)[id].sender == user)
      ensures messages == if ok then old(messages)[id := old(messages)[id].(deleted := true)] else old(messages)
    {
      if id !in messages || messages[id].sender != user { return false; }
      messages := messages[id := messages[id].(deleted := true)];
      return true;
    }
  }

  // ---------------------------------------------------------------- marking a chat

  /** The filter behind the unread number of a chat in the chat list. */
  predicate CountsAsUnread(m: Message, u: Who, chat: Chat) {
    && m.chat == chat && m.sender != u && m.kind != SYSTEM && !m.deleted && u !in m.readBy
    && (m.recipient == NoOne || m.status != READ)
  }

  function Unread(s: State, u: Who, chat: Chat): set<MsgId> {
    set id | id in s.messages && CountsAsUnread(s.messages[id], u, chat)
  }

  function UnreadCount(s: State, u: Who, chat: Chat): nat { |Unread(s, u, chat)| }

  lemma MarkingClearsUnread(s: State, u: Who, chat: Chat)
    requires chat != NoChat && u != NoOne
    ensures UnreadCount(Marked(s, chat, u), u, chat) == 0
  {
    assert Unread(Marked(s, chat, u), u, chat) == {};
  }

  /** Direct messages in the chat that this member has not read and the reader did not send. */
  function TakenFrom(s: State, v: Who, chat: Chat, reader: Who): set<MsgId> {
    set id | id in Unread(s, v, chat) && s.messages[id].recipient != NoOne && s.messages[id].sender != reader
  }

  /** Marking takes from another member exactly the direct messages that the reader did not send. */
  lemma MarkingTakes(s: State, chat: Chat, reader: Who, v: Who, other: Chat)
    requires chat != NoChat && reader != NoOne && v != reader
    ensures Unread(Marked(s, chat, reader), v, other)
            == if other == chat then Unread(s, v, chat) - TakenFrom(s, v, chat, reader) else Unread(s, v, other)
  {
    var t := Marked(s, chat, reader);
    forall id | id in s.messages
      ensures CountsAsUnread(t.messages[id], v, other) <==>
                CountsAsUnread(s.messages[id], v, other)
                && !(other == chat && s.messages[id].recipient != NoOne && s.messages[id].sender != reader)
    {
      assert t.messages[id] == MarkOne(s.messages[id], chat, reader);
    }
  }

  /** Marking leaves the unread number of another member alone exactly when he has no unread direct message
      there that someone else than the reader sent. */
  lemma OthersKeepTheirCountExactly(s: State, chat: Chat, reader: Who, v: Who)
    requires chat != NoChat && reader != NoOne && v != reader
    ensures UnreadCount(Marked(s, chat, reader), v, chat) == UnreadCount(s, v, chat)
            <==> forall id | id in s.messages && CountsAsUnread(s.messages[id], v, chat) ::
                   s.messages[id].recipient == NoOne || s.messages[id].sender == reader
  {
    MarkingTakes(s, chat, reader, v, chat);
    var taken := TakenFrom(s, v, chat, reader);
    SubsetSize(taken, Unread(s, v, chat));
    if |taken| == 0 {
      assert taken == {};
      forall id | id in s.messages && CountsAsUnread(s.messages[id], v, chat)
        ensures s.messages[id].recipient == NoOne || s.messages[id].sender == reader { assert id !in taken; }
    } else {
      var id := Any(taken);
      assert id in s.messages && CountsAsUnread(s.messages[id], v, chat);
    }
  }

  /** In a group, and in a chat of two people, marking never changes what the others have unread. */
  lemma MembersDoNotDisturb(s: State, chat: Chat, reader: Who, v: Who)
    requires chat != NoChat && reader != NoOne && v != reader
    requires forall id | id in s.messages && s.messages[id].chat == chat ::
               s.messages[id].recipient == NoOne || s.messages[id].sender in {reader, v}
    ensures UnreadCount(Marked(s, chat, reader), v, chat) == UnreadCount(s, v, chat)
  {
    OthersKeepTheirCountExactly(s, chat, reader, v);
  }

  /** Subscribing is open to anybody, and an outsider's visit clears a message its recipient has not seen. */
  lemma OutsiderClearsUnread(s: State, id: MsgId, chat: Chat, a: Who, b: Who, outsider: Who)
    requires chat != NoChat && a != NoOne && b != NoOne && outsider != NoOne && a != b && outsider !in {a, b}
    requires id !in s.messages && ActiveChat(s.activeChats, b) != chat
    ensures var t := Step(s, Send(id, chat, a, b, false, [a, b], TEXT));
            UnreadCount(Step(t, Subscribe(chat, outsider)), b, chat) < UnreadCount(t, b, chat)
  {
    var t := Step(s, Send(id, chat, a, b, false, [a, b], TEXT));
    SentIsUnread(s, id, chat, a, b);
    VisitTakes(t, id, chat, b, outsider);
  }

  lemma SentIsUnread(s: State, id: MsgId, chat: Chat, a: Who, b: Who)
    requires chat != NoChat && a != b && b != NoOne && ActiveChat(s.activeChats, b) != chat
    ensures var t := Step(s, Send(id, chat, a, b, false, [a, b], TEXT));
            id in Unread(t, b, chat) && t.messages[id].recipient != NoOne && t.messages[id].sender == a
  {
  }

  lemma SameMessagesSameUnread(s: State, t: State, u: Who, chat: Chat)
    requires t.messages == s.messages
    ensures Unread(t, u, chat) == Unread(s, u, chat)
  {
  }

  /** Subscribing takes an unread direct message of somebody else from its recipient. */
  lemma VisitTakes(t: State, id: MsgId, chat: Chat, b: Who, outsider: Who)
    requires chat != NoChat && outsider != NoOne && outsider != b
    requires id in Unread(t, b, chat) && t.messages[id].recipient != NoOne && t.messages[id].sender != outsider
    ensures UnreadCount(Step(t, Subscribe(chat, outsider)), b, chat) < UnreadCount(t, b, chat)
  {
    var t' := t.(activeChats := t.activeChats[outsider := chat]);
    SameMessagesSameUnread(t, t', b, chat);
    MarkingTakesSome(t', id, chat, b, outsider);
  }

  lemma MarkingTakesSome(t: State, id: MsgId, chat: Chat, b: Who, outsider: Who)
    requires chat != NoChat && outsider != NoOne && outsider != b
    requires id in Unread(t, b, chat) && t.messages[id].recipient != NoOne && t.messages[id].sender != outsider
    ensures UnreadCount(Marked(t, chat, outsider), b, chat) < UnreadCount(t, b, chat)
  {
    MarkingTakes(t, chat, outsider, b, chat);
    assert id in TakenFrom(t, b, chat, outsider);
    SubsetSize(TakenFrom(t, b, chat, outsider), Unread(t, b, chat));
  }

  // ---------------------------------------------------------------- whole runs

  function Run(s: State, events: seq<Event>): State {
    if events == [] then s else Step(Run(s, events[..|events| - 1]), events[|events| - 1])
  }

  predicate Possible(s: State, events: seq<Event>) {
    events == [] || (Possible(s, events[..|events| - 1]) && Enabled(Run(s, events[..|events| - 1]), events[|events| - 1]))
  }

  /** Readers are only added, a read message stays read, and what was said stays as it was. */
  predicate Grows(m: Message, n: Message) {
    && m.readBy <= n.readBy && (m.status == READ ==> n.status == READ) && (m.deleted ==> n.deleted)
    && n.chat == m.chat && n.sender == m.sender && n.recipient == m.recipient && n.kind == m.kind
  }

  lemma StepGrows(s: State, e: Event, id: MsgId)
    requires Enabled(s, e) && id in s.messages
    ensures id in Step(s, e).messages && Grows(s.messages[id], Step(s, e).messages[id])
  {
  }

  lemma {:induction false} ReadNeverReverts(s: State, events: seq<Event>, id: MsgId)
    requires Possible(s, events) && id in s.messages
    ensures id in Run(s, events).messages && Grows(s.messages[id], Run(s, events).messages[id])
    decreases |events|
  {
    if events != [] {
      ReadNeverReverts(s, events[..|events| - 1], id);
      StepGrows(Run(s, events[..|events| - 1]), events[|events| - 1], id);
    }
  }

  /** A message is READ exactly when somebody has read it; system notes are born READ. */
  predicate StatusOk(m: Message) { m.status == READ <==> m.readBy != [] || m.kind == SYSTEM }

  lemma {:induction false} StatusFollowsReaders(events: seq<Event>, id: MsgId)
    requires Possible(EMPTY, events) && id in Run(EMPTY, events).messages
    ensures StatusOk(Run(EMPTY, events).messages[id])
    decreases |events|
  {
    if events != [] {
      var s := Run(EMPTY, events[..|events| - 1]);
      if id in s.messages { StatusFollowsReaders(events[..|events| - 1], id); }
      StatusStep(s, events[|events| - 1], id);
    }
  }

  lemma StatusStep(s: State, e: Event, id: MsgId)
    requires Enabled(s, e) && id in Step(s, e).messages && (id in s.messages ==> StatusOk(s.messages[id]))
    ensures StatusOk(Step(s, e).messages[id])
  {
  }

  // ---------------------------------------------------------------- a new message

  lemma {:induction false} ActiveMembersExactly(active: map<Who, Chat>, members: seq<Who>, chat: Chat, sender: Who, u: Who)
    ensures u in ActiveMembers(active, members, chat, sender) <==> u in members && ReadsAlong(active, u, chat, sender)
    decreases |members|
  {
    if members != [] {
      ActiveMembersExactly(active, members[..|members| - 1], chat, sender, u);
      assert members == members[..|members| - 1] + [members[|members| - 1]];
    }
  }

  /** The message counts as unread for a user who has the chat open: one sent past him, or a call. */
  predicate Missed(s: State, e: Event, u: Who, chat: Chat) {
    || (e.Send? && e.chat == chat && e.sender != u
        && if e.isGroup then u !in e.members else e.recipient != u && (e.recipient == NoOne || ActiveChat(s.activeChats, e.recipient) != chat))
    || (e.StartCall? && e.chat == chat && e.sender != u)
  }

  lemma NewMessageUnread(s: State, e: Event, u: Who, chat: Chat)
    requires Enabled(s, e) && (e.Send? || e.StartCall? || e.SystemNote?)
    requires chat != NoChat && u != NoOne && ActiveChat(s.activeChats, u) == chat
    ensures CountsAsUnread(NewMessage(s.activeChats, e), u, chat) <==> Missed(s, e, u, chat)
  {
    if e.Send? && e.isGroup { ActiveMembersExactly(s.activeChats, e.members, e.chat, e.sender, u); }
  }

  /** While a user keeps a chat open, a step leaves it without unread messages exactly when it is not a missed one. */
  lemma OpenChatStaysReadExactly(s: State, e: Event, u: Who, chat: Chat)
    requires Enabled(s, e) && chat != NoChat && u != NoOne && ActiveChat(s.activeChats, u) == chat
    requires UnreadCount(s, u, chat) == 0
    ensures UnreadCount(Step(s, e), u, chat) == 0 <==> !Missed(s, e, u, chat)
  {
    var t := Step(s, e);
    assert forall id | id in s.messages :: id !in Unread(s, u, chat);
    if e.Send? || e.StartCall? || e.SystemNote? {
      NewMessageUnread(s, e, u, chat);
      assert Unread(t, u, chat) == if CountsAsUnread(t.messages[e.id], u, chat) then {e.id} else {};
    } else {
      forall id | id in t.messages ensures id !in Unread(t, u, chat) {
        OldMessageStaysRead(s, e, u, chat, id);
      }
      assert Unread(t, u, chat) == {};
    }
  }

  lemma OldMessageStaysRead(s: State, e: Event, u: Who, chat: Chat, id: MsgId)
    requires Enabled(s, e) && id in s.messages && !CountsAsUnread(s.messages[id], u, chat)
    ensures id in Step(s, e).messages && !CountsAsUnread(Step(s, e).messages[id], u, chat)
  {
    StepGrows(s, e, id);
  }

  predicate NothingMissed(events: seq<Event>, u: Who, chat: Chat) {
    events == [] ||
    (NothingMissed(events[..|events| - 1], u, chat) && !Missed(Run(EMPTY, events[..|events| - 1]), events[|events| - 1], u, chat))
  }

  /** In every run without calls and without messages past him, a user has nothing unread in the chat he has open. */
  lemma {:induction false} OpenChatHasNothingUnread(events: seq<Event>, u: Who, chat: Chat)
    requires Possible(EMPTY, events) && NothingMissed(events, u, chat) && chat != NoChat && u != NoOne
    ensures ActiveChat(Run(EMPTY, events).activeChats, u) == chat ==> UnreadCount(Run(EMPTY, events), u, chat) == 0
    decreases |events|
  {
    if events != [] {
      var s, e := Run(EMPTY, events[..|events| - 1]), events[|events| - 1];
      if ActiveChat(s.activeChats, u) == chat {
        OpenChatHasNothingUnread(events[..|events| - 1], u, chat);
        OpenChatStaysReadExactly(s, e, u, chat);
      } else if e.Subscribe? && e.user == u && e.chat == chat {
        MarkingClearsUnread(s.(activeChats := s.activeChats[u := chat]), u, chat);
      }
    }
  }

  // ---------------------------------------------------------------- the two unread numbers

  /** The filter behind the unread number in the search results. */
  predicate SearchCounts(m: Message, u: Who, chat: Chat) { m.chat == chat && m.sender != u && m.status != READ }

  /** Search and chat list count the same message exactly unless it is a deleted unread one, or a group message
      that somebody else has read. */
  lemma {:induction false} SearchAgreesExactly(events: seq<Event>, id: MsgId, u: Who, chat: Chat)
    requires Possible(EMPTY, events) && id in Run(EMPTY, events).messages
    ensures var m := Run(EMPTY, events).messages[id];
            (SearchCounts(m, u, chat) <==> CountsAsUnread(m, u, chat))
            <==> m.chat != chat || m.sender == u || m.kind == SYSTEM
                 || (m.status == SENT && !m.deleted) || (m.status == READ && (m.deleted || m.recipient != NoOne || u in m.readBy))
  {
    StatusFollowsReaders(events, id);
  }
}
