/**
 * The authoritative room server (apps/server/src/index.ts): the room store and
 * the presence registry, and one method per socket handler. A handler returns
 * the acknowledgement it passes to the caller's callback and the events it
 * broadcasts, in emission order, instead of calling socket.io.
 */
module Server {
  import opened Wrappers
  import opened Rooms
  import Text
  import Utils
  import Voting
  import Ranking

  /** A connected user: the socket that reaches them and their name. */
  datatype Presence = Presence(socketId: string, username: string)

  /**
   * A pending room:start timeout. It captured the room object, so it acts on
   * the room it was scheduled for and never on a later room with the same code.
   */
  datatype StartTimer = StartTimer(code: string, instance: nat)

  /** The optional fields of a room:create request. */
  datatype RoomSettings = RoomSettings(
    problemSlug: Option<string>, problemTitle: Option<string>, difficulty: Option<string>,
    duration: Option<int>, isHardcore: Option<bool>, entryFee: Option<int>,
    leetCodeRoomId: Option<string>, leetCodeRoomUrl: Option<string>)

  /** What the server emits; `room` is the socket.io channel (the room code). */
  datatype Event =
    | PresenceUpdate(userIds: set<string>)
    | ParticipantJoined(room: string, userId: string, username: string, avatarUrl: Option<string>)
    | ParticipantUpdated(room: string, userId: string, isReady: bool)
    | ParticipantLeft(room: string, userId: string)
    | ChatPosted(room: string, message: ChatMessage)
    | Countdown(room: string, countdown: nat)
    | Started(room: string, problemSlug: string, problemTitle: string,
              leetCodeRoomUrl: Option<string>, startTime: int, duration: int)
    | ParticipantSolved(room: string, userId: string, username: string, solveTime: Option<int>)
    | Finished(room: string, rankings: seq<Participant>, winnerId: string)
    | ProblemSuggested(room: string, suggestion: Suggestion)
    | VoteUpdated(room: string, suggestionId: string, votes: set<string>, voterId: string)
    | ProblemLocked(room: string, problemSlug: string, problemTitle: string, difficulty: string,
                    leetCodeRoomUrl: Option<string>, voteCount: nat)
    | HostChanged(room: string, newHostId: string)
    | InviteReceived(socketId: string, roomCode: string, fromUsername: Option<string>, text: string)

  /** The acknowledgement a handler passes to its callback. */
  datatype Reply =
    | Done
    | RoomReply(wire: RoomWire)
    | SuggestionReply(suggestion: Suggestion)
    | ProblemReply(problemSlug: string, problemTitle: string)
    | Failed(error: string)

  /** A room as sent to clients: the room and the vote count of each suggestion, in order. */
  datatype RoomWire = RoomWire(room: Room, voteCounts: seq<nat>)

  /** The redacted participant of the room snapshot: no socket ids. */
  datatype ParticipantView = ParticipantView(userId: string, username: string, isReady: bool, solved: bool)

  /** The read-only snapshot served for one room code. */
  datatype RoomView = RoomView(
    code: string, status: Status, problemSlug: string, problemTitle: string,
    difficulty: string, duration: int, isHardcore: bool, leetCodeRoomUrl: Option<string>,
    participants: seq<ParticipantView>)

  /** The countdown broadcast when a battle starts. */
  const StartCountdown: nat := 3

  /** A chat line written by the server itself. */
  function SystemMessage(now: nat, stamp: string, text: string): ChatMessage {
    ChatMessage("sys-" + Text.NatToString(now), "system", "System", text, stamp, SystemKind)
  }

  /** `value || fallback` for a string: a missing or empty value falls back. */
  function OrString(value: Option<string>, fallback: string): string {
    if value.None? || value.value == "" then fallback else value.value
  }

  /** `value || fallback` for a number: a missing or zero value falls back. */
  function OrInt(value: Option<int>, fallback: int): int {
    if value.None? || value.value == 0 then fallback else value.value
  }

  /** The chat line announcing a locked problem: its title, or its slug when the title is empty. */
  function LockMessage(s: Suggestion, now: nat, stamp: string): ChatMessage {
    SystemMessage(now, stamp,
      "Problem locked: " + (if s.problemTitle != "" then s.problemTitle else s.problemSlug) + " \U{1F3AF}")
  }

  /** The text of an invitation; a missing sender name prints as `undefined`. */
  function InviteText(fromUsername: Option<string>): string {
    fromUsername.GetOr("undefined") + " invited you to battle!"
  }

  /** A room as it is after the connection `socketId` went away. */
  function Dropped(r: Room, socketId: string): Room {
    r.(participants := RemoveSocket(r.participants, socketId))
  }

  /** The store after a disconnect: the connection's participants gone, emptied rooms deleted. */
  function AfterDisconnect(rooms: map<string, Room>, socketId: string): map<string, Room> {
    map c | c in rooms && Survives(rooms[c], socketId) :: Dropped(rooms[c], socketId)
  }

  /** Some participant of the room is on another connection. */
  predicate Survives(r: Room, socketId: string) {
    RemoveSocket(r.participants, socketId) != []
  }

  /** A second disconnect of the same connection finds nothing left to do. */
  lemma AfterDisconnectIdempotent(rooms: map<string, Room>, socketId: string)
    ensures AfterDisconnect(AfterDisconnect(rooms, socketId), socketId) == AfterDisconnect(rooms, socketId)
  {
    var once := AfterDisconnect(rooms, socketId);
    var twice := AfterDisconnect(once, socketId);
    forall c | c in once ensures c in twice && twice[c] == once[c] {
      RemoveSocketIdempotent(rooms[c].participants, socketId);
    }
    assert twice.Keys == once.Keys;
  }

  /** The vote count of each suggestion, in order. */
  function VoteCounts(ss: seq<Suggestion>): (counts: seq<nat>)
    ensures |counts| == |ss|
    ensures forall i :: 0 <= i < |ss| ==> counts[i] == |ss[i].votes|
  {
    if ss == [] then [] else [|ss[0].votes|] + VoteCounts(ss[1..])
  }

  function Sum(xs: seq<nat>): nat {
    if xs == [] then 0 else xs[0] + Sum(xs[1..])
  }

  /** The counts sent to clients add up to the votes cast. */
  lemma {:induction false} VoteCountsTotal(ss: seq<Suggestion>)
    ensures Sum(VoteCounts(ss)) == Voting.TotalVotes(ss)
  {
    if ss != [] {
      VoteCountsTotal(ss[1..]);
      assert VoteCounts(ss)[1..] == VoteCounts(ss[1..]);
    }
  }

  /** `serializeRoom`: the room with a vote count next to every suggestion. */
  function Serialize(r: Room): (w: RoomWire)
    ensures w.room == r
    ensures |w.voteCounts| == |r.suggestions|
    ensures forall i :: 0 <= i < |r.suggestions| ==> w.voteCounts[i] == |r.suggestions[i].votes|
    ensures Sum(w.voteCounts) == Voting.TotalVotes(r.suggestions)
  {
    VoteCountsTotal(r.suggestions);
    RoomWire(r, VoteCounts(r.suggestions))
  }

  /** One participant-left event per id, in order. */
  function LeftEvents(code: string, ids: seq<string>): (es: seq<Event>)
    ensures |es| == |ids|
    ensures forall e :: e in es <==> e.ParticipantLeft? && e.room == code && e.userId in ids
  {
    if ids == [] then []
    else
      var es := [ParticipantLeft(code, ids[0])] + LeftEvents(code, ids[1..]);
      assert forall u :: u in ids <==> u == ids[0] || u in ids[1..];
      es
  }

  /**
   * What a room keeps from one handler to the next: the same room instance,
   * the chat only grows, and a locked problem stays locked.
   */
  ghost predicate RoomEvolves(before: Room, after: Room) {
    && after.code == before.code
    && after.instance == before.instance
    && before.chat <= after.chat
    && (before.problemLocked ==> after.problemLocked)
  }

  ghost predicate Evolves(before: map<string, Room>, after: map<string, Room>) {
    forall c :: c in before && c in after ==> RoomEvolves(before[c], after[c])
  }

  /**
   * `generateRoomCode()` with its retry: the code of the first attempt that
   * is not already taken. Each attempt is one round of six random indices.
   */
  method NewRoomCode(taken: set<string>, attempts: seq<Utils.Draw>) returns (code: string, used: nat)
    requires exists i :: 0 <= i < |attempts| && Utils.CodeOf(attempts[i]) !in taken
    ensures used < |attempts| && code == Utils.CodeOf(attempts[used])
    ensures Utils.IsRoomCode(code) && code !in taken
    ensures forall j :: 0 <= j < used ==> Utils.CodeOf(attempts[j]) in taken
  {
    used := 0;
    code := Utils.GenerateRoomCode(attempts[0]);
    while code in taken
      invariant used < |attempts| && code == Utils.CodeOf(attempts[used]) && Utils.IsRoomCode(code)
      invariant forall j :: 0 <= j < used ==> Utils.CodeOf(attempts[j]) in taken
      invariant exists i :: used <= i < |attempts| && Utils.CodeOf(attempts[i]) !in taken
      decreases |attempts| - used
    {
      used := used + 1;
      code := Utils.GenerateRoomCode(attempts[used]);
    }
  }

  /**
   * The inner `participants.forEach` of a disconnect: the participants that
   * stay and one participant-left event per participant removed.
   */
  method DropSocket(code: string, ps: seq<Participant>, socketId: string)
    returns (kept: seq<Participant>, events: seq<Event>)
    ensures kept == RemoveSocket(ps, socketId)
    ensures events == LeftEvents(code, SocketUsers(ps, socketId))
  {
    kept, events := [], [];
    for i := 0 to |ps|
      invariant kept == RemoveSocket(ps[..i], socketId)
      invariant events == LeftEvents(code, SocketUsers(ps[..i], socketId))
    {
      assert ps[..i + 1][..i] == ps[..i];
      LeftEventsAppend(code, SocketUsers(ps[..i], socketId), ps[i].userId);
      if ps[i].socketId == socketId {
        events := events + [ParticipantLeft(code, ps[i].userId)];
      } else {
        kept := kept + [ps[i]];
      }
    }
    assert ps[..|ps|] == ps;
  }

  lemma {:induction false} LeftEventsAppend(code: string, ids: seq<string>, u: string)
    ensures LeftEvents(code, ids + [u]) == LeftEvents(code, ids) + [ParticipantLeft(code, u)]
  {
    if ids != [] {
      LeftEventsAppend(code, ids[1..], u);
      assert (ids + [u])[1..] == ids[1..] + [u];
    }
  }

  /** The presence registry without the entries of a closed connection. */
  function AfterSocketGone(online: map<string, Presence>, socketId: string): map<string, Presence> {
    map u | u in online && online[u].socketId != socketId :: online[u]
  }

  /** Every stored room is filed under its own code, is well formed and was created earlier. */
  ghost predicate StoreValid(rooms: map<string, Room>, nextInstance: nat) {
    forall c :: c in rooms ==> rooms[c].code == c && WellFormed(rooms[c]) && rooms[c].instance < nextInstance
  }

  /**
   * The presence half of a disconnect: every user whose entry names the
   * closed socket is removed, and no one else.
   */
  method DropPresence(online: map<string, Presence>, socketId: string) returns (kept: map<string, Presence>)
    ensures kept == AfterSocketGone(online, socketId)
    ensures forall u :: u in kept <==> u in online && online[u].socketId != socketId
  {
    kept := online;
    var users := online.Keys;
    while users != {}
      invariant users <= online.Keys
      invariant forall u :: u in kept <==> u in online && (u in users || online[u].socketId != socketId)
      invariant forall u :: u in kept ==> kept[u] == online[u]
      decreases users
    {
      var u :| u in users;
      if kept[u].socketId == socketId {
        kept := kept - {u};
      }
      users := users - {u};
    }
    assert kept.Keys == AfterSocketGone(online, socketId).Keys;
  }

  /**
   * The store part-way through a disconnect: the rooms in `todo` are still
   * untouched, the others are as they are after the disconnect.
   */
  ghost function PartlyDropped(rooms: map<string, Room>, socketId: string, todo: set<string>): map<string, Room> {
    map c | c in rooms && (c in todo || Survives(rooms[c], socketId)) ::
      if c in todo then rooms[c] else Dropped(rooms[c], socketId)
  }

  lemma PartlyDroppedStep(rooms: map<string, Room>, socketId: string, todo: set<string>, c: string)
    requires c in todo && c in rooms
    ensures PartlyDropped(rooms, socketId, todo - {c}) ==
      if Survives(rooms[c], socketId) then PartlyDropped(rooms, socketId, todo)[c := Dropped(rooms[c], socketId)]
      else PartlyDropped(rooms, socketId, todo) - {c}
  {
    var a := PartlyDropped(rooms, socketId, todo - {c});
    var b := if Survives(rooms[c], socketId) then PartlyDropped(rooms, socketId, todo)[c := Dropped(rooms[c], socketId)]
             else PartlyDropped(rooms, socketId, todo) - {c};
    assert a.Keys == b.Keys;
  }

  /**
   * The room half of a disconnect (`rooms.forEach`): every room loses the
   * participants on the socket and is deleted when that empties it; one
   * participant-left event is produced per participant removed.
   */
  method DropFromRooms(rooms: map<string, Room>, socketId: string)
    returns (after: map<string, Room>, left: seq<Event>)
    ensures after == AfterDisconnect(rooms, socketId)
    ensures forall c, p :: c in after && p in after[c].participants ==> p.socketId != socketId
    ensures forall e :: e in left <==>
              e.ParticipantLeft? && e.room in rooms && e.userId in SocketUsers(rooms[e.room].participants, socketId)
  {
    after, left := rooms, [];
    var todo := rooms.Keys;
    assert after == PartlyDropped(rooms, socketId, todo);
    while todo != {}
      invariant todo <= rooms.Keys
      invariant after == PartlyDropped(rooms, socketId, todo)
      invariant forall e :: e in left <==>
                  e.ParticipantLeft? && e.room in rooms && e.room !in todo
                  && e.userId in SocketUsers(rooms[e.room].participants, socketId)
      decreases todo
    {
      var c :| c in todo;
      var r := after[c];
      var kept, gone := DropSocket(c, r.participants, socketId);
      PartlyDroppedStep(rooms, socketId, todo, c);
      assert forall e :: e in left + gone <==> e in left || e in gone;
      left := left + gone;
      if kept == [] {
        after := after - {c};
      } else {
        after := after[c := r.(participants := kept)];
      }
      todo := todo - {c};
    }
    assert after == AfterDisconnect(rooms, socketId);
  }

  /** A disconnect keeps the store valid and every surviving room evolves. */
  lemma AfterDisconnectKeepsStore(rooms: map<string, Room>, nextInstance: nat, socketId: string)
    requires StoreValid(rooms, nextInstance)
    ensures StoreValid(AfterDisconnect(rooms, socketId), nextInstance)
    ensures Evolves(rooms, AfterDisconnect(rooms, socketId))
  {
    var after := AfterDisconnect(rooms, socketId);
    forall c | c in after
      ensures after[c].code == c && WellFormed(after[c]) && after[c].instance < nextInstance
    {
      var ps := rooms[c].participants;
      var kept := RemoveSocket(ps, socketId);
      assert kept != [] && |kept| <= |ps|;
    }
  }

  /** Updating one participant without changing their id keeps the store valid. */
  lemma SameUserKeepsStore(rooms: map<string, Room>, nextInstance: nat, code: string, k: nat, p: Participant, status: Status)
    requires StoreValid(rooms, nextInstance) && code in rooms
    requires k < |rooms[code].participants| && p.userId == rooms[code].participants[k].userId
    ensures StoreValid(rooms[code := rooms[code].(participants := rooms[code].participants[k := p], status := status)],
                       nextInstance)
  {
    var r := rooms[code];
    var ps := r.participants[k := p];
    assert forall i :: 0 <= i < |ps| ==> ps[i].userId == r.participants[i].userId;
    assert WellFormed(r);
    assert WellFormed(r.(participants := ps, status := status));
  }

  /** A room left with fewer, still distinct, participants keeps the store valid. */
  lemma FewerUsersKeepStore(rooms: map<string, Room>, nextInstance: nat, code: string,
                            ps: seq<Participant>, chat: seq<ChatMessage>, hostId: string)
    requires StoreValid(rooms, nextInstance) && code in rooms
    requires ps != [] && |ps| <= |rooms[code].participants| && UniqueUsers(ps)
    ensures StoreValid(rooms[code := rooms[code].(participants := ps, chat := chat, hostId := hostId)], nextInstance)
  {
    assert WellFormed(rooms[code]);
  }

  /** Replacing a room's suggestions by ones with the same ids, in order, keeps the store valid. */
  lemma SameIdsKeepStore(rooms: map<string, Room>, nextInstance: nat, code: string, ss: seq<Suggestion>)
    requires StoreValid(rooms, nextInstance) && code in rooms
    requires |ss| == |rooms[code].suggestions|
    requires forall i :: 0 <= i < |ss| ==> ss[i].id == rooms[code].suggestions[i].id
    ensures StoreValid(rooms[code := rooms[code].(suggestions := ss)], nextInstance)
  {
    var r := rooms[code];
    assert UniqueSuggestionIds(r.suggestions);
    assert WellFormed(r.(suggestions := ss));
  }

  class RoomStore {
    /** Room code to room (`rooms`). */
    var rooms: map<string, Room>
    /** User id to presence entry (`onlineUsers`). */
    var online: map<string, Presence>
    /** Pending start timeouts, oldest first. */
    var timers: seq<StartTimer>
    /** The instance number the next created room gets. */
    var nextInstance: nat

    /** Every stored room is filed under its own code and is well formed. */
    ghost predicate Valid()
      reads this
    {
      StoreValid(rooms, nextInstance)
    }

    constructor ()
      ensures Valid()
      ensures rooms == map[] && online == map[] && timers == []
    {
      rooms, online, timers, nextInstance := map[], map[], [], 0;
    }

    // ---------- presence ----------

    /** `user:online`: records the user's socket and broadcasts who is online. */
    method Online(userId: string, username: string, socketId: string) returns (events: seq<Event>)
      requires Valid()
      modifies this
      ensures Valid()
      ensures online == old(online)[userId := Presence(socketId, username)]
      ensures rooms == old(rooms) && timers == old(timers) && nextInstance == old(nextInstance)
      ensures events == [PresenceUpdate(online.Keys)]
    {
      online := online[userId := Presence(socketId, username)];
      events := [PresenceUpdate(online.Keys)];
    }

    /** `user:offline`: forgets the user and broadcasts who is online. */
    method Offline(userId: string) returns (events: seq<Event>)
      requires Valid()
      modifies this
      ensures Valid()
      ensures online == old(online) - {userId}
      ensures rooms == old(rooms) && timers == old(timers) && nextInstance == old(nextInstance)
      ensures events == [PresenceUpdate(online.Keys)]
    {
      online := online - {userId};
      events := [PresenceUpdate(online.Keys)];
    }

    /** `invite:send`: a point-to-point notice to the target if online, nothing otherwise. */
    method SendInvite(toUserId: string, roomCode: string, fromUsername: Option<string>) returns (events: seq<Event>)
      ensures toUserId in online ==>
        events == [InviteReceived(online[toUserId].socketId, roomCode, fromUsername, InviteText(fromUsername))]
      ensures toUserId !in online ==> events == []
    {
      if toUserId in online {
        events := [InviteReceived(online[toUserId].socketId, roomCode, fromUsername, InviteText(fromUsername))];
      } else {
        events := [];
      }
    }

    // ---------- room management ----------

    /**
     * `room:create`: files a new waiting room under a fresh code, with the
     * creator as its ready host and sole participant and one system chat line.
     */
    method Create(socketId: string, userId: string, username: string, avatarUrl: Option<string>,
                  settings: RoomSettings, attempts: seq<Utils.Draw>, now: nat, stamp: string)
      returns (reply: Reply)
      requires Valid()
      requires exists i :: 0 <= i < |attempts| && Utils.CodeOf(attempts[i]) !in rooms
      modifies this
      ensures Valid() && Evolves(old(rooms), rooms)
      ensures reply.RoomReply?
      ensures reply.wire == Serialize(reply.wire.room)
      ensures var r := reply.wire.room;
        && Utils.IsRoomCode(r.code) && r.code !in old(rooms)
        && (exists k :: 0 <= k < |attempts| && r.code == Utils.CodeOf(attempts[k])
                        && forall j :: 0 <= j < k ==> Utils.CodeOf(attempts[j]) in old(rooms))
        && rooms == old(rooms)[r.code := r]
        && r.hostId == userId && r.status == Waiting && !r.problemLocked
        && r.participants == [Participant(userId, socketId, username, avatarUrl, true, false, None)]
        && r.chat == [SystemMessage(now, stamp, username + " created the room")]
        && r.suggestions == [] && r.startTime == None
        && r.problemSlug == OrString(settings.problemSlug, "")
        && r.problemTitle == OrString(settings.problemTitle, "")
        && r.difficulty == OrString(settings.difficulty, "Medium")
        && r.duration == OrInt(settings.duration, 30)
        && r.isHardcore == settings.isHardcore.GetOr(false)
        && r.entryFee == OrInt(settings.entryFee, 0)
        && r.leetCodeRoomId == settings.leetCodeRoomId && r.leetCodeRoomUrl == settings.leetCodeRoomUrl
        && r.instance == old(nextInstance)
      ensures online == old(online) && timers == old(timers) && nextInstance == old(nextInstance) + 1
    {
      var code, _ := NewRoomCode(rooms.Keys, attempts);
      var host := Participant(userId, socketId, username, avatarUrl, true, false, None);
      var room := Room(code, userId, Waiting,
        OrString(settings.problemSlug, ""), OrString(settings.problemTitle, ""),
        OrString(settings.difficulty, "Medium"), OrInt(settings.duration, 30), None,
        settings.isHardcore.GetOr(false), OrInt(settings.entryFee, 0),
        settings.leetCodeRoomId, settings.leetCodeRoomUrl,
        [host], [], [], false, nextInstance);
      room := room.(chat := room.chat + [SystemMessage(now, stamp, username + " created the room")]);
      rooms := rooms[code := room];
      nextInstance := nextInstance + 1;
      reply := RoomReply(Serialize(room));
    }

    /**
     * `room:join`: the code is upper-cased; a missing room, a started battle
     * and a full room are refused in that order, a member rejoining gets the
     * room unchanged, and a newcomer is appended, not ready.
     */
    method Join(socketId: string, roomCode: string, userId: string, username: string,
                avatarUrl: Option<string>, now: nat, stamp: string)
      returns (reply: Reply, events: seq<Event>)
      requires Valid()
      modifies this
      ensures Valid() && Evolves(old(rooms), rooms)
      ensures online == old(online) && timers == old(timers) && nextInstance == old(nextInstance)
      ensures var code := Text.ToUpper(roomCode);
        if code !in old(rooms) then
          reply == Failed("Room not found") && rooms == old(rooms) && events == []
        else
          var r := old(rooms)[code];
          if r.status != Waiting then
            reply == Failed("Battle already started") && rooms == old(rooms) && events == []
          else if |r.participants| >= MaxParticipants then
            reply == Failed("Room is full") && rooms == old(rooms) && events == []
          else if HasUser(r.participants, userId) then
            reply == RoomReply(Serialize(r)) && rooms == old(rooms) && events == []
          else
            var msg := SystemMessage(now, stamp, username + " joined the room");
            var r' := r.(participants := r.participants + [Participant(userId, socketId, username, avatarUrl, false, false, None)],
                         chat := r.chat + [msg]);
            && rooms == old(rooms)[code := r']
            && reply == RoomReply(Serialize(r'))
            && events == [ParticipantJoined(code, userId, username, avatarUrl), ChatPosted(code, msg)]
    {
      var code := Text.ToUpper(roomCode);
      if code !in rooms {
        return Failed("Room not found"), [];
      }
      var r := rooms[code];
      if r.status != Waiting {
        return Failed("Battle already started"), [];
      }
      if |r.participants| >= MaxParticipants {
        return Failed("Room is full"), [];
      }
      if FindUser(r.participants, userId).Some? {
        return RoomReply(Serialize(r)), [];
      }
      var p := Participant(userId, socketId, username, avatarUrl, false, false, None);
      r := r.(participants := r.participants + [p]);
      var msg := SystemMessage(now, stamp, username + " joined the room");
      r := r.(chat := r.chat + [msg]);
      rooms := rooms[code := r];
      events := [ParticipantJoined(code, userId, username, avatarUrl), ChatPosted(code, msg)];
      reply := RoomReply(Serialize(r));
    }

    /** `room:ready`: sets a participant's readiness; silently ignored for an unknown room or user. */
    method Ready(roomCode: string, userId: string, isReady: bool) returns (events: seq<Event>)
      requires Valid()
      modifies this
      ensures Valid() && Evolves(old(rooms), rooms)
      ensures online == old(online) && timers == old(timers) && nextInstance == old(nextInstance)
      ensures if roomCode in old(rooms) && FindUser(old(rooms)[roomCode].participants, userId).Some? then
          var r := old(rooms)[roomCode];
          var k := FindUser(r.participants, userId).value;
          && rooms == old(rooms)[roomCode := r.(participants := r.participants[k := r.participants[k].(isReady := isReady)])]
          && events == [ParticipantUpdated(roomCode, userId, isReady)]
        else rooms == old(rooms) && events == []
    {
      events := [];
      if roomCode !in rooms {
        return;
      }
      var r := rooms[roomCode];
      match FindUser(r.participants, userId)
      case None =>
      case Some(k) =>
        var ps := r.participants[k := r.participants[k].(isReady := isReady)];
        SameUserKeepsStore(rooms, nextInstance, roomCode, k, ps[k], r.status);
        assert r.(participants := ps) == r.(participants := ps, status := r.status);
        rooms := rooms[roomCode := r.(participants := ps)];
        events := [ParticipantUpdated(roomCode, userId, isReady)];
    }

    /**
     * `room:start`: succeeds exactly when the room exists, the caller is its
     * host and every participant is ready. The room is put in `starting`
     * whatever its status was, and a start timeout is scheduled.
     */
    method Start(roomCode: string, hostId: string) returns (reply: Reply, events: seq<Event>)
      requires Valid()
      modifies this
      ensures Valid() && Evolves(old(rooms), rooms)
      ensures online == old(online) && nextInstance == old(nextInstance)
      ensures reply.Done? <==> roomCode in old(rooms) && old(rooms)[roomCode].hostId == hostId
                               && AllReady(old(rooms)[roomCode].participants)
      ensures if roomCode !in old(rooms) then
          reply == Failed("Room not found") && rooms == old(rooms) && timers == old(timers) && events == []
        else
          var r := old(rooms)[roomCode];
          if r.hostId != hostId then
            reply == Failed("Only host can start") && rooms == old(rooms) && timers == old(timers) && events == []
          else if !AllReady(r.participants) then
            reply == Failed("Not everyone is ready") && rooms == old(rooms) && timers == old(timers) && events == []
          else
            && rooms == old(rooms)[roomCode := r.(status := Starting)]
            && timers == old(timers) + [StartTimer(roomCode, r.instance)]
            && events == [Countdown(roomCode, StartCountdown)]
    {
      if roomCode !in rooms {
        return Failed("Room not found"), [];
      }
      var r := rooms[roomCode];
      if r.hostId != hostId {
        return Failed("Only host can start"), [];
      }
      if !AllReady(r.participants) {
        return Failed("Not everyone is ready"), [];
      }
      rooms := rooms[roomCode := r.(status := Starting)];
      events := [Countdown(roomCode, StartCountdown)];
      timers := timers + [StartTimer(roomCode, r.instance)];
      reply := Done;
    }

    /**
     * The oldest start timeout fires: its room, if still stored, goes to
     * `in_progress` with `startTime` set, whatever its status is by then. A
     * timeout whose room was deleted changes nothing visible.
     */
    method FireStartTimer(now: int) returns (events: seq<Event>)
      requires Valid() && |timers| > 0
      modifies this
      ensures Valid() && Evolves(old(rooms), rooms)
      ensures online == old(online) && nextInstance == old(nextInstance)
      ensures timers == old(timers)[1..]
      ensures var t := old(timers)[0];
        if t.code in old(rooms) && old(rooms)[t.code].instance == t.instance then
          var r := old(rooms)[t.code];
          && rooms == old(rooms)[t.code := r.(status := InProgress, startTime := Some(now))]
          && events == [Started(t.code, r.problemSlug, r.problemTitle, r.leetCodeRoomUrl, now, r.duration)]
        else rooms == old(rooms) && events == []
    {
      var t := timers[0];
      timers := timers[1..];
      events := [];
      if t.code in rooms && rooms[t.code].instance == t.instance {
        var r := rooms[t.code];
        r := r.(status := InProgress, startTime := Some(now));
        rooms := rooms[t.code := r];
        events := [Started(t.code, r.problemSlug, r.problemTitle, r.leetCodeRoomUrl, now, r.duration)];
      }
    }

    /**
     * `room:solved`: accepted only in a room in progress, from a participant
     * who has not solved yet. The first accepted solve finishes the room and
     * names its sender the winner, with the standings of all participants.
     */
    method Solved(roomCode: string, userId: string, solveTime: Option<int>) returns (events: seq<Event>)
      requires Valid()
      modifies this
      ensures Valid() && Evolves(old(rooms), rooms)
      ensures online == old(online) && timers == old(timers) && nextInstance == old(nextInstance)
      ensures if && roomCode in old(rooms) && old(rooms)[roomCode].status == InProgress
                 && FindUser(old(rooms)[roomCode].participants, userId).Some?
                 && !old(rooms)[roomCode].participants[FindUser(old(rooms)[roomCode].participants, userId).value].solved
        then
          var r := old(rooms)[roomCode];
          var k := FindUser(r.participants, userId).value;
          var ps := r.participants[k := r.participants[k].(solved := true, solveTime := solveTime)];
          && rooms == old(rooms)[roomCode := r.(participants := ps, status := Status.Finished)]
          && events == [ParticipantSolved(roomCode, userId, r.participants[k].username, solveTime),
                        Event.Finished(roomCode, Ranking.Rankings(ps), userId)]
        else rooms == old(rooms) && events == []
    {
      events := [];
      if roomCode !in rooms || rooms[roomCode].status != InProgress {
        return;
      }
      var r := rooms[roomCode];
      match FindUser(r.participants, userId)
      case None =>
      case Some(k) =>
        if !r.participants[k].solved {
          var p := r.participants[k];
          var ps := r.participants[k := p.(solved := true, solveTime := solveTime)];
          SameUserKeepsStore(rooms, nextInstance, roomCode, k, ps[k], Status.Finished);
          events := [ParticipantSolved(roomCode, userId, p.username, solveTime),
                     Event.Finished(roomCode, Ranking.Rankings(ps), userId)];
          r := r.(participants := ps, status := Status.Finished);
          assert RoomEvolves(rooms[roomCode], r);
          rooms := rooms[roomCode := r];
        }
    }

    /** `room:chat`: appends the message to an existing room's chat and broadcasts it. */
    method Chat(socketId: string, roomCode: string, userId: string, username: string, text: string,
                now: nat, stamp: string) returns (events: seq<Event>)
      requires Valid()
      modifies this
      ensures Valid() && Evolves(old(rooms), rooms)
      ensures online == old(online) && timers == old(timers) && nextInstance == old(nextInstance)
      ensures if roomCode in old(rooms) then
          var msg := ChatMessage("msg-" + Text.NatToString(now) + "-" + socketId, userId, username, text, stamp, MessageKind);
          && rooms == old(rooms)[roomCode := old(rooms)[roomCode].(chat := old(rooms)[roomCode].chat + [msg])]
          && events == [ChatPosted(roomCode, msg)]
        else rooms == old(rooms) && events == []
    {
      if roomCode !in rooms {
        return [];
      }
      var r := rooms[roomCode];
      var msg := ChatMessage("msg-" + Text.NatToString(now) + "-" + socketId, userId, username, text, stamp, MessageKind);
      rooms := rooms[roomCode := r.(chat := r.chat + [msg])];
      events := [ChatPosted(roomCode, msg)];
    }

    // ---------- problem voting ----------

    /**
     * `room:suggest-problem`: refused for a missing room, a locked problem, a
     * room no longer waiting and an already suggested slug, in that order.
     * Otherwise the suggestion is stored with its proposer as only voter.
     */
    method SuggestProblem(roomCode: string, userId: string, username: string, url: string,
                          problemSlug: string, problemTitle: string, difficulty: string, now: nat)
      returns (reply: Reply, events: seq<Event>)
      requires Valid()
      modifies this
      ensures Valid() && Evolves(old(rooms), rooms)
      ensures online == old(online) && timers == old(timers) && nextInstance == old(nextInstance)
      ensures if roomCode !in old(rooms) then
          reply == Failed("Room not found") && rooms == old(rooms) && events == []
        else
          var r := old(rooms)[roomCode];
          if r.problemLocked then
            reply == Failed("Problem already locked") && rooms == old(rooms) && events == []
          else if r.status != Waiting then
            reply == Failed("Battle already started") && rooms == old(rooms) && events == []
          else if Voting.SlugTaken(r.suggestions, problemSlug) then
            reply == Failed("This problem was already suggested") && rooms == old(rooms) && events == []
          else
            var s := Suggestion("sug-" + Text.NatToString(now) + "-" + userId, url, problemSlug, problemTitle,
                                difficulty, userId, username, {userId});
            && rooms == old(rooms)[roomCode := r.(suggestions := Voting.Upsert(r.suggestions, s))]
            && reply == SuggestionReply(s)
            && events == [ProblemSuggested(roomCode, s)]
            && ((forall j :: 0 <= j < |r.suggestions| ==> r.suggestions[j].id != s.id) ==>
                  rooms[roomCode].suggestions == r.suggestions + [s])
    {
      if roomCode !in rooms {
        return Failed("Room not found"), [];
      }
      var r := rooms[roomCode];
      if r.problemLocked {
        return Failed("Problem already locked"), [];
      }
      if r.status != Waiting {
        return Failed("Battle already started"), [];
      }
      if Voting.SlugTaken(r.suggestions, problemSlug) {
        return Failed("This problem was already suggested"), [];
      }
      var s := Suggestion("sug-" + Text.NatToString(now) + "-" + userId, url, problemSlug, problemTitle,
                          difficulty, userId, username, {userId});
      rooms := rooms[roomCode := r.(suggestions := Voting.Upsert(r.suggestions, s))];
      events := [ProblemSuggested(roomCode, s)];
      reply := SuggestionReply(s);
    }

    /**
     * `room:vote-problem`: in an existing, unlocked room the voter is first
     * removed from every voter set and only then is the suggestion looked up,
     * so an unknown id still erases the voter's ballot.
     */
    method VoteProblem(roomCode: string, userId: string, suggestionId: string)
      returns (reply: Reply, events: seq<Event>)
      requires Valid()
      modifies this
      ensures Valid() && Evolves(old(rooms), rooms)
      ensures online == old(online) && timers == old(timers) && nextInstance == old(nextInstance)
      ensures if roomCode !in old(rooms) then
          reply == Failed("Room not found") && rooms == old(rooms) && events == []
        else
          var r := old(rooms)[roomCode];
          if r.problemLocked then
            reply == Failed("Problem already locked") && rooms == old(rooms) && events == []
          else
            var cleared := Voting.Cleared(r.suggestions, userId);
            match Voting.FindSuggestion(r.suggestions, suggestionId)
            case None =>
              && reply == Failed("Suggestion not found")
              && rooms == old(rooms)[roomCode := r.(suggestions := cleared)]
              && events == []
            case Some(k) =>
              var ss := Voting.CastVote(r.suggestions, k, userId);
              && reply == Done
              && rooms == old(rooms)[roomCode := r.(suggestions := ss)]
              && events == [VoteUpdated(roomCode, suggestionId, ss[k].votes, userId)]
              && (forall i :: 0 <= i < |ss| ==> (userId in ss[i].votes <==> i == k))
              && (Voting.SingleBallot(r.suggestions) ==> Voting.SingleBallot(ss))
    {
      if roomCode !in rooms {
        return Failed("Room not found"), [];
      }
      var r := rooms[roomCode];
      if r.problemLocked {
        return Failed("Problem already locked"), [];
      }
      var ss := Voting.ClearBallot(r.suggestions, userId);
      SameIdsKeepStore(rooms, nextInstance, roomCode, ss);
      match Voting.FindSuggestion(r.suggestions, suggestionId)
      case None =>
        rooms := rooms[roomCode := r.(suggestions := ss)];
        return Failed("Suggestion not found"), [];
      case Some(k) =>
        Voting.CastVoteBallot(r.suggestions, k, userId);
        ss := ss[k := ss[k].(votes := ss[k].votes + {userId})];
        SameIdsKeepStore(rooms, nextInstance, roomCode, ss);
        rooms := rooms[roomCode := r.(suggestions := ss)];
        events := [VoteUpdated(roomCode, suggestionId, ss[k].votes, userId)];
        reply := Done;
    }

    /**
     * `room:lock-problem`: refused for a missing room, a caller who is not
     * host, a problem already locked and a room without suggestions, in that
     * order. Otherwise the winning suggestion (most votes, earliest on a tie)
     * becomes the room's problem and the room is locked for good.
     */
    method LockProblem(roomCode: string, hostId: string, now: nat, stamp: string)
      returns (reply: Reply, events: seq<Event>)
      requires Valid()
      modifies this
      ensures Valid() && Evolves(old(rooms), rooms)
      ensures online == old(online) && timers == old(timers) && nextInstance == old(nextInstance)
      ensures if roomCode !in old(rooms) then
          reply == Failed("Room not found") && rooms == old(rooms) && events == []
        else
          var r := old(rooms)[roomCode];
          if r.hostId != hostId then
            reply == Failed("Only host can lock problem") && rooms == old(rooms) && events == []
          else if r.problemLocked then
            reply == Failed("Already locked") && rooms == old(rooms) && events == []
          else if r.suggestions == [] then
            reply == Failed("No problems suggested yet") && rooms == old(rooms) && events == []
          else
            exists w :: Voting.IsWinner(r.suggestions, w) &&
              var s := r.suggestions[w];
              var msg := LockMessage(s, now, stamp);
              && rooms == old(rooms)[roomCode := r.(problemLocked := true, problemSlug := s.problemSlug,
                                                    problemTitle := s.problemTitle, difficulty := s.difficulty,
                                                    leetCodeRoomUrl := Some(s.url), chat := r.chat + [msg])]
              && reply == ProblemReply(s.problemSlug, s.problemTitle)
              && events == [ProblemLocked(roomCode, s.problemSlug, s.problemTitle, s.difficulty, Some(s.url), |s.votes|),
                            ChatPosted(roomCode, msg)]
    {
      if roomCode !in rooms {
        return Failed("Room not found"), [];
      }
      var r := rooms[roomCode];
      if r.hostId != hostId {
        return Failed("Only host can lock problem"), [];
      }
      if r.problemLocked {
        return Failed("Already locked"), [];
      }
      if r.suggestions == [] {
        return Failed("No problems suggested yet"), [];
      }
      var w := Voting.PickWinner(r.suggestions);
      var s := r.suggestions[w];
      r := r.(problemLocked := true, problemSlug := s.problemSlug, problemTitle := s.problemTitle,
              difficulty := s.difficulty, leetCodeRoomUrl := Some(s.url));
      events := [ProblemLocked(roomCode, s.problemSlug, s.problemTitle, s.difficulty, Some(s.url), |s.votes|)];
      var msg := LockMessage(s, now, stamp);
      r := r.(chat := r.chat + [msg]);
      rooms := rooms[roomCode := r];
      events := events + [ChatPosted(roomCode, msg)];
      reply := ProblemReply(s.problemSlug, s.problemTitle);
    }

    // ---------- leaving ----------

    /**
     * `room:leave`: removes the user and posts a system line. The room is
     * deleted if that empties it; otherwise, if the leaver was host, the first
     * remaining participant in join order becomes host.
     */
    method Leave(roomCode: string, userId: string, username: string, now: nat, stamp: string)
      returns (events: seq<Event>)
      requires Valid()
      modifies this
      ensures Valid() && Evolves(old(rooms), rooms)
      ensures online == old(online) && timers == old(timers) && nextInstance == old(nextInstance)
      ensures if roomCode !in old(rooms) then rooms == old(rooms) && events == []
        else
          var r := old(rooms)[roomCode];
          var ps := RemoveUser(r.participants, userId);
          var msg := SystemMessage(now, stamp, username + " left the room");
          var promote := ps != [] && userId == r.hostId;
          && (ps == [] ==> rooms == old(rooms) - {roomCode})
          && (ps != [] ==> rooms == old(rooms)[roomCode := r.(participants := ps, chat := r.chat + [msg],
                                                               hostId := if promote then ps[0].userId else r.hostId)])
          && events == [ChatPosted(roomCode, msg), ParticipantLeft(roomCode, userId)]
                       + (if promote then [HostChanged(roomCode, ps[0].userId)] else [])
      ensures roomCode in rooms ==> !HasUser(rooms[roomCode].participants, userId)
      ensures roomCode in old(rooms) && roomCode in rooms && old(rooms)[roomCode].hostId == userId ==>
                HasUser(rooms[roomCode].participants, rooms[roomCode].hostId)
                && rooms[roomCode].participants[0].userId == rooms[roomCode].hostId
    {
      if roomCode !in rooms {
        return [];
      }
      var r := rooms[roomCode];
      var ps := RemoveUser(r.participants, userId);
      RemoveUserUnique(r.participants, userId);
      RemoveUserGone(r.participants, userId);
      var msg := SystemMessage(now, stamp, username + " left the room");
      r := r.(participants := ps, chat := r.chat + [msg]);
      events := [ChatPosted(roomCode, msg), ParticipantLeft(roomCode, userId)];
      if ps == [] {
        rooms := rooms - {roomCode};
      } else {
        if userId == r.hostId {
          r := r.(hostId := ps[0].userId);
          events := events + [HostChanged(roomCode, ps[0].userId)];
        }
        FewerUsersKeepStore(rooms, nextInstance, roomCode, ps, r.chat, r.hostId);
        rooms := rooms[roomCode := r];
      }
    }

    /**
     * `disconnect`: drops every presence entry and every participant on the
     * socket, deletes the rooms this empties and broadcasts one participant-left
     * per participant dropped. No host is reassigned and no chat line posted.
     */
    method Disconnect(socketId: string) returns (events: seq<Event>)
      requires Valid()
      modifies this
      ensures Valid() && Evolves(old(rooms), rooms)
      ensures timers == old(timers) && nextInstance == old(nextInstance)
      ensures online == AfterSocketGone(old(online), socketId)
      ensures rooms == AfterDisconnect(old(rooms), socketId)
      ensures |events| >= 1 && events[0] == PresenceUpdate(online.Keys)
      ensures forall e :: e in events[1..] <==>
                e.ParticipantLeft? && e.room in old(rooms)
                && e.userId in SocketUsers(old(rooms)[e.room].participants, socketId)
    {
      online := DropPresence(online, socketId);
      events := [PresenceUpdate(online.Keys)];
      AfterDisconnectKeepsStore(rooms, nextInstance, socketId);
      var after, left := DropFromRooms(rooms, socketId);
      rooms := after;
      events := events + left;
      assert events[1..] == left;
    }

    // ---------- read-only snapshot ----------

    /**
     * `GET /api/room/:code`: the public view of the room filed under the
     * upper-cased code, without socket ids, or None when there is none.
     */
    function Snapshot(code: string): (view: Option<RoomView>)
      reads this
      ensures view.None? <==> Text.ToUpper(code) !in rooms
      ensures view.Some? ==>
        var r := rooms[Text.ToUpper(code)];
        && view.value.code == r.code && view.value.status == r.status
        && view.value.problemSlug == r.problemSlug && view.value.problemTitle == r.problemTitle
        && view.value.difficulty == r.difficulty && view.value.duration == r.duration
        && view.value.isHardcore == r.isHardcore && view.value.leetCodeRoomUrl == r.leetCodeRoomUrl
        && |view.value.participants| == |r.participants|
        && forall i :: 0 <= i < |r.participants| ==>
             view.value.participants[i] == ParticipantView(r.participants[i].userId, r.participants[i].username,
                                                           r.participants[i].isReady, r.participants[i].solved)
    {
      var key := Text.ToUpper(code);
      if key !in rooms then None
      else
        var r := rooms[key];
        Some(RoomView(r.code, r.status, r.problemSlug, r.problemTitle, r.difficulty, r.duration,
                      r.isHardcore, r.leetCodeRoomUrl,
                      seq(|r.participants|, i requires 0 <= i < |r.participants| =>
                        ParticipantView(r.participants[i].userId, r.participants[i].username,
                                        r.participants[i].isReady, r.participants[i].solved))))
    }
  }
}
