/**
 * The battle-room data model of the room server (apps/server/src/index.ts):
 * participants, chat messages, problem suggestions and the room itself, and
 * the operations on a room's participant list that the handlers share.
 */
module Rooms {
  import opened Wrappers

  /** A room never holds more than this many participants. */
  const MaxParticipants := 4

  datatype Status = Waiting | Starting | InProgress | Finished

  /** One user's membership of one room. */
  datatype Participant = Participant(
    userId: string, socketId: string, username: string, avatarUrl: Option<string>,
    isReady: bool, solved: bool, solveTime: Option<int>)

  datatype ChatKind = MessageKind | SystemKind | InviteKind

  datatype ChatMessage = ChatMessage(
    id: string, userId: string, username: string, text: string,
    timestamp: string, kind: ChatKind)

  /**
   * A proposed problem and the users voting for it. The difficulty is the
   * client's string: the declared union is not checked when it arrives.
   */
  datatype Suggestion = Suggestion(
    id: string, url: string, problemSlug: string, problemTitle: string,
    difficulty: string, submittedBy: string, submittedByUsername: string,
    votes: set<string>)

  /**
   * A battle room. Participants and suggestions are kept in insertion order,
   * as the source's Maps iterate. `instance` tells apart two rooms that were
   * given the same code at different times.
   */
  datatype Room = Room(
    code: string, hostId: string, status: Status,
    problemSlug: string, problemTitle: string, difficulty: string,
    duration: int, startTime: Option<int>, isHardcore: bool, entryFee: int,
    leetCodeRoomId: Option<string>, leetCodeRoomUrl: Option<string>,
    participants: seq<Participant>, chat: seq<ChatMessage>,
    suggestions: seq<Suggestion>, problemLocked: bool, instance: nat)

  /** Participants are keyed by user id: no id occurs twice. */
  ghost predicate UniqueUsers(ps: seq<Participant>) {
    forall i, j :: 0 <= i < j < |ps| ==> ps[i].userId != ps[j].userId
  }

  /** Suggestions are keyed by their id: no id occurs twice. */
  ghost predicate UniqueSuggestionIds(ss: seq<Suggestion>) {
    forall i, j :: 0 <= i < j < |ss| ==> ss[i].id != ss[j].id
  }

  /** What every stored room satisfies. */
  ghost predicate WellFormed(r: Room) {
    && 1 <= |r.participants| <= MaxParticipants
    && UniqueUsers(r.participants)
    && UniqueSuggestionIds(r.suggestions)
  }

  ghost predicate HasUser(ps: seq<Participant>, userId: string) {
    exists i :: 0 <= i < |ps| && ps[i].userId == userId
  }

  /** `participants.get(userId)`: the position of the user's entry, if any. */
  function FindUser(ps: seq<Participant>, userId: string): (k: Option<nat>)
    ensures k.Some? ==> k.value < |ps| && ps[k.value].userId == userId
    ensures k.Some? ==> forall j :: 0 <= j < k.value ==> ps[j].userId != userId
    ensures k.None? <==> !HasUser(ps, userId)
  {
    if ps == [] then None
    else if ps[0].userId == userId then Some(0)
    else
      match FindUser(ps[1..], userId)
      case None =>
        assert !HasUser(ps, userId) by {
          forall i | 0 <= i < |ps| ensures ps[i].userId != userId {
            if i > 0 { assert ps[1..][i - 1] == ps[i]; }
          }
        }
        None
      case Some(k) => Some(k + 1)
  }

  /** The tail of a list has the users of the list other than its head. */
  lemma HasUserTail(ps: seq<Participant>, userId: string)
    requires ps != []
    ensures HasUser(ps, userId) <==> ps[0].userId == userId || HasUser(ps[1..], userId)
  {
    if HasUser(ps, userId) && ps[0].userId != userId {
      var i :| 0 <= i < |ps| && ps[i].userId == userId;
      assert ps[1..][i - 1] == ps[i];
    }
    if HasUser(ps[1..], userId) {
      var i :| 0 <= i < |ps[1..]| && ps[1..][i].userId == userId;
      assert ps[i + 1] == ps[1..][i];
    }
  }

  /** The list without its entry at position `k`. */
  function Without(ps: seq<Participant>, k: nat): seq<Participant>
    requires k < |ps|
  {
    ps[..k] + ps[k + 1..]
  }

  /** Dropping an entry of the tail keeps the head in front. */
  lemma WithoutCons(ps: seq<Participant>, k: nat)
    requires k + 1 < |ps|
    ensures Without(ps, k + 1) == [ps[0]] + Without(ps[1..], k)
  {
  }

  /** The tail of a list with distinct ids has distinct ids and lacks the head's id. */
  lemma UniqueTail(ps: seq<Participant>)
    requires ps != [] && UniqueUsers(ps)
    ensures UniqueUsers(ps[1..])
    ensures !HasUser(ps[1..], ps[0].userId)
  {
    var tail := ps[1..];
    forall i, j | 0 <= i < j < |tail| ensures tail[i].userId != tail[j].userId {
      assert tail[i] == ps[i + 1] && tail[j] == ps[j + 1];
    }
    forall i | 0 <= i < |tail| ensures tail[i].userId != ps[0].userId {
      assert tail[i] == ps[i + 1];
    }
  }

  /** `participants.delete(userId)`: the list without the user, order kept. */
  function RemoveUser(ps: seq<Participant>, userId: string): (r: seq<Participant>)
    ensures forall p :: p in r <==> p in ps && p.userId != userId
    ensures |r| <= |ps|
    ensures !HasUser(ps, userId) ==> r == ps
    ensures ps != [] && ps[0].userId != userId ==> r != [] && r[0] == ps[0]
    ensures UniqueUsers(ps) && HasUser(ps, userId) ==>
              exists k :: 0 <= k < |ps| && ps[k].userId == userId && r == Without(ps, k)
  {
    if ps == [] then []
    else
      HasUserTail(ps, userId);
      var rest := RemoveUser(ps[1..], userId);
      if ps[0].userId == userId then
        RemovedAtHead(ps, userId, rest);
        rest
      else
        RemovedLater(ps, userId, rest);
        [ps[0]] + rest
  }

  /** With distinct ids, a user found at the head is cut out by dropping the head. */
  lemma RemovedAtHead(ps: seq<Participant>, userId: string, rest: seq<Participant>)
    requires ps != [] && ps[0].userId == userId
    requires !HasUser(ps[1..], userId) ==> rest == ps[1..]
    ensures UniqueUsers(ps) ==> rest == Without(ps, 0)
  {
    if UniqueUsers(ps) { UniqueTail(ps); }
  }

  /** With distinct ids, cutting the user out of the tail cuts them out of the list. */
  lemma RemovedLater(ps: seq<Participant>, userId: string, rest: seq<Participant>)
    requires ps != [] && ps[0].userId != userId
    requires UniqueUsers(ps[1..]) && HasUser(ps[1..], userId) ==>
               exists k :: 0 <= k < |ps[1..]| && ps[1..][k].userId == userId && rest == Without(ps[1..], k)
    ensures UniqueUsers(ps) && HasUser(ps, userId) ==>
              exists k :: 0 <= k < |ps| && ps[k].userId == userId && [ps[0]] + rest == Without(ps, k)
  {
    if UniqueUsers(ps) && HasUser(ps, userId) {
      UniqueTail(ps);
      HasUserTail(ps, userId);
      var k :| 0 <= k < |ps[1..]| && ps[1..][k].userId == userId && rest == Without(ps[1..], k);
      WithoutCons(ps, k);
      assert ps[k + 1].userId == userId;
    }
  }

  /** After removing a user, no entry carries their id. */
  lemma RemoveUserGone(ps: seq<Participant>, userId: string)
    ensures !HasUser(RemoveUser(ps, userId), userId)
  {
    var r := RemoveUser(ps, userId);
    assert forall i :: 0 <= i < |r| ==> r[i] in r;
  }

  /** With unique ids, removing a present user shrinks the list by one and keeps ids unique. */
  lemma RemoveUserUnique(ps: seq<Participant>, userId: string)
    requires UniqueUsers(ps)
    ensures UniqueUsers(RemoveUser(ps, userId))
    ensures HasUser(ps, userId) ==> |RemoveUser(ps, userId)| == |ps| - 1
    ensures ps != [] && ps[0].userId == userId ==> RemoveUser(ps, userId) == ps[1..]
  {
    if HasUser(ps, userId) {
      var k :| 0 <= k < |ps| && ps[k].userId == userId && RemoveUser(ps, userId) == Without(ps, k);
      WithoutUnique(ps, k);
      if ps[0].userId == userId {
        assert k == 0;
      }
    }
  }

  /** Cutting one entry out keeps ids distinct and shortens the list by one. */
  lemma WithoutUnique(ps: seq<Participant>, k: nat)
    requires k < |ps| && UniqueUsers(ps)
    ensures |Without(ps, k)| == |ps| - 1
    ensures UniqueUsers(Without(ps, k))
  {
    var w := Without(ps, k);
    assert forall i :: 0 <= i < |w| ==> w[i] == ps[if i < k then i else i + 1];
  }

  /** `r` is `ps` with some entries left out and the others in their order. */
  ghost predicate Subsequence(r: seq<Participant>, ps: seq<Participant>)
    decreases |ps|
  {
    if ps == [] then r == []
    else
      var init, last := ps[..|ps| - 1], ps[|ps| - 1];
      || Subsequence(r, init)
      || (r != [] && r[|r| - 1] == last && Subsequence(r[..|r| - 1], init))
  }

  /** The participants whose connection is not `socketId`, order kept. */
  function RemoveSocket(ps: seq<Participant>, socketId: string): (r: seq<Participant>)
    ensures forall p :: p in r <==> p in ps && p.socketId != socketId
    ensures |r| <= |ps|
    ensures UniqueUsers(ps) ==> UniqueUsers(r)
    ensures Subsequence(r, ps)
  {
    if ps == [] then []
    else
      var init, last := ps[..|ps| - 1], ps[|ps| - 1];
      assert ps == init + [last];
      var rest := RemoveSocket(init, socketId);
      assert UniqueUsers(ps) ==> UniqueUsers(init);
      if last.socketId == socketId then rest
      else
        assert UniqueUsers(ps) ==> UniqueUsers(rest + [last]) by {
          if UniqueUsers(ps) {
            forall p | p in rest ensures p.userId != last.userId {
              var i :| 0 <= i < |init| && init[i] == p;
              assert ps[i] == p;
            }
          }
        }
        assert (rest + [last])[..|rest|] == rest;
        rest + [last]
  }

  lemma {:induction false} RemoveSocketIdempotent(ps: seq<Participant>, socketId: string)
    ensures RemoveSocket(RemoveSocket(ps, socketId), socketId) == RemoveSocket(ps, socketId)
  {
    if ps != [] {
      var init, last := ps[..|ps| - 1], ps[|ps| - 1];
      assert ps == init + [last];
      RemoveSocketIdempotent(init, socketId);
      var rest := RemoveSocket(init, socketId);
      if last.socketId != socketId {
        var r := rest + [last];
        assert r[..|r| - 1] == rest;
      }
    }
  }

  /** The user ids of the participants on connection `socketId`, in join order. */
  function SocketUsers(ps: seq<Participant>, socketId: string): (ids: seq<string>)
    ensures forall u :: u in ids <==> exists p :: p in ps && p.socketId == socketId && p.userId == u
  {
    if ps == [] then []
    else
      var init, last := ps[..|ps| - 1], ps[|ps| - 1];
      assert ps == init + [last];
      var rest := SocketUsers(init, socketId);
      if last.socketId == socketId then rest + [last.userId] else rest
  }

  /** `Array.from(participants.values()).every(p => p.isReady)`. */
  predicate AllReady(ps: seq<Participant>) {
    forall i :: 0 <= i < |ps| ==> ps[i].isReady
  }
}
