/**
 * Problem suggestions and ballots of a room: adding a suggestion, moving a
 * user's vote, counting ballots and choosing the winner when the host locks.
 */
module Voting {
  import opened Wrappers
  import opened Rooms

  /** `problemSuggestions.get(id)`: the position of the suggestion with that id. */
  function FindSuggestion(ss: seq<Suggestion>, id: string): (k: Option<nat>)
    ensures k.Some? ==> k.value < |ss| && ss[k.value].id == id
    ensures k.Some? ==> forall j :: 0 <= j < k.value ==> ss[j].id != id
    ensures k.None? <==> forall j :: 0 <= j < |ss| ==> ss[j].id != id
  {
    if ss == [] then None
    else if ss[0].id == id then Some(0)
    else
      match FindSuggestion(ss[1..], id)
      case None =>
        assert forall j :: 1 <= j < |ss| ==> ss[j] == ss[1..][j - 1];
        None
      case Some(k) => Some(k + 1)
  }

  /**
   * `problemSuggestions.set(s.id, s)`: a suggestion with the same id is
   * replaced where it stands, otherwise `s` goes to the end.
   */
  function Upsert(ss: seq<Suggestion>, s: Suggestion): (r: seq<Suggestion>)
    ensures |r| == |ss| || |r| == |ss| + 1
    ensures s in r
    ensures forall t :: t in r ==> t == s || t in ss
    ensures forall i :: 0 <= i < |ss| && ss[i].id != s.id ==> i < |r| && r[i] == ss[i]
    ensures (forall j :: 0 <= j < |ss| ==> ss[j].id != s.id) ==> r == ss + [s]
    ensures UniqueSuggestionIds(ss) ==> UniqueSuggestionIds(r)
  {
    match FindSuggestion(ss, s.id)
    case None => ss + [s]
    case Some(k) =>
      assert ss[k := s][k] == s;
      ss[k := s]
  }

  /** Some suggestion already names this problem. */
  predicate SlugTaken(ss: seq<Suggestion>, slug: string) {
    exists i :: 0 <= i < |ss| && ss[i].problemSlug == slug
  }

  /** Every voter set with `userId` taken out. */
  function Cleared(ss: seq<Suggestion>, userId: string): seq<Suggestion> {
    seq(|ss|, i requires 0 <= i < |ss| => ss[i].(votes := ss[i].votes - {userId}))
  }

  /** `problemSuggestions.forEach(s => s.votes.delete(userId))`. */
  method ClearBallot(ss: seq<Suggestion>, userId: string) returns (r: seq<Suggestion>)
    ensures r == Cleared(ss, userId)
  {
    r := ss;
    var i := 0;
    while i < |ss|
      invariant 0 <= i <= |ss| && |r| == |ss|
      invariant forall j :: 0 <= j < i ==> r[j] == ss[j].(votes := ss[j].votes - {userId})
      invariant forall j :: i <= j < |ss| ==> r[j] == ss[j]
    {
      r := r[i := r[i].(votes := r[i].votes - {userId})];
      i := i + 1;
    }
  }

  /** The suggestions after `userId` votes for the one at position `k`. */
  function CastVote(ss: seq<Suggestion>, k: nat, userId: string): (r: seq<Suggestion>)
    requires k < |ss|
    ensures |r| == |ss|
    ensures forall i :: 0 <= i < |ss| ==> r[i] == ss[i].(votes := r[i].votes)
    ensures forall i :: 0 <= i < |ss| ==> (userId in r[i].votes <==> i == k)
    ensures forall i, v :: 0 <= i < |ss| && v != userId ==> (v in r[i].votes <==> v in ss[i].votes)
  {
    var c := Cleared(ss, userId);
    c[k := c[k].(votes := c[k].votes + {userId})]
  }

  /** No user is in two voter sets. */
  ghost predicate SingleBallot(ss: seq<Suggestion>) {
    forall i, j :: 0 <= i < j < |ss| ==> ss[i].votes !! ss[j].votes
  }

  /** A vote keeps every user to one ballot: the voter's new ballot replaces the old ones. */
  lemma CastVoteBallot(ss: seq<Suggestion>, k: nat, userId: string)
    requires k < |ss|
    ensures SingleBallot(ss) ==> SingleBallot(CastVote(ss, k, userId))
  {
  }

  /**
   * Voting again for one's current choice changes nothing, whatever ballots
   * other users hold; and a vote that changes nothing is exactly such a
   * re-vote: this voter's one ballot was already on `k`.
   */
  lemma RevoteUnchanged(ss: seq<Suggestion>, k: nat, userId: string)
    requires k < |ss|
    ensures CastVote(ss, k, userId) == ss <==>
              userId in ss[k].votes && forall i :: 0 <= i < |ss| && i != k ==> userId !in ss[i].votes
  {
    var r := CastVote(ss, k, userId);
    if userId in ss[k].votes && forall i :: 0 <= i < |ss| && i != k ==> userId !in ss[i].votes {
      forall i | 0 <= i < |ss| ensures r[i] == ss[i] {
        if i != k {
          assert ss[i].votes - {userId} == ss[i].votes;
        } else {
          assert ss[k].votes - {userId} + {userId} == ss[k].votes;
        }
      }
    }
  }

  /** The sum of the voter-set sizes. */
  function TotalVotes(ss: seq<Suggestion>): nat {
    if ss == [] then 0 else |ss[0].votes| + TotalVotes(ss[1..])
  }

  /** Every user that is in some voter set. */
  function Voters(ss: seq<Suggestion>): set<string> {
    if ss == [] then {} else ss[0].votes + Voters(ss[1..])
  }

  lemma {:induction false} VotersMembers(ss: seq<Suggestion>, u: string)
    ensures u in Voters(ss) <==> exists i :: 0 <= i < |ss| && u in ss[i].votes
  {
    if ss != [] {
      VotersMembers(ss[1..], u);
      if exists i :: 0 <= i < |ss[1..]| && u in ss[1..][i].votes {
        var i :| 0 <= i < |ss[1..]| && u in ss[1..][i].votes;
        assert u in ss[i + 1].votes;
      }
      if exists i :: 0 <= i < |ss| && u in ss[i].votes {
        var i :| 0 <= i < |ss| && u in ss[i].votes;
        if i > 0 { assert u in ss[1..][i - 1].votes; }
      }
    }
  }

  /** Ballots counted per suggestion are never fewer than the distinct voters. */
  lemma {:induction false} VotersAtMostTotal(ss: seq<Suggestion>)
    ensures |Voters(ss)| <= TotalVotes(ss)
  {
    if ss != [] {
      VotersAtMostTotal(ss[1..]);
      var a, b := ss[0].votes, Voters(ss[1..]);
      assert |a + b| + |a * b| == |a| + |b|;
    }
  }

  /** With one ballot per user the counts add up to exactly the distinct voters. */
  lemma {:induction false} SingleBallotTotal(ss: seq<Suggestion>)
    requires SingleBallot(ss)
    ensures TotalVotes(ss) == |Voters(ss)|
  {
    if ss != [] {
      assert SingleBallot(ss[1..]);
      SingleBallotTotal(ss[1..]);
      forall u | u in ss[0].votes ensures u !in Voters(ss[1..]) {
        VotersMembers(ss[1..], u);
        assert forall i :: 1 <= i < |ss| ==> ss[i] == ss[1..][i - 1];
      }
      var a, b := ss[0].votes, Voters(ss[1..]);
      assert a * b == {};
      assert |a + b| + |a * b| == |a| + |b|;
    }
  }

  /**
   * Suggesting auto-votes without removing the proposer's earlier ballot, so
   * a room can reach a state with two ballots from one user.
   */
  lemma SuggestCanDoubleBallot(s1: Suggestion, s2: Suggestion, u: string)
    requires s1.id != s2.id && s1.votes == {u} && s2.votes == {u}
    ensures SingleBallot([s1])
    ensures !SingleBallot(Upsert([s1], s2))
    ensures TotalVotes(Upsert([s1], s2)) == 2 && |Voters(Upsert([s1], s2))| == 1
  {
    var r := Upsert([s1], s2);
    assert r == [s1, s2];
    assert r[0].votes * r[1].votes == {u};
    assert r[1..] == [s2];
    assert r[1..][1..] == [];
    assert Voters(r[1..]) == {u};
    assert TotalVotes(r[1..]) == 1;
    assert Voters(r) == {u};
  }

  // ---------- locking ----------

  /**
   * `w` is where the reduce with a strict `>` ends: a suggestion with the
   * most votes, and no earlier suggestion has as many.
   */
  ghost predicate IsWinner(ss: seq<Suggestion>, w: int) {
    && 0 <= w < |ss|
    && (forall j :: 0 <= j < |ss| ==> |ss[j].votes| <= |ss[w].votes|)
    && (forall j :: 0 <= j < w ==> |ss[j].votes| < |ss[w].votes|)
  }

  /** `suggestions.reduce((best, cur) => cur.votes.size > best.votes.size ? cur : best)`. */
  method PickWinner(ss: seq<Suggestion>) returns (w: nat)
    requires |ss| > 0
    ensures IsWinner(ss, w)
  {
    w := 0;
    for i := 1 to |ss|
      invariant w < i
      invariant forall j :: 0 <= j < i ==> |ss[j].votes| <= |ss[w].votes|
      invariant forall j :: 0 <= j < w ==> |ss[j].votes| < |ss[w].votes|
    {
      if |ss[i].votes| > |ss[w].votes| {
        w := i;
      }
    }
  }

  /** The tie-break makes the winner unique: the earliest of the most-voted. */
  lemma WinnerUnique(ss: seq<Suggestion>, a: int, b: int)
    requires IsWinner(ss, a) && IsWinner(ss, b)
    ensures a == b
  {
    assert |ss[a].votes| == |ss[b].votes|;
  }
}
