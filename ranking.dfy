/**
 * The final standings computed when a room finishes: the participants sorted
 * with the source's comparator (solved before unsolved, then ascending solve
 * time, a missing or zero time counting as infinity) by a stable sort.
 */
module Ranking {
  import opened Wrappers
  import opened Rooms

  /** `p.solveTime || Infinity`: None stands for infinity. */
  function TimeKey(p: Participant): Option<int> {
    if p.solveTime.None? || p.solveTime.value == 0 then None else p.solveTime
  }

  /** A finite time comes before infinity, and a smaller time before a larger one. */
  predicate Earlier(x: Option<int>, y: Option<int>) {
    x.Some? && (y.None? || x.value < y.value)
  }

  /**
   * The sign of the comparator: negative when `a` belongs before `b`. Solvers
   * come before non-solvers, then the earlier time comes first. Infinity minus
   * infinity is NaN, which the sort reads as 0, so two infinite times tie.
   */
  function Compare(a: Participant, b: Participant): (c: int)
    ensures a.solved != b.solved ==> (c < 0 <==> a.solved)
    ensures a.solved == b.solved ==> (c < 0 <==> Earlier(TimeKey(a), TimeKey(b)))
    ensures c == 0 <==> a.solved == b.solved && TimeKey(a) == TimeKey(b)
  {
    if a.solved != b.solved then (if a.solved then -1 else 1)
    else match (TimeKey(a), TimeKey(b))
      case (None, None) => 0
      case (None, Some(_)) => 1
      case (Some(_), None) => -1
      case (Some(x), Some(y)) => x - y
  }

  /** `a` may stand before `b` in the standings. */
  predicate RankLe(a: Participant, b: Participant) {
    Compare(a, b) <= 0
  }

  predicate Tied(a: Participant, b: Participant) {
    RankLe(a, b) && RankLe(b, a)
  }

  lemma RankLeTotal(a: Participant, b: Participant)
    ensures RankLe(a, b) || RankLe(b, a)
  {
  }

  lemma RankLeTransitive(a: Participant, b: Participant, c: Participant)
    requires RankLe(a, b) && RankLe(b, c)
    ensures RankLe(a, c)
  {
  }

  ghost predicate Sorted(s: seq<Participant>) {
    forall i, j :: 0 <= i < j < |s| ==> RankLe(s[i], s[j])
  }

  /** Puts `x` before the first element that does not rank strictly above it. */
  function Insert(x: Participant, s: seq<Participant>): (r: seq<Participant>)
    ensures multiset(r) == multiset(s) + multiset{x}
  {
    if s == [] then [x]
    else if RankLe(x, s[0]) then [x] + s
    else
      assert s == [s[0]] + s[1..];
      [s[0]] + Insert(x, s[1..])
  }

  /** A head that ranks at or above every element of a sorted tail gives a sorted list. */
  lemma SortedCons(h: Participant, t: seq<Participant>)
    requires Sorted(t)
    requires forall e :: e in t ==> RankLe(h, e)
    ensures Sorted([h] + t)
  {
    var r := [h] + t;
    forall i, j | 0 <= i < j < |r| ensures RankLe(r[i], r[j]) {
      if i == 0 {
        assert r[j] == t[j - 1];
      } else {
        assert r[i] == t[i - 1] && r[j] == t[j - 1];
      }
    }
  }

  /** Inserting into a sorted list keeps it sorted. */
  lemma {:induction false} InsertSorted(x: Participant, s: seq<Participant>)
    requires Sorted(s)
    ensures Sorted(Insert(x, s))
  {
    if s == [] {
    } else if RankLe(x, s[0]) {
      forall e | e in s ensures RankLe(x, e) {
        var j :| 0 <= j < |s| && s[j] == e;
        if j > 0 { RankLeTransitive(x, s[0], s[j]); }
      }
      SortedCons(x, s);
    } else {
      var rest := Insert(x, s[1..]);
      assert Sorted(s[1..]);
      InsertSorted(x, s[1..]);
      RankLeTotal(x, s[0]);
      forall e | e in rest ensures RankLe(s[0], e) {
        assert e in multiset(rest);
        if e != x {
          assert e in multiset(s[1..]);
          var j :| 0 <= j < |s[1..]| && s[1..][j] == e;
          assert s[j + 1] == e;
        }
      }
      SortedCons(s[0], rest);
    }
  }

  /**
   * `Array.from(participants.values()).sort(comparator)`: a stable sort
   * (insertion sort from the back of the list).
   */
  function Rankings(ps: seq<Participant>): (r: seq<Participant>)
    ensures multiset(r) == multiset(ps)
    ensures |r| == |ps|
    ensures Sorted(r)
  {
    if ps == [] then []
    else
      assert ps == [ps[0]] + ps[1..];
      var r := Insert(ps[0], Rankings(ps[1..]));
      InsertSorted(ps[0], Rankings(ps[1..]));
      assert |r| == |multiset(r)|;
      r
  }

  /** The elements of `s` tied with `q`, in their order in `s`. */
  function TiedWith(s: seq<Participant>, q: Participant): seq<Participant> {
    if s == [] then [] else (if Tied(s[0], q) then [s[0]] else []) + TiedWith(s[1..], q)
  }

  lemma {:induction false} InsertTied(x: Participant, s: seq<Participant>, q: Participant)
    ensures TiedWith(Insert(x, s), q) == (if Tied(x, q) then [x] else []) + TiedWith(s, q)
  {
    if s == [] {
    } else if RankLe(x, s[0]) {
      assert ([x] + s)[1..] == s;
    } else {
      var rest := Insert(x, s[1..]);
      InsertTied(x, s[1..], q);
      assert ([s[0]] + rest)[1..] == rest;
      NotBothTied(x, s[0], q);
    }
  }

  /** Two participants in strict order are not both tied with a third. */
  lemma NotBothTied(x: Participant, y: Participant, q: Participant)
    requires !RankLe(x, y)
    ensures !(Tied(x, q) && Tied(y, q))
  {
    if Tied(x, q) && Tied(y, q) {
      RankLeTransitive(x, q, y);
    }
  }

  /** The sort is stable: participants that compare equal keep their join order. */
  lemma {:induction false} RankingsStable(ps: seq<Participant>, q: Participant)
    ensures TiedWith(Rankings(ps), q) == TiedWith(ps, q)
  {
    if ps != [] {
      RankingsStable(ps[1..], q);
      InsertTied(ps[0], Rankings(ps[1..]), q);
    }
  }

  /** Every solved participant ranks above every unsolved one. */
  lemma SolvedFirst(ps: seq<Participant>, i: int, j: int)
    requires 0 <= i < |Rankings(ps)| && 0 <= j < |Rankings(ps)|
    requires Rankings(ps)[i].solved && !Rankings(ps)[j].solved
    ensures i < j
  {
    SortedSolvedFirst(Rankings(ps), i, j);
  }

  lemma SortedSolvedFirst(r: seq<Participant>, i: int, j: int)
    requires Sorted(r) && 0 <= i < |r| && 0 <= j < |r|
    requires r[i].solved && !r[j].solved
    ensures i < j
  {
    assert j < i ==> RankLe(r[j], r[i]);
    assert Compare(r[j], r[i]) == 1;
  }

  /** The only participant who solved heads the standings. */
  lemma SoleSolverFirst(ps: seq<Participant>, w: Participant)
    requires w in ps && w.solved
    requires forall p :: p in ps && p.solved ==> p == w
    ensures Rankings(ps)[0] == w
  {
    var r := Rankings(ps);
    assert w in multiset(r);
    var k :| 0 <= k < |r| && r[k] == w;
    if k > 0 {
      assert r[0] in multiset(ps);
      if r[0].solved {
        assert r[0] == w;
      } else {
        SolvedFirst(ps, k, 0);
      }
    }
  }

  /** A solves at 5000 ms and B never does: the standings are A then B. */
  lemma TwoPlayerExample(a: Participant, b: Participant)
    requires a.solved && a.solveTime == Some(5000)
    requires !b.solved && b.solveTime.None?
    ensures Rankings([a, b]) == [a, b]
    ensures Rankings([b, a]) == [a, b]
  {
    assert [a, b][1..] == [b];
    assert [b, a][1..] == [a];
  }
}
