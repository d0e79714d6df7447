/// The list operations a vote handler performs (`indexOf`, `splice(i, 1)`,
/// `push`, `Math.max(0, n - 1)`) and the toggle they implement, stated once
/// over a pair of tallies: the voter's own tally (likes for a like) and the
/// opposite one.
module Votes {

  /** `Math.max`. */
  function Max(a: int, b: int): (m: int)
    ensures a <= m && b <= m && (m == a || m == b)
  {
    if a < b then b else a
  }

  /** `Array.prototype.indexOf`: the first position of `x`, or -1. */
  function IndexOf<T(==)>(s: seq<T>, x: T): (i: int)
    ensures -1 <= i < |s|
    ensures i == -1 <==> x !in s
    ensures 0 <= i ==> s[i] == x && x !in s[..i]
  {
    if s == [] then -1
    else if s[0] == x then 0
    else
      var j := IndexOf(s[1..], x);
      if j == -1 then -1
      else
        assert s[..j + 1] == [s[0]] + s[1..][..j];
        j + 1
  }

  /** The list without its first occurrence of `x` (unchanged if none). */
  function RemoveFirst<T(==)>(s: seq<T>, x: T): (r: seq<T>)
    ensures x !in s ==> r == s
    ensures x in s ==> |r| == |s| - 1
  {
    if s == [] then []
    else if s[0] == x then s[1..]
    else [s[0]] + RemoveFirst(s[1..], x)
  }

  /** Removing the first occurrence of `x` takes exactly one `x` away. */
  lemma {:induction false} RemoveFirstTakesOne<T>(s: seq<T>, x: T)
    requires x in s
    ensures multiset(RemoveFirst(s, x)) == multiset(s) - multiset{x}
  {
    assert s == [s[0]] + s[1..];
    if s[0] != x {
      RemoveFirstTakesOne(s[1..], x);
    }
  }

  /** Cutting out the entry at `i`, the first occurrence of `x`, is
      removing the first occurrence of `x`. */
  lemma {:induction false} RemoveFirstAt<T>(s: seq<T>, x: T, i: nat)
    requires i < |s| && s[i] == x && x !in s[..i]
    ensures RemoveFirst(s, x) == s[..i] + s[i + 1..]
  {
    if i == 0 {
      assert s[..0] + s[1..] == s[1..];
    } else {
      var t := s[1..];
      assert s[0] in s[..i];
      assert t[..i - 1] == s[..i][1..];
      RemoveFirstAt(t, x, i - 1);
      assert s[..i] == [s[0]] + t[..i - 1];
      assert s[i + 1..] == t[i..];
    }
  }

  /** `s.splice(IndexOf(s, x), 1)` removes exactly the first occurrence. */
  lemma SpliceRemovesFirst<T>(s: seq<T>, x: T)
    requires x in s
    ensures var i := IndexOf(s, x); s[..i] + s[i + 1..] == RemoveFirst(s, x)
  {
    RemoveFirstAt(s, x, IndexOf(s, x));
  }

  /** Pushing `x` and then removing its first occurrence gives back the list,
      when `x` was not in it. */
  lemma {:induction false} RemovePushed<T>(s: seq<T>, x: T)
    requires x !in s
    ensures RemoveFirst(s + [x], x) == s
  {
    if s != [] {
      RemovePushed(s[1..], x);
      assert (s + [x])[1..] == s[1..] + [x];
    }
  }

  /** A counter and the list of users who cast that kind of vote. */
  datatype Tally = Tally(voters: seq<string>, count: int)

  /** How many times `u` appears among the voters. */
  function VotesOf(t: Tally, u: string): nat
  {
    multiset(t.voters)[u]
  }

  /** Take back `u`'s vote: drop their first entry, decrement, floor at 0. */
  function Withdraw(t: Tally, u: string): (w: Tally)
    requires u in t.voters
    ensures |w.voters| == |t.voters| - 1 && w.count >= 0
    ensures t.count > 0 ==> w.count == t.count - 1
    ensures t.count <= 0 ==> w.count == 0
    ensures forall v :: VotesOf(w, v) == if v == u then VotesOf(t, v) - 1 else VotesOf(t, v)
  {
    RemoveFirstTakesOne(t.voters, u);
    Tally(RemoveFirst(t.voters, u), Max(0, t.count - 1))
  }

  /** Record `u`'s vote: append them and increment. */
  function Add(t: Tally, u: string): (a: Tally)
    ensures |a.voters| == |t.voters| + 1 && a.voters[..|t.voters|] == t.voters && a.voters[|t.voters|] == u
    ensures a.count == t.count + 1
  {
    Tally(t.voters + [u], t.count + 1)
  }

  /** One toggle by `u`: a second vote of the same kind withdraws the first;
      otherwise the vote is added and any opposite vote withdrawn. The result
      is the new (own, opposite) pair. */
  function Cast(own: Tally, opposite: Tally, u: string): (r: (Tally, Tally))
    ensures u in own.voters ==> r.1 == opposite && |r.0.voters| == |own.voters| - 1
    ensures u in own.voters ==> r.0.count == Max(0, own.count - 1)
    ensures u !in own.voters ==> r.0.voters == own.voters + [u] && r.0.count == own.count + 1
    ensures u !in own.voters && u !in opposite.voters ==> r.1 == opposite
    ensures u !in own.voters && u in opposite.voters ==>
              |r.1.voters| == |opposite.voters| - 1 && r.1.count == Max(0, opposite.count - 1)
  {
    if u in own.voters then (Withdraw(own, u), opposite)
    else (Add(own, u), if u in opposite.voters then Withdraw(opposite, u) else opposite)
  }

  /** The handler's steps on the two lists and counters: `indexOf`, then
      either `splice` and a clamped decrement, or `push`, an increment, and
      the same withdrawal from the opposite list when `u` is found there. */
  method Toggle(own: Tally, opposite: Tally, u: string) returns (mine: Tally, theirs: Tally)
    ensures (mine, theirs) == Cast(own, opposite, u)
  {
    var voters, count := own.voters, own.count;
    var others, otherCount := opposite.voters, opposite.count;
    var idx := IndexOf(voters, u);
    if idx >= 0 {
      SpliceRemovesFirst(voters, u);
      voters := voters[..idx] + voters[idx + 1..];
      count := Max(0, count - 1);
      assert Tally(voters, count) == Withdraw(own, u);
    } else {
      voters := voters + [u];
      count := count + 1;
      var oIdx := IndexOf(others, u);
      if oIdx >= 0 {
        SpliceRemovesFirst(others, u);
        others := others[..oIdx] + others[oIdx + 1..];
        otherCount := Max(0, otherCount - 1);
        assert Tally(others, otherCount) == Withdraw(opposite, u);
      }
      assert Tally(voters, count) == Add(own, u);
    }
    mine, theirs := Tally(voters, count), Tally(others, otherCount);
  }

  /** Counters that start non-negative stay non-negative. */
  lemma CastKeepsCountersNonNegative(own: Tally, opposite: Tally, u: string)
    requires own.count >= 0 && opposite.count >= 0
    ensures Cast(own, opposite, u).0.count >= 0 && Cast(own, opposite, u).1.count >= 0
  {
  }

  /** A counter equal to its list's length stays equal to it. */
  lemma CastKeepsCountersMatching(own: Tally, opposite: Tally, u: string)
    ensures var (o, p) := Cast(own, opposite, u);
            && (own.count == |own.voters| ==> o.count == |o.voters|)
            && (opposite.count == |opposite.voters| ==> p.count == |p.voters|)
  {
  }

  /** Votes of users other than `u` are untouched. */
  lemma CastKeepsOtherVoters(own: Tally, opposite: Tally, u: string, v: string)
    requires v != u
    ensures var (o, p) := Cast(own, opposite, u);
            VotesOf(o, v) == VotesOf(own, v) && VotesOf(p, v) == VotesOf(opposite, v)
  {
    if u in own.voters {
      RemoveFirstTakesOne(own.voters, u);
    } else {
      assert multiset(own.voters + [u]) == multiset(own.voters) + multiset{u};
      if u in opposite.voters {
        RemoveFirstTakesOne(opposite.voters, u);
      }
    }
  }

  /** If `u` voted at most once overall, the same holds afterwards; `u` ends
      up holding an own vote exactly when they did not before, and never an
      opposite vote. */
  lemma CastKeepsExclusive(own: Tally, opposite: Tally, u: string)
    requires VotesOf(own, u) + VotesOf(opposite, u) <= 1
    ensures var (o, p) := Cast(own, opposite, u);
            && VotesOf(o, u) + VotesOf(p, u) <= 1
            && (u in o.voters <==> u !in own.voters)
            && u !in p.voters
  {
    var (o, p) := Cast(own, opposite, u);
    if u in own.voters {
      RemoveFirstTakesOne(own.voters, u);
      assert VotesOf(o, u) == 0;
    } else {
      assert multiset(o.voters) == multiset(own.voters) + multiset{u};
      if u in opposite.voters {
        RemoveFirstTakesOne(opposite.voters, u);
      }
    }
  }

  /** Two toggles in a row by a user who had not voted restore both tallies. */
  lemma CastTwiceRestores(own: Tally, opposite: Tally, u: string)
    requires u !in own.voters && u !in opposite.voters && own.count >= 0
    ensures var (o, p) := Cast(own, opposite, u); Cast(o, p, u) == (own, opposite)
  {
    RemovePushed(own.voters, u);
  }
}
