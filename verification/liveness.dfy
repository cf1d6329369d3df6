/**
 * The liveness tracker (overlay/liveness.go): the time each member was last
 * heard from, and the check that reports members silent for too long.
 * Times are integers on the clock of `Membership`; a member never recorded
 * reads as Go's zero time.
 */
module Liveness {
  import opened Wire
  import opened Membership

  /** The recorded time for `id`, or the zero time when there is none. */
  function LastSeen(seen: map<int, int>, id: int): int
  {
    if id in seen then seen[id] else ZeroTime
  }

  /** Whether `m` counts as timed out at time `now`: silent for strictly more than 10 s. */
  predicate Silent(seen: map<int, int>, m: Member, now: int)
  {
    now - LastSeen(seen, m.id) > Timeout
  }

  /** The members of `list` that `Check` reports, in list order. */
  function TimedOut(seen: map<int, int>, list: seq<Member>, now: int): (out: seq<Member>)
    ensures |out| <= |list|
    decreases |list|
  {
    if list == [] then []
    else
      var init := TimedOut(seen, list[..|list| - 1], now);
      if Silent(seen, list[|list| - 1], now) then init + [list[|list| - 1]] else init
  }

  /**
   * `Check` reports exactly the silent listed members: every reported
   * member is listed and silent, and every listed silent member is reported.
   */
  lemma {:induction false} TimedOutSpec(seen: map<int, int>, list: seq<Member>, now: int)
    ensures var out := TimedOut(seen, list, now);
            forall m :: m in out <==> m in list && Silent(seen, m, now)
    decreases |list|
  {
    if list != [] {
      var init := list[..|list| - 1];
      assert forall m :: m in list <==> m in init || m == list[|list| - 1];
      TimedOutSpec(seen, init, now);
    }
  }

  /** `out` is `list` at the strictly increasing positions `pos`. */
  ghost predicate AtPositions(pos: seq<int>, list: seq<Member>, out: seq<Member>)
  {
    && |pos| == |out|
    && (forall k :: 0 <= k < |pos| ==> 0 <= pos[k] < |list| && list[pos[k]] == out[k])
    && (forall k, l :: 0 <= k < l < |pos| ==> pos[k] < pos[l])
  }

  /** `pos` holds exactly the positions of `list` whose member is silent. */
  ghost predicate SilentPositions(pos: seq<int>, seen: map<int, int>, list: seq<Member>, now: int)
  {
    forall i :: 0 <= i < |list| ==> (i in pos <==> Silent(seen, list[i], now))
  }

  /**
   * `Check` reports one member per silent position of the list, in list
   * order: the reports are the listed members at strictly increasing
   * positions, and those positions are exactly the silent ones (a member
   * listed twice is reported twice).
   */
  lemma TimedOutInOrder(seen: map<int, int>, list: seq<Member>, now: int)
    ensures exists pos: seq<int> :: AtPositions(pos, list, TimedOut(seen, list, now)) && SilentPositions(pos, seen, list, now)
  {
    var pos := TimedOutPositions(seen, list, now);
  }

  lemma {:induction false} TimedOutPositions(seen: map<int, int>, list: seq<Member>, now: int) returns (pos: seq<int>)
    ensures AtPositions(pos, list, TimedOut(seen, list, now))
    ensures SilentPositions(pos, seen, list, now)
    decreases |list|
  {
    if list == [] {
      pos := [];
    } else {
      var n := |list| - 1;
      var init := list[..n];
      var pos0 := TimedOutPositions(seen, init, now);
      AtPositionsExtend(pos0, init, list, TimedOut(seen, init, now));
      assert n !in pos0;
      if Silent(seen, list[n], now) {
        pos := pos0 + [n];
        AtPositionsSnoc(pos0, list, TimedOut(seen, init, now), n);
      } else {
        pos := pos0;
      }
      forall i | 0 <= i < |list|
        ensures i in pos <==> Silent(seen, list[i], now)
      {
        if i < n {
          assert list[i] == init[i];
        }
      }
    }
  }

  /** Positions in a prefix are positions in the whole list. */
  lemma AtPositionsExtend(pos: seq<int>, init: seq<Member>, list: seq<Member>, out: seq<Member>)
    requires |init| <= |list| && init == list[..|init|]
    requires AtPositions(pos, init, out)
    ensures AtPositions(pos, list, out)
  {
    forall k | 0 <= k < |pos|
      ensures list[pos[k]] == out[k]
    {
      assert list[pos[k]] == init[pos[k]];
    }
  }

  /** One more position, after all the others. */
  lemma AtPositionsSnoc(pos: seq<int>, list: seq<Member>, out: seq<Member>, n: int)
    requires AtPositions(pos, list, out)
    requires 0 <= n < |list| && forall k :: 0 <= k < |pos| ==> pos[k] < n
    ensures AtPositions(pos + [n], list, out + [list[n]])
  {
    var pos' := pos + [n];
    var out' := out + [list[n]];
    forall k | 0 <= k < |pos'|
      ensures 0 <= pos'[k] < |list| && list[pos'[k]] == out'[k]
    {
      if k < |pos| {
        assert pos'[k] == pos[k] && out'[k] == out[k];
      }
    }
  }

  /** A member never recorded times out as soon as the clock is more than 10 s past the zero time. */
  lemma NeverSeenTimesOut(seen: map<int, int>, m: Member, now: int)
    requires m.id !in seen && now > ZeroTime + Timeout
    ensures Silent(seen, m, now)
  {
  }

  /** Silence of exactly 10 s is not a timeout; one millisecond more is. */
  lemma TimeoutIsStrict(seen: map<int, int>, m: Member)
    requires m.id in seen
    ensures !Silent(seen, m, seen[m.id] + Timeout)
    ensures Silent(seen, m, seen[m.id] + Timeout + 1)
  {
  }

  class Liveness {
    /** The last time each member id was heard from. */
    var members: map<int, int>

    /** `NewLiveness`: nothing recorded yet. */
    constructor ()
      ensures members == map[]
    {
      members := map[];
    }

    /** `SetAlive`: `m` was heard from at `now`; every other id keeps its time. */
    method SetAlive(m: Member, now: int)
      modifies this
      ensures members == old(members)[m.id := now]
      ensures forall id :: id != m.id ==> LastSeen(members, id) == LastSeen(old(members), id)
    {
      members := members[m.id := now];
    }

    /**
     * `Check`: the members of `list` that time out at `now`, in list order
     * (the calls the source makes to `onTimeout`). The record is not changed.
     */
    method Check(list: seq<Member>, now: int) returns (timedOut: seq<Member>)
      ensures timedOut == TimedOut(members, list, now)
    {
      timedOut := [];
      var i := 0;
      while i < |list|
        invariant 0 <= i <= |list|
        invariant timedOut == TimedOut(members, list[..i], now)
      {
        assert list[..i + 1][..i] == list[..i];
        var last := if list[i].id in members then members[list[i].id] else ZeroTime;
        if now - last > Timeout {
          timedOut := timedOut + [list[i]];
        }
        i := i + 1;
      }
      assert list[..i] == list;
    }
  }
}
