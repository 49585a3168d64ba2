/** The sliding window of slot leaders kept by the JSON-RPC leader getter. */
module LeaderSchedule {
  import opened Prelude

  datatype LeaderData = LeaderData(slot: Slot, leader: Pubkey)

  /** The cluster's answer to a request for the leaders of `limit` slots from `first`. */
  datatype Response = Leaders(keys: seq<Pubkey>) | RpcError
  type Rpc = (Slot, nat) -> Response

  /** An answer with fewer leaders than asked for makes the indexing panic. */
  datatype Outcome = Updated | FetchFailed | Panicked

  datatype Answer = Schedule(leaders: seq<LeaderData>) | InvalidArguments | NotUpdated(outcome: Outcome)

  type Queue = seq<LeaderData>

  // ----- Specification on values -----

  function DropOld(q: Queue, floor: Slot): Queue {
    if q != [] && q[0].slot < floor then DropOld(q[1..], floor) else q
  }

  function NextSlot(q: Queue, slot: Slot): Slot {
    if q == [] then slot else q[|q| - 1].slot + 1
  }

  function Entries(first: Slot, keys: seq<Pubkey>): Queue {
    seq(|keys|, i requires 0 <= i < |keys| => LeaderData(first + i, keys[i]))
  }

  /** Appends the leaders missing up to `count` slots ahead. */
  function Fetch(q: Queue, slot: Slot, rpc: Rpc, count: nat): (Queue, Outcome) {
    var first := NextSlot(q, slot);
    var limit := SaturatingSub(slot + count, first);
    if slot + count < first then (q, Updated)
    else
      match rpc(first, limit)
      case RpcError => (q, FetchFailed)
      case Leaders(keys) =>
        if |keys| < limit then (q + Entries(first, keys), Panicked)
        else (q + Entries(first, keys[..limit]), Updated)
  }

  function Refresh(q: Queue, slot: Slot, rpc: Rpc, count: nat, old_: nat): (Queue, Outcome) {
    Fetch(DropOld(q, SaturatingSub(slot, old_)), slot, rpc, count)
  }

  function InRange(q: Queue, from: Slot, to: Slot): Queue {
    if q == [] then []
    else
      var x := q[|q| - 1];
      InRange(q[..|q| - 1], from, to) + if from <= x.slot <= to then [x] else []
  }

  predicate Covers(q: Queue, from: Slot, to: Slot) {
    q != [] && q[0].slot <= from && to <= q[|q| - 1].slot
  }

  function Query(q: Queue, from: Slot, to: Slot, rpc: Rpc, count: nat, old_: nat): (Queue, Answer) {
    if to <= from || SaturatingSub(to, from) > count then (q, InvalidArguments)
    else if Covers(q, from, to) then (q, Schedule(InRange(q, from, to)))
    else
      var (q', outcome) := Refresh(q, from, rpc, count, old_);
      (q', if outcome.Updated? then Schedule(InRange(q', from, to)) else NotUpdated(outcome))
  }

  // ----- The object -----

  class JsonRpcLeaderGetter {
    var leaderSchedule: Queue
    const leadersToCacheCount: nat
    const oldSlotLeaderCacheSize: nat

    constructor (leadersToCacheCount: nat, oldSlotLeaderCacheSize: nat)
      ensures leaderSchedule == []
      ensures this.leadersToCacheCount == leadersToCacheCount && this.oldSlotLeaderCacheSize == oldSlotLeaderCacheSize
    {
      leaderSchedule := [];
      this.leadersToCacheCount := leadersToCacheCount;
      this.oldSlotLeaderCacheSize := oldSlotLeaderCacheSize;
    }

    method UpdateLeaderSchedule(slot: Slot, rpc: Rpc) returns (outcome: Outcome)
      modifies this
      ensures (leaderSchedule, outcome) ==
              Refresh(old(leaderSchedule), slot, rpc, leadersToCacheCount, oldSlotLeaderCacheSize)
    {
      ghost var before := leaderSchedule;
      var floor := SaturatingSub(slot, oldSlotLeaderCacheSize);
      while leaderSchedule != [] && leaderSchedule[0].slot < floor
        invariant DropOld(leaderSchedule, floor) == DropOld(before, floor)
        decreases |leaderSchedule|
      {
        leaderSchedule := leaderSchedule[1..];
      }
      ghost var kept := leaderSchedule;
      var lastSlotNeeded := slot + leadersToCacheCount;
      var firstSlotToFetch := if leaderSchedule == [] then slot else leaderSchedule[|leaderSchedule| - 1].slot + 1;
      if lastSlotNeeded >= firstSlotToFetch {
        match rpc(firstSlotToFetch, SaturatingSub(lastSlotNeeded, firstSlotToFetch)) {
          case RpcError =>
            return FetchFailed;
          case Leaders(leaders) =>
            for leaderSlot := firstSlotToFetch to lastSlotNeeded
              invariant leaderSlot - firstSlotToFetch <= |leaders|
              invariant leaderSchedule == kept + Entries(firstSlotToFetch, leaders[..leaderSlot - firstSlotToFetch])
            {
              var currentLeader := SaturatingSub(leaderSlot, firstSlotToFetch);
              if currentLeader >= |leaders| {
                assert leaders[..currentLeader] == leaders;
                return Panicked;
              }
              var entry := LeaderData(leaderSlot, leaders[currentLeader]);
              assert Entries(firstSlotToFetch, leaders[..currentLeader + 1]) ==
                     Entries(firstSlotToFetch, leaders[..currentLeader]) + [entry];
              leaderSchedule := leaderSchedule + [entry];
            }
        }
      }
      outcome := Updated;
    }

    method GetSlotLeaders(from: Slot, to: Slot, rpc: Rpc) returns (answer: Answer)
      modifies this
      ensures (leaderSchedule, answer) ==
              Query(old(leaderSchedule), from, to, rpc, leadersToCacheCount, oldSlotLeaderCacheSize)
    {
      if to <= from || SaturatingSub(to, from) > leadersToCacheCount {
        return InvalidArguments;
      }
      if leaderSchedule == [] || leaderSchedule[0].slot > from || leaderSchedule[|leaderSchedule| - 1].slot < to {
        var outcome := UpdateLeaderSchedule(from, rpc);
        if !outcome.Updated? {
          return NotUpdated(outcome);
        }
      }
      answer := Schedule(InRange(leaderSchedule, from, to));
    }
  }

  // ----- The window is a run of the true schedule -----

  /** A gap-free ascending run of slots, each with its leader in the schedule. */
  ghost predicate IsRun(q: Queue, oracle: Slot -> Pubkey) {
    forall i | 0 <= i < |q| :: q[i] == LeaderData(q[0].slot + i, oracle(q[0].slot + i))
  }

  /** The cluster fails, or answers from the schedule, with however many leaders. */
  ghost predicate Truthful(rpc: Rpc, oracle: Slot -> Pubkey) {
    forall first: Slot, limit: nat | rpc(first, limit).Leaders? ::
      forall i | 0 <= i < |rpc(first, limit).keys| :: rpc(first, limit).keys[i] == oracle(first + i)
  }

  lemma {:induction false} DropOldSlice(q: Queue, floor: Slot, oracle: Slot -> Pubkey)
    requires IsRun(q, oracle)
    ensures IsRun(DropOld(q, floor), oracle)
    ensures q != [] && q[|q| - 1].slot >= floor ==>
              var d := DropOld(q, floor);
              && d != [] && d[|d| - 1] == q[|q| - 1]
              && d[0].slot == if q[0].slot < floor then floor else q[0].slot
    ensures q == [] || q[|q| - 1].slot < floor ==> DropOld(q, floor) == []
  {
    if q != [] && q[0].slot < floor {
      assert forall i | 0 <= i < |q[1..]| :: q[1..][i] == q[i + 1];
      DropOldSlice(q[1..], floor, oracle);
    } else if q != [] {
      assert q[|q| - 1].slot == q[0].slot + |q| - 1;
    }
  }

  /** Appending true leaders prolongs the run. */
  lemma AppendKeepsRun(q: Queue, slot: Slot, keys: seq<Pubkey>, oracle: Slot -> Pubkey)
    requires IsRun(q, oracle)
    requires forall i | 0 <= i < |keys| :: keys[i] == oracle(NextSlot(q, slot) + i)
    ensures var q' := q + Entries(NextSlot(q, slot), keys);
            && IsRun(q', oracle)
            && NextSlot(q', slot) == NextSlot(q, slot) + |keys|
            && (q' != [] ==> q'[0].slot == if q == [] then slot else q[0].slot)
  {
    if q != [] { assert q[|q| - 1].slot == q[0].slot + |q| - 1; }
  }

  lemma FetchEnds(kept: Queue, slot: Slot, rpc: Rpc, count: nat, oracle: Slot -> Pubkey)
    requires IsRun(kept, oracle) && Truthful(rpc, oracle)
    ensures var (q', outcome) := Fetch(kept, slot, rpc, count);
            && IsRun(q', oracle)
            && NextSlot(kept, slot) <= NextSlot(q', slot) <= Max(NextSlot(kept, slot), slot + count)
            && (q' != [] ==> q'[0].slot == if kept == [] then slot else kept[0].slot)
            && (outcome.Updated? ==> slot + count <= NextSlot(q', slot))
  {
    var first := NextSlot(kept, slot);
    var limit := SaturatingSub(slot + count, first);
    var response := rpc(first, limit);
    if response.Leaders? {
      AppendKeepsRun(kept, slot, if |response.keys| < limit then response.keys else response.keys[..limit], oracle);
    }
  }

  /** What a refresh leaves at either end of the window. */
  lemma RefreshEnds(q: Queue, slot: Slot, rpc: Rpc, count: nat, old_: nat, oracle: Slot -> Pubkey)
    requires IsRun(q, oracle) && Truthful(rpc, oracle)
    ensures var (q', outcome) := Refresh(q, slot, rpc, count, old_);
            && IsRun(q', oracle)
            && (q' != [] ==>
                  && SaturatingSub(slot, old_) <= q'[0].slot
                  && q'[|q'| - 1].slot + 1 <= Max(NextSlot(q, slot), slot + count))
            && (outcome.Updated? && count > 0 ==>
                  && q' != [] && slot + count <= q'[|q'| - 1].slot + 1
                  && (q'[0].slot <= slot <==> q == [] || q[0].slot <= slot))
  {
    DropOldSlice(q, SaturatingSub(slot, old_), oracle);
    FetchEnds(DropOld(q, SaturatingSub(slot, old_)), slot, rpc, count, oracle);
    if q != [] { assert q[|q| - 1].slot == q[0].slot + |q| - 1; }
  }

  datatype Update = Update(slot: Slot, rpc: Rpc)

  function AfterUpdates(us: seq<Update>, count: nat, old_: nat): Queue {
    if us == [] then []
    else
      var u := us[|us| - 1];
      Refresh(AfterUpdates(us[..|us| - 1], count, old_), u.slot, u.rpc, count, old_).0
  }

  /** After any updates, failed fetches and short answers included, the window is a run of the schedule. */
  lemma {:induction false} WindowIsRun(us: seq<Update>, count: nat, old_: nat, oracle: Slot -> Pubkey)
    requires forall u | u in us :: Truthful(u.rpc, oracle)
    ensures IsRun(AfterUpdates(us, count, old_), oracle)
  {
    if us != [] {
      var m := |us| - 1;
      assert forall u | u in us[..m] :: u in us;
      WindowIsRun(us[..m], count, old_, oracle);
      assert us[m] in us;
      RefreshEnds(AfterUpdates(us[..m], count, old_), us[m].slot, us[m].rpc, count, old_, oracle);
    }
  }

  /** With slots that never decrease, the window never outgrows the two configured sizes together. */
  lemma {:induction false} WindowIsBounded(us: seq<Update>, count: nat, old_: nat, oracle: Slot -> Pubkey)
    requires forall u | u in us :: Truthful(u.rpc, oracle)
    requires forall i, j | 0 <= i < j < |us| :: us[i].slot <= us[j].slot
    ensures |AfterUpdates(us, count, old_)| <= count + old_
    ensures var q := AfterUpdates(us, count, old_);
            q != [] ==> us != [] && q[|q| - 1].slot < us[|us| - 1].slot + count
  {
    if us != [] {
      var m := |us| - 1;
      assert forall u | u in us[..m] :: u in us;
      WindowIsRun(us[..m], count, old_, oracle);
      WindowIsBounded(us[..m], count, old_, oracle);
      assert us[m] in us;
      RefreshEnds(AfterUpdates(us[..m], count, old_), us[m].slot, us[m].rpc, count, old_, oracle);
      var q := AfterUpdates(us, count, old_);
      if q != [] { assert q[|q| - 1].slot == q[0].slot + |q| - 1; }
    }
  }

  // ----- Queries -----

  /** The true leaders of the slots from..to inclusive. */
  function TrueLeaders(oracle: Slot -> Pubkey, from: Slot, to: Slot): Queue
    requires from <= to
  {
    seq(to - from + 1, i requires 0 <= i => LeaderData(from + i, oracle(from + i)))
  }

  function Clamp(x: int, high: nat): nat {
    if x < 0 then 0 else if x > high then high else x
  }

  lemma {:induction false} InRangeSlice(q: Queue, n: nat, from: Slot, to: Slot, oracle: Slot -> Pubkey)
    requires IsRun(q, oracle) && from <= to && 0 < n <= |q|
    ensures InRange(q[..n], from, to) == q[Clamp(from - q[0].slot, n)..Clamp(to + 1 - q[0].slot, n)]
  {
    var m := n - 1;
    assert q[..n][..m] == q[..m];
    assert q[m].slot == q[0].slot + m;
    if m > 0 { InRangeSlice(q, m, from, to, oracle); }
  }

  lemma SliceIsTrue(q: Queue, low: nat, high: nat, oracle: Slot -> Pubkey)
    requires IsRun(q, oracle) && low < high <= |q|
    ensures q[low..high] == TrueLeaders(oracle, q[0].slot + low, q[0].slot + high - 1)
  {
  }

  /** Filtering a window gives all the true leaders exactly when the window covers the range. */
  lemma InRangeExactly(q: Queue, from: Slot, to: Slot, oracle: Slot -> Pubkey)
    requires IsRun(q, oracle) && from <= to
    ensures InRange(q, from, to) == TrueLeaders(oracle, from, to) <==> Covers(q, from, to)
  {
    if q != [] {
      var first := q[0].slot;
      assert q[|q| - 1].slot == first + |q| - 1;
      InRangeSlice(q, |q|, from, to, oracle);
      assert q[..|q|] == q;
      if Covers(q, from, to) {
        SliceIsTrue(q, from - first, to + 1 - first, oracle);
      } else {
        assert Clamp(to + 1 - first, |q|) - Clamp(from - first, |q|) < to - from + 1;
      }
    }
  }

  /** A successful query returns exactly the true leaders of from..to if and only if the window was
      empty or started no later than `from`, and either the range is shorter than the cache or the
      window reached `to` already. A range as long as the cache passes the guard and may miss `to`. */
  lemma QueryExactly(q: Queue, from: Slot, to: Slot, rpc: Rpc, count: nat, old_: nat, oracle: Slot -> Pubkey)
    requires IsRun(q, oracle) && Truthful(rpc, oracle)
    requires Query(q, from, to, rpc, count, old_).1.Schedule?
    ensures from < to <= from + count
    ensures Query(q, from, to, rpc, count, old_).1.leaders == TrueLeaders(oracle, from, to) <==>
            (q == [] || q[0].slot <= from) && (to - from < count || (q != [] && to <= q[|q| - 1].slot))
  {
    if Covers(q, from, to) {
      InRangeExactly(q, from, to, oracle);
    } else {
      RefreshEnds(q, from, rpc, count, old_, oracle);
      InRangeExactly(Refresh(q, from, rpc, count, old_).0, from, to, oracle);
    }
  }

  /** Filtering keeps exactly the entries in the range, complete or not. */
  lemma {:induction false} InRangeHolds(q: Queue, from: Slot, to: Slot)
    ensures forall x :: x in InRange(q, from, to) <==> x in q && from <= x.slot <= to
  {
    if q != [] {
      InRangeHolds(q[..|q| - 1], from, to);
      assert q == q[..|q| - 1] + [q[|q| - 1]];
    }
  }

  /** A query is refused if and only if its range is empty or a single slot, or longer than the cache. */
  lemma RefusedExactly(q: Queue, from: Slot, to: Slot, rpc: Rpc, count: nat, old_: nat)
    ensures Query(q, from, to, rpc, count, old_).1.InvalidArguments? <==> to <= from || to - from > count
    ensures to <= from || to - from > count ==> Query(q, from, to, rpc, count, old_).0 == q
  {
  }

  /** The slot from which a refresh for `slot` asks the cluster. */
  function AsksFrom(q: Queue, slot: Slot, old_: nat): Slot {
    if q == [] || q[|q| - 1].slot + old_ < slot then slot else q[|q| - 1].slot + 1
  }

  /** What a refresh leaves of the window, and what it adds: of the old entries exactly those at most `old_` slots
      back, and the leaders the cluster gave, as many as were missing. */
  lemma RefreshExactly(q: Queue, slot: Slot, rpc: Rpc, count: nat, old_: nat, oracle: Slot -> Pubkey)
    requires IsRun(q, oracle) && Truthful(rpc, oracle)
    ensures var (q', outcome) := Refresh(q, slot, rpc, count, old_);
            var first := AsksFrom(q, slot, old_);
            var missing := SaturatingSub(slot + count, first);
            var answer := rpc(first, missing);
            && (forall x | x in q :: x in q' <==> slot <= x.slot + old_)
            && (outcome.FetchFailed? <==> first <= slot + count && answer.RpcError?)
            && (outcome.Panicked? <==> first <= slot + count && answer.Leaders? && |answer.keys| < missing)
            && NextSlot(q', first) ==
               first + if first <= slot + count && answer.Leaders? then Min(|answer.keys|, missing) else 0
  {
    var floor := SaturatingSub(slot, old_);
    var kept := DropOld(q, floor);
    DropOldSlice(q, floor, oracle);
    DropOldKeeps(q, floor, oracle);
    FetchAdds(kept, slot, rpc, count);
    if q != [] { assert q[|q| - 1].slot == q[0].slot + |q| - 1; }
    assert NextSlot(kept, slot) == AsksFrom(q, slot, old_);
    forall x | x in q ensures x in kept || x.slot < NextSlot(kept, slot) {
      var i :| 0 <= i < |q| && q[i] == x;
    }
  }

  lemma FetchAdds(kept: Queue, slot: Slot, rpc: Rpc, count: nat)
    ensures var (q', _) := Fetch(kept, slot, rpc, count);
            && (forall x | x in kept :: x in q')
            && (forall x | x in q' :: x in kept || NextSlot(kept, slot) <= x.slot)
  {
  }

  lemma {:induction false} DropOldKeeps(q: Queue, floor: Slot, oracle: Slot -> Pubkey)
    requires IsRun(q, oracle)
    ensures forall x :: x in DropOld(q, floor) <==> x in q && floor <= x.slot
  {
    if q != [] && q[0].slot < floor {
      assert forall i | 0 <= i < |q[1..]| :: q[1..][i] == q[i + 1];
      DropOldKeeps(q[1..], floor, oracle);
      assert q == [q[0]] + q[1..];
    }
  }

  /** Of the accepted queries, one is answered if and only if the window covers the range, or reaches past the
      cache size already, or the cluster gives at least the leaders asked for; else it fails as the cluster does. */
  lemma AnsweredExactly(q: Queue, from: Slot, to: Slot, rpc: Rpc, count: nat, old_: nat, oracle: Slot -> Pubkey)
    requires IsRun(q, oracle) && Truthful(rpc, oracle) && from < to <= from + count
    ensures var first := AsksFrom(q, from, old_);
            var missing := SaturatingSub(from + count, first);
            var response := rpc(first, missing);
            var answer := Query(q, from, to, rpc, count, old_).1;
            && (answer.Schedule? <==> Covers(q, from, to) || from + count < first ||
                                      (response.Leaders? && |response.keys| >= missing))
            && (!answer.Schedule? ==>
                  answer == NotUpdated(if response.RpcError? then FetchFailed else Panicked))
  {
    RefreshExactly(q, from, rpc, count, old_, oracle);
  }

  /** A query of a range as long as the cache is accepted, and on an empty window its answer misses `to`. */
  lemma FullRangeIsIncomplete(from: Slot, rpc: Rpc, count: nat, old_: nat, oracle: Slot -> Pubkey)
    requires count > 0 && Truthful(rpc, oracle)
    requires rpc(from, count).Leaders? && |rpc(from, count).keys| >= count
    ensures var answer := Query([], from, from + count, rpc, count, old_).1;
            answer.Schedule? && answer.leaders != TrueLeaders(oracle, from, from + count)
  {
    QueryExactly([], from, from + count, rpc, count, old_, oracle);
  }
}
