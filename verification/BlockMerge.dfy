/** The tasks that merge the block and block-meta streams of several sources: one processed block
    per slot in bounded memory, and block infos at an ever rising tip. */
module BlockMerge {
  import opened Prelude

  type Hash = nat

  datatype ProducedBlock = ProducedBlock(slot: Slot, hash: Hash, level: Commitment)
  datatype BlockInfo = BlockInfo(slot: Slot, hash: Hash, level: Commitment)

  /** What the sources send; only a full block can be forwarded. */
  datatype Message =
    | Block(blockSlot: Slot, hash: Hash)
    | SlotUpdate(updateSlot: Slot)
    | Meta(metaSlot: Slot, metaHash: Hash)
    | Other
    | Connecting(attempt: nat)

  const MAX_SIZE: nat := 1024

  // ----- The bounded deduplicator -----

  datatype Merge = Merge(seen: set<Slot>, sent: seq<ProducedBlock>)

  function ExtractSlot(m: Message): Option<Slot> {
    match m
    case Block(slot, _) => Some(slot)
    case SlotUpdate(slot) => Some(slot)
    case Meta(slot, _) => Some(slot)
    case _ => None
  }

  /** Seen already, or not above the lowest of a half full memory. */
  predicate Skips(seen: set<Slot>, slot: Slot) {
    slot in seen || (|seen| >= MAX_SIZE / 2 && slot <= MinOf(seen))
  }

  function Remember(seen: set<Slot>, slot: Slot): set<Slot> {
    var more := seen + {slot};
    if |more| > MAX_SIZE then more - {MinOf(more)} else more
  }

  function MergeStep(d: Merge, m: Message): Merge {
    if m.Block? && !Skips(d.seen, m.blockSlot)
    then Merge(Remember(d.seen, m.blockSlot), d.sent + [ProducedBlock(m.blockSlot, m.hash, Processed)])
    else d
  }

  function MergeRun(ms: seq<Message>): Merge {
    if ms == [] then Merge({}, []) else MergeStep(MergeRun(ms[..|ms| - 1]), ms[|ms| - 1])
  }

  class ProcessedBlockMerger {
    var slotsProcessed: set<Slot>
    var sent: seq<ProducedBlock>

    ghost function View(): Merge
      reads this
    {
      Merge(slotsProcessed, sent)
    }

    constructor ()
      ensures View() == MergeRun([])
    {
      slotsProcessed, sent := {}, [];
    }

    method Receive(m: Message)
      modifies this
      ensures View() == MergeStep(old(View()), m)
    {
      var extracted := ExtractSlot(m);
      if extracted.Some? {
        var slot := extracted.value;
        if slot in slotsProcessed {
          return;
        }
        if |slotsProcessed| >= MAX_SIZE / 2 && slot <= MinOf(slotsProcessed) {
          return;
        }
        if m.Block? {
          sent := sent + [ProducedBlock(slot, m.hash, Processed)];
          slotsProcessed := slotsProcessed + {slot};
          if |slotsProcessed| > MAX_SIZE {
            slotsProcessed := slotsProcessed - {MinOf(slotsProcessed)};
          }
        }
      }
    }

    /** The receive loop over a whole stream. */
    method ReceiveAll(ms: seq<Message>)
      requires View() == MergeRun([])
      modifies this
      ensures View() == MergeRun(ms)
    {
      for i := 0 to |ms|
        invariant View() == MergeRun(ms[..i])
      {
        Receive(ms[i]);
        assert ms[..i + 1][..i] == ms[..i];
      }
      assert ms[..|ms|] == ms;
    }
  }

  function SlotsOf(sent: seq<ProducedBlock>): set<Slot> {
    set b | b in sent :: b.slot
  }

  ghost predicate OncePerSlot(sent: seq<ProducedBlock>) {
    forall i, j | 0 <= i < j < |sent| :: sent[i].slot != sent[j].slot
  }

  /** The memory is never over its bound, forgotten slots lie below every remembered one,
      and nothing is forgotten unless the memory is full. */
  ghost predicate MemoryInvariant(d: Merge) {
    && |d.seen| <= 1024
    && d.seen <= SlotsOf(d.sent)
    && (forall f, k | f in SlotsOf(d.sent) - d.seen && k in d.seen :: f < k)
    && (SlotsOf(d.sent) != d.seen ==> |d.seen| == 1024)
  }

  lemma SlotsOfAppend(sent: seq<ProducedBlock>, b: ProducedBlock)
    ensures SlotsOf(sent + [b]) == SlotsOf(sent) + {b.slot}
  {
    assert forall x | x in sent :: x in sent + [b];
    assert b in sent + [b];
  }

  lemma RememberKeepsMemory(seen: set<Slot>, all: set<Slot>, slot: Slot)
    requires |seen| <= MAX_SIZE && seen <= all && slot !in all
    requires forall f, k | f in all - seen && k in seen :: f < k
    requires all != seen ==> |seen| == MAX_SIZE
    requires !Skips(seen, slot)
    ensures var seen' := Remember(seen, slot);
            && |seen'| <= MAX_SIZE && seen' <= all + {slot}
            && (forall f, k | f in all + {slot} - seen' && k in seen' :: f < k)
            && (all + {slot} != seen' ==> |seen'| == MAX_SIZE)
  {
    var more := seen + {slot};
    assert |more| == |seen| + 1;
    if |more| > MAX_SIZE {
      var least := MinOf(more);
      assert |more - {least}| == MAX_SIZE;
      assert slot > MinOf(seen);
      assert forall f | f in all + {slot} - (more - {least}) :: f == least || f in all - seen;
    }
  }

  lemma SkipsAllSent(d: Merge, slot: Slot)
    requires MemoryInvariant(d) && slot in SlotsOf(d.sent)
    ensures Skips(d.seen, slot)
  {
    if slot !in d.seen {
      assert d.seen != {};
      assert slot in SlotsOf(d.sent) - d.seen;
      assert slot < MinOf(d.seen);
    }
  }

  lemma MergeStepKeeps(d: Merge, m: Message)
    requires MemoryInvariant(d) && OncePerSlot(d.sent)
    ensures MemoryInvariant(MergeStep(d, m)) && OncePerSlot(MergeStep(d, m).sent)
  {
    if m.Block? && !Skips(d.seen, m.blockSlot) {
      var b := ProducedBlock(m.blockSlot, m.hash, Processed);
      if b.slot in SlotsOf(d.sent) { SkipsAllSent(d, b.slot); }
      SlotsOfAppend(d.sent, b);
      RememberKeepsMemory(d.seen, SlotsOf(d.sent), b.slot);
      assert forall i | 0 <= i < |d.sent| :: d.sent[i] in d.sent;
    }
  }

  /** However long the stream, no slot is sent twice, and at most 1024 slots are remembered. */
  lemma {:induction false} AtMostOnce(ms: seq<Message>)
    ensures OncePerSlot(MergeRun(ms).sent)
    ensures |MergeRun(ms).seen| <= 1024
    ensures MemoryInvariant(MergeRun(ms))
  {
    if ms != [] {
      AtMostOnce(ms[..|ms| - 1]);
      MergeStepKeeps(MergeRun(ms[..|ms| - 1]), ms[|ms| - 1]);
    } else {
      assert SlotsOf([]) == {};
    }
  }

  // ----- Against unbounded memory -----

  function Above(all: set<Slot>, slot: Slot): set<Slot> {
    set k | k in all && slot < k
  }

  /** With the slots in `all` sent so far, a new slot is too old if 1024 of them are above it,
      or all of them and there are at least 512. */
  predicate TooOld(all: set<Slot>, slot: Slot) {
    |Above(all, slot)| >= 1024 || (|all| >= 512 && Above(all, slot) == all)
  }

  lemma SubsetSize(a: set<Slot>, b: set<Slot>)
    requires a <= b
    ensures |a| <= |b| && (|a| == |b| ==> a == b)
    decreases |b|
  {
    if a == {} {
    } else {
      var x :| x in a;
      SubsetSize(a - {x}, b - {x});
      assert b == (b - {x}) + {x} && a == (a - {x}) + {x};
    }
  }

  /** The bounded memory skips exactly what was sent before and what is too old. */
  lemma SkipsExactly(d: Merge, slot: Slot)
    requires MemoryInvariant(d)
    ensures Skips(d.seen, slot) <==> slot in SlotsOf(d.sent) || TooOld(SlotsOf(d.sent), slot)
  {
    var all := SlotsOf(d.sent);
    if slot in all {
      SkipsAllSent(d, slot);
    } else if all == d.seen {
      SubsetSize(Above(all, slot), all);
      if |d.seen| >= MAX_SIZE / 2 {
        if slot <= MinOf(d.seen) {
          assert Above(all, slot) == all;
        } else {
          assert MinOf(d.seen) !in Above(all, slot);
        }
      }
    } else {
      SubsetSize(d.seen, all);
      var least := MinOf(d.seen);
      if slot <= least {
        assert d.seen <= Above(all, slot);
        SubsetSize(d.seen, Above(all, slot));
      } else {
        assert least !in Above(all, slot);
        assert forall f | f in all - d.seen :: f < least;
        assert forall k | k in Above(all, slot) :: k in d.seen || k in all - d.seen;
        assert Above(all, slot) <= d.seen - {least};
        SubsetSize(Above(all, slot), d.seen - {least});
      }
    }
  }

  /** Deduplication that remembers every slot. */
  function UnboundedRun(ms: seq<Message>): seq<ProducedBlock> {
    if ms == [] then []
    else
      var earlier := UnboundedRun(ms[..|ms| - 1]);
      var m := ms[|ms| - 1];
      if m.Block? && m.blockSlot !in SlotsOf(earlier)
      then earlier + [ProducedBlock(m.blockSlot, m.hash, Processed)]
      else earlier
  }

  function BlockSlots(ms: seq<Message>): set<Slot> {
    set m | m in ms && m.Block? :: m.blockSlot
  }

  /** No slot is first seen when it is already too old. */
  ghost predicate NoLaggard(ms: seq<Message>) {
    forall i | 0 <= i < |ms| :: !IsLaggard(ms, i)
  }

  lemma BlockSlotsAppend(ms: seq<Message>)
    requires ms != []
    ensures var m := ms[|ms| - 1];
            BlockSlots(ms) == BlockSlots(ms[..|ms| - 1]) + if m.Block? then {m.blockSlot} else {}
  {
    assert ms == ms[..|ms| - 1] + [ms[|ms| - 1]];
    assert forall x | x in ms[..|ms| - 1] :: x in ms;
    assert ms[|ms| - 1] in ms;
  }

  lemma {:induction false} UnboundedSendsEverySlot(ms: seq<Message>)
    ensures SlotsOf(UnboundedRun(ms)) == BlockSlots(ms)
  {
    if ms != [] {
      var m := ms[|ms| - 1];
      var earlier := UnboundedRun(ms[..|ms| - 1]);
      UnboundedSendsEverySlot(ms[..|ms| - 1]);
      BlockSlotsAppend(ms);
      if m.Block? { SlotsOfAppend(earlier, ProducedBlock(m.blockSlot, m.hash, Processed)); }
    }
  }

  lemma AboveHigher(all: set<Slot>, low: Slot, high: Slot)
    ensures Above(all, low) <= all
    ensures low <= high ==> Above(all, high) <= Above(all, low)
  {
  }

  /** A slot dropped as too old stays dropped, whatever is sent afterwards. */
  lemma DroppedForever(d: Merge, m: Message, slot: Slot)
    requires MemoryInvariant(d) && OncePerSlot(d.sent)
    requires slot !in SlotsOf(d.sent) && TooOld(SlotsOf(d.sent), slot)
    ensures var d' := MergeStep(d, m); slot !in SlotsOf(d'.sent) && TooOld(SlotsOf(d'.sent), slot)
  {
    if m.Block? && !Skips(d.seen, m.blockSlot) {
      var all, sent := SlotsOf(d.sent), m.blockSlot;
      SkipsExactly(d, slot);
      SkipsExactly(d, sent);
      SlotsOfAppend(d.sent, ProducedBlock(sent, m.hash, Processed));
      SubsetSize(Above(all, slot), Above(all + {sent}, slot));
      SubsetSize(all, all + {sent});
      AboveHigher(all, sent, slot);
    }
  }

  ghost predicate IsLaggard(ms: seq<Message>, i: nat)
    requires i < |ms|
  {
    ms[i].Block? && ms[i].blockSlot !in BlockSlots(ms[..i]) && TooOld(BlockSlots(ms[..i]), ms[i].blockSlot)
  }

  lemma NoLaggardAppend(ms: seq<Message>)
    requires ms != []
    ensures NoLaggard(ms) <==> NoLaggard(ms[..|ms| - 1]) && !IsLaggard(ms, |ms| - 1)
  {
    var n := |ms| - 1;
    assert forall i | 0 <= i < n :: ms[..n][..i] == ms[..i];
    forall i | 0 <= i < n ensures IsLaggard(ms, i) <==> IsLaggard(ms[..n], i) {
    }
  }

  /** The bounded deduplicator sends the same blocks as the unbounded one if and only if
      no slot is first seen when it is already too old. */
  lemma {:induction false} BoundedIsUnboundedExactly(ms: seq<Message>)
    ensures MergeRun(ms).sent == UnboundedRun(ms) <==> NoLaggard(ms)
    ensures !NoLaggard(ms) ==> exists slot ::
              slot in BlockSlots(ms) && slot !in SlotsOf(MergeRun(ms).sent) && TooOld(SlotsOf(MergeRun(ms).sent), slot)
  {
    if ms != [] {
      var n := |ms| - 1;
      var m, d := ms[n], MergeRun(ms[..n]);
      BoundedIsUnboundedExactly(ms[..n]);
      AtMostOnce(ms[..n]);
      UnboundedSendsEverySlot(ms[..n]);
      UnboundedSendsEverySlot(ms);
      BlockSlotsAppend(ms);
      NoLaggardAppend(ms);
      if NoLaggard(ms[..n]) {
        if m.Block? { SkipsExactly(d, m.blockSlot); }
      } else {
        var slot :| slot in BlockSlots(ms[..n]) && slot !in SlotsOf(d.sent) && TooOld(SlotsOf(d.sent), slot);
        DroppedForever(d, m, slot);
      }
    }
  }

  /** In particular when every first-seen slot has fewer than 512 earlier slots above it. */
  lemma FewAboveIsEnough(ms: seq<Message>)
    requires forall i | 0 <= i < |ms| && ms[i].Block? && ms[i].blockSlot !in BlockSlots(ms[..i]) ::
               |Above(BlockSlots(ms[..i]), ms[i].blockSlot)| < MAX_SIZE / 2
    ensures MergeRun(ms).sent == UnboundedRun(ms)
  {
    BoundedIsUnboundedExactly(ms);
  }

  // ----- The tip filter -----

  datatype TipFilter = TipFilter(tip: Slot, sent: seq<BlockInfo>)

  function TipStep(f: TipFilter, m: Message, level: Commitment): TipFilter {
    if m.Meta? && m.metaSlot > f.tip
    then TipFilter(m.metaSlot, f.sent + [BlockInfo(m.metaSlot, m.metaHash, level)])
    else f
  }

  function TipRun(ms: seq<Message>, level: Commitment): TipFilter {
    if ms == [] then TipFilter(0, []) else TipStep(TipRun(ms[..|ms| - 1], level), ms[|ms| - 1], level)
  }

  class BlockInfoMerger {
    const level: Commitment
    var tip: Slot
    var sent: seq<BlockInfo>

    ghost function View(): TipFilter
      reads this
    {
      TipFilter(tip, sent)
    }

    constructor (level: Commitment)
      ensures this.level == level && View() == TipRun([], level)
    {
      this.level := level;
      tip, sent := 0, [];
    }

    method Receive(m: Message)
      modifies this
      ensures View() == TipStep(old(View()), m, level)
    {
      match m
      case Meta(proposedSlot, hash) =>
        if proposedSlot > tip {
          tip := proposedSlot;
          sent := sent + [BlockInfo(proposedSlot, hash, level)];
        }
      case _ =>
    }
  }

  ghost predicate Rising(sent: seq<BlockInfo>) {
    forall i, j | 0 <= i < j < |sent| :: sent[i].slot < sent[j].slot
  }

  /** The infos sent have strictly rising slots, up to the tip. */
  lemma {:induction false} TipRises(ms: seq<Message>, level: Commitment)
    ensures var f := TipRun(ms, level); Rising(f.sent) && forall i | 0 <= i < |f.sent| :: f.sent[i].slot <= f.tip
  {
    if ms != [] { TipRises(ms[..|ms| - 1], level); }
  }

  /** The tip is the greatest slot received so far, or 0. */
  lemma {:induction false} TipIsGreatest(ms: seq<Message>, level: Commitment)
    ensures var tip := TipRun(ms, level).tip;
            && (forall m | m in ms && m.Meta? :: m.metaSlot <= tip)
            && (tip > 0 ==> exists m :: m in ms && m.Meta? && m.metaSlot == tip)
  {
    if ms != [] {
      var n := |ms| - 1;
      TipIsGreatest(ms[..n], level);
      assert ms == ms[..n] + [ms[n]];
      assert forall m | m in ms[..n] :: m in ms;
      assert ms[n] in ms;
    }
  }

  /** A block meta whose slot is above 0 and above every slot received before. */
  ghost predicate IsNewest(ms: seq<Message>, m: Message) {
    m.Meta? && m.metaSlot > 0 && forall k | k in ms && k.Meta? :: k.metaSlot < m.metaSlot
  }

  /** An info is sent, at the level of the task, exactly when its slot is above 0 and above every slot before. */
  lemma SendsExactlyNewest(ms: seq<Message>, m: Message, level: Commitment)
    ensures TipRun(ms + [m], level).sent ==
            TipRun(ms, level).sent + if IsNewest(ms, m) then [BlockInfo(m.metaSlot, m.metaHash, level)] else []
  {
    assert (ms + [m])[..|ms|] == ms;
    TipIsGreatest(ms, level);
  }
}
