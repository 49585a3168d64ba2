/** The receive loop that emits full blocks as processed, confirmed and finalized, joining
    processed blocks with block infos that arrive on independent channels. One incarnation:
    from empty state until a cleanup tick finds a channel silent and restarts the loop. */
module BlockEmitter {
  import opened Prelude
  import opened BlockMerge

  /** One choice of the select: an info comes from the channel of its level. */
  datatype Event = BlockIn(block: ProducedBlock) | InfoIn(info: BlockInfo) | Tick

  datatype Emitter = Emitter(
    recent: map<Hash, ProducedBlock>,
    confirmedPending: set<Hash>,
    finalizedPending: set<Hash>,
    lastFinalized: Slot,
    startupCompleted: bool,
    quietBlocks: nat,
    quietConfirmed: nat,
    quietFinalized: nat,
    stopped: bool,
    blocks: seq<ProducedBlock>,
    infos: seq<BlockInfo>)

  const CLEANUP_SLOTS_BEHIND_FINALIZED: nat := 100
  const MAX_ALLOWED_CLEANUP_WITHOUT_RECV: nat := 12

  const START := Emitter(map[], {}, {}, 0, false, 0, 0, 0, false, [], [])

  // ----- Specification on values -----

  function Copies(s: Emitter, b: ProducedBlock): seq<ProducedBlock> {
    [b]
    + (if b.hash in s.confirmedPending then [b.(level := Confirmed)] else [])
    + (if b.hash in s.finalizedPending then [b.(level := Finalized)] else [])
  }

  function OnBlock(s: Emitter, b: ProducedBlock): Emitter {
    s.(recent := s.recent[b.hash := b],
       confirmedPending := s.confirmedPending - {b.hash},
       finalizedPending := s.finalizedPending - {b.hash},
       lastFinalized := if b.level.Finalized? then Max(s.lastFinalized, b.slot) else s.lastFinalized,
       quietBlocks := 0,
       blocks := s.blocks + Copies(s, b))
  }

  function OnConfirmed(s: Emitter, i: BlockInfo): Emitter {
    if i.hash in s.recent
    then s.(quietConfirmed := 0, blocks := s.blocks + [s.recent[i.hash].(level := Confirmed)])
    else s.(quietConfirmed := 0, confirmedPending := s.confirmedPending + {i.hash})
  }

  function OnFinalized(s: Emitter, i: BlockInfo): Emitter {
    var t := s.(quietFinalized := 0, lastFinalized := Max(s.lastFinalized, i.slot));
    if i.hash in s.recent
    then t.(recent := s.recent - {i.hash}, startupCompleted := true,
            blocks := s.blocks + [s.recent[i.hash].(level := Finalized)])
    else if s.startupCompleted then t.(finalizedPending := s.finalizedPending + {i.hash})
    else t
  }

  function OnInfo(s: Emitter, i: BlockInfo): Emitter {
    var t := s.(infos := s.infos + [i]);
    match i.level
    case Processed => t
    case Confirmed => OnConfirmed(t, i)
    case Finalized => OnFinalized(t, i)
  }

  predicate Retains(lastFinalized: Slot, b: ProducedBlock) {
    lastFinalized == 0 || b.slot > SaturatingSub(lastFinalized, CLEANUP_SLOTS_BEHIND_FINALIZED)
  }

  function OnTick(s: Emitter): Emitter {
    if s.quietBlocks > MAX_ALLOWED_CLEANUP_WITHOUT_RECV || s.quietConfirmed > MAX_ALLOWED_CLEANUP_WITHOUT_RECV
       || s.quietFinalized > MAX_ALLOWED_CLEANUP_WITHOUT_RECV
    then s.(stopped := true)
    else s.(quietBlocks := s.quietBlocks + 1, quietConfirmed := s.quietConfirmed + 1,
            quietFinalized := s.quietFinalized + 1,
            recent := map h | h in s.recent && Retains(s.lastFinalized, s.recent[h]) :: s.recent[h])
  }

  function EmitStep(s: Emitter, e: Event): Emitter {
    if s.stopped then s
    else
      match e
      case BlockIn(b) => OnBlock(s, b)
      case InfoIn(i) => OnInfo(s, i)
      case Tick => OnTick(s)
  }

  function EmitRun(es: seq<Event>): Emitter {
    if es == [] then START else EmitStep(EmitRun(es[..|es| - 1]), es[|es| - 1])
  }

  // ----- The loop -----

  class BlockEmitterTask {
    var recentProcessedBlocks: map<Hash, ProducedBlock>
    var confirmedBlockNotYetProcessed: set<Hash>
    var finalizedBlockNotYetProcessed: set<Hash>
    var lastFinalizedSlot: Slot
    var startupCompleted: bool
    var cleanupWithoutBlocks: nat
    var cleanupWithoutConfirmed: nat
    var cleanupWithoutFinalized: nat
    var restarting: bool
    var producedBlocks: seq<ProducedBlock>
    var blockInfos: seq<BlockInfo>

    ghost function View(): Emitter
      reads this
    {
      Emitter(recentProcessedBlocks, confirmedBlockNotYetProcessed, finalizedBlockNotYetProcessed, lastFinalizedSlot,
              startupCompleted, cleanupWithoutBlocks, cleanupWithoutConfirmed, cleanupWithoutFinalized,
              restarting, producedBlocks, blockInfos)
    }

    constructor ()
      ensures View() == START
    {
      recentProcessedBlocks, confirmedBlockNotYetProcessed, finalizedBlockNotYetProcessed := map[], {}, {};
      lastFinalizedSlot, startupCompleted, restarting := 0, false, false;
      cleanupWithoutBlocks, cleanupWithoutConfirmed, cleanupWithoutFinalized := 0, 0, 0;
      producedBlocks, blockInfos := [], [];
    }

    method ReceiveBlock(block: ProducedBlock)
      modifies this
      ensures View() == OnBlock(old(View()), block)
    {
      cleanupWithoutBlocks := 0;
      if block.level.Finalized? {
        lastFinalizedSlot := Max(lastFinalizedSlot, block.slot);
      }
      producedBlocks := producedBlocks + [block];
      if block.hash in confirmedBlockNotYetProcessed {
        confirmedBlockNotYetProcessed := confirmedBlockNotYetProcessed - {block.hash};
        producedBlocks := producedBlocks + [block.(level := Confirmed)];
      }
      if block.hash in finalizedBlockNotYetProcessed {
        finalizedBlockNotYetProcessed := finalizedBlockNotYetProcessed - {block.hash};
        producedBlocks := producedBlocks + [block.(level := Finalized)];
      }
      recentProcessedBlocks := recentProcessedBlocks[block.hash := block];
      assert producedBlocks == old(producedBlocks) + Copies(old(View()), block);
    }

    method ReceiveInfo(info: BlockInfo)
      modifies this
      ensures View() == OnInfo(old(View()), info)
    {
      match info.level
      case Processed =>
        blockInfos := blockInfos + [info];
      case Confirmed =>
        cleanupWithoutConfirmed := 0;
        blockInfos := blockInfos + [info];
        if info.hash in recentProcessedBlocks {
          producedBlocks := producedBlocks + [recentProcessedBlocks[info.hash].(level := Confirmed)];
        } else {
          confirmedBlockNotYetProcessed := confirmedBlockNotYetProcessed + {info.hash};
        }
      case Finalized =>
        cleanupWithoutFinalized := 0;
        lastFinalizedSlot := Max(lastFinalizedSlot, info.slot);
        blockInfos := blockInfos + [info];
        if info.hash in recentProcessedBlocks {
          var cached := recentProcessedBlocks[info.hash];
          recentProcessedBlocks := recentProcessedBlocks - {info.hash};
          startupCompleted := true;
          producedBlocks := producedBlocks + [cached.(level := Finalized)];
        } else if startupCompleted {
          finalizedBlockNotYetProcessed := finalizedBlockNotYetProcessed + {info.hash};
        }
    }

    method Cleanup()
      modifies this
      ensures View() == OnTick(old(View()))
    {
      if cleanupWithoutBlocks > MAX_ALLOWED_CLEANUP_WITHOUT_RECV
        || cleanupWithoutConfirmed > MAX_ALLOWED_CLEANUP_WITHOUT_RECV
        || cleanupWithoutFinalized > MAX_ALLOWED_CLEANUP_WITHOUT_RECV
      {
        restarting := true;
        return;
      }
      cleanupWithoutBlocks := cleanupWithoutBlocks + 1;
      cleanupWithoutConfirmed := cleanupWithoutConfirmed + 1;
      cleanupWithoutFinalized := cleanupWithoutFinalized + 1;
      recentProcessedBlocks :=
        map h | h in recentProcessedBlocks && Retains(lastFinalizedSlot, recentProcessedBlocks[h])
          :: recentProcessedBlocks[h];
    }

    /** The loop over the events chosen by the select, until it restarts. */
    method ReceiveAll(es: seq<Event>)
      requires View() == START
      modifies this
      ensures View() == EmitRun(es)
    {
      for i := 0 to |es|
        invariant View() == EmitRun(es[..i])
      {
        assert es[..i + 1][..i] == es[..i];
        if restarting {
          StoppedStays(es, i);
          return;
        }
        match es[i]
        case BlockIn(block) => ReceiveBlock(block);
        case InfoIn(info) => ReceiveInfo(info);
        case Tick => Cleanup();
      }
      assert es[..|es|] == es;
    }
  }

  lemma {:induction false} StoppedStays(es: seq<Event>, n: nat)
    requires n <= |es| && EmitRun(es[..n]).stopped
    ensures EmitRun(es) == EmitRun(es[..n])
    decreases |es|
  {
    if n == |es| {
      assert es[..n] == es;
    } else {
      assert es[..|es| - 1][..n] == es[..n];
      StoppedStays(es[..|es| - 1], n);
    }
  }

  // ----- When the loop restarts -----

  datatype Channel = Blocks | ConfirmedInfos | FinalizedInfos

  predicate Serves(e: Event, ch: Channel) {
    match ch
    case Blocks => e.BlockIn?
    case ConfirmedInfos => e.InfoIn? && e.info.level.Confirmed?
    case FinalizedInfos => e.InfoIn? && e.info.level.Finalized?
  }

  function TicksSince(es: seq<Event>, ch: Channel): nat {
    if es == [] || Serves(es[|es| - 1], ch) then 0
    else TicksSince(es[..|es| - 1], ch) + if es[|es| - 1].Tick? then 1 else 0
  }

  /** A tick at position n finds the channel silent for more than twelve ticks. */
  predicate FindsSilent(es: seq<Event>, n: nat, ch: Channel)
    requires n < |es|
  {
    es[n].Tick? && TicksSince(es[..n], ch) > 12
  }

  function Quiet(s: Emitter, ch: Channel): nat {
    match ch
    case Blocks => s.quietBlocks
    case ConfirmedInfos => s.quietConfirmed
    case FinalizedInfos => s.quietFinalized
  }

  lemma QuietStep(s: Emitter, e: Event, ch: Channel)
    requires !s.stopped
    ensures var s' := EmitStep(s, e);
            !s'.stopped ==> Quiet(s', ch) == if Serves(e, ch) then 0 else Quiet(s, ch) + if e.Tick? then 1 else 0
  {
  }

  lemma {:induction false} QuietCountsTicks(es: seq<Event>, ch: Channel)
    requires !EmitRun(es).stopped
    ensures Quiet(EmitRun(es), ch) == TicksSince(es, ch)
  {
    if es != [] {
      QuietCountsTicks(es[..|es| - 1], ch);
      QuietStep(EmitRun(es[..|es| - 1]), es[|es| - 1], ch);
    }
  }

  lemma StopsExactly(s: Emitter, e: Event)
    requires !s.stopped
    ensures EmitStep(s, e).stopped <==> e.Tick? && exists ch :: Quiet(s, ch) > MAX_ALLOWED_CLEANUP_WITHOUT_RECV
  {
    if EmitStep(s, e).stopped {
      assert Quiet(s, Blocks) > MAX_ALLOWED_CLEANUP_WITHOUT_RECV
             || Quiet(s, ConfirmedInfos) > MAX_ALLOWED_CLEANUP_WITHOUT_RECV
             || Quiet(s, FinalizedInfos) > MAX_ALLOWED_CLEANUP_WITHOUT_RECV;
    }
  }

  /** The loop restarts if and only if some tick finds one of its channels silent for too long. */
  lemma {:induction false} RestartsExactly(es: seq<Event>)
    ensures EmitRun(es).stopped <==> exists n, ch :: 0 <= n < |es| && FindsSilent(es, n, ch)
  {
    if es != [] {
      var m := |es| - 1;
      var s := EmitRun(es[..m]);
      RestartsExactly(es[..m]);
      forall n, ch | 0 <= n < m ensures FindsSilent(es[..m], n, ch) <==> FindsSilent(es, n, ch) {
        assert es[..m][..n] == es[..n];
      }
      if s.stopped {
        var n, ch :| 0 <= n < m && FindsSilent(es[..m], n, ch);
        assert FindsSilent(es, n, ch);
      } else {
        StopsExactly(s, es[m]);
        forall ch ensures FindsSilent(es, m, ch) <==> es[m].Tick? && Quiet(s, ch) > MAX_ALLOWED_CLEANUP_WITHOUT_RECV {
          QuietCountsTicks(es[..m], ch);
        }
      }
    }
  }

  function InfosOf(es: seq<Event>): seq<BlockInfo> {
    if es == [] then []
    else InfosOf(es[..|es| - 1]) + if es[|es| - 1].InfoIn? then [es[|es| - 1].info] else []
  }

  /** Until it restarts, the loop forwards every info once, in the order of arrival. */
  lemma {:induction false} InfosForwarded(es: seq<Event>)
    requires !EmitRun(es).stopped
    ensures EmitRun(es).infos == InfosOf(es)
  {
    if es != [] { InfosForwarded(es[..|es| - 1]); }
  }

  // ----- Emissions of one hash -----

  /** The levels at which blocks of a hash were emitted, in order. */
  function LevelsOf(blocks: seq<ProducedBlock>, h: Hash): seq<Commitment> {
    if blocks == [] then []
    else
      var b := blocks[|blocks| - 1];
      LevelsOf(blocks[..|blocks| - 1], h) + if b.hash == h then [b.level] else []
  }

  function Emitted(blocks: seq<ProducedBlock>, h: Hash, level: Commitment): nat {
    if blocks == [] then 0
    else
      var b := blocks[|blocks| - 1];
      Emitted(blocks[..|blocks| - 1], h, level) + if b.hash == h && b.level == level then 1 else 0
  }

  lemma {:induction false} EmissionsConcat(a: seq<ProducedBlock>, b: seq<ProducedBlock>, h: Hash)
    ensures LevelsOf(a + b, h) == LevelsOf(a, h) + LevelsOf(b, h)
    ensures forall level :: Emitted(a + b, h, level) == Emitted(a, h, level) + Emitted(b, h, level)
  {
    if b == [] {
      assert a + b == a;
    } else {
      var m := |b| - 1;
      EmissionsConcat(a, b[..m], h);
      assert (a + b)[..|a + b| - 1] == a + b[..m];
    }
  }

  /** What one event emits. */
  function Emits(s: Emitter, e: Event): seq<ProducedBlock> {
    if s.stopped then []
    else
      match e
      case BlockIn(b) => Copies(s, b)
      case InfoIn(i) =>
        if !i.level.Processed? && i.hash in s.recent then [s.recent[i.hash].(level := i.level)] else []
      case Tick => []
  }

  lemma StepEmits(s: Emitter, e: Event)
    ensures EmitStep(s, e).blocks == s.blocks + Emits(s, e)
  {
  }

  /** Cached blocks sit under their own hash. */
  ghost predicate Keyed(s: Emitter) {
    forall h | h in s.recent :: s.recent[h].hash == h
  }

  lemma StepKeyed(s: Emitter, e: Event)
    requires Keyed(s)
    ensures Keyed(EmitStep(s, e))
  {
  }

  lemma CopiesLevels(s: Emitter, b: ProducedBlock, h: Hash)
    ensures LevelsOf(Copies(s, b), h) ==
            if b.hash != h then []
            else [b.level] + (if h in s.confirmedPending then [Confirmed] else [])
                 + (if h in s.finalizedPending then [Finalized] else [])
    ensures forall level ::
              Emitted(Copies(s, b), h, level) ==
              (if b.hash != h then 0 else (if b.level == level then 1 else 0) + Pending(s, h, level))
  {
    var c := if b.hash in s.confirmedPending then [b.(level := Confirmed)] else [];
    var f := if b.hash in s.finalizedPending then [b.(level := Finalized)] else [];
    EmissionsConcat([b], c, h);
    EmissionsConcat([b] + c, f, h);
  }

  lemma {:induction false} RunKeyed(es: seq<Event>)
    ensures Keyed(EmitRun(es))
  {
    if es != [] {
      RunKeyed(es[..|es| - 1]);
      StepKeyed(EmitRun(es[..|es| - 1]), es[|es| - 1]);
    }
  }

  /** The source feeding the loop sends processed blocks only. */
  ghost predicate ProcessedFeed(es: seq<Event>) {
    forall e | e in es && e.BlockIn? :: e.block.level.Processed?
  }

  ghost predicate Precedes(blocks: seq<ProducedBlock>, k: nat)
    requires k < |blocks|
  {
    exists j :: 0 <= j < k && blocks[j] == blocks[k].(level := Processed)
  }

  /** Every block at a higher level copies a processed block emitted before; every cached block was emitted. */
  ghost predicate Sourced(s: Emitter) {
    && (forall k | 0 <= k < |s.blocks| && !s.blocks[k].level.Processed? :: Precedes(s.blocks, k))
    && (forall h | h in s.recent :: s.recent[h] in s.blocks && s.recent[h].level.Processed?)
  }

  lemma SourcedOneMore(s: Emitter, b: ProducedBlock)
    requires Sourced(s) && (b.level.Processed? || b.(level := Processed) in s.blocks)
    ensures Sourced(s.(blocks := s.blocks + [b]))
  {
    var more := s.blocks + [b];
    forall k | 0 <= k < |more| && !more[k].level.Processed? ensures Precedes(more, k) {
      if k < |s.blocks| {
        assert Precedes(s.blocks, k);
        var j :| 0 <= j < k && s.blocks[j] == s.blocks[k].(level := Processed);
        assert more[j] == more[k].(level := Processed);
      } else {
        var j :| 0 <= j < |s.blocks| && s.blocks[j] == b.(level := Processed);
        assert more[j] == more[k].(level := Processed);
      }
    }
  }

  lemma CopiesSourced(s: Emitter, b: ProducedBlock)
    requires Sourced(s) && b.level.Processed?
    ensures Sourced(s.(blocks := s.blocks + Copies(s, b)))
  {
    var one := s.(blocks := s.blocks + [b]);
    SourcedOneMore(s, b);
    assert one.blocks[|s.blocks|] == b && b.(level := Confirmed).(level := Processed) == b;
    var two := if b.hash in s.confirmedPending then one.(blocks := one.blocks + [b.(level := Confirmed)]) else one;
    SourcedOneMore(one, b.(level := Confirmed));
    assert two.blocks[|s.blocks|] == b && b.(level := Finalized).(level := Processed) == b;
    var three := if b.hash in s.finalizedPending then two.(blocks := two.blocks + [b.(level := Finalized)]) else two;
    SourcedOneMore(two, b.(level := Finalized));
    assert s.blocks + Copies(s, b) == three.blocks;
  }

  lemma StepSourced(s: Emitter, e: Event)
    requires Sourced(s) && (e.BlockIn? ==> e.block.level.Processed?)
    ensures Sourced(EmitStep(s, e))
  {
    if !s.stopped {
      match e
      case BlockIn(b) => CopiesSourced(s, b);
      case InfoIn(i) =>
        if i.hash in s.recent { SourcedOneMore(s, s.recent[i.hash].(level := i.level)); }
      case Tick =>
    }
  }

  /** In every interleaving, a confirmed or finalized block is emitted after the same block as processed. */
  lemma {:induction false} ProcessedComesFirst(es: seq<Event>)
    requires ProcessedFeed(es)
    ensures Sourced(EmitRun(es))
    ensures var blocks := EmitRun(es).blocks;
            forall k | 0 <= k < |blocks| && !blocks[k].level.Processed? :: Precedes(blocks, k)
  {
    if es != [] {
      var m := |es| - 1;
      assert es == es[..m] + [es[m]];
      assert forall e | e in es[..m] :: e in es;
      ProcessedComesFirst(es[..m]);
      assert es[m] in es;
      StepSourced(EmitRun(es[..m]), es[m]);
    }
  }

  // ----- Conservation -----

  predicate Announces(e: Event, h: Hash, level: Commitment) {
    e.InfoIn? && e.info.hash == h && e.info.level == level
  }

  predicate Brings(e: Event, h: Hash) {
    e.BlockIn? && e.block.hash == h
  }

  function Pending(s: Emitter, h: Hash, level: Commitment): nat {
    match level
    case Processed => 0
    case Confirmed => if h in s.confirmedPending then 1 else 0
    case Finalized => if h in s.finalizedPending then 1 else 0
  }

  function Inputs(e: Event, h: Hash, level: Commitment): nat {
    if if level.Processed? then Brings(e, h) else Announces(e, h, level) then 1 else 0
  }

  lemma EmitsPaidFor(s: Emitter, e: Event, h: Hash, level: Commitment)
    requires Keyed(s) && (e.BlockIn? ==> e.block.level.Processed?)
    ensures Emitted(Emits(s, e), h, level) + Pending(EmitStep(s, e), h, level)
            <= Pending(s, h, level) + Inputs(e, h, level)
    ensures level.Processed? && !s.stopped ==> Emitted(Emits(s, e), h, level) == Inputs(e, h, level)
  {
    if !s.stopped {
      match e
      case BlockIn(b) => CopiesLevels(s, b, h);
      case InfoIn(i) => if i.hash in s.recent { EmittedOne(s.recent[i.hash].(level := i.level), h, level); }
      case Tick =>
    }
  }

  lemma EmittedOne(b: ProducedBlock, h: Hash, level: Commitment)
    ensures Emitted([b], h, level) == if b.hash == h && b.level == level then 1 else 0
  {
    assert [b][..0] == [];
  }

  lemma StepPaysFor(s: Emitter, e: Event, h: Hash, level: Commitment)
    ensures Emitted(EmitStep(s, e).blocks, h, level) == Emitted(s.blocks, h, level) + Emitted(Emits(s, e), h, level)
  {
    StepEmits(s, e);
    EmissionsConcat(s.blocks, Emits(s, e), h);
  }

  /** How often the loop was given what a level of a hash needs: its block, or its notice at that level. */
  function CountInputs(es: seq<Event>, h: Hash, level: Commitment): nat {
    if es == [] then 0 else CountInputs(es[..|es| - 1], h, level) + Inputs(es[|es| - 1], h, level)
  }

  /** Inputs pay for emissions: a hash is emitted at a level no more often than its input for that level
      arrived, a pending notice being one not yet spent; and as processed exactly as often as its block arrived. */
  lemma {:induction false} EmissionsArePaidFor(es: seq<Event>, h: Hash, level: Commitment)
    requires ProcessedFeed(es)
    ensures var s := EmitRun(es);
            && Emitted(s.blocks, h, level) + Pending(s, h, level) <= CountInputs(es, h, level)
            && (level.Processed? && !s.stopped ==> Emitted(s.blocks, h, level) == CountInputs(es, h, level))
  {
    if es != [] {
      var m := |es| - 1;
      assert es == es[..m] + [es[m]];
      assert forall e | e in es[..m] :: e in es;
      EmissionsArePaidFor(es[..m], h, level);
      RunKeyed(es[..m]);
      assert es[m] in es;
      StepPaysFor(EmitRun(es[..m]), es[m], h, level);
      EmitsPaidFor(EmitRun(es[..m]), es[m], h, level);
    }
  }

  /** When the input for a level arrives at most once, the hash is emitted there at most once. */
  lemma EachLevelAtMostOnce(es: seq<Event>, h: Hash, level: Commitment)
    requires ProcessedFeed(es)
    requires CountInputs(es, h, level) <= 1
    ensures Emitted(EmitRun(es).blocks, h, level) <= 1
  {
    EmissionsArePaidFor(es, h, level);
  }
}
