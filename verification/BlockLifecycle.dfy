/** Every block whose inputs arrive in time is emitted exactly once as processed, confirmed and
    finalized, in that order, whatever the interleaving; and the merging tasks upstream see to
    the at-most-once and rising-tip conditions this needs. */
module BlockLifecycle {
  import opened Prelude
  import opened BlockMerge
  import opened BlockEmitter

  /** One hash, its slot, and the positions at which its block and its two notices arrive. */
  datatype Plan = Plan(hash: Hash, slot: Slot, block: nat, confirmed: nat, finalized: nat)

  ghost predicate FinalizedInfo(e: Event) {
    e.InfoIn? && e.info.level.Finalized?
  }

  /** Finalized notices arrive with strictly rising slots. */
  ghost predicate FinalityRises(es: seq<Event>) {
    forall i, j | 0 <= i < j < |es| && FinalizedInfo(es[i]) && FinalizedInfo(es[j]) :: es[i].info.slot < es[j].info.slot
  }

  // ----- The cache and startup, in terms of the events -----

  /** The greatest slot finalized so far, or 0. */
  function FinalizedTip(es: seq<Event>): Slot {
    if es == [] then 0
    else
      var tip := FinalizedTip(es[..|es| - 1]);
      match es[|es| - 1]
      case BlockIn(b) => if b.level.Finalized? then Max(tip, b.slot) else tip
      case InfoIn(i) => if i.level.Finalized? then Max(tip, i.slot) else tip
      case Tick => tip
  }

  /** A slot that is 100 or more behind the finalized tip; once there is one, slot 0 always is. */
  predicate FarBehind(tip: Slot, slot: Slot) {
    tip > 0 && (slot == 0 || slot + 100 <= tip)
  }

  /** The block of the hash that came at position `i` is the latest, its finalized notice has not come
      since, and no cleanup tick since found it too far behind the finalized tip. */
  ghost predicate CachedSince(es: seq<Event>, i: nat, h: Hash) {
    && i < |es| && Brings(es[i], h)
    && forall j | i < j < |es| ::
         && !Brings(es[j], h) && !Announces(es[j], h, Finalized)
         && (es[j].Tick? ==> !FarBehind(FinalizedTip(es[..j]), es[i].block.slot))
  }

  ghost predicate Cached(es: seq<Event>, h: Hash) {
    exists i: nat :: CachedSince(es, i, h)
  }

  /** The finalized notice at position `n` finds its block cached. */
  ghost predicate FindsBlock(es: seq<Event>, n: nat) {
    n < |es| && FinalizedInfo(es[n]) && Cached(es[..n], es[n].info.hash)
  }

  ghost predicate Started(es: seq<Event>) {
    exists n: nat :: FindsBlock(es, n)
  }

  lemma {:induction false} TipTracked(es: seq<Event>)
    requires !EmitRun(es).stopped
    ensures EmitRun(es).lastFinalized == FinalizedTip(es)
  {
    if es != [] { TipTracked(es[..|es| - 1]); }
  }

  /** One more event keeps a block cached unless it is the finalized notice or a tick that finds it too old;
      a new block of the hash takes its place. */
  lemma CachedStep(es: seq<Event>, i: nat, h: Hash)
    requires es != []
    ensures var m := |es| - 1;
            CachedSince(es, i, h) <==>
              if i == m then Brings(es[m], h)
              else
                && CachedSince(es[..m], i, h) && !Brings(es[m], h) && !Announces(es[m], h, Finalized)
                && (es[m].Tick? ==> !FarBehind(FinalizedTip(es[..m]), es[i].block.slot))
  {
    var m := |es| - 1;
    assert forall j | 0 <= j < m :: es[..m][..j] == es[..j] && es[..m][j] == es[j];
  }

  /** What one event does to the cached block of the hash. */
  lemma CacheStep(s: Emitter, e: Event, h: Hash)
    requires !s.stopped && !EmitStep(s, e).stopped
    ensures var s' := EmitStep(s, e);
            && (h in s'.recent <==> Brings(e, h) || (h in s.recent && !Announces(e, h, Finalized) &&
                                                     (e.Tick? ==> !FarBehind(s.lastFinalized, s.recent[h].slot))))
            && (h in s'.recent ==> s'.recent[h] == if Brings(e, h) then e.block else s.recent[h])
  {
  }

  /** The cache holds a block of the hash if and only if one came and was neither finalized nor cleaned up since. */
  lemma {:induction false} CacheHoldsExactly(es: seq<Event>, h: Hash)
    requires !EmitRun(es).stopped
    ensures h in EmitRun(es).recent <==> Cached(es, h)
    ensures forall i: nat | CachedSince(es, i, h) :: h in EmitRun(es).recent && EmitRun(es).recent[h] == es[i].block
  {
    if es != [] {
      var m := |es| - 1;
      CacheHoldsExactly(es[..m], h);
      TipTracked(es[..m]);
      CacheStep(EmitRun(es[..m]), es[m], h);
      forall i: nat | CachedSince(es, i, h) ensures h in EmitRun(es).recent && EmitRun(es).recent[h] == es[i].block {
        CachedStep(es, i, h);
        if i < m { assert CachedSince(es[..m], i, h); }
      }
      if h in EmitRun(es).recent {
        if Brings(es[m], h) {
          CachedStep(es, m, h);
        } else {
          var i: nat :| CachedSince(es[..m], i, h);
          CachedStep(es, i, h);
        }
      }
    }
  }

  lemma StartedStep(es: seq<Event>)
    requires es != []
    ensures Started(es) <==> Started(es[..|es| - 1]) || FindsBlock(es, |es| - 1)
  {
    var m := |es| - 1;
    forall n: nat | n < m ensures FindsBlock(es[..m], n) <==> FindsBlock(es, n) {
      assert es[..m][..n] == es[..n];
    }
    if Started(es[..m]) {
      var n: nat :| FindsBlock(es[..m], n);
      assert FindsBlock(es, n);
    }
  }

  /** Startup is completed by the first finalized notice that finds its block cached. */
  lemma {:induction false} StartupExactly(es: seq<Event>)
    requires !EmitRun(es).stopped
    ensures EmitRun(es).startupCompleted <==> Started(es)
  {
    if es != [] {
      var m := |es| - 1;
      StartupExactly(es[..m]);
      StartedStep(es);
      if FinalizedInfo(es[m]) { CacheHoldsExactly(es[..m], es[m].info.hash); }
    }
  }

  // ----- The emissions of a hash whose block and notices arrive once -----

  /** The block and the two notices of the hash arrive exactly once each, in any order. */
  ghost predicate Follows(es: seq<Event>, p: Plan) {
    && p.block < |es| && p.confirmed < |es| && p.finalized < |es|
    && es[p.block] == BlockIn(ProducedBlock(p.slot, p.hash, Processed))
    && Announces(es[p.confirmed], p.hash, Confirmed)
    && es[p.finalized] == InfoIn(BlockInfo(p.slot, p.hash, Finalized))
    && (forall i | 0 <= i < |es| && Brings(es[i], p.hash) :: i == p.block)
    && (forall i | 0 <= i < |es| && Announces(es[i], p.hash, Confirmed) :: i == p.confirmed)
    && (forall i | 0 <= i < |es| && Announces(es[i], p.hash, Finalized) :: i == p.finalized)
  }

  /** The finalized notice comes after the block, or after startup. */
  ghost predicate InTime(es: seq<Event>, p: Plan)
    requires p.finalized < |es|
  {
    p.block < p.finalized || Started(es[..p.finalized])
  }

  predicate Distinct(p: Plan) {
    p.block != p.confirmed && p.block != p.finalized && p.confirmed != p.finalized
  }

  /** The confirmed notice is not the last of the three to arrive. */
  predicate ConfirmedNotLast(p: Plan) {
    p.confirmed < p.finalized || p.confirmed < p.block
  }

  /** The levels at which the loop emits the hash. A confirmed notice that comes last is served only if
      the block is still cached, and then after the finalized one. */
  ghost function Outcome(es: seq<Event>, p: Plan): seq<Commitment>
    requires Follows(es, p)
  {
    var final := if InTime(es, p) then [Finalized] else [];
    if ConfirmedNotLast(p) then [Processed, Confirmed] + final
    else [Processed] + final + if Cached(es[..p.confirmed], p.hash) then [Confirmed] else []
  }

  /** The levels emitted once the first `n` events are in; `served` says whether a last confirmed notice is. */
  function Expected(p: Plan, n: nat, inTime: bool, served: bool): seq<Commitment> {
    var final := if p.finalized < n && inTime then [Finalized] else [];
    if n <= p.block then []
    else if ConfirmedNotLast(p) then [Processed] + (if p.confirmed < n then [Confirmed] else []) + final
    else [Processed] + final + if p.confirmed < n && served then [Confirmed] else []
  }

  ghost predicate Phase(s: Emitter, p: Plan, n: nat, inTime: bool, served: bool) {
    && LevelsOf(s.blocks, p.hash) == Expected(p, n, inTime, served)
    && (n <= p.block ==>
          && p.hash !in s.recent
          && (p.hash in s.confirmedPending <==> p.confirmed < n)
          && (p.hash in s.finalizedPending <==> p.finalized < n && inTime))
    && (p.hash in s.recent ==> s.recent[p.hash].slot == p.slot)
    && (n <= p.finalized ==>
          && (p.hash in s.recent <==> p.block < n)
          && (s.lastFinalized == 0 || s.lastFinalized < p.slot))
  }

  lemma ExpectedNext(p: Plan, n: nat, inTime: bool, served: bool)
    requires Distinct(p)
    ensures n != p.block ==>
              Expected(p, n + 1, inTime, served) == Expected(p, n, inTime, served)
              + if n == p.confirmed && p.block < n && (ConfirmedNotLast(p) || served) then [Confirmed]
                else if n == p.finalized && p.block < n && inTime then [Finalized] else []
  {
  }

  lemma LevelsOnInfo(s: Emitter, i: BlockInfo, h: Hash)
    requires Keyed(s) && !s.stopped && !i.level.Processed?
    ensures LevelsOf(OnInfo(s, i).blocks, h) ==
            LevelsOf(s.blocks, h) + if i.hash == h && h in s.recent then [i.level] else []
  {
    var more := Emits(s, InfoIn(i));
    StepEmits(s, InfoIn(i));
    EmissionsConcat(s.blocks, more, h);
    if more != [] { LevelsOfOne(more[0], h); }
  }

  lemma LevelsOnBlock(s: Emitter, b: ProducedBlock, p: Plan, n: nat, inTime: bool, served: bool)
    requires Phase(s, p, n, inTime, served) && b.level.Processed? && (b.hash == p.hash <==> n == p.block)
    requires n != p.confirmed && n != p.finalized && Distinct(p)
    ensures LevelsOf(s.blocks + Copies(s, b), p.hash) == Expected(p, n + 1, inTime, served)
  {
    var more := LevelsOf(Copies(s, b), p.hash);
    EmissionsConcat(s.blocks, Copies(s, b), p.hash);
    CopiesLevels(s, b, p.hash);
    if n == p.block {
      assert LevelsOf(s.blocks, p.hash) == [];
      assert more == Expected(p, n + 1, inTime, served);
    } else {
      ExpectedNext(p, n, inTime, served);
    }
  }

  lemma PhaseOnBlock(s: Emitter, b: ProducedBlock, p: Plan, n: nat, inTime: bool, served: bool)
    requires Keyed(s) && !s.stopped && Phase(s, p, n, inTime, served)
    requires b.level.Processed? && (b.hash == p.hash <==> n == p.block) && (n == p.block ==> b.slot == p.slot)
    requires n != p.confirmed && n != p.finalized && Distinct(p)
    ensures Phase(OnBlock(s, b), p, n + 1, inTime, served)
  {
    LevelsOnBlock(s, b, p, n, inTime, served);
  }

  lemma PhaseOnConfirmed(s: Emitter, i: BlockInfo, p: Plan, n: nat, inTime: bool, served: bool)
    requires Keyed(s) && !s.stopped && Phase(s, p, n, inTime, served)
    requires i.level.Confirmed? && n != p.block && n != p.finalized && Distinct(p)
    requires i.hash == p.hash <==> n == p.confirmed
    requires n == p.confirmed && !ConfirmedNotLast(p) ==> (served <==> p.hash in s.recent)
    ensures Phase(OnInfo(s, i), p, n + 1, inTime, served)
  {
    LevelsOnInfo(s, i, p.hash);
    ExpectedNext(p, n, inTime, served);
  }

  lemma PhaseOnFinalized(s: Emitter, i: BlockInfo, p: Plan, n: nat, inTime: bool, served: bool)
    requires Keyed(s) && !s.stopped && Phase(s, p, n, inTime, served)
    requires i.level.Finalized? && n != p.block && n != p.confirmed && Distinct(p)
    requires i.hash == p.hash <==> n == p.finalized
    requires n < p.finalized ==> i.slot < p.slot
    requires n == p.finalized ==> (inTime <==> p.block < p.finalized || s.startupCompleted)
    ensures Phase(OnInfo(s, i), p, n + 1, inTime, served)
  {
    LevelsOnInfo(s, i, p.hash);
    ExpectedNext(p, n, inTime, served);
  }

  lemma LevelsOfOne(b: ProducedBlock, h: Hash)
    ensures LevelsOf([b], h) == if b.hash == h then [b.level] else []
  {
    assert [b][..0] == [];
  }

  /** A cleanup tick keeps the block while its finalized notice is still to come: the tip is below its slot. */
  lemma PhaseOnTick(s: Emitter, p: Plan, n: nat, inTime: bool, served: bool)
    requires Phase(s, p, n, inTime, served)
    requires n != p.block && n != p.confirmed && n != p.finalized
    requires !OnTick(s).stopped
    ensures Phase(OnTick(s), p, n + 1, inTime, served)
  {
  }

  lemma {:induction false} RunningThroughout(es: seq<Event>, n: nat)
    requires n <= |es| && !EmitRun(es).stopped
    ensures !EmitRun(es[..n]).stopped
  {
    if EmitRun(es[..n]).stopped { StoppedStays(es, n); }
  }

  /** What the phase of the hash needs of the events: those upstream, and the hash's own arriving once. */
  ghost predicate Feeds(es: seq<Event>, p: Plan) {
    ProcessedFeed(es) && FinalityRises(es) && Follows(es, p) && !EmitRun(es).stopped
  }

  lemma PhaseOnInfo(es: seq<Event>, i: BlockInfo, p: Plan, m: nat, inTime: bool, served: bool)
    requires Feeds(es, p) && m < |es| && es[m] == InfoIn(i)
    requires (inTime <==> InTime(es, p)) && (served <==> Cached(es[..p.confirmed], p.hash))
    requires var s := EmitRun(es[..m]); !s.stopped && Keyed(s) && Phase(s, p, m, inTime, served)
    ensures Phase(OnInfo(EmitRun(es[..m]), i), p, m + 1, inTime, served)
  {
    var s := EmitRun(es[..m]);
    assert Announces(es[m], p.hash, i.level) <==> i.hash == p.hash;
    match i.level
    case Processed =>
      ExpectedNext(p, m, inTime, served);
    case Confirmed =>
      CacheHoldsExactly(es[..m], p.hash);
      PhaseOnConfirmed(s, i, p, m, inTime, served);
    case Finalized =>
      assert FinalizedInfo(es[m]) && FinalizedInfo(es[p.finalized]);
      StartupExactly(es[..m]);
      PhaseOnFinalized(s, i, p, m, inTime, served);
  }

  lemma PhaseOnEvent(es: seq<Event>, p: Plan, m: nat, inTime: bool, served: bool)
    requires Feeds(es, p) && m < |es|
    requires (inTime <==> InTime(es, p)) && (served <==> Cached(es[..p.confirmed], p.hash))
    requires var s := EmitRun(es[..m]); !s.stopped && Keyed(s) && Phase(s, p, m, inTime, served)
    requires !EmitStep(EmitRun(es[..m]), es[m]).stopped
    ensures Phase(EmitStep(EmitRun(es[..m]), es[m]), p, m + 1, inTime, served)
  {
    match es[m]
    case BlockIn(b) =>
      assert es[m] in es && (b.hash == p.hash <==> Brings(es[m], p.hash));
      PhaseOnBlock(EmitRun(es[..m]), b, p, m, inTime, served);
    case InfoIn(i) =>
      PhaseOnInfo(es, i, p, m, inTime, served);
    case Tick =>
      PhaseOnTick(EmitRun(es[..m]), p, m, inTime, served);
  }

  lemma OneMoreEvent(es: seq<Event>, m: nat)
    requires m < |es|
    ensures EmitRun(es[..m + 1]) == EmitStep(EmitRun(es[..m]), es[m])
  {
    assert es[..m + 1][..m] == es[..m];
  }

  lemma PhaseAfter(es: seq<Event>, p: Plan, m: nat, inTime: bool, served: bool)
    requires Feeds(es, p) && m < |es|
    requires (inTime <==> InTime(es, p)) && (served <==> Cached(es[..p.confirmed], p.hash))
    requires Phase(EmitRun(es[..m]), p, m, inTime, served)
    ensures Phase(EmitRun(es[..m + 1]), p, m + 1, inTime, served)
  {
    RunningThroughout(es, m);
    RunningThroughout(es, m + 1);
    RunKeyed(es[..m]);
    OneMoreEvent(es, m);
    PhaseOnEvent(es, p, m, inTime, served);
  }

  lemma PhaseAtStart(es: seq<Event>, p: Plan, inTime: bool, served: bool)
    ensures Phase(EmitRun(es[..0]), p, 0, inTime, served)
  {
    assert es[..0] == [];
  }

  lemma PhaseHolds(es: seq<Event>, p: Plan, n: nat, inTime: bool, served: bool)
    requires n <= |es| && Feeds(es, p)
    requires (inTime <==> InTime(es, p)) && (served <==> Cached(es[..p.confirmed], p.hash))
    ensures Phase(EmitRun(es[..n]), p, n, inTime, served)
  {
    PhaseAtStart(es, p, inTime, served);
    for m := 0 to n
      invariant Phase(EmitRun(es[..m]), p, m, inTime, served)
    {
      PhaseAfter(es, p, m, inTime, served);
    }
  }

  /** In every interleaving with other blocks, notices and cleanup ticks, the levels at which the hash is
      emitted; so it is emitted exactly once as processed, then confirmed, then finalized, if and only if its
      finalized notice comes after the block or after startup, and its confirmed notice is not the last of the three. */
  lemma EmittedAtEachLevel(es: seq<Event>, p: Plan)
    requires ProcessedFeed(es) && FinalityRises(es) && Follows(es, p) && !EmitRun(es).stopped
    ensures LevelsOf(EmitRun(es).blocks, p.hash) == Outcome(es, p)
    ensures LevelsOf(EmitRun(es).blocks, p.hash) == [Processed, Confirmed, Finalized] <==>
            InTime(es, p) && ConfirmedNotLast(p)
  {
    PhaseHolds(es, p, |es|, InTime(es, p), Cached(es[..p.confirmed], p.hash));
    assert es[..|es|] == es;
    assert Outcome(es, p)[0] == Processed;
    if !ConfirmedNotLast(p) && InTime(es, p) { assert Outcome(es, p)[1] == Finalized; }
  }

  /** A run in which the order fails: the finalized notice comes after startup but before the block, the
      confirmed notice last, and the block is emitted as finalized before it is emitted as confirmed. */
  lemma ConfirmedLastIsOutOfOrder(first: Hash, h: Hash, earlier: Slot, slot: Slot)
    requires first != h && earlier < slot
    ensures var es := [BlockIn(ProducedBlock(earlier, first, Processed)), InfoIn(BlockInfo(earlier, first, Finalized)),
                       InfoIn(BlockInfo(slot, h, Finalized)), BlockIn(ProducedBlock(slot, h, Processed)),
                       InfoIn(BlockInfo(slot, h, Confirmed))];
            LevelsOf(EmitRun(es).blocks, h) == [Processed, Finalized, Confirmed]
  {
    var b, c := ProducedBlock(earlier, first, Processed), ProducedBlock(slot, h, Processed);
    var started := EmitStep(EmitStep(START, BlockIn(b)), InfoIn(BlockInfo(earlier, first, Finalized)));
    assert started.startupCompleted && started.recent == map[];
    assert started.confirmedPending == {} == started.finalizedPending;
    assert started.blocks == [b, b.(level := Finalized)];
    LevelsOfOne(b, h);
    LevelsOfOneMore([b], b.(level := Finalized), h);
    assert LevelsOf(started.blocks, h) == [] by { assert [b] + [b.(level := Finalized)] == started.blocks; }
    FinalizedBlockConfirmed(started, h, slot);
    RunOfFive(BlockIn(b), InfoIn(BlockInfo(earlier, first, Finalized)), InfoIn(BlockInfo(slot, h, Finalized)),
              BlockIn(c), InfoIn(BlockInfo(slot, h, Confirmed)));
  }

  lemma FinalizedBlockConfirmed(s: Emitter, h: Hash, slot: Slot)
    requires !s.stopped && s.startupCompleted && h !in s.recent && h !in s.confirmedPending && Keyed(s)
    requires LevelsOf(s.blocks, h) == []
    ensures var c := ProducedBlock(slot, h, Processed);
            var s' := EmitStep(EmitStep(EmitStep(s, InfoIn(BlockInfo(slot, h, Finalized))), BlockIn(c)),
                               InfoIn(BlockInfo(slot, h, Confirmed)));
            LevelsOf(s'.blocks, h) == [Processed, Finalized, Confirmed]
  {
    var c := ProducedBlock(slot, h, Processed);
    var noticed := EmitStep(s, InfoIn(BlockInfo(slot, h, Finalized)));
    var arrived := EmitStep(noticed, BlockIn(c));
    EmissionsConcat(noticed.blocks, Copies(noticed, c), h);
    CopiesLevels(noticed, c, h);
    LevelsOfOneMore(arrived.blocks, c.(level := Confirmed), h);
  }

  lemma LevelsOfOneMore(blocks: seq<ProducedBlock>, b: ProducedBlock, h: Hash)
    ensures LevelsOf(blocks + [b], h) == LevelsOf(blocks, h) + if b.hash == h then [b.level] else []
  {
    assert (blocks + [b])[..|blocks|] == blocks;
  }

  lemma RunOfFive(a: Event, b: Event, c: Event, d: Event, e: Event)
    ensures EmitRun([a, b, c, d, e]) == EmitStep(EmitStep(EmitStep(EmitStep(EmitStep(START, a), b), c), d), e)
  {
    assert [a, b, c, d, e][..4] == [a, b, c, d] && [a, b, c, d][..3] == [a, b, c] && [a, b, c][..2] == [a, b];
    assert [a, b][..1] == [a] && [a][..0] == [];
    assert EmitRun([a]) == EmitStep(START, a);
    assert EmitRun([a, b]) == EmitStep(EmitRun([a]), b);
    assert EmitRun([a, b, c]) == EmitStep(EmitRun([a, b]), c);
    assert EmitRun([a, b, c, d]) == EmitStep(EmitRun([a, b, c]), d);
  }

  // ----- Fed by the merging tasks -----

  /** The blocks, and the infos of one level, that the loop has received. */
  function BlocksIn(es: seq<Event>): seq<ProducedBlock> {
    if es == [] then []
    else
      var e := es[|es| - 1];
      BlocksIn(es[..|es| - 1]) + if e.BlockIn? then [e.block] else []
  }

  function InfosIn(es: seq<Event>, level: Commitment): seq<BlockInfo> {
    if es == [] then []
    else
      var e := es[|es| - 1];
      InfosIn(es[..|es| - 1], level) + if e.InfoIn? && e.info.level == level then [e.info] else []
  }

  lemma {:induction false} BlockPosition(es: seq<Event>, i: nat)
    requires i < |es| && es[i].BlockIn?
    ensures |BlocksIn(es[..i])| < |BlocksIn(es)| && BlocksIn(es)[|BlocksIn(es[..i])|] == es[i].block
    decreases |es|
  {
    var m := |es| - 1;
    if i < m {
      BlockPosition(es[..m], i);
      assert es[..m][..i] == es[..i];
    }
  }

  lemma {:induction false} InfoPosition(es: seq<Event>, i: nat)
    requires i < |es| && es[i].InfoIn?
    ensures var level := es[i].info.level;
            |InfosIn(es[..i], level)| < |InfosIn(es, level)| &&
            InfosIn(es, level)[|InfosIn(es[..i], level)|] == es[i].info
    decreases |es|
  {
    var m := |es| - 1;
    if i < m {
      InfoPosition(es[..m], i);
      assert es[..m][..i] == es[..i];
    }
  }

  /** The loop has received, in order, some of what the merging tasks sent. */
  ghost predicate FedBy(es: seq<Event>, blocks: seq<Message>, confirmed: seq<Message>, finalized: seq<Message>) {
    && BlocksIn(es) <= MergeRun(blocks).sent
    && InfosIn(es, Confirmed) <= TipRun(confirmed, Confirmed).sent
    && InfosIn(es, Finalized) <= TipRun(finalized, Finalized).sent
  }

  lemma {:induction false} MergeSendsProcessed(ms: seq<Message>)
    ensures forall i | 0 <= i < |MergeRun(ms).sent| :: MergeRun(ms).sent[i].level.Processed?
  {
    if ms != [] { MergeSendsProcessed(ms[..|ms| - 1]); }
  }

  lemma BlockOrder(es: seq<Event>, i: nat, j: nat) returns (u: nat, v: nat)
    requires i < j < |es| && es[i].BlockIn? && es[j].BlockIn?
    ensures u < v < |BlocksIn(es)| && BlocksIn(es)[u] == es[i].block && BlocksIn(es)[v] == es[j].block
  {
    u, v := |BlocksIn(es[..i])|, |BlocksIn(es[..j])|;
    BlockPosition(es, i);
    BlockPosition(es, j);
    BlockPosition(es[..j], i);
    assert es[..j][..i] == es[..i];
  }

  lemma InfoOrder(es: seq<Event>, i: nat, j: nat, level: Commitment) returns (u: nat, v: nat)
    requires i < j < |es| && es[i].InfoIn? && es[j].InfoIn? && es[i].info.level == level == es[j].info.level
    ensures u < v < |InfosIn(es, level)| && InfosIn(es, level)[u] == es[i].info && InfosIn(es, level)[v] == es[j].info
  {
    u, v := |InfosIn(es[..i], level)|, |InfosIn(es[..j], level)|;
    InfoPosition(es, i);
    InfoPosition(es, j);
    InfoPosition(es[..j], i);
    assert es[..j][..i] == es[..i];
  }

  lemma FedProcessed(es: seq<Event>, sent: seq<ProducedBlock>)
    requires BlocksIn(es) <= sent && forall i | 0 <= i < |sent| :: sent[i].level.Processed?
    ensures ProcessedFeed(es)
  {
    forall e | e in es && e.BlockIn? ensures e.block.level.Processed? {
      var i :| 0 <= i < |es| && es[i] == e;
      BlockPosition(es, i);
    }
  }

  lemma FedOncePerSlot(es: seq<Event>, sent: seq<ProducedBlock>, i: nat, j: nat)
    requires BlocksIn(es) <= sent && OncePerSlot(sent)
    requires i < |es| && j < |es| && es[i].BlockIn? && es[j].BlockIn? && es[i].block.slot == es[j].block.slot
    ensures i == j
  {
    if i < j {
      var u, v := BlockOrder(es, i, j);
    } else if j < i {
      var u, v := BlockOrder(es, j, i);
    }
  }

  lemma FedRising(es: seq<Event>, sent: seq<BlockInfo>, level: Commitment, i: nat, j: nat)
    requires InfosIn(es, level) <= sent && Rising(sent)
    requires i < j < |es| && es[i].InfoIn? && es[j].InfoIn? && es[i].info.level == level == es[j].info.level
    ensures es[i].info.slot < es[j].info.slot
  {
    var u, v := InfoOrder(es, i, j, level);
  }

  lemma FedOnce(es: seq<Event>, sent: seq<BlockInfo>, level: Commitment, i: nat, j: nat)
    requires InfosIn(es, level) <= sent && Rising(sent)
    requires i < |es| && j < |es| && es[i].InfoIn? && es[j].InfoIn? && es[i].info.level == level == es[j].info.level
    requires es[i].info.slot == es[j].info.slot
    ensures i == j
  {
    if i < j {
      FedRising(es, sent, level, i, j);
    } else if j < i {
      FedRising(es, sent, level, j, i);
    }
  }

  /** A hash names one block, so it fixes the slot. */
  ghost predicate HashFixesSlot(es: seq<Event>, slotOf: Hash -> Slot) {
    forall i | 0 <= i < |es| ::
      match es[i]
      case BlockIn(b) => b.slot == slotOf(b.hash)
      case InfoIn(info) => info.slot == slotOf(info.hash)
      case Tick => true
  }

  /** End to end: with the loop fed by the deduplicator and the tip filters, over any streams the sources
      send, it is enough that the block and the two notices arrive; the hash is then emitted exactly once as
      processed, then confirmed, then finalized if and only if the finalized notice comes after the block or
      after startup, and the confirmed one is not the last. */
  lemma EmittedEndToEnd(es: seq<Event>, blocks: seq<Message>, confirmed: seq<Message>, finalized: seq<Message>,
                        slotOf: Hash -> Slot, h: Hash, b: nat, c: nat, f: nat)
    requires FedBy(es, blocks, confirmed, finalized) && HashFixesSlot(es, slotOf)
    requires b < |es| && c < |es| && f < |es|
    requires Brings(es[b], h) && Announces(es[c], h, Confirmed) && Announces(es[f], h, Finalized)
    requires !EmitRun(es).stopped
    ensures var p := Plan(h, slotOf(h), b, c, f);
            Follows(es, p) && LevelsOf(EmitRun(es).blocks, h) == Outcome(es, p)
    ensures LevelsOf(EmitRun(es).blocks, h) == [Processed, Confirmed, Finalized] <==>
            (b < f || Started(es[..f])) && (c < f || c < b)
  {
    var p := Plan(h, slotOf(h), b, c, f);
    AtMostOnce(blocks);
    MergeSendsProcessed(blocks);
    FedProcessed(es, MergeRun(blocks).sent);
    TipRises(confirmed, Confirmed);
    TipRises(finalized, Finalized);
    forall i | 0 <= i < |es| && Brings(es[i], h) ensures i == b {
      FedOncePerSlot(es, MergeRun(blocks).sent, i, b);
    }
    forall i | 0 <= i < |es| && Announces(es[i], h, Confirmed) ensures i == c {
      FedOnce(es, TipRun(confirmed, Confirmed).sent, Confirmed, i, c);
    }
    forall i | 0 <= i < |es| && Announces(es[i], h, Finalized) ensures i == f {
      FedOnce(es, TipRun(finalized, Finalized).sent, Finalized, i, f);
    }
    forall i, j | 0 <= i < j < |es| && FinalizedInfo(es[i]) && FinalizedInfo(es[j])
      ensures es[i].info.slot < es[j].info.slot
    {
      FedRising(es, TipRun(finalized, Finalized).sent, Finalized, i, j);
    }
    assert es[b] in es;
    EmittedAtEachLevel(es, p);
  }
}
