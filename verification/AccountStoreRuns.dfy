/** Whole runs of the account store: what every interleaving of updates and slot notices keeps. */
module AccountStoreRuns {
  import opened Prelude
  import opened AccountVersions
  import opened AccountStore

  datatype Event =
    | Update(data: AccountData, c: Commitment)
    | Initialize(data: AccountData)
    | SlotNotice(slot: Slot, c: Commitment)

  const EMPTY := Store(map[], {}, map[])

  function Step(s: Store, e: Event): Store {
    match e
    case Update(data, c) => ApplyUpdate(s, data, c)
    case Initialize(data) => ApplyInitialize(s, data)
    case SlotNotice(slot, c) => ApplySlot(s, slot, c)
  }

  function Run(es: seq<Event>): Store {
    if es == [] then EMPTY else Step(Run(es[..|es| - 1]), es[|es| - 1])
  }

  /** A run that goes on from a store. */
  function RunFrom(s: Store, es: seq<Event>): Store {
    if es == [] then s else Step(RunFrom(s, es[..|es| - 1]), es[|es| - 1])
  }

  lemma {:induction false} RunConcat(es: seq<Event>, fs: seq<Event>)
    ensures Run(es + fs) == RunFrom(Run(es), fs)
  {
    if fs == [] {
      assert es + fs == es;
    } else {
      var m := |fs| - 1;
      RunConcat(es, fs[..m]);
      assert (es + fs)[..|es| + m] == es + fs[..m];
    }
  }

  /** What every event keeps, a run keeps. */
  lemma {:induction false} KeptThrough(s: Store, es: seq<Event>, kept: Store -> bool)
    requires kept(s) && forall t: Store, e: Event | kept(t) && e in es :: kept(Step(t, e))
    ensures kept(RunFrom(s, es))
  {
    if es != [] {
      var m := |es| - 1;
      assert es[m] in es;
      KeptThrough(s, es[..m], kept);
    }
  }

  lemma RunOfTwo(a: Event, b: Event)
    ensures Run([a, b]) == Step(Step(EMPTY, a), b)
  {
    assert [a, b][..1] == [a] && [a][..0] == [];
    assert Run([a]) == Step(EMPTY, a);
  }

  lemma RunOfThree(a: Event, b: Event, c: Event)
    ensures Run([a, b, c]) == Step(Step(Step(EMPTY, a), b), c)
  {
    RunOfTwo(a, b);
    assert [a, b, c][..2] == [a, b];
  }

  lemma RunOfFour(a: Event, b: Event, c: Event, d: Event)
    ensures Run([a, b, c, d]) == Step(Step(Step(Step(EMPTY, a), b), c), d)
  {
    RunOfThree(a, b, c);
    assert [a, b, c, d][..3] == [a, b, c];
  }

  lemma StepKeepsWellFormed(s: Store, e: Event)
    requires WellFormed(s.accounts)
    ensures WellFormed(Step(s, e).accounts)
  {
    match e
    case Update(data, c) => UpdateKeepsWellFormed(s, data, c);
    case Initialize(data) => InitializeKeepsWellFormed(s, data);
    case SlotNotice(slot, c) => SlotKeepsWellFormed(s, slot, c);
  }

  /** In every run no account is without a processed version, and each version sits under its own slot. */
  lemma {:induction false} RunWellFormed(es: seq<Event>)
    ensures WellFormed(Run(es).accounts)
  {
    if es != [] {
      RunWellFormed(es[..|es| - 1]);
      StepKeepsWellFormed(Run(es[..|es| - 1]), es[|es| - 1]);
    }
  }

  /** What one event does to one account: nothing, creation, an update, or a promotion. */
  ghost predicate VersionsStep(v: Versions, v': Versions, pk: Pubkey) {
    || v' == v
    || (exists d: AccountData, c: Commitment :: d.pubkey == pk && v' == Updated(v, d, c))
    || (exists slot: Slot, c: Commitment :: v' == Promoted(v, slot, c))
  }

  lemma StepOnAccount(s: Store, e: Event, pk: Pubkey)
    requires pk in s.accounts
    ensures pk in Step(s, e).accounts
    ensures VersionsStep(s.accounts[pk], Step(s, e).accounts[pk], pk)
  {
  }

  // ----- Reads never go back -----

  /** `later` is at least as recent as `earlier`; at the same slot it is the same data. */
  ghost predicate NoOlder(earlier: Option<AccountData>, later: Option<AccountData>) {
    earlier.Some? ==>
      && later.Some?
      && earlier.value.slot <= later.value.slot
      && (earlier.value.slot == later.value.slot ==> earlier == later)
  }

  lemma UpdatedNoOlder(pk: Pubkey, v: Versions, data: AccountData, u: Commitment, c: Commitment)
    requires WellFormedVersions(pk, v)
    ensures NoOlder(Read(v, c), Read(Updated(v, data, u), c))
  {
    var v' := Updated(v, data, u);
    assert v'.processed.Keys == v.processed.Keys + {data.slot};
    assert MaxOf(v.processed.Keys) in v'.processed;
  }

  lemma PromotedNoOlder(pk: Pubkey, v: Versions, slot: Slot, u: Commitment, c: Commitment)
    requires WellFormedVersions(pk, v)
    ensures NoOlder(Read(v, c), Read(Promoted(v, slot, u), c))
  {
    PrunedKeepsNewest(pk, v, slot);
  }

  lemma StepNoOlder(s: Store, e: Event, pk: Pubkey, c: Commitment)
    requires WellFormed(s.accounts)
    ensures NoOlder(Lookup(s, pk, c), Lookup(Step(s, e), pk, c))
  {
    if pk in s.accounts {
      var v, v' := s.accounts[pk], Step(s, e).accounts[pk];
      StepOnAccount(s, e, pk);
      assert WellFormedVersions(pk, v);
      if d: AccountData, u :| d.pubkey == pk && v' == Updated(v, d, u) {
        UpdatedNoOlder(pk, v, d, u, c);
      } else if slot, u :| v' == Promoted(v, slot, u) {
        PromotedNoOlder(pk, v, slot, u, c);
      }
    }
  }

  /** Over any run, what an account shows at a commitment never goes back to an older slot,
      and never changes while the slot stays the same. */
  lemma {:induction false} ReadsNeverGoBack(es: seq<Event>, n: nat, pk: Pubkey, c: Commitment)
    requires n <= |es|
    ensures NoOlder(Lookup(Run(es[..n]), pk, c), Lookup(Run(es), pk, c))
    decreases |es|
  {
    if n == |es| {
      assert es[..n] == es;
    } else {
      var m := |es| - 1;
      ReadsNeverGoBack(es[..m], n, pk, c);
      assert es[..m][..n] == es[..n];
      RunWellFormed(es[..m]);
      StepNoOlder(Run(es[..m]), es[m], pk, c);
    }
  }

  // ----- The commitment levels stay in order -----

  ghost predicate AtMost(a: Option<AccountData>, b: Option<AccountData>) {
    a.Some? ==> b.Some? && a.value.slot <= b.value.slot
  }

  ghost predicate NewestOnTop(v: Versions) {
    AtMost(v.confirmed, Read(v, Processed)) && AtMost(v.finalized, Read(v, Processed))
  }

  lemma VersionsStepKeepsNewestOnTop(pk: Pubkey, v: Versions, v': Versions)
    requires WellFormedVersions(pk, v) && WellFormedVersions(pk, v') && NewestOnTop(v) && VersionsStep(v, v', pk)
    ensures NewestOnTop(v')
  {
    NewestIsLast(pk, v);
    NewestIsLast(pk, v');
    if d: AccountData, u :| d.pubkey == pk && v' == Updated(v, d, u) {
      UpdatedNoOlder(pk, v, d, u, Processed);
      assert d.slot in v'.processed;
    } else if slot, u :| v' == Promoted(v, slot, u) {
      PrunedKeepsNewest(pk, v, slot);
      assert PromotionOf(v, slot, u).Some? ==> slot in v.processed;
    }
  }

  /** In every run whatever, no confirmed or finalized version is ahead of the newest processed one. */
  lemma {:induction false} ProcessedIsNewest(es: seq<Event>, pk: Pubkey)
    requires pk in Run(es).accounts
    ensures NewestOnTop(Run(es).accounts[pk])
    decreases |es|
  {
    if es != [] {
      var s, e := Run(es[..|es| - 1]), es[|es| - 1];
      RunWellFormed(es[..|es| - 1]);
      RunWellFormed(es);
      if pk in s.accounts {
        ProcessedIsNewest(es[..|es| - 1], pk);
        StepOnAccount(s, e, pk);
        VersionsStepKeepsNewestOnTop(pk, s.accounts[pk], Run(es).accounts[pk]);
      } else {
        assert exists d: AccountData, c: Commitment :: d.pubkey == pk && Run(es).accounts[pk] == Created(d, c);
      }
    }
  }

  /** Every finalized notice is for a slot still in the confirmed set. */
  ghost predicate FinalizesOnlyConfirmed(es: seq<Event>) {
    forall i | 0 <= i < |es| && es[i].SlotNotice? && es[i].c.Finalized? :: es[i].slot in Run(es[..i]).confirmedSlots
  }

  /** A confirmed slot an account has a version of is not ahead of its confirmed version. */
  ghost predicate CaughtUp(v: Versions, confirmedSlots: set<Slot>) {
    forall k | k in v.processed && k in confirmedSlots && 0 < k :: v.confirmed.Some? && k <= v.confirmed.value.slot
  }

  ghost predicate InOrder(v: Versions, confirmedSlots: set<Slot>) {
    AtMost(v.finalized, v.confirmed) && CaughtUp(v, confirmedSlots)
  }

  lemma UpdateKeepsOrder(s: Store, data: AccountData, c: Commitment)
    requires WellFormed(s.accounts) && data.pubkey in s.accounts
    requires InOrder(s.accounts[data.pubkey], s.confirmedSlots)
    ensures InOrder(ApplyUpdate(s, data, c).accounts[data.pubkey], s.confirmedSlots)
  {
    assert WellFormedVersions(data.pubkey, s.accounts[data.pubkey]);
  }

  lemma SlotKeepsOrder(pk: Pubkey, v: Versions, confirmed: set<Slot>, slot: Slot, c: Commitment)
    requires WellFormedVersions(pk, v) && InOrder(v, confirmed)
    requires c.Finalized? ==> slot in confirmed
    ensures InOrder(Promoted(v, slot, c),
                    if c.Confirmed? then confirmed + {slot} else if c.Finalized? then confirmed - {slot} else confirmed)
  {
    PrunedKeepsNewest(pk, v, slot);
  }

  lemma StepKeepsOrder(s: Store, e: Event, pk: Pubkey)
    requires WellFormed(s.accounts) && pk in Step(s, e).accounts
    requires pk in s.accounts ==> InOrder(s.accounts[pk], s.confirmedSlots)
    requires e.SlotNotice? && e.c.Finalized? ==> e.slot in s.confirmedSlots
    ensures InOrder(Step(s, e).accounts[pk], Step(s, e).confirmedSlots)
  {
    if pk in s.accounts {
      match e
      case Update(data, c) => if data.pubkey == pk { UpdateKeepsOrder(s, data, c); }
      case Initialize(data) => if data.pubkey == pk { UpdateKeepsOrder(s, data, Finalized); }
      case SlotNotice(slot, c) => SlotKeepsOrder(pk, s.accounts[pk], s.confirmedSlots, slot, c);
    }
  }

  /** When only confirmed slots are finalized, every account keeps
      finalized <= confirmed <= newest processed. */
  lemma {:induction false} LevelsInOrder(es: seq<Event>, pk: Pubkey)
    requires FinalizesOnlyConfirmed(es) && pk in Run(es).accounts
    ensures InOrder(Run(es).accounts[pk], Run(es).confirmedSlots)
    ensures AtMost(Run(es).accounts[pk].finalized, Run(es).accounts[pk].confirmed)
    ensures NewestOnTop(Run(es).accounts[pk])
    decreases |es|
  {
    ProcessedIsNewest(es, pk);
    if es != [] {
      var m := |es| - 1;
      RunWellFormed(es[..m]);
      assert FinalizesOnlyConfirmed(es[..m]) by {
        assert forall i | 0 <= i < m :: es[..m][..i] == es[..i];
      }
      if pk in Run(es[..m]).accounts { LevelsInOrder(es[..m], pk); }
      StepKeepsOrder(Run(es[..m]), es[m], pk);
    }
  }

  /** Finalizing a slot keeps finalized <= confirmed for an account if and only if the account has no version
      of the slot, or is finalized or confirmed at or past it. */
  ghost predicate FinalizesInOrder(v: Versions, slot: Slot) {
    || slot !in v.processed || slot <= SlotOrZero(v.finalized)
    || (v.confirmed.Some? && slot <= v.confirmed.value.slot)
  }

  lemma FinalizingKeepsLevelsExactly(pk: Pubkey, v: Versions, slot: Slot)
    requires WellFormedVersions(pk, v) && AtMost(v.finalized, v.confirmed)
    ensures AtMost(Promoted(v, slot, Finalized).finalized, Promoted(v, slot, Finalized).confirmed) <==>
            FinalizesInOrder(v, slot)
  {
    assert PromotionOf(v, slot, Finalized).Some? ==> v.processed[slot].slot == slot;
  }

  ghost predicate LevelsOrdered(s: Store, pk: Pubkey) {
    pk in s.accounts ==> AtMost(s.accounts[pk].finalized, s.accounts[pk].confirmed)
  }

  ghost predicate KeepsLevels(s: Store, e: Event, pk: Pubkey) {
    pk in s.accounts && e.SlotNotice? && e.c.Finalized? ==> FinalizesInOrder(s.accounts[pk], e.slot)
  }

  lemma StepKeepsLevelsExactly(s: Store, e: Event, pk: Pubkey)
    requires WellFormed(s.accounts) && LevelsOrdered(s, pk)
    ensures LevelsOrdered(Step(s, e), pk) <==> KeepsLevels(s, e, pk)
  {
    if pk in s.accounts {
      assert WellFormedVersions(pk, s.accounts[pk]);
      if e.SlotNotice? && e.c.Finalized? { FinalizingKeepsLevelsExactly(pk, s.accounts[pk], e.slot); }
    }
  }

  /** In any run whatever, finalized <= confirmed holds of an account all along if and only if every finalized
      notice meets that condition. */
  lemma LevelsInOrderExactly(es: seq<Event>, pk: Pubkey)
    ensures (forall n | 0 <= n <= |es| :: LevelsOrdered(Run(es[..n]), pk)) <==>
            (forall n | 0 <= n < |es| :: KeepsLevels(Run(es[..n]), es[n], pk))
  {
    var holds := seq(|es| + 1, n requires 0 <= n <= |es| => LevelsOrdered(Run(es[..n]), pk));
    var keeps := seq(|es|, n requires 0 <= n < |es| => KeepsLevels(Run(es[..n]), es[n], pk));
    assert es[..0] == [];
    forall n | 0 <= n < |es| && holds[n] ensures holds[n + 1] <==> keeps[n] {
      assert es[..n + 1][..n] == es[..n];
      RunWellFormed(es[..n]);
      StepKeepsLevelsExactly(Run(es[..n]), es[n], pk);
    }
    HoldsWhileKept(holds, keeps, |es|);
    if forall n | 0 <= n <= |es| :: LevelsOrdered(Run(es[..n]), pk) {
      assert forall n | 0 <= n < |holds| :: holds[n];
      forall n | 0 <= n < |es| ensures KeepsLevels(Run(es[..n]), es[n], pk) { assert keeps[n]; }
    } else {
      var n :| 0 <= n <= |es| && !LevelsOrdered(Run(es[..n]), pk);
      assert !holds[n];
      var k :| 0 <= k < |keeps| && !keeps[k];
      assert !KeepsLevels(Run(es[..k]), es[k], pk);
    }
  }

  /** A finalized notice for a slot that was never confirmed: finalized without being confirmed. */
  lemma UnconfirmedSlotBreaksLevels()
    ensures var d := AccountData(1, 7, 0, 5);
            var v := Run([Update(d, Processed), SlotNotice(5, Finalized)]).accounts;
            1 in v && v[1].finalized == Some(d) && v[1].confirmed == None
  {
    var d := AccountData(1, 7, 0, 5);
    var es := [Update(d, Processed), SlotNotice(5, Finalized)];
    RunOfTwo(es[0], es[1]);
  }

  // ----- Finalizing a slot -----

  /** After a finalized notice an account keeps exactly its versions above the slot,
      or its single newest version when there are none. */
  lemma FinalizingPrunes(s: Store, slot: Slot, pk: Pubkey)
    requires WellFormed(s.accounts) && pk in s.accounts
    ensures var old_, new_ := s.accounts[pk].processed, ApplySlot(s, slot, Finalized).accounts[pk].processed;
            var newest := MaxOf(old_.Keys);
            && (newest > slot ==> forall k :: k in new_ <==> k in old_ && slot < k)
            && (newest <= slot ==> new_.Keys == {newest})
            && (forall k | k in new_ :: new_[k] == old_[k])
  {
    var old_ := s.accounts[pk].processed;
    assert WellFormedVersions(pk, s.accounts[pk]);
    var above := map k | k in old_ && slot < k :: old_[k];
    if MaxOf(old_.Keys) > slot {
      assert MaxOf(old_.Keys) in above;
    } else {
      assert above == map[];
    }
  }

  /** The accounts announced by a slot notice are exactly those whose version at that
      commitment changed, with their new version. */
  lemma AnnouncesExactlyTheChanges(s: Store, slot: Slot, c: Commitment, d: AccountData)
    requires WellFormed(s.accounts) && !c.Processed?
    ensures IsAnnounced(Promotions(s.accounts, slot, c), d) <==>
            Lookup(ApplySlot(s, slot, c), d.pubkey, c) == Some(d) && Lookup(s, d.pubkey, c) != Some(d)
  {
    if d.pubkey in s.accounts {
      assert WellFormedVersions(d.pubkey, s.accounts[d.pubkey]);
    }
  }

  lemma PruningTwice(processed: map<Slot, AccountData>, slot: Slot)
    ensures PrunedThrough(PrunedThrough(processed, slot), slot) == PrunedThrough(processed, slot)
  {
    var once := PrunedThrough(processed, slot);
    if forall k | k in once :: slot < k {
      assert (map k | k in once && slot < k :: once[k]) == once;
    } else {
      var last := MaxOf(processed.Keys);
      assert once == map[last := processed[last]];
      assert (map k | k in once && slot < k :: once[k]) == map[];
      assert MaxOf(once.Keys) == last;
    }
  }

  /** A further notice of the slot would promote and prune nothing. */
  ghost predicate Settled(v: Versions, slot: Slot, c: Commitment) {
    PromotionOf(v, slot, c).None? && Promoted(v, slot, c) == v
  }

  lemma PromotingSettles(pk: Pubkey, v: Versions, slot: Slot, c: Commitment)
    requires WellFormedVersions(pk, v)
    ensures Settled(Promoted(v, slot, c), slot, c)
  {
    PruningTwice(v.processed, slot);
    PrunedKeepsNewest(pk, v, slot);
  }

  lemma SettledAccounts(accounts: map<Pubkey, Versions>, slot: Slot, c: Commitment)
    requires forall pk | pk in accounts :: Settled(accounts[pk], slot, c)
    ensures Promotions(accounts, slot, c) == map[] && PromotedAll(accounts, slot, c) == accounts
  {
  }

  /** Repeating a slot notice announces nothing and changes nothing. */
  lemma RepeatedNoticeIsIdle(s: Store, slot: Slot, c: Commitment)
    requires WellFormed(s.accounts)
    ensures var s' := ApplySlot(s, slot, c);
            ApplySlot(s', slot, c) == s' && Promotions(s'.accounts, slot, c) == map[]
  {
    var s' := ApplySlot(s, slot, c);
    if c.Processed? {
      assert Promotions(s'.accounts, slot, c) == map[];
    } else {
      forall pk | pk in s'.accounts ensures Settled(s'.accounts[pk], slot, c) {
        PromotingSettles(pk, s.accounts[pk], slot, c);
      }
      SettledAccounts(s'.accounts, slot, c);
      NothingToReindex(s'.owners, c);
    }
  }
}
