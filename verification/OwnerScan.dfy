/** When the owner index agrees with a scan of every account, and the exact steps that break it. */
module OwnerScan {
  import opened Prelude
  import opened AccountVersions
  import opened AccountStore
  import opened AccountStoreRuns

  /** The accounts a full scan finds under `owner`, and those found through the index. */
  ghost predicate Scanned(s: Store, d: AccountData, owner: Pubkey, filters: Option<seq<Filter>>, c: Commitment) {
    d.pubkey in s.accounts && Shown(s, d, owner, filters, c)
  }

  ghost predicate Found(s: Store, d: AccountData, owner: Pubkey, filters: Option<seq<Filter>>, c: Commitment) {
    d.pubkey in Indexed(s.owners, owner) && Shown(s, d, owner, filters, c)
  }

  /** The account is indexed under the owner of each version it shows. */
  ghost predicate Covered(s: Store, pk: Pubkey) {
    forall c :: Lookup(s, pk, c).Some? ==> pk in Indexed(s.owners, Lookup(s, pk, c).value.owner)
  }

  /** An account's owner is a function of the slot, and an owner once left is never returned to. */
  ghost predicate NeverReturns(ownerAt: (Pubkey, Slot) -> Pubkey) {
    forall pk, i, j, k | i <= j <= k && ownerAt(pk, i) == ownerAt(pk, k) :: ownerAt(pk, j) == ownerAt(pk, i)
  }

  /** Accounts enter by initialization, are then updated as processed, and only confirmed slots are finalized. */
  ghost predicate Allowed(s: Store, e: Event, ownerAt: (Pubkey, Slot) -> Pubkey) {
    match e
    case Initialize(d) => d.pubkey !in s.accounts && d.owner == ownerAt(d.pubkey, d.slot)
    case Update(d, c) => d.pubkey in s.accounts && c.Processed? && d.owner == ownerAt(d.pubkey, d.slot)
    case SlotNotice(slot, c) => c.Finalized? ==> slot in s.confirmedSlots
  }

  ghost predicate Disciplined(es: seq<Event>, ownerAt: (Pubkey, Slot) -> Pubkey) {
    forall i | 0 <= i < |es| :: Allowed(Run(es[..i]), es[i], ownerAt)
  }

  ghost predicate OwnersAt(pk: Pubkey, v: Versions, ownerAt: (Pubkey, Slot) -> Pubkey) {
    && (forall k | k in v.processed :: v.processed[k].owner == ownerAt(pk, k))
    && (v.confirmed.Some? ==> v.confirmed.value.owner == ownerAt(pk, v.confirmed.value.slot))
    && (v.finalized.Some? ==> v.finalized.value.owner == ownerAt(pk, v.finalized.value.slot))
  }

  /** What disciplined runs keep of each account. */
  ghost predicate Kept(s: Store, pk: Pubkey, ownerAt: (Pubkey, Slot) -> Pubkey) {
    pk in s.accounts ==>
      && var v := s.accounts[pk];
      && v.confirmed.Some? && v.finalized.Some?
      && NewestOnTop(v) && InOrder(v, s.confirmedSlots)
      && OwnersAt(pk, v, ownerAt)
      && Covered(s, pk)
  }

  // ----- Updates -----

  /** An update of another account leaves this one's index entries alone. */
  lemma UpdateOfAnother(s: Store, data: AccountData, c: Commitment, pk: Pubkey)
    requires WellFormed(s.accounts) && pk != data.pubkey && Covered(s, pk)
    ensures Covered(ApplyUpdate(s, data, c), pk)
  {
    LookupKeepsAccount(s);
    forall o ensures pk in Indexed(ApplyUpdate(s, data, c).owners, o) <==> pk in Indexed(s.owners, o) {
      if data.pubkey in s.accounts {
        var prev := Lookup(s, data.pubkey, Effective(s, data, c));
        if prev.Some? && prev.value.owner != data.owner {
          UpdateOwnerAt(s.owners, prev.value, data, Effective(s, data, c), o);
        }
      }
    }
    forall r ensures Lookup(ApplyUpdate(s, data, c), pk, r) == Lookup(s, pk, r) {
    }
  }

  /** What an account shows after an update: the new data, or what it showed before. */
  lemma UpdateShows(v: Versions, pk: Pubkey, data: AccountData, u: Commitment, c: Commitment)
    requires WellFormedVersions(pk, v)
    ensures Read(Updated(v, data, u), c) == Read(v, c) || Read(Updated(v, data, u), c) == Some(data)
    ensures u.Finalized? ==>
              Read(Updated(v, data, u), c) == if OlderThan(Read(v, c), data.slot) then Some(data) else Read(v, c)
  {
    var v' := Updated(v, data, u);
    assert v'.processed.Keys == v.processed.Keys + {data.slot};
    assert MaxOf(v'.processed.Keys) == MaxOf(v.processed.Keys) || MaxOf(v'.processed.Keys) == data.slot;
  }

  /** The account goes on showing a version of the owner after an update of `slot`. */
  ghost predicate KeepsShowing(v: Versions, slot: Slot, owner: Pubkey) {
    exists r :: Read(v, r).Some? && slot <= Read(v, r).value.slot && Read(v, r).value.owner == owner
  }

  /** An update of a known account at an effective commitment `u` keeps it indexed under the owners it shows:
      if it had no version there, only when it is indexed under the new owner already; otherwise unless a
      finalized change of owner takes it from an owner it goes on showing. */
  ghost predicate UpdateStaysIndexed(owners: OwnerIndex, v: Versions, data: AccountData, u: Commitment) {
    if Read(v, u).None? then data.pubkey in Indexed(owners, data.owner)
    else
      var left := Read(v, u).value.owner;
      u.Finalized? && left != data.owner && Updated(v, data, u) != v ==> !KeepsShowing(v, data.slot, left)
  }

  lemma FirstVersionCovers(s: Store, data: AccountData, u: Commitment)
    requires WellFormed(s.accounts) && data.pubkey in s.accounts && Covered(s, data.pubkey)
    requires Read(s.accounts[data.pubkey], u).None?
    ensures Covered(UpdateAs(s, data, u), data.pubkey) <==> data.pubkey in Indexed(s.owners, data.owner)
  {
    var pk := data.pubkey;
    var v, s' := s.accounts[pk], UpdateAs(s, data, u);
    assert WellFormedVersions(pk, v);
    NewestIsLast(pk, v);
    assert Lookup(s', pk, u) == Some(data) && s'.owners == s.owners;
    forall r | Lookup(s', pk, r).Some?
      ensures Lookup(s', pk, r) == Some(data) || pk in Indexed(s'.owners, Lookup(s', pk, r).value.owner)
    {
      UpdateShows(v, pk, data, u, r);
      assert Lookup(s, pk, r) == Read(v, r);
    }
  }

  /** Where an update that changes the account leaves it indexed. */
  lemma NextVersionIndexes(s: Store, data: AccountData, u: Commitment, o: Pubkey)
    requires WellFormed(s.accounts) && data.pubkey in s.accounts && Covered(s, data.pubkey)
    requires Read(s.accounts[data.pubkey], u).Some? && UpdateAs(s, data, u) != s
    ensures var left := Read(s.accounts[data.pubkey], u).value.owner;
            data.pubkey in Indexed(UpdateAs(s, data, u).owners, o) <==>
              || o == data.owner
              || (data.pubkey in Indexed(s.owners, o) && !(u.Finalized? && left != data.owner && o == left))
  {
    var v := s.accounts[data.pubkey];
    assert WellFormedVersions(data.pubkey, v);
    ReadKeepsAccount(data.pubkey, v, u);
    var prev := Read(v, u).value;
    assert Lookup(s, data.pubkey, u) == Some(prev);
    if prev.owner != data.owner { UpdateOwnerAt(s.owners, prev, data, u, o); }
  }

  lemma NextVersionCovers(s: Store, data: AccountData, u: Commitment)
    requires WellFormed(s.accounts) && data.pubkey in s.accounts && Covered(s, data.pubkey)
    requires Read(s.accounts[data.pubkey], u).Some?
    ensures Covered(UpdateAs(s, data, u), data.pubkey) <==>
            UpdateStaysIndexed(s.owners, s.accounts[data.pubkey], data, u)
  {
    var pk := data.pubkey;
    var v, s' := s.accounts[pk], UpdateAs(s, data, u);
    var left := Read(v, u).value.owner;
    assert WellFormedVersions(pk, v);
    NewestIsLast(pk, v);
    if s' != s {
      forall r | Lookup(s', pk, r).Some?
        ensures pk in Indexed(s'.owners, Lookup(s', pk, r).value.owner) <==>
                !(u.Finalized? && left != data.owner && !OlderThan(Read(v, r), data.slot) &&
                  Read(v, r).value.owner == left)
      {
        UpdateShows(v, pk, data, u, r);
        NextVersionIndexes(s, data, u, Lookup(s', pk, r).value.owner);
        assert Lookup(s, pk, r) == Read(v, r);
      }
      forall r | Read(v, r).Some? ensures Lookup(s', pk, r).Some? {
        UpdateShows(v, pk, data, u, r);
      }
    }
  }

  /** An update, at any commitment, leaves an account indexed under every owner it shows exactly as said. */
  lemma UpdateCoversExactly(s: Store, data: AccountData, c: Commitment)
    requires WellFormed(s.accounts) && data.pubkey in s.accounts && Covered(s, data.pubkey)
    ensures Covered(ApplyUpdate(s, data, c), data.pubkey) <==>
            UpdateStaysIndexed(s.owners, s.accounts[data.pubkey], data, Effective(s, data, c))
  {
    var u := Effective(s, data, c);
    if Read(s.accounts[data.pubkey], u).None? {
      FirstVersionCovers(s, data, u);
    } else {
      NextVersionCovers(s, data, u);
    }
  }

  lemma CreationCovers(s: Store, data: AccountData, u: Commitment, s': Store)
    requires data.pubkey !in s.accounts
    requires s' == Store(s.accounts[data.pubkey := Created(data, u)], s.confirmedSlots,
                         AddOwner(s.owners, data.pubkey, data.owner))
    ensures Covered(s', data.pubkey)
  {
    assert (map[data.slot := data]).Keys == {data.slot};
    assert forall c | Lookup(s', data.pubkey, c).Some? :: Lookup(s', data.pubkey, c) == Some(data);
  }

  // ----- Slot notices -----

  /** A notice changes one account's index entries by its own promotion only. */
  lemma NoticeIndexes(s: Store, slot: Slot, c: Commitment, pk: Pubkey, o: Pubkey)
    requires pk in s.accounts && !c.Processed?
    ensures var p := PromotionOf(s.accounts[pk], slot, c);
            pk in Indexed(ApplySlot(s, slot, c).owners, o) <==>
              || (p.Some? && ChangesOwner(p.value) && p.value.0.owner == o)
              || (pk in Indexed(s.owners, o) &&
                  !(c.Finalized? && p.Some? && ChangesOwner(p.value) && p.value.1.value.owner == o))
  {
    ReindexedAt(s.owners, Promotions(s.accounts, slot, c), c, o);
  }

  lemma NoticeShows(pk: Pubkey, v: Versions, slot: Slot, c: Commitment, r: Commitment)
    requires WellFormedVersions(pk, v)
    ensures Read(Promoted(v, slot, c), r) ==
            if r == c && PromotionOf(v, slot, c).Some? then Some(v.processed[slot]) else Read(v, r)
  {
    PrunedKeepsNewest(pk, v, slot);
  }

  /** A slot notice keeps an account indexed under the owners it shows: when it promotes nothing; when it
      promotes the first version at its commitment, only if the account is indexed under that owner already;
      otherwise unless a finalized change of owner takes it from an owner it goes on showing. */
  ghost predicate NoticeStaysIndexed(owners: OwnerIndex, v: Versions, slot: Slot, c: Commitment) {
    var p := PromotionOf(v, slot, c);
    p.Some? ==>
      if p.value.1.None? then v.pubkey in Indexed(owners, p.value.0.owner)
      else
        var left := p.value.1.value.owner;
        c.Finalized? && left != p.value.0.owner ==>
          forall r: Commitment | !r.Finalized? && Read(v, r).Some? :: Read(v, r).value.owner != left
  }

  /** A confirmed or finalized notice leaves an account indexed under every owner it shows exactly as said. */
  lemma NoticeCoversExactly(s: Store, slot: Slot, c: Commitment, pk: Pubkey)
    requires WellFormed(s.accounts) && pk in s.accounts && Covered(s, pk) && !c.Processed?
    ensures Covered(ApplySlot(s, slot, c), pk) <==> NoticeStaysIndexed(s.owners, s.accounts[pk], slot, c)
  {
    var v, s' := s.accounts[pk], ApplySlot(s, slot, c);
    var p := PromotionOf(v, slot, c);
    assert WellFormedVersions(pk, v);
    forall r | Lookup(s', pk, r).Some?
      ensures pk in Indexed(s'.owners, Lookup(s', pk, r).value.owner) <==>
              p.None? ||
              if p.value.1.None? then r != c || pk in Indexed(s.owners, p.value.0.owner)
              else !(c.Finalized? && ChangesOwner(p.value) && !r.Finalized? &&
                     Read(v, r).value.owner == p.value.1.value.owner)
    {
      NoticeShows(pk, v, slot, c, r);
      NoticeIndexes(s, slot, c, pk, Lookup(s', pk, r).value.owner);
      assert Lookup(s, pk, r) == Read(v, r) && Lookup(s, pk, c) == Read(v, c);
    }
    forall r ensures Lookup(s', pk, r) == if r == c && p.Some? then Some(v.processed[slot]) else Read(v, r) {
      NoticeShows(pk, v, slot, c, r);
    }
  }

  // ----- Every run -----

  /** The event keeps the account indexed under the owners it shows. */
  ghost predicate StaysIndexed(s: Store, e: Event, pk: Pubkey) {
    pk in s.accounts ==>
      match e
      case Update(d, c) => d.pubkey == pk ==> UpdateStaysIndexed(s.owners, s.accounts[pk], d, Effective(s, d, c))
      case Initialize(d) => d.pubkey == pk ==> UpdateStaysIndexed(s.owners, s.accounts[pk], d, Finalized)
      case SlotNotice(slot, c) => c.Processed? || NoticeStaysIndexed(s.owners, s.accounts[pk], slot, c)
  }

  lemma NewcomerCovers(s: Store, e: Event, pk: Pubkey)
    requires WellFormed(s.accounts) && pk !in s.accounts
    ensures Covered(Step(s, e), pk)
  {
    if e.Update? && e.data.pubkey == pk {
      CreationCovers(s, e.data, Effective(s, e.data, e.c), Step(s, e));
    } else if e.Initialize? && e.data.pubkey == pk {
      CreationCovers(s, e.data, Finalized, Step(s, e));
    } else {
      assert pk !in Step(s, e).accounts;
    }
  }

  lemma InitializeOfAnother(s: Store, data: AccountData, pk: Pubkey)
    requires WellFormed(s.accounts) && pk != data.pubkey && Covered(s, pk)
    ensures Covered(ApplyInitialize(s, data), pk)
  {
    if data.pubkey in s.accounts {
      UpdateOfAnother(s, data, Finalized, pk);
    } else {
      assert forall c :: Lookup(ApplyInitialize(s, data), pk, c) == Lookup(s, pk, c);
    }
  }

  lemma StepCoversExactly(s: Store, e: Event, pk: Pubkey)
    requires WellFormed(s.accounts) && Covered(s, pk)
    ensures Covered(Step(s, e), pk) <==> StaysIndexed(s, e, pk)
  {
    if pk !in s.accounts {
      NewcomerCovers(s, e, pk);
    } else {
      match e
      case Update(d, c) =>
        if d.pubkey == pk { UpdateCoversExactly(s, d, c); } else { UpdateOfAnother(s, d, c, pk); }
      case Initialize(d) =>
        if d.pubkey == pk { UpdateCoversExactly(s, d, Finalized); } else { InitializeOfAnother(s, d, pk); }
      case SlotNotice(slot, c) =>
        if !c.Processed? { NoticeCoversExactly(s, slot, c, pk); }
    }
  }

  /** What the index finds of an account is what a scan would show of it. */
  ghost predicate Agrees(s: Store, pk: Pubkey) {
    forall d: AccountData, owner, filters, c | d.pubkey == pk ::
      Found(s, d, owner, filters, c) <==> Scanned(s, d, owner, filters, c)
  }

  lemma AgreesExactly(s: Store, pk: Pubkey)
    requires WellFormed(s.accounts)
    ensures Agrees(s, pk) <==> Covered(s, pk)
  {
    LookupKeepsAccount(s);
    if Agrees(s, pk) {
      forall c | Lookup(s, pk, c).Some? ensures pk in Indexed(s.owners, Lookup(s, pk, c).value.owner) {
        var d := Lookup(s, pk, c).value;
        assert Scanned(s, d, d.owner, None, c);
      }
    }
  }

  lemma AgreesStep(s: Store, e: Event, pk: Pubkey)
    requires WellFormed(s.accounts) && Agrees(s, pk)
    ensures Agrees(Step(s, e), pk) <==> StaysIndexed(s, e, pk)
  {
    AgreesExactly(s, pk);
    StepCoversExactly(s, e, pk);
    StepKeepsWellFormed(s, e);
    AgreesExactly(Step(s, e), pk);
  }

  lemma AgreesAfterPrefix(es: seq<Event>, m: nat, pk: Pubkey)
    requires m < |es| && Agrees(Run(es[..m]), pk)
    ensures Agrees(Run(es[..m + 1]), pk) <==> StaysIndexed(Run(es[..m]), es[m], pk)
  {
    assert es[..m + 1][..m] == es[..m];
    RunWellFormed(es[..m]);
    AgreesStep(Run(es[..m]), es[m], pk);
  }

  /** In any run whatever, the index agrees with a scan on an account all along if and only if every event
      keeps the account indexed under the owners it shows. */
  lemma IndexEqualsScanExactly(es: seq<Event>, pk: Pubkey)
    ensures (forall n | 0 <= n <= |es| :: Agrees(Run(es[..n]), pk)) <==>
            (forall n | 0 <= n < |es| :: StaysIndexed(Run(es[..n]), es[n], pk))
  {
    var holds := seq(|es| + 1, n requires 0 <= n <= |es| => Agrees(Run(es[..n]), pk));
    var keeps := seq(|es|, n requires 0 <= n < |es| => StaysIndexed(Run(es[..n]), es[n], pk));
    assert es[..0] == [];
    AgreesExactly(EMPTY, pk);
    forall n | 0 <= n < |es| && holds[n] ensures holds[n + 1] <==> keeps[n] {
      AgreesAfterPrefix(es, n, pk);
    }
    HoldsWhileKept(holds, keeps, |es|);
    if forall n | 0 <= n <= |es| :: Agrees(Run(es[..n]), pk) {
      assert forall n | 0 <= n < |holds| :: holds[n];
      forall n | 0 <= n < |es| ensures StaysIndexed(Run(es[..n]), es[n], pk) { assert keeps[n]; }
    } else {
      var n :| 0 <= n <= |es| && !Agrees(Run(es[..n]), pk);
      assert !holds[n];
      var k :| 0 <= k < |keeps| && !keeps[k];
      assert !StaysIndexed(Run(es[..k]), es[k], pk);
    }
  }

  // ----- Runs in which the index fails -----

  /** A finalized update that comes late un-indexes an account under the one owner it shows. */
  lemma LateFinalizedUpdateUnindexes(a: AccountData, b: AccountData)
    requires a.pubkey == b.pubkey && a.owner != b.owner && b.slot < a.slot
    ensures var s := Run([Initialize(a), Initialize(b)]);
            && (forall c :: Lookup(s, a.pubkey, c) == Some(a))
            && a.pubkey !in Indexed(s.owners, a.owner) && a.pubkey in Indexed(s.owners, b.owner)
  {
    RunOfTwo(Initialize(a), Initialize(b));
    var v := Created(a, Finalized);
    assert v.processed.Keys == {a.slot} && Updated(v, b, Finalized).processed.Keys == {a.slot, b.slot};
    assert b.slot in Updated(v, b, Finalized).processed;
  }

  /** The account after it moved to another owner and back, the move confirmed. */
  lemma MovedAndBack(a: AccountData, b: AccountData, back: AccountData)
    requires a.pubkey == b.pubkey == back.pubkey && a.slot < b.slot < back.slot
    ensures var s := Run([Initialize(a), Update(b, Processed), Update(back, Processed), SlotNotice(b.slot, Confirmed)]);
            && a.pubkey in s.accounts
            && s.accounts[a.pubkey] ==
               Versions(a.pubkey, map[a.slot := a, b.slot := b, back.slot := back], Some(b), Some(a))
  {
    RunOfFour(Initialize(a), Update(b, Processed), Update(back, Processed), SlotNotice(b.slot, Confirmed));
    var s := Step(Step(Step(EMPTY, Initialize(a)), Update(b, Processed)), Update(back, Processed));
    var v := Versions(a.pubkey, map[a.slot := a, b.slot := b, back.slot := back], Some(a), Some(a));
    assert a.pubkey in s.accounts && s.accounts[a.pubkey] == v;
    assert PromotionOf(v, b.slot, Confirmed) == Some((b, Some(a)));
  }

  /** An account that goes from one owner to another and back is un-indexed under the owner it shows
      once the first change is finalized. */
  lemma ReturningOwnerUnindexed(a: AccountData, b: AccountData, back: AccountData)
    requires a.pubkey == b.pubkey == back.pubkey && a.owner == back.owner != b.owner && a.slot < b.slot < back.slot
    ensures var s := Run([Initialize(a), Update(b, Processed), Update(back, Processed),
                          SlotNotice(b.slot, Confirmed), SlotNotice(b.slot, Finalized)]);
            Lookup(s, a.pubkey, Processed) == Some(back) && a.pubkey !in Indexed(s.owners, back.owner)
  {
    var es := [Initialize(a), Update(b, Processed), Update(back, Processed), SlotNotice(b.slot, Confirmed)];
    MovedAndBack(a, b, back);
    RunWellFormed(es);
    UnindexedByFinalizing(Run(es), a, b, back);
    var all := [Initialize(a), Update(b, Processed), Update(back, Processed),
                SlotNotice(b.slot, Confirmed), SlotNotice(b.slot, Finalized)];
    assert all[..4] == es;
    assert Run(all) == Step(Run(es), SlotNotice(b.slot, Finalized));
  }

  lemma UnindexedByFinalizing(s: Store, a: AccountData, b: AccountData, back: AccountData)
    requires WellFormed(s.accounts) && a.pubkey in s.accounts
    requires a.owner == back.owner != b.owner && a.slot < b.slot < back.slot
    requires s.accounts[a.pubkey] ==
             Versions(a.pubkey, map[a.slot := a, b.slot := b, back.slot := back], Some(b), Some(a))
    ensures var s' := ApplySlot(s, b.slot, Finalized);
            Lookup(s', a.pubkey, Processed) == Some(back) && a.pubkey !in Indexed(s'.owners, back.owner)
  {
    var v := s.accounts[a.pubkey];
    assert v.processed.Keys == {a.slot, b.slot, back.slot} && MaxOf(v.processed.Keys) == back.slot;
    NoticeShows(a.pubkey, v, b.slot, Finalized, Processed);
    NoticeIndexes(s, b.slot, Finalized, a.pubkey, a.owner);
  }

  // ----- Disciplined runs -----

  /** With owners never returned to, nothing the account still shows has the owner it left. */
  lemma NothingShownOfLeftOwner(pk: Pubkey, v: Versions, slot: Slot, ownerAt: (Pubkey, Slot) -> Pubkey, r: Commitment)
    requires WellFormedVersions(pk, v) && NeverReturns(ownerAt) && OwnersAt(pk, v, ownerAt)
    requires v.finalized.Some? && v.confirmed.Some? && NewestOnTop(v) && slot <= v.confirmed.value.slot
    requires PromotionOf(v, slot, Finalized).Some? && ChangesOwner(PromotionOf(v, slot, Finalized).value)
    requires !r.Finalized? && Read(v, r).Some?
    ensures Read(v, r).value.owner != v.finalized.value.owner
  {
    NewestIsLast(pk, v);
    var left, shown := v.finalized.value, Read(v, r).value;
    assert left.slot < slot <= shown.slot;
    assert ownerAt(pk, left.slot) != ownerAt(pk, slot);
  }

  lemma FinalizingCovers(s: Store, slot: Slot, pk: Pubkey, ownerAt: (Pubkey, Slot) -> Pubkey)
    requires WellFormed(s.accounts) && pk in s.accounts && NeverReturns(ownerAt)
    requires Kept(s, pk, ownerAt) && slot in s.confirmedSlots
    ensures Covered(ApplySlot(s, slot, Finalized), pk)
  {
    var v := s.accounts[pk];
    assert WellFormedVersions(pk, v);
    NoticeCoversExactly(s, slot, Finalized, pk);
    var p := PromotionOf(v, slot, Finalized);
    if p.Some? && ChangesOwner(p.value) {
      forall r: Commitment | !r.Finalized? && Read(v, r).Some?
        ensures Read(v, r).value.owner != v.finalized.value.owner
      {
        NothingShownOfLeftOwner(pk, v, slot, ownerAt, r);
      }
    }
  }

  lemma KeptByUpdate(s: Store, data: AccountData, pk: Pubkey, ownerAt: (Pubkey, Slot) -> Pubkey)
    requires WellFormed(s.accounts) && data.pubkey in s.accounts && data.owner == ownerAt(data.pubkey, data.slot)
    requires pk in s.accounts && Kept(s, pk, ownerAt)
    ensures Kept(ApplyUpdate(s, data, Processed), pk, ownerAt)
  {
    if pk == data.pubkey {
      var v, v' := s.accounts[pk], Updated(s.accounts[pk], data, Effective(s, data, Processed));
      assert WellFormedVersions(pk, v);
      UpdateKeepsWellFormed(s, data, Processed);
      assert ApplyUpdate(s, data, Processed).accounts[pk] == v';
      VersionsStepKeepsNewestOnTop(pk, v, v');
      UpdateKeepsOrder(s, data, Processed);
      UpdateCoversExactly(s, data, Processed);
    } else {
      UpdateOfAnother(s, data, Processed, pk);
    }
  }

  lemma PromotedOwnersAt(pk: Pubkey, v: Versions, slot: Slot, c: Commitment, ownerAt: (Pubkey, Slot) -> Pubkey)
    requires WellFormedVersions(pk, v) && OwnersAt(pk, v, ownerAt)
    ensures OwnersAt(pk, Promoted(v, slot, c), ownerAt)
  {
    PrunedKeepsNewest(pk, v, slot);
  }

  lemma KeptByNotice(s: Store, slot: Slot, c: Commitment, pk: Pubkey, ownerAt: (Pubkey, Slot) -> Pubkey)
    requires WellFormed(s.accounts) && pk in s.accounts && NeverReturns(ownerAt)
    requires Kept(s, pk, ownerAt) && (c.Finalized? ==> slot in s.confirmedSlots)
    ensures Kept(ApplySlot(s, slot, c), pk, ownerAt)
  {
    if !c.Processed? {
      var v, v' := s.accounts[pk], Promoted(s.accounts[pk], slot, c);
      assert WellFormedVersions(pk, v);
      PromotedWellFormed(pk, v, slot, c);
      PromotedOwnersAt(pk, v, slot, c, ownerAt);
      VersionsStepKeepsNewestOnTop(pk, v, v');
      SlotKeepsOrder(pk, v, s.confirmedSlots, slot, c);
      if c.Confirmed? {
        NoticeCoversExactly(s, slot, Confirmed, pk);
      } else {
        FinalizingCovers(s, slot, pk, ownerAt);
      }
    }
  }

  lemma KeptByInitialize(s: Store, data: AccountData, pk: Pubkey, ownerAt: (Pubkey, Slot) -> Pubkey)
    requires data.pubkey !in s.accounts && data.owner == ownerAt(data.pubkey, data.slot)
    requires Kept(s, pk, ownerAt)
    ensures Kept(ApplyInitialize(s, data), pk, ownerAt)
  {
    var s' := ApplyInitialize(s, data);
    if pk == data.pubkey {
      assert (map[data.slot := data]).Keys == {data.slot};
      assert forall c :: Lookup(s', pk, c) == Some(data);
    } else {
      assert forall c :: Lookup(s', pk, c) == Lookup(s, pk, c);
    }
  }

  lemma {:induction false} DisciplinedRunKeeps(es: seq<Event>, pk: Pubkey, ownerAt: (Pubkey, Slot) -> Pubkey)
    requires NeverReturns(ownerAt) && Disciplined(es, ownerAt)
    ensures Kept(Run(es), pk, ownerAt)
    decreases |es|
  {
    if es != [] {
      var m := |es| - 1;
      var s, e := Run(es[..m]), es[m];
      assert Disciplined(es[..m], ownerAt) by {
        assert forall i | 0 <= i < m :: es[..m][..i] == es[..i];
      }
      DisciplinedRunKeeps(es[..m], pk, ownerAt);
      RunWellFormed(es[..m]);
      assert Allowed(s, e, ownerAt);
      match e
      case Initialize(d) => KeptByInitialize(s, d, pk, ownerAt);
      case Update(d, c) => if pk in s.accounts { KeptByUpdate(s, d, pk, ownerAt); }
      case SlotNotice(slot, c) => if pk in s.accounts { KeptByNotice(s, slot, c, pk, ownerAt); }
    }
  }

  /** After every disciplined run, `GetProgramAccounts` finds exactly what a scan of all accounts shows. */
  lemma IndexEqualsScan(es: seq<Event>, ownerAt: (Pubkey, Slot) -> Pubkey,
                        d: AccountData, owner: Pubkey, filters: Option<seq<Filter>>, c: Commitment)
    requires NeverReturns(ownerAt) && Disciplined(es, ownerAt)
    ensures Found(Run(es), d, owner, filters, c) <==> Scanned(Run(es), d, owner, filters, c)
  {
    DisciplinedRunKeeps(es, d.pubkey, ownerAt);
    RunWellFormed(es);
    AgreesExactly(Run(es), d.pubkey);
  }
}
