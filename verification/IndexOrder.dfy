/** The owner index under processed updates and confirmed notices: when it does not depend on their order. */
module IndexOrder {
  import opened Prelude
  import opened AccountVersions
  import opened AccountStore
  import opened AccountStoreRuns
  import opened OrderIndependence
  import opened OwnerScan

  // ----- An order that matters -----

  function StoreOf(a: AccountData): Store {
    Store(map[a.pubkey := Versions(a.pubkey, map[a.slot := a], None, None)], {}, map[a.owner := {a.pubkey}])
  }

  lemma FirstUpdate(a: AccountData)
    ensures Step(EMPTY, Update(a, Processed)) == StoreOf(a)
  {
    assert {} + {a.pubkey} == {a.pubkey};
  }

  lemma NoticeOfLaterSlot(a: AccountData, slot: Slot)
    requires a.slot < slot
    ensures Step(StoreOf(a), SlotNotice(slot, Confirmed)) == StoreOf(a).(confirmedSlots := {slot})
  {
    var one := StoreOf(a);
    var v := one.accounts[a.pubkey];
    assert PromotionOf(v, slot, Confirmed) == None && Promoted(v, slot, Confirmed) == v;
    assert Promotions(one.accounts, slot, Confirmed) == map[];
    NothingToReindex(one.owners, Confirmed);
  }

  /** An update of a slot confirmed before, of an account without a confirmed version, is not indexed under
      its new owner. */
  lemma LateUpdateNotIndexed(a: AccountData, b: AccountData)
    requires a.pubkey == b.pubkey && a.owner != b.owner && a.slot < b.slot
    ensures var late := Run([Update(a, Processed), SlotNotice(b.slot, Confirmed), Update(b, Processed)]);
            Lookup(late, b.pubkey, Confirmed) == Some(b) && b.owner !in late.owners
  {
    RunOfThree(Update(a, Processed), SlotNotice(b.slot, Confirmed), Update(b, Processed));
    FirstUpdate(a);
    NoticeOfLaterSlot(a, b.slot);
  }

  /** In the other order it is. */
  lemma TimelyUpdateIndexed(a: AccountData, b: AccountData)
    requires a.pubkey == b.pubkey && a.owner != b.owner && a.slot < b.slot
    ensures b.owner in Run([Update(a, Processed), Update(b, Processed), SlotNotice(b.slot, Confirmed)]).owners
  {
    RunOfThree(Update(a, Processed), Update(b, Processed), SlotNotice(b.slot, Confirmed));
    FirstUpdate(a);
    var v := StoreOf(a).accounts[a.pubkey];
    assert v.processed.Keys == {a.slot};
    assert Read(v, Processed) == Some(a);
    assert b.slot in Updated(v, b, Processed).processed;
    assert b.owner in Step(StoreOf(a), Update(b, Processed)).owners;
  }

  // ----- What one event adds to the index -----

  ghost predicate UpdateAdds(s: Store, d: AccountData) {
    d.pubkey in s.accounts ==>
      && var v, u := s.accounts[d.pubkey], Effective(s, d, Processed);
      && Updated(v, d, u) != v && Read(v, u).Some? && Read(v, u).value.owner != d.owner
  }

  ghost predicate Adds(s: Store, e: Event, pk: Pubkey, o: Pubkey) {
    match e
    case Update(d, c) => d.pubkey == pk && d.owner == o && UpdateAdds(s, d)
    case SlotNotice(slot, c) =>
      pk in s.accounts &&
      var p := PromotionOf(s.accounts[pk], slot, Confirmed);
      p.Some? && ChangesOwner(p.value) && p.value.0.owner == o
    case Initialize(d) => false
  }

  /** Plain events take nothing out of the index. */
  lemma StepAdds(s: Store, e: Event, pk: Pubkey, o: Pubkey)
    requires WellFormed(s.accounts) && IsPlain(e)
    ensures pk in Indexed(Step(s, e).owners, o) <==> pk in Indexed(s.owners, o) || Adds(s, e, pk, o)
  {
    match e
    case Update(d, c) =>
      var u := Effective(s, d, Processed);
      if d.pubkey in s.accounts && UpdateAdds(s, d) {
        UpdateOwnerAt(s.owners, Read(s.accounts[d.pubkey], u).value, d, u, o);
      }
    case SlotNotice(slot, c) =>
      ReindexedAt(s.owners, Promotions(s.accounts, slot, Confirmed), Confirmed, o);
  }

  lemma IndexGrows(s: Store, es: seq<Event>, pk: Pubkey, o: Pubkey)
    requires Plain(es) && WellFormed(s.accounts) && pk in Indexed(s.owners, o)
    ensures pk in Indexed(RunFrom(s, es).owners, o)
  {
    var kept := (t: Store) => WellFormed(t.accounts) && pk in Indexed(t.owners, o);
    forall t: Store, e: Event | kept(t) && e in es ensures kept(Step(t, e)) {
      StepKeepsWellFormed(t, e);
      StepAdds(t, e, pk, o);
    }
    KeptThrough(s, es, kept);
  }

  // ----- Owners that are indexed whatever the order -----

  /** Wherever an account has owners apart and a version of one of them is confirmed, it is older than those of
      the others, and its owner has a version that is not confirmed. */
  ghost predicate NeverHidden(updates: set<AccountData>, confirmed: set<Slot>) {
    forall d, e | d in updates && e in updates && d.pubkey == e.pubkey && d.owner != e.owner && d.slot in confirmed ::
      d.slot < e.slot && HasUnconfirmed(updates, confirmed, d.pubkey, d.owner)
  }

  ghost predicate HasUnconfirmed(updates: set<AccountData>, confirmed: set<Slot>, pk: Pubkey, owner: Pubkey) {
    exists x :: x in updates && x.pubkey == pk && x.owner == owner && x.slot !in confirmed
  }

  /** The account is indexed under the owner of each version that is never confirmed, and under its owner while
      it has had only one. `confirmed` are the slots confirmed in the whole run. */
  ghost predicate IndexedSoFar(owners: OwnerIndex, pk: Pubkey, v: Versions, confirmed: set<Slot>) {
    && (forall k | k in v.processed && k !in confirmed :: pk in Indexed(owners, v.processed[k].owner))
    && (forall o | (forall k | k in v.processed :: v.processed[k].owner == o) :: pk in Indexed(owners, o))
  }

  /** The confirmed slots so far, and the versions so far, are among those of the whole run. */
  ghost predicate PartOf(s: Store, updates: set<AccountData>, confirmed: set<Slot>) {
    && s.confirmedSlots <= confirmed
    && forall pk, k | pk in s.accounts && k in s.accounts[pk].processed :: s.accounts[pk].processed[k] in updates
  }

  lemma StepPartOf(s: Store, e: Event, updates: set<AccountData>, confirmed: set<Slot>)
    requires WellFormed(s.accounts) && IsPlain(e) && PartOf(s, updates, confirmed)
    requires (e.Update? ==> e.data in updates) && (e.SlotNotice? ==> e.slot in confirmed)
    ensures PartOf(Step(s, e), updates, confirmed)
  {
  }

  /** A new version that is never confirmed is compared with the newest one; if both have the same owner, the
      account is indexed there already. */
  lemma UnconfirmedIsIndexed(s: Store, d: AccountData, updates: set<AccountData>, confirmed: set<Slot>)
    requires WellFormed(s.accounts) && PartOf(s, updates, confirmed) && NeverHidden(updates, confirmed)
    requires d.pubkey in s.accounts && d.slot !in confirmed && d.slot !in s.accounts[d.pubkey].processed
    requires IndexedSoFar(s.owners, d.pubkey, s.accounts[d.pubkey], confirmed)
    ensures d.pubkey in Indexed(ApplyUpdate(s, d, Processed).owners, d.owner)
  {
    var pk := d.pubkey;
    var v := s.accounts[pk];
    assert WellFormedVersions(pk, v);
    NewestIsLast(pk, v);
    var newest := Read(v, Processed).value;
    StepAdds(s, Update(d, Processed), pk, d.owner);
    assert d.slot in Updated(v, d, Processed).processed;
    if newest.owner == d.owner && newest.slot in confirmed {
      forall k | k in v.processed ensures v.processed[k].owner == d.owner {
        assert newest in updates && v.processed[k] in updates;
        assert k <= newest.slot;
      }
    }
  }

  /** More versions and more index entries, with each new version that is never confirmed indexed. */
  lemma StillIndexed(owners: OwnerIndex, owners': OwnerIndex, pk: Pubkey, v: Versions, v': Versions,
                     confirmed: set<Slot>)
    requires IndexedSoFar(owners, pk, v, confirmed)
    requires forall o | pk in Indexed(owners, o) :: pk in Indexed(owners', o)
    requires forall k | k in v.processed :: k in v'.processed && v'.processed[k] == v.processed[k]
    requires forall k | k in v'.processed && k !in v.processed && k !in confirmed ::
               pk in Indexed(owners', v'.processed[k].owner)
    ensures IndexedSoFar(owners', pk, v', confirmed)
  {
    forall o | forall k | k in v'.processed :: v'.processed[k].owner == o ensures pk in Indexed(owners', o) {
      assert forall k | k in v.processed :: v.processed[k].owner == o;
    }
  }

  lemma PlainUpdateGrows(s: Store, d: AccountData, pk: Pubkey)
    requires WellFormed(s.accounts)
    ensures forall o | pk in Indexed(s.owners, o) :: pk in Indexed(ApplyUpdate(s, d, Processed).owners, o)
  {
    forall o | pk in Indexed(s.owners, o) ensures pk in Indexed(ApplyUpdate(s, d, Processed).owners, o) {
      StepAdds(s, Update(d, Processed), pk, o);
    }
  }

  lemma NoticeGrows(s: Store, slot: Slot, pk: Pubkey)
    requires WellFormed(s.accounts)
    ensures forall o | pk in Indexed(s.owners, o) :: pk in Indexed(ApplySlot(s, slot, Confirmed).owners, o)
  {
    forall o | pk in Indexed(s.owners, o) ensures pk in Indexed(ApplySlot(s, slot, Confirmed).owners, o) {
      StepAdds(s, SlotNotice(slot, Confirmed), pk, o);
    }
  }

  lemma NextIsIndexed(s: Store, d: AccountData, updates: set<AccountData>, confirmed: set<Slot>)
    requires WellFormed(s.accounts) && PartOf(s, updates, confirmed) && NeverHidden(updates, confirmed)
    requires d.pubkey in s.accounts
    requires IndexedSoFar(s.owners, d.pubkey, s.accounts[d.pubkey], confirmed)
    ensures var s' := ApplyUpdate(s, d, Processed);
            IndexedSoFar(s'.owners, d.pubkey, s'.accounts[d.pubkey], confirmed)
  {
    var pk := d.pubkey;
    var s' := ApplyUpdate(s, d, Processed);
    var v, v' := s.accounts[pk], s'.accounts[pk];
    assert v'.processed == if d.slot in v.processed then v.processed else v.processed[d.slot := d];
    PlainUpdateGrows(s, d, pk);
    if d.slot !in confirmed && d.slot !in v.processed {
      UnconfirmedIsIndexed(s, d, updates, confirmed);
    }
    StillIndexed(s.owners, s'.owners, pk, v, v', confirmed);
  }

  lemma FirstIsIndexed(s: Store, d: AccountData, confirmed: set<Slot>)
    requires d.pubkey !in s.accounts
    ensures var s' := ApplyUpdate(s, d, Processed);
            IndexedSoFar(s'.owners, d.pubkey, s'.accounts[d.pubkey], confirmed)
  {
    var v' := ApplyUpdate(s, d, Processed).accounts[d.pubkey];
    assert v'.processed == map[d.slot := d];
    assert d.slot in v'.processed;
  }

  /** Every account is indexed as `IndexedSoFar` says. */
  ghost predicate AllIndexedSoFar(s: Store, confirmed: set<Slot>) {
    forall pk | pk in s.accounts :: IndexedSoFar(s.owners, pk, s.accounts[pk], confirmed)
  }

  lemma UpdateAllIndexed(s: Store, d: AccountData, updates: set<AccountData>, confirmed: set<Slot>)
    requires WellFormed(s.accounts) && PartOf(s, updates, confirmed) && NeverHidden(updates, confirmed)
    requires AllIndexedSoFar(s, confirmed)
    ensures AllIndexedSoFar(ApplyUpdate(s, d, Processed), confirmed)
  {
    var s' := ApplyUpdate(s, d, Processed);
    forall pk | pk in s'.accounts ensures IndexedSoFar(s'.owners, pk, s'.accounts[pk], confirmed) {
      if pk != d.pubkey {
        PlainUpdateGrows(s, d, pk);
        StillIndexed(s.owners, s'.owners, pk, s.accounts[pk], s'.accounts[pk], confirmed);
      } else if pk in s.accounts {
        NextIsIndexed(s, d, updates, confirmed);
      } else {
        FirstIsIndexed(s, d, confirmed);
      }
    }
  }

  lemma NoticeAllIndexed(s: Store, slot: Slot, confirmed: set<Slot>)
    requires WellFormed(s.accounts) && AllIndexedSoFar(s, confirmed)
    ensures AllIndexedSoFar(ApplySlot(s, slot, Confirmed), confirmed)
  {
    var s' := ApplySlot(s, slot, Confirmed);
    forall pk | pk in s'.accounts ensures IndexedSoFar(s'.owners, pk, s'.accounts[pk], confirmed) {
      NoticeGrows(s, slot, pk);
      StillIndexed(s.owners, s'.owners, pk, s.accounts[pk], s'.accounts[pk], confirmed);
    }
  }
  /** Whoever is indexed under an owner has a version with it, and no owner is without accounts. */
  ghost predicate OwnersSeen(s: Store, updates: set<AccountData>) {
    && (forall o | o in s.owners :: s.owners[o] != {})
    && forall pk, o | pk in Indexed(s.owners, o) :: HasOwner(updates, pk, o)
  }

  ghost predicate HasOwner(updates: set<AccountData>, pk: Pubkey, o: Pubkey) {
    exists d :: d in updates && d.pubkey == pk && d.owner == o
  }

  lemma NoOwnerEmpty(s: Store, e: Event)
    requires IsPlain(e) && forall o | o in s.owners :: s.owners[o] != {}
    ensures forall o | o in Step(s, e).owners :: Step(s, e).owners[o] != {}
  {
    if e.SlotNotice? {
      var ps := Promotions(s.accounts, e.slot, Confirmed);
      var owners := Reindexed(s.owners, ps, Confirmed);
      forall o | o in owners ensures owners[o] != {} {
        if o !in s.owners {
          var pk :| pk in ps && ChangesOwner(ps[pk]) && ps[pk].0.owner == o;
          assert pk in Gainers(ps, o);
        } else {
          assert s.owners[o] <= owners[o];
        }
      }
    }
  }

  lemma StepOwnersSeen(s: Store, e: Event, updates: set<AccountData>, confirmed: set<Slot>)
    requires WellFormed(s.accounts) && IsPlain(e) && PartOf(s, updates, confirmed) && OwnersSeen(s, updates)
    requires e.Update? ==> e.data in updates
    ensures OwnersSeen(Step(s, e), updates)
  {
    NoOwnerEmpty(s, e);
    forall pk, o | pk in Indexed(Step(s, e).owners, o) ensures HasOwner(updates, pk, o) {
      StepAdds(s, e, pk, o);
      if pk !in Indexed(s.owners, o) && e.SlotNotice? {
        assert WellFormedVersions(pk, s.accounts[pk]);
        assert s.accounts[pk].processed[e.slot] in updates;
      }
    }
  }

  /** What every prefix of a run keeps, when no owner is ever hidden. */
  ghost predicate IndexKept(s: Store, updates: set<AccountData>, confirmed: set<Slot>) {
    WellFormed(s.accounts) && PartOf(s, updates, confirmed) && OwnersSeen(s, updates) && AllIndexedSoFar(s, confirmed)
  }

  lemma StepIndexKept(s: Store, e: Event, updates: set<AccountData>, confirmed: set<Slot>)
    requires IndexKept(s, updates, confirmed) && NeverHidden(updates, confirmed) && IsPlain(e)
    requires (e.Update? ==> e.data in updates) && (e.SlotNotice? ==> e.slot in confirmed)
    ensures IndexKept(Step(s, e), updates, confirmed)
  {
    StepKeepsWellFormed(s, e);
    StepPartOf(s, e, updates, confirmed);
    StepOwnersSeen(s, e, updates, confirmed);
    if e.Update? {
      UpdateAllIndexed(s, e.data, updates, confirmed);
    } else {
      NoticeAllIndexed(s, e.slot, confirmed);
    }
  }

  lemma RunIndexKept(es: seq<Event>)
    requires Plain(es) && NeverHidden(UpdatesOf(es), ConfirmedOf(es))
    ensures IndexKept(Run(es), UpdatesOf(es), ConfirmedOf(es))
  {
    var updates, confirmed := UpdatesOf(es), ConfirmedOf(es);
    var kept := (t: Store) => IndexKept(t, updates, confirmed);
    forall t: Store, e: Event | kept(t) && e in es ensures kept(Step(t, e)) {
      StepIndexKept(t, e, updates, confirmed);
    }
    KeptThrough(EMPTY, es, kept);
    RunConcat([], es);
    assert [] + es == es;
  }

  /** The accounts indexed under an owner are those with a version of it. */
  lemma IndexedExactly(es: seq<Event>, pk: Pubkey, o: Pubkey)
    requires Plain(es) && OneVersion(es) && NeverHidden(UpdatesOf(es), ConfirmedOf(es))
    ensures pk in Indexed(Run(es).owners, o) <==> HasOwner(UpdatesOf(es), pk, o)
  {
    var s, updates, confirmed := Run(es), UpdatesOf(es), ConfirmedOf(es);
    RunIndexKept(es);
    PlainRunSummarized(es);
    if HasOwner(updates, pk, o) {
      var d :| d in updates && d.pubkey == pk && d.owner == o;
      VersionIsIndexed(s, d, updates, confirmed);
    }
  }

  lemma VersionIsIndexed(s: Store, d: AccountData, updates: set<AccountData>, confirmed: set<Slot>)
    requires IndexKept(s, updates, confirmed) && Summarizes(s, updates, confirmed) && NeverHidden(updates, confirmed)
    requires d in updates
    ensures d.pubkey in Indexed(s.owners, d.owner)
  {
    var v := s.accounts[d.pubkey];
    assert WellFormedVersions(d.pubkey, v) && IndexedSoFar(s.owners, d.pubkey, v, confirmed);
    if k :| k in v.processed && v.processed[k].owner != d.owner {
      var e := v.processed[k];
      assert e in updates && e.pubkey == d.pubkey;
      if d.slot in confirmed {
        var x :| x in updates && x.pubkey == d.pubkey && x.owner == d.owner && x.slot !in confirmed;
        assert x.slot in v.processed && v.processed[x.slot] == x;
      }
    }
  }

  lemma SameOwners(es: seq<Event>, fs: seq<Event>)
    requires Plain(es) && OneVersion(es) && NeverHidden(UpdatesOf(es), ConfirmedOf(es))
    requires multiset(es) == multiset(fs)
    ensures Run(es).owners == Run(fs).owners
  {
    SameEvents(es, fs);
    var a, b := Run(es).owners, Run(fs).owners;
    forall o ensures Indexed(a, o) == Indexed(b, o) {
      forall pk ensures pk in Indexed(a, o) <==> pk in Indexed(b, o) {
        IndexedExactly(es, pk, o);
        IndexedExactly(fs, pk, o);
      }
    }
    RunIndexKept(es);
    RunIndexKept(fs);
    forall o ensures o in a <==> o in b {
      assert o in a <==> Indexed(a, o) != {};
      assert o in b <==> Indexed(b, o) != {};
    }
    SameIndex(a, b);
  }

  // ----- An order that hides an owner -----

  /** The order that hides the owner of `d`: first `e`, of another owner; then the notices of all other slots,
      `d`, and the other versions of its owner; then the other updates; and last the notices of the slot of `e`. */
  function HidingClass(x: Event, d: AccountData, e: AccountData): nat {
    if x == Update(e, Processed) then 0
    else if x.SlotNotice? && x.slot != e.slot then 1
    else if x == Update(d, Processed) then 2
    else if x.Update? && x.data.pubkey == d.pubkey && x.data.owner == d.owner then 3
    else if x.Update? then 4
    else 5
  }

  /** What else the hiding order has between `e` and `d`, after `d`, and last. */
  ghost predicate FitsNotices(x: Event, e: AccountData) {
    x == Update(e, Processed) || (x.SlotNotice? && x.slot != e.slot)
  }

  ghost predicate FitsSame(x: Event, d: AccountData) {
    x.Update? && x.data.pubkey == d.pubkey && x.data.owner == d.owner
  }

  ghost predicate FitsRest(x: Event, d: AccountData, e: AccountData) {
    (x.Update? && x.data.pubkey == d.pubkey ==> x.data.owner != d.owner) && (x.SlotNotice? ==> x.slot == e.slot)
  }

  /** The account has the version `e`, and is not indexed under the owner of `d`. */
  ghost predicate Hides(s: Store, d: AccountData, e: AccountData) {
    && WellFormed(s.accounts) && e.pubkey in s.accounts
    && e.slot in s.accounts[e.pubkey].processed && s.accounts[e.pubkey].processed[e.slot] == e
    && e.pubkey !in Indexed(s.owners, d.owner)
  }

  lemma StepHides(s: Store, x: Event, d: AccountData, e: AccountData)
    requires Hides(s, d, e) && IsPlain(x) && d.pubkey == e.pubkey && d.owner != e.owner
    requires FitsRest(x, d, e)
    ensures Hides(Step(s, x), d, e)
  {
    StepKeepsWellFormed(s, x);
    StepAdds(s, x, e.pubkey, d.owner);
  }

  /** `e` is the only version of the account, and its slot not confirmed. */
  ghost predicate Alone(s: Store, d: AccountData, e: AccountData) {
    && Hides(s, d, e) && e.slot !in s.confirmedSlots
    && s.accounts[e.pubkey] == Versions(e.pubkey, map[e.slot := e], None, None)
  }

  lemma StepAlone(s: Store, x: Event, d: AccountData, e: AccountData)
    requires Alone(s, d, e) && IsPlain(x) && d.pubkey == e.pubkey && d.owner != e.owner
    requires FitsNotices(x, e)
    ensures Alone(Step(s, x), d, e)
  {
    StepKeepsWellFormed(s, x);
    StepAdds(s, x, e.pubkey, d.owner);
  }

  /** The confirmed version has the owner of `d`, and so has the newest one if `d` is later than `e`. */
  ghost predicate Joined(s: Store, d: AccountData, e: AccountData) {
    && Hides(s, d, e)
    && var v := s.accounts[e.pubkey];
    && v.confirmed.Some? && v.confirmed.value.owner == d.owner
    && (e.slot < d.slot ==> Read(v, Processed).value.owner == d.owner)
  }

  lemma FirstJoins(s: Store, d: AccountData, e: AccountData)
    requires Alone(s, d, e) && d.pubkey == e.pubkey && d.owner != e.owner && d.slot != e.slot
    requires d.slot in s.confirmedSlots
    ensures Joined(Step(s, Update(d, Processed)), d, e)
  {
    var s' := Step(s, Update(d, Processed));
    StepKeepsWellFormed(s, Update(d, Processed));
    StepAdds(s, Update(d, Processed), e.pubkey, d.owner);
    var v' := s'.accounts[e.pubkey];
    assert v' == Versions(e.pubkey, map[e.slot := e, d.slot := d], Some(d), None);
    if e.slot < d.slot {
      assert v'.processed.Keys == {e.slot, d.slot} && MaxOf(v'.processed.Keys) == d.slot;
    }
  }

  /** A further version of the owner of `d` stays hidden, if it is confirmed or `d` is later than `e`. */
  lemma StepJoined(s: Store, x: AccountData, d: AccountData, e: AccountData)
    requires Joined(s, d, e) && x.pubkey == d.pubkey == e.pubkey && x.owner == d.owner != e.owner
    requires e.slot < d.slot || x.slot in s.confirmedSlots
    ensures Joined(Step(s, Update(x, Processed)), d, e)
  {
    var v, u := s.accounts[e.pubkey], Effective(s, x, Processed);
    assert WellFormedVersions(e.pubkey, v);
    StepKeepsWellFormed(s, Update(x, Processed));
    StepAdds(s, Update(x, Processed), e.pubkey, d.owner);
    UpdateShows(v, e.pubkey, x, u, Processed);
    NewestIsLast(e.pubkey, v);
  }
  lemma AloneThrough(s: Store, xs: seq<Event>, d: AccountData, e: AccountData)
    requires Alone(s, d, e) && Plain(xs) && d.pubkey == e.pubkey && d.owner != e.owner
    requires forall x | x in xs :: FitsNotices(x, e)
    ensures Alone(RunFrom(s, xs), d, e)
  {
    var kept := (t: Store) => Alone(t, d, e);
    forall t: Store, x: Event | kept(t) && x in xs ensures kept(Step(t, x)) {
      StepAlone(t, x, d, e);
    }
    KeptThrough(s, xs, kept);
  }

  lemma JoinedThrough(s: Store, xs: seq<Event>, d: AccountData, e: AccountData, issued: set<Slot>)
    requires Joined(s, d, e) && Plain(xs) && d.pubkey == e.pubkey && d.owner != e.owner && issued <= s.confirmedSlots
    requires forall x | x in xs :: FitsSame(x, d) && (e.slot < d.slot || x.data.slot in issued)
    ensures Joined(RunFrom(s, xs), d, e)
  {
    var kept := (t: Store) => Joined(t, d, e) && issued <= t.confirmedSlots;
    forall t: Store, x: Event | kept(t) && x in xs ensures kept(Step(t, x)) {
      StepJoined(t, x.data, d, e);
    }
    KeptThrough(s, xs, kept);
  }

  lemma HidesThrough(s: Store, xs: seq<Event>, d: AccountData, e: AccountData)
    requires Hides(s, d, e) && Plain(xs) && d.pubkey == e.pubkey && d.owner != e.owner
    requires forall x | x in xs :: FitsRest(x, d, e)
    ensures Hides(RunFrom(s, xs), d, e)
  {
    var kept := (t: Store) => Hides(t, d, e);
    forall t: Store, x: Event | kept(t) && x in xs ensures kept(Step(t, x)) {
      StepHides(t, x, d, e);
    }
    KeptThrough(s, xs, kept);
  }

  lemma FirstIsAlone(d: AccountData, e: AccountData)
    requires d.pubkey == e.pubkey && d.owner != e.owner
    ensures Run([Update(e, Processed)]) == StoreOf(e) && Alone(StoreOf(e), d, e)
  {
    FirstUpdate(e);
    OneMore([], Update(e, Processed));
    assert [] + [Update(e, Processed)] == [Update(e, Processed)];
    assert e.slot in StoreOf(e).accounts[e.pubkey].processed;
  }

  lemma Regroup(c0: seq<Event>, c1: seq<Event>, c2: seq<Event>, c3: seq<Event>, c4: seq<Event>, c5: seq<Event>)
    requires c0 != [] && c2 != []
    ensures multiset([c0[0]] + (c0[1..] + c1) + [c2[0]] + (c2[1..] + c3) + (c4 + c5)) ==
            multiset(c0) + multiset(c1) + multiset(c2) + multiset(c3) + multiset(c4) + multiset(c5)
  {
    assert [c0[0]] + (c0[1..] + c1) + [c2[0]] + (c2[1..] + c3) + (c4 + c5) == c0 + c1 + c2 + c3 + c4 + c5;
  }

  lemma SixClasses(es: seq<Event>, class_: Event -> nat)
    ensures ClassBags(es, class_, 6) ==
            multiset(OfClass(es, class_, 0)) + multiset(OfClass(es, class_, 1)) + multiset(OfClass(es, class_, 2))
            + multiset(OfClass(es, class_, 3)) + multiset(OfClass(es, class_, 4)) + multiset(OfClass(es, class_, 5))
  {
    assert ClassBags(es, class_, 1) == multiset{} + multiset(OfClass(es, class_, 0));
    assert ClassBags(es, class_, 3) == ClassBags(es, class_, 2) + multiset(OfClass(es, class_, 2));
    assert ClassBags(es, class_, 5) == ClassBags(es, class_, 4) + multiset(OfClass(es, class_, 4));
  }

  /** The part made of the events of two classes, the first of them with or without its first event. */
  ghost predicate IsPart(part: seq<Event>, es: seq<Event>, class_: Event -> nat, k: nat) {
    var c, next := OfClass(es, class_, k), OfClass(es, class_, k + 1);
    part == c + next || (c != [] && part == c[1..] + next)
  }

  lemma PartMembers(es: seq<Event>, class_: Event -> nat, k: nat, part: seq<Event>)
    requires IsPart(part, es, class_, k)
    ensures forall x | x in part :: x in es && k <= class_(x) <= k + 1
    ensures forall x | x in es && class_(x) == k + 1 :: x in part
  {
    ClassMembers(es, class_, k);
    ClassMembers(es, class_, k + 1);
  }

  lemma PartsFit(es: seq<Event>, class_: Event -> nat, d: AccountData, e: AccountData,
                 notices: seq<Event>, same: seq<Event>, rest: seq<Event>)
    requires Plain(es) && d.pubkey == e.pubkey && d.owner != e.owner
    requires forall x :: class_(x) == HidingClass(x, d, e)
    requires IsPart(notices, es, class_, 0) && IsPart(same, es, class_, 2) && IsPart(rest, es, class_, 4)
    ensures forall x | x in notices :: x in es && FitsNotices(x, e)
    ensures forall x | x in es && x.SlotNotice? && x.slot != e.slot :: x in notices
    ensures forall x | x in same :: x in es && FitsSame(x, d)
    ensures forall x | x in rest :: x in es && FitsRest(x, d, e)
  {
    PartMembers(es, class_, 0, notices);
    PartMembers(es, class_, 2, same);
    PartMembers(es, class_, 4, rest);
  }

  lemma TheOne(es: seq<Event>, class_: Event -> nat, k: nat, x: Event)
    requires x in es && forall y :: class_(y) == k <==> y == x
    ensures OfClass(es, class_, k) != [] && OfClass(es, class_, k)[0] == x
  {
    ClassMembers(es, class_, k);
    assert OfClass(es, class_, k)[0] in OfClass(es, class_, k);
  }

  /** The hiding order, part by part. */
  lemma HidingParts(es: seq<Event>, d: AccountData, e: AccountData)
    returns (notices: seq<Event>, same: seq<Event>, rest: seq<Event>)
    requires Plain(es) && Update(d, Processed) in es && Update(e, Processed) in es
    requires d.pubkey == e.pubkey && d.owner != e.owner
    ensures multiset([Update(e, Processed)] + notices + [Update(d, Processed)] + same + rest) == multiset(es)
    ensures forall x | x in notices :: x in es && FitsNotices(x, e)
    ensures forall x | x in es && x.SlotNotice? && x.slot != e.slot :: x in notices
    ensures forall x | x in same :: x in es && FitsSame(x, d)
    ensures forall x | x in rest :: x in es && FitsRest(x, d, e)
  {
    var class_ := (x: Event) => HidingClass(x, d, e);
    var c0, c1, c2 := OfClass(es, class_, 0), OfClass(es, class_, 1), OfClass(es, class_, 2);
    var c3, c4, c5 := OfClass(es, class_, 3), OfClass(es, class_, 4), OfClass(es, class_, 5);
    TheOne(es, class_, 0, Update(e, Processed));
    TheOne(es, class_, 2, Update(d, Processed));
    notices, same, rest := c0[1..] + c1, c2[1..] + c3, c4 + c5;
    PartsFit(es, class_, d, e, notices, same, rest);
    ClassesAreAll(es, class_, 6);
    SixClasses(es, class_);
    Regroup(c0, c1, c2, c3, c4, c5);
  }

  lemma HidingStarts(es: seq<Event>, d: AccountData, e: AccountData, notices: seq<Event>)
    requires Plain(es) && OneVersion(es) && Update(e, Processed) in es && d.pubkey == e.pubkey && d.owner != e.owner
    requires forall x | x in notices :: x in es && FitsNotices(x, e)
    requires forall x | x in es && x.SlotNotice? && x.slot != e.slot :: x in notices
    ensures var s := Run([Update(e, Processed)] + notices);
            Alone(s, d, e) && ConfirmedOf(es) - {e.slot} <= s.confirmedSlots
  {
    var first := [Update(e, Processed)] + notices;
    FirstIsAlone(d, e);
    RunConcat([Update(e, Processed)], notices);
    AloneThrough(StoreOf(e), notices, d, e);
    assert forall x | x in first :: x in es;
    PlainRunSummarized(first);
    forall k | k in ConfirmedOf(es) && k != e.slot ensures k in ConfirmedOf(first) {
      var x :| x in es && x.SlotNotice? && x.slot == k;
      assert x in first;
    }
  }

  lemma HidingGoesOn(es: seq<Event>, s: Store, d: AccountData, e: AccountData, same: seq<Event>)
    requires Plain(es) && OneVersion(es) && Update(d, Processed) in es && Update(e, Processed) in es
    requires d.pubkey == e.pubkey && d.owner != e.owner && d.slot in ConfirmedOf(es)
    requires e.slot < d.slot || !HasUnconfirmed(UpdatesOf(es), ConfirmedOf(es), d.pubkey, d.owner)
    requires Alone(s, d, e) && ConfirmedOf(es) - {e.slot} <= s.confirmedSlots
    requires forall x | x in same :: x in es && FitsSame(x, d)
    ensures Hides(RunFrom(Step(s, Update(d, Processed)), same), d, e)
  {
    var issued := ConfirmedOf(es) - {e.slot};
    FirstJoins(s, d, e);
    forall x | x in same ensures e.slot < d.slot || x.data.slot in issued {
      assert x.data in UpdatesOf(es);
    }
    JoinedThrough(Step(s, Update(d, Processed)), same, d, e, issued);
  }

  /** When a confirmed version is later than one of another owner, or its owner has only confirmed versions,
      some order leaves the account unindexed under it. */
  lemma HidingOrder(es: seq<Event>, d: AccountData, e: AccountData) returns (fs: seq<Event>)
    requires Plain(es) && OneVersion(es) && Update(d, Processed) in es && Update(e, Processed) in es
    requires d.pubkey == e.pubkey && d.owner != e.owner && d.slot in ConfirmedOf(es)
    requires e.slot < d.slot || !HasUnconfirmed(UpdatesOf(es), ConfirmedOf(es), d.pubkey, d.owner)
    ensures multiset(fs) == multiset(es) && d.pubkey !in Indexed(Run(fs).owners, d.owner)
  {
    var notices, same, rest := HidingParts(es, d, e);
    var first := [Update(e, Processed)] + notices;
    var second := first + [Update(d, Processed)];
    fs := second + same + rest;
    HidingStarts(es, d, e, notices);
    OneMore(first, Update(d, Processed));
    HidingGoesOn(es, Run(first), d, e, same);
    RunConcat(second, same);
    RunConcat(second + same, rest);
    HidesThrough(Run(second + same), rest, d, e);
  }

  // ----- Exactly when the index does not depend on the order -----

  /** Every interleaving of the same events leaves the same owner index. */
  ghost predicate OwnersIndependent(es: seq<Event>) {
    forall fs | multiset(fs) == multiset(es) :: Run(fs).owners == Run(es).owners
  }

  lemma IndexedWhenFirst(es: seq<Event>, i: nat)
    requires Plain(es) && i < |es| && es[i].Update?
    ensures es[i].data.pubkey in Indexed(Run(MovedToFront(es, i)).owners, es[i].data.owner)
  {
    var d := es[i].data;
    assert es[i] in es;
    FirstUpdate(d);
    OneMore([], es[i]);
    assert [] + [es[i]] == [es[i]];
    RunWellFormed([es[i]]);
    var others := es[..i] + es[i + 1..];
    assert MovedToFront(es, i) == [es[i]] + others;
    RunConcat([es[i]], others);
    assert forall x | x in others :: x in es;
    IndexGrows(Run([es[i]]), others, d.pubkey, d.owner);
  }

  lemma NotHidden(es: seq<Event>, d: AccountData, e: AccountData)
    requires Plain(es) && OneVersion(es) && OwnersIndependent(es)
    requires Update(d, Processed) in es && Update(e, Processed) in es
    requires d.pubkey == e.pubkey && d.owner != e.owner && d.slot in ConfirmedOf(es)
    ensures d.slot <= e.slot && HasUnconfirmed(UpdatesOf(es), ConfirmedOf(es), d.pubkey, d.owner)
  {
    if e.slot < d.slot || !HasUnconfirmed(UpdatesOf(es), ConfirmedOf(es), d.pubkey, d.owner) {
      var i :| 0 <= i < |es| && es[i] == Update(d, Processed);
      var fs := HidingOrder(es, d, e);
      MovedIsInterleaving(es, i);
      assert Run(fs).owners == Run(es).owners == Run(MovedToFront(es, i)).owners;
      IndexedWhenFirst(es, i);
    }
  }

  lemma NeverHiddenNeeded(es: seq<Event>)
    requires Plain(es) && OneVersion(es) && OwnersIndependent(es)
    ensures NeverHidden(UpdatesOf(es), ConfirmedOf(es))
  {
    var updates, confirmed := UpdatesOf(es), ConfirmedOf(es);
    forall d, e | d in updates && e in updates && d.pubkey == e.pubkey && d.owner != e.owner && d.slot in confirmed
      ensures d.slot < e.slot && HasUnconfirmed(updates, confirmed, d.pubkey, d.owner)
    {
      assert Update(d, Processed) in es && Update(e, Processed) in es;
      NotHidden(es, d, e);
    }
  }

  /** With one version per account and slot, every interleaving of the same processed updates and confirmed
      notices leaves the same owner index if and only if no owner can be hidden. */
  lemma OwnersIndependentExactly(es: seq<Event>)
    requires Plain(es) && OneVersion(es)
    ensures OwnersIndependent(es) <==> NeverHidden(UpdatesOf(es), ConfirmedOf(es))
  {
    if NeverHidden(UpdatesOf(es), ConfirmedOf(es)) {
      forall fs | multiset(fs) == multiset(es) ensures Run(fs).owners == Run(es).owners {
        SameOwners(es, fs);
      }
    } else if OwnersIndependent(es) {
      NeverHiddenNeeded(es);
    }
  }

  /** Every interleaving of the same events leaves the same store, index and all. */
  ghost predicate StoreIndependent(es: seq<Event>) {
    forall fs | multiset(fs) == multiset(es) :: Run(fs) == Run(es)
  }

  lemma StoreIndependentParts(es: seq<Event>)
    requires Plain(es) && OneVersion(es) && ZeroHarmless(es)
    ensures StoreIndependent(es) <==> OwnersIndependent(es)
  {
    forall fs | multiset(fs) == multiset(es)
      ensures Run(fs) == Run(es) <==> Run(fs).owners == Run(es).owners
    {
      OrderDoesNotMatter(es, fs);
    }
  }

  /** Every interleaving of the same processed updates and confirmed notices leaves the same store if and only if
      no account has two versions of a slot, slot 0 is harmless, and no owner can be hidden. */
  lemma StoreIndependentExactly(es: seq<Event>)
    requires Plain(es)
    ensures StoreIndependent(es) <==>
            OneVersion(es) && ZeroHarmless(es) && NeverHidden(UpdatesOf(es), ConfirmedOf(es))
  {
    OrderIndependentExactly(es);
    if OneVersion(es) && ZeroHarmless(es) {
      StoreIndependentParts(es);
      OwnersIndependentExactly(es);
    } else if StoreIndependent(es) {
      assert OrderIndependent(es);
    }
  }
}
