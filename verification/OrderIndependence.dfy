/** Processed updates and confirmed notices may be interleaved in any way, and the accounts end up the same,
    exactly when no slot has two versions and slot 0 is harmless. */
module OrderIndependence {
  import opened Prelude
  import opened AccountVersions
  import opened AccountStore
  import opened AccountStoreRuns

  /** A processed update or a confirmed notice. */
  predicate IsPlain(e: Event) {
    (e.Update? && e.c.Processed?) || (e.SlotNotice? && e.c.Confirmed?)
  }

  ghost predicate Plain(es: seq<Event>) {
    forall e | e in es :: IsPlain(e)
  }

  /** One version per account and slot. */
  ghost predicate OneVersion(es: seq<Event>) {
    forall e, f | e in es && f in es && e.Update? && f.Update? &&
                  e.data.pubkey == f.data.pubkey && e.data.slot == f.data.slot :: e.data == f.data
  }

  function UpdatesOf(es: seq<Event>): set<AccountData> {
    set e | e in es && e.Update? :: e.data
  }

  function ConfirmedOf(es: seq<Event>): set<Slot> {
    set e | e in es && e.SlotNotice? :: e.slot
  }

  /** The account has a version of some confirmed slot above 0. */
  ghost predicate ConfirmedAboveZero(es: seq<Event>, pk: Pubkey) {
    exists d :: d in UpdatesOf(es) && d.pubkey == pk && 0 < d.slot && d.slot in ConfirmedOf(es)
  }

  /** Slot 0 is harmless: not confirmed, or overtaken in every account that has a version of it. */
  ghost predicate ZeroHarmless(es: seq<Event>) {
    forall d | d in UpdatesOf(es) && d.slot == 0 && 0 in ConfirmedOf(es) :: ConfirmedAboveZero(es, d.pubkey)
  }

  /** The confirmed version is the processed version at the greatest slot both updated and confirmed;
      with slot 0 the only such slot there may be none. */
  ghost predicate ConfirmedIsGreatest(v: Versions, confirmed: set<Slot>) {
    if v.confirmed.Some? then
      var k := v.confirmed.value.slot;
      && k in v.processed && k in confirmed && v.processed[k] == v.confirmed.value
      && forall j | j in v.processed && j in confirmed :: j <= k
    else
      forall j | j in v.processed && j in confirmed :: j == 0
  }

  /** The store is determined by the set of updates and the set of confirmed slots. */
  ghost predicate Summarizes(s: Store, updates: set<AccountData>, confirmed: set<Slot>) {
    && s.confirmedSlots == confirmed
    && AllStored(s.accounts, updates)
    && (forall pk | pk in s.accounts :: AccountSummarized(s.accounts[pk], updates, confirmed))
  }

  ghost predicate AllStored(accounts: map<Pubkey, Versions>, updates: set<AccountData>) {
    forall d | d in updates ::
      && d.pubkey in accounts && d.slot in accounts[d.pubkey].processed
      && accounts[d.pubkey].processed[d.slot] == d
  }

  ghost predicate AccountSummarized(v: Versions, updates: set<AccountData>, confirmed: set<Slot>) {
    && v.finalized == None
    && ConfirmedIsGreatest(v, confirmed)
    && forall k | k in v.processed :: v.processed[k] in updates
  }

  lemma UpdatedSummarized(pk: Pubkey, v: Versions, data: AccountData, updates: set<AccountData>, confirmed: set<Slot>)
    requires WellFormedVersions(pk, v) && AccountSummarized(v, updates, confirmed)
    requires data.slot in v.processed ==> v.processed[data.slot] == data
    ensures var v' := Updated(v, data, if data.slot in confirmed then Confirmed else Processed);
            AccountSummarized(v', updates + {data}, confirmed) &&
            data.slot in v'.processed && v'.processed[data.slot] == data
  {
  }

  lemma CreatedSummarized(data: AccountData, updates: set<AccountData>, confirmed: set<Slot>)
    ensures var v' := Created(data, if data.slot in confirmed then Confirmed else Processed);
            AccountSummarized(v', updates + {data}, confirmed) &&
            data.slot in v'.processed && v'.processed[data.slot] == data
  {
  }

  lemma MoreUpdates(v: Versions, updates: set<AccountData>, data: AccountData, confirmed: set<Slot>)
    requires AccountSummarized(v, updates, confirmed)
    ensures AccountSummarized(v, updates + {data}, confirmed)
  {
  }

  lemma EntrySummarized(s: Store, v: Versions, owners: OwnerIndex, data: AccountData,
                        updates: set<AccountData>, confirmed: set<Slot>)
    requires Summarizes(s, updates, confirmed) && AccountSummarized(v, updates + {data}, confirmed)
    requires data.slot in v.processed && v.processed[data.slot] == data
    requires data.pubkey in s.accounts ==> forall k | k in s.accounts[data.pubkey].processed ::
               k in v.processed && v.processed[k] == s.accounts[data.pubkey].processed[k]
    ensures Summarizes(Store(s.accounts[data.pubkey := v], s.confirmedSlots, owners), updates + {data}, confirmed)
  {
    var accounts := s.accounts[data.pubkey := v];
    forall pk | pk in accounts ensures AccountSummarized(accounts[pk], updates + {data}, confirmed) {
      if pk != data.pubkey { MoreUpdates(s.accounts[pk], updates, data, confirmed); }
    }
    StoredWithEntry(s, v, data, updates);
  }

  lemma StoredWithEntry(s: Store, v: Versions, data: AccountData, updates: set<AccountData>)
    requires AllStored(s.accounts, updates) && data.slot in v.processed && v.processed[data.slot] == data
    requires data.pubkey in s.accounts ==> forall k | k in s.accounts[data.pubkey].processed ::
               k in v.processed && v.processed[k] == s.accounts[data.pubkey].processed[k]
    ensures AllStored(s.accounts[data.pubkey := v], updates + {data})
  {
  }

  lemma UpdateSummarized(s: Store, data: AccountData, updates: set<AccountData>, confirmed: set<Slot>)
    requires WellFormed(s.accounts) && Summarizes(s, updates, confirmed)
    requires forall d | d in updates && d.pubkey == data.pubkey && d.slot == data.slot :: d == data
    ensures Summarizes(ApplyUpdate(s, data, Processed), updates + {data}, confirmed)
  {
    var s' := ApplyUpdate(s, data, Processed);
    var pk := data.pubkey;
    var v' := s'.accounts[pk];
    if pk in s.accounts {
      assert WellFormedVersions(pk, s.accounts[pk]);
      assert data.slot in s.accounts[pk].processed ==> s.accounts[pk].processed[data.slot] == data;
      UpdatedSummarized(pk, s.accounts[pk], data, updates, confirmed);
    } else {
      CreatedSummarized(data, updates, confirmed);
    }
    EntrySummarized(s, v', s'.owners, data, updates, confirmed);
    assert s'.accounts == s.accounts[pk := v'];
  }

  lemma NoticeSummarized(s: Store, slot: Slot, updates: set<AccountData>, confirmed: set<Slot>)
    requires WellFormed(s.accounts) && Summarizes(s, updates, confirmed)
    ensures Summarizes(ApplySlot(s, slot, Confirmed), updates, confirmed + {slot})
  {
    forall pk | pk in s.accounts
      ensures AccountSummarized(Promoted(s.accounts[pk], slot, Confirmed), updates, confirmed + {slot})
    {
      assert WellFormedVersions(pk, s.accounts[pk]);
    }
  }

  lemma OneMore(es: seq<Event>, e: Event)
    ensures Run(es + [e]) == Step(Run(es), e)
  {
    assert (es + [e])[..|es|] == es;
  }

  lemma EventsOneMore(es: seq<Event>, e: Event)
    ensures UpdatesOf(es + [e]) == UpdatesOf(es) + if e.Update? then {e.data} else {}
    ensures ConfirmedOf(es + [e]) == ConfirmedOf(es) + if e.SlotNotice? then {e.slot} else {}
  {
    assert forall f :: f in es + [e] <==> f in es || f == e;
  }

  lemma StepSummarized(s: Store, e: Event, updates: set<AccountData>, confirmed: set<Slot>)
    requires WellFormed(s.accounts) && Summarizes(s, updates, confirmed) && IsPlain(e)
    requires e.Update? ==>
               forall d | d in updates && d.pubkey == e.data.pubkey && d.slot == e.data.slot :: d == e.data
    ensures Summarizes(Step(s, e), updates + (if e.Update? then {e.data} else {}),
                       confirmed + (if e.SlotNotice? then {e.slot} else {}))
  {
    if e.Update? {
      UpdateSummarized(s, e.data, updates, confirmed);
      assert confirmed + {} == confirmed;
    } else {
      NoticeSummarized(s, e.slot, updates, confirmed);
      assert updates + {} == updates;
    }
  }

  /** After any plain run: one processed version per update, the confirmed version the greatest
      of those at a confirmed slot, slot 0 apart, and nothing else. */
  lemma {:induction false} PlainRunSummarized(es: seq<Event>)
    requires Plain(es) && OneVersion(es)
    ensures Summarizes(Run(es), UpdatesOf(es), ConfirmedOf(es))
  {
    if es != [] {
      var rest, e := es[..|es| - 1], es[|es| - 1];
      assert es == rest + [e];
      assert e in es && forall f | f in rest :: f in es;
      PlainRunSummarized(rest);
      RunWellFormed(rest);
      StepSummarized(Run(rest), e, UpdatesOf(rest), ConfirmedOf(rest));
      EventsOneMore(rest, e);
      OneMore(rest, e);
    }
  }

  // ----- Sufficiency -----

  /** A version of slot 0, once confirmed, is overtaken by one of a later confirmed slot. */
  ghost predicate ZeroOvertaken(v: Versions, confirmed: set<Slot>) {
    0 in v.processed && 0 in confirmed ==> exists k :: 0 < k && k in v.processed && k in confirmed
  }

  lemma SameVersions(pk: Pubkey, v: Versions, w: Versions, updates: set<AccountData>, confirmed: set<Slot>)
    requires WellFormedVersions(pk, v) && WellFormedVersions(pk, w)
    requires ConfirmedIsGreatest(v, confirmed) && ConfirmedIsGreatest(w, confirmed)
    requires v.finalized == w.finalized
    requires forall d | d in updates && d.pubkey == pk :: d.slot in v.processed && v.processed[d.slot] == d
    requires forall d | d in updates && d.pubkey == pk :: d.slot in w.processed && w.processed[d.slot] == d
    requires forall k | k in v.processed :: v.processed[k] in updates
    requires forall k | k in w.processed :: w.processed[k] in updates
    requires ZeroOvertaken(v, confirmed)
    ensures v == w
  {
    assert forall k | k in v.processed :: v.processed[k].slot == k && v.processed[k].pubkey == pk;
    assert forall k | k in w.processed :: w.processed[k].slot == k && w.processed[k].pubkey == pk;
    assert v.processed == w.processed;
  }

  lemma SummaryHasAccounts(s: Store, t: Store, updates: set<AccountData>, confirmed: set<Slot>)
    requires WellFormed(s.accounts)
    requires Summarizes(s, updates, confirmed) && Summarizes(t, updates, confirmed)
    ensures s.accounts.Keys <= t.accounts.Keys
  {
    forall pk | pk in s.accounts ensures pk in t.accounts {
      assert WellFormedVersions(pk, s.accounts[pk]);
      var k := MaxOf(s.accounts[pk].processed.Keys);
      assert s.accounts[pk].processed[k] in updates && s.accounts[pk].processed[k].pubkey == pk;
    }
  }

  lemma SummaryDeterminesAccounts(s: Store, t: Store, updates: set<AccountData>, confirmed: set<Slot>)
    requires WellFormed(s.accounts) && WellFormed(t.accounts)
    requires Summarizes(s, updates, confirmed) && Summarizes(t, updates, confirmed)
    requires forall pk | pk in s.accounts :: ZeroOvertaken(s.accounts[pk], confirmed)
    ensures s.accounts == t.accounts && s.confirmedSlots == t.confirmedSlots
  {
    SummaryHasAccounts(s, t, updates, confirmed);
    SummaryHasAccounts(t, s, updates, confirmed);
    forall pk | pk in s.accounts ensures s.accounts[pk] == t.accounts[pk] {
      assert WellFormedVersions(pk, s.accounts[pk]) && WellFormedVersions(pk, t.accounts[pk]);
      SameVersions(pk, s.accounts[pk], t.accounts[pk], updates, confirmed);
    }
  }

  lemma HarmlessIsOvertaken(es: seq<Event>, s: Store, pk: Pubkey)
    requires ZeroHarmless(es) && WellFormed(s.accounts) && Summarizes(s, UpdatesOf(es), ConfirmedOf(es))
    requires pk in s.accounts
    ensures ZeroOvertaken(s.accounts[pk], ConfirmedOf(es))
  {
    var v := s.accounts[pk];
    assert WellFormedVersions(pk, v) && AccountSummarized(v, UpdatesOf(es), ConfirmedOf(es));
    if 0 in v.processed && 0 in ConfirmedOf(es) {
      assert v.processed[0] in UpdatesOf(es);
      assert ConfirmedAboveZero(es, pk);
      var d :| d in UpdatesOf(es) && d.pubkey == pk && 0 < d.slot && d.slot in ConfirmedOf(es);
      assert d.slot in v.processed;
    }
  }

  lemma SameEvents(es: seq<Event>, fs: seq<Event>)
    requires multiset(es) == multiset(fs)
    ensures forall e :: e in es <==> e in fs
    ensures UpdatesOf(es) == UpdatesOf(fs) && ConfirmedOf(es) == ConfirmedOf(fs)
  {
    assert forall e :: e in es <==> e in multiset(es);
    assert forall e :: e in fs <==> e in multiset(fs);
  }

  /** Two interleavings of the same updates and notices leave the same accounts. */
  lemma OrderDoesNotMatter(es: seq<Event>, fs: seq<Event>)
    requires Plain(es) && OneVersion(es) && ZeroHarmless(es) && multiset(es) == multiset(fs)
    ensures Run(es).accounts == Run(fs).accounts && Run(es).confirmedSlots == Run(fs).confirmedSlots
  {
    SameEvents(es, fs);
    PlainRunSummarized(es);
    PlainRunSummarized(fs);
    RunWellFormed(es);
    RunWellFormed(fs);
    forall pk | pk in Run(es).accounts ensures ZeroOvertaken(Run(es).accounts[pk], ConfirmedOf(es)) {
      HarmlessIsOvertaken(es, Run(es), pk);
    }
    SummaryDeterminesAccounts(Run(es), Run(fs), UpdatesOf(es), ConfirmedOf(es));
  }

  // ----- Necessity -----

  /** Every interleaving of the same events leaves the same accounts. */
  ghost predicate OrderIndependent(es: seq<Event>) {
    forall fs | multiset(fs) == multiset(es) :: Run(fs).accounts == Run(es).accounts
  }

  /** The same events with the one at position `i` first. */
  function MovedToFront(es: seq<Event>, i: nat): seq<Event>
    requires i < |es|
  {
    [es[i]] + es[..i] + es[i + 1..]
  }

  lemma MovedIsInterleaving(es: seq<Event>, i: nat)
    requires i < |es|
    ensures multiset(MovedToFront(es, i)) == multiset(es)
  {
    assert es == es[..i] + [es[i]] + es[i + 1..];
  }

  /** The first version of a slot to arrive is kept. */
  lemma {:induction false} FirstVersionKept(es: seq<Event>)
    requires Plain(es) && es != [] && es[0].Update?
    ensures var d := es[0].data;
            && d.pubkey in Run(es).accounts && d.slot in Run(es).accounts[d.pubkey].processed
            && Run(es).accounts[d.pubkey].processed[d.slot] == d
  {
    var m := |es| - 1;
    assert es[m] in es;
    if m == 0 {
      assert es[..0] == [];
      assert Run(es) == Step(EMPTY, es[0]);
    } else {
      assert forall e | e in es[..m] :: e in es;
      FirstVersionKept(es[..m]);
    }
  }

  lemma OneVersionNeeded(es: seq<Event>)
    requires Plain(es) && OrderIndependent(es)
    ensures OneVersion(es)
  {
    forall e, f | e in es && f in es && e.Update? && f.Update? &&
                  e.data.pubkey == f.data.pubkey && e.data.slot == f.data.slot
      ensures e.data == f.data
    {
      var i :| 0 <= i < |es| && es[i] == e;
      var j :| 0 <= j < |es| && es[j] == f;
      MovedIsInterleaving(es, i);
      MovedIsInterleaving(es, j);
      SameEvents(es, MovedToFront(es, i));
      SameEvents(es, MovedToFront(es, j));
      FirstVersionKept(MovedToFront(es, i));
      FirstVersionKept(MovedToFront(es, j));
    }
  }

  /** Slot 0 is confirmed, and whoever has a version of it has a confirmed version. */
  ghost predicate ZeroConfirms(s: Store) {
    0 in s.confirmedSlots &&
    forall pk | pk in s.accounts && 0 in s.accounts[pk].processed :: s.accounts[pk].confirmed.Some?
  }

  lemma StepZeroConfirms(s: Store, e: Event)
    requires ZeroConfirms(s) && IsPlain(e)
    ensures ZeroConfirms(Step(s, e))
  {
  }

  lemma {:induction false} ZeroFirstConfirms(es: seq<Event>)
    requires Plain(es) && es != [] && es[0] == SlotNotice(0, Confirmed)
    ensures ZeroConfirms(Run(es))
  {
    var m := |es| - 1;
    assert es[m] in es && es == es[..m] + [es[m]];
    OneMore(es[..m], es[m]);
    if m == 0 {
      assert es[..0] == [];
    } else {
      ZeroFirstConfirms(es[..m]);
      StepZeroConfirms(Run(es[..m]), es[m]);
    }
  }

  /** The events of one class, in order. */
  function OfClass(es: seq<Event>, class_: Event -> nat, k: nat): seq<Event> {
    if es == [] then []
    else OfClass(es[..|es| - 1], class_, k) + if class_(es[|es| - 1]) == k then [es[|es| - 1]] else []
  }

  /** How often each event is in the first `k` classes. */
  function ClassBags(es: seq<Event>, class_: Event -> nat, k: nat): multiset<Event> {
    if k == 0 then multiset{} else ClassBags(es, class_, k - 1) + multiset(OfClass(es, class_, k - 1))
  }

  lemma {:induction false} ClassMembers(es: seq<Event>, class_: Event -> nat, k: nat)
    ensures forall e :: e in OfClass(es, class_, k) <==> e in es && class_(e) == k
  {
    if es != [] {
      ClassMembers(es[..|es| - 1], class_, k);
      assert es == es[..|es| - 1] + [es[|es| - 1]];
    }
  }

  /** The events of the first `k` classes, in order. */
  function Below(es: seq<Event>, class_: Event -> nat, k: nat): seq<Event> {
    if es == [] then []
    else Below(es[..|es| - 1], class_, k) + if class_(es[|es| - 1]) < k then [es[|es| - 1]] else []
  }

  lemma {:induction false} BelowNext(es: seq<Event>, class_: Event -> nat, k: nat)
    ensures multiset(Below(es, class_, k + 1)) == multiset(Below(es, class_, k)) + multiset(OfClass(es, class_, k))
  {
    if es != [] { BelowNext(es[..|es| - 1], class_, k); }
  }

  lemma {:induction false} NothingBelow(es: seq<Event>, class_: Event -> nat)
    ensures Below(es, class_, 0) == []
  {
    if es != [] { NothingBelow(es[..|es| - 1], class_); }
  }

  lemma {:induction false} AllBelow(es: seq<Event>, class_: Event -> nat, k: nat)
    requires forall e | e in es :: class_(e) < k
    ensures Below(es, class_, k) == es
  {
    if es != [] {
      var m := |es| - 1;
      assert es == es[..m] + [es[m]] && es[m] in es;
      assert forall e | e in es[..m] :: e in es;
      AllBelow(es[..m], class_, k);
    }
  }

  lemma NextBag(es: seq<Event>, class_: Event -> nat, k: nat)
    requires ClassBags(es, class_, k) == multiset(Below(es, class_, k))
    ensures ClassBags(es, class_, k + 1) == multiset(Below(es, class_, k + 1))
  {
    BelowNext(es, class_, k);
    assert ClassBags(es, class_, k + 1) == multiset(Below(es, class_, k)) + multiset(OfClass(es, class_, k));
  }

  lemma BagsAreBelow(es: seq<Event>, class_: Event -> nat, k: nat)
    ensures ClassBags(es, class_, k) == multiset(Below(es, class_, k))
  {
    NothingBelow(es, class_);
    for j := 0 to k
      invariant ClassBags(es, class_, j) == multiset(Below(es, class_, j))
    {
      NextBag(es, class_, j);
    }
  }

  /** The classes together are the events. */
  lemma ClassesAreAll(es: seq<Event>, class_: Event -> nat, k: nat)
    requires forall e | e in es :: class_(e) < k
    ensures ClassBags(es, class_, k) == multiset(es)
  {
    BagsAreBelow(es, class_, k);
    AllBelow(es, class_, k);
  }

  /** The same events, the updates first. */
  lemma UpdatesFirst(es: seq<Event>) returns (us: seq<Event>, ns: seq<Event>)
    ensures multiset(us + ns) == multiset(es)
    ensures (forall e | e in us :: e in es && e.Update?) && forall e | e in ns :: e in es && !e.Update?
  {
    var class_ := (e: Event) => if e.Update? then 0 else 1;
    us, ns := OfClass(es, class_, 0), OfClass(es, class_, 1);
    ClassesAreAll(es, class_, 2);
    assert ClassBags(es, class_, 1) == multiset{} + multiset(us);
    ClassMembers(es, class_, 0);
    ClassMembers(es, class_, 1);
  }

  ghost predicate NoneAtZero(s: Store) {
    forall pk | pk in s.accounts && s.accounts[pk].confirmed.Some? :: 0 < s.accounts[pk].confirmed.value.slot
  }

  lemma UpdateNoneAtZero(s: Store, e: Event)
    requires NoneAtZero(s) && s.confirmedSlots == {} && e.Update? && e.c.Processed?
    ensures NoneAtZero(Step(s, e)) && Step(s, e).confirmedSlots == {}
  {
    var s' := ApplyUpdate(s, e.data, Processed);
    forall pk | pk in s'.accounts && pk in s.accounts ensures s'.accounts[pk].confirmed == s.accounts[pk].confirmed {
    }
  }

  lemma NoticeNoneAtZero(s: Store, e: Event)
    requires WellFormed(s.accounts) && NoneAtZero(s) && e.SlotNotice? && e.c.Confirmed?
    ensures NoneAtZero(Step(s, e))
  {
    forall pk | pk in s.accounts && PromotionOf(s.accounts[pk], e.slot, Confirmed).Some?
      ensures 0 < e.slot == s.accounts[pk].processed[e.slot].slot
    {
      assert WellFormedVersions(pk, s.accounts[pk]);
    }
  }

  /** Updates before any notice confirm nothing. */
  lemma {:induction false} UpdatesConfirmNothing(us: seq<Event>)
    requires Plain(us) && forall e | e in us :: e.Update?
    ensures NoneAtZero(Run(us)) && Run(us).confirmedSlots == {}
  {
    if us != [] {
      var m := |us| - 1;
      assert us[m] in us && us == us[..m] + [us[m]];
      UpdatesConfirmNothing(us[..m]);
      OneMore(us[..m], us[m]);
      UpdateNoneAtZero(Run(us[..m]), us[m]);
    }
  }

  /** Notices after all the updates confirm nothing at slot 0. */
  lemma {:induction false} NoticesLastConfirmNoZero(us: seq<Event>, ns: seq<Event>)
    requires Plain(us) && (forall e | e in us :: e.Update?) && Plain(ns) && forall e | e in ns :: !e.Update?
    ensures NoneAtZero(Run(us + ns))
  {
    if ns == [] {
      assert us + ns == us;
      UpdatesConfirmNothing(us);
    } else {
      var m := |ns| - 1;
      var before := us + ns[..m];
      assert ns[m] in ns && us + ns == before + [ns[m]];
      NoticesLastConfirmNoZero(us, ns[..m]);
      OneMore(before, ns[m]);
      RunWellFormed(before);
      NoticeNoneAtZero(Run(before), ns[m]);
    }
  }

  /** An order in which an account with a version of slot 0, which is confirmed, has a confirmed version. */
  lemma EarlyZero(es: seq<Event>, d: AccountData) returns (early: seq<Event>)
    requires Plain(es) && OneVersion(es) && d in UpdatesOf(es) && d.slot == 0 && 0 in ConfirmedOf(es)
    ensures multiset(early) == multiset(es)
    ensures d.pubkey in Run(early).accounts && Run(early).accounts[d.pubkey].confirmed.Some?
  {
    var i :| 0 <= i < |es| && es[i] == SlotNotice(0, Confirmed);
    early := MovedToFront(es, i);
    MovedIsInterleaving(es, i);
    SameEvents(es, early);
    PlainRunSummarized(early);
    ZeroFirstConfirms(early);
  }

  /** An order in which no account is confirmed at slot 0. */
  lemma LateZero(es: seq<Event>) returns (late: seq<Event>)
    requires Plain(es) && OneVersion(es)
    ensures multiset(late) == multiset(es)
    ensures NoneAtZero(Run(late)) && Summarizes(Run(late), UpdatesOf(es), ConfirmedOf(es))
  {
    var us, ns := UpdatesFirst(es);
    late := us + ns;
    SameEvents(es, late);
    PlainRunSummarized(late);
    NoticesLastConfirmNoZero(us, ns);
  }

  lemma ConfirmedAfterLateZero(es: seq<Event>, s: Store, pk: Pubkey)
    requires WellFormed(s.accounts) && NoneAtZero(s) && Summarizes(s, UpdatesOf(es), ConfirmedOf(es))
    requires pk in s.accounts && s.accounts[pk].confirmed.Some?
    ensures ConfirmedAboveZero(es, pk)
  {
    var v := s.accounts[pk];
    assert WellFormedVersions(pk, v) && AccountSummarized(v, UpdatesOf(es), ConfirmedOf(es));
    assert v.confirmed.value in UpdatesOf(es);
  }

  lemma ZeroHarmlessNeeded(es: seq<Event>)
    requires Plain(es) && OneVersion(es) && OrderIndependent(es)
    ensures ZeroHarmless(es)
  {
    forall d | d in UpdatesOf(es) && d.slot == 0 && 0 in ConfirmedOf(es) ensures ConfirmedAboveZero(es, d.pubkey) {
      var early := EarlyZero(es, d);
      var late := LateZero(es);
      assert Run(late).accounts == Run(es).accounts == Run(early).accounts;
      RunWellFormed(late);
      ConfirmedAfterLateZero(es, Run(late), d.pubkey);
    }
  }

  /** Every interleaving of the same processed updates and confirmed notices leaves the same accounts if and
      only if no account has two versions of a slot, and slot 0 is harmless. */
  lemma OrderIndependentExactly(es: seq<Event>)
    requires Plain(es)
    ensures OrderIndependent(es) <==> OneVersion(es) && ZeroHarmless(es)
  {
    if OneVersion(es) && ZeroHarmless(es) {
      forall fs | multiset(fs) == multiset(es) ensures Run(fs).accounts == Run(es).accounts {
        OrderDoesNotMatter(es, fs);
      }
    } else if OrderIndependent(es) {
      OneVersionNeeded(es);
      ZeroHarmlessNeeded(es);
    }
  }

  // ----- Runs that differ, and single steps -----

  /** Slot 0 is confirmed only when its notice comes first: an absent confirmed version counts as slot 0. */
  lemma OrderMattersAtSlotZero()
    ensures var u, n := Update(AccountData(1, 7, 0, 0), Processed), SlotNotice(0, Confirmed);
            Lookup(Run([u, n]), 1, Confirmed) == None && Lookup(Run([n, u]), 1, Confirmed) == Some(u.data)
  {
    var u, n := Update(AccountData(1, 7, 0, 0), Processed), SlotNotice(0, Confirmed);
    RunOfTwo(u, n);
    RunOfTwo(n, u);
  }

  /** With two versions of one slot, the first to arrive wins. */
  lemma OrderMattersWithTwoVersions()
    ensures var a, b := AccountData(1, 7, 0, 3), AccountData(1, 7, 1, 3);
            && Lookup(Run([Update(a, Processed), Update(b, Processed)]), 1, Processed) == Some(a)
            && Lookup(Run([Update(b, Processed), Update(a, Processed)]), 1, Processed) == Some(b)
  {
    var a, b := AccountData(1, 7, 0, 3), AccountData(1, 7, 1, 3);
    RunOfTwo(Update(a, Processed), Update(b, Processed));
    RunOfTwo(Update(b, Processed), Update(a, Processed));
    assert (map[3 := a]).Keys == {3} && (map[3 := b]).Keys == {3};
  }

  /** An update above the confirmed slot is confirmed whichever of it and its notice comes first. */
  lemma UpdateConfirmedEitherWay(s: Store, data: AccountData)
    requires WellFormed(s.accounts) && data.pubkey in s.accounts
    requires data.slot !in s.accounts[data.pubkey].processed && data.slot !in s.confirmedSlots
    requires SlotOrZero(s.accounts[data.pubkey].confirmed) < data.slot
    ensures var late := ApplyUpdate(ApplySlot(s, data.slot, Confirmed), data, Processed);
            Lookup(late, data.pubkey, Confirmed) == Some(data)
    ensures var timely := ApplySlot(ApplyUpdate(s, data, Processed), data.slot, Confirmed);
            Lookup(timely, data.pubkey, Confirmed) == Some(data)
  {
    var v := s.accounts[data.pubkey];
    assert PromotionOf(v, data.slot, Confirmed).None?;
    assert ApplyUpdate(s, data, Processed).accounts[data.pubkey] == Updated(v, data, Processed);
    assert ApplySlot(s, data.slot, Confirmed).accounts[data.pubkey] == v;
  }

  /** Why an update must be one step. When the notice of its slot falls between deciding the commitment and
      applying the update, the accounts end up as if it had not, if and only if the slot was confirmed before, or
      the account has a confirmed version as recent, or it has the version already, of a slot above 0 (so that the
      notice confirms it). Otherwise the account misses that confirmation. */
  lemma SplitUpdateMissesConfirmation(s: Store, data: AccountData)
    requires WellFormed(s.accounts)
    ensures var noticed := ApplySlot(s, data.slot, Confirmed);
            var split := UpdateAs(noticed, data, Effective(s, data, Processed));
            var atomic := ApplyUpdate(noticed, data, Processed);
            && (split.accounts == atomic.accounts <==>
                  || data.slot in s.confirmedSlots
                  || (data.pubkey in s.accounts &&
                      var v := s.accounts[data.pubkey];
                      !OlderThan(v.confirmed, data.slot) || (data.slot in v.processed && 0 < data.slot)))
            && (split.accounts != atomic.accounts ==>
                  && Lookup(atomic, data.pubkey, Confirmed) == Some(data)
                  && Lookup(split, data.pubkey, Confirmed) == Lookup(s, data.pubkey, Confirmed) != Some(data)
                  && data.slot in split.confirmedSlots && data.slot in split.accounts[data.pubkey].processed)
  {
    var noticed := ApplySlot(s, data.slot, Confirmed);
    if data.pubkey in s.accounts {
      assert WellFormedVersions(data.pubkey, s.accounts[data.pubkey]);
    }
    if data.slot !in s.confirmedSlots {
      SplitAccounts(noticed, data);
    }
  }

  /** An update applied as processed though its slot is confirmed. */
  lemma SplitAccounts(s: Store, data: AccountData)
    requires data.slot in s.confirmedSlots
    ensures var split, atomic := UpdateAs(s, data, Processed), ApplyUpdate(s, data, Processed);
            && data.pubkey in split.accounts && data.pubkey in atomic.accounts
            && data.slot in split.accounts[data.pubkey].processed
            && split.confirmedSlots == s.confirmedSlots
            && (split.accounts == atomic.accounts <==>
                data.pubkey in s.accounts && !OlderThan(s.accounts[data.pubkey].confirmed, data.slot))
            && (split.accounts != atomic.accounts ==>
                  && Lookup(atomic, data.pubkey, Confirmed) == Some(data)
                  && Lookup(split, data.pubkey, Confirmed) == Lookup(s, data.pubkey, Confirmed))
  {
    var split, atomic := UpdateAs(s, data, Processed), ApplyUpdate(s, data, Processed);
    if data.pubkey in s.accounts {
      var v := s.accounts[data.pubkey];
      assert split.accounts == s.accounts[data.pubkey := Updated(v, data, Processed)];
      assert atomic.accounts == s.accounts[data.pubkey := Updated(v, data, Confirmed)];
      assert split.accounts[data.pubkey] == Updated(v, data, Processed);
      assert atomic.accounts[data.pubkey] == Updated(v, data, Confirmed);
    } else {
      assert split.accounts[data.pubkey] == Created(data, Processed);
      assert atomic.accounts[data.pubkey] == Created(data, Confirmed);
    }
  }
}
