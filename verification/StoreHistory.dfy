/** What any run of the store holds and shows, read off its events alone. */
module StoreHistory {
  import opened Prelude
  import opened AccountVersions
  import opened AccountStore
  import opened AccountStoreRuns

  // ----- The confirmed slots -----

  /** A confirmed notice of the slot has come, and no finalized one since. */
  ghost predicate SlotConfirmed(es: seq<Event>, slot: Slot) {
    exists i :: 0 <= i < |es| && ConfirmedSince(es, i, slot)
  }

  ghost predicate ConfirmedSince(es: seq<Event>, i: nat, slot: Slot) {
    i < |es| && es[i] == SlotNotice(slot, Confirmed) && forall j | i < j < |es| :: es[j] != SlotNotice(slot, Finalized)
  }

  lemma ConfirmedSinceStep(es: seq<Event>, e: Event, i: nat, slot: Slot)
    requires i < |es|
    ensures ConfirmedSince(es + [e], i, slot) <==> ConfirmedSince(es, i, slot) && e != SlotNotice(slot, Finalized)
  {
    var more := es + [e];
    assert more[|es|] == e && forall j | 0 <= j < |es| :: more[j] == es[j];
  }

  lemma SlotConfirmedStep(es: seq<Event>, e: Event, slot: Slot)
    ensures SlotConfirmed(es + [e], slot) <==>
            e == SlotNotice(slot, Confirmed) || (SlotConfirmed(es, slot) && e != SlotNotice(slot, Finalized))
  {
    var more := es + [e];
    if e == SlotNotice(slot, Confirmed) {
      assert ConfirmedSince(more, |es|, slot);
    }
    if SlotConfirmed(es, slot) && e != SlotNotice(slot, Finalized) {
      var i :| 0 <= i < |es| && ConfirmedSince(es, i, slot);
      ConfirmedSinceStep(es, e, i, slot);
      assert ConfirmedSince(more, i, slot);
    }
    if SlotConfirmed(more, slot) && e != SlotNotice(slot, Confirmed) {
      var i :| 0 <= i < |more| && ConfirmedSince(more, i, slot);
      ConfirmedSinceStep(es, e, i, slot);
    }
  }

  /** The confirmed set holds exactly the slots confirmed and not finalized since. */
  lemma {:induction false} ConfirmedSlotsExactly(es: seq<Event>, slot: Slot)
    ensures slot in Run(es).confirmedSlots <==> SlotConfirmed(es, slot)
  {
    if es != [] {
      var rest, e := es[..|es| - 1], es[|es| - 1];
      assert es == rest + [e];
      ConfirmedSlotsExactly(rest, slot);
      SlotConfirmedStep(rest, e, slot);
    }
  }

  // ----- The versions that came -----

  /** The event brings a version of the account. */
  predicate BringsVersion(e: Event, pk: Pubkey) {
    (e.Update? || e.Initialize?) && e.data.pubkey == pk
  }

  ghost predicate CameWith(es: seq<Event>, pk: Pubkey, slot: Slot) {
    exists e :: e in es && BringsVersion(e, pk) && e.data.slot == slot
  }

  lemma CameWithStep(es: seq<Event>, e: Event, pk: Pubkey, slot: Slot)
    ensures CameWith(es + [e], pk, slot) <==> CameWith(es, pk, slot) || (BringsVersion(e, pk) && e.data.slot == slot)
  {
    assert forall f :: f in es + [e] <==> f in es || f == e;
  }

  /** What one event does to the processed versions of an account. */
  lemma ProcessedStep(s: Store, e: Event, pk: Pubkey)
    requires WellFormed(s.accounts)
    ensures BringsVersion(e, pk) ==> pk in Step(s, e).accounts
    ensures BringsVersion(e, pk) ==>
              var before := if pk in s.accounts then s.accounts[pk].processed else map[];
              Step(s, e).accounts[pk].processed ==
              if e.data.slot in before then before else before[e.data.slot := e.data]
    ensures !BringsVersion(e, pk) ==> (pk in Step(s, e).accounts <==> pk in s.accounts)
    ensures !BringsVersion(e, pk) && pk in s.accounts && !(e.SlotNotice? && e.c.Finalized?) ==>
              Step(s, e).accounts[pk].processed == s.accounts[pk].processed
  {
    if BringsVersion(e, pk) && pk !in s.accounts {
      assert map[][e.data.slot := e.data] == map[e.data.slot := e.data];
    }
  }

  /** The newest version of an account has the greatest slot that ever came. */
  ghost predicate NewestCame(es: seq<Event>, pk: Pubkey, v: Versions) {
    v.processed != map[] &&
    var n := MaxOf(v.processed.Keys);
    CameWith(es, pk, n) && forall k: Slot | CameWith(es, pk, k) :: k <= n
  }

  lemma {:induction false} NewestIsGreatest(es: seq<Event>, pk: Pubkey)
    ensures pk in Run(es).accounts <==> exists k :: CameWith(es, pk, k)
    ensures pk in Run(es).accounts ==> NewestCame(es, pk, Run(es).accounts[pk])
  {
    if es != [] {
      var rest, e := es[..|es| - 1], es[|es| - 1];
      assert es == rest + [e];
      NewestIsGreatest(rest, pk);
      NewestStep(rest, e, pk);
    }
  }

  lemma NewestStep(rest: seq<Event>, e: Event, pk: Pubkey)
    requires pk in Run(rest).accounts <==> exists k :: CameWith(rest, pk, k)
    requires pk in Run(rest).accounts ==> NewestCame(rest, pk, Run(rest).accounts[pk])
    ensures pk in Run(rest + [e]).accounts <==> exists k :: CameWith(rest + [e], pk, k)
    ensures pk in Run(rest + [e]).accounts ==> NewestCame(rest + [e], pk, Run(rest + [e]).accounts[pk])
  {
    var s := Run(rest);
    assert (rest + [e])[..|rest|] == rest;
    RunWellFormed(rest);
    ProcessedStep(s, e, pk);
    forall k ensures CameWith(rest + [e], pk, k) <==>
                     CameWith(rest, pk, k) || (BringsVersion(e, pk) && e.data.slot == k)
    {
      CameWithStep(rest, e, pk, k);
    }
    if BringsVersion(e, pk) {
      assert CameWith(rest + [e], pk, e.data.slot);
      if pk in s.accounts { NewestOfMore(s.accounts[pk].processed, e.data); }
      else { assert (map[e.data.slot := e.data]).Keys == {e.data.slot}; }
    } else if pk in s.accounts {
      assert WellFormedVersions(pk, s.accounts[pk]);
      if e.SlotNotice? && e.c.Finalized? { PrunedKeepsNewest(pk, s.accounts[pk], e.slot); }
      var k :| CameWith(rest, pk, k);
      assert CameWith(rest + [e], pk, k);
    }
  }

  lemma NewestOfMore(processed: map<Slot, AccountData>, d: AccountData)
    requires processed != map[]
    ensures var more := if d.slot in processed then processed else processed[d.slot := d];
            MaxOf(more.Keys) == Max(MaxOf(processed.Keys), d.slot)
  {
    assert processed[d.slot := d].Keys == processed.Keys + {d.slot};
  }

  // ----- The versions that are stored -----

  /** A finalized notice at or past the slot drops a version for which a later one has come. */
  ghost predicate DropsNow(es: seq<Event>, e: Event, pk: Pubkey, slot: Slot) {
    e.SlotNotice? && e.c.Finalized? && slot <= e.slot && exists k: Slot :: slot < k && CameWith(es, pk, k)
  }

  /** The version that came at position `i` was not dropped since. */
  ghost predicate StoredSince(es: seq<Event>, i: nat, pk: Pubkey, slot: Slot) {
    && i < |es| && BringsVersion(es[i], pk) && es[i].data.slot == slot
    && forall j | i < j < |es| :: !DropsNow(es[..j], es[j], pk, slot)
  }

  ghost predicate Stored(es: seq<Event>, pk: Pubkey, slot: Slot) {
    exists i: nat :: StoredSince(es, i, pk, slot)
  }

  /** The version stored of the slot is `d`: the first to come that was not dropped since. */
  ghost predicate Holds(es: seq<Event>, pk: Pubkey, slot: Slot, d: AccountData) {
    exists i: nat :: HoldsFrom(es, i, pk, slot, d)
  }

  ghost predicate HoldsFrom(es: seq<Event>, i: nat, pk: Pubkey, slot: Slot, d: AccountData) {
    StoredSince(es, i, pk, slot) && es[i].data == d && forall m: nat | m < i :: !StoredSince(es, m, pk, slot)
  }

  lemma StoredSinceStep(es: seq<Event>, e: Event, i: nat, pk: Pubkey, slot: Slot)
    ensures StoredSince(es + [e], i, pk, slot) <==>
            if i == |es| then BringsVersion(e, pk) && e.data.slot == slot
            else StoredSince(es, i, pk, slot) && !DropsNow(es, e, pk, slot)
  {
    var more := es + [e];
    assert more[..|es|] == es;
    forall j | 0 <= j < |es| ensures more[j] == es[j] && more[..j] == es[..j] {
    }
  }

  lemma StoredStep(es: seq<Event>, e: Event, pk: Pubkey, slot: Slot)
    ensures Stored(es + [e], pk, slot) <==>
            (Stored(es, pk, slot) && !DropsNow(es, e, pk, slot)) || (BringsVersion(e, pk) && e.data.slot == slot)
  {
    if Stored(es, pk, slot) && !DropsNow(es, e, pk, slot) {
      var i: nat :| StoredSince(es, i, pk, slot);
      StoredSinceStep(es, e, i, pk, slot);
    }
    StoredSinceStep(es, e, |es|, pk, slot);
    if Stored(es + [e], pk, slot) {
      var i: nat :| StoredSince(es + [e], i, pk, slot);
      StoredSinceStep(es, e, i, pk, slot);
    }
  }

  lemma HoldsStep(es: seq<Event>, e: Event, pk: Pubkey, slot: Slot, d: AccountData)
    requires Holds(es, pk, slot, d) ==> Stored(es, pk, slot)
    ensures Holds(es + [e], pk, slot, d) <==>
            || (Holds(es, pk, slot, d) && !DropsNow(es, e, pk, slot))
            || (BringsVersion(e, pk) && e.data.slot == slot && e.data == d && !Stored(es, pk, slot))
  {
    var more := es + [e];
    forall i: nat ensures StoredSince(more, i, pk, slot) <==>
                          if i == |es| then BringsVersion(e, pk) && e.data.slot == slot
                          else StoredSince(es, i, pk, slot) && !DropsNow(es, e, pk, slot)
    {
      StoredSinceStep(es, e, i, pk, slot);
    }
    if Holds(es, pk, slot, d) && !DropsNow(es, e, pk, slot) {
      var i: nat :| HoldsFrom(es, i, pk, slot, d);
      assert HoldsFrom(more, i, pk, slot, d);
    }
    if BringsVersion(e, pk) && e.data.slot == slot && e.data == d && !Stored(es, pk, slot) {
      assert HoldsFrom(more, |es|, pk, slot, d);
    }
    if Holds(more, pk, slot, d) {
      var i: nat :| HoldsFrom(more, i, pk, slot, d);
      if i < |es| { assert HoldsFrom(es, i, pk, slot, d); }
    }
  }

  /** The processed version of a slot, if there is one. */
  function VersionAt(s: Store, pk: Pubkey, slot: Slot): Option<AccountData> {
    if pk in s.accounts && slot in s.accounts[pk].processed then Some(s.accounts[pk].processed[slot]) else None
  }

  lemma PrunedExactly(processed: map<Slot, AccountData>, slot: Slot, k: Slot)
    requires processed != map[]
    ensures k in PrunedThrough(processed, slot) <==> k in processed && (slot < k || k == MaxOf(processed.Keys))
    ensures k in PrunedThrough(processed, slot) ==> PrunedThrough(processed, slot)[k] == processed[k]
  {
    var above := map k | k in processed && slot < k :: processed[k];
    var last := MaxOf(processed.Keys);
    assert forall j :: j in above <==> j in processed && slot < j;
    if above != map[] {
      var j :| j in above;
      assert slot < j <= last && last in above;
    } else {
      assert last !in above;
    }
  }

  /** One event on the version of a slot. */
  lemma VersionStep(es: seq<Event>, e: Event, pk: Pubkey, slot: Slot)
    ensures var before, after := VersionAt(Run(es), pk, slot), VersionAt(Run(es + [e]), pk, slot);
            after == if BringsVersion(e, pk) && e.data.slot == slot && before.None? then Some(e.data)
                     else if DropsNow(es, e, pk, slot) then None
                     else before
  {
    var s := Run(es);
    assert (es + [e])[..|es|] == es;
    RunWellFormed(es);
    NewestIsGreatest(es, pk);
    ProcessedStep(s, e, pk);
    if e.SlotNotice? && e.c.Finalized? && pk in s.accounts {
      assert WellFormedVersions(pk, s.accounts[pk]);
      PrunedExactly(s.accounts[pk].processed, e.slot, slot);
    }
  }

  /** The versions stored, and their data, after any run. */
  lemma {:induction false} StoredExactly(es: seq<Event>, pk: Pubkey, slot: Slot, d: AccountData)
    ensures VersionAt(Run(es), pk, slot).Some? <==> Stored(es, pk, slot)
    ensures VersionAt(Run(es), pk, slot) == Some(d) <==> Holds(es, pk, slot, d)
  {
    if es != [] {
      var rest, e := es[..|es| - 1], es[|es| - 1];
      assert es == rest + [e];
      StoredExactly(rest, pk, slot, d);
      VersionStep(rest, e, pk, slot);
      StoredStep(rest, e, pk, slot);
      HoldsStep(rest, e, pk, slot, d);
    }
  }

  // ----- The confirmed and finalized versions -----

  /** An update sent as `u` counts for commitment `c`: as what it is sent, as confirmed too when it is finalized,
      and as confirmed when it is processed but its slot is confirmed. */
  ghost predicate CountsFor(es: seq<Event>, data: AccountData, u: Commitment, c: Commitment) {
    u.Finalized? || (c.Confirmed? && (u.Confirmed? || SlotConfirmed(es, data.slot)))
  }

  /** An update becomes the confirmed or finalized version exactly when it counts for that commitment and is
      later than the one there. */
  lemma UpdateRaises(es: seq<Event>, data: AccountData, u: Commitment, pk: Pubkey, c: Commitment)
    requires !c.Processed?
    ensures var before, after := Lookup(Run(es), pk, c), Lookup(Run(es + [Update(data, u)]), pk, c);
            after == if data.pubkey == pk && CountsFor(es, data, u, c) && OlderThan(before, data.slot) then Some(data)
                     else before
  {
    assert (es + [Update(data, u)])[..|es|] == es;
    ConfirmedSlotsExactly(es, data.slot);
  }

  lemma InitializeRaises(es: seq<Event>, data: AccountData, pk: Pubkey, c: Commitment)
    requires !c.Processed?
    ensures var before, after := Lookup(Run(es), pk, c), Lookup(Run(es + [Initialize(data)]), pk, c);
            after == if data.pubkey == pk && OlderThan(before, data.slot) then Some(data) else before
  {
    assert (es + [Initialize(data)])[..|es|] == es;
  }

  /** A notice of a slot above 0 brings an account's version of the slot, if it has one, to its commitment,
      unless the one there is as late. */
  lemma NoticeRaises(es: seq<Event>, slot: Slot, u: Commitment, pk: Pubkey, c: Commitment)
    requires !c.Processed?
    ensures var before, after := Lookup(Run(es), pk, c), Lookup(Run(es + [SlotNotice(slot, u)]), pk, c);
            var version := VersionAt(Run(es), pk, slot);
            after == if u == c && 0 < slot && version.Some? && OlderThan(before, slot) then version else before
  {
    assert (es + [SlotNotice(slot, u)])[..|es|] == es;
  }

  /** After `es`, the event brings version `d` of the account to commitment `c`. */
  ghost predicate RaisesNow(es: seq<Event>, e: Event, pk: Pubkey, c: Commitment, d: AccountData) {
    match e
    case Update(data, u) => data == d && d.pubkey == pk && CountsFor(es, data, u, c)
    case Initialize(data) => data == d && d.pubkey == pk
    case SlotNotice(slot, u) => u == c && 0 < slot && Holds(es, pk, slot, d)
  }

  /** One event on the confirmed or finalized version: the version brought if it is later, else the one before. */
  lemma LevelStep(es: seq<Event>, e: Event, pk: Pubkey, c: Commitment)
    requires !c.Processed?
    ensures var before, after := Lookup(Run(es), pk, c), Lookup(Run(es + [e]), pk, c);
            && (forall d | RaisesNow(es, e, pk, c, d) :: after == if OlderThan(before, d.slot) then Some(d) else before)
            && ((forall d :: !RaisesNow(es, e, pk, c, d)) ==> after == before)
  {
    match e
    case Update(data, u) =>
      UpdateRaises(es, data, u, pk, c);
      assert data.pubkey == pk && CountsFor(es, data, u, c) ==> RaisesNow(es, e, pk, c, data);
    case Initialize(data) =>
      InitializeRaises(es, data, pk, c);
      assert data.pubkey == pk ==> RaisesNow(es, e, pk, c, data);
    case SlotNotice(slot, u) =>
      NoticeRaises(es, slot, u, pk, c);
      NoticeBrings(es, slot, u, pk, c);
  }

  lemma NoticeBrings(es: seq<Event>, slot: Slot, u: Commitment, pk: Pubkey, c: Commitment)
    ensures var version := VersionAt(Run(es), pk, slot);
            && (version.Some? ==> version.value.slot == slot)
            && forall d :: RaisesNow(es, SlotNotice(slot, u), pk, c, d) <==> u == c && 0 < slot && version == Some(d)
  {
    var version := VersionAt(Run(es), pk, slot);
    RunWellFormed(es);
    if version.Some? { assert WellFormedVersions(pk, Run(es).accounts[pk]); }
    forall d ensures Holds(es, pk, slot, d) <==> version == Some(d) {
      StoredExactly(es, pk, slot, d);
    }
  }

  ghost predicate Raises(es: seq<Event>, n: nat, pk: Pubkey, c: Commitment, d: AccountData) {
    n < |es| && RaisesNow(es[..n], es[n], pk, c, d)
  }

  /** The first of the latest versions ever brought to the commitment, if any was. */
  ghost predicate IsFirstLatest(es: seq<Event>, pk: Pubkey, c: Commitment, r: Option<AccountData>) {
    if r.None? then forall n: nat, d :: !Raises(es, n, pk, c, d)
    else exists n: nat :: Raises(es, n, pk, c, r.value) && IsBest(es, n, pk, c, r.value.slot)
  }

  ghost predicate IsBest(es: seq<Event>, n: nat, pk: Pubkey, c: Commitment, slot: Slot) {
    forall m: nat, d | Raises(es, m, pk, c, d) :: d.slot < slot || (d.slot == slot && n <= m)
  }

  lemma RaisesStep(es: seq<Event>, e: Event, n: nat, pk: Pubkey, c: Commitment, d: AccountData)
    ensures Raises(es + [e], n, pk, c, d) <==> if n == |es| then RaisesNow(es, e, pk, c, d) else Raises(es, n, pk, c, d)
  {
    var more := es + [e];
    assert more[..|es|] == es;
    if n < |es| { assert more[n] == es[n] && more[..n] == es[..n]; }
  }

  /** After any run, the confirmed or finalized version of an account is the latest ever brought to that
      commitment: by an update that counts for it, or by a notice of a slot above 0 it had a version of. */
  lemma {:induction false} LevelExactly(es: seq<Event>, pk: Pubkey, c: Commitment)
    requires !c.Processed?
    ensures IsFirstLatest(es, pk, c, Lookup(Run(es), pk, c))
  {
    if es != [] {
      var rest, e := es[..|es| - 1], es[|es| - 1];
      assert es == rest + [e];
      LevelExactly(rest, pk, c);
      LevelStep(rest, e, pk, c);
      FirstLatestStep(rest, e, pk, c, Lookup(Run(rest), pk, c), Lookup(Run(es), pk, c));
    }
  }

  lemma FirstLatestStep(es: seq<Event>, e: Event, pk: Pubkey, c: Commitment,
                        before: Option<AccountData>, after: Option<AccountData>)
    requires IsFirstLatest(es, pk, c, before)
    requires forall d | RaisesNow(es, e, pk, c, d) :: after == if OlderThan(before, d.slot) then Some(d) else before
    requires (forall d :: !RaisesNow(es, e, pk, c, d)) ==> after == before
    ensures IsFirstLatest(es + [e], pk, c, after)
  {
    var more := es + [e];
    forall n: nat, d
      ensures Raises(more, n, pk, c, d) <==> if n == |es| then RaisesNow(es, e, pk, c, d) else Raises(es, n, pk, c, d)
    {
      RaisesStep(es, e, n, pk, c, d);
    }
    if before.Some? && after == before {
      var n: nat :| Raises(es, n, pk, c, before.value) && IsBest(es, n, pk, c, before.value.slot);
      assert Raises(more, n, pk, c, before.value) && IsBest(more, n, pk, c, before.value.slot);
    } else if after != before {
      var d :| RaisesNow(es, e, pk, c, d);
      assert after == Some(d);
      assert Raises(more, |es|, pk, c, d) && IsBest(more, |es|, pk, c, d.slot);
    }
  }

  // ----- The processed version -----

  /** The first to come of the versions with the greatest slot. */
  ghost predicate IsFirstNewest(es: seq<Event>, i: nat, pk: Pubkey) {
    && i < |es| && BringsVersion(es[i], pk)
    && forall m | 0 <= m < |es| && BringsVersion(es[m], pk) ::
         es[m].data.slot < es[i].data.slot || (es[m].data.slot == es[i].data.slot && i <= m)
  }

  /** After any run, the processed read is the first to come of the versions with the greatest slot that came. */
  lemma ProcessedReadExactly(es: seq<Event>, pk: Pubkey)
    ensures var r := Lookup(Run(es), pk, Processed);
            if r.None? then forall e | e in es :: !BringsVersion(e, pk)
            else exists i: nat :: IsFirstNewest(es, i, pk) && es[i].data == r.value
  {
    NewestIsGreatest(es, pk);
    RunWellFormed(es);
    if pk in Run(es).accounts {
      var v := Run(es).accounts[pk];
      NewestIsLast(pk, v);
      var n := MaxOf(v.processed.Keys);
      StoredExactly(es, pk, n, v.processed[n]);
      var i: nat :| HoldsFrom(es, i, pk, n, v.processed[n]);
      forall m | 0 <= m < |es| && BringsVersion(es[m], pk)
        ensures es[m].data.slot < n || (es[m].data.slot == n && i <= m)
      {
        assert CameWith(es, pk, es[m].data.slot);
        if es[m].data.slot == n { NewestNeverDropped(es, m, pk, n); }
      }
    } else {
      forall e | e in es ensures !BringsVersion(e, pk) {
        assert BringsVersion(e, pk) ==> CameWith(es, pk, e.data.slot);
      }
    }
  }

  lemma NewestNeverDropped(es: seq<Event>, m: nat, pk: Pubkey, n: Slot)
    requires m < |es| && BringsVersion(es[m], pk) && es[m].data.slot == n
    requires forall k: Slot | CameWith(es, pk, k) :: k <= n
    ensures StoredSince(es, m, pk, n)
  {
    forall j, k: Slot | m < j < |es| && CameWith(es[..j], pk, k) ensures k <= n {
      assert CameWith(es, pk, k);
    }
  }
}
