/** The in-memory account store: versions by account, the confirmed slots, and the accounts
    each program has owned. Every method is one atomic step. */
module AccountStore {
  import opened Prelude
  import opened AccountVersions

  type OwnerIndex = map<Pubkey, set<Pubkey>>

  /** An account filter, reduced to the accounts it lets through. */
  type Filter = AccountData -> bool

  datatype Store = Store(
    accounts: map<Pubkey, Versions>,
    confirmedSlots: set<Slot>,
    owners: OwnerIndex)

  // ----- Specification on values -----

  function Indexed(owners: OwnerIndex, owner: Pubkey): set<Pubkey> {
    if owner in owners then owners[owner] else {}
  }

  function AddOwner(owners: OwnerIndex, account: Pubkey, owner: Pubkey): OwnerIndex {
    owners[owner := Indexed(owners, owner) + {account}]
  }

  /** Both owners stay indexed until the change of owner is finalized. */
  function UpdateOwner(owners: OwnerIndex, prev: AccountData, next: AccountData, c: Commitment): OwnerIndex {
    if prev.owner == next.owner then owners
    else
      var kept := if c.Finalized? && prev.owner in owners
                  then owners[prev.owner := owners[prev.owner] - {prev.pubkey}]
                  else owners;
      AddOwner(kept, next.pubkey, next.owner)
  }

  /** A processed update of a slot already confirmed is a confirmed update. */
  function Effective(s: Store, data: AccountData, c: Commitment): Commitment {
    if c.Processed? && data.slot in s.confirmedSlots then Confirmed else c
  }

  /** The update once its effective commitment is decided. */
  function UpdateAs(s: Store, data: AccountData, c': Commitment): Store {
    if data.pubkey !in s.accounts then
      Store(s.accounts[data.pubkey := Created(data, c')], s.confirmedSlots,
            AddOwner(s.owners, data.pubkey, data.owner))
    else
      var v := s.accounts[data.pubkey];
      var v' := Updated(v, data, c');
      if v' == v then s
      else Store(s.accounts[data.pubkey := v'], s.confirmedSlots,
                 if Read(v, c').Some? then UpdateOwner(s.owners, Read(v, c').value, data, c') else s.owners)
  }

  function ApplyUpdate(s: Store, data: AccountData, c: Commitment): Store {
    UpdateAs(s, data, Effective(s, data, c))
  }

  function ApplyInitialize(s: Store, data: AccountData): Store {
    if data.pubkey in s.accounts then ApplyUpdate(s, data, Finalized)
    else Store(s.accounts[data.pubkey := Created(data, Finalized)], s.confirmedSlots,
               AddOwner(s.owners, data.pubkey, data.owner))
  }

  function Promotions(accounts: map<Pubkey, Versions>, slot: Slot, c: Commitment): map<Pubkey, Promotion> {
    map pk | pk in accounts && PromotionOf(accounts[pk], slot, c).Some? :: PromotionOf(accounts[pk], slot, c).value
  }

  function PromotedAll(accounts: map<Pubkey, Versions>, slot: Slot, c: Commitment): map<Pubkey, Versions> {
    map pk | pk in accounts :: Promoted(accounts[pk], slot, c)
  }

  predicate ChangesOwner(p: Promotion) {
    p.1.Some? && p.1.value.owner != p.0.owner
  }

  function Gainers(ps: map<Pubkey, Promotion>, owner: Pubkey): set<Pubkey> {
    set pk | pk in ps && ChangesOwner(ps[pk]) && ps[pk].0.owner == owner
  }

  function Losers(ps: map<Pubkey, Promotion>, owner: Pubkey): set<Pubkey> {
    set pk | pk in ps && ChangesOwner(ps[pk]) && ps[pk].1.value.owner == owner
  }

  /** The index after all promotions, independently of the order in which they are applied. */
  function Reindexed(owners: OwnerIndex, ps: map<Pubkey, Promotion>, c: Commitment): OwnerIndex {
    map o | o in owners.Keys + (set pk | pk in ps && ChangesOwner(ps[pk]) :: ps[pk].0.owner) ::
      Indexed(owners, o) - (if c.Finalized? then Losers(ps, o) else {}) + Gainers(ps, o)
  }

  function ApplySlot(s: Store, slot: Slot, c: Commitment): Store {
    if c.Processed? then s
    else Store(PromotedAll(s.accounts, slot, c),
               if c.Confirmed? then s.confirmedSlots + {slot} else s.confirmedSlots - {slot},
               Reindexed(s.owners, Promotions(s.accounts, slot, c), c))
  }

  function Passes(data: AccountData, filters: Option<seq<Filter>>): bool {
    filters.None? || forall i | 0 <= i < |filters.value| :: filters.value[i](data)
  }

  /** What is visible of an account in the store at a commitment. */
  function Lookup(s: Store, pk: Pubkey, c: Commitment): Option<AccountData> {
    if pk in s.accounts then Read(s.accounts[pk], c) else None
  }

  /** Without filters every account passes; otherwise those that every filter lets through. */
  lemma PassesExactly(data: AccountData, filters: Option<seq<Filter>>)
    ensures Passes(data, filters) <==> filters == None || forall f | f in filters.value :: f(data)
  {
    if filters.Some? {
      assert forall i | 0 <= i < |filters.value| :: filters.value[i] in filters.value;
    }
  }

  /** A full scan of the accounts would show `d` as an account of `owner`. */
  ghost predicate Shown(s: Store, d: AccountData, owner: Pubkey, filters: Option<seq<Filter>>, c: Commitment) {
    Lookup(s, d.pubkey, c) == Some(d) && d.owner == owner && Passes(d, filters)
  }

  /** Every version is keyed by its own account and slot, and one processed version is always left. */
  ghost predicate WellFormedVersions(pk: Pubkey, v: Versions) {
    && v.pubkey == pk
    && v.processed != map[]
    && (forall k | k in v.processed :: v.processed[k].pubkey == pk && v.processed[k].slot == k)
    && (v.confirmed.Some? ==> v.confirmed.value.pubkey == pk)
    && (v.finalized.Some? ==> v.finalized.value.pubkey == pk)
  }

  ghost predicate WellFormed(accounts: map<Pubkey, Versions>) {
    forall pk | pk in accounts :: WellFormedVersions(pk, accounts[pk])
  }

  lemma NewestIsLast(pk: Pubkey, v: Versions)
    requires WellFormedVersions(pk, v)
    ensures var n := Read(v, Processed);
            n.Some? && n.value.pubkey == pk && n.value.slot == MaxOf(v.processed.Keys) &&
            n.value == v.processed[n.value.slot]
  {
  }

  lemma PrunedKeepsNewest(pk: Pubkey, v: Versions, slot: Slot)
    requires WellFormedVersions(pk, v)
    ensures PrunedThrough(v.processed, slot).Keys <= v.processed.Keys
    ensures PrunedThrough(v.processed, slot) != map[]
    ensures MaxOf(PrunedThrough(v.processed, slot).Keys) == MaxOf(v.processed.Keys)
    ensures forall k | k in PrunedThrough(v.processed, slot) :: PrunedThrough(v.processed, slot)[k] == v.processed[k]
  {
    var last := MaxOf(v.processed.Keys);
    var p := PrunedThrough(v.processed, slot);
    var above := map k | k in v.processed && slot < k :: v.processed[k];
    if above != map[] {
      var k :| k in above;
      assert slot < k <= last;
      assert last in above;
    }
    assert last in p;
  }

  lemma PromotedWellFormed(pk: Pubkey, v: Versions, slot: Slot, c: Commitment)
    requires WellFormedVersions(pk, v)
    ensures WellFormedVersions(pk, Promoted(v, slot, c))
  {
    PrunedKeepsNewest(pk, v, slot);
  }

  // ----- Listing promotions in the order the accounts happen to be visited -----

  function ByAccount(ps: seq<Promotion>): map<Pubkey, Promotion> {
    if ps == [] then map[] else ByAccount(ps[..|ps| - 1])[ps[|ps| - 1].0.pubkey := ps[|ps| - 1]]
  }

  ghost predicate DistinctAccounts(ds: seq<AccountData>) {
    forall i, j | 0 <= i < j < |ds| :: ds[i].pubkey != ds[j].pubkey
  }

  ghost predicate Mentions(ps: seq<Promotion>, pk: Pubkey) {
    exists i :: 0 <= i < |ps| && ps[i].0.pubkey == pk
  }

  ghost predicate NoneTwice(ps: seq<Promotion>) {
    forall i, j | 0 <= i < j < |ps| :: ps[i].0.pubkey != ps[j].0.pubkey
  }

  /** `ps` lists each promotion of `m` for the accounts `among`, once, in some order. */
  ghost predicate ListsAmong(ps: seq<Promotion>, m: map<Pubkey, Promotion>, among: set<Pubkey>) {
    && (forall i | 0 <= i < |ps| :: ps[i].0.pubkey in among && ps[i].0.pubkey in m && m[ps[i].0.pubkey] == ps[i])
    && NoneTwice(ps)
    && (forall pk | pk in m && pk in among :: Mentions(ps, pk))
  }

  ghost predicate Lists(ps: seq<Promotion>, m: map<Pubkey, Promotion>) {
    ListsAmong(ps, m, m.Keys)
  }

  lemma {:induction false} ByAccountAt(ps: seq<Promotion>, n: nat)
    requires n <= |ps|
    requires NoneTwice(ps)
    ensures forall pk :: pk in ByAccount(ps[..n]) <==> exists i :: 0 <= i < n && ps[i].0.pubkey == pk
    ensures forall i | 0 <= i < n :: ByAccount(ps[..n])[ps[i].0.pubkey] == ps[i]
  {
    if n > 0 {
      ByAccountAt(ps, n - 1);
      assert ps[..n][..n - 1] == ps[..n - 1];
      assert ByAccount(ps[..n]) == ByAccount(ps[..n - 1])[ps[n - 1].0.pubkey := ps[n - 1]];
      assert forall pk | pk in ByAccount(ps[..n]) :: exists i :: 0 <= i < n && ps[i].0.pubkey == pk by {
        assert ps[n - 1].0.pubkey in ByAccount(ps[..n]);
      }
    }
  }

  lemma ListedByAccount(ps: seq<Promotion>, m: map<Pubkey, Promotion>)
    requires Lists(ps, m)
    ensures ByAccount(ps) == m
  {
    ByAccountAt(ps, |ps|);
    assert ps[..|ps|] == ps;
    forall pk | pk in m ensures pk in ByAccount(ps) && ByAccount(ps)[pk] == m[pk] {
      assert Mentions(ps, pk);
    }
  }

  lemma SetsStep(done: map<Pubkey, Promotion>, p: Promotion, owner: Pubkey)
    requires p.0.pubkey !in done
    ensures Gainers(done[p.0.pubkey := p], owner) ==
            Gainers(done, owner) + if ChangesOwner(p) && p.0.owner == owner then {p.0.pubkey} else {}
    ensures Losers(done[p.0.pubkey := p], owner) ==
            Losers(done, owner) + if ChangesOwner(p) && p.1.value.owner == owner then {p.0.pubkey} else {}
    ensures p.0.pubkey !in Gainers(done, owner) && p.0.pubkey !in Losers(done, owner)
  {
  }

  lemma KeysStep(owners: OwnerIndex, done: map<Pubkey, Promotion>, p: Promotion, c: Commitment)
    requires p.0.pubkey !in done
    ensures Reindexed(owners, done[p.0.pubkey := p], c).Keys ==
            Reindexed(owners, done, c).Keys + if ChangesOwner(p) then {p.0.owner} else {}
  {
    var all := done[p.0.pubkey := p];
    assert all[p.0.pubkey] == p;
    forall o | o in Reindexed(owners, done, c).Keys ensures o in Reindexed(owners, all, c).Keys {
      if o !in owners {
        var pk :| pk in done && ChangesOwner(done[pk]) && done[pk].0.owner == o;
        assert all[pk] == done[pk];
      }
    }
  }

  /** What `UpdateOwner` does to the accounts indexed under one owner. */
  lemma UpdateOwnerAt(owners: OwnerIndex, prev: AccountData, next: AccountData, c: Commitment, o: Pubkey)
    requires prev.owner != next.owner
    ensures Indexed(UpdateOwner(owners, prev, next, c), o) ==
            Indexed(owners, o) - (if c.Finalized? && o == prev.owner then {prev.pubkey} else {})
            + (if o == next.owner then {next.pubkey} else {})
    ensures UpdateOwner(owners, prev, next, c).Keys == owners.Keys + {next.owner}
  {
  }

  /** What a batch of promotions does to the accounts indexed under one owner. */
  lemma ReindexedAt(owners: OwnerIndex, ps: map<Pubkey, Promotion>, c: Commitment, o: Pubkey)
    ensures Indexed(Reindexed(owners, ps, c), o) ==
            Indexed(owners, o) - (if c.Finalized? then Losers(ps, o) else {}) + Gainers(ps, o)
  {
    if o !in Reindexed(owners, ps, c) {
      NothingElsewhere(owners, ps, c, o);
    }
  }

  lemma SameIndex(a: OwnerIndex, b: OwnerIndex)
    requires a.Keys == b.Keys && forall o :: Indexed(a, o) == Indexed(b, o)
    ensures a == b
  {
    assert forall o | o in a :: Indexed(a, o) == a[o] && Indexed(b, o) == b[o];
  }

  /** One more promotion: the pointwise index equals one `UpdateOwner`. */
  lemma ReindexedStep(owners: OwnerIndex, done: map<Pubkey, Promotion>, p: Promotion, c: Commitment)
    requires p.0.pubkey !in done
    requires p.1.Some? ==> p.1.value.pubkey == p.0.pubkey
    ensures Reindexed(owners, done[p.0.pubkey := p], c) ==
            if p.1.Some? then UpdateOwner(Reindexed(owners, done, c), p.1.value, p.0, c)
            else Reindexed(owners, done, c)
  {
    var before := Reindexed(owners, done, c);
    var after := Reindexed(owners, done[p.0.pubkey := p], c);
    var expected := if p.1.Some? then UpdateOwner(before, p.1.value, p.0, c) else before;
    KeysStep(owners, done, p, c);
    forall o ensures Indexed(after, o) == Indexed(expected, o) {
      IndexedStep(owners, done, p, c, o);
      if ChangesOwner(p) { UpdateOwnerAt(before, p.1.value, p.0, c, o); }
    }
    if ChangesOwner(p) { UpdateOwnerAt(before, p.1.value, p.0, c, 0); }
    SameIndex(after, expected);
  }

  lemma IndexedStep(owners: OwnerIndex, done: map<Pubkey, Promotion>, p: Promotion, c: Commitment, o: Pubkey)
    requires p.0.pubkey !in done
    ensures Indexed(Reindexed(owners, done[p.0.pubkey := p], c), o) ==
            Indexed(Reindexed(owners, done, c), o)
            - (if c.Finalized? && ChangesOwner(p) && o == p.1.value.owner then {p.0.pubkey} else {})
            + (if ChangesOwner(p) && o == p.0.owner then {p.0.pubkey} else {})
  {
    ReindexedAt(owners, done, c, o);
    ReindexedAt(owners, done[p.0.pubkey := p], c, o);
    SetsStep(done, p, o);
  }

  lemma NothingToReindex(owners: OwnerIndex, c: Commitment)
    ensures Reindexed(owners, map[], c) == owners
  {
    var after := Reindexed(owners, map[], c);
    assert after.Keys == owners.Keys;
    forall o | o in owners ensures after[o] == owners[o] {
      assert Gainers(map[], o) == {} && Losers(map[], o) == {};
    }
  }

  lemma NothingElsewhere(owners: OwnerIndex, ps: map<Pubkey, Promotion>, c: Commitment, o: Pubkey)
    requires o !in Reindexed(owners, ps, c)
    ensures o !in owners && Gainers(ps, o) == {}
  {
    var gained := set pk | pk in ps && ChangesOwner(ps[pk]) :: ps[pk].0.owner;
    assert o !in gained;
    forall pk | pk in ps && ChangesOwner(ps[pk]) ensures ps[pk].0.owner != o {
      assert ps[pk].0.owner in gained;
    }
  }

  // ----- The object -----

  class InmemoryAccountStore {
    var accountStore: map<Pubkey, Versions>
    var confirmedSlotsMap: set<Slot>
    var accountsByOwner: OwnerIndex

    ghost function View(): Store
      reads this
    {
      Store(accountStore, confirmedSlotsMap, accountsByOwner)
    }

    constructor ()
      ensures View() == Store(map[], {}, map[])
    {
      accountStore, confirmedSlotsMap, accountsByOwner := map[], {}, map[];
    }

    method AddAccountOwner(account: Pubkey, owner: Pubkey)
      modifies this`accountsByOwner
      ensures accountsByOwner == AddOwner(old(accountsByOwner), account, owner)
    {
      if owner in accountsByOwner {
        accountsByOwner := accountsByOwner[owner := accountsByOwner[owner] + {account}];
      } else {
        assert {} + {account} == {account};
        accountsByOwner := accountsByOwner[owner := {account}];
      }
    }

    method ChangeOwner(prev: AccountData, next: AccountData, commitment: Commitment)
      requires prev.pubkey == next.pubkey
      modifies this`accountsByOwner
      ensures accountsByOwner == UpdateOwner(old(accountsByOwner), prev, next, commitment)
    {
      if prev.owner != next.owner {
        if commitment.Finalized? {
          if prev.owner in accountsByOwner {
            accountsByOwner := accountsByOwner[prev.owner := accountsByOwner[prev.owner] - {prev.pubkey}];
          }
        }
        AddAccountOwner(next.pubkey, next.owner);
      }
    }

    /** Returns whether the store changed. */
    method UpdateAccount(data: AccountData, commitment: Commitment) returns (updated: bool)
      requires WellFormed(accountStore)
      modifies this
      ensures WellFormed(accountStore)
      ensures View() == ApplyUpdate(old(View()), data, commitment)
      ensures updated <==> View() != old(View())
    {
      UpdateKeepsWellFormed(View(), data, commitment);
      UpdateChangesOne(View(), data, commitment);
      var effective := commitment;
      if commitment.Processed? {
        if data.slot in confirmedSlotsMap {
          effective := Confirmed;
        }
      }
      if data.pubkey in accountStore {
        ReadKeepsAccount(data.pubkey, accountStore[data.pubkey], effective);
        var entry := new AccountDataByCommitment.Entry(accountStore[data.pubkey]);
        var prev := entry.GetAccountData(effective);
        updated := entry.Update(data, effective);
        if updated {
          accountStore := accountStore[data.pubkey := entry.View()];
          if prev.Some? {
            ChangeOwner(prev.value, data, effective);
          }
        }
      } else {
        AddAccountOwner(data.pubkey, data.owner);
        var entry := new AccountDataByCommitment.New(data, effective);
        accountStore := accountStore[data.pubkey := entry.View()];
        updated := true;
      }
    }

    method InitializeOrUpdateAccount(data: AccountData)
      requires WellFormed(accountStore)
      modifies this
      ensures WellFormed(accountStore)
      ensures View() == ApplyInitialize(old(View()), data)
    {
      InitializeKeepsWellFormed(View(), data);
      if data.pubkey in accountStore {
        var _ := UpdateAccount(data, Finalized);
      } else {
        AddAccountOwner(data.pubkey, data.owner);
        var entry := new AccountDataByCommitment.Initialize(data);
        accountStore := accountStore[data.pubkey := entry.View()];
      }
    }

    method GetAccount(pk: Pubkey, commitment: Commitment) returns (data: Option<AccountData>)
      ensures data == Lookup(View(), pk, commitment)
    {
      if pk in accountStore {
        var entry := new AccountDataByCommitment.Entry(accountStore[pk]);
        data := entry.GetAccountData(commitment);
      } else {
        data := None;
      }
    }

    /** None when the program never owned an account here; otherwise each account whose visible
        version has that owner and passes the filters, once, among the indexed ones. */
    method GetProgramAccounts(program: Pubkey, filters: Option<seq<Filter>>, commitment: Commitment)
      returns (found: Option<seq<AccountData>>)
      requires WellFormed(accountStore)
      ensures found.Some? <==> program in accountsByOwner
      ensures found.Some? ==> DistinctAccounts(found.value)
      ensures found.Some? ==> forall d :: d in found.value <==>
                d.pubkey in accountsByOwner[program] && Shown(View(), d, program, filters, commitment)
      ensures found.Some? && filters.Some? ==>
                forall d, i | d in found.value && 0 <= i < |filters.value| :: filters.value[i](d)
    {
      if program !in accountsByOwner {
        return None;
      }
      var todo := accountsByOwner[program];
      var acc: seq<AccountData> := [];
      ghost var s := View();
      LookupKeepsAccount(s);
      while todo != {}
        invariant todo <= accountsByOwner[program]
        invariant DistinctAccounts(acc)
        invariant forall d :: d in acc <==>
                    d.pubkey in accountsByOwner[program] - todo && Shown(s, d, program, filters, commitment)
        decreases todo
      {
        var pk :| pk in todo;
        todo := todo - {pk};
        var data := GetAccount(pk, commitment);
        if data.Some? {
          if data.value.owner == program {
            if Passes(data.value, filters) {
              assert Shown(s, data.value, program, filters, commitment);
              assert forall i | 0 <= i < |acc| :: acc[i] in acc;
              acc := acc + [data.value];
            }
          }
        }
      }
      found := Some(acc);
    }

    /** Promotes every account's version of `slot`, and returns the promoted versions. */
    method ProcessSlotData(slot: Slot, commitment: Commitment) returns (changed: seq<AccountData>)
      requires WellFormed(accountStore)
      modifies this
      ensures WellFormed(accountStore)
      ensures View() == ApplySlot(old(View()), slot, commitment)
      ensures DistinctAccounts(changed)
      ensures forall d :: d in changed <==> IsAnnounced(Promotions(old(accountStore), slot, commitment), d)
    {
      ghost var all := Promotions(accountStore, slot, commitment);
      SlotKeepsWellFormed(View(), slot, commitment);
      match commitment {
        case Confirmed => confirmedSlotsMap := confirmedSlotsMap + {slot};
        case Finalized => confirmedSlotsMap := confirmedSlotsMap - {slot};
        case Processed =>
          assert all == map[];
          return [];
      }
      PromotionsKeepAccount(accountStore, slot, commitment);
      var promotions := PromoteAll(slot, commitment);
      ApplyOwnerChanges(promotions, all, commitment);
      changed := Announced(promotions, all);
    }

    /** The first pass: promote every entry, in whatever order the entries are visited. */
    method PromoteAll(slot: Slot, commitment: Commitment) returns (promotions: seq<Promotion>)
      requires forall pk | pk in Promotions(accountStore, slot, commitment) ::
                 Promotions(accountStore, slot, commitment)[pk].0.pubkey == pk
      modifies this`accountStore
      ensures accountStore == PromotedAll(old(accountStore), slot, commitment)
      ensures Lists(promotions, Promotions(old(accountStore), slot, commitment))
    {
      ghost var before := accountStore;
      ghost var after := PromotedAll(before, slot, commitment);
      ghost var all := Promotions(before, slot, commitment);
      var todo := accountStore.Keys;
      promotions := [];
      while todo != {}
        invariant todo <= before.Keys == accountStore.Keys
        invariant forall p | p in before :: accountStore[p] == if p in todo then before[p] else after[p]
        invariant ListsAmong(promotions, all, before.Keys - todo)
        decreases todo
      {
        var pk :| pk in todo;
        ListOneMore(promotions, all, before.Keys - todo, pk);
        assert before.Keys - (todo - {pk}) == before.Keys - todo + {pk};
        todo := todo - {pk};
        var promoted := PromoteEntry(pk, slot, commitment);
        if promoted.Some? {
          promotions := promotions + [promoted.value];
        }
      }
      assert accountStore == after;
    }

    method PromoteEntry(pk: Pubkey, slot: Slot, commitment: Commitment) returns (promoted: Option<Promotion>)
      requires pk in accountStore
      modifies this`accountStore
      ensures accountStore == old(accountStore)[pk := Promoted(old(accountStore)[pk], slot, commitment)]
      ensures promoted == PromotionOf(old(accountStore)[pk], slot, commitment)
    {
      var entry := new AccountDataByCommitment.Entry(accountStore[pk]);
      promoted := entry.PromoteSlotCommitment(slot, commitment);
      accountStore := accountStore[pk := entry.View()];
    }

    /** The second pass: re-index each promoted account whose owner changed. */
    method ApplyOwnerChanges(promotions: seq<Promotion>, ghost all: map<Pubkey, Promotion>, commitment: Commitment)
      requires Lists(promotions, all)
      requires forall p | p in promotions && p.1.Some? :: p.1.value.pubkey == p.0.pubkey
      modifies this`accountsByOwner
      ensures accountsByOwner == Reindexed(old(accountsByOwner), all, commitment)
    {
      ghost var before := accountsByOwner;
      NothingToReindex(before, commitment);
      for i := 0 to |promotions|
        invariant accountsByOwner == Reindexed(before, ByAccount(promotions[..i]), commitment)
      {
        var p := promotions[i];
        ByAccountAt(promotions, i);
        ReindexedStep(before, ByAccount(promotions[..i]), p, commitment);
        assert promotions[..i + 1][..i] == promotions[..i];
        if p.1.Some? {
          if p.1.value.owner != p.0.owner {
            ChangeOwner(p.1.value, p.0, commitment);
          }
        }
      }
      assert promotions[..|promotions|] == promotions;
      ListedByAccount(promotions, all);
    }
  }

  /** A promotion is announced unless it promoted the version already there. */
  ghost predicate IsAnnounced(all: map<Pubkey, Promotion>, d: AccountData) {
    d.pubkey in all && all[d.pubkey].0 == d && all[d.pubkey].1 != Some(d)
  }

  method Announced(promotions: seq<Promotion>, ghost all: map<Pubkey, Promotion>) returns (changed: seq<AccountData>)
    requires Lists(promotions, all)
    ensures DistinctAccounts(changed)
    ensures forall d :: d in changed <==> IsAnnounced(all, d)
  {
    changed := [];
    for i := 0 to |promotions|
      invariant DistinctAccounts(changed)
      invariant forall d :: d in changed <==>
                  exists j :: 0 <= j < i && promotions[j].0 == d && promotions[j].1 != Some(d)
    {
      var p := promotions[i];
      if p.1.Some? {
        if p.1.value != p.0 {
          assert forall k | 0 <= k < |changed| :: changed[k] in changed;
          changed := changed + [p.0];
        }
      } else {
        assert forall k | 0 <= k < |changed| :: changed[k] in changed;
        changed := changed + [p.0];
      }
    }
  }

  lemma ListOneMore(ps: seq<Promotion>, m: map<Pubkey, Promotion>, among: set<Pubkey>, pk: Pubkey)
    requires ListsAmong(ps, m, among) && pk !in among
    requires pk in m ==> m[pk].0.pubkey == pk
    ensures ListsAmong(if pk in m then ps + [m[pk]] else ps, m, among + {pk})
  {
    var ps' := if pk in m then ps + [m[pk]] else ps;
    forall q | q in m && q in among + {pk} ensures Mentions(ps', q) {
      if q == pk {
        assert ps'[|ps|].0.pubkey == q;
      } else {
        assert Mentions(ps, q);
        var i :| 0 <= i < |ps| && ps[i].0.pubkey == q;
        assert ps'[i].0.pubkey == q;
      }
    }
  }

  lemma ReadKeepsAccount(pk: Pubkey, v: Versions, c: Commitment)
    requires WellFormedVersions(pk, v)
    ensures Read(v, c).Some? ==> Read(v, c).value.pubkey == pk
  {
  }

  lemma LookupKeepsAccount(s: Store)
    requires WellFormed(s.accounts)
    ensures forall pk, c | Lookup(s, pk, c).Some? :: Lookup(s, pk, c).value.pubkey == pk
  {
  }

  lemma PromotionsKeepAccount(accounts: map<Pubkey, Versions>, slot: Slot, c: Commitment)
    requires WellFormed(accounts)
    ensures forall pk | pk in Promotions(accounts, slot, c) ::
              var p := Promotions(accounts, slot, c)[pk];
              p.0.pubkey == pk && (p.1.Some? ==> p.1.value.pubkey == pk)
  {
    forall pk | pk in accounts ensures Read(accounts[pk], c).Some? ==> Read(accounts[pk], c).value.pubkey == pk {
      ReadKeepsAccount(pk, accounts[pk], c);
    }
  }

  /** An update that leaves the accounts as they were changes nothing at all. */
  lemma UpdateChangesOne(s: Store, data: AccountData, c: Commitment)
    ensures var s' := ApplyUpdate(s, data, c);
            && (s'.accounts == s.accounts <==> s' == s)
            && (s'.accounts == s.accounts <==>
                data.pubkey in s.accounts &&
                Updated(s.accounts[data.pubkey], data, Effective(s, data, c)) == s.accounts[data.pubkey])
  {
    var s' := ApplyUpdate(s, data, c);
    assert data.pubkey in s'.accounts;
  }

  lemma UpdateKeepsWellFormed(s: Store, data: AccountData, c: Commitment)
    requires WellFormed(s.accounts)
    ensures WellFormed(ApplyUpdate(s, data, c).accounts)
  {
    var s' := ApplyUpdate(s, data, c);
    forall pk | pk in s'.accounts ensures WellFormedVersions(pk, s'.accounts[pk]) {
      if pk == data.pubkey && pk in s.accounts {
        assert data.slot in Updated(s.accounts[pk], data, Effective(s, data, c)).processed;
        assert WellFormedVersions(pk, s.accounts[pk]);
      } else if pk == data.pubkey {
        assert data.slot in s'.accounts[pk].processed;
      }
    }
  }

  lemma InitializeKeepsWellFormed(s: Store, data: AccountData)
    requires WellFormed(s.accounts)
    ensures WellFormed(ApplyInitialize(s, data).accounts)
  {
    if data.pubkey in s.accounts {
      UpdateKeepsWellFormed(s, data, Finalized);
    } else {
      assert data.slot in Created(data, Finalized).processed;
    }
  }

  lemma SlotKeepsWellFormed(s: Store, slot: Slot, c: Commitment)
    requires WellFormed(s.accounts)
    ensures WellFormed(ApplySlot(s, slot, c).accounts)
  {
    forall pk | pk in s.accounts ensures WellFormedVersions(pk, Promoted(s.accounts[pk], slot, c)) {
      PromotedWellFormed(pk, s.accounts[pk], slot, c);
    }
  }
}
