/** One account as the in-memory store keeps it: every processed version that is not yet
    finalized, ordered by slot, and the latest confirmed and finalized versions. */
module AccountVersions {
  import opened Prelude

  /** An account's state at one slot. `content` stands for lamports, data and the other fields. */
  datatype AccountData = AccountData(pubkey: Pubkey, owner: Pubkey, content: nat, slot: Slot)

  datatype Versions = Versions(
    pubkey: Pubkey,
    processed: map<Slot, AccountData>,
    confirmed: Option<AccountData>,
    finalized: Option<AccountData>)

  /** A promoted version, with the version it replaces. */
  type Promotion = (AccountData, Option<AccountData>)

  // ----- Specification on values -----

  /** The last entry of the ordered map. */
  function Newest(processed: map<Slot, AccountData>): Option<AccountData> {
    if processed == map[] then None else Some(processed[MaxOf(processed.Keys)])
  }

  function Read(v: Versions, c: Commitment): Option<AccountData> {
    match c
    case Processed => if Newest(v.processed).Some? then Newest(v.processed) else v.confirmed
    case Confirmed => v.confirmed
    case Finalized => v.finalized
  }

  function Created(data: AccountData, c: Commitment): Versions {
    Versions(data.pubkey, map[data.slot := data],
             if c.Processed? then None else Some(data),
             if c.Finalized? then Some(data) else None)
  }

  /** An absent version is older than every slot, slot 0 included. */
  predicate OlderThan(current: Option<AccountData>, slot: Slot) {
    current.None? || current.value.slot < slot
  }

  /** An absent version counts as one of slot 0. */
  function SlotOrZero(current: Option<AccountData>): Slot {
    if current.Some? then current.value.slot else 0
  }

  function Updated(v: Versions, data: AccountData, c: Commitment): Versions {
    Versions(v.pubkey,
             if data.slot in v.processed then v.processed else v.processed[data.slot := data],
             if !c.Processed? && OlderThan(v.confirmed, data.slot) then Some(data) else v.confirmed,
             if c.Finalized? && OlderThan(v.finalized, data.slot) then Some(data) else v.finalized)
  }

  /** The entries above `slot`, or the single newest entry when there are none. */
  function PrunedThrough(processed: map<Slot, AccountData>, slot: Slot): map<Slot, AccountData> {
    var above := map k | k in processed && slot < k :: processed[k];
    if above != map[] || processed == map[] then above
    else var last := MaxOf(processed.Keys); map[last := processed[last]]
  }

  function PromotionOf(v: Versions, slot: Slot, c: Commitment): Option<Promotion> {
    if !c.Processed? && slot in v.processed && SlotOrZero(Read(v, c)) < slot
    then Some((v.processed[slot], Read(v, c)))
    else None
  }

  function Promoted(v: Versions, slot: Slot, c: Commitment): Versions {
    var p := PromotionOf(v, slot, c);
    Versions(v.pubkey,
             if c.Finalized? then PrunedThrough(v.processed, slot) else v.processed,
             if c.Confirmed? && p.Some? then Some(p.value.0) else v.confirmed,
             if c.Finalized? && p.Some? then Some(p.value.0) else v.finalized)
  }

  // ----- The object the source updates in place -----

  class AccountDataByCommitment {
    var pubkey: Pubkey
    var processedAccounts: map<Slot, AccountData>
    var confirmedAccount: Option<AccountData>
    var finalizedAccount: Option<AccountData>

    function View(): Versions
      reads this
    {
      Versions(pubkey, processedAccounts, confirmedAccount, finalizedAccount)
    }

    constructor New(data: AccountData, commitment: Commitment)
      ensures View() == Created(data, commitment)
    {
      pubkey := data.pubkey;
      processedAccounts := map[data.slot := data];
      confirmedAccount := if commitment.Confirmed? || commitment.Finalized? then Some(data) else None;
      finalizedAccount := if commitment.Finalized? then Some(data) else None;
    }

    constructor Initialize(data: AccountData)
      ensures View() == Created(data, Finalized)
    {
      pubkey := data.pubkey;
      processedAccounts := map[data.slot := data];
      confirmedAccount := Some(data);
      finalizedAccount := Some(data);
    }

    /** The entry of a map, taken out to be updated. */
    constructor Entry(v: Versions)
      ensures View() == v
    {
      pubkey, processedAccounts, confirmedAccount, finalizedAccount := v.pubkey, v.processed, v.confirmed, v.finalized;
    }

    method GetAccountData(commitment: Commitment) returns (data: Option<AccountData>)
      ensures data == Read(View(), commitment)
    {
      match commitment {
        case Processed =>
          if processedAccounts != map[] {
            data := Some(processedAccounts[MaxOf(processedAccounts.Keys)]);
          } else {
            data := confirmedAccount;
          }
        case Confirmed => data := confirmedAccount;
        case Finalized => data := finalizedAccount;
      }
    }

    /** The returned flag says whether anything changed. */
    method Update(data: AccountData, commitment: Commitment) returns (updated: bool)
      modifies this
      ensures View() == Updated(old(View()), data, commitment)
      ensures updated <==> View() != old(View())
    {
      var updateConfirmed := confirmedAccount.None? || confirmedAccount.value.slot < data.slot;
      var updateFinalized := finalizedAccount.None? || finalizedAccount.value.slot < data.slot;
      updated := false;
      if data.slot !in processedAccounts {
        processedAccounts := processedAccounts[data.slot := data];
        updated := true;
      }
      match commitment {
        case Confirmed =>
          if updateConfirmed {
            confirmedAccount := Some(data);
            updated := true;
          }
        case Finalized =>
          if updateConfirmed {
            confirmedAccount := Some(data);
            updated := true;
          }
          if updateFinalized {
            finalizedAccount := Some(data);
            updated := true;
          }
        case Processed =>
      }
    }

    /** Pops first entries while more than one is left and the first is not above `slot`. */
    method PopThrough(slot: Slot)
      modifies this`processedAccounts
      ensures processedAccounts == PrunedThrough(old(processedAccounts), slot)
    {
      ghost var before := processedAccounts;
      while |processedAccounts| > 1 && MinOf(processedAccounts.Keys) <= slot
        invariant processedAccounts == map[] <==> before == map[]
        invariant PrunedThrough(processedAccounts, slot) == PrunedThrough(before, slot)
        decreases |processedAccounts|
      {
        PopKeepsPruned(processedAccounts, slot);
        var first := MinOf(processedAccounts.Keys);
        processedAccounts := processedAccounts - {first};
      }
      PrunedIsFixed(processedAccounts, slot);
    }

    method PromoteSlotCommitment(slot: Slot, commitment: Commitment) returns (promoted: Option<Promotion>)
      modifies this
      ensures View() == Promoted(old(View()), slot, commitment)
      ensures promoted == PromotionOf(old(View()), slot, commitment)
    {
      promoted := None;
      if slot in processedAccounts {
        var accountData := processedAccounts[slot];
        match commitment {
          case Processed =>
          case Confirmed =>
            if SlotOrZero(confirmedAccount) < slot {
              promoted := Some((accountData, confirmedAccount));
              confirmedAccount := Some(accountData);
            }
          case Finalized =>
            PopThrough(slot);
            if SlotOrZero(finalizedAccount) < slot {
              promoted := Some((accountData, finalizedAccount));
              finalizedAccount := Some(accountData);
            }
        }
      } else if commitment.Finalized? {
        PopThrough(slot);
      }
    }
  }

  lemma PopKeepsPruned(processed: map<Slot, AccountData>, slot: Slot)
    requires |processed| > 1 && MinOf(processed.Keys) <= slot
    ensures var rest := processed - {MinOf(processed.Keys)};
            rest != map[] && |rest| == |processed| - 1 &&
            PrunedThrough(rest, slot) == PrunedThrough(processed, slot)
  {
    var first := MinOf(processed.Keys);
    var rest := processed - {first};
    assert rest.Keys == processed.Keys - {first};
    assert |rest| == |rest.Keys| && |processed| == |processed.Keys|;
    assert (map k | k in rest && slot < k :: rest[k]) == (map k | k in processed && slot < k :: processed[k]);
    assert rest.Keys != {};
    var other :| other in rest;
    assert first < other <= MaxOf(processed.Keys);
    assert MaxOf(processed.Keys) in rest;
  }

  lemma PrunedIsFixed(processed: map<Slot, AccountData>, slot: Slot)
    requires |processed| <= 1 || MinOf(processed.Keys) > slot
    ensures PrunedThrough(processed, slot) == processed
  {
    if |processed| == 1 {
      var last := MaxOf(processed.Keys);
      assert |processed.Keys| == 1 && |processed.Keys - {last}| == 0;
      assert forall k | k in processed :: k == last || k in processed.Keys - {last};
      assert processed == map[last := processed[last]];
      assert (map k | k in processed && slot < k :: processed[k]) ==
             if slot < last then processed else map[];
    } else if processed != map[] {
      assert (map k | k in processed && slot < k :: processed[k]) == processed;
    }
  }
}
