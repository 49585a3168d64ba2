/** Loading accounts on demand: concurrent calls of `get_account` share one loader per account.
    The calls are threads whose atomic steps interleave freely; the lock, the map of accounts being
    loaded and the set of subscribed accounts are the shared state. */
module SingleFlight {
  import opened Prelude

  type Tid = nat

  const RETRY_FETCHING_ACCOUNT: nat := 10
  const MAX_ACCOUNTS_PER_FILTER: nat := 100

  /** Where a call stands. It holds the lock while Deciding, Registering, Registered or Leaving,
      and is the loader from Registering to Leaving. */
  datatype Pc =
    | Called(pk: Pubkey)
    | Locking(pk: Pubkey)
    | Deciding(pk: Pubkey)
    | Registering(pk: Pubkey)
    | Registered(pk: Pubkey)
    | Fetching(pk: Pubkey, tries: nat)
    | Closing(pk: Pubkey)
    | Leaving(pk: Pubkey)
    | Waiting(pk: Pubkey)
    | Done(pk: Pubkey)
  {
    predicate HoldsLock() {
      Deciding? || Registering? || Registered? || Leaving?
    }

    predicate IsLoader() {
      Registering? || Registered? || Fetching? || Closing? || Leaving?
    }
  }

  datatype Response = Found | Missing | Failed

  datatype Action =
    | Call(t: Tid, pk: Pubkey)
    | ReadStore(t: Tid, hit: bool)
    | Acquire(t: Tid)
    | Decide(t: Tid)
    | Subscribe(t: Tid)
    | Unlock(t: Tid)
    | Fetch(t: Tid, response: Response)
    | Close(t: Tid)
    | WakeUp(t: Tid)

  /** `loading` maps an account to the call that created its notifier; the two histories record
      which call became loader of which account, and every request sent for an account. */
  datatype State = State(
    lock: Option<Tid>,
    loading: map<Pubkey, Tid>,
    subscribed: set<Pubkey>,
    calls: map<Tid, Pc>,
    loaders: seq<(Tid, Pubkey)>,
    requests: seq<Pubkey>)

  const INITIAL := State(None, map[], {}, map[], [], [])

  datatype Role = WaitForLoader | AlreadyTried | BecomeLoader

  function RoleOf(loading: map<Pubkey, Tid>, subscribed: set<Pubkey>, pk: Pubkey): Role {
    if pk in loading then WaitForLoader
    else if pk in subscribed then AlreadyTried
    else BecomeLoader
  }

  function MoveTo(s: State, t: Tid, pc: Pc): State {
    s.(calls := s.calls[t := pc])
  }

  function AfterFetch(pk: Pubkey, tries: nat, response: Response): Pc {
    if response.Failed? && tries + 1 < RETRY_FETCHING_ACCOUNT then Fetching(pk, tries + 1) else Closing(pk)
  }

  /** One atomic step; an action that is not enabled does nothing. */
  function Next(s: State, a: Action): State {
    if a.Call? then
      if a.t in s.calls then s else MoveTo(s, a.t, Called(a.pk))
    else if a.t !in s.calls then s
    else
      var pc := s.calls[a.t];
      match (a, pc)
      case (ReadStore(t, hit), Called(pk)) => MoveTo(s, t, if hit then Done(pk) else Locking(pk))
      case (Acquire(t), Locking(pk)) => if s.lock.None? then MoveTo(s, t, Deciding(pk)).(lock := Some(t)) else s
      case (Acquire(t), Closing(pk)) => if s.lock.None? then MoveTo(s, t, Leaving(pk)).(lock := Some(t)) else s
      case (Decide(t), Deciding(pk)) =>
        (match RoleOf(s.loading, s.subscribed, pk)
         case WaitForLoader => MoveTo(s, t, Waiting(pk)).(lock := None)
         case AlreadyTried => MoveTo(s, t, Done(pk)).(lock := None)
         case BecomeLoader =>
           MoveTo(s, t, Registering(pk)).(loading := s.loading[pk := t], loaders := s.loaders + [(t, pk)]))
      case (Subscribe(t), Registering(pk)) => MoveTo(s, t, Registered(pk)).(subscribed := s.subscribed + {pk})
      case (Unlock(t), Registered(pk)) => MoveTo(s, t, Fetching(pk, 0)).(lock := None)
      case (Fetch(t, response), Fetching(pk, tries)) =>
        MoveTo(s, t, AfterFetch(pk, tries, response)).(requests := s.requests + [pk])
      case (Close(t), Leaving(pk)) => MoveTo(s, t, Done(pk)).(loading := s.loading - {pk}, lock := None)
      case (WakeUp(t), Waiting(pk)) => MoveTo(s, t, Done(pk))
      case _ => s
  }

  function Interleaved(as_: seq<Action>): State {
    if as_ == [] then INITIAL else Next(Interleaved(as_[..|as_| - 1]), as_[|as_| - 1])
  }

  function RequestsFor(requests: seq<Pubkey>, pk: Pubkey): nat {
    if requests == [] then 0
    else RequestsFor(requests[..|requests| - 1], pk) + if requests[|requests| - 1] == pk then 1 else 0
  }

  ghost predicate EverLoaded(s: State, pk: Pubkey) {
    exists i :: 0 <= i < |s.loaders| && s.loaders[i].1 == pk
  }

  /** The lock is held by exactly the one call inside the critical section. */
  ghost predicate Exclusive(s: State) {
    forall t :: t in s.calls && s.calls[t].HoldsLock() <==> s.lock == Some(t)
  }

  ghost predicate EntriesAreActive(s: State) {
    forall pk | pk in s.loading ::
      s.loading[pk] in s.calls && s.calls[s.loading[pk]].IsLoader() && s.calls[s.loading[pk]].pk == pk
  }

  ghost predicate LoadersAreListed(s: State) {
    forall t | t in s.calls && s.calls[t].IsLoader() :: s.calls[t].pk in s.loading && s.loading[s.calls[t].pk] == t
  }

  /** The loading map lists exactly the active loaders, each with its account. */
  ghost predicate LoadingIsActive(s: State) {
    EntriesAreActive(s) && LoadersAreListed(s)
  }

  ghost predicate OneLoaderEach(s: State) {
    forall i, j | 0 <= i < j < |s.loaders| :: s.loaders[i].1 != s.loaders[j].1
  }

  /** Accounts that ever had a loader are exactly those being loaded or subscribed. */
  ghost predicate LoadersRemembered(s: State) {
    forall pk :: EverLoaded(s, pk) <==> pk in s.subscribed || pk in s.loading
  }

  /** An account being loaded is subscribed, except while its loader is about to subscribe it. */
  ghost predicate SubscribedWhileLoading(s: State) {
    forall t | t in s.calls && s.calls[t].IsLoader() :: s.calls[t].pk in s.subscribed <==> !s.calls[t].Registering?
  }

  ghost predicate Safe(s: State) {
    Exclusive(s) && LoadingIsActive(s) && OneLoaderEach(s) && LoadersRemembered(s) && SubscribedWhileLoading(s)
  }

  lemma NextExclusive(s: State, a: Action)
    requires Exclusive(s)
    ensures Exclusive(Next(s, a))
  {
  }

  lemma NextEntriesAreActive(s: State, a: Action)
    requires LoadingIsActive(s)
    ensures EntriesAreActive(Next(s, a))
  {
  }

  lemma NextLoadersAreListed(s: State, a: Action)
    requires LoadingIsActive(s)
    ensures LoadersAreListed(Next(s, a))
  {
  }

  /** Which accounts were ever loaded, after a step. */
  lemma NextEverLoaded(s: State, a: Action, pk: Pubkey)
    ensures EverLoaded(Next(s, a), pk) <==>
            EverLoaded(s, pk) || (Next(s, a).loaders != s.loaders && s.calls[a.t].pk == pk)
  {
    var s' := Next(s, a);
    if EverLoaded(s, pk) {
      var i :| 0 <= i < |s.loaders| && s.loaders[i].1 == pk;
      assert s'.loaders[i].1 == pk;
    }
    if s'.loaders != s.loaders {
      assert s'.loaders[|s.loaders|].1 == s.calls[a.t].pk;
    }
  }

  lemma NextOneLoaderEach(s: State, a: Action)
    requires OneLoaderEach(s) && LoadersRemembered(s)
    ensures OneLoaderEach(Next(s, a))
  {
    if Next(s, a).loaders != s.loaders {
      assert !EverLoaded(s, s.calls[a.t].pk);
    }
  }

  lemma NextLoadersRemembered(s: State, a: Action)
    requires Exclusive(s) && LoadingIsActive(s) && LoadersRemembered(s) && SubscribedWhileLoading(s)
    ensures LoadersRemembered(Next(s, a))
  {
    var s' := Next(s, a);
    forall pk ensures EverLoaded(s', pk) <==> pk in s'.subscribed || pk in s'.loading {
      NextEverLoaded(s, a, pk);
    }
  }

  lemma NextSubscribedWhileLoading(s: State, a: Action)
    requires Exclusive(s) && LoadingIsActive(s) && SubscribedWhileLoading(s)
    ensures SubscribedWhileLoading(Next(s, a))
  {
  }

  lemma {:induction false} InterleavingSafe(as_: seq<Action>)
    ensures Safe(Interleaved(as_))
  {
    if as_ != [] {
      var s, a := Interleaved(as_[..|as_| - 1]), as_[|as_| - 1];
      InterleavingSafe(as_[..|as_| - 1]);
      NextExclusive(s, a);
      NextEntriesAreActive(s, a);
      NextLoadersAreListed(s, a);
      NextOneLoaderEach(s, a);
      NextLoadersRemembered(s, a);
      NextSubscribedWhileLoading(s, a);
    }
  }

  /** In every interleaving at most one call ever becomes the loader of an account; an account is in the
      loading map exactly while its one loader is active; and whenever the lock is free, every account
      being loaded is subscribed. */
  lemma SingleLoader(as_: seq<Action>)
    ensures var s := Interleaved(as_);
            && (forall i, j | 0 <= i < j < |s.loaders| :: s.loaders[i].1 != s.loaders[j].1)
            && (forall pk ::
                  pk in s.loading <==> exists t :: t in s.calls && s.calls[t].IsLoader() && s.calls[t].pk == pk)
            && (forall t, u | t in s.calls && u in s.calls && s.calls[t].IsLoader() && s.calls[u].IsLoader() &&
                              s.calls[t].pk == s.calls[u].pk :: t == u)
            && (s.lock.None? ==> s.loading.Keys <= s.subscribed)
  {
    InterleavingSafe(as_);
    var s := Interleaved(as_);
    forall pk | pk in s.loading ensures exists t :: t in s.calls && s.calls[t].IsLoader() && s.calls[t].pk == pk {
      assert s.loading[pk] in s.calls;
    }
    forall pk | pk in s.loading && s.lock.None? ensures pk in s.subscribed {
      assert !s.calls[s.loading[pk]].HoldsLock();
    }
  }

  // ----- What becomes of a call -----

  /** Some call is loading the account. */
  ghost predicate BeingLoaded(s: State, pk: Pubkey) {
    exists t :: t in s.calls && s.calls[t].IsLoader() && s.calls[t].pk == pk
  }

  /** A call that missed the store waits if and only if the account is being loaded; answers that it was tried
      before if and only if the account is subscribed and no longer loading; and loads it if and only if no call
      ever did. */
  lemma DecidesExactly(as_: seq<Action>, t: Tid, pk: Pubkey)
    requires t in Interleaved(as_).calls && Interleaved(as_).calls[t] == Deciding(pk)
    ensures var s := Interleaved(as_);
            var pc := Next(s, Decide(t)).calls[t];
            && (pc == Waiting(pk) <==> BeingLoaded(s, pk))
            && (pc == Done(pk) <==> pk in s.subscribed && !BeingLoaded(s, pk))
            && (pc == Registering(pk) <==> !EverLoaded(s, pk))
  {
    InterleavingSafe(as_);
    var s := Interleaved(as_);
    if pk in s.loading { assert s.loading[pk] in s.calls; }
    assert BeingLoaded(s, pk) <==> pk in s.loading;
  }

  lemma DoneStays(s: State, a: Action, t: Tid)
    requires t in s.calls && s.calls[t].Done?
    ensures t in Next(s, a).calls && Next(s, a).calls[t] == s.calls[t]
  {
  }

  /** A call that found its account in the store is done, whatever happens afterwards. */
  lemma {:induction false} HitIsDone(as_: seq<Action>, n: nat, t: Tid, pk: Pubkey)
    requires n < |as_| && as_[n] == ReadStore(t, true)
    requires t in Interleaved(as_[..n]).calls && Interleaved(as_[..n]).calls[t] == Called(pk)
    ensures t in Interleaved(as_).calls && Interleaved(as_).calls[t] == Done(pk)
    decreases |as_|
  {
    var m := |as_| - 1;
    if n == m {
      assert as_[..n] == as_[..m];
    } else {
      assert as_[..m][..n] == as_[..n];
      HitIsDone(as_[..m], n, t, pk);
      DoneStays(Interleaved(as_[..m]), as_[m], t);
    }
  }

  /** A call that waits for a loader never loads itself: it waits until it is done. */
  lemma {:induction false} WaiterIsDone(as_: seq<Action>, n: nat, t: Tid, pk: Pubkey)
    requires n <= |as_| && t in Interleaved(as_[..n]).calls && Interleaved(as_[..n]).calls[t] == Waiting(pk)
    ensures t in Interleaved(as_).calls && Interleaved(as_).calls[t] in {Waiting(pk), Done(pk)}
    decreases |as_|
  {
    if n == |as_| {
      assert as_[..n] == as_;
    } else {
      var m := |as_| - 1;
      assert as_[..m][..n] == as_[..n];
      WaiterIsDone(as_[..m], n, t, pk);
      WaitingStays(Interleaved(as_[..m]), as_[m], t);
    }
  }

  lemma WaitingStays(s: State, a: Action, t: Tid)
    requires t in s.calls && (s.calls[t].Waiting? || s.calls[t].Done?)
    ensures t in Next(s, a).calls && (Next(s, a).calls[t] == s.calls[t] || Next(s, a).calls[t] == Done(s.calls[t].pk))
  {
  }

  /** A call that passed the store missed it. */
  ghost predicate Missed(as_: seq<Action>, t: Tid) {
    exists n :: 0 <= n < |as_| && as_[n] == ReadStore(t, false)
  }

  /** Whoever locks, waits or loads has missed the store first. */
  lemma {:induction false} OnlyMissesGoOn(as_: seq<Action>, t: Tid)
    requires t in Interleaved(as_).calls
    ensures var pc := Interleaved(as_).calls[t]; pc.Called? || pc.Done? || Missed(as_, t)
  {
    if as_ != [] {
      var m := |as_| - 1;
      var s := Interleaved(as_[..m]);
      if t in s.calls {
        OnlyMissesGoOn(as_[..m], t);
        if Missed(as_[..m], t) {
          var n :| 0 <= n < m && as_[..m][n] == ReadStore(t, false);
          assert as_[n] == ReadStore(t, false);
        } else if as_[m] == ReadStore(t, false) {
          assert Missed(as_, t);
        }
      }
    }
  }

  // ----- Requests -----

  /** Requests already sent for an account, by where its loader stands. */
  predicate RequestsOnTrack(requests: seq<Pubkey>, pc: Pc) {
    match pc
    case Fetching(pk, tries) => RequestsFor(requests, pk) == tries < RETRY_FETCHING_ACCOUNT
    case Registering(pk) => RequestsFor(requests, pk) == 0
    case Registered(pk) => RequestsFor(requests, pk) == 0
    case _ => true
  }

  ghost predicate RequestsBounded(s: State) {
    && (forall pk :: RequestsFor(s.requests, pk) <= 10)
    && (forall pk | RequestsFor(s.requests, pk) > 0 :: EverLoaded(s, pk))
    && (forall t | t in s.calls :: RequestsOnTrack(s.requests, s.calls[t]))
  }

  lemma OneMoreRequest(requests: seq<Pubkey>, pk: Pubkey, q: Pubkey)
    ensures RequestsFor(requests + [pk], q) == RequestsFor(requests, q) + if q == pk then 1 else 0
  {
    assert (requests + [pk])[..|requests|] == requests;
  }

  lemma NextRequestsFor(s: State, a: Action, pk: Pubkey)
    ensures RequestsFor(Next(s, a).requests, pk) ==
            RequestsFor(s.requests, pk) + if Next(s, a).requests != s.requests && s.calls[a.t].pk == pk then 1 else 0
  {
    if Next(s, a).requests != s.requests { OneMoreRequest(s.requests, s.calls[a.t].pk, pk); }
  }

  lemma FetchOnTrack(s: State, t: Tid, response: Response)
    requires RequestsBounded(s) && t in s.calls
    ensures RequestsOnTrack(Next(s, Fetch(t, response)).requests, Next(s, Fetch(t, response)).calls[t])
  {
    if s.calls[t].Fetching? { OneMoreRequest(s.requests, s.calls[t].pk, s.calls[t].pk); }
  }

  lemma DecideOnTrack(s: State, t: Tid)
    requires LoadersRemembered(s) && RequestsBounded(s) && t in s.calls
    ensures RequestsOnTrack(Next(s, Decide(t)).requests, Next(s, Decide(t)).calls[t])
  {
    if s.calls[t].Deciding? && RequestsFor(s.requests, s.calls[t].pk) > 0 {
      assert EverLoaded(s, s.calls[t].pk);
    }
  }

  /** The call that takes the step. */
  lemma MovedOnTrack(s: State, a: Action)
    requires LoadersRemembered(s) && RequestsBounded(s) && a.t in Next(s, a).calls
    ensures RequestsOnTrack(Next(s, a).requests, Next(s, a).calls[a.t])
  {
    if a.Fetch? && a.t in s.calls {
      FetchOnTrack(s, a.t, a.response);
    } else if a.Decide? && a.t in s.calls {
      DecideOnTrack(s, a.t);
    } else {
      OtherStepOnTrack(s, a);
    }
  }

  lemma OtherStepOnTrack(s: State, a: Action)
    requires RequestsBounded(s) && a.t in Next(s, a).calls && !a.Fetch? && !a.Decide?
    ensures RequestsOnTrack(Next(s, a).requests, Next(s, a).calls[a.t])
  {
    assert Next(s, a).requests == s.requests;
  }

  /** The other calls: a request is sent for an account of theirs by its one loader only. */
  lemma OthersOnTrack(s: State, a: Action, t: Tid)
    requires LoadingIsActive(s) && RequestsBounded(s) && t in s.calls && t != a.t
    ensures t in Next(s, a).calls && Next(s, a).calls[t] == s.calls[t]
    ensures RequestsOnTrack(Next(s, a).requests, s.calls[t])
  {
    NextRequestsFor(s, a, s.calls[t].pk);
    if Next(s, a).requests != s.requests {
      assert s.calls[a.t].IsLoader();
      assert s.calls[t].IsLoader() ==> s.calls[t].pk != s.calls[a.t].pk;
    }
  }

  lemma NextOnTrack(s: State, a: Action, t: Tid)
    requires LoadingIsActive(s) && LoadersRemembered(s) && RequestsBounded(s) && t in Next(s, a).calls
    ensures RequestsOnTrack(Next(s, a).requests, Next(s, a).calls[t])
  {
    if t == a.t {
      MovedOnTrack(s, a);
    } else {
      OthersOnTrack(s, a, t);
    }
  }

  lemma NextRequestsBounded(s: State, a: Action)
    requires LoadingIsActive(s) && LoadersRemembered(s) && RequestsBounded(s)
    ensures RequestsBounded(Next(s, a))
  {
    var s' := Next(s, a);
    forall pk ensures RequestsFor(s'.requests, pk) <= 10 {
      NextRequestsFor(s, a, pk);
    }
    forall pk | RequestsFor(s'.requests, pk) > 0 ensures EverLoaded(s', pk) {
      NextRequestsFor(s, a, pk);
      NextEverLoaded(s, a, pk);
    }
    forall t | t in s'.calls ensures RequestsOnTrack(s'.requests, s'.calls[t]) {
      NextOnTrack(s, a, t);
    }
  }

  /** Over a whole run, however many calls ask for it, an account costs at most ten requests. */
  lemma {:induction false} AtMostTenRequests(as_: seq<Action>, pk: Pubkey)
    ensures RequestsBounded(Interleaved(as_))
    ensures RequestsFor(Interleaved(as_).requests, pk) <= 10
  {
    if as_ != [] {
      AtMostTenRequests(as_[..|as_| - 1], pk);
      InterleavingSafe(as_[..|as_| - 1]);
      NextRequestsBounded(Interleaved(as_[..|as_| - 1]), as_[|as_| - 1]);
    }
  }

  // ----- The code between the atomic steps -----

  /** An account filter of a subscription: some accounts, or a program. */
  datatype AccountFilter = AccountFilter(accounts: seq<Pubkey>, program: Option<Pubkey>)

  class AccountsOnDemand {
    var accountsInLoading: map<Pubkey, Tid>
    var accountsSubscribed: set<Pubkey>
    var programFilters: seq<AccountFilter>

    constructor ()
      ensures accountsInLoading == INITIAL.loading && accountsSubscribed == INITIAL.subscribed && programFilters == []
    {
      accountsInLoading, accountsSubscribed, programFilters := map[], {}, [];
    }

    /** The critical section of a call that missed the store: its effect is that of the steps
        from Decide to the release of the lock, in any state with these shared fields. */
    method Enter(pk: Pubkey, t: Tid, ghost s: State) returns (role: Role)
      requires s.loading == accountsInLoading && s.subscribed == accountsSubscribed
      requires t in s.calls && s.calls[t] == Deciding(pk)
      modifies this`accountsInLoading, this`accountsSubscribed
      ensures var s' := Next(Next(Next(s, Decide(t)), Subscribe(t)), Unlock(t));
              && accountsInLoading == s'.loading && accountsSubscribed == s'.subscribed
              && s'.lock == None
              && s'.calls[t] == match role
                                case WaitForLoader => Waiting(pk)
                                case AlreadyTried => Done(pk)
                                case BecomeLoader => Fetching(pk, 0)
    {
      if pk in accountsInLoading {
        role := WaitForLoader;
      } else if pk in accountsSubscribed {
        role := AlreadyTried;
      } else {
        accountsInLoading := accountsInLoading[pk := t];
        accountsSubscribed := accountsSubscribed + {pk};
        role := BecomeLoader;
      }
    }

    /** The loader's second critical section. */
    method Leave(pk: Pubkey, t: Tid, ghost s: State) returns (notified: bool)
      requires s.loading == accountsInLoading && t in s.calls && s.calls[t] == Leaving(pk)
      modifies this`accountsInLoading
      ensures accountsInLoading == Next(s, Close(t)).loading
      ensures LoadingIsActive(s) ==> notified && pk !in accountsInLoading
    {
      notified := pk in accountsInLoading;
      accountsInLoading := accountsInLoading - {pk};
    }

    /** The subscribed accounts, in whatever order the set yields them. */
    method ListSubscribed() returns (accounts: seq<Pubkey>)
      ensures multiset(accounts) == multiset(accountsSubscribed)
    {
      var todo := accountsSubscribed;
      accounts := [];
      while todo != {}
        invariant todo <= accountsSubscribed
        invariant multiset(accounts) + multiset(todo) == multiset(accountsSubscribed)
        decreases todo
      {
        var pk :| pk in todo;
        todo := todo - {pk};
        accounts := accounts + [pk];
      }
    }

    /** Filters for a new subscription: the program filters, then every subscribed account once,
        a hundred at a time. */
    method RefreshSubscription() returns (filters: seq<AccountFilter>)
      ensures |programFilters| <= |filters| && filters[..|programFilters|] == programFilters
      ensures multiset(Flattened(filters[|programFilters|..])) == multiset(accountsSubscribed)
      ensures InFullChunks(filters[|programFilters|..])
    {
      var accounts := ListSubscribed();
      filters := programFilters;
      ghost var chunks := [];
      var i := 0;
      while i < |accounts|
        invariant 0 <= i <= |accounts|
        invariant filters == programFilters + chunks
        invariant Flattened(chunks) == accounts[..i]
        invariant InFullChunks(chunks)
        invariant i < |accounts| ==> forall k | 0 <= k < |chunks| :: |chunks[k].accounts| == MAX_ACCOUNTS_PER_FILTER
      {
        var j := if i + MAX_ACCOUNTS_PER_FILTER < |accounts| then i + MAX_ACCOUNTS_PER_FILTER else |accounts|;
        var filter := AccountFilter(accounts[i..j], None);
        FlattenedOneMore(chunks, filter);
        assert accounts[..i] + accounts[i..j] == accounts[..j];
        filters, chunks := filters + [filter], chunks + [filter];
        i := j;
      }
      assert accounts[..i] == accounts;
      assert filters[|programFilters|..] == chunks;
    }
  }

  /** Account filters of a hundred accounts each, only the last one shorter, and none empty. */
  ghost predicate InFullChunks(filters: seq<AccountFilter>) {
    forall i | 0 <= i < |filters| ::
      && filters[i].program.None? && 0 < |filters[i].accounts| <= 100
      && (i < |filters| - 1 ==> |filters[i].accounts| == 100)
  }

  function Flattened(filters: seq<AccountFilter>): seq<Pubkey> {
    if filters == [] then [] else Flattened(filters[..|filters| - 1]) + filters[|filters| - 1].accounts
  }

  lemma FlattenedOneMore(filters: seq<AccountFilter>, f: AccountFilter)
    ensures Flattened(filters + [f]) == Flattened(filters) + f.accounts
  {
    assert (filters + [f])[..|filters|] == filters;
  }

  /** The steps of a loader for the first `n` responses. */
  function Fetches(s: State, t: Tid, responses: nat -> Response, n: nat): State {
    if n == 0 then s else Next(Fetches(s, t, responses, n - 1), Fetch(t, responses(n - 1)))
  }

  lemma OneMoreFetch(s: State, t: Tid, pk: Pubkey, tries: nat, response: Response)
    requires t in s.calls && s.calls[t] == Fetching(pk, tries)
    ensures var s' := Next(s, Fetch(t, response));
            && s'.calls == s.calls[t := AfterFetch(pk, tries, response)]
            && RequestsFor(s'.requests, pk) == RequestsFor(s.requests, pk) + 1
  {
    OneMoreRequest(s.requests, pk, pk);
  }

  /** Where the loader stands after `n` requests of which all but the last failed. */
  lemma {:induction false} RequestsAnswered(s: State, t: Tid, pk: Pubkey, responses: nat -> Response, n: nat)
    requires t in s.calls && s.calls[t] == Fetching(pk, 0)
    requires 0 < n <= RETRY_FETCHING_ACCOUNT && forall i | 0 <= i < n - 1 :: responses(i).Failed?
    ensures var s' := Fetches(s, t, responses, n);
            && s'.calls == s.calls[t := AfterFetch(pk, n - 1, responses(n - 1))]
            && RequestsFor(s'.requests, pk) == RequestsFor(s.requests, pk) + n
  {
    var before := Fetches(s, t, responses, n - 1);
    if n > 1 { RequestsAnswered(s, t, pk, responses, n - 1); }
    assert before.calls == s.calls[t := Fetching(pk, n - 1)];
    OneMoreFetch(before, t, pk, n - 1, responses(n - 1));
  }

  /** The retry loop of the loader: it stops at the first answer, and after ten failures. Its requests
      are the fetch steps of the interleaving model, which bring the call to its closing section. */
  method FetchWithRetry(pk: Pubkey, responses: nat -> Response, t: Tid, ghost s: State)
    returns (answer: Response, sent: nat)
    requires t in s.calls && s.calls[t] == Fetching(pk, 0)
    ensures 0 < sent <= 10
    ensures forall i | 0 <= i < sent - 1 :: responses(i).Failed?
    ensures answer == responses(sent - 1)
    ensures answer.Failed? ==> sent == 10
    ensures var s' := Fetches(s, t, responses, sent);
            s'.calls == s.calls[t := Closing(pk)] &&
            RequestsFor(s'.requests, pk) == RequestsFor(s.requests, pk) + sent
  {
    answer, sent := Failed, 0;
    for i := 0 to RETRY_FETCHING_ACCOUNT
      invariant sent == i
      invariant forall k | 0 <= k < i :: responses(k).Failed?
      invariant i > 0 ==> answer == responses(i - 1)
    {
      answer := responses(i);
      sent := i + 1;
      if !answer.Failed? {
        RequestsAnswered(s, t, pk, responses, sent);
        return;
      }
    }
    RequestsAnswered(s, t, pk, responses, sent);
  }
}
