/** The refcounted subscription table of one lane (internal/brokers/subscriptions.go).

    Token order inside one transport call and the order of leases are not modelled; what
    each call subscribes or drops is. */
module Subscriptions {
  import opened Base

  type Token = int

  datatype Owner = Browser | Scanner | Strategy | Analytics

  datatype Counts = Counts(browser: nat, scanner: nat, strategy: nat, analytics: nat, total: nat)

  const ZERO: Counts := Counts(0, 0, 0, 0, 0)

  function Of(c: Counts, o: Owner): nat {
    match o
    case Browser => c.browser
    case Scanner => c.scanner
    case Strategy => c.strategy
    case Analytics => c.analytics
  }

  function Put(c: Counts, o: Owner, n: nat): Counts {
    match o
    case Browser => c.(browser := n)
    case Scanner => c.(scanner := n)
    case Strategy => c.(strategy := n)
    case Analytics => c.(analytics := n)
  }

  function Sum(c: Counts): nat { c.browser + c.scanner + c.strategy + c.analytics }

  function Increment(c: Counts, o: Owner): Counts { Put(c, o, Of(c, o) + 1).(total := c.total + 1) }

  /** dec, without the removal of an entry that reaches zero. */
  function Decrement(c: Counts, o: Owner): Counts {
    var c' := if Of(c, o) > 0 then Put(c, o, Of(c, o) - 1) else c;
    c'.(total := if c.total > 0 then c.total - 1 else 0)
  }

  /** Lease names: "owner:n" for Acquire, "owner:set" for a declared set. */
  datatype LeaseId = Numbered(owner: Owner, n: nat) | Declared(owner: Owner)

  datatype Lease = Lease(owner: Owner, tokens: set<Token>)

  datatype Call = Subscribe(tokens: set<Token>) | Unsubscribe(tokens: set<Token>)

  /** calls: what the transport of the current broker has been told, in order. */
  datatype Table = Table(counts: map<Token, Counts>, leases: map<LeaseId, Lease>, leaseSeq: nat, calls: seq<Call>)

  function NewTable(): Table { Table(map[], map[], 0, []) }

  function CountOf(counts: map<Token, Counts>, t: Token): Counts { if t in counts then counts[t] else ZERO }

  /** distinctValid as a set: positive tokens. */
  function Valid(tokens: seq<Token>): set<Token> { set t | t in tokens && t > 0 }

  // ---------------------------------------------------------------- counting

  function AddAll(counts: map<Token, Counts>, o: Owner, tokens: set<Token>): map<Token, Counts> {
    map t | t in counts.Keys + tokens :: if t in tokens then Increment(CountOf(counts, t), o) else counts[t]
  }

  /** A token that reaches zero leaves the table. */
  function DropAll(counts: map<Token, Counts>, o: Owner, tokens: set<Token>): map<Token, Counts> {
    map t | t in counts && (t in tokens ==> Decrement(counts[t], o).total > 0) ::
      if t in tokens then Decrement(counts[t], o) else counts[t]
  }

  function Tell(calls: seq<Call>, drop: set<Token>, add: set<Token>): seq<Call> {
    var after := if drop == {} then calls else calls + [Unsubscribe(drop)];
    if add == {} then after else after + [Subscribe(add)]
  }

  // ---------------------------------------------------------------- operations

  function Acquire(s: Table, o: Owner, tokens: set<Token>): Table {
    Table(AddAll(s.counts, o, tokens),
          s.leases[Numbered(o, s.leaseSeq + 1) := Lease(o, tokens)],
          s.leaseSeq + 1,
          Tell(s.calls, {}, tokens - s.counts.Keys))
  }

  function Release(s: Table, id: LeaseId): Table {
    if id !in s.leases then s
    else
      var l := s.leases[id];
      var counts := DropAll(s.counts, l.owner, l.tokens);
      s.(counts := counts, leases := s.leases - {id}, calls := Tell(s.calls, s.counts.Keys - counts.Keys, {}))
  }

  /** The owner's leases replaced by one declared set. */
  function SetLeases(leases: map<LeaseId, Lease>, o: Owner, want: set<Token>): map<LeaseId, Lease> {
    var others := map id | id in leases && leases[id].owner != o :: leases[id];
    if want == {} then others else others[Declared(o) := Lease(o, want)]
  }

  function HeldBy(s: Table, o: Owner): set<Token> {
    set id, t | id in s.leases && s.leases[id].owner == o && t in s.leases[id].tokens :: t
  }

  /** SetOwnerTokens: tokens no longer wanted are released once, new ones acquired, kept
      ones untouched, and every earlier lease of the owner is replaced. */
  function SetOwnerTokens(s: Table, o: Owner, want: set<Token>): Table {
    var held := HeldBy(s, o);
    Exchange(s, o, held - want, want - held).(leases := SetLeases(s.leases, o, want))
  }

  /** One owner's counts lowered on drop and raised on add, with the transport told. */
  function Exchange(s: Table, o: Owner, drop: set<Token>, add: set<Token>): Table {
    var dropped := DropAll(s.counts, o, drop);
    s.(counts := AddAll(dropped, o, add), calls := Tell(s.calls, s.counts.Keys - dropped.Keys, add - dropped.Keys))
  }

  /** ResetForBrokerSwitch: everything is forgotten without telling the transport; the next
      calls go to the new broker. Lease numbers go on. */
  function Reset(s: Table): Table { Table(map[], map[], s.leaseSeq, []) }

  // ---------------------------------------------------------------- the invariant

  function Holders(leases: map<LeaseId, Lease>, o: Owner, t: Token): set<LeaseId> {
    set id | id in leases && leases[id].owner == o && t in leases[id].tokens
  }

  /** Each entry's total is positive and the sum of its owners' counts. */
  predicate TotalsInv(counts: map<Token, Counts>) {
    forall t :: t in counts ==> counts[t].total == Sum(counts[t]) > 0
  }

  /** Each per-owner count is the number of that owner's leases on the token. */
  ghost predicate CountsMatch(s: Table) {
    forall t: Token, o: Owner :: Of(CountOf(s.counts, t), o) == |Holders(s.leases, o, t)|
  }

  function Replay(calls: seq<Call>): set<Token> {
    if calls == [] then {}
    else
      var before := Replay(calls[..|calls| - 1]);
      match calls[|calls| - 1]
      case Subscribe(ts) => before + ts
      case Unsubscribe(ts) => before - ts
  }

  /** No call repeats what the transport already knows. */
  predicate NoRedundantCall(calls: seq<Call>) {
    calls == [] ||
    (NoRedundantCall(calls[..|calls| - 1]) &&
     var before := Replay(calls[..|calls| - 1]);
     match calls[|calls| - 1]
     case Subscribe(ts) => ts != {} && ts !! before
     case Unsubscribe(ts) => ts != {} && ts <= before)
  }

  predicate UpstreamInv(s: Table) { Replay(s.calls) == s.counts.Keys && NoRedundantCall(s.calls) }

  predicate LeasesInv(s: Table) {
    forall id :: id in s.leases ==> s.leases[id].owner == id.owner && (id.Numbered? ==> id.n <= s.leaseSeq)
  }

  /** By how much the count of o on t exceeds its leases on it. */
  function Surplus(s: Table, o: Owner, t: Token): int { Of(CountOf(s.counts, t), o) - |Holders(s.leases, o, t)| }

  /** What holds after any calls whatever: counts may exceed the leases, never fall short. */
  ghost predicate Covered(s: Table) {
    && TotalsInv(s.counts) && UpstreamInv(s) && LeasesInv(s)
    && forall t: Token, o: Owner :: Surplus(s, o, t) >= 0
  }

  ghost predicate Inv(s: Table) {
    TotalsInv(s.counts) && CountsMatch(s) && UpstreamInv(s) && LeasesInv(s)
  }

  /** The table is exact when it is covered without a surplus. */
  lemma ExactIsNoSurplus(s: Table)
    ensures Inv(s) <==> Covered(s) && forall t: Token, o: Owner :: Surplus(s, o, t) == 0
  {
    if Inv(s) {
      forall t: Token, o: Owner
        ensures Surplus(s, o, t) == 0
      {
        assert Of(CountOf(s.counts, t), o) == |Holders(s.leases, o, t)|;
      }
    }
    if Covered(s) && forall t: Token, o: Owner :: Surplus(s, o, t) == 0 {
      forall t: Token, o: Owner
        ensures Of(CountOf(s.counts, t), o) == |Holders(s.leases, o, t)|
      {
        assert Surplus(s, o, t) == 0;
      }
    }
  }

  // ---------------------------------------------------------------- preservation

  lemma TellReplays(calls: seq<Call>, drop: set<Token>, add: set<Token>)
    requires NoRedundantCall(calls) && drop <= Replay(calls) && add !! (Replay(calls) - drop)
    ensures NoRedundantCall(Tell(calls, drop, add))
    ensures Replay(Tell(calls, drop, add)) == (Replay(calls) - drop) + add
  {
    var after := if drop == {} then calls else calls + [Unsubscribe(drop)];
    if drop != {} { assert after[..|calls|] == calls; }
    assert Replay(after) == Replay(calls) - drop && NoRedundantCall(after);
    if add != {} { assert (after + [Subscribe(add)])[..|after|] == after; }
  }

  lemma CountSteps(c: Counts, o: Owner)
    requires c.total == Sum(c)
    ensures Increment(c, o).total == Sum(Increment(c, o)) > 0
    ensures forall p :: Of(Increment(c, o), p) == Of(c, p) + if p == o then 1 else 0
    ensures Of(c, o) > 0 ==> Decrement(c, o).total == Sum(Decrement(c, o)) == Sum(c) - 1
    ensures Of(c, o) > 0 ==> forall p :: Of(Decrement(c, o), p) == Of(c, p) - if p == o then 1 else 0
  {
  }

  lemma AddAllAt(counts: map<Token, Counts>, o: Owner, tokens: set<Token>, t: Token, p: Owner)
    ensures Of(CountOf(AddAll(counts, o, tokens), t), p)
         == Of(CountOf(counts, t), p) + if p == o && t in tokens then 1 else 0
  {
  }

  lemma AddAllTotals(counts: map<Token, Counts>, o: Owner, tokens: set<Token>)
    requires TotalsInv(counts)
    ensures TotalsInv(AddAll(counts, o, tokens)) && AddAll(counts, o, tokens).Keys == counts.Keys + tokens
  {
    forall t | t in counts.Keys + tokens
      ensures var c := AddAll(counts, o, tokens)[t]; c.total == Sum(c) > 0
    {
      CountSteps(CountOf(counts, t), o);
    }
  }

  lemma DropAllAt(counts: map<Token, Counts>, o: Owner, tokens: set<Token>, t: Token, p: Owner)
    requires TotalsInv(counts) && (t in tokens ==> Of(CountOf(counts, t), o) > 0)
    ensures Of(CountOf(DropAll(counts, o, tokens), t), p)
         == Of(CountOf(counts, t), p) - if p == o && t in tokens then 1 else 0
  {
    if t in tokens { CountSteps(CountOf(counts, t), o); }
  }

  lemma DropAllTotals(counts: map<Token, Counts>, o: Owner, tokens: set<Token>)
    requires TotalsInv(counts) && forall t :: t in tokens ==> Of(CountOf(counts, t), o) > 0
    ensures TotalsInv(DropAll(counts, o, tokens)) && DropAll(counts, o, tokens).Keys <= counts.Keys
  {
    forall t | t in DropAll(counts, o, tokens)
      ensures var c := DropAll(counts, o, tokens)[t]; c.total == Sum(c) > 0
    {
      if t in tokens { CountSteps(counts[t], o); }
    }
  }

  lemma HoldersAdd(leases: map<LeaseId, Lease>, id: LeaseId, l: Lease, o: Owner, t: Token)
    requires id !in leases
    ensures |Holders(leases[id := l], o, t)|
         == |Holders(leases, o, t)| + if l.owner == o && t in l.tokens then 1 else 0
  {
    var h, h' := Holders(leases, o, t), Holders(leases[id := l], o, t);
    if l.owner == o && t in l.tokens { assert h' == h + {id}; } else { assert h' == h; }
  }

  lemma HoldersRemove(leases: map<LeaseId, Lease>, id: LeaseId, o: Owner, t: Token)
    requires id in leases
    ensures |Holders(leases - {id}, o, t)|
         == |Holders(leases, o, t)| - if leases[id].owner == o && t in leases[id].tokens then 1 else 0
  {
    assert (leases - {id})[id := leases[id]] == leases;
    HoldersAdd(leases - {id}, id, leases[id], o, t);
  }

  /** The transport follows a change of the table from before to kept + add. */
  lemma TellFollows(calls: seq<Call>, before: set<Token>, kept: set<Token>, add: set<Token>)
    requires NoRedundantCall(calls) && Replay(calls) == before && kept <= before
    ensures NoRedundantCall(Tell(calls, before - kept, add - kept))
    ensures Replay(Tell(calls, before - kept, add - kept)) == kept + add
  {
    assert before - (before - kept) == kept;
    TellReplays(calls, before - kept, add - kept);
    assert kept + (add - kept) == kept + add;
  }

  lemma AcquireSurplus(s: Table, o: Owner, tokens: set<Token>, p: Owner, t: Token)
    requires LeasesInv(s)
    ensures Surplus(Acquire(s, o, tokens), p, t) == Surplus(s, p, t)
  {
    var id := Numbered(o, s.leaseSeq + 1);
    assert id !in s.leases;
    AddAllAt(s.counts, o, tokens, t, p);
    HoldersAdd(s.leases, id, Lease(o, tokens), p, t);
  }

  lemma AcquireCovered(s: Table, o: Owner, tokens: set<Token>)
    requires Covered(s)
    ensures Covered(Acquire(s, o, tokens))
  {
    AddAllTotals(s.counts, o, tokens);
    var keys := s.counts.Keys;
    TellFollows(s.calls, keys, keys, tokens);
    assert keys - keys == {};
    forall t: Token, p: Owner
      ensures Surplus(Acquire(s, o, tokens), p, t) >= 0
    {
      AcquireSurplus(s, o, tokens, p, t);
      assert Surplus(s, p, t) >= 0;
    }
  }

  /** A lease is taken: it is on record, each of its tokens counts one more for its owner and
      nothing else counts differently, and the transport streams its tokens too. */
  lemma AcquireEffect(s: Table, o: Owner, tokens: set<Token>, t: Token, p: Owner)
    requires Covered(s)
    ensures var s', id := Acquire(s, o, tokens), Numbered(o, s.leaseSeq + 1);
            && id !in s.leases && s'.leases == s.leases[id := Lease(o, tokens)] && s'.leaseSeq == s.leaseSeq + 1
            && Of(CountOf(s'.counts, t), p) == Of(CountOf(s.counts, t), p) + (if p == o && t in tokens then 1 else 0)
            && (t in Replay(s'.calls) <==> t in Replay(s.calls) || t in tokens)
  {
    AddAllAt(s.counts, o, tokens, t, p);
    AcquireUpstream(s, o, tokens);
  }

  lemma AcquireUpstream(s: Table, o: Owner, tokens: set<Token>)
    requires Covered(s)
    ensures Replay(Acquire(s, o, tokens).calls) == Replay(s.calls) + tokens
  {
    AcquireCovered(s, o, tokens);
    AddAllTotals(s.counts, o, tokens);
  }

  lemma AcquireKeeps(s: Table, o: Owner, tokens: set<Token>)
    requires Inv(s)
    ensures Inv(Acquire(s, o, tokens))
  {
    ExactIsNoSurplus(s);
    AcquireCovered(s, o, tokens);
    forall t: Token, p: Owner
      ensures Surplus(Acquire(s, o, tokens), p, t) == 0
    {
      AcquireSurplus(s, o, tokens, p, t);
    }
    ExactIsNoSurplus(Acquire(s, o, tokens));
  }

  lemma LeasedIsCounted(s: Table, id: LeaseId, t: Token)
    requires Covered(s) && id in s.leases && t in s.leases[id].tokens
    ensures Of(CountOf(s.counts, t), s.leases[id].owner) > 0
  {
    assert id in Holders(s.leases, s.leases[id].owner, t);
    assert Surplus(s, s.leases[id].owner, t) >= 0;
  }

  lemma ReleaseSurplus(s: Table, id: LeaseId, p: Owner, t: Token)
    requires Covered(s)
    ensures Surplus(Release(s, id), p, t) == Surplus(s, p, t)
  {
    if id in s.leases {
      var l := s.leases[id];
      if t in l.tokens { LeasedIsCounted(s, id, t); }
      DropAllAt(s.counts, l.owner, l.tokens, t, p);
      HoldersRemove(s.leases, id, p, t);
    }
  }

  lemma ReleaseUpstream(s: Table, id: LeaseId)
    requires Covered(s) && id in s.leases
    ensures TotalsInv(Release(s, id).counts) && UpstreamInv(Release(s, id))
  {
    var s', l := Release(s, id), s.leases[id];
    forall t | t in l.tokens
      ensures Of(CountOf(s.counts, t), l.owner) > 0
    {
      LeasedIsCounted(s, id, t);
    }
    DropAllTotals(s.counts, l.owner, l.tokens);
    TellFollows(s.calls, s.counts.Keys, s'.counts.Keys, {});
    assert {} - s'.counts.Keys == {};
  }

  lemma ReleaseCovered(s: Table, id: LeaseId)
    requires Covered(s)
    ensures Covered(Release(s, id))
  {
    if id in s.leases { ReleaseUpstream(s, id); }
    forall t: Token, p: Owner
      ensures Surplus(Release(s, id), p, t) >= 0
    {
      ReleaseSurplus(s, id, p, t);
      assert Surplus(s, p, t) >= 0;
    }
  }

  lemma DropAllLeaves(counts: map<Token, Counts>, o: Owner, tokens: set<Token>, t: Token)
    requires TotalsInv(counts) && t in counts && (t in tokens ==> Of(counts[t], o) > 0)
    ensures t in DropAll(counts, o, tokens) <==> t !in tokens || counts[t].total > 1
  {
    CountSteps(counts[t], o);
  }

  /** A release releases: the lease is off the record, each of its tokens counts one less for
      its owner and nothing else counts differently, and the transport drops exactly the tokens
      that nobody else held. */
  lemma ReleaseEffect(s: Table, id: LeaseId, t: Token, p: Owner)
    requires Covered(s) && id in s.leases
    ensures var s', l := Release(s, id), s.leases[id];
            && s'.leases == s.leases - {id}
            && Of(CountOf(s'.counts, t), p)
               == Of(CountOf(s.counts, t), p) - (if p == l.owner && t in l.tokens then 1 else 0)
            && (t in Replay(s'.calls) <==>
                  t in Replay(s.calls) && !(t in l.tokens && CountOf(s.counts, t).total == 1))
  {
    var l := s.leases[id];
    if t in l.tokens { LeasedIsCounted(s, id, t); }
    DropAllAt(s.counts, l.owner, l.tokens, t, p);
    ReleaseUpstream(s, id);
    if t in s.counts { DropAllLeaves(s.counts, l.owner, l.tokens, t); }
  }

  lemma ReleaseKeeps(s: Table, id: LeaseId)
    requires Inv(s)
    ensures Inv(Release(s, id))
  {
    ExactIsNoSurplus(s);
    ReleaseCovered(s, id);
    forall t: Token, p: Owner
      ensures Surplus(Release(s, id), p, t) == 0
    {
      ReleaseSurplus(s, id, p, t);
    }
    ExactIsNoSurplus(Release(s, id));
  }

  /** No token is in two leases of o. */
  ghost predicate Disjoint(s: Table, o: Owner) { forall t: Token :: |Holders(s.leases, o, t)| <= 1 }

  lemma HeldIffHolders(s: Table, o: Owner, t: Token)
    ensures t in HeldBy(s, o) <==> |Holders(s.leases, o, t)| > 0
  {
    var h := Holders(s.leases, o, t);
    if t in HeldBy(s, o) {
      var id :| id in s.leases && s.leases[id].owner == o && t in s.leases[id].tokens;
      assert id in h;
    }
    if |h| > 0 {
      var id := Pick(h);
      assert t in HeldBy(s, o);
    }
  }

  lemma HoldersReplaced(leases: map<LeaseId, Lease>, o: Owner, want: set<Token>, p: Owner, t: Token)
    requires forall id :: id in leases ==> leases[id].owner == id.owner
    ensures |Holders(SetLeases(leases, o, want), p, t)|
         == if p == o then (if t in want then 1 else 0) else |Holders(leases, p, t)|
  {
    var h' := Holders(SetLeases(leases, o, want), p, t);
    if p != o {
      assert h' == Holders(leases, p, t);
    } else if t in want {
      assert h' == {Declared(o)};
    } else {
      assert h' == {};
    }
  }

  /** What SetOwnerTokens does to one count, whether or not the leases overlap. */
  lemma SetCountAt(s: Table, o: Owner, want: set<Token>, t: Token, p: Owner)
    requires Covered(s)
    ensures Of(CountOf(SetOwnerTokens(s, o, want).counts, t), p)
         == Of(CountOf(s.counts, t), p)
            + if p != o || (t in want <==> t in HeldBy(s, o)) then 0 else if t in want then 1 else -1
  {
    var held := HeldBy(s, o);
    HeldIffHolders(s, o, t);
    assert Surplus(s, o, t) >= 0;
    var dropped := DropAll(s.counts, o, held - want);
    DropAllAt(s.counts, o, held - want, t, p);
    AddAllAt(dropped, o, want - held, t, p);
  }

  /** A declaration turns every lease of the owner on a token but one into surplus. */
  lemma SetSurplus(s: Table, o: Owner, want: set<Token>, p: Owner, t: Token)
    requires Covered(s)
    ensures Surplus(SetOwnerTokens(s, o, want), p, t)
         == Surplus(s, p, t) + if p == o then Max(0, |Holders(s.leases, o, t)| - 1) else 0
  {
    SetCountAt(s, o, want, t, p);
    HoldersReplaced(s.leases, o, want, p, t);
    HeldIffHolders(s, o, t);
  }

  lemma ExchangeKeepsUpstream(s: Table, o: Owner, drop: set<Token>, add: set<Token>)
    requires TotalsInv(s.counts) && UpstreamInv(s)
    requires forall t :: t in drop ==> Of(CountOf(s.counts, t), o) > 0
    ensures TotalsInv(Exchange(s, o, drop, add).counts) && UpstreamInv(Exchange(s, o, drop, add))
  {
    var dropped := DropAll(s.counts, o, drop);
    DropAllTotals(s.counts, o, drop);
    AddAllTotals(dropped, o, add);
    TellFollows(s.calls, s.counts.Keys, dropped.Keys, add);
  }

  lemma HeldIsCounted(s: Table, o: Owner)
    requires Covered(s)
    ensures forall t :: t in HeldBy(s, o) ==> Of(CountOf(s.counts, t), o) > 0
  {
    forall t | t in HeldBy(s, o)
      ensures Of(CountOf(s.counts, t), o) > 0
    {
      HeldIffHolders(s, o, t);
      assert Surplus(s, o, t) >= 0;
    }
  }

  lemma SetKeepsUpstream(s: Table, o: Owner, want: set<Token>)
    requires Covered(s)
    ensures var s' := SetOwnerTokens(s, o, want);
            TotalsInv(s'.counts) && UpstreamInv(s')
  {
    HeldIsCounted(s, o);
    var held := HeldBy(s, o);
    ExchangeKeepsUpstream(s, o, held - want, want - held);
  }

  /** A declaration tells the transport exactly what changed: a token held by anybody before
      and after is neither dropped nor subscribed again. */
  lemma SetTellsChanges(s: Table, o: Owner, want: set<Token>)
    requires Covered(s)
    ensures var s' := SetOwnerTokens(s, o, want);
            var lost, gained := s.counts.Keys - s'.counts.Keys, s'.counts.Keys - s.counts.Keys;
            s'.calls == s.calls + (if lost == {} then [] else [Unsubscribe(lost)])
                                + (if gained == {} then [] else [Subscribe(gained)])
  {
    var held, s' := HeldBy(s, o), SetOwnerTokens(s, o, want);
    var dropped := DropAll(s.counts, o, held - want);
    assert s'.counts.Keys == dropped.Keys + (want - held);
    assert s.counts.Keys - s'.counts.Keys == s.counts.Keys - dropped.Keys;
    assert s'.counts.Keys - s.counts.Keys == (want - held) - dropped.Keys;
  }

  lemma SetKeepsLeases(s: Table, o: Owner, want: set<Token>)
    requires LeasesInv(s)
    ensures LeasesInv(SetOwnerTokens(s, o, want))
  {
  }

  lemma SetCovered(s: Table, o: Owner, want: set<Token>)
    requires Covered(s)
    ensures Covered(SetOwnerTokens(s, o, want))
  {
    SetKeepsUpstream(s, o, want);
    SetKeepsLeases(s, o, want);
    forall t: Token, p: Owner
      ensures Surplus(SetOwnerTokens(s, o, want), p, t) >= 0
    {
      SetSurplus(s, o, want, p, t);
      assert Surplus(s, p, t) >= 0;
    }
  }

  lemma DisjointSetKeeps(s: Table, o: Owner, want: set<Token>)
    requires Inv(s) && Disjoint(s, o)
    ensures Inv(SetOwnerTokens(s, o, want))
  {
    ExactIsNoSurplus(s);
    SetCovered(s, o, want);
    forall t: Token, p: Owner
      ensures Surplus(SetOwnerTokens(s, o, want), p, t) == 0
    {
      SetSurplus(s, o, want, p, t);
      assert |Holders(s.leases, o, t)| <= 1;
    }
    ExactIsNoSurplus(SetOwnerTokens(s, o, want));
  }

  lemma OverlapSetLeaks(s: Table, o: Owner, want: set<Token>, t: Token)
    requires Covered(s) && |Holders(s.leases, o, t)| >= 2
    ensures Surplus(SetOwnerTokens(s, o, want), o, t) > 0 && !Inv(SetOwnerTokens(s, o, want))
  {
    assert Surplus(s, o, t) >= 0;
    SetSurplus(s, o, want, o, t);
    ExactIsNoSurplus(SetOwnerTokens(s, o, want));
  }

  /** SetOwnerTokens leaves the counts exact if and only if no token was in two of the
      owner's leases: a doubly leased token is released once too few. */
  lemma SetExactlyWhenDisjoint(s: Table, o: Owner, want: set<Token>)
    requires Inv(s)
    ensures Inv(SetOwnerTokens(s, o, want)) <==> Disjoint(s, o)
  {
    if Disjoint(s, o) {
      DisjointSetKeeps(s, o, want);
    } else {
      var t: Token :| |Holders(s.leases, o, t)| > 1;
      ExactIsNoSurplus(s);
      OverlapSetLeaks(s, o, want, t);
    }
  }

  /** The same token leased twice by one owner. */
  function LeasedTwice(t: Token): Table { Acquire(Acquire(NewTable(), Browser, {t}), Browser, {t}) }

  lemma NewTableInv()
    ensures Inv(NewTable())
  {
    assert forall o: Owner, x: Token :: Holders(NewTable().leases, o, x) == {};
  }

  lemma LeasedTwiceInv(t: Token)
    ensures Inv(LeasedTwice(t))
  {
    NewTableInv();
    AcquireKeeps(NewTable(), Browser, {t});
    AcquireKeeps(Acquire(NewTable(), Browser, {t}), Browser, {t});
  }

  lemma LeasedTwiceHolders(t: Token)
    ensures |Holders(LeasedTwice(t).leases, Browser, t)| == 2
  {
    var l := Lease(Browser, {t});
    var m0: map<LeaseId, Lease> := map[];
    var m1 := m0[Numbered(Browser, 1) := l];
    assert Holders(m0, Browser, t) == {};
    HoldersAdd(m0, Numbered(Browser, 1), l, Browser, t);
    HoldersAdd(m1, Numbered(Browser, 2), l, Browser, t);
    assert LeasedTwice(t).leases == m1[Numbered(Browser, 2) := l];
  }

  lemma SurplusIsPresent(s: Table, o: Owner, t: Token)
    requires Surplus(s, o, t) > 0
    ensures t in s.counts
  {
  }

  /** Whatever the table, a token its owner leased twice survives an empty declaration: it
      stays counted and subscribed. */
  lemma DoubleLeaseLeaks(s: Table, o: Owner, t: Token)
    requires Covered(s) && |Holders(s.leases, o, t)| >= 2
    ensures var s' := SetOwnerTokens(s, o, {});
            t in s'.counts && t in Replay(s'.calls) && !Inv(s')
  {
    OverlapSetLeaks(s, o, {}, t);
    SurplusIsPresent(SetOwnerTokens(s, o, {}), o, t);
    SetKeepsUpstream(s, o, {});
  }

  lemma AloneEmptied(s: Table, o: Owner)
    requires forall id :: id in s.leases ==> s.leases[id].owner == o
    ensures SetOwnerTokens(s, o, {}).leases == map[]
  {
    assert SetLeases(s.leases, o, {}).Keys == {};
  }

  lemma LeasedTwiceAlone(t: Token)
    ensures forall id :: id in LeasedTwice(t).leases ==> LeasedTwice(t).leases[id].owner == Browser
  {
  }

  /** Two leases of one owner on one token, then an empty declaration: the token is still
      counted and subscribed although nobody holds it. */
  lemma OverlapLeaks(t: Token)
    ensures var s' := SetOwnerTokens(LeasedTwice(t), Browser, {});
            s'.leases == map[] && t in s'.counts && t in Replay(s'.calls) && !Inv(s')
  {
    LeasedTwiceAlone(t);
    AloneEmptied(LeasedTwice(t), Browser);
    LeasedTwiceInv(t);
    ExactIsNoSurplus(LeasedTwice(t));
    LeasedTwiceHolders(t);
    DoubleLeaseLeaks(LeasedTwice(t), Browser, t);
  }

  // ---------------------------------------------------------------- whole runs

  datatype Step =
    | AcquireStep(owner: Owner, tokens: seq<Token>)
    | ReleaseStep(id: LeaseId)
    | SetStep(owner: Owner, tokens: seq<Token>)
    | ResetStep

  /** Each owner either takes leases or declares sets (the owners in declares). */
  predicate Allowed(step: Step, declares: set<Owner>) {
    match step
    case AcquireStep(o, _) => o !in declares
    case ReleaseStep(id) => id.Numbered?
    case SetStep(o, _) => o in declares
    case ResetStep => true
  }

  function After(s: Table, step: Step): Table {
    match step
    case AcquireStep(o, tokens) => Acquire(s, o, Valid(tokens))
    case ReleaseStep(id) => Release(s, id)
    case SetStep(o, tokens) => SetOwnerTokens(s, o, Valid(tokens))
    case ResetStep => Reset(s)
  }

  function Run(s: Table, steps: seq<Step>): Table {
    if steps == [] then s else After(Run(s, steps[..|steps| - 1]), steps[|steps| - 1])
  }

  predicate StyleInv(s: Table, declares: set<Owner>) {
    forall id :: id in s.leases ==> (id.Declared? <==> id.owner in declares)
  }

  lemma DeclaringOwnersAreDisjoint(s: Table, declares: set<Owner>, o: Owner)
    requires LeasesInv(s) && StyleInv(s, declares) && o in declares
    ensures Disjoint(s, o)
  {
    forall t: Token
      ensures |Holders(s.leases, o, t)| <= 1
    {
      assert Holders(s.leases, o, t) <= {Declared(o)};
      SubsetOfOne(Holders(s.leases, o, t), Declared(o));
    }
  }

  lemma SubsetOfOne<T>(a: set<T>, x: T)
    requires a <= {x}
    ensures |a| <= 1
  {
    if x in a { assert a == {x}; } else { assert a == {}; }
  }

  lemma StyleKept(s: Table, step: Step, declares: set<Owner>)
    requires LeasesInv(s) && StyleInv(s, declares) && Allowed(step, declares)
    ensures StyleInv(After(s, step), declares)
  {
  }

  lemma StepKeeps(s: Table, step: Step, declares: set<Owner>)
    requires Inv(s) && StyleInv(s, declares) && Allowed(step, declares)
    ensures Inv(After(s, step))
  {
    match step
    case AcquireStep(o, tokens) => AcquireKeeps(s, o, Valid(tokens));
    case ReleaseStep(id) => ReleaseKeeps(s, id);
    case SetStep(o, tokens) =>
      DeclaringOwnersAreDisjoint(s, declares, o);
      SetExactlyWhenDisjoint(s, o, Valid(tokens));
    case ResetStep =>
  }

  /** Over every run in which no owner mixes leases with declared sets: each count is the
      number of the owner's live leases on the token, a token is in the table exactly when
      its total is positive, and the transport has been told precisely that set, with no
      redundant call. */
  lemma {:induction false} RefcountsHold(steps: seq<Step>, declares: set<Owner>)
    requires forall i :: 0 <= i < |steps| ==> Allowed(steps[i], declares)
    ensures Inv(Run(NewTable(), steps)) && StyleInv(Run(NewTable(), steps), declares)
  {
    if steps != [] {
      var before := Run(NewTable(), steps[..|steps| - 1]);
      RefcountsHold(steps[..|steps| - 1], declares);
      StepKeeps(before, steps[|steps| - 1], declares);
      StyleKept(before, steps[|steps| - 1], declares);
    }
  }

  /** A numbered lease that is gone, because it was released or because the broker was
      switched, never comes back: releasing it again changes nothing, ever. */
  lemma {:induction false} GoneLeaseStaysGone(s: Table, steps: seq<Step>, id: LeaseId)
    requires id.Numbered? && id.n <= s.leaseSeq && id !in s.leases
    ensures var s' := Run(s, steps);
            id.n <= s'.leaseSeq && id !in s'.leases && Release(s', id) == s'
  {
    if steps != [] { GoneLeaseStaysGone(s, steps[..|steps| - 1], id); }
  }

  /** In particular one that was just released: the second release, and any later one, does
      nothing, whatever happens in between. */
  lemma ReleasedStaysGone(s: Table, id: LeaseId, steps: seq<Step>)
    requires Covered(s) && id in s.leases && id.Numbered?
    ensures var s' := Run(Release(s, id), steps);
            id !in s'.leases && Release(s', id) == s'
  {
    ReleaseEffect(s, id, 0, id.owner);
    ReleaseCovered(s, id);
    GoneLeaseStaysGone(Release(s, id), steps, id);
  }

  // ---------------------------------------------------------------- any calls at all

  lemma StepCovered(s: Table, step: Step)
    requires Covered(s)
    ensures Covered(After(s, step))
  {
    match step
    case AcquireStep(o, tokens) => AcquireCovered(s, o, Valid(tokens));
    case ReleaseStep(id) => ReleaseCovered(s, id);
    case SetStep(o, tokens) => SetCovered(s, o, Valid(tokens));
    case ResetStep =>
  }

  /** Over every run, leases and declarations mixed at will: totals are right, the transport
      has been told exactly the tokens present, and no count falls short of the leases. */
  lemma {:induction false} AnyRunCovered(steps: seq<Step>)
    ensures Covered(Run(NewTable(), steps))
  {
    if steps == [] {
      NewTableInv();
      ExactIsNoSurplus(NewTable());
    } else {
      AnyRunCovered(steps[..|steps| - 1]);
      StepCovered(Run(NewTable(), steps[..|steps| - 1]), steps[|steps| - 1]);
    }
  }

  /** What overlapping leases have leaked: at each declaration since the last reset, the
      owner's leases on the token beyond the first. */
  function Leaked(steps: seq<Step>, o: Owner, t: Token): nat {
    if steps == [] then 0
    else
      var before := steps[..|steps| - 1];
      match steps[|steps| - 1]
      case ResetStep => 0
      case SetStep(p, _) =>
        Leaked(before, o, t) + if p == o then Max(0, |Holders(Run(NewTable(), before).leases, o, t)| - 1) else 0
      case _ => Leaked(before, o, t)
  }

  lemma StepSurplus(s: Table, step: Step, o: Owner, t: Token)
    requires Covered(s)
    ensures Surplus(After(s, step), o, t) ==
            match step
            case ResetStep => 0
            case SetStep(p, _) => Surplus(s, o, t) + if p == o then Max(0, |Holders(s.leases, o, t)| - 1) else 0
            case _ => Surplus(s, o, t)
  {
    match step
    case AcquireStep(p, tokens) => AcquireSurplus(s, p, Valid(tokens), o, t);
    case ReleaseStep(id) => ReleaseSurplus(s, id, o, t);
    case SetStep(p, tokens) => SetSurplus(s, p, Valid(tokens), o, t);
    case ResetStep => assert Holders(Reset(s).leases, o, t) == {};
  }

  /** Conservation: in every run each count is the owner's live leases on the token plus
      exactly what overlaps have leaked since the last reset. */
  lemma {:induction false} CountsAreLeasesPlusLeaks(steps: seq<Step>, o: Owner, t: Token)
    ensures Surplus(Run(NewTable(), steps), o, t) == Leaked(steps, o, t)
  {
    if steps == [] {
      assert Holders(NewTable().leases, o, t) == {};
    } else {
      var before := steps[..|steps| - 1];
      CountsAreLeasesPlusLeaks(before, o, t);
      AnyRunCovered(before);
      StepSurplus(Run(NewTable(), before), steps[|steps| - 1], o, t);
    }
  }
}
