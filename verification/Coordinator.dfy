/** The subscription coordinator as the mutable object it is
    (internal/brokers/subscriptions.go), each method tied to module Subscriptions. */
module Coordinator {
  import opened Base
  import opened Subscriptions

  lemma AddAllOne(counts: map<Token, Counts>, o: Owner, done: set<Token>, t: Token)
    requires t !in done
    ensures AddAll(counts, o, done + {t}) == AddAll(counts, o, done)[t := Increment(CountOf(counts, t), o)]
    ensures CountOf(AddAll(counts, o, done), t) == CountOf(counts, t)
  {
  }

  lemma DropAllOne(counts: map<Token, Counts>, o: Owner, done: set<Token>, t: Token)
    requires t !in done
    ensures var c := DropAll(counts, o, done);
            && (t in c <==> t in counts) && (t in c ==> c[t] == counts[t])
            && DropAll(counts, o, done + {t}) ==
               if t !in c then c else if Decrement(c[t], o).total == 0 then c - {t} else c[t := Decrement(c[t], o)]
  {
  }

  /** distinctValid: the positive tokens, each once. */
  method DistinctValid(tokens: seq<Token>) returns (out: seq<Token>)
    ensures Elements(out) == Valid(tokens) && Distinct(out)
    ensures forall t :: t in out <==> t in tokens && t > 0
  {
    out := [];
    var seen: set<Token> := {};
    for i := 0 to |tokens|
      invariant seen == Elements(out) == Valid(tokens[..i]) && Distinct(out)
    {
      var t := tokens[i];
      assert Valid(tokens[..i + 1]) == Valid(tokens[..i]) + if t > 0 then {t} else {};
      if t > 0 && t !in seen {
        seen := seen + {t};
        out := out + [t];
      }
    }
    assert tokens[..|tokens|] == tokens;
    assert forall t :: t in out <==> t in Elements(out);
  }

  /** Count every token of a list of distinct ones; sub are the first-time ones. */
  method CountUp(counts: map<Token, Counts>, o: Owner, tokens: seq<Token>)
    returns (counts': map<Token, Counts>, sub: seq<Token>)
    requires Distinct(tokens) && forall t :: t in counts ==> counts[t].total > 0
    ensures counts' == AddAll(counts, o, Elements(tokens))
    ensures Elements(sub) == Elements(tokens) - counts.Keys
  {
    counts', sub := counts, [];
    for i := 0 to |tokens|
      invariant counts' == AddAll(counts, o, Elements(tokens[..i]))
      invariant Elements(sub) == Elements(tokens[..i]) - counts.Keys
    {
      var t := tokens[i];
      ElementsNext(tokens, i);
      AddAllOne(counts, o, Elements(tokens[..i]), t);
      ElementsAppend(sub, t);
      var e := if t in counts' then counts'[t] else ZERO;
      var wasZero := e.total == 0;
      counts' := counts'[t := Increment(e, o)];
      if wasZero { sub := sub + [t]; }
    }
    assert tokens[..|tokens|] == tokens;
  }

  /** dec on every token of a list of distinct ones; gone are those nobody holds any more. */
  method CountDown(counts: map<Token, Counts>, o: Owner, tokens: seq<Token>)
    returns (counts': map<Token, Counts>, gone: seq<Token>)
    requires Distinct(tokens)
    ensures counts' == DropAll(counts, o, Elements(tokens))
    ensures Elements(gone) == counts.Keys - counts'.Keys
  {
    counts', gone := counts, [];
    for i := 0 to |tokens|
      invariant counts' == DropAll(counts, o, Elements(tokens[..i]))
      invariant Elements(gone) == counts.Keys - counts'.Keys
    {
      var t := tokens[i];
      ElementsNext(tokens, i);
      DropAllOne(counts, o, Elements(tokens[..i]), t);
      ElementsAppend(gone, t);
      if t in counts' {
        var e := Decrement(counts'[t], o);
        if e.total == 0 {
          counts' := counts' - {t};
          gone := gone + [t];
        } else {
          counts' := counts'[t := e];
        }
      }
    }
    assert tokens[..|tokens|] == tokens;
  }

  class Lane {
    var counts: map<Token, Counts>
    var leases: map<LeaseId, Lease>
    var leaseSeq: nat
    var calls: seq<Call>

    function State(): Table
      reads this
    {
      Table(counts, leases, leaseSeq, calls)
    }

    constructor ()
      ensures State() == NewTable() && Inv(State())
    {
      NewTableInv();
      counts, leases, leaseSeq, calls := map[], map[], 0, [];
    }

    method Acquire(o: Owner, tokens: seq<Token>) returns (id: LeaseId)
      requires Covered(State())
      modifies this
      ensures State() == Subscriptions.Acquire(old(State()), o, Valid(tokens))
      ensures Covered(State()) && (Inv(old(State())) ==> Inv(State()))
      ensures id == Numbered(o, leaseSeq) && id !in old(leases)
      ensures leases == old(leases)[id := Lease(o, Valid(tokens))]
    {
      AcquireCovered(State(), o, Valid(tokens));
      if Inv(State()) { AcquireKeeps(State(), o, Valid(tokens)); }
      id := RecordLease(o, tokens);
    }

    method RecordLease(o: Owner, tokens: seq<Token>) returns (id: LeaseId)
      requires TotalsInv(counts)
      modifies this
      ensures State() == Subscriptions.Acquire(old(State()), o, Valid(tokens)) && id == Numbered(o, leaseSeq)
    {
      var unique := DistinctValid(tokens);
      leaseSeq := leaseSeq + 1;
      id := Numbered(o, leaseSeq);
      leases := leases[id := Lease(o, Valid(tokens))];
      var sub;
      counts, sub := CountUp(counts, o, unique);
      if |sub| > 0 {
        assert sub[0] in Elements(sub);
        calls := calls + [Subscribe(Elements(sub))];
      }
    }

    method ReleaseLease(id: LeaseId)
      requires Covered(State())
      modifies this
      ensures State() == Release(old(State()), id)
      ensures Covered(State()) && (Inv(old(State())) ==> Inv(State()))
      ensures leases == old(leases) - {id}
      ensures id in old(leases) ==> forall t ::
                t in Replay(calls) <==>
                  t in Replay(old(calls)) && !(t in old(leases)[id].tokens && CountOf(old(counts), t).total == 1)
    {
      if id in leases {
        forall t
          ensures t in Replay(Release(State(), id).calls) <==>
                    t in Replay(calls) && !(t in leases[id].tokens && CountOf(counts, t).total == 1)
        {
          ReleaseEffect(State(), id, t, leases[id].owner);
        }
      }
      ReleaseCovered(State(), id);
      if Inv(State()) { ReleaseKeeps(State(), id); }
      DropLease(id);
    }

    method DropLease(id: LeaseId)
      modifies this
      ensures State() == Release(old(State()), id)
    {
      if id !in leases { return; }
      var l := leases[id];
      leases := leases - {id};
      var tokens := Listed(l.tokens);
      var unsub;
      counts, unsub := CountDown(counts, l.owner, tokens);
      if |unsub| > 0 {
        assert unsub[0] in Elements(unsub);
        calls := calls + [Unsubscribe(Elements(unsub))];
      }
    }

    /** Lower one owner's count on every token of drop, raise it on add, tell the transport. */
    method ExchangeTokens(o: Owner, drop: seq<Token>, add: seq<Token>)
      requires TotalsInv(counts) && Distinct(drop) && Distinct(add)
      requires forall t :: t in drop ==> Of(CountOf(counts, t), o) > 0
      modifies this`counts, this`calls
      ensures State() == Exchange(old(State()), o, Elements(drop), Elements(add))
    {
      var unsub, sub;
      DropAllTotals(counts, o, Elements(drop));
      counts, unsub := CountDown(counts, o, drop);
      counts, sub := CountUp(counts, o, add);
      if |unsub| > 0 {
        assert unsub[0] in Elements(unsub);
        calls := calls + [Unsubscribe(Elements(unsub))];
      }
      if |sub| > 0 {
        assert sub[0] in Elements(sub);
        calls := calls + [Subscribe(Elements(sub))];
      }
    }

    /** On any table that calls can lead to; counts that were exact stay so exactly when the
        owner's leases were disjoint. */
    method SetOwnerTokens(o: Owner, tokens: seq<Token>)
      requires Covered(State())
      modifies this
      ensures State() == Subscriptions.SetOwnerTokens(old(State()), o, Valid(tokens)) && Covered(State())
      ensures Inv(old(State())) ==> (Inv(State()) <==> Disjoint(old(State()), o))
    {
      SetCovered(State(), o, Valid(tokens));
      if Inv(State()) { SetExactlyWhenDisjoint(State(), o, Valid(tokens)); }
      HeldIsCounted(State(), o);
      Declare(o, Valid(tokens));
    }

    method Declare(o: Owner, want: set<Token>)
      requires TotalsInv(counts) && forall t :: t in HeldBy(State(), o) ==> Of(CountOf(counts, t), o) > 0
      modifies this
      ensures State() == Subscriptions.SetOwnerTokens(old(State()), o, want)
    {
      var held := HeldBy(State(), o);
      var drop := Listed(held - want);
      var add := Listed(want - held);
      assert forall t :: t in drop ==> t in Elements(drop);
      ExchangeTokens(o, drop, add);
      leases := SetLeases(leases, o, want);
    }

    /** Whatever the table held, overlaps leaked or not, it is exact again, and no lease from
        before can change it: releasing one leaves it as it is. */
    method ResetForBrokerSwitch() returns (droppedTokens: nat, droppedLeases: nat)
      requires LeasesInv(State())
      modifies this
      ensures State() == Reset(old(State())) && Inv(State())
      ensures droppedTokens == |old(counts)| && droppedLeases == |old(leases)|
      ensures forall id, steps :: id in old(leases) && id.Numbered? ==>
                Release(Run(State(), steps), id) == Run(State(), steps)
    {
      assert forall o: Owner, t: Token :: Holders(Reset(State()).leases, o, t) == {};
      forall id, steps | id in leases && id.Numbered?
        ensures Release(Run(Reset(State()), steps), id) == Run(Reset(State()), steps)
      {
        GoneLeaseStaysGone(Reset(State()), steps, id);
      }
      droppedTokens, droppedLeases := |counts|, |leases|;
      counts, leases, calls := map[], map[], [];
    }
  }

  /** The elements of a set as a list, in some order. */
  method Listed(s: set<Token>) returns (out: seq<Token>)
    ensures Elements(out) == s && Distinct(out)
  {
    out := [];
    var rest := s;
    while rest != {}
      invariant rest <= s && Elements(out) == s - rest && Distinct(out)
      decreases rest
    {
      var t := TakeOne(rest);
      ElementsAppend(out, t);
      out := out + [t];
      rest := rest - {t};
    }
  }
}
