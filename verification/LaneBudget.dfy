/** The lane budget kept by two components: the coordinator's yield call
    (internal/brokers/subscriptions.go) and Fair Value's handler
    (internal/fairvalue/engine.go), which gives tokens back before another owner takes more. */
module LaneBudget {
  import opened Base
  import opened Subscriptions

  /** The subscription table and the tokens Fair Value wants, in its own order. */
  datatype Lane = Lane(table: Table, wanted: seq<Token>)

  function InPriority(ts: seq<Token>, priority: set<Token>): seq<Token> {
    if ts == [] then []
    else
      var rest := InPriority(ts[..|ts| - 1], priority);
      if ts[|ts| - 1] in priority then rest + [ts[|ts| - 1]] else rest
  }

  function OutsidePriority(ts: seq<Token>, priority: set<Token>): seq<Token> {
    if ts == [] then []
    else
      var rest := OutsidePriority(ts[..|ts| - 1], priority);
      if ts[|ts| - 1] in priority then rest else rest + [ts[|ts| - 1]]
  }

  /** yieldToPriority: shared tokens stay; of the others only as many as the reserve leaves. */
  function Yielded(wanted: seq<Token>, priority: set<Token>, limit: nat): seq<Token> {
    var spare := Max(0, limit - |priority|);
    var exclusive := OutsidePriority(wanted, priority);
    InPriority(wanted, priority) + exclusive[..Min(|exclusive|, spare)]
  }

  /** The handler's own loop. */
  method YieldToPriority(wanted: seq<Token>, priority: set<Token>, limit: nat) returns (next: seq<Token>)
    ensures next == Yielded(wanted, priority, limit)
  {
    var shared, exclusive := [], [];
    for i := 0 to |wanted|
      invariant shared == InPriority(wanted[..i], priority) && exclusive == OutsidePriority(wanted[..i], priority)
    {
      assert wanted[..i + 1][..i] == wanted[..i];
      if wanted[i] in priority { shared := shared + [wanted[i]]; } else { exclusive := exclusive + [wanted[i]]; }
    }
    assert wanted[..|wanted|] == wanted;
    var spare := Max(0, limit - |priority|);
    next := shared + exclusive[..Min(|exclusive|, spare)];
  }

  function Yield(l: Lane, priority: set<Token>, limit: nat): Lane {
    var next := Yielded(l.wanted, priority, limit);
    if |next| == |l.wanted| then l else Want(l, next)
  }

  /** What the coordinator protects: the incoming tokens and whatever owners other than
      analytics (and, when replacing, other than the caller) hold. */
  function Priority(s: Table, o: Owner, tokens: set<Token>, replacing: bool): set<Token> {
    tokens + set t | t in s.counts &&
      s.counts[t].total - s.counts[t].analytics - (if replacing then Of(s.counts[t], o) else 0) > 0
  }

  function AcquireYielding(l: Lane, o: Owner, tokens: seq<Token>, limit: nat): Lane {
    var l' := Yield(l, Priority(l.table, o, Valid(tokens), false), limit);
    l'.(table := Acquire(l'.table, o, Valid(tokens)))
  }

  function SetYielding(l: Lane, o: Owner, tokens: seq<Token>, limit: nat): Lane {
    var l' := Yield(l, Priority(l.table, o, Valid(tokens), true), limit);
    l'.(table := SetOwnerTokens(l'.table, o, Valid(tokens)))
  }

  // ---------------------------------------------------------------- partition

  lemma {:induction false} Partition(ts: seq<Token>, priority: set<Token>)
    requires Distinct(ts)
    ensures var a, b := InPriority(ts, priority), OutsidePriority(ts, priority);
            && Elements(a) == Elements(ts) * priority && Elements(b) == Elements(ts) - priority
            && Distinct(a) && Distinct(b) && |a| + |b| == |ts|
  {
    if ts != [] {
      var n := |ts| - 1;
      Partition(ts[..n], priority);
      assert Elements(ts) == Elements(ts[..n]) + {ts[n]};
      assert ts[n] !in Elements(ts[..n]);
      var a, b := InPriority(ts[..n], priority), OutsidePriority(ts[..n], priority);
      assert Elements(a + [ts[n]]) == Elements(a) + {ts[n]};
      assert Elements(b + [ts[n]]) == Elements(b) + {ts[n]};
    }
  }

  lemma Joined(a: seq<Token>, b: seq<Token>)
    requires Distinct(a) && Distinct(b) && Elements(a) !! Elements(b)
    ensures Elements(a + b) == Elements(a) + Elements(b) && Distinct(a + b)
  {
    forall i, k | 0 <= i < k < |a + b|
      ensures (a + b)[i] != (a + b)[k]
    {
      if i < |a| <= k { assert a[i] in Elements(a) && b[k - |a|] in Elements(b); }
    }
  }

  lemma Shortened(b: seq<Token>, k: nat)
    requires Distinct(b) && k <= |b|
    ensures Distinct(b[..k]) && Elements(b[..k]) <= Elements(b) && |Elements(b[..k])| == k
  {
    DistinctCount(b[..k]);
  }

  /** Yielding keeps every shared token and fits the others into the reserve. */
  lemma YieldedFits(wanted: seq<Token>, priority: set<Token>, limit: nat)
    requires Distinct(wanted)
    ensures var next := Yielded(wanted, priority, limit);
            && Distinct(next) && Elements(next) <= Elements(wanted)
            && Elements(wanted) * priority <= Elements(next)
            && |Elements(next) - priority| <= Max(0, limit - |priority|)
            && (|next| == |wanted| ==> Elements(next) == Elements(wanted))
  {
    var a, b := InPriority(wanted, priority), OutsidePriority(wanted, priority);
    Partition(wanted, priority);
    var k := Min(|b|, Max(0, limit - |priority|));
    Shortened(b, k);
    Joined(a, b[..k]);
    assert Elements(a + b[..k]) - priority == Elements(b[..k]);
    if |a + b[..k]| == |wanted| { assert b[..k] == b; }
  }

  /** The positions of the tokens outside priority before position i. */
  function OutsideBefore(ts: seq<Token>, priority: set<Token>, i: nat): set<nat>
    requires i <= |ts|
  {
    set k: nat | k < i && ts[k] !in priority
  }

  lemma {:induction false} OutsideCount(ts: seq<Token>, priority: set<Token>, i: nat)
    requires i <= |ts|
    ensures |OutsidePriority(ts[..i], priority)| == |OutsideBefore(ts, priority, i)|
  {
    if i > 0 {
      OutsideCount(ts, priority, i - 1);
      assert ts[..i][..i - 1] == ts[..i - 1];
      var before := OutsideBefore(ts, priority, i - 1);
      assert OutsideBefore(ts, priority, i) == if ts[i - 1] in priority then before else before + {i - 1};
    }
  }

  /** A token outside priority stands at its rank among them. */
  lemma {:induction false} OutsideAt(ts: seq<Token>, priority: set<Token>, i: nat)
    requires i < |ts| && ts[i] !in priority
    ensures var k := |OutsideBefore(ts, priority, i)|;
            k < |OutsidePriority(ts, priority)| && OutsidePriority(ts, priority)[k] == ts[i]
    decreases |ts|
  {
    var n := |ts| - 1;
    OutsideCount(ts, priority, i);
    if i < n {
      OutsideAt(ts[..n], priority, i);
      assert OutsideBefore(ts[..n], priority, i) == OutsideBefore(ts, priority, i);
    }
  }

  lemma PrefixHas(b: seq<Token>, n: nat, k: nat)
    requires Distinct(b) && n <= |b| && k < |b|
    ensures b[k] in b[..n] <==> k < n
  {
    if k < n { assert b[..n][k] == b[k]; }
  }

  /** Exactly which tokens stay: the shared ones, and of the others the first ones wanted, as
      many as the reserve leaves room for. */
  lemma YieldedExactly(wanted: seq<Token>, priority: set<Token>, limit: nat, i: nat)
    requires Distinct(wanted) && i < |wanted|
    ensures wanted[i] in Yielded(wanted, priority, limit) <==>
            wanted[i] in priority || |OutsideBefore(wanted, priority, i)| < limit - |priority|
  {
    var a, b := InPriority(wanted, priority), OutsidePriority(wanted, priority);
    Partition(wanted, priority);
    assert wanted[i] in a <==> wanted[i] in Elements(a);
    assert wanted[i] in b <==> wanted[i] in Elements(b);
    if wanted[i] !in priority {
      OutsideAt(wanted, priority, i);
      PrefixHas(b, Min(|b|, Max(0, limit - |priority|)), |OutsideBefore(wanted, priority, i)|);
    }
  }

  /** Both stand in ts, x before y. */
  ghost predicate Precedes(ts: seq<Token>, x: Token, y: Token) {
    exists i, k :: 0 <= i < k < |ts| && ts[i] == x && ts[k] == y
  }

  lemma PrecedesLonger(ts: seq<Token>, x: Token, y: Token)
    requires ts != [] && Precedes(ts[..|ts| - 1], x, y)
    ensures Precedes(ts, x, y)
  {
    var n := |ts| - 1;
    var i, k :| 0 <= i < k < n && ts[..n][i] == x && ts[..n][k] == y;
    assert ts[i] == x && ts[k] == y;
  }

  lemma PrecedesLast(ts: seq<Token>, x: Token)
    requires ts != [] && x in ts[..|ts| - 1]
    ensures Precedes(ts, x, ts[|ts| - 1])
  {
    var i :| 0 <= i < |ts| - 1 && ts[..|ts| - 1][i] == x;
    assert ts[i] == x;
  }

  lemma {:induction false} PartsInOrder(ts: seq<Token>, priority: set<Token>, x: nat, y: nat)
    requires Distinct(ts) && x < y
    ensures var a := InPriority(ts, priority); y < |a| ==> Precedes(ts, a[x], a[y])
    ensures var b := OutsidePriority(ts, priority); y < |b| ==> Precedes(ts, b[x], b[y])
    decreases |ts|
  {
    if ts != [] {
      var n := |ts| - 1;
      var a, b := InPriority(ts[..n], priority), OutsidePriority(ts[..n], priority);
      Partition(ts[..n], priority);
      PartsInOrder(ts[..n], priority, x, y);
      if y < |a| { PrecedesLonger(ts, a[x], a[y]); }
      if y < |b| { PrecedesLonger(ts, b[x], b[y]); }
      if y == |a| {
        assert a[x] in Elements(a);
        PrecedesLast(ts, a[x]);
      }
      if y == |b| {
        assert b[x] in Elements(b);
        PrecedesLast(ts, b[x]);
      }
    }
  }

  /** And in what order: the shared ones first, each kind as it was wanted. */
  lemma YieldedOrder(wanted: seq<Token>, priority: set<Token>, limit: nat, x: nat, y: nat)
    requires Distinct(wanted) && x < y < |Yielded(wanted, priority, limit)|
    ensures var next := Yielded(wanted, priority, limit);
            && (next[y] in priority ==> next[x] in priority)
            && ((next[x] in priority <==> next[y] in priority) ==> Precedes(wanted, next[x], next[y]))
  {
    var next, a, b := Yielded(wanted, priority, limit), InPriority(wanted, priority), OutsidePriority(wanted, priority);
    Partition(wanted, priority);
    if y < |a| {
      assert next[x] in Elements(a) && next[y] in Elements(a);
      PartsInOrder(wanted, priority, x, y);
    } else {
      assert next[y] == b[y - |a|] && next[y] in Elements(b);
      if x < |a| {
        assert next[x] in Elements(a);
      } else {
        assert next[x] == b[x - |a|] && next[x] in Elements(b);
        PartsInOrder(wanted, priority, x - |a|, y - |a|);
      }
    }
  }

  // ---------------------------------------------------------------- the budget

  /** Analytics holds nothing that Fair Value does not want. Between a broker switch and
      Fair Value's own reset it holds less: the table is emptied first. */
  ghost predicate LaneInv(l: Lane, declares: set<Owner>) {
    && Inv(l.table) && StyleInv(l.table, declares) && Analytics in declares
    && Distinct(l.wanted)
    && HeldBy(l.table, Analytics) <= Valid(l.wanted)
  }

  /** The tokens held by anyone but analytics. */
  function Others(s: Table): set<Token> {
    HeldBy(s, Browser) + HeldBy(s, Scanner) + HeldBy(s, Strategy)
  }

  lemma TableIsHeld(s: Table)
    requires Inv(s)
    ensures s.counts.Keys == Others(s) + HeldBy(s, Analytics)
  {
    forall t: Token
      ensures t in s.counts <==> t in Others(s) + HeldBy(s, Analytics)
    {
      HeldIffHolders(s, Browser, t);
      HeldIffHolders(s, Scanner, t);
      HeldIffHolders(s, Strategy, t);
      HeldIffHolders(s, Analytics, t);
      assert forall o: Owner :: Of(CountOf(s.counts, t), o) == |Holders(s.leases, o, t)|;
      assert Sum(CountOf(s.counts, t)) == Of(CountOf(s.counts, t), Browser) + Of(CountOf(s.counts, t), Scanner)
                                        + Of(CountOf(s.counts, t), Strategy) + Of(CountOf(s.counts, t), Analytics);
    }
  }

  lemma UnionCount(a: set<Token>, b: set<Token>)
    ensures |a + b| == |a| + |b - a|
  {
    assert a + b == a + (b - a);
  }

  /** A table whose other owners hold `priority` and whose analytics tokens outside it fit
      the reserve is within the budget. */
  lemma WithinBudget(s: Table, priority: set<Token>, limit: nat)
    requires Inv(s) && Others(s) == priority
    requires |HeldBy(s, Analytics) - priority| <= Max(0, limit - |priority|)
    ensures |s.counts| <= Max(limit, |Others(s)|)
  {
    TableIsHeld(s);
    UnionCount(priority, HeldBy(s, Analytics));
    assert |s.counts| == |s.counts.Keys|;
  }

  lemma HeldAfterAcquire(s: Table, o: Owner, tokens: set<Token>, p: Owner)
    requires LeasesInv(s)
    ensures HeldBy(Acquire(s, o, tokens), p) == HeldBy(s, p) + if p == o then tokens else {}
  {
    forall t: Token
      ensures t in HeldBy(Acquire(s, o, tokens), p) <==> t in HeldBy(s, p) || (p == o && t in tokens)
    {
      HeldIffHolders(Acquire(s, o, tokens), p, t);
      HeldIffHolders(s, p, t);
      HoldersAdd(s.leases, Numbered(o, s.leaseSeq + 1), Lease(o, tokens), p, t);
    }
  }

  lemma HeldAfterSet(s: Table, o: Owner, want: set<Token>, p: Owner)
    requires LeasesInv(s)
    ensures HeldBy(SetOwnerTokens(s, o, want), p) == if p == o then want else HeldBy(s, p)
  {
    forall t: Token
      ensures t in HeldBy(SetOwnerTokens(s, o, want), p) <==> t in (if p == o then want else HeldBy(s, p))
    {
      HeldIffHolders(SetOwnerTokens(s, o, want), p, t);
      HeldIffHolders(s, p, t);
      HoldersReplaced(s.leases, o, want, p, t);
    }
  }

  /** Everything held by owners other than analytics and o. */
  function Rest(s: Table, o: Owner): set<Token> {
    (if o == Browser then {} else HeldBy(s, Browser)) + (if o == Scanner then {} else HeldBy(s, Scanner))
    + (if o == Strategy then {} else HeldBy(s, Strategy))
  }

  lemma OthersAfterAcquire(s: Table, o: Owner, tokens: set<Token>)
    requires LeasesInv(s) && o != Analytics
    ensures Others(Acquire(s, o, tokens)) == tokens + Others(s)
    ensures HeldBy(Acquire(s, o, tokens), Analytics) == HeldBy(s, Analytics)
  {
    HeldAfterAcquire(s, o, tokens, Browser);
    HeldAfterAcquire(s, o, tokens, Scanner);
    HeldAfterAcquire(s, o, tokens, Strategy);
    HeldAfterAcquire(s, o, tokens, Analytics);
  }

  lemma OthersAfterSet(s: Table, o: Owner, want: set<Token>)
    requires LeasesInv(s) && o != Analytics
    ensures Others(SetOwnerTokens(s, o, want)) == want + Rest(s, o)
    ensures HeldBy(SetOwnerTokens(s, o, want), Analytics) == HeldBy(s, Analytics)
  {
    HeldAfterSet(s, o, want, Browser);
    HeldAfterSet(s, o, want, Scanner);
    HeldAfterSet(s, o, want, Strategy);
    HeldAfterSet(s, o, want, Analytics);
  }

  lemma AnalyticsSetLeavesOthers(s: Table, want: set<Token>, o: Owner)
    requires LeasesInv(s)
    ensures var s' := SetOwnerTokens(s, Analytics, want);
            Others(s') == Others(s) && Rest(s', o) == Rest(s, o) && HeldBy(s', Analytics) == want
  {
    HeldAfterSet(s, Analytics, want, Browser);
    HeldAfterSet(s, Analytics, want, Scanner);
    HeldAfterSet(s, Analytics, want, Strategy);
    HeldAfterSet(s, Analytics, want, Analytics);
  }

  lemma CountIsHeld(s: Table, o: Owner, t: Token)
    requires Inv(s) && t in s.counts
    ensures Of(s.counts[t], o) > 0 <==> t in HeldBy(s, o)
    ensures Of(s.counts[t], o) >= 0
  {
    HeldIffHolders(s, o, t);
    assert Of(CountOf(s.counts, t), o) == |Holders(s.leases, o, t)|;
  }

  lemma PriorityAt(s: Table, o: Owner, t: Token, replacing: bool)
    requires Inv(s) && o != Analytics && t in s.counts
    ensures s.counts[t].total - s.counts[t].analytics - (if replacing then Of(s.counts[t], o) else 0) > 0
       <==> t in (if replacing then Rest(s, o) else Others(s))
  {
    CountIsHeld(s, Browser, t);
    CountIsHeld(s, Scanner, t);
    CountIsHeld(s, Strategy, t);
  }

  lemma PriorityIs(s: Table, o: Owner, tokens: set<Token>, replacing: bool)
    requires Inv(s) && o != Analytics
    ensures Priority(s, o, tokens, replacing) == tokens + if replacing then Rest(s, o) else Others(s)
  {
    TableIsHeld(s);
    var wanted := if replacing then Rest(s, o) else Others(s);
    forall t: Token | t in s.counts
      ensures var mine := if replacing then Of(s.counts[t], o) else 0;
              s.counts[t].total - s.counts[t].analytics - mine > 0 <==> t in wanted
    {
      PriorityAt(s, o, t, replacing);
    }
    assert wanted <= s.counts.Keys;
  }

  lemma SetStyle(s: Table, declares: set<Owner>, o: Owner, want: set<Token>)
    requires LeasesInv(s) && StyleInv(s, declares) && o in declares
    ensures StyleInv(SetOwnerTokens(s, o, want), declares)
  {
  }

  /** A declaration by an owner that only declares sets keeps the table exact. */
  lemma DeclaredSetKeeps(s: Table, declares: set<Owner>, o: Owner, want: set<Token>)
    requires Inv(s) && StyleInv(s, declares) && o in declares
    ensures Inv(SetOwnerTokens(s, o, want)) && StyleInv(SetOwnerTokens(s, o, want), declares)
  {
    DeclaringOwnersAreDisjoint(s, declares, o);
    SetExactlyWhenDisjoint(s, o, want);
    SetStyle(s, declares, o, want);
  }

  /** What a yield promises: nobody else is touched, analytics keeps every token it holds and
      must share, and what it holds alone fits the room that is left. */
  ghost predicate Yields(l: Lane, l': Lane, priority: set<Token>, limit: nat, o: Owner) {
    && Others(l'.table) == Others(l.table) && Rest(l'.table, o) == Rest(l.table, o)
    && HeldBy(l.table, Analytics) * priority <= HeldBy(l'.table, Analytics)
    && |HeldBy(l'.table, Analytics) - priority| <= Max(0, limit - |priority|)
  }

  /** Fair Value replaces its list and declares it. */
  function Want(l: Lane, wanted: seq<Token>): Lane {
    Lane(SetOwnerTokens(l.table, Analytics, Valid(wanted)), wanted)
  }

  lemma WantKeeps(l: Lane, declares: set<Owner>, wanted: seq<Token>)
    requires LaneInv(l, declares) && Distinct(wanted)
    ensures LaneInv(Want(l, wanted), declares)
    ensures HeldBy(Want(l, wanted).table, Analytics) == Valid(wanted) && Want(l, wanted).wanted == wanted
  {
    DeclaredSetKeeps(l.table, declares, Analytics, Valid(wanted));
    HeldAfterSet(l.table, Analytics, Valid(wanted), Analytics);
  }

  lemma FewerFit(a: set<Token>, b: set<Token>, n: int)
    requires a <= b && |b| <= n
    ensures |a| <= n
  {
    assert b == a + (b - a);
  }

  /** Nothing to give up. */
  lemma YieldIdle(l: Lane, declares: set<Owner>, priority: set<Token>, limit: nat, o: Owner)
    requires LaneInv(l, declares) && |Yielded(l.wanted, priority, limit)| == |l.wanted|
    ensures Yields(l, l, priority, limit, o)
  {
    YieldedFits(l.wanted, priority, limit);
    FewerFit(HeldBy(l.table, Analytics) - priority, Elements(l.wanted) - priority, Max(0, limit - |priority|));
  }

  lemma YieldDeclares(l: Lane, declares: set<Owner>, priority: set<Token>, limit: nat, o: Owner)
    requires LaneInv(l, declares)
    ensures var l' := Want(l, Yielded(l.wanted, priority, limit));
            LaneInv(l', declares) && Yields(l, l', priority, limit, o)
  {
    var next := Yielded(l.wanted, priority, limit);
    YieldedFits(l.wanted, priority, limit);
    WantKeeps(l, declares, next);
    AnalyticsSetLeavesOthers(l.table, Valid(next), o);
    FewerFit(Valid(next) - priority, Elements(next) - priority, Max(0, limit - |priority|));
    forall t | t in HeldBy(l.table, Analytics) * priority
      ensures t in Valid(next)
    {
      assert t in Elements(l.wanted) * priority;
      assert t in Elements(next);
    }
  }

  /** When no token has to go nothing happens at all: the set is not declared again. */
  lemma YieldLeavesAlone(l: Lane, priority: set<Token>, limit: nat)
    requires Distinct(l.wanted) && Elements(Yielded(l.wanted, priority, limit)) == Elements(l.wanted)
    ensures Yield(l, priority, limit) == l
  {
    YieldedFits(l.wanted, priority, limit);
    DistinctCount(Yielded(l.wanted, priority, limit));
    DistinctCount(l.wanted);
  }

  lemma YieldKeeps(l: Lane, declares: set<Owner>, priority: set<Token>, limit: nat, o: Owner)
    requires LaneInv(l, declares)
    ensures var l' := Yield(l, priority, limit);
            && LaneInv(l', declares) && Yields(l, l', priority, limit, o)
            && Elements(l'.wanted) == Elements(Yielded(l.wanted, priority, limit))
            && (l'.wanted != l.wanted ==> HeldBy(l'.table, Analytics) == Valid(l'.wanted))
  {
    YieldedFits(l.wanted, priority, limit);
    if |Yielded(l.wanted, priority, limit)| == |l.wanted| {
      YieldIdle(l, declares, priority, limit, o);
    } else {
      YieldDeclares(l, declares, priority, limit, o);
      WantKeeps(l, declares, Yielded(l.wanted, priority, limit));
    }
  }

  /** The lane fits the larger of the reserve and what the other owners hold. */
  predicate WithinReserve(s: Table, limit: nat) { |s.counts| <= Max(limit, |Others(s)|) }

  /** The budget after any change that leaves the other owners with exactly `priority`. */
  lemma BudgetAfter(l: Lane, declares: set<Owner>, priority: set<Token>, limit: nat, o: Owner, s: Table)
    requires LaneInv(l, declares) && Inv(s) && StyleInv(s, declares)
    requires Others(s) == priority
    requires HeldBy(s, Analytics) == HeldBy(Yield(l, priority, limit).table, Analytics)
    ensures var l' := Yield(l, priority, limit).(table := s);
            && LaneInv(l', declares) && WithinReserve(s, limit)
            && HeldBy(l.table, Analytics) * Others(s) <= HeldBy(s, Analytics)
  {
    YieldKeeps(l, declares, priority, limit, o);
    WithinBudget(s, priority, limit);
  }

  /** Acquire for a non-analytics owner, run with the yield as one step: the lane holds at
      most the larger of the reserve and what the other owners want, and analytics keeps
      every token it shares with them. */
  lemma AcquireWithinBudget(l: Lane, declares: set<Owner>, o: Owner, tokens: seq<Token>, limit: nat)
    requires LaneInv(l, declares) && o != Analytics && o !in declares
    ensures var l' := AcquireYielding(l, o, tokens, limit);
            && LaneInv(l', declares) && WithinReserve(l'.table, limit)
            && HeldBy(l.table, Analytics) * Others(l'.table) <= HeldBy(l'.table, Analytics)
  {
    var add := Valid(tokens);
    var priority := Priority(l.table, o, add, false);
    PriorityIs(l.table, o, add, false);
    YieldKeeps(l, declares, priority, limit, o);
    var s := Yield(l, priority, limit).table;
    AcquireKeeps(s, o, add);
    OthersAfterAcquire(s, o, add);
    assert StyleInv(Acquire(s, o, add), declares);
    BudgetAfter(l, declares, priority, limit, o, Acquire(s, o, add));
  }

  lemma SetWithinBudget(l: Lane, declares: set<Owner>, o: Owner, tokens: seq<Token>, limit: nat)
    requires LaneInv(l, declares) && o != Analytics && o in declares
    ensures var l' := SetYielding(l, o, tokens, limit);
            && LaneInv(l', declares) && WithinReserve(l'.table, limit)
            && HeldBy(l.table, Analytics) * Others(l'.table) <= HeldBy(l'.table, Analytics)
  {
    var want := Valid(tokens);
    var priority := Priority(l.table, o, want, true);
    PriorityIs(l.table, o, want, true);
    YieldKeeps(l, declares, priority, limit, o);
    var s := Yield(l, priority, limit).table;
    DeclaredSetKeeps(s, declares, o, want);
    OthersAfterSet(s, o, want);
    BudgetAfter(l, declares, priority, limit, o, SetOwnerTokens(s, o, want));
  }

  /** Whoever asked gets all it asked for, and no owner other than analytics loses anything. */
  lemma AcquireServes(l: Lane, declares: set<Owner>, o: Owner, tokens: seq<Token>, limit: nat)
    requires LaneInv(l, declares) && o != Analytics
    ensures var l' := AcquireYielding(l, o, tokens, limit);
            Others(l'.table) == Others(l.table) + Valid(tokens) && Valid(tokens) <= HeldBy(l'.table, o)
  {
    var priority := Priority(l.table, o, Valid(tokens), false);
    YieldKeeps(l, declares, priority, limit, o);
    OthersAfterAcquire(Yield(l, priority, limit).table, o, Valid(tokens));
    HeldAfterAcquire(Yield(l, priority, limit).table, o, Valid(tokens), o);
  }

  lemma SetServes(l: Lane, declares: set<Owner>, o: Owner, tokens: seq<Token>, limit: nat)
    requires LaneInv(l, declares) && o != Analytics
    ensures var l' := SetYielding(l, o, tokens, limit);
            Others(l'.table) == Rest(l.table, o) + Valid(tokens) && HeldBy(l'.table, o) == Valid(tokens)
  {
    var priority := Priority(l.table, o, Valid(tokens), true);
    YieldKeeps(l, declares, priority, limit, o);
    OthersAfterSet(Yield(l, priority, limit).table, o, Valid(tokens));
    HeldAfterSet(Yield(l, priority, limit).table, o, Valid(tokens), o);
  }

  // ---------------------------------------------------------------- whole runs

  /** What happens to a lane: other owners' leases and declarations, their releases, a new
      Fair Value universe, Fair Value's own reset, and the table's at a broker switch. */
  datatype LaneStep =
    | OtherAcquires(owner: Owner, tokens: seq<Token>)
    | OtherDeclares(owner: Owner, tokens: seq<Token>)
    | LeaseEnds(id: LeaseId)
    | FairValueWants(wanted: seq<Token>)
    | FairValueResets
    | BrokerSwitches

  predicate Possible(step: LaneStep, declares: set<Owner>) {
    match step
    case OtherAcquires(o, _) => o != Analytics && o !in declares
    case OtherDeclares(o, _) => o != Analytics && o in declares
    case LeaseEnds(id) => id.Numbered?
    case FairValueWants(wanted) => Distinct(wanted)
    case _ => true
  }

  function AfterLane(l: Lane, step: LaneStep, limit: nat): Lane {
    match step
    case OtherAcquires(o, tokens) => AcquireYielding(l, o, tokens, limit)
    case OtherDeclares(o, tokens) => SetYielding(l, o, tokens, limit)
    case LeaseEnds(id) => l.(table := Release(l.table, id))
    case FairValueWants(wanted) => Want(l, wanted)
    case FairValueResets => Want(l, [])
    case BrokerSwitches => l.(table := Reset(l.table))
  }

  lemma EndKeeps(l: Lane, declares: set<Owner>, id: LeaseId)
    requires LaneInv(l, declares)
    ensures LaneInv(l.(table := Release(l.table, id)), declares)
  {
    ReleaseKeeps(l.table, id);
    assert HeldBy(Release(l.table, id), Analytics) <= HeldBy(l.table, Analytics);
  }

  lemma SwitchKeeps(l: Lane, declares: set<Owner>)
    requires LaneInv(l, declares)
    ensures LaneInv(l.(table := Reset(l.table)), declares)
  {
    assert forall o: Owner, t: Token :: Holders(Reset(l.table).leases, o, t) == {};
  }

  lemma LaneStepKeeps(l: Lane, declares: set<Owner>, step: LaneStep, limit: nat)
    requires LaneInv(l, declares) && Possible(step, declares)
    ensures LaneInv(AfterLane(l, step, limit), declares)
    ensures step.OtherAcquires? || step.OtherDeclares? ==> WithinReserve(AfterLane(l, step, limit).table, limit)
  {
    match step
    case OtherAcquires(o, tokens) => AcquireWithinBudget(l, declares, o, tokens, limit);
    case OtherDeclares(o, tokens) => SetWithinBudget(l, declares, o, tokens, limit);
    case LeaseEnds(id) => EndKeeps(l, declares, id);
    case FairValueWants(wanted) => WantKeeps(l, declares, wanted);
    case FairValueResets => WantKeeps(l, declares, []);
    case BrokerSwitches => SwitchKeeps(l, declares);
  }

  function NewLane(): Lane { Lane(NewTable(), []) }

  function LaneAfter(steps: seq<LaneStep>, limit: nat): Lane {
    if steps == [] then NewLane() else AfterLane(LaneAfter(steps[..|steps| - 1], limit), steps[|steps| - 1], limit)
  }

  lemma {:induction false} LaneRunKeeps(steps: seq<LaneStep>, declares: set<Owner>, limit: nat)
    requires Analytics in declares && forall i :: 0 <= i < |steps| ==> Possible(steps[i], declares)
    ensures LaneInv(LaneAfter(steps, limit), declares)
  {
    if steps == [] {
      NewTableInv();
    } else {
      var before := steps[..|steps| - 1];
      LaneRunKeeps(before, declares, limit);
      LaneStepKeeps(LaneAfter(before, limit), declares, steps[|steps| - 1], limit);
    }
  }

  /** In every run from a new lane, broker switches and Fair Value's own changes included:
      whenever another owner has just changed its holdings the lane fits the larger of the
      reserve and what the other owners hold, and analytics has kept every token it held and
      shares with them. */
  lemma BudgetHolds(steps: seq<LaneStep>, declares: set<Owner>, limit: nat)
    requires Analytics in declares && forall i :: 0 <= i < |steps| ==> Possible(steps[i], declares)
    requires steps != [] && (steps[|steps| - 1].OtherAcquires? || steps[|steps| - 1].OtherDeclares?)
    ensures var l, l' := LaneAfter(steps[..|steps| - 1], limit), LaneAfter(steps, limit);
            && WithinReserve(l'.table, limit)
            && HeldBy(l.table, Analytics) * Others(l'.table) <= HeldBy(l'.table, Analytics)
  {
    var before := steps[..|steps| - 1];
    LaneRunKeeps(before, declares, limit);
    match steps[|steps| - 1]
    case OtherAcquires(o, tokens) => AcquireWithinBudget(LaneAfter(before, limit), declares, o, tokens, limit);
    case OtherDeclares(o, tokens) => SetWithinBudget(LaneAfter(before, limit), declares, o, tokens, limit);
  }
}
