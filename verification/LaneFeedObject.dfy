/** The lane socket's critical sections as methods over its own fields
    (internal/kite/lanefeed.go), each tied to the step of module LaneFeed, keeping
    its invariant, and saying what its caller may rely on. */
module LaneFeedObject {
  import opened Base
  import opened LaneFeed

  class ZerodhaFeed {
    const reconnectBase: nat
    const reconnectMax: nat
    var sock: Option<SocketId>
    var sockSeq: nat
    var wanted: set<Token>
    var subscribed: set<Token>
    var connected: bool
    var disposed: bool
    var attempts: nat
    var pending: Option<TimerId>
    var timerSeq: nat
    var open: set<SocketId>
    var told: map<SocketId, set<Token>>
    var armed: set<TimerId>
    var cancelled: set<TimerId>
    var ensuring: multiset<Option<TimerId>>
    var delays: seq<(nat, nat)>

    function State(): Feed
      reads this
    {
      Feed(reconnectBase, reconnectMax, sock, sockSeq, wanted, subscribed, connected, disposed, attempts,
           pending, timerSeq, open, told, armed, cancelled, ensuring, delays)
    }

    constructor (base: nat, maxDelay: nat)
      requires base > 0 && maxDelay > 0
      ensures State() == NewFeed(base, maxDelay) && Inv(State())
    {
      reconnectBase, reconnectMax := base, maxDelay;
      sock, sockSeq, wanted, subscribed, connected, disposed := None, 0, {}, {}, false, false;
      attempts, pending, timerSeq := 0, None, 0;
      open, told, armed, cancelled, ensuring, delays := {}, map[], {}, {}, multiset{}, [];
    }

    /** The positive tokens among those given. */
    method PositiveTokens(tokens: seq<Token>) returns (want: set<Token>)
      ensures want == Positive(tokens)
    {
      want := {};
      for i := 0 to |tokens|
        invariant want == Positive(tokens[..i])
      {
        assert tokens[..i + 1] == tokens[..i] + [tokens[i]];
        if tokens[i] > 0 { want := want + {tokens[i]}; }
      }
      assert tokens[..|tokens|] == tokens;
    }

    /** The handle's Unsubscribe and Subscribe on the socket in use. */
    method TellSocket(drop: set<Token>, add: set<Token>)
      requires sock.Some?
      modifies this`told, this`subscribed
      ensures State() == Adjust(old(State()), sock.value, drop, add)
    {
      var streamed := if sock.value in told then told[sock.value] else {};
      told := told[sock.value := streamed - drop + add];
      subscribed := subscribed - drop + add;
    }

    /** Drops are told before adds. */
    method Retell(drop: set<Token>, add: set<Token>)
      requires sock.Some?
      modifies this`told, this`subscribed
      ensures State() == Adjust(old(State()), sock.value, drop, add)
    {
      TellSocket(drop, {});
      assert subscribed == old(subscribed) - drop + {};
      TellSocket({}, add);
      assert State() == Adjust(old(State()), sock.value, drop, add);
    }

    /** The first critical section of EnsureSocket, called by anyone or by a timer that was
        not cancelled; the call goes on when idle. */
    method StartEnsureSocket(from: Option<TimerId>) returns (idle: bool)
      modifies this`ensuring
      ensures State() == StartEnsure(old(State()), from)
      ensures && Inv(old(State()))
              && (from.Some? ==> from.value !in cancelled && from.value <= timerSeq && pending != from)
              ==> Inv(State())
      ensures idle == (!disposed && sock.None?)
      ensures ensuring == old(ensuring) + if idle then multiset{from} else multiset{}
    {
      ghost var f := State();
      if Inv(f) && (from.Some? ==> from.value !in cancelled && from.value <= timerSeq && pending != from) {
        EnsureKeepsTimer(f, from);
      }
      idle := Ask(from);
    }

    method Ask(from: Option<TimerId>) returns (idle: bool)
      modifies this`ensuring
      ensures State() == StartEnsure(old(State()), from)
      ensures idle == (!disposed && sock.None?)
      ensures ensuring == old(ensuring) + if idle then multiset{from} else multiset{}
    {
      idle := !disposed && sock.None?;
      if idle { ensuring := ensuring + multiset{from}; }
    }

    /** Open with the whole wanted list. */
    method Connect()
      modifies this`sockSeq, this`sock, this`open, this`told
      ensures State() == Open(old(State()))
    {
      if disposed || sock.Some? { return; }
      var id := sockSeq + 1;
      ghost var f := State();
      sockSeq, sock, open, told := id, Some(id), open + {id}, told[id := wanted];
      assert State() == f.(sockSeq := id, sock := Some(id), open := f.open + {id}, told := f.told[id := f.wanted]);
    }

    /** The second critical section of EnsureSocket, reached with credentials: at most one of
        several racing calls opens, none after a stop, and the socket starts with all that
        is wanted. */
    method OpenSocket(from: Option<TimerId>)
      requires Inv(State()) && from in ensuring
      modifies this`ensuring, this`sockSeq, this`sock, this`open, this`told
      ensures State() == FinishEnsure(old(State()), from, true) && Inv(State())
      ensures sockSeq == old(sockSeq) + if old(sock).None? && !disposed then 1 else 0
      ensures !disposed ==> sock.Some? && open == {sock.value} && told[sock.value] == wanted
    {
      StepKeeps(State(), OpenStep(from, true));
      ensuring := ensuring - multiset{from};
      Connect();
    }

    method CancelTimer()
      modifies this`pending, this`timerSeq, this`cancelled
      ensures State() == CancelReconnect(old(State()))
    {
      if pending.Some? {
        cancelled, pending, timerSeq := cancelled + {pending.value}, None, timerSeq + 1;
      }
    }

    /** Afterwards there is no socket, no reconnect and nothing subscribed. */
    method TeardownLocked()
      modifies this`pending, this`timerSeq, this`cancelled, this`sock, this`subscribed, this`open, this`connected
      ensures State() == Teardown(old(State()))
      ensures Inv(old(State())) ==> Inv(State()) && open == {}
      ensures sock.None? && pending.None? && subscribed == {} && !connected
    {
      if Inv(State()) { TeardownKeeps(State()); }
      CancelTimer();
      if sock.Some? {
        LoseSocket(sock.value);
      } else {
        subscribed, connected := {}, false;
      }
    }

    method ScheduleReconnectLocked()
      requires reconnectBase > 0
      modifies this`attempts, this`timerSeq, this`pending, this`armed, this`delays
      ensures State() == Schedule(old(State()))
    {
      if disposed || pending.Some? || wanted == {} { return; }
      var delay := ReconnectDelay(reconnectBase, reconnectMax, attempts);
      var seqNo := timerSeq + 1;
      delays, attempts := delays + [(attempts, delay)], attempts + 1;
      timerSeq, armed, pending := seqNo, armed + {seqNo}, Some(seqNo);
    }

    /** The socket in use now streams all that is wanted; a late callback changes nothing. */
    method OnOpen(id: SocketId)
      requires Inv(State())
      modifies this`attempts, this`subscribed, this`connected
      ensures State() == LaneFeed.OnOpen(old(State()), id) && Inv(State())
      ensures if sock == Some(id) then connected && attempts == 0 && subscribed == wanted == told[id]
              else State() == old(State())
    {
      StepKeeps(State(), OpenedStep(id));
      if sock != Some(id) || disposed { return; }
      attempts := 0;
      subscribed := wanted;
      connected := true;
    }

    /** A credential failure of the socket in use leaves nothing open and nothing to retry; a
        late callback changes nothing. */
    method OnError(id: SocketId)
      requires Inv(State())
      modifies this`pending, this`timerSeq, this`cancelled, this`sock, this`subscribed, this`open, this`connected
      ensures State() == LaneFeed.OnError(old(State()), id) && Inv(State())
      ensures if old(sock) == Some(id) then open == {} && pending.None? else State() == old(State())
    {
      if sock == Some(id) && !disposed { TeardownLocked(); }
    }

    method LoseSocket(id: SocketId)
      modifies this`sock, this`open, this`subscribed, this`connected
      ensures State() == old(State()).(sock := None, subscribed := {}, connected := false, open := old(open) - {id})
    {
      sock, open, subscribed, connected := None, open - {id}, {}, false;
    }

    /** The loss of the socket in use schedules a reconnect exactly when something is wanted;
        a late callback changes nothing. */
    method OnClose(id: SocketId)
      requires Inv(State()) && reconnectBase > 0
      modifies this
      ensures State() == LaneFeed.OnClose(old(State()), id) && Inv(State())
      ensures if old(sock) == Some(id) then open == {} && (pending.Some? <==> wanted != {} || old(pending).Some?)
              else State() == old(State())
    {
      CloseEffect(State(), id);
      if sock != Some(id) || disposed { return; }
      LoseSocket(id);
      ScheduleReconnectLocked();
    }

    /** The reconnect callback, up to the first critical section of the EnsureSocket it calls. */
    method OnTimer(id: TimerId)
      requires Inv(State()) && id in armed
      modifies this`armed, this`pending, this`ensuring
      ensures State() == LaneFeed.OnTimer(old(State()), id) && Inv(State())
      ensures id in cancelled ==> pending == old(pending) && ensuring == old(ensuring)
      ensures id !in cancelled ==> old(pending) == Some(id) && pending.None?
      ensures id !in cancelled && !disposed && sock.None? ==> ensuring == old(ensuring) + multiset{Some(id)}
    {
      TimerKeeps(State(), id);
      LiveTimerIsPending(State(), id);
      armed := armed - {id};
      if timerSeq == id { Reconnect(id); }
    }

    /** The reconnect that was pending is used up and, unless the feed was stopped, asks. */
    method Reconnect(id: TimerId)
      modifies this`pending, this`ensuring
      ensures var f := old(State()).(pending := None); State() == if disposed then f else StartEnsure(f, Some(id))
      ensures ensuring == old(ensuring) + if disposed || sock.Some? then multiset{} else multiset{Some(id)}
    {
      pending := None;
      if !disposed { var _ := Ask(Some(id)); }
    }

    /** SetTokens: drops are told before adds. */
    method SetTokens(tokens: seq<Token>)
      requires Inv(State())
      modifies this`wanted, this`subscribed, this`told, this`ensuring
      ensures State() == LaneFeed.SetTokens(old(State()), tokens) && Inv(State())
      ensures forall t :: t in wanted <==> t in tokens && t > 0
      ensures ensuring == old(ensuring) + if sock.None? && !disposed && wanted != {} then multiset{None} else multiset{}
    {
      StepKeeps(State(), SetStep(tokens));
      var want := PositiveTokens(tokens);
      var toAdd, toDrop := want - wanted, wanted - want;
      wanted := want;
      if sock.None? {
        if want != {} { var _ := Ask(None); }
        return;
      }
      Retell(toDrop, toAdd);
    }

    method SubscribeTokens(tokens: seq<Token>)
      requires Inv(State())
      modifies this`wanted, this`subscribed, this`told, this`ensuring
      ensures State() == LaneFeed.SubscribeTokens(old(State()), tokens) && Inv(State())
      ensures forall t :: t in wanted <==> t in old(wanted) || (t in tokens && t > 0)
      ensures ensuring == old(ensuring) + if sock.None? && !disposed && tokens != [] then multiset{None} else multiset{}
    {
      StepKeeps(State(), SubscribeStep(tokens));
      if |tokens| == 0 { return; }
      var asked := PositiveTokens(tokens);
      var unseen := asked - wanted;
      wanted := wanted + unseen;
      if sock.None? {
        var _ := Ask(None);
      } else {
        TellSocket({}, unseen);
      }
    }

    /** Those of the given tokens that are wanted. */
    method WantedAmong(tokens: seq<Token>) returns (found: set<Token>)
      ensures found == set t | t in tokens && t in wanted
    {
      found := {};
      for i := 0 to |tokens|
        invariant found == set t | t in tokens[..i] && t in wanted
      {
        assert tokens[..i + 1] == tokens[..i] + [tokens[i]];
        if tokens[i] in wanted { found := found + {tokens[i]}; }
      }
      assert tokens[..|tokens|] == tokens;
    }

    method UnsubscribeTokens(tokens: seq<Token>)
      requires Inv(State())
      modifies this`wanted, this`subscribed, this`told
      ensures State() == LaneFeed.UnsubscribeTokens(old(State()), tokens) && Inv(State())
      ensures forall t :: t in wanted <==> t in old(wanted) && t !in tokens
    {
      UnsubscribeKeeps(State(), tokens);
      var drop := WantedAmong(tokens);
      wanted, subscribed := wanted - drop, subscribed - drop;
      if sock.Some? {
        var streamed := if sock.value in told then told[sock.value] else {};
        told := told[sock.value := streamed - drop];
      }
    }

    /** Afterwards nothing is open, scheduled or wanted, and no step will open a socket. */
    method Stop()
      requires Inv(State())
      modifies this
      ensures State() == LaneFeed.Stop(old(State())) && Inv(State())
      ensures open == {} && pending.None? && wanted == {} && disposed
      ensures forall step :: Enabled(State(), step) ==> After(State(), step).sockSeq == sockSeq
    {
      StopEffect(State());
      disposed := true;
      TeardownLocked();
      wanted := {};
    }
  }
}
