// application::tick, disconnect and the event handlers as methods, each proved to
// be a run of the transition system in which the GUI thread is not interrupted.
module App {
  import opened Lists
  import opened Lifecycle

  function Rank(pc: Pc): nat {
    match pc
    case Idle => 0
    case TickActions => 1
    case TickStatus => 2
    case TickInit(_) => 3
    case TickCoins(_) => 4
    case TickClear(_) => 5
    case SetNone => 1
    case ClearPrimary => 2
    case ClearSecondary => 3
    case MarkRefresh => 4
    case Unsubscribe => 5
    case DrainCoins => 6
    case DrainActions => 7
  }

  // The GUI thread finishes what it is doing.
  function Finish(s: State): State
    decreases Rank(s.pc), |s.coins.queue| + |s.actions.queue|
  {
    if s.pc == Idle then s else Finish(GuiFx(s))
  }

  lemma FinishNext(s: State)
    ensures Finish(GuiFx(s)) == Finish(s)
  {
  }

  function Steps(s: State): seq<Event>
    decreases Rank(s.pc), |s.coins.queue| + |s.actions.queue|
  {
    if s.pc == Idle then [] else [Gui] + Steps(GuiFx(s))
  }

  lemma AfterFirst(s: State, e: Event, rest: seq<Event>)
    requires Enabled(s, e) && Runs(Next(s, e), rest)
    ensures Runs(s, [e] + rest) && After(s, [e] + rest) == After(Next(s, e), rest)
  {
    assert [e][..0] == [] && After(s, [e]) == Next(s, e);
    RunBoth(s, [e], rest);
    AfterBoth(s, [e], rest);
  }

  // Finishing is a run of the transition system.
  lemma {:induction false} FinishIsRun(s: State)
    ensures Runs(s, Steps(s)) && After(s, Steps(s)) == Finish(s)
    decreases Rank(s.pc), |s.coins.queue| + |s.actions.queue|
  {
    if s.pc != Idle {
      FinishIsRun(GuiFx(s));
      AfterFirst(s, Gui, Steps(GuiFx(s)));
    }
  }

  // ---------------------------------------------------------- what a tick does

  // The state at the end of the popping loop.
  function TakeAll(s: State): State
    requires s.pc.TickCoins?
    decreases |s.coins.queue|
  {
    if s.coins.queue == [] then s else TakeAll(GuiFx(s))
  }

  // What the loop leaves alone, and what it does to the flags.
  ghost predicate TookAll(s: State, t: State, texts: seq<Ticker>) {
    t.coins.queue == [] && t.actions == s.actions && t.coins.batches == s.coins.batches &&
    t.flags.exiting == s.flags.exiting && t.flags.status == s.flags.status &&
    t.flags.primary == (s.flags.primary || PRIMARY in texts) &&
    t.flags.secondary == (s.flags.secondary || SECONDARY in texts)
  }

  lemma TookOneMore(s: State, u: State, t: State, texts: seq<Ticker>)
    requires s.pc.TickCoins? && s.coins.queue != [] && u == GuiFx(s) && TookAll(u, t, texts)
    ensures TookAll(s, t, [s.coins.queue[0].text] + texts)
  {
  }

  // The loop takes the whole queue, in order.
  lemma {:induction false} TakeAllOk(s: State)
    requires s.pc.TickCoins?
    ensures TakeAll(s).pc == TickCoins(s.pc.batch + Texts(s.coins.queue))
    ensures TookAll(s, TakeAll(s), Texts(s.coins.queue)) && Finish(TakeAll(s)) == Finish(s)
    decreases |s.coins.queue|
  {
    if s.coins.queue == [] {
      assert s.pc.batch + [] == s.pc.batch;
    } else {
      var u, ticker := GuiFx(s), s.coins.queue[0].text;
      TakeAllOk(u);
      FinishNext(s);
      TextsFirst(s.coins.queue);
      TookOneMore(s, u, TakeAll(u), Texts(u.coins.queue));
      Associate(s.pc.batch, [ticker], Texts(u.coins.queue));
    }
  }

  // Every action queued has been handled, in order; none, and all are kept, if the
  // application is exiting.
  ghost predicate ActionsDone(s: State, t: State) {
    t.actions.queue == (if s.flags.exiting then s.actions.queue else []) &&
    t.actions.handled == s.actions.handled + (if s.flags.exiting then [] else s.actions.queue)
  }

  lemma {:induction false} FinishActions(s: State)
    requires s.pc == TickActions
    ensures var t := Finish(s);
      t.coins == s.coins && t.flags == s.flags && ActionsDone(s, t)
    decreases |s.actions.queue|
  {
    if s.actions.queue != [] && !s.flags.exiting {
      FinishActions(GuiFx(s));
      assert s.actions.queue == [s.actions.queue[0]] + s.actions.queue[1..];
    }
  }

  // From the end of the popping loop on.
  lemma FinishBatch(s: State, batch: seq<Ticker>)
    requires s.pc == TickCoins(batch) && s.coins.queue == []
    ensures var t := Finish(s);
      t.coins == (if batch == [] then s.coins else InitBatch(s.coins, batch)) &&
      t.flags == (
        if batch != [] && s.flags.primary && s.flags.secondary then s.flags.(status := Complete) else s.flags) &&
      ActionsDone(s, t)
  {
    var u := GuiFx(s);
    FinishNext(s);
    if batch == [] {
      FinishActions(u);
    } else {
      var v := GuiFx(u);
      FinishNext(u);
      FinishNext(v);
      FinishActions(GuiFx(v));
    }
  }

  // What a tick that found `s` leaves, `batch` being what was queued.
  ghost predicate Ticked(s: State, t: State, batch: seq<Ticker>) {
    t.coins.queue == [] && t.coins.batches == s.coins.batches + (if batch == [] then [] else [batch]) &&
    t.flags.primary == (s.flags.primary || PRIMARY in batch) &&
    t.flags.secondary == (s.flags.secondary || SECONDARY in batch) &&
    t.flags.status == (if batch != [] && t.flags.primary && t.flags.secondary then Complete else s.flags.status) &&
    t.flags.exiting == s.flags.exiting && ActionsDone(s, t)
  }

  // From its loops on, an uninterrupted tick initialises everything queued as one
  // batch, if there is anything, completes the status exactly if there was and both
  // coins are by then enabled, and handles every action unless the application is
  // exiting.
  lemma BodyEffect(s: State)
    requires s.pc == TickCoins([])
    ensures Ticked(s, Finish(s), Texts(s.coins.queue))
  {
    var batch, t := Texts(s.coins.queue), TakeAll(s);
    TakeAllOk(s);
    assert [] + batch == batch;
    FinishBatch(t, batch);
  }

  // A whole tick does that if mm2 is running; if not it leaves queue, flags and
  // status alone and only handles the actions.  Either way handlers are connected
  // and no refresh is due afterwards.
  lemma TickEffect(s: State, running: bool)
    requires s.pc == Idle && Subscribed(s)
    ensures var t := Finish(BeginTickFx(s, running));
      !t.flags.refresh && t.flags.connected &&
      if running then Ticked(s, t, Texts(s.coins.queue))
      else t.coins == s.coins && t.flags == s.flags.(refresh := false, connected := true) && ActionsDone(s, t)
  {
    var u := s.(pc := AfterConnect(running), flags := s.flags.(refresh := false, connected := true));
    FinishNext(BeginTickFx(s, running));
    assert Finish(BeginTickFx(s, running)) == Finish(u);
    if running {
      BodyEffect(u);
      FinishKeepsControl(u);
    } else {
      FinishActions(u);
    }
  }

  // The body of a tick touches neither the connections nor the refresh flag.
  lemma {:induction false} FinishKeepsControl(s: State)
    requires InTickBody(s.pc)
    ensures Finish(s).flags.connected == s.flags.connected && Finish(s).flags.refresh == s.flags.refresh
    decreases Rank(s.pc), |s.coins.queue| + |s.actions.queue|
  {
    if GuiFx(s).pc != Idle {
      FinishKeepsControl(GuiFx(s));
    }
  }

  // --------------------------------------------------- what a disconnect does

  // The steps of disconnect after the drains, taken together.
  function Ended(s: State): State {
    s.(pc := Idle, flags := Flags(s.flags.exiting, true, false, false, false, NoStatus), coins := LowerFlags(s.coins))
  }

  lemma EndSteps(s: State)
    requires s.pc == Unsubscribe
    ensures Finish(s) == Ended(s)
  {
    var f := s.flags;
    var s1 := s.(pc := MarkRefresh, flags := f.(connected := false));
    var s2 := s.(pc := ClearSecondary, flags := f.(connected := false, refresh := true));
    var c := LowerFlags(s.coins);
    var s3 := s.(pc := ClearPrimary, flags := Flags(f.exiting, true, f.primary, false, false, f.status), coins := c);
    var s4 := s.(pc := SetNone, flags := Flags(f.exiting, true, false, false, false, f.status), coins := c);
    assert GuiFx(s) == s1 && GuiFx(s1) == s2 && GuiFx(s2) == s3 && GuiFx(s3) == s4;
    FinishNext(s);
    FinishNext(s1);
    FinishNext(s2);
    FinishNext(s3);
    FinishNext(s4);
  }

  lemma {:induction false} FinishDrain(s: State)
    requires s.pc == DrainActions || s.pc == DrainCoins
    ensures var t := Finish(s);
      t.coins.queue == [] && t.coins.batches == s.coins.batches && t.coins.pushed == s.coins.pushed &&
      t.coins.mark == |s.coins.pushed| && (s.pc == DrainActions ==> t.actions.queue == []) &&
      t.actions.handled == s.actions.handled && (s.pc == DrainCoins ==> t.actions == s.actions) &&
      t.flags == Flags(s.flags.exiting, true, false, false, false, NoStatus)
    decreases Rank(s.pc), |s.coins.queue| + |s.actions.queue|
  {
    FinishNext(s);
    var u := GuiFx(s);
    if u.pc == Unsubscribe {
      EndSteps(u);
    } else {
      FinishDrain(u);
    }
  }

  // An uninterrupted disconnect empties both queues, initialising and handling
  // nothing, and leaves no session state behind.
  lemma DisconnectEffect(s: State)
    requires s.pc == DrainActions
    ensures var t := Finish(s);
      t.coins.queue == [] && t.actions.queue == [] && t.coins.batches == s.coins.batches &&
      t.actions.handled == s.actions.handled &&
      t.flags == Flags(s.flags.exiting, true, false, false, false, NoStatus)
  {
    FinishDrain(s);
  }

  // -------------------------------------------------- handlers run in one piece

  function PushAll(s: State, tickers: seq<Ticker>): State {
    if tickers == [] then s
    else
      var n := |tickers| - 1;
      var t := PushAll(s, tickers[..n]);
      t.(coins := PushOne(t.coins, tickers[n]))
  }

  function PushActionNow(s: State, a: Action): State {
    s.(actions := s.actions.(queue := s.actions.queue + [a], pushed := s.actions.pushed + [a]))
  }

  function HandlerEvents(tickers: seq<Ticker>, task: nat): seq<Event> {
    [StartCoins(tickers)] + seq(|tickers|, _ => PushCoin(task))
  }

  lemma {:induction false} PushesRun(s: State, task: nat, tickers: seq<Ticker>, n: nat)
    requires n <= |tickers| && task < |s.coinTasks| && s.coinTasks[task] == tickers
    ensures var events := seq(n, _ => PushCoin(task));
      Runs(s, events) &&
      After(s, events) == PushAll(s, tickers[..n]).(coinTasks := s.coinTasks[task := tickers[n..]])
  {
    var events := seq(n, _ => PushCoin(task));
    if n == 0 {
      assert tickers[0..] == tickers && s.coinTasks[task := tickers] == s.coinTasks;
    } else {
      PushesRun(s, task, tickers, n - 1);
      assert events[..n - 1] == seq(n - 1, _ => PushCoin(task));
      assert tickers[..n][..n - 1] == tickers[..n - 1];
      var t := After(s, events[..n - 1]);
      assert t.coinTasks[task] == tickers[n - 1..];
      assert t.coinTasks[task][1..] == tickers[n..];
      assert s.coinTasks[task := tickers[n - 1..]][task := tickers[n..]] == s.coinTasks[task := tickers[n..]];
    }
  }

  // A handler run in one piece is a run of the transition system, and leaves
  // behind a task with nothing left to push.
  lemma HandlerIsRun(s: State, tickers: seq<Ticker>)
    requires s.flags.connected && !s.flags.exiting
    ensures var events := HandlerEvents(tickers, |s.coinTasks|);
      Runs(s, events) && After(s, events) == PushAll(s, tickers).(coinTasks := s.coinTasks + [[]])
  {
    var t := Next(s, StartCoins(tickers));
    var pushes := seq(|tickers|, _ => PushCoin(|s.coinTasks|));
    PushesRun(t, |s.coinTasks|, tickers, |tickers|);
    AfterFirst(s, StartCoins(tickers), pushes);
    assert tickers[..|tickers|] == tickers && tickers[|tickers|..] == [];
    PushAllFrame(s, tickers, t.coinTasks);
    assert (s.coinTasks + [tickers])[|s.coinTasks| := []] == s.coinTasks + [[]];
  }

  lemma {:induction false} PushAllFrame(s: State, tickers: seq<Ticker>, tasks: seq<seq<Ticker>>)
    ensures PushAll(s.(coinTasks := tasks), tickers) == PushAll(s, tickers).(coinTasks := tasks)
  {
    if tickers != [] {
      PushAllFrame(s, tickers[..|tickers| - 1], tasks);
    }
  }

  // It queues its tickers in order, behind what was there, and does nothing else.
  lemma {:induction false} PushAllIs(s: State, tickers: seq<Ticker>)
    ensures var t := PushAll(s, tickers);
      Texts(t.coins.queue) == Texts(s.coins.queue) + tickers && t.coins.pushed == s.coins.pushed + tickers &&
      s.coins.queue <= t.coins.queue && t.coins.consumed == s.coins.consumed && t.coins.batches == s.coins.batches &&
      t == s.(coins := t.coins)
  {
    if tickers != [] {
      var n := |tickers| - 1;
      PushAllIs(s, tickers[..n]);
      var c := PushAll(s, tickers[..n]).coins;
      TextsSnoc(c.queue, Ptr(|c.pushed|, tickers[n]));
      assert tickers == tickers[..n] + [tickers[n]];
    }
  }

  // The handler for orders and swaps, run in one piece, is a run that queues its
  // action behind the others.
  lemma ActionHandlerIsRun(s: State, a: Action)
    requires s.flags.connected && !s.flags.exiting
    ensures var events := [StartAction(a), PushAction(|s.actionTasks|)];
      Runs(s, events) && After(s, events) == PushActionNow(s, a)
    ensures var t := PushActionNow(s, a);
      t.actions.queue == s.actions.queue + [a] && t.actions.pushed == s.actions.pushed + [a] &&
      t.actions.handled == s.actions.handled && t == s.(actions := t.actions)
  {
    var task := |s.actionTasks|;
    TwoEvents(s, StartAction(a), PushAction(task));
    var t := Next(s, StartAction(a));
    assert t.actionTasks[..task] + t.actionTasks[task + 1..] == s.actionTasks;
  }

  // ------------------------------------------------------------------ the class

  class Application {
    var portfolioQueue: seq<Ptr>
    var nextBlock: nat             // the block strdup hands out next
    var actionsQueue: seq<Action>
    var aboutToExit: bool
    var needRefresh: bool
    var primaryEnabled: bool
    var secondaryEnabled: bool
    var connected: bool
    var status: Status
    ghost var coinPast: CoinQueue
    ghost var actionPast: ActionQueue
    ghost var coinTasks: seq<seq<Ticker>>
    ghost var actionTasks: seq<Action>

    // The state with the GUI thread at pc.
    ghost function View(pc: Pc): State
      reads this
    {
      State(pc, Flags(aboutToExit, needRefresh, primaryEnabled, secondaryEnabled, connected, status),
            coinPast.(queue := portfolioQueue), actionPast.(queue := actionsQueue), coinTasks, actionTasks)
    }

    ghost predicate Valid()
      reads this
    {
      nextBlock == |coinPast.pushed|
    }

    constructor ()
      ensures Valid() && View(Idle) == START
      ensures portfolioQueue == [] && actionsQueue == [] && !aboutToExit && !needRefresh && connected
    {
      portfolioQueue, actionsQueue, nextBlock := [], [], 0;
      aboutToExit, needRefresh, primaryEnabled, secondaryEnabled, connected := false, false, false, false, true;
      status := NoStatus;
      coinPast, actionPast, coinTasks, actionTasks := START.coins, START.actions, [], [];
    }

    // m_portfolio_queue.pop, with what the caller does to the block it gets
    method PopPortfolio(ghost taken: bool) returns (ticker: Ticker)
      requires portfolioQueue != []
      modifies `portfolioQueue, `coinPast
      ensures ticker == old(portfolioQueue)[0].text
      ensures coinPast.(queue := portfolioQueue) == PopCoin(old(coinPast.(queue := portfolioQueue)), taken)
      ensures coinPast.pushed == old(coinPast.pushed)
    {
      ticker := portfolioQueue[0].text;
      coinPast := PopCoin(coinPast.(queue := portfolioQueue), taken);
      portfolioQueue := portfolioQueue[1..];
    }

    method Tick(running: bool)
      requires Valid()
      modifies this
      ensures Valid() && View(Idle) == Finish(BeginTickFx(old(View(Idle)), running))
    {
      Refresh(running);
      if running {
        var toInit := TakeCoins();
        FinishNext(View(TickCoins(toInit)));
        if toInit != [] {
          InitializePortfolio(toInit);
        }
      }
      ProcessActions();
    }

    // if (need_a_full_refresh_of_mm2)
    method Refresh(running: bool)
      modifies `connected, `needRefresh
      ensures Finish(View(AfterConnect(running))) == Finish(BeginTickFx(old(View(Idle)), running))
    {
      if needRefresh {
        connected := true;
        FinishNext(View(TickClear(running)));
        needRefresh := false;
      }
    }

    // while (not m_portfolio_queue.empty())
    method TakeCoins() returns (toInit: seq<Ticker>)
      modifies `portfolioQueue, `coinPast, `primaryEnabled, `secondaryEnabled
      ensures portfolioQueue == [] && Finish(View(TickCoins(toInit))) == Finish(old(View(TickCoins([]))))
      ensures coinPast.pushed == old(coinPast.pushed)
    {
      toInit := [];
      while portfolioQueue != []
        invariant Finish(View(TickCoins(toInit))) == Finish(old(View(TickCoins([]))))
        invariant coinPast.pushed == old(coinPast.pushed)
        decreases |portfolioQueue|
      {
        toInit := TakeCoin(toInit);
      }
    }

    // one round of that loop
    method TakeCoin(toInit: seq<Ticker>) returns (more: seq<Ticker>)
      requires portfolioQueue != []
      modifies `portfolioQueue, `coinPast, `primaryEnabled, `secondaryEnabled
      ensures Finish(View(TickCoins(more))) == Finish(old(View(TickCoins(toInit))))
      ensures coinPast.pushed == old(coinPast.pushed) && |portfolioQueue| == |old(portfolioQueue)| - 1
    {
      ghost var before := View(TickCoins(toInit));
      FinishNext(before);
      var ticker := PopPortfolio(true);
      if ticker == PRIMARY {
        primaryEnabled := true;
      }
      if ticker == SECONDARY {
        secondaryEnabled := true;
      }
      more := toInit + [ticker];
      assert View(TickCoins(more)) == GuiFx(before);
    }

    method InitializePortfolio(toInit: seq<Ticker>)
      requires portfolioQueue == [] && toInit != []
      modifies `coinPast, `status
      ensures Finish(View(TickActions)) == Finish(old(View(TickCoins(toInit))))
      ensures coinPast.pushed == old(coinPast.pushed)
    {
      ghost var s := View(TickCoins(toInit));
      ghost var s1 := GuiFx(s);
      ghost var s2 := GuiFx(s1);
      FinishNext(s);
      FinishNext(s1);
      FinishNext(s2);
      coinPast := InitBatch(coinPast, toInit);
      assert View(TickStatus) == s2;
      if primaryEnabled && secondaryEnabled {
        status := Complete;
      }
      assert View(TickActions) == GuiFx(s2);
    }

    // while (not m_actions_queue.empty()), with its break
    method ProcessActions()
      modifies `actionsQueue, `actionPast
      ensures View(Idle) == Finish(old(View(TickActions)))
    {
      while actionsQueue != [] && !aboutToExit
        invariant Finish(View(TickActions)) == Finish(old(View(TickActions)))
        decreases |actionsQueue|
      {
        ghost var before := View(TickActions);
        actionPast := PopAction(actionPast.(queue := actionsQueue), true);
        actionsQueue := actionsQueue[1..];
        assert View(TickActions) == GuiFx(before);
      }
      assert GuiFx(View(TickActions)) == View(Idle);
    }

    method Disconnect()
      requires Valid()
      modifies this
      ensures Valid() && View(Idle) == Finish(old(View(DrainActions)))
    {
      ClearActions();
      ClearCoins();
      EndSteps(View(Unsubscribe));
      EndSession();
    }

    method EndSession()
      modifies `connected, `needRefresh, `secondaryEnabled, `primaryEnabled, `status, `coinPast
      ensures View(Idle) == Ended(old(View(Unsubscribe))) && coinPast.pushed == old(coinPast.pushed)
    {
      connected := false;
      needRefresh := true;
      secondaryEnabled := false;
      coinPast := LowerFlags(coinPast);
      primaryEnabled := false;
      status := NoStatus;
    }

    method ClearActions()
      modifies `actionsQueue, `actionPast
      ensures Finish(View(DrainCoins)) == Finish(old(View(DrainActions)))
    {
      while actionsQueue != []
        invariant Finish(View(DrainActions)) == Finish(old(View(DrainActions)))
        decreases |actionsQueue|
      {
        ghost var before := View(DrainActions);
        actionPast := PopAction(actionPast.(queue := actionsQueue), false);
        actionsQueue := actionsQueue[1..];
        assert View(DrainActions) == GuiFx(before);
      }
      ghost var before := View(DrainActions);
      actionPast := actionPast.(mark := |actionPast.pushed|);
      assert View(DrainCoins) == GuiFx(before);
    }

    method ClearCoins()
      modifies `portfolioQueue, `coinPast
      ensures Finish(View(Unsubscribe)) == Finish(old(View(DrainCoins))) && coinPast.pushed == old(coinPast.pushed)
    {
      while portfolioQueue != []
        invariant Finish(View(DrainCoins)) == Finish(old(View(DrainCoins))) && coinPast.pushed == old(coinPast.pushed)
        decreases |portfolioQueue|
      {
        ghost var before := View(DrainCoins);
        var _ := PopPortfolio(false);
        assert View(DrainCoins) == GuiFx(before);
      }
      ghost var before := View(DrainCoins);
      coinPast := coinPast.(mark := |coinPast.pushed|);
      assert View(Unsubscribe) == GuiFx(before);
    }

    method ExitHandler()
      modifies `aboutToExit
      ensures View(Idle) == Next(old(View(Idle)), Exit)
      ensures aboutToExit
    {
      aboutToExit := true;
    }

    method Login()
      modifies `status
      ensures View(Idle) == Next(old(View(Idle)), Event.Login)
      ensures status == InitializingMm2
    {
      status := InitializingMm2;
    }

    method OnMm2Initialized()
      requires connected
      modifies `status
      ensures View(Idle) == Next(old(View(Idle)), Mm2Ready)
      ensures status == EnablingCoins
    {
      status := EnablingCoins;
    }

    // on_coin_fully_initialized_event, run without interruption
    method OnCoinFullyInitialized(tickers: seq<Ticker>)
      requires Valid() && connected
      modifies `portfolioQueue, `coinPast, `nextBlock
      ensures Valid()
      ensures View(Idle) == if aboutToExit then old(View(Idle)) else PushAll(old(View(Idle)), tickers)
      ensures Texts(portfolioQueue) == Texts(old(portfolioQueue)) + if aboutToExit then [] else tickers
    {
      if !aboutToExit {
        PushAllIs(View(Idle), tickers);
        PushTickers(tickers);
        assert portfolioQueue == View(Idle).coins.queue;
      }
    }

    // its loop
    method PushTickers(tickers: seq<Ticker>)
      requires Valid()
      modifies `portfolioQueue, `coinPast, `nextBlock
      ensures Valid() && View(Idle) == PushAll(old(View(Idle)), tickers)
    {
      ghost var was := View(Idle);
      var i := 0;
      assert tickers[..0] == [];
      while i < |tickers|
        invariant 0 <= i <= |tickers| && Valid() && View(Idle) == PushAll(was, tickers[..i])
      {
        assert tickers[..i + 1][..i] == tickers[..i];
        portfolioQueue := portfolioQueue + [Ptr(nextBlock, tickers[i])];
        coinPast := PushOne(coinPast, tickers[i]);
        nextBlock := nextBlock + 1;
        i := i + 1;
      }
      assert tickers[..i] == tickers;
    }

    // on_process_orders_and_swaps_finished_event
    method OnOrdersAndSwapsFinished(afterManualReset: bool)
      requires connected
      modifies `actionsQueue, `actionPast
      ensures var a := if afterManualReset then OrdersAndSwapsReset else OrdersAndSwaps;
        View(Idle) == (if aboutToExit then old(View(Idle)) else PushActionNow(old(View(Idle)), a)) &&
        actionsQueue == old(actionsQueue) + if aboutToExit then [] else [a]
    {
      if !aboutToExit {
        var a := if afterManualReset then OrdersAndSwapsReset else OrdersAndSwaps;
        actionsQueue := actionsQueue + [a];
        actionPast := actionPast.(pushed := actionPast.pushed + [a]);
      }
    }
  }
}
