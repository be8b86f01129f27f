// The application's queues, flags and wallet status as a transition system: the
// GUI thread works through tick and disconnect one step at a time while event
// handlers on other threads push into the queues.
module Lifecycle {
  import opened Lists

  type Ticker = string

  const PRIMARY: Ticker := "CLC"
  const SECONDARY: Ticker := "KMD"

  datatype Action = OrdersAndSwaps | OrdersAndSwapsReset

  // What strdup returned: a block, and the text in it.
  datatype Ptr = Ptr(block: nat, text: Ticker)

  datatype Status = NoStatus | InitializingMm2 | EnablingCoins | Complete

  // Where the GUI thread is.
  datatype Pc =
    | Idle
    | TickClear(running: bool)      // signals connected, the refresh flag still set
    | TickCoins(batch: seq<Ticker>) // popping m_portfolio_queue into to_init
    | TickInit(batch: seq<Ticker>)  // initialize_portfolio(to_init)
    | TickStatus
    | TickActions
    | DrainActions
    | DrainCoins
    | Unsubscribe
    | MarkRefresh
    | ClearSecondary
    | ClearPrimary
    | SetNone

  // A ticker that left the queue: taken by a tick, or dropped by a disconnect.
  datatype Fate = Fate(ticker: Ticker, taken: bool)

  // m_portfolio_queue, with its history: what was pushed, what became of it, the
  // memory blocks not yet freed, the batches initialised, how much had been pushed
  // when a disconnect last found the queue empty, and how much had been consumed
  // when one last lowered the coin flags.
  datatype CoinQueue = CoinQueue(
    queue: seq<Ptr>,
    pushed: seq<Ticker>,
    consumed: seq<Fate>,
    unfreed: set<nat>,
    batches: seq<seq<Ticker>>,
    mark: nat,
    began: nat)

  // m_actions_queue, with the same history; handled are the actions a tick popped.
  datatype ActionQueue = ActionQueue(
    queue: seq<Action>,
    pushed: seq<Action>,
    popped: nat,
    handled: seq<Action>,
    mark: nat)

  datatype Flags = Flags(
    exiting: bool,
    refresh: bool,
    primary: bool,
    secondary: bool,
    connected: bool,
    status: Status)

  // A task is a handler past its exit test, with what it has yet to push.
  datatype State = State(
    pc: Pc,
    flags: Flags,
    coins: CoinQueue,
    actions: ActionQueue,
    coinTasks: seq<seq<Ticker>>,
    actionTasks: seq<Action>)

  const START := State(
    Idle, Flags(false, false, false, false, true, NoStatus), CoinQueue([], [], [], {}, [], 0, 0),
    ActionQueue([], [], 0, [], 0), [], [])

  datatype Event =
    | Gui                          // the GUI thread's next step
    | BeginTick(running: bool)     // whether mm2 is running
    | BeginDisconnect
    | Exit
    | Login
    | StartCoins(tickers: seq<Ticker>)  // on_coin_fully_initialized_event
    | PushCoin(task: nat)
    | StartAction(action: Action)       // on_process_orders_and_swaps_finished_event
    | PushAction(task: nat)
    | Mm2Ready                          // on_mm2_initialized_event

  predicate Enabled(s: State, e: Event) {
    match e
    case Gui => s.pc != Idle
    case BeginTick(_) => s.pc == Idle
    case BeginDisconnect => s.pc == Idle
    case Exit => s.pc == Idle
    case Login => s.pc == Idle
    case StartCoins(_) => s.flags.connected
    case PushCoin(i) => i < |s.coinTasks| && s.coinTasks[i] != []
    case StartAction(_) => s.flags.connected
    case PushAction(i) => i < |s.actionTasks|
    case Mm2Ready => s.flags.connected
  }

  // --------------------------------------------------------------- GUI thread

  // pop and free
  function PopCoin(c: CoinQueue, taken: bool): CoinQueue
    requires c.queue != []
  {
    c.(queue := c.queue[1..],
       consumed := c.consumed + [Fate(c.queue[0].text, taken)],
       unfreed := c.unfreed - {c.queue[0].block})
  }

  function LowerFlags(c: CoinQueue): CoinQueue {
    c.(began := |c.consumed|)
  }

  function InitBatch(c: CoinQueue, batch: seq<Ticker>): CoinQueue {
    c.(batches := c.batches + [batch])
  }

  function SeeTicker(f: Flags, ticker: Ticker): Flags {
    f.(primary := f.primary || ticker == PRIMARY,
       secondary := f.secondary || ticker == SECONDARY)
  }

  function PopAction(a: ActionQueue, byTick: bool): ActionQueue
    requires a.queue != []
  {
    a.(queue := a.queue[1..], popped := a.popped + 1, handled := if byTick then a.handled + [a.queue[0]] else a.handled)
  }

  function AfterConnect(running: bool): Pc {
    if running then TickCoins([]) else TickActions
  }

  function GuiFx(s: State): State {
    match s.pc
    case Idle => s
    case TickClear(running) => s.(flags := s.flags.(refresh := false), pc := AfterConnect(running))
    case TickCoins(batch) =>
      if s.coins.queue != [] then
        var ticker := s.coins.queue[0].text;
        s.(pc := TickCoins(batch + [ticker]), flags := SeeTicker(s.flags, ticker), coins := PopCoin(s.coins, true))
      else s.(pc := if batch != [] then TickInit(batch) else TickActions)
    case TickInit(batch) => s.(pc := TickStatus, coins := InitBatch(s.coins, batch))
    case TickStatus =>
      s.(pc := TickActions,
         flags := if s.flags.primary && s.flags.secondary then s.flags.(status := Complete) else s.flags)
    case TickActions =>
      if s.actions.queue == [] || s.flags.exiting then s.(pc := Idle) else s.(actions := PopAction(s.actions, true))
    case DrainActions =>
      if s.actions.queue == [] then s.(pc := DrainCoins, actions := s.actions.(mark := |s.actions.pushed|))
      else s.(actions := PopAction(s.actions, false))
    case DrainCoins =>
      if s.coins.queue == [] then s.(pc := Unsubscribe, coins := s.coins.(mark := |s.coins.pushed|))
      else s.(coins := PopCoin(s.coins, false))
    case Unsubscribe => s.(pc := MarkRefresh, flags := s.flags.(connected := false))
    case MarkRefresh => s.(pc := ClearSecondary, flags := s.flags.(refresh := true))
    case ClearSecondary =>
      s.(pc := ClearPrimary, flags := s.flags.(secondary := false), coins := LowerFlags(s.coins))
    case ClearPrimary => s.(pc := SetNone, flags := s.flags.(primary := false))
    case SetNone => s.(pc := Idle, flags := s.flags.(status := NoStatus))
  }

  function BeginTickFx(s: State, running: bool): State {
    if s.flags.refresh then s.(flags := s.flags.(connected := true), pc := TickClear(running))
    else s.(pc := AfterConnect(running))
  }

  // ------------------------------------------------------------ other threads

  function PushOne(c: CoinQueue, ticker: Ticker): CoinQueue {
    var block := |c.pushed|;
    c.(queue := c.queue + [Ptr(block, ticker)], pushed := c.pushed + [ticker], unfreed := c.unfreed + {block})
  }

  function PushCoinFx(s: State, i: nat): State
    requires i < |s.coinTasks| && s.coinTasks[i] != []
  {
    s.(coinTasks := s.coinTasks[i := s.coinTasks[i][1..]], coins := PushOne(s.coins, s.coinTasks[i][0]))
  }

  function PushActionFx(s: State, i: nat): State
    requires i < |s.actionTasks|
  {
    s.(actionTasks := s.actionTasks[..i] + s.actionTasks[i + 1..],
       actions := s.actions.(
         queue := s.actions.queue + [s.actionTasks[i]],
         pushed := s.actions.pushed + [s.actionTasks[i]]))
  }

  function Next(s: State, e: Event): State
    requires Enabled(s, e)
  {
    match e
    case Gui => GuiFx(s)
    case BeginTick(running) => BeginTickFx(s, running)
    case BeginDisconnect => s.(pc := DrainActions)
    case Exit => s.(flags := s.flags.(exiting := true))
    case Login => s.(flags := s.flags.(status := InitializingMm2))
    case StartCoins(tickers) => if s.flags.exiting then s else s.(coinTasks := s.coinTasks + [tickers])
    case PushCoin(i) => PushCoinFx(s, i)
    case StartAction(a) => if s.flags.exiting then s else s.(actionTasks := s.actionTasks + [a])
    case PushAction(i) => PushActionFx(s, i)
    case Mm2Ready => s.(flags := s.flags.(status := EnablingCoins))
  }

  // The state after a run, every event of which was enabled in its turn.
  predicate Runs(s: State, events: seq<Event>) {
    events == [] ||
    (Runs(s, events[..|events| - 1]) && Enabled(After(s, events[..|events| - 1]), events[|events| - 1]))
  }

  function After(s: State, events: seq<Event>): State {
    if events == [] then s
    else
      var t := After(s, events[..|events| - 1]);
      if Enabled(t, events[|events| - 1]) then Next(t, events[|events| - 1]) else t
  }

  // -------------------------------------------------------------- conservation

  function Texts(ps: seq<Ptr>): (ts: seq<Ticker>)
    ensures |ts| == |ps| && forall i | 0 <= i < |ps| :: ts[i] == ps[i].text
  {
    if ps == [] then [] else [ps[0].text] + Texts(ps[1..])
  }

  function Tickers(fs: seq<Fate>): (ts: seq<Ticker>)
    ensures |ts| == |fs| && forall i | 0 <= i < |fs| :: ts[i] == fs[i].ticker
  {
    if fs == [] then [] else Tickers(fs[..|fs| - 1]) + [fs[|fs| - 1].ticker]
  }

  function Taken(fs: seq<Fate>): seq<Ticker> {
    if fs == [] then []
    else if fs[|fs| - 1].taken then Taken(fs[..|fs| - 1]) + [fs[|fs| - 1].ticker]
    else Taken(fs[..|fs| - 1])
  }

  function Batch(pc: Pc): seq<Ticker> {
    match pc
    case TickCoins(batch) => batch
    case TickInit(batch) => batch
    case _ => []
  }

  // Everything pushed has been consumed, in order, or is queued; the unfreed
  // blocks are those of the queue; and what ticks took is what was initialised,
  // once each and in push order, up to the batch in hand.
  ghost predicate Balanced(c: CoinQueue, batch: seq<Ticker>) {
    c.pushed == Tickers(c.consumed) + Texts(c.queue) &&
    (forall i | 0 <= i < |c.queue| :: c.queue[i].block == |c.consumed| + i) &&
    (forall b :: b in c.unfreed <==> |c.consumed| <= b < |c.pushed|) &&
    Flat(c.batches) + batch == Taken(c.consumed)
  }

  ghost predicate Conserved(s: State) {
    Balanced(s.coins, Batch(s.pc))
  }

  lemma TextsFirst(ps: seq<Ptr>)
    requires ps != []
    ensures Texts(ps) == [ps[0].text] + Texts(ps[1..])
  {
  }

  lemma TextsSnoc(ps: seq<Ptr>, last: Ptr)
    ensures Texts(ps + [last]) == Texts(ps) + [last.text]
  {
  }

  lemma FatesSnoc(fs: seq<Fate>, last: Fate)
    ensures Tickers(fs + [last]) == Tickers(fs) + [last.ticker]
    ensures Taken(fs + [last]) == Taken(fs) + if last.taken then [last.ticker] else []
  {
    assert (fs + [last])[..|fs|] == fs;
  }

  lemma BalancedPop(c: CoinQueue, batch: seq<Ticker>, taken: bool)
    requires Balanced(c, batch) && c.queue != []
    ensures Balanced(PopCoin(c, taken), if taken then batch + [c.queue[0].text] else batch)
  {
    var ticker := c.queue[0].text;
    FatesSnoc(c.consumed, Fate(ticker, taken));
    TextsFirst(c.queue);
    Associate(Tickers(c.consumed), [ticker], Texts(c.queue[1..]));
    Associate(Flat(c.batches), batch, [ticker]);
    assert c.queue[0].block == |c.consumed|;
  }

  lemma BalancedPush(c: CoinQueue, batch: seq<Ticker>, ticker: Ticker)
    requires Balanced(c, batch)
    ensures Balanced(PushOne(c, ticker), batch)
  {
    assert |c.pushed| == |c.consumed| + |c.queue|;
    TextsSnoc(c.queue, Ptr(|c.pushed|, ticker));
    Associate(Tickers(c.consumed), Texts(c.queue), [ticker]);
  }

  lemma BalancedInit(c: CoinQueue, batch: seq<Ticker>)
    requires Balanced(c, batch)
    ensures Balanced(InitBatch(c, batch), [])
  {
    var d := InitBatch(c, batch);
    assert d.batches[..|c.batches|] == c.batches;
    assert Flat(d.batches) + [] == Flat(c.batches) + batch;
  }

  // The steps that pop no coin and start no batch.
  predicate LeavesCoins(s: State) {
    match s.pc
    case TickCoins(_) => s.coins.queue == []
    case TickInit(_) => false
    case DrainCoins => s.coins.queue == []
    case _ => true
  }

  lemma GuiElsewhere(s: State)
    requires LeavesCoins(s)
    ensures var c := GuiFx(s).coins; c == s.coins.(mark := c.mark, began := c.began)
    ensures Batch(GuiFx(s).pc) == Batch(s.pc)
  {
    match s.pc
    case TickClear(running) => assert Batch(AfterConnect(running)) == [];
    case TickCoins(_) =>
    case DrainCoins =>
    case Idle =>
    case TickStatus =>
    case TickActions =>
    case DrainActions =>
    case Unsubscribe =>
    case MarkRefresh =>
    case ClearSecondary =>
    case ClearPrimary =>
    case SetNone =>
  }

  lemma BalancedMark(c: CoinQueue, batch: seq<Ticker>, mark: nat, began: nat)
    requires Balanced(c, batch)
    ensures Balanced(c.(mark := mark, began := began), batch)
  {
  }

  lemma GuiConserves(s: State)
    requires Conserved(s)
    ensures Conserved(GuiFx(s))
  {
    if LeavesCoins(s) {
      GuiElsewhere(s);
      BalancedMark(s.coins, Batch(s.pc), GuiFx(s).coins.mark, GuiFx(s).coins.began);
    } else {
      match s.pc
      case TickCoins(batch) => BalancedPop(s.coins, batch, true);
      case TickInit(batch) => BalancedInit(s.coins, batch);
      case DrainCoins => BalancedPop(s.coins, [], false);
    }
  }

  lemma PushConserves(s: State, i: nat)
    requires Conserved(s) && i < |s.coinTasks| && s.coinTasks[i] != []
    ensures Conserved(PushCoinFx(s, i))
  {
    BalancedPush(s.coins, Batch(s.pc), s.coinTasks[i][0]);
  }

  lemma NextConserves(s: State, e: Event)
    requires Conserved(s) && Enabled(s, e)
    ensures Conserved(Next(s, e))
  {
    match e
    case Gui => GuiConserves(s);
    case PushCoin(i) => PushConserves(s, i);
    case BeginTick(running) => assert Batch(AfterConnect(running)) == [];
    case BeginDisconnect =>
    case Exit =>
    case Login =>
    case StartCoins(_) =>
    case StartAction(_) =>
    case PushAction(_) =>
    case Mm2Ready =>
  }

  // Over every interleaving of pushes with the pops of tick and disconnect.
  lemma {:induction false} Conservation(events: seq<Event>)
    requires Runs(START, events)
    ensures Conserved(After(START, events))
  {
    if events != [] {
      var n := |events| - 1;
      Conservation(events[..n]);
      NextConserves(After(START, events[..n]), events[n]);
    }
  }

  // ------------------------------------------------------------------ sessions

  // Handlers are connected exactly when no refresh is due, but for the two
  // points at which one of the two has changed and the other is about to be set.
  ghost predicate Subscribed(s: State) {
    match s.pc
    case MarkRefresh => !s.flags.connected
    case TickClear(_) => s.flags.connected && s.flags.refresh
    case _ => s.flags.connected == !s.flags.refresh
  }

  predicate InTickBody(pc: Pc) {
    pc.TickCoins? || pc.TickInit? || pc.TickStatus? || pc.TickActions?
  }

  // While a refresh is due the GUI thread is not in the body of a tick.
  ghost predicate RefreshOk(s: State) {
    (s.flags.refresh ==> !InTickBody(s.pc)) &&
    (s.pc.ClearSecondary? || s.pc.ClearPrimary? || s.pc.SetNone? ==> s.flags.refresh)
  }

  // From the moment disconnect has found a queue empty until a tick connects the
  // handlers again, which starts a new session.
  predicate CoinsQuiet(s: State) {
    s.pc.Unsubscribe? || s.pc.MarkRefresh? || (s.flags.refresh && !s.pc.DrainCoins? && !s.pc.TickClear?)
  }

  predicate ActionsQuiet(s: State) {
    s.pc.DrainCoins? || s.pc.Unsubscribe? || s.pc.MarkRefresh? ||
    (s.flags.refresh && !s.pc.DrainActions? && !s.pc.TickClear?)
  }

  ghost predicate ActionsOk(a: ActionQueue) {
    a.popped <= |a.pushed| && a.queue == a.pushed[a.popped..]
  }

  // In that time nothing is consumed.
  ghost predicate MarksOk(s: State) {
    ActionsOk(s.actions) &&
    (CoinsQuiet(s) ==> |s.coins.consumed| == s.coins.mark) && (ActionsQuiet(s) ==> s.actions.popped == s.actions.mark)
  }

  // What ticks have taken since the flags were last lowered.
  function TakenSinceLowered(c: CoinQueue): seq<Ticker>
    requires c.began <= |c.consumed|
  {
    Taken(c.consumed[c.began..])
  }

  // Disconnect has drained the queues and not yet lowered the first flag.
  predicate Closing(pc: Pc) {
    pc.Unsubscribe? || pc.MarkRefresh? || pc.ClearSecondary?
  }

  // The flags were last lowered when a disconnect last found the queue empty,
  // unless one has just done so and is about to lower them.
  ghost predicate BeganOk(s: State) {
    s.coins.began <= s.coins.mark <= |s.coins.consumed| &&
    (if Closing(s.pc) then s.coins.mark == |s.coins.consumed| else s.coins.began == s.coins.mark)
  }

  // Each flag records whether ticks have taken its coin since then, and a complete
  // status needs both, but for the last steps of a disconnect.
  ghost predicate FlagsOk(s: State) {
    BeganOk(s) &&
    var f, taken := s.flags, TakenSinceLowered(s.coins);
    (f.secondary <==> SECONDARY in taken) &&
    (s.pc.ClearPrimary? || (f.primary <==> PRIMARY in taken)) &&
    (f.status == Complete ==> (f.primary && f.secondary) || s.pc.ClearPrimary? || s.pc.SetNone?) &&
    (f.refresh && !s.pc.ClearSecondary? ==> taken == [])
  }

  ghost predicate Inv(s: State) {
    Conserved(s) && Subscribed(s) && RefreshOk(s) && MarksOk(s) && FlagsOk(s)
  }

  lemma NextKeepsControl(s: State, e: Event)
    requires Enabled(s, e) && Subscribed(s) && RefreshOk(s)
    ensures Subscribed(Next(s, e)) && RefreshOk(Next(s, e))
  {
  }

  lemma PopTaken(c: CoinQueue, taken: bool)
    requires c.queue != [] && c.began <= |c.consumed|
    ensures TakenSinceLowered(PopCoin(c, taken)) == TakenSinceLowered(c) + if taken then [c.queue[0].text] else []
  {
    var d, fates := PopCoin(c, taken), c.consumed[c.began..];
    assert d.consumed[c.began..] == fates + [Fate(c.queue[0].text, taken)];
    assert d.consumed[c.began..][..|fates|] == fates;
  }

  lemma PopKeepsFlags(s: State)
    requires RefreshOk(s) && FlagsOk(s) && s.coins.queue != [] && (s.pc.TickCoins? || s.pc.DrainCoins?)
    ensures FlagsOk(GuiFx(s))
  {
    PopTaken(s.coins, s.pc.TickCoins?);
  }

  lemma DrainedKeepsFlags(s: State)
    requires Conserved(s) && FlagsOk(s) && s.coins.queue == [] && s.pc.DrainCoins?
    ensures FlagsOk(GuiFx(s))
  {
    assert Texts(s.coins.queue) == [];
  }

  lemma GuiKeepsFlags(s: State)
    requires Conserved(s) && Subscribed(s) && RefreshOk(s) && MarksOk(s) && FlagsOk(s)
    ensures FlagsOk(GuiFx(s))
  {
    match s.pc
    case TickCoins(_) => if s.coins.queue != [] { PopKeepsFlags(s); }
    case DrainCoins => if s.coins.queue != [] { PopKeepsFlags(s); } else { DrainedKeepsFlags(s); }
    case TickClear(running) => assert InTickBody(AfterConnect(running));
    case TickInit(_) =>
    case Idle =>
    case TickStatus =>
    case TickActions =>
    case DrainActions =>
    case Unsubscribe =>
    case MarkRefresh =>
    case ClearSecondary =>
    case ClearPrimary =>
    case SetNone =>
  }

  lemma NextKeepsFlags(s: State, e: Event)
    requires Enabled(s, e) && Conserved(s) && Subscribed(s) && RefreshOk(s) && MarksOk(s) && FlagsOk(s)
    ensures FlagsOk(Next(s, e))
  {
    match e
    case Gui => GuiKeepsFlags(s);
    case BeginTick(running) => assert InTickBody(AfterConnect(running));
    case _ =>
  }

  lemma PopActionOk(a: ActionQueue, byTick: bool)
    requires ActionsOk(a) && a.queue != []
    ensures ActionsOk(PopAction(a, byTick))
  {
    assert a.pushed[a.popped..][1..] == a.pushed[a.popped + 1..];
  }

  lemma GuiKeepsMarks(s: State)
    requires Conserved(s) && RefreshOk(s) && MarksOk(s)
    ensures MarksOk(GuiFx(s))
  {
    match s.pc
    case TickActions => if s.actions.queue != [] { PopActionOk(s.actions, true); }
    case DrainActions => if s.actions.queue != [] { PopActionOk(s.actions, false); }
    case DrainCoins => assert s.coins.queue == [] ==> Texts(s.coins.queue) == [];
    case TickClear(running) => assert InTickBody(AfterConnect(running));
    case TickCoins(_) =>
    case TickInit(_) =>
    case Idle =>
    case TickStatus =>
    case Unsubscribe =>
    case MarkRefresh =>
    case ClearSecondary =>
    case ClearPrimary =>
    case SetNone =>
  }

  lemma NextKeepsMarks(s: State, e: Event)
    requires Enabled(s, e) && Conserved(s) && RefreshOk(s) && MarksOk(s)
    ensures MarksOk(Next(s, e))
  {
    match e
    case Gui => GuiKeepsMarks(s);
    case PushAction(i) =>
      var a := s.actionTasks[i];
      assert s.actions.queue + [a] == (s.actions.pushed + [a])[s.actions.popped..];
    case _ =>
  }

  lemma {:induction false} Reachable(events: seq<Event>)
    requires Runs(START, events)
    ensures Inv(After(START, events))
  {
    if events != [] {
      var n := |events| - 1;
      Reachable(events[..n]);
      var s := After(START, events[..n]);
      NextConserves(s, events[n]);
      NextKeepsControl(s, events[n]);
      NextKeepsMarks(s, events[n]);
      NextKeepsFlags(s, events[n]);
    }
  }

  // With a refresh due and the GUI thread at rest, handlers are disconnected,
  // both flags are down, the status is not complete, and each queue holds exactly
  // what was pushed since disconnect found it empty; so it is empty exactly if
  // nothing was.
  ghost predicate SessionOver(s: State) {
    var f, c, a := s.flags, s.coins, s.actions;
    !f.connected && !f.primary && !f.secondary && f.status != Complete &&
    c.mark <= |c.pushed| && Texts(c.queue) == c.pushed[c.mark..] &&
    a.mark <= |a.pushed| && a.queue == a.pushed[a.mark..] &&
    (c.queue == [] <==> c.mark == |c.pushed|) && (a.queue == [] <==> a.mark == |a.pushed|)
  }

  lemma SessionEnd(events: seq<Event>)
    requires Runs(START, events)
    requires After(START, events).pc == Idle && After(START, events).flags.refresh
    ensures SessionOver(After(START, events))
  {
    Reachable(events);
    RestingIsOver(After(START, events));
  }

  lemma RestingIsOver(s: State)
    requires Inv(s) && s.pc == Idle && s.flags.refresh
    ensures SessionOver(s)
  {
    var c := s.coins;
    assert |c.pushed| == |c.consumed| + |c.queue|;
    assert c.pushed[|c.consumed|..] == Texts(c.queue);
  }

  lemma RunNext(s: State, events: seq<Event>, e: Event)
    requires Runs(s, events) && Enabled(After(s, events), e)
    ensures Runs(s, events + [e]) && After(s, events + [e]) == Next(After(s, events), e)
  {
    assert (events + [e])[..|events|] == events;
  }

  function Guis(n: nat): seq<Event> {
    if n == 0 then [] else Guis(n - 1) + [Gui]
  }

  // Successive states of the GUI thread at work.
  ghost predicate IsPath(s: State, path: seq<State>) {
    path != [] && path[0] == s &&
    forall k | 0 <= k < |path| - 1 :: IsStep(path[k], path[k + 1])
  }

  predicate IsStep(s: State, t: State) {
    s.pc != Idle && t == GuiFx(s)
  }

  lemma {:induction false} RunPath(s: State, events: seq<Event>, path: seq<State>)
    requires Runs(s, events) && IsPath(After(s, events), path)
    ensures var run := events + Guis(|path| - 1); Runs(s, run) && After(s, run) == path[|path| - 1]
  {
    var n := |path| - 1;
    if n == 0 {
      assert events + [] == events;
    } else {
      RunPath(s, events, path[..n]);
      assert IsStep(path[n - 1], path[n - 1 + 1]);
      OneMoreGui(s, events, n, path[n - 1], path[n]);
    }
  }

  lemma OneMoreGui(s: State, events: seq<Event>, n: nat, t: State, u: State)
    requires n > 0 && Runs(s, events + Guis(n - 1)) && After(s, events + Guis(n - 1)) == t && IsStep(t, u)
    ensures Runs(s, events + Guis(n)) && After(s, events + Guis(n)) == u
  {
    assert events + Guis(n) == events + Guis(n - 1) + [Gui];
    RunNext(s, events + Guis(n - 1), Gui);
  }

  lemma UnsubscribedPath(s: State) returns (path: seq<State>)
    requires s.pc.Unsubscribe?
    ensures |path| == 6 && IsPath(s, path)
    ensures path[5].pc == Idle && path[5].flags.refresh
    ensures path[5].coins == LowerFlags(s.coins) && path[5].actions == s.actions
  {
    var a := GuiFx(s);
    var b := GuiFx(a);
    assert b.pc == ClearSecondary && b.flags.refresh && b.coins == s.coins && b.actions == s.actions;
    var c := GuiFx(b);
    var d := GuiFx(c);
    path := [s, a, b, c, d, GuiFx(d)];
  }

  // In every run: a handler that is past its test when disconnect unsubscribes
  // still gets its push in, and the ticker is queued for the next session.
  lemma PushInWindow(events: seq<Event>, i: nat)
    requires Runs(START, events) && After(START, events).pc.Unsubscribe? && After(START, events).coins.queue == []
    requires i < |After(START, events).coinTasks| && After(START, events).coinTasks[i] != []
    ensures var run := events + [PushCoin(i)] + Guis(5);
      Runs(START, run) &&
      var t := After(START, run);
      t.pc == Idle && t.flags.refresh && t.coins.mark < |t.coins.pushed| &&
      Texts(t.coins.queue) == [After(START, events).coinTasks[i][0]]
  {
    var s := After(START, events);
    RunNext(START, events, PushCoin(i));
    var path := UnsubscribedPath(PushCoinFx(s, i));
    RunPath(START, events + [PushCoin(i)], path);
    Reachable(events);
    assert Texts(PushOne(s.coins, s.coinTasks[i][0]).queue) == [s.coinTasks[i][0]];
  }

  // No push falls between a drain and the end of the session it belongs to.
  predicate Orderly(s: State, events: seq<Event>) {
    events == [] ||
    (var n := |events| - 1;
     Orderly(s, events[..n]) &&
     !(events[n].PushCoin? && CoinsQuiet(After(s, events[..n]))) &&
     !(events[n].PushAction? && ActionsQuiet(After(s, events[..n]))))
  }

  // With handlers atomic in that sense both queues are empty at rest.
  lemma {:induction false} OrderlySessions(events: seq<Event>)
    requires Runs(START, events) && Orderly(START, events)
    ensures var s := After(START, events);
      (CoinsQuiet(s) ==> s.coins.queue == []) && (ActionsQuiet(s) ==> s.actions.queue == [])
  {
    if events != [] {
      var n := |events| - 1;
      OrderlySessions(events[..n]);
      Reachable(events[..n]);
      NextStaysEmpty(After(START, events[..n]), events[n]);
    }
  }

  lemma NextStaysEmpty(s: State, e: Event)
    requires Enabled(s, e) && Subscribed(s) && RefreshOk(s)
    requires (CoinsQuiet(s) ==> s.coins.queue == []) && (ActionsQuiet(s) ==> s.actions.queue == [])
    requires !(e.PushCoin? && CoinsQuiet(s)) && !(e.PushAction? && ActionsQuiet(s))
    ensures var t := Next(s, e);
      (CoinsQuiet(t) ==> t.coins.queue == []) && (ActionsQuiet(t) ==> t.actions.queue == [])
  {
  }

  lemma NextAppends(s: State, e: Event)
    requires Enabled(s, e)
    ensures var c, d := s.coins, Next(s, e).coins;
      c.consumed <= d.consumed && c.pushed <= d.pushed && c.batches <= d.batches
    ensures s.actions.pushed <= Next(s, e).actions.pushed
  {
  }

  // Consumption only goes forward: what is taken after a state in which k
  // tickers had been consumed is, in order, what was pushed from the k-th on.
  lemma {:induction false} TakenLater(s: State, events: seq<Event>)
    requires Conserved(s) && Runs(s, events)
    ensures var c, d := s.coins, After(s, events).coins;
      Conserved(After(s, events)) &&
      c.consumed <= d.consumed && c.pushed <= d.pushed && c.batches <= d.batches &&
      forall i | |c.consumed| <= i < |d.consumed| :: d.consumed[i].ticker == d.pushed[i]
  {
    if events != [] {
      var n := |events| - 1;
      TakenLater(s, events[..n]);
      NextConserves(After(s, events[..n]), events[n]);
      NextAppends(After(s, events[..n]), events[n]);
    }
  }

  lemma {:induction false} TakenAppend(a: seq<Fate>, b: seq<Fate>)
    ensures Taken(a + b) == Taken(a) + Taken(b)
  {
    if b == [] {
      assert a + b == a;
    } else {
      var n := |b| - 1;
      assert (a + b)[..|a + b| - 1] == a + b[..n];
      TakenAppend(a, b[..n]);
    }
  }

  // No ticker pushed by the time of s has been taken by a tick between s and t; the
  // i-th ticker consumed is the i-th pushed.
  ghost predicate NothingOldTaken(s: State, t: State) {
    forall i | |s.coins.consumed| <= i < |t.coins.consumed| && t.coins.consumed[i].taken :: i >= |s.coins.pushed|
  }

  // What has been initialised between s and t, with the batch in hand, is what ticks
  // took of the tickers from the n-th pushed on, in order.
  ghost predicate InitialisedFrom(s: State, t: State, n: nat) {
    var c, d := s.coins, t.coins;
    n <= |d.consumed| <= |d.pushed| && c.batches <= d.batches &&
    Flat(d.batches[|c.batches|..]) + Batch(t.pc) == Taken(d.consumed[n..]) &&
    Tickers(d.consumed[n..]) == d.pushed[n..|d.consumed|]
  }

  lemma CancelPrefix(a: seq<Ticker>, x: seq<Ticker>, y: seq<Ticker>)
    requires a + x == a + y
    ensures x == y
  {
    assert x == (a + x)[|a|..] && y == (a + y)[|a|..];
  }

  lemma TakenSince(c: CoinQueue, d: CoinQueue, batch: seq<Ticker>)
    requires c.consumed <= d.consumed && c.batches <= d.batches
    requires Flat(c.batches) == Taken(c.consumed) && Flat(d.batches) + batch == Taken(d.consumed)
    ensures Flat(d.batches[|c.batches|..]) + batch == Taken(d.consumed[|c.consumed|..])
  {
    var fates, bs := d.consumed[|c.consumed|..], d.batches[|c.batches|..];
    assert d.consumed == c.consumed + fates && d.batches == c.batches + bs;
    TakenOf(c.consumed, fates, c.batches, bs, batch);
  }

  lemma TakenOf(fs: seq<Fate>, more: seq<Fate>, a: seq<seq<Ticker>>, b: seq<seq<Ticker>>, batch: seq<Ticker>)
    requires Flat(a) == Taken(fs) && Flat(a + b) + batch == Taken(fs + more)
    ensures Flat(b) + batch == Taken(more)
  {
    TakenAppend(fs, more);
    FlatAppend(a, b);
    CancelFlat(Flat(a), Flat(b), batch, Taken(more));
  }

  lemma CancelFlat(a: seq<Ticker>, x: seq<Ticker>, batch: seq<Ticker>, y: seq<Ticker>)
    requires a + x + batch == a + y
    ensures x + batch == y
  {
    assert a + x + batch == a + (x + batch);
    CancelPrefix(a, x + batch, y);
  }

  // Whatever happens after a session has ended with an empty queue, nothing pushed
  // before is ever taken, and what is initialised was pushed since.
  lemma SessionIsolation(s: State, late: seq<Event>)
    requires Inv(s) && s.pc == Idle && s.flags.refresh && s.coins.queue == [] && Runs(s, late)
    ensures NothingOldTaken(s, After(s, late))
    ensures InitialisedFrom(s, After(s, late), |s.coins.pushed|)
  {
    TakenLater(s, late);
    var c, t := s.coins, After(s, late);
    assert Flat(c.batches) + [] == Flat(c.batches);
    TakenSince(c, t.coins, Batch(t.pc));
    assert |c.pushed| == |c.consumed| && |t.coins.consumed| <= |t.coins.pushed|;
  }

  lemma FirstTickPath(s: State) returns (path: seq<State>)
    requires s.pc == Idle && s.flags.refresh && s.coins.queue != []
    ensures |path| == 3 && IsPath(BeginTickFx(s, true), path)
    ensures path[2].pc == TickCoins([s.coins.queue[0].text]) && path[2].coins == PopCoin(s.coins, true)
  {
    var u := BeginTickFx(s, true);
    var a := GuiFx(u);
    assert a.pc == TickCoins([]) && a.coins == s.coins;
    assert [] + [s.coins.queue[0].text] == [s.coins.queue[0].text];
    path := [u, a, GuiFx(a)];
  }

  // A ticker left in the queue at the end of a session is taken by the next tick.
  lemma LeftoverIsTaken(s: State)
    requires s.pc == Idle && s.flags.refresh && s.coins.queue != []
    ensures var late := [BeginTick(true)] + Guis(2);
      Runs(s, late) &&
      var t := After(s, late);
      t.pc == TickCoins([s.coins.queue[0].text]) && t.coins == PopCoin(s.coins, true)
  {
    RunNext(s, [], BeginTick(true));
    assert [] + [BeginTick(true)] == [BeginTick(true)];
    var path := FirstTickPath(s);
    RunPath(s, [BeginTick(true)], path);
  }

  // Nothing pushed before a session has ended is taken in any later run, exactly if
  // the queue is empty at its end; which it is, by OrderlySessions, if no push falls
  // into the gap.
  lemma IsolationExactly(early: seq<Event>)
    requires Runs(START, early) && After(START, early).pc == Idle && After(START, early).flags.refresh
    ensures var s := After(START, early);
      (forall late | Runs(s, late) :: NothingOldTaken(s, After(s, late))) <==> s.coins.queue == []
    ensures Orderly(START, early) ==> After(START, early).coins.queue == []
  {
    var s := After(START, early);
    Reachable(early);
    if Orderly(START, early) {
      OrderlySessions(early);
    }
    if s.coins.queue == [] {
      forall late | Runs(s, late) ensures NothingOldTaken(s, After(s, late)) {
        SessionIsolation(s, late);
      }
    } else {
      var late, n := [BeginTick(true)] + Guis(2), |s.coins.consumed|;
      LeftoverIsTaken(s);
      assert |s.coins.pushed| == n + |s.coins.queue|;
      assert After(s, late).coins.consumed[n].taken;
      assert !NothingOldTaken(s, After(s, late));
    }
  }

  // The gap is real: a ticker pushed while a disconnect unsubscribes is
  // initialised in the session after it.
  lemma TickerLeaks()
    ensures var early := [StartCoins(["X"]), BeginDisconnect] + Guis(2) + [PushCoin(0)] + Guis(5);
      var late := [BeginTick(true)] + Guis(2) + Guis(2);
      Runs(START, early) && Runs(After(START, early), late) &&
      var s, t := After(START, early), After(After(START, early), late);
      s.pc == Idle && s.flags.refresh && s.coins.pushed == ["X"] && s.coins.batches == [] &&
      t.coins.pushed == ["X"] && t.coins.batches == [["X"]]
  {
    WindowOpens();
    var run := [StartCoins(["X"]), BeginDisconnect] + Guis(2);
    PushInWindow(run, 0);
    RunNext(START, run, PushCoin(0));
    var u := After(START, run + [PushCoin(0)]);
    var path := UnsubscribedPath(u);
    RunPath(START, run + [PushCoin(0)], path);
    LeakedTick(After(START, run + [PushCoin(0)] + Guis(5)));
  }

  lemma TwoEvents(s: State, e: Event, f: Event)
    requires Enabled(s, e) && Enabled(Next(s, e), f)
    ensures Runs(s, [e, f]) && After(s, [e, f]) == Next(Next(s, e), f)
  {
    assert [] + [e] == [e] && [e] + [f] == [e, f];
    RunNext(s, [], e);
    RunNext(s, [e], f);
  }

  // A disconnect has drained both queues while a handler is past its exit test.
  lemma WindowOpens()
    ensures var run := [StartCoins(["X"]), BeginDisconnect] + Guis(2);
      Runs(START, run) &&
      var s := After(START, run);
      s.pc == Unsubscribe && s.coins == START.coins && s.coinTasks == [["X"]]
  {
    TwoEvents(START, StartCoins(["X"]), BeginDisconnect);
    var u := START.(coinTasks := [["X"]], pc := DrainActions);
    assert [] + [["X"]] == [["X"]];
    var a := GuiFx(u);
    assert a.pc == DrainCoins && a.coins == START.coins && a.coinTasks == [["X"]];
    RunPath(START, [StartCoins(["X"]), BeginDisconnect], [u, a, GuiFx(a)]);
  }

  lemma BatchSteps(u: State, was: CoinQueue, ticker: Ticker)
    requires was.queue != [] && u.pc == TickCoins([ticker]) && u.coins == PopCoin(was, true) && u.coins.queue == []
    ensures IsPath(u, [u, GuiFx(u), GuiFx(GuiFx(u))])
    ensures var d := GuiFx(GuiFx(u)).coins; d.pushed == was.pushed && d.batches == was.batches + [[ticker]]
  {
  }

  lemma LeakedTick(s: State)
    requires s.pc == Idle && s.flags.refresh && |s.coins.queue| == 1
    ensures var late := [BeginTick(true)] + Guis(2) + Guis(2);
      Runs(s, late) &&
      var d := After(s, late).coins;
      d.pushed == s.coins.pushed && d.batches == s.coins.batches + [[s.coins.queue[0].text]]
  {
    LeftoverIsTaken(s);
    var u := After(s, [BeginTick(true)] + Guis(2));
    BatchSteps(u, s.coins, s.coins.queue[0].text);
    RunPath(s, [BeginTick(true)] + Guis(2), [u, GuiFx(u), GuiFx(GuiFx(u))]);
  }

  // -------------------------------------------------------------------- status

  // In every run each flag says whether ticks have taken its coin since the flags
  // were last lowered, the primary one but for the step between lowering the two;
  // and that was when a disconnect last found the queue empty, unless one has just
  // done so, nothing having been consumed since.
  lemma FlagsAreHistory(events: seq<Event>)
    requires Runs(START, events)
    ensures var s := After(START, events);
      BeganOk(s) &&
      (s.flags.secondary <==> SECONDARY in TakenSinceLowered(s.coins)) &&
      (!s.pc.ClearPrimary? ==> (s.flags.primary <==> PRIMARY in TakenSinceLowered(s.coins)))
  {
    Reachable(events);
  }

  // While the status reads complete, both flags are set, and ticks have taken both
  // coins since the flags were last lowered, exactly if no disconnect is between
  // lowering the first of them and resetting the status.
  lemma StatusSafety(events: seq<Event>)
    requires Runs(START, events) && After(START, events).flags.status == Complete
    ensures BeganOk(After(START, events))
    ensures var s := After(START, events); var taken := TakenSinceLowered(s.coins);
      (s.flags.primary && s.flags.secondary && PRIMARY in taken && SECONDARY in taken)
      <==> !s.pc.ClearPrimary? && !s.pc.SetNone?
  {
    Reachable(events);
  }

  // Such a moment is reached.
  lemma StaleStatus()
    ensures var run := [StartCoins(["CLC", "KMD"]), PushCoin(0), PushCoin(0), BeginTick(true)] + Guis(6)
                       + [BeginDisconnect] + Guis(6);
      Runs(START, run) &&
      var s := After(START, run);
      s.pc == SetNone && s.flags.status == Complete && !s.flags.primary && !s.flags.secondary
  {
    BothEnabled();
    var run := [StartCoins([PRIMARY, SECONDARY]), PushCoin(0), PushCoin(0), BeginTick(true)] + Guis(6);
    var s := After(START, run);
    RunNext(START, run, BeginDisconnect);
    var path := DisconnectPath(s.(pc := DrainActions));
    RunPath(START, run + [BeginDisconnect], path);
  }

  lemma DisconnectPath(s: State) returns (path: seq<State>)
    requires s.pc == DrainActions && s.actions.queue == [] && s.coins.queue == []
    ensures |path| == 7 && IsPath(s, path)
    ensures path[6].pc == SetNone && path[6].flags.status == s.flags.status
    ensures !path[6].flags.primary && !path[6].flags.secondary
  {
    var a := GuiFx(s);
    var b := GuiFx(a);
    assert b.pc == Unsubscribe && b.flags == s.flags;
    var c := GuiFx(b);
    var d := GuiFx(c);
    assert d.pc == ClearSecondary && d.flags.status == s.flags.status;
    var e := GuiFx(d);
    path := [s, a, b, c, d, e, GuiFx(e)];
  }

  // A run that ends at rest with the status complete.
  lemma BothEnabled()
    ensures var run := [StartCoins([PRIMARY, SECONDARY]), PushCoin(0), PushCoin(0), BeginTick(true)] + Guis(6);
      Runs(START, run) &&
      var s := After(START, run);
      s.pc == Idle && s.flags.status == Complete && s.coins.queue == [] && s.actions.queue == []
  {
    BothPushed();
    var run := [StartCoins([PRIMARY, SECONDARY]), PushCoin(0), PushCoin(0)];
    var s := After(START, run);
    RunNext(START, run, BeginTick(true));
    assert run + [BeginTick(true)] == [StartCoins([PRIMARY, SECONDARY]), PushCoin(0), PushCoin(0), BeginTick(true)];
    var path := TickPath(s.(pc := TickCoins([])));
    RunPath(START, run + [BeginTick(true)], path);
  }

  lemma TickPath(s: State) returns (path: seq<State>)
    requires s.pc == TickCoins([]) && Texts(s.coins.queue) == [PRIMARY, SECONDARY] && s.actions.queue == []
    ensures |path| == 7 && IsPath(s, path)
    ensures path[6].pc == Idle && path[6].flags.status == Complete
    ensures path[6].coins.queue == [] && path[6].actions.queue == []
  {
    var a := GuiFx(s);
    var b := GuiFx(a);
    assert |s.coins.queue| == 2 && b.coins.queue == [] && b.actions == s.actions;
    assert b.flags.primary && b.flags.secondary;
    var c := GuiFx(b);
    assert c.pc.TickInit?;
    var d := GuiFx(c);
    var e := GuiFx(d);
    path := [s, a, b, c, d, e, GuiFx(e)];
  }

  lemma BothPushed()
    ensures var run := [StartCoins([PRIMARY, SECONDARY]), PushCoin(0), PushCoin(0)];
      Runs(START, run) &&
      var s := After(START, run);
      s.pc == Idle && !s.flags.refresh && Texts(s.coins.queue) == [PRIMARY, SECONDARY] && s.actions.queue == []
  {
    var start := StartCoins([PRIMARY, SECONDARY]);
    RunNext(START, [], start);
    assert [] + [start] == [start] && [] + [[PRIMARY, SECONDARY]] == [[PRIMARY, SECONDARY]];
    RunNext(START, [start], PushCoin(0));
    assert [start] + [PushCoin(0)] == [start, PushCoin(0)];
    assert After(START, [start, PushCoin(0)]).coinTasks == [[SECONDARY]];
    RunNext(START, [start, PushCoin(0)], PushCoin(0));
    assert [start, PushCoin(0)] + [PushCoin(0)] == [start, PushCoin(0), PushCoin(0)];
    var q := After(START, [start, PushCoin(0), PushCoin(0)]).coins.queue;
    assert |q| == 2 && q[0].text == PRIMARY && q[1].text == SECONDARY;
  }

  // -------------------------------------------------------------------- exit

  function Pending(tasks: seq<seq<Ticker>>): nat {
    if tasks == [] then 0 else Pending(tasks[..|tasks| - 1]) + |tasks[|tasks| - 1]|
  }

  lemma {:induction false} PendingUpdate(tasks: seq<seq<Ticker>>, i: nat, task: seq<Ticker>)
    requires i < |tasks|
    ensures Pending(tasks[i := task]) == Pending(tasks) - |tasks[i]| + |task|
  {
    var n := |tasks| - 1;
    if i < n {
      assert tasks[i := task][..n] == tasks[..n][i := task];
      PendingUpdate(tasks[..n], i, task);
    } else {
      assert tasks[i := task][..n] == tasks[..n];
    }
  }

  // What no event changes once exit is flagged.
  ghost predicate Frozen(s: State, t: State) {
    t.flags.exiting && t.actions.handled == s.actions.handled &&
    |t.coins.pushed| + Pending(t.coinTasks) == |s.coins.pushed| + Pending(s.coinTasks) &&
    |t.actions.pushed| + |t.actionTasks| == |s.actions.pushed| + |s.actionTasks|
  }

  lemma NextFreezes(s: State, e: Event)
    requires Enabled(s, e) && s.flags.exiting
    ensures Frozen(s, Next(s, e))
  {
    match e
    case PushCoin(i) => PendingUpdate(s.coinTasks, i, s.coinTasks[i][1..]);
    case Gui => GuiFreezes(s);
    case _ =>
  }

  lemma GuiFreezes(s: State)
    requires s.flags.exiting
    ensures Frozen(s, GuiFx(s))
  {
    match s.pc
    case TickClear(_) =>
    case TickCoins(_) =>
    case TickInit(_) =>
    case Idle =>
    case TickStatus =>
    case TickActions =>
    case DrainActions =>
    case DrainCoins =>
    case Unsubscribe =>
    case MarkRefresh =>
    case ClearSecondary =>
    case ClearPrimary =>
    case SetNone =>
  }

  // Once exit is flagged it stays so, no tick handles an action any more, and the
  // queues are pushed to only by handlers already past their test: each push uses
  // up one they had left.
  lemma {:induction false} ExitFreezes(s: State, events: seq<Event>)
    requires s.flags.exiting && Runs(s, events)
    ensures Frozen(s, After(s, events))
  {
    if events != [] {
      ExitFreezes(s, events[..|events| - 1]);
      NextFreezes(After(s, events[..|events| - 1]), events[|events| - 1]);
    }
  }

  // Only the exit handler flags the exit, and it changes nothing else.
  lemma NextExits(s: State, e: Event)
    requires Enabled(s, e)
    ensures Next(s, e).flags.exiting == (s.flags.exiting || e == Exit)
    ensures e == Exit ==> Next(s, e) == s.(flags := Next(s, e).flags) &&
                          Next(s, e).flags == s.flags.(exiting := true)
  {
    if e == Gui { GuiKeepsExiting(s); }
  }

  lemma GuiKeepsExiting(s: State)
    ensures GuiFx(s).flags.exiting == s.flags.exiting
  {
    match s.pc
    case TickClear(_) =>
    case TickCoins(_) =>
    case TickInit(_) =>
    case Idle =>
    case TickStatus =>
    case TickActions =>
    case DrainActions =>
    case DrainCoins =>
    case Unsubscribe =>
    case MarkRefresh =>
    case ClearSecondary =>
    case ClearPrimary =>
    case SetNone =>
  }

  lemma {:induction false} AfterBoth(s: State, early: seq<Event>, late: seq<Event>)
    ensures After(s, early + late) == After(After(s, early), late)
  {
    var all := early + late;
    if late == [] {
      assert all == early;
    } else {
      assert all[..|all| - 1] == early + late[..|late| - 1] && all[|all| - 1] == late[|late| - 1];
      AfterBoth(s, early, late[..|late| - 1]);
    }
  }

  // A run in two parts.
  lemma {:induction false} RunBoth(s: State, early: seq<Event>, late: seq<Event>)
    ensures Runs(s, early + late) <==> Runs(s, early) && Runs(After(s, early), late)
  {
    var all := early + late;
    if late == [] {
      assert all == early;
    } else {
      assert all[..|all| - 1] == early + late[..|late| - 1] && all[|all| - 1] == late[|late| - 1];
      AfterBoth(s, early, late[..|late| - 1]);
      RunBoth(s, early, late[..|late| - 1]);
    }
  }

  // After any run the exit is flagged exactly if it was before, or its handler has
  // run in between.
  lemma {:induction false} ExitingExactly(s: State, events: seq<Event>)
    requires Runs(s, events)
    ensures After(s, events).flags.exiting <==> s.flags.exiting || Exit in events
  {
    if events != [] {
      var n := |events| - 1;
      ExitingExactly(s, events[..n]);
      NextExits(After(s, events[..n]), events[n]);
      assert events == events[..n] + [events[n]];
    }
  }

  // From the exit handler on, in every run: the exit stays flagged, the actions
  // handled are those handled when it ran, and pushes only use up what handlers
  // past their test then had left.
  lemma ExitIsForGood(s: State, early: seq<Event>, late: seq<Event>)
    requires Runs(s, early + [Exit] + late)
    ensures var was, now := After(s, early), After(s, early + [Exit] + late);
      now.flags.exiting && now.actions.handled == was.actions.handled &&
      was.coins.pushed <= now.coins.pushed && was.actions.pushed <= now.actions.pushed &&
      |now.coins.pushed| - |was.coins.pushed| == Pending(was.coinTasks) - Pending(now.coinTasks) &&
      |now.actions.pushed| - |was.actions.pushed| == |was.actionTasks| - |now.actionTasks|
  {
    RunBoth(s, early + [Exit], late);
    AfterBoth(s, early + [Exit], late);
    RunBoth(s, early, [Exit]);
    AfterBoth(s, early, [Exit]);
    var was, mid := After(s, early), After(s, early + [Exit]);
    assert [Exit][..0] == [] && mid == Next(was, Exit);
    NextExits(was, Exit);
    ExitFreezes(mid, late);
    PushedGrows(mid, late);
  }

  lemma {:induction false} PushedGrows(s: State, events: seq<Event>)
    requires Runs(s, events)
    ensures s.coins.pushed <= After(s, events).coins.pushed && s.actions.pushed <= After(s, events).actions.pushed
  {
    if events != [] {
      PushedGrows(s, events[..|events| - 1]);
      NextAppends(After(s, events[..|events| - 1]), events[|events| - 1]);
    }
  }

  // The status changes at a login, when mm2 is ready, when a tick that initialised
  // something finds both flags set, and at the end of a disconnect.
  lemma StatusChanges(s: State, e: Event)
    requires Enabled(s, e)
    ensures Next(s, e).flags.status ==
      match e
      case Login => InitializingMm2
      case Mm2Ready => EnablingCoins
      case Gui =>
        if s.pc == TickStatus && s.flags.primary && s.flags.secondary then Complete
        else if s.pc == SetNone then NoStatus
        else s.flags.status
      case _ => s.flags.status
  {
    if e == Gui {
      match s.pc
      case TickClear(_) =>
      case TickCoins(_) =>
      case TickInit(_) =>
      case Idle =>
      case TickStatus =>
      case TickActions =>
      case DrainActions =>
      case DrainCoins =>
      case Unsubscribe =>
      case MarkRefresh =>
      case ClearSecondary =>
      case ClearPrimary =>
      case SetNone =>
    }
  }
}
