// exec and handleResponse: which callback runs on which response, under full
// re-entrancy and with ids counted in IEEE doubles.
module Requests {

  // ------------------------------------------------- the id counter, a double

  const TWO_53: nat := 0x20_0000_0000_0000

  // The double nearest to the integer n, ties to the even significand: p is the
  // spacing of the doubles around n, the least power of two with n < p * 2^53.
  function ToDouble(n: nat, p: nat): nat
    requires p >= 1
    decreases n - p
  {
    if n < p * TWO_53 then
      var q, r := n / p, n % p;
      if 2 * r < p || (2 * r == p && q % 2 == 0) then q * p else (q + 1) * p
    else ToDouble(n, 2 * p)
  }

  // x++ on a double holding an integer
  function Increment(x: nat): nat {
    ToDouble(x + 1, 1)
  }

  const TWO_64: nat := 0x1_0000_0000_0000_0000
  const TWO_320: nat := TWO_64 * TWO_64 * TWO_64 * TWO_64 * TWO_64

  // Number.MAX_VALUE, which is (2^53 - 1) * 2^971
  const MAX_VALUE: nat := 0xFFFF_FFFF_FFFF_F800 * TWO_320 * TWO_320 * TWO_320

  lemma IncrementExact(x: nat)
    requires x < TWO_53
    ensures Increment(x) == x + 1
  {
    if x + 1 == TWO_53 {
      assert ToDouble(TWO_53, 1) == ToDouble(TWO_53, 2);
    }
  }

  // 2^53 + 1 lies half-way between two doubles and rounds back down.
  lemma IncrementSticks()
    ensures Increment(TWO_53) == TWO_53
  {
    assert ToDouble(TWO_53 + 1, 1) == ToDouble(TWO_53 + 1, 2);
  }

  // The value of execId once n callback requests have been issued.
  function IdOf(n: nat): nat {
    if n == 0 then 0 else Increment(IdOf(n - 1))
  }

  lemma {:induction false} IdOfIs(n: nat)
    ensures IdOf(n) == if n <= TWO_53 then n else TWO_53
  {
    if n > 0 {
      IdOfIs(n - 1);
      if n <= TWO_53 { IncrementExact(n - 1); } else { IncrementSticks(); }
    }
  }

  // The first 2^53 + 1 callback requests get pairwise distinct ids, and no more than those.
  lemma IdsDistinctExactly(k: nat)
    ensures (forall i, j | 0 <= i < j < k :: IdOf(i) != IdOf(j)) <==> k <= TWO_53 + 1
  {
    if k <= TWO_53 + 1 {
      forall i, j | 0 <= i < j < k ensures IdOf(i) != IdOf(j) {
        IdOfIs(i);
        IdOfIs(j);
      }
    } else {
      IdOfIs(k - 2);
      IdOfIs(k - 1);
      assert IdOf(k - 2) == IdOf(k - 1);
    }
  }

  // execId === Number.MAX_VALUE is never true.
  lemma NeverWraps(n: nat)
    ensures IdOf(n) != MAX_VALUE
  {
    IdOfIs(n);
  }

  // ------------------------------------------------------ requests in flight

  // Requests with a callback are numbered in the order they are issued; the
  // number stands for the callback.  `pending` is execCallbacks.  `calls` is the
  // stack of handleResponse invocations whose callback has not returned: each
  // remembers the id it will delete and the request whose response it handles.
  // `ran` is the history of callbacks run, with the request actually answered;
  // `finished` and `thrown` are the requests whose callback returned or threw.
  datatype Call = Call(id: nat, answered: nat)
  datatype Ran = Ran(callback: nat, answered: nat)
  datatype Table = Table(
    execId: nat,
    issued: nat,
    pending: map<nat, nat>,
    calls: seq<Call>,
    ran: seq<Ran>,
    finished: set<nat>,
    thrown: set<nat>)

  const EMPTY := Table(0, 0, map[], [], [], {}, {})

  // Callbacks are arbitrary code and the transport may answer from inside send,
  // so any of these may happen whenever JavaScript runs at all; only returns are
  // bound to the stack.
  datatype Event =
    | Issue            // exec(data, callback)
    | Answer(n: nat)   // the host's response to request n arrives
    | Return           // the innermost callback returns, then the delete
    | Throw            // it throws instead, and nothing is deleted

  function IssueFx(t: Table): Table {
    t.(execId := Increment(t.execId), issued := t.issued + 1, pending := t.pending[t.execId := t.issued])
  }

  // The host echoes the id that request n was sent with.  A missing entry is a
  // TypeError: no callback runs and nothing is deleted.
  function AnswerFx(t: Table, n: nat): Table {
    var id := IdOf(n);
    if id !in t.pending then t
    else t.(calls := t.calls + [Call(id, n)], ran := t.ran + [Ran(t.pending[id], n)])
  }

  function ReturnFx(t: Table): Table
    requires t.calls != []
  {
    var call := t.calls[|t.calls| - 1];
    t.(calls := t.calls[..|t.calls| - 1], pending := t.pending - {call.id}, finished := t.finished + {call.answered})
  }

  function ThrowFx(t: Table): Table
    requires t.calls != []
  {
    t.(calls := t.calls[..|t.calls| - 1], thrown := t.thrown + {t.calls[|t.calls| - 1].answered})
  }

  // The host answers each issued request at most once.
  ghost predicate Allowed(t: Table, e: Event) {
    match e
    case Issue => true
    case Answer(n) => n < t.issued && forall r | r in t.ran :: r.answered != n
    case Return => t.calls != []
    case Throw => t.calls != []
  }

  ghost predicate Valid(events: seq<Event>) {
    events == [] ||
    (Valid(events[..|events| - 1]) && Allowed(Run(events[..|events| - 1]), events[|events| - 1]))
  }

  function Fx(t: Table, e: Event): Table {
    match e
    case Issue => IssueFx(t)
    case Answer(n) => AnswerFx(t, n)
    case Return => if t.calls == [] then t else ReturnFx(t)
    case Throw => if t.calls == [] then t else ThrowFx(t)
  }

  function Run(events: seq<Event>): Table {
    if events == [] then EMPTY else Fx(Run(events[..|events| - 1]), events[|events| - 1])
  }

  // ------------------------------------------------------------ correctness

  // Pending entries are exactly the unfinished requests, each under its own id
  // and with its own callback.
  ghost predicate PendingExact(t: Table) {
    (forall n: nat | n < t.issued && n !in t.finished :: IdOf(n) in t.pending && t.pending[IdOf(n)] == n) &&
    (forall id | id in t.pending ::
       t.pending[id] < t.issued && t.pending[id] !in t.finished && IdOf(t.pending[id]) == id)
  }

  // Every callback ran on the response to its own request, and at most once.
  ghost predicate RanOwn(t: Table) {
    (forall r | r in t.ran :: r.callback == r.answered < t.issued) &&
    (forall i, j | 0 <= i < j < |t.ran| :: t.ran[i].callback != t.ran[j].callback)
  }

  // Calls under way belong to distinct requests that have run but not finished.
  ghost predicate CallsOpen(t: Table) {
    (forall c | c in t.calls :: c.id == IdOf(c.answered) && c.answered !in t.finished + t.thrown) &&
    (forall c | c in t.calls :: Ran(c.answered, c.answered) in t.ran) &&
    (forall i, j | 0 <= i < j < |t.calls| :: t.calls[i].answered != t.calls[j].answered)
  }

  ghost predicate Finishing(t: Table) {
    (forall n | n in t.finished + t.thrown :: n < t.issued && Ran(n, n) in t.ran) && t.finished !! t.thrown &&
    (forall r | r in t.ran && r.answered !in t.finished + t.thrown ::
       exists c | c in t.calls :: c.answered == r.answered)
  }

  ghost predicate Correlated(t: Table) {
    t.execId == IdOf(t.issued) && PendingExact(t) && RanOwn(t) && CallsOpen(t) && Finishing(t)
  }

  // A request is correlated exactly when its id is not still in the table: a
  // live id would be overwritten.
  lemma IssueKeeps(t: Table)
    requires Correlated(t)
    ensures Correlated(IssueFx(t)) <==> t.execId !in t.pending
    ensures IssueFx(t).issued == t.issued + 1 && IssueFx(t).pending == t.pending[IdOf(t.issued) := t.issued]
  {
    var u := IssueFx(t);
    if t.execId in t.pending {
      var n := t.pending[t.execId];
      assert n < u.issued && n !in u.finished && IdOf(n) == t.execId;
      assert u.pending[IdOf(n)] == t.issued != n;
    } else {
      forall n: nat | n < u.issued && n !in u.finished ensures IdOf(n) in u.pending && u.pending[IdOf(n)] == n {
        assert n == t.issued || IdOf(n) in t.pending;
      }
    }
  }

  // ... which cannot happen among the first 2^53 + 1.
  lemma EarlyIdsAreFree(t: Table)
    requires Correlated(t) && t.issued <= TWO_53
    ensures t.execId !in t.pending
  {
    if t.execId in t.pending {
      IdOfIs(t.issued);
      IdOfIs(t.pending[t.execId]);
    }
  }

  lemma AnswerCalls(t: Table, n: nat)
    requires Correlated(t) && Allowed(t, Answer(n)) && n !in t.finished + t.thrown
    ensures CallsOpen(AnswerFx(t, n))
  {
    var u := AnswerFx(t, n);
    assert u.ran[|t.ran|] == Ran(n, n);
    forall c | c in u.calls
      ensures c.id == IdOf(c.answered) && Ran(c.answered, c.answered) in u.ran && c.answered !in u.finished + u.thrown
    {
      assert c in t.calls || c == Call(IdOf(n), n);
    }
    forall i | 0 <= i < |t.calls| ensures t.calls[i].answered != n {
      assert t.calls[i] in t.calls;
    }
  }

  lemma AnswerRan(t: Table, n: nat)
    requires Correlated(t) && Allowed(t, Answer(n)) && n !in t.finished + t.thrown
    ensures RanOwn(AnswerFx(t, n))
  {
    forall i | 0 <= i < |t.ran| ensures t.ran[i].callback != n {
      assert t.ran[i] in t.ran;
    }
  }

  lemma AnswerFinishing(t: Table, n: nat)
    requires Correlated(t) && Allowed(t, Answer(n)) && n !in t.finished + t.thrown
    ensures Finishing(AnswerFx(t, n))
  {
    var u := AnswerFx(t, n);
    assert u.ran == t.ran + [Ran(n, n)] && u.calls == t.calls + [Call(IdOf(n), n)];
    forall r | r in u.ran && r.answered !in u.finished + u.thrown
      ensures exists c | c in u.calls :: c.answered == r.answered
    {
      if r in t.ran {
        var c :| c in t.calls && c.answered == r.answered;
        assert c in u.calls;
      } else {
        assert u.calls[|t.calls|].answered == n == r.answered;
      }
    }
  }

  // An answer finds its own callback and runs it, which keeps correlation.
  lemma AnswerKeeps(t: Table, n: nat)
    requires Correlated(t) && Allowed(t, Answer(n))
    ensures IdOf(n) in t.pending && t.pending[IdOf(n)] == n
    ensures Correlated(AnswerFx(t, n)) && AnswerFx(t, n).pending == t.pending
    ensures AnswerFx(t, n).ran == t.ran + [Ran(n, n)] && AnswerFx(t, n).calls == t.calls + [Call(IdOf(n), n)]
  {
    assert n !in t.finished + t.thrown;
    AnswerCalls(t, n);
    AnswerRan(t, n);
    AnswerFinishing(t, n);
  }

  lemma ReturnPending(t: Table)
    requires Correlated(t) && t.calls != []
    ensures var n := t.calls[|t.calls| - 1].answered;
      n < t.issued && IdOf(n) in t.pending && t.pending[IdOf(n)] == n && Ran(n, n) in t.ran &&
      PendingExact(ReturnFx(t)) &&
      ReturnFx(t).pending == map id | id in t.pending && t.pending[id] != n :: t.pending[id]
  {
    var call := t.calls[|t.calls| - 1];
    assert call in t.calls;
    assert Ran(call.answered, call.answered) in t.ran;
  }

  lemma ReturnCalls(t: Table)
    requires Correlated(t) && t.calls != []
    ensures CallsOpen(ReturnFx(t))
  {
    var last := |t.calls| - 1;
    var u := ReturnFx(t);
    forall c | c in u.calls ensures c in t.calls && c.answered != t.calls[last].answered {
      var i :| 0 <= i < last && u.calls[i] == c;
      assert t.calls[i] == c;
    }
  }

  lemma ReturnFinishing(t: Table)
    requires Correlated(t) && t.calls != []
    ensures Finishing(ReturnFx(t))
  {
    ReturnPending(t);
    var last := |t.calls| - 1;
    var u := ReturnFx(t);
    forall r | r in u.ran && r.answered !in u.finished + u.thrown
      ensures exists c | c in u.calls :: c.answered == r.answered
    {
      var c :| c in t.calls && c.answered == r.answered;
      var i :| 0 <= i < |t.calls| && t.calls[i] == c;
      assert i != last;
      assert u.calls[i] == c;
    }
  }

  // The delete after a callback removes that callback's own entry and no other,
  // whatever was issued or answered while the callback ran.
  lemma ReturnKeeps(t: Table)
    requires Correlated(t) && t.calls != []
    ensures var n := t.calls[|t.calls| - 1].answered;
      IdOf(n) in t.pending && t.pending[IdOf(n)] == n &&
      Correlated(ReturnFx(t)) && t.calls == ReturnFx(t).calls + [Call(IdOf(n), n)] &&
      ReturnFx(t).finished == t.finished + {n} && ReturnFx(t).thrown == t.thrown &&
      ReturnFx(t).pending == map id | id in t.pending && t.pending[id] != n :: t.pending[id]
  {
    ReturnPending(t);
    ReturnCalls(t);
    ReturnFinishing(t);
  }

  lemma ThrowCalls(t: Table)
    requires Correlated(t) && t.calls != []
    ensures CallsOpen(ThrowFx(t))
  {
    var last := |t.calls| - 1;
    var u := ThrowFx(t);
    forall c | c in u.calls ensures c in t.calls && c.answered != t.calls[last].answered {
      var i :| 0 <= i < last && u.calls[i] == c;
      assert t.calls[i] == c;
    }
  }

  lemma ThrowFinishing(t: Table)
    requires Correlated(t) && t.calls != []
    ensures Finishing(ThrowFx(t))
  {
    var last := |t.calls| - 1;
    var u := ThrowFx(t);
    assert t.calls[last] in t.calls;
    forall r | r in u.ran && r.answered !in u.finished + u.thrown
      ensures exists c | c in u.calls :: c.answered == r.answered
    {
      var c :| c in t.calls && c.answered == r.answered;
      var i :| 0 <= i < |t.calls| && t.calls[i] == c;
      assert u.calls[i] == c;
    }
  }

  // A callback that throws leaves its entry behind, and every other as it was.
  lemma ThrowKeeps(t: Table)
    requires Correlated(t) && t.calls != []
    ensures Correlated(ThrowFx(t)) && ThrowFx(t).pending == t.pending
    ensures var n := t.calls[|t.calls| - 1].answered;
      t.calls == ThrowFx(t).calls + [Call(IdOf(n), n)] && ThrowFx(t).thrown == t.thrown + {n} &&
      ThrowFx(t).finished == t.finished
  {
    ThrowCalls(t);
    ThrowFinishing(t);
  }

  lemma NextKeeps(t: Table, e: Event)
    requires Correlated(t) && Allowed(t, e)
    ensures Correlated(Fx(t, e)) <==> !(e.Issue? && t.execId in t.pending)
  {
    match e
    case Issue => IssueKeeps(t);
    case Answer(n) => AnswerKeeps(t, n);
    case Return => ReturnKeeps(t);
    case Throw => ThrowKeeps(t);
  }

  // Every request of the run is given an id that is free.
  ghost predicate IdsFree(events: seq<Event>) {
    events == [] ||
    (var n := |events| - 1;
     IdsFree(events[..n]) && (events[n].Issue? ==> Run(events[..n]).execId !in Run(events[..n]).pending))
  }

  // Correlation holds at every point of the run.
  ghost predicate AlwaysCorrelated(events: seq<Event>) {
    Correlated(Run(events)) && (events == [] || AlwaysCorrelated(events[..|events| - 1]))
  }

  // Over every re-entrant run in which the host answers each request at most
  // once: correlation holds throughout exactly if every request finds its id free.
  lemma {:induction false} CorrelationExactly(events: seq<Event>)
    requires Valid(events)
    ensures AlwaysCorrelated(events) <==> IdsFree(events)
  {
    if events != [] {
      var n := |events| - 1;
      CorrelationExactly(events[..n]);
      if AlwaysCorrelated(events[..n]) {
        NextKeeps(Run(events[..n]), events[n]);
      }
    }
  }

  // In particular as long as 2^53 + 1 callback requests suffice.
  lemma {:induction false} RequestCorrelation(events: seq<Event>)
    requires Valid(events) && Run(events).issued <= TWO_53 + 1
    ensures Correlated(Run(events))
  {
    if events == [] {
    } else {
      var n := |events| - 1;
      var t := Run(events[..n]);
      RequestCorrelation(events[..n]);
      if events[n].Issue? {
        EarlyIdsAreFree(t);
      }
      NextKeeps(t, events[n]);
    }
  }

  // When no callback is running, what is pending is what was never answered, and
  // what was answered to a callback that threw.
  lemma PendingAtRest(t: Table, n: nat)
    requires Correlated(t) && t.calls == [] && n < t.issued
    ensures (IdOf(n) in t.pending && t.pending[IdOf(n)] == n) <==> Ran(n, n) !in t.ran || n in t.thrown
  {
  }

  function Issues(k: nat): (es: seq<Event>)
    ensures |es| == k
  {
    if k == 0 then [] else Issues(k - 1) + [Issue]
  }

  lemma {:induction false} IssuesRun(k: nat)
    ensures Valid(Issues(k))
    ensures var t := Run(Issues(k));
      t.issued == k && t.execId == IdOf(k) && t.ran == [] && t.calls == [] &&
      (k > 0 ==> IdOf(k - 1) in t.pending && t.pending[IdOf(k - 1)] == k - 1)
  {
    if k > 0 {
      IssuesRun(k - 1);
      assert Issues(k)[..k - 1] == Issues(k - 1);
    }
  }

  // Beyond the limit the last request has taken the entry of the one before it.
  lemma DisplacedAnswer(t: Table, last: nat)
    requires last > TWO_53 && IdOf(last) in t.pending && t.pending[IdOf(last)] == last
    ensures AnswerFx(t, last - 1).ran == t.ran + [Ran(last, last - 1)]
  {
    IdOfIs(last);
    IdOfIs(last - 1);
  }

  lemma AllInFlight(t: Table, k: nat)
    requires t.issued == k && t.ran == []
    requires k <= TWO_53 + 1 ==> Correlated(t)
    requires k > 0 ==> IdOf(k - 1) in t.pending && t.pending[IdOf(k - 1)] == k - 1
    ensures (forall n: nat | n < k :: AnswerFx(t, n).ran == [Ran(n, n)]) <==> k <= TWO_53 + 1
  {
    if k <= TWO_53 + 1 {
      forall n: nat | n < k ensures AnswerFx(t, n).ran == [Ran(n, n)] {
        AnswerKeeps(t, n);
      }
    } else {
      DisplacedAnswer(t, k - 1);
      assert AnswerFx(t, k - 2).ran[0] == Ran(k - 1, k - 2);
    }
  }

  // With k requests in flight at once, every answer reaches the right callback
  // exactly when k <= 2^53 + 1; the next request displaces the one before it.
  lemma CorrelationLimit(k: nat)
    ensures (forall n: nat | n < k :: AnswerFx(Run(Issues(k)), n).ran == [Ran(n, n)]) <==> k <= TWO_53 + 1
  {
    IssuesRun(k);
    if k <= TWO_53 + 1 {
      RequestCorrelation(Issues(k));
    }
    AllInFlight(Run(Issues(k)), k);
  }
}
