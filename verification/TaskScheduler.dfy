/** The task queue, the handler loop and the multi-consumer scheduler over all interleavings. */
module TaskScheduler {

  // ----- counting

  function Times<T(==)>(s: seq<T>, t: T): nat {
    if s == [] then 0 else (if s[0] == t then 1 else 0) + Times(s[1..], t)
  }

  lemma {:induction false} TimesConcat<T>(a: seq<T>, b: seq<T>, t: T)
    ensures Times(a + b, t) == Times(a, t) + Times(b, t)
  {
    if a == [] {
      assert a + b == b;
    } else {
      assert (a + b)[1..] == a[1..] + b;
      TimesConcat(a[1..], b, t);
    }
  }

  lemma {:induction false} TimesIn<T>(s: seq<T>, t: T)
    ensures Times(s, t) > 0 <==> t in s
  {
    if s != [] {
      TimesIn(s[1..], t);
      assert s == [s[0]] + s[1..];
    }
  }

  lemma TimesOne<T>(x: T, t: T)
    ensures Times([x], t) == if x == t then 1 else 0
  {
    assert [x][1..] == [];
  }

  /** The sum of `f` over the sequence. */
  function Sum<T>(s: seq<T>, f: T -> nat): nat {
    if s == [] then 0 else f(s[0]) + Sum(s[1..], f)
  }

  lemma {:induction false} SumUpdate<T>(s: seq<T>, i: nat, x: T, f: T -> nat)
    requires i < |s|
    ensures Sum(s[i := x], f) == Sum(s, f) - f(s[i]) + f(x)
  {
    if i == 0 {
      assert s[i := x][1..] == s[1..];
    } else {
      assert s[i := x][1..] == s[1..][i - 1 := x];
      SumUpdate(s[1..], i - 1, x, f);
    }
  }

  /** Appending what counts for nothing changes nothing. */
  lemma {:induction false} SumAppend<T>(a: seq<T>, b: seq<T>, f: T -> nat)
    requires forall i | 0 <= i < |b| :: f(b[i]) == 0
    ensures Sum(a + b, f) == Sum(a, f)
  {
    if a != [] {
      assert (a + b)[1..] == a[1..] + b;
      SumAppend(a[1..], b, f);
    } else if b != [] {
      SumAppend(a, b[1..], f);
      assert a + b == b && a + b[1..] == b[1..];
    }
  }

  lemma {:induction false} SumAtLeast<T>(s: seq<T>, i: nat, f: T -> nat)
    requires i < |s|
    ensures Sum(s, f) >= f(s[i])
  {
    if i > 0 {
      SumAtLeast(s[1..], i - 1, f);
    }
  }

  lemma {:induction false} SumOfTwo<T>(s: seq<T>, i: nat, j: nat, f: T -> nat)
    requires i < j < |s|
    ensures Sum(s, f) >= f(s[i]) + f(s[j])
  {
    if i > 0 {
      SumOfTwo(s[1..], i - 1, j - 1, f);
    } else {
      SumAtLeast(s[1..], j - 1, f);
    }
  }

  // ----- handling one task

  /** What a handler does with a task. */
  datatype Behaviour = Rejects | AcceptThrows | Handles | HandleThrows

  datatype Report = Handled(handler: nat) | FailedBy(handler: nat) | Unhandled

  /** The report on one handler that did not simply reject. */
  function ReportOf(b: Behaviour, h: nat): seq<Report> {
    match b
    case Rejects => []
    case Handles => [Handled(h)]
    case AcceptThrows => [FailedBy(h)]
    case HandleThrows => [FailedBy(h)]
  }

  function HandlerReports(bs: seq<Behaviour>): seq<Report> {
    if bs == [] then [] else HandlerReports(bs[..|bs| - 1]) + ReportOf(bs[|bs| - 1], |bs| - 1)
  }

  /** What the callbacks see of one task: an unhandled report exactly when every handler rejected. */
  function Reports(bs: seq<Behaviour>): seq<Report> {
    if forall h | 0 <= h < |bs| :: bs[h] == Rejects then [Unhandled] else HandlerReports(bs)
  }

  /** The handler loop; exceptions out of the callbacks are swallowed and change nothing. */
  method HandleTask(bs: seq<Behaviour>) returns (reports: seq<Report>)
    ensures reports == Reports(bs)
  {
    reports := [];
    var handled, hasException := false, false;
    for h := 0 to |bs|
      invariant reports == HandlerReports(bs[..h])
      invariant handled || hasException <==> exists g :: 0 <= g < h && bs[g] != Rejects
      invariant !handled && !hasException ==> reports == []
    {
      assert bs[..h + 1][..h] == bs[..h];
      match bs[h]
      case Rejects =>
      case AcceptThrows =>
        hasException := true;
        reports := reports + [FailedBy(h)];
      case Handles =>
        handled := true;
        reports := reports + [Handled(h)];
      case HandleThrows =>
        handled, hasException := true, true;
        reports := reports + [FailedBy(h)];
    }
    assert bs[..|bs|] == bs;
    if !handled && !hasException {
      reports := reports + [Unhandled];
    }
  }

  /** One report per handler that accepted or threw and none for the others; an unhandled report
      exactly when every handler rejected. */
  lemma ReportsExact(bs: seq<Behaviour>, r: Report)
    ensures Times(Reports(bs), r) ==
      match r
      case Handled(h) => if h < |bs| && bs[h] == Handles then 1 else 0
      case FailedBy(h) => if h < |bs| && (bs[h] == AcceptThrows || bs[h] == HandleThrows) then 1 else 0
      case Unhandled => if forall g | 0 <= g < |bs| :: bs[g] == Rejects then 1 else 0
  {
    HandlerReportsExact(bs, r);
    TimesOne(Unhandled, r);
  }

  /** How often a handler loop over `bs` makes the report. */
  function Expected(bs: seq<Behaviour>, r: Report): nat {
    match r
    case Unhandled => 0
    case Handled(h) => if h < |bs| && bs[h] == Handles then 1 else 0
    case FailedBy(h) => if h < |bs| && (bs[h] == AcceptThrows || bs[h] == HandleThrows) then 1 else 0
  }

  lemma {:induction false} HandlerReportsExact(bs: seq<Behaviour>, r: Report)
    ensures Times(HandlerReports(bs), r) == Expected(bs, r)
  {
    if bs != [] {
      var n := |bs| - 1;
      HandlerReportsExact(bs[..n], r);
      TimesConcat(HandlerReports(bs[..n]), ReportOf(bs[n], n), r);
      ReportOnce(bs[n], n, r);
    }
  }

  lemma ReportOnce(b: Behaviour, h: nat, r: Report)
    ensures Times(ReportOf(b, h), r) ==
      if b == Handles && r == Handled(h) then 1
      else if (b == AcceptThrows || b == HandleThrows) && r == FailedBy(h) then 1
      else 0
  {
    TimesOne(Handled(h), r);
    TimesOne(FailedBy(h), r);
  }

  // ----- the scheduler

  /** A consumer thread; one that holds a task has seen what the first handlers did with it. */
  datatype Consumer = AtTop | Polling | Holding(ticket: nat, seen: seq<Behaviour>) | Exited

  /** How far a call has come: asked for, waiting for the consumers, emptying the queue, done. */
  datatype Stage = Asked | Joining | Draining | Returned

  /** A call of `Terminate`, or of the queue's `Drain` alone, and the tasks it hands back.
      `starts` counts the calls of `Start` at the time the consumers were joined. */
  datatype Call = Call(terminates: bool, stage: Stage, starts: nat, tasks: seq<nat>)

  datatype Event = Event(ticket: nat, report: Report)

  /** Each enqueued task gets the next ticket number. `log` is what the callbacks saw of all tasks.
      `offered` records how many handlers were registered when a task was taken up, `behaved` what
      they did with it. */
  datatype State = State(
    issued: nat,
    handlers: nat,
    queue: seq<nat>,
    consumers: seq<Consumer>,
    processed: seq<nat>,
    calls: seq<Call>,
    running: bool,
    starts: nat,
    log: seq<Event>,
    offered: map<nat, nat>,
    behaved: map<nat, seq<Behaviour>>)

  datatype Step =
    | RegisterHandler
    | RemoveHandler
    | Enqueue
    | Start(threads: nat)
    | LookAtFlag(i: nat)
    | Dequeue(i: nat, k: nat)
    | TimeOut(i: nat)
    | OfferToHandler(i: nat, b: Behaviour)
    | FinishTask(i: nat)
    | Terminate
    | Drain
    | LowerFlag(j: nat)
    | JoinConsumers(j: nat)
    | DrainTask(j: nat, k: nat)
    | ReturnDrained(j: nat)

  const INITIAL := State(0, 0, [], [], [], [], false, 0, [], map[], map[])

  function Without(s: seq<nat>, k: nat): seq<nat>
    requires k < |s|
  {
    s[..k] + s[k + 1..]
  }

  predicate Holds(s: State, i: nat) {
    i < |s.consumers| && s.consumers[i].Holding? && s.consumers[i].ticket in s.offered
  }

  predicate CallAt(s: State, j: nat, stage: Stage) {
    j < |s.calls| && s.calls[j].stage == stage
  }

  predicate AllExited(cs: seq<Consumer>) {
    forall i | 0 <= i < |cs| :: cs[i] == Exited
  }

  /** `Enqueue`, `Start`, `Terminate` and `Drain` may be called at any time and any number of times. */
  predicate Enabled(s: State, step: Step) {
    match step
    case RegisterHandler => true
    case RemoveHandler => s.handlers > 0
    case Enqueue => true
    case Start(_) => true
    case LookAtFlag(i) => i < |s.consumers| && s.consumers[i] == AtTop
    case Dequeue(i, k) => i < |s.consumers| && s.consumers[i] == Polling && k < |s.queue|
    case TimeOut(i) => i < |s.consumers| && s.consumers[i] == Polling
    case OfferToHandler(i, _) => Holds(s, i) && |s.consumers[i].seen| < s.offered[s.consumers[i].ticket]
    case FinishTask(i) => Holds(s, i) && |s.consumers[i].seen| == s.offered[s.consumers[i].ticket]
    case Terminate => true
    case Drain => true
    case LowerFlag(j) => CallAt(s, j, Asked)
    case JoinConsumers(j) => CallAt(s, j, Joining) && AllExited(s.consumers)
    case DrainTask(j, k) => CallAt(s, j, Draining) && k < |s.queue|
    case ReturnDrained(j) => CallAt(s, j, Draining) && s.queue == []
  }

  function Tagged(t: nat, reports: seq<Report>): seq<Event> {
    seq(|reports|, i requires 0 <= i < |reports| => Event(t, reports[i]))
  }

  /** What is left to report when the handlers have been asked. */
  function LastReport(bs: seq<Behaviour>): seq<Report> {
    if forall h | 0 <= h < |bs| :: bs[h] == Rejects then [Unhandled] else []
  }

  /** Draining in bulk is a series of single takes. */
  function Apply(s: State, step: Step): State
    requires Enabled(s, step)
  {
    match step
    case RegisterHandler => s.(handlers := s.handlers + 1)
    case RemoveHandler => s.(handlers := s.handlers - 1)
    case Enqueue => s.(queue := s.queue + [s.issued], issued := s.issued + 1)
    case Start(n) => s.(consumers := s.consumers + seq(n, _ => AtTop), running := true, starts := s.starts + 1)
    case LookAtFlag(i) => s.(consumers := s.consumers[i := if s.running then Polling else Exited])
    case Dequeue(i, k) =>
      var t := s.queue[k];
      s.(consumers := s.consumers[i := Holding(t, [])], queue := Without(s.queue, k),
         offered := s.offered[t := s.handlers])
    case TimeOut(i) => s.(consumers := s.consumers[i := AtTop])
    case OfferToHandler(i, b) =>
      var c := s.consumers[i];
      s.(consumers := s.consumers[i := Holding(c.ticket, c.seen + [b])],
         log := s.log + Tagged(c.ticket, ReportOf(b, |c.seen|)))
    case FinishTask(i) =>
      var c := s.consumers[i];
      s.(consumers := s.consumers[i := AtTop], processed := s.processed + [c.ticket],
         log := s.log + Tagged(c.ticket, LastReport(c.seen)), behaved := s.behaved[c.ticket := c.seen])
    case Terminate => s.(calls := s.calls + [Call(true, Asked, 0, [])])
    case Drain => s.(calls := s.calls + [Call(false, Draining, 0, [])])
    case LowerFlag(j) => s.(running := false, calls := s.calls[j := s.calls[j].(stage := Joining)])
    case JoinConsumers(j) => s.(calls := s.calls[j := s.calls[j].(stage := Draining, starts := s.starts)])
    case DrainTask(j, k) =>
      s.(queue := Without(s.queue, k), calls := s.calls[j := s.calls[j].(tasks := s.calls[j].tasks + [s.queue[k]])])
    case ReturnDrained(j) => s.(calls := s.calls[j := s.calls[j].(stage := Returned)])
  }

  ghost predicate Next(s: State, t: State) {
    exists step :: Enabled(s, step) && t == Apply(s, step)
  }

  ghost predicate Run(trace: seq<State>) {
    && trace != [] && trace[0] == INITIAL
    && forall k | 0 <= k < |trace| - 1 :: Next(trace[k], trace[k + 1])
  }

  // ----- conservation of tasks

  function Holder(t: nat): Consumer -> nat {
    (c: Consumer) => if c.Holding? && c.ticket == t then 1 else 0
  }

  function HandsBack(t: nat): Call -> nat {
    (c: Call) => Times(c.tasks, t)
  }

  /** How many consumers hold the task. */
  function Held(s: State, t: nat): nat {
    Sum(s.consumers, Holder(t))
  }

  /** How often the task has been taken out by a draining call. */
  function Drained(s: State, t: nat): nat {
    Sum(s.calls, HandsBack(t))
  }

  /** In how many places the task is. */
  function Places(s: State, t: nat): nat {
    Times(s.queue, t) + Held(s, t) + Times(s.processed, t) + Drained(s, t)
  }

  ghost predicate Conserved(s: State) {
    forall t: nat {:trigger Places(s, t)} :: Places(s, t) == if t < s.issued then 1 else 0
  }

  lemma TakeOne(s: seq<nat>, k: nat, t: nat)
    requires k < |s|
    ensures Times(s, t) == Times(Without(s, k), t) + if s[k] == t then 1 else 0
  {
    assert s == s[..k] + ([s[k]] + s[k + 1..]);
    TimesConcat(s[..k], [s[k]] + s[k + 1..], t);
    TimesConcat([s[k]], s[k + 1..], t);
    TimesConcat(s[..k], s[k + 1..], t);
    TimesOne(s[k], t);
  }

  lemma AddOne(s: seq<nat>, x: nat, t: nat)
    ensures Times(s + [x], t) == Times(s, t) + if x == t then 1 else 0
  {
    TimesConcat(s, [x], t);
    TimesOne(x, t);
  }

  /** No step loses or duplicates a task. */
  lemma StepConserves(s: State, step: Step, t: nat)
    requires Enabled(s, step)
    ensures Places(Apply(s, step), t) == Places(s, t) + if step.Enqueue? && t == s.issued then 1 else 0
  {
    var r := Apply(s, step);
    match step
    case RegisterHandler =>
    case RemoveHandler =>
    case Enqueue => AddOne(s.queue, s.issued, t);
    case Start(n) => SumAppend(s.consumers, seq(n, _ => AtTop), Holder(t));
    case LookAtFlag(i) => SumUpdate(s.consumers, i, r.consumers[i], Holder(t));
    case Dequeue(i, k) =>
      SumUpdate(s.consumers, i, r.consumers[i], Holder(t));
      TakeOne(s.queue, k, t);
    case TimeOut(i) => SumUpdate(s.consumers, i, AtTop, Holder(t));
    case OfferToHandler(i, _) => SumUpdate(s.consumers, i, r.consumers[i], Holder(t));
    case FinishTask(i) =>
      SumUpdate(s.consumers, i, AtTop, Holder(t));
      AddOne(s.processed, s.consumers[i].ticket, t);
    case Terminate => SumAppend(s.calls, [Call(true, Asked, 0, [])], HandsBack(t));
    case Drain => SumAppend(s.calls, [Call(false, Draining, 0, [])], HandsBack(t));
    case LowerFlag(j) => SumUpdate(s.calls, j, r.calls[j], HandsBack(t));
    case JoinConsumers(j) => SumUpdate(s.calls, j, r.calls[j], HandsBack(t));
    case DrainTask(j, k) =>
      SumUpdate(s.calls, j, r.calls[j], HandsBack(t));
      AddOne(s.calls[j].tasks, s.queue[k], t);
      TakeOne(s.queue, k, t);
    case ReturnDrained(j) => SumUpdate(s.calls, j, r.calls[j], HandsBack(t));
  }

  lemma StepKeepsConserved(s: State, step: Step)
    requires Conserved(s) && Enabled(s, step)
    ensures Conserved(Apply(s, step))
  {
    forall t: nat ensures Places(Apply(s, step), t) == if t < Apply(s, step).issued then 1 else 0 {
      StepConserves(s, step, t);
      assert Places(s, t) == if t < s.issued then 1 else 0;
    }
  }

  // ----- what the callbacks see

  /** The reports on one task, in order. */
  function LogOf(log: seq<Event>, t: nat): seq<Report> {
    if log == [] then []
    else LogOf(log[..|log| - 1], t) + if log[|log| - 1].ticket == t then [log[|log| - 1].report] else []
  }

  lemma {:induction false} LogCounts(log: seq<Event>, t: nat, r: Report)
    ensures Times(log, Event(t, r)) == Times(LogOf(log, t), r)
  {
    if log != [] {
      var n := |log| - 1;
      LogCounts(log[..n], t, r);
      assert log == log[..n] + [log[n]];
      TimesConcat(log[..n], [log[n]], Event(t, r));
      TimesOne(log[n], Event(t, r));
      TimesOne(log[n].report, r);
      TimesConcat(LogOf(log[..n], t), if log[n].ticket == t then [log[n].report] else [], r);
    }
  }

  /** `ReportOf` and `LastReport` have at most one element. */
  lemma LogGrows(log: seq<Event>, u: nat, reports: seq<Report>, t: nat)
    requires |reports| <= 1
    ensures LogOf(log + Tagged(u, reports), t) == LogOf(log, t) + if u == t then reports else []
  {
    if reports == [] {
      assert log + Tagged(u, reports) == log;
    } else {
      var l := log + Tagged(u, reports);
      assert l[..|l| - 1] == log && reports == [reports[0]];
    }
  }

  /** The reports on a task that a consumer holds are those of the handlers asked so far. */
  ghost predicate HeldLogged(s: State, i: int) {
    0 <= i < |s.consumers| && s.consumers[i].Holding? ==>
      LogOf(s.log, s.consumers[i].ticket) == HandlerReports(s.consumers[i].seen)
  }

  /** The reports on a processed task are those of a full pass over the handlers. */
  ghost predicate TaskLogged(s: State, t: nat) {
    && (t in s.behaved <==> t in s.processed)
    && (t in s.behaved ==>
          t in s.offered && |s.behaved[t]| == s.offered[t] && LogOf(s.log, t) == Reports(s.behaved[t]))
    && (t !in s.behaved && Held(s, t) == 0 ==> LogOf(s.log, t) == [])
  }

  ghost predicate Logged(s: State) {
    (forall i :: HeldLogged(s, i)) && (forall t: nat :: TaskLogged(s, t))
  }

  lemma HoldsOnce(s: State, i: nat, j: nat)
    requires Conserved(s) && i < |s.consumers| && s.consumers[i].Holding?
    ensures Held(s, s.consumers[i].ticket) == 1 && s.consumers[i].ticket !in s.processed
    ensures j < |s.consumers| && j != i && s.consumers[j].Holding? ==> s.consumers[j].ticket != s.consumers[i].ticket
  {
    var t := s.consumers[i].ticket;
    assert Places(s, t) <= 1;
    SumAtLeast(s.consumers, i, Holder(t));
    TimesIn(s.processed, t);
    if j < |s.consumers| && j != i {
      SumOfTwo(s.consumers, if i < j then i else j, if i < j then j else i, Holder(t));
    }
  }

  lemma QueuedIsNew(s: State, k: nat)
    requires Conserved(s) && k < |s.queue|
    ensures Held(s, s.queue[k]) == 0 && s.queue[k] !in s.processed
  {
    TimesIn(s.queue, s.queue[k]);
    TimesIn(s.processed, s.queue[k]);
    assert Places(s, s.queue[k]) <= 1;
  }

  lemma HandlerReportsNext(bs: seq<Behaviour>, b: Behaviour)
    ensures HandlerReports(bs + [b]) == HandlerReports(bs) + ReportOf(b, |bs|)
  {
    assert (bs + [b])[..|bs|] == bs;
  }

  lemma {:induction false} AllReject(bs: seq<Behaviour>)
    requires forall h | 0 <= h < |bs| :: bs[h] == Rejects
    ensures HandlerReports(bs) == []
  {
    if bs != [] {
      AllReject(bs[..|bs| - 1]);
    }
  }

  lemma PassEnds(bs: seq<Behaviour>)
    ensures Reports(bs) == HandlerReports(bs) + LastReport(bs)
  {
    if forall h | 0 <= h < |bs| :: bs[h] == Rejects {
      AllReject(bs);
    }
  }

  lemma OfferKeepsLogged(s: State, i: nat, b: Behaviour)
    requires Conserved(s) && Logged(s) && Enabled(s, OfferToHandler(i, b))
    ensures Logged(Apply(s, OfferToHandler(i, b)))
  {
    var r, c := Apply(s, OfferToHandler(i, b)), s.consumers[i];
    forall j ensures HeldLogged(r, j) {
      assert HeldLogged(s, i) && HeldLogged(s, j);
      if 0 <= j < |r.consumers| && r.consumers[j].Holding? {
        HoldsOnce(s, i, j);
        LogGrows(s.log, c.ticket, ReportOf(b, |c.seen|), r.consumers[j].ticket);
        HandlerReportsNext(c.seen, b);
      }
    }
    forall t: nat ensures TaskLogged(r, t) {
      assert TaskLogged(s, t);
      HoldsOnce(s, i, i);
      LogGrows(s.log, c.ticket, ReportOf(b, |c.seen|), t);
      SumUpdate(s.consumers, i, r.consumers[i], Holder(t));
    }
  }

  lemma FinishKeepsLogged(s: State, i: nat)
    requires Conserved(s) && Logged(s) && Enabled(s, FinishTask(i))
    ensures Logged(Apply(s, FinishTask(i)))
  {
    var r, c := Apply(s, FinishTask(i)), s.consumers[i];
    forall j ensures HeldLogged(r, j) {
      assert HeldLogged(s, j);
      if 0 <= j < |r.consumers| && r.consumers[j].Holding? {
        HoldsOnce(s, i, j);
        LogGrows(s.log, c.ticket, LastReport(c.seen), r.consumers[j].ticket);
      }
    }
    forall t: nat ensures TaskLogged(r, t) {
      assert TaskLogged(s, t) && HeldLogged(s, i);
      HoldsOnce(s, i, i);
      PassEnds(c.seen);
      LogGrows(s.log, c.ticket, LastReport(c.seen), t);
      SumUpdate(s.consumers, i, r.consumers[i], Holder(t));
    }
  }

  lemma DequeueKeepsLogged(s: State, i: nat, k: nat)
    requires Conserved(s) && Logged(s) && Enabled(s, Dequeue(i, k))
    ensures Logged(Apply(s, Dequeue(i, k)))
  {
    var r := Apply(s, Dequeue(i, k));
    QueuedIsNew(s, k);
    forall j ensures HeldLogged(r, j) {
      assert HeldLogged(s, j) && TaskLogged(s, s.queue[k]);
    }
    forall t: nat ensures TaskLogged(r, t) {
      assert TaskLogged(s, t);
      SumUpdate(s.consumers, i, r.consumers[i], Holder(t));
    }
  }

  /** Steps that neither take up a task nor report leave the log in order. */
  lemma OtherKeepsLogged(s: State, step: Step)
    requires Logged(s) && Enabled(s, step) && !step.Dequeue? && !step.OfferToHandler? && !step.FinishTask?
    ensures Logged(Apply(s, step))
  {
    var r := Apply(s, step);
    forall j ensures HeldLogged(r, j) {
      assert HeldLogged(s, j);
    }
    forall t: nat ensures TaskLogged(r, t) {
      assert TaskLogged(s, t);
      match step
      case Start(n) => SumAppend(s.consumers, seq(n, _ => AtTop), Holder(t));
      case LookAtFlag(i) => SumUpdate(s.consumers, i, r.consumers[i], Holder(t));
      case TimeOut(i) => SumUpdate(s.consumers, i, r.consumers[i], Holder(t));
      case _ =>
    }
  }

  // ----- joining the consumers

  /** A call that has joined the consumers. */
  predicate HasJoined(c: Call) {
    c.terminates && (c.stage == Draining || c.stage == Returned)
  }

  /** Unless `Start` was called again, all consumers have exited since they were joined. */
  ghost predicate CallSound(s: State, j: int) {
    0 <= j < |s.calls| && HasJoined(s.calls[j]) ==>
      s.calls[j].starts <= s.starts && (s.calls[j].starts == s.starts ==> AllExited(s.consumers))
  }

  ghost predicate CallsSound(s: State) {
    forall j :: CallSound(s, j)
  }

  lemma StepKeepsCalls(s: State, step: Step)
    requires CallsSound(s) && Enabled(s, step)
    ensures CallsSound(Apply(s, step))
  {
    forall j ensures CallSound(Apply(s, step), j) {
      assert CallSound(s, j);
    }
  }

  ghost predicate Inv(s: State) {
    Conserved(s) && Logged(s) && CallsSound(s)
  }

  lemma StepKeepsInv(s: State, step: Step)
    requires Inv(s) && Enabled(s, step)
    ensures Inv(Apply(s, step))
  {
    StepKeepsConserved(s, step);
    StepKeepsCalls(s, step);
    match step
    case Dequeue(i, k) => DequeueKeepsLogged(s, i, k);
    case OfferToHandler(i, b) => OfferKeepsLogged(s, i, b);
    case FinishTask(i) => FinishKeepsLogged(s, i);
    case _ => OtherKeepsLogged(s, step);
  }

  // ----- all runs

  lemma {:induction false} RunInv(trace: seq<State>, k: nat)
    requires Run(trace) && k < |trace|
    ensures Inv(trace[k])
  {
    if k > 0 {
      RunInv(trace, k - 1);
      assert Next(trace[k - 1], trace[k - 1 + 1]);
      var step :| Enabled(trace[k - 1], step) && trace[k] == Apply(trace[k - 1], step);
      StepKeepsInv(trace[k - 1], step);
    }
  }

  /** In every run each enqueued task is queued, in flight, processed or drained: exactly one of these, once. */
  lemma TaskInOnePlace(trace: seq<State>, k: nat, t: nat)
    requires Run(trace) && k < |trace|
    ensures var s := trace[k];
      Times(s.queue, t) + Held(s, t) + Times(s.processed, t) + Drained(s, t) == if t < s.issued then 1 else 0
  {
    RunInv(trace, k);
    assert Places(trace[k], t) == if t < trace[k].issued then 1 else 0;
  }

  /** In every run the callbacks have seen of a processed task one handled or failed report for each of
      the handlers offered to that accepted or threw, and an unhandled one exactly when all rejected. */
  lemma ProcessedIsReported(trace: seq<State>, k: nat, t: nat, r: Report)
    requires Run(trace) && k < |trace| && t in trace[k].processed
    ensures var s := trace[k];
      && t in s.behaved && t in s.offered && |s.behaved[t]| == s.offered[t]
      && var bs := s.behaved[t];
      Times(s.log, Event(t, r)) ==
        match r
        case Handled(h) => if h < |bs| && bs[h] == Handles then 1 else 0
        case FailedBy(h) => if h < |bs| && (bs[h] == AcceptThrows || bs[h] == HandleThrows) then 1 else 0
        case Unhandled => if forall g | 0 <= g < |bs| :: bs[g] == Rejects then 1 else 0
  {
    RunInv(trace, k);
    assert TaskLogged(trace[k], t);
    LogCounts(trace[k].log, t, r);
    ReportsExact(trace[k].behaved[t], r);
  }

  /** Nothing is reported on a task that is waiting or was drained. */
  lemma UntouchedIsUnreported(trace: seq<State>, k: nat, t: nat, r: Report)
    requires Run(trace) && k < |trace| && t !in trace[k].processed && Held(trace[k], t) == 0
    ensures Event(t, r) !in trace[k].log
  {
    RunInv(trace, k);
    assert TaskLogged(trace[k], t);
    LogCounts(trace[k].log, t, r);
    TimesIn(trace[k].log, Event(t, r));
  }

  lemma {:induction false} NoneHeld(cs: seq<Consumer>, t: nat)
    requires AllExited(cs)
    ensures Sum(cs, Holder(t)) == 0
  {
    if cs != [] {
      NoneHeld(cs[1..], t);
    }
  }

  lemma StepForward(s: State, step: Step, j: nat)
    requires CallsSound(s) && Enabled(s, step) && j < |s.calls| && HasJoined(s.calls[j])
    ensures var r := Apply(s, step);
      && j < |r.calls| && HasJoined(r.calls[j]) && r.calls[j].starts == s.calls[j].starts && s.starts <= r.starts
      && (r.starts == s.calls[j].starts ==> r.processed == s.processed && r.log == s.log)
  {
    assert CallSound(s, j);
  }

  /** Once `Terminate` has joined the consumers, and until `Start` is called again, nothing is in
      flight, and no step processes a task or reports on one. */
  lemma {:induction false} NothingInFlight(trace: seq<State>, k: nat, m: nat, j: nat, t: nat)
    requires Run(trace) && k <= m < |trace|
    requires j < |trace[k].calls| && HasJoined(trace[k].calls[j]) && trace[k].calls[j].starts == trace[m].starts
    ensures Held(trace[m], t) == 0
    ensures trace[m].processed == trace[k].processed && trace[m].log == trace[k].log
    decreases m - k
  {
    RunInv(trace, k);
    assert CallSound(trace[k], j);
    if k == m {
      NoneHeld(trace[k].consumers, t);
    } else {
      assert Next(trace[k], trace[k + 1]);
      var step :| Enabled(trace[k], step) && trace[k + 1] == Apply(trace[k], step);
      StepForward(trace[k], step, j);
      NothingInFlight(trace, k + 1, m, j, t);
      RunInv(trace, k + 1);
      assert CallSound(trace[k + 1], j);
      StartsGrow(trace, k + 1, m);
    }
  }

  lemma {:induction false} StartsGrow(trace: seq<State>, k: nat, m: nat)
    requires Run(trace) && k <= m < |trace|
    ensures trace[k].starts <= trace[m].starts
    decreases m - k
  {
    if k < m {
      assert Next(trace[k], trace[k + 1]);
      StartsGrow(trace, k + 1, m);
    }
  }

  /** A call that returns has found the queue empty. */
  lemma ReturnsOnEmpty(s: State, step: Step, j: nat)
    requires Enabled(s, step) && CallAt(s, j, Draining) && CallAt(Apply(s, step), j, Returned)
    ensures Apply(s, step).queue == [] && Apply(s, step).issued == s.issued && Apply(s, step).starts == s.starts
  {
  }

  /** When a `Terminate` returns and `Start` was not called since it joined the consumers, every task
      enqueued so far was processed or handed back by a draining call, and that once. */
  lemma TerminateAccountsForAll(trace: seq<State>, k: nat, j: nat, t: nat)
    requires Run(trace) && k + 1 < |trace| && t < trace[k].issued
    requires CallAt(trace[k], j, Draining) && CallAt(trace[k + 1], j, Returned)
    requires trace[k].calls[j].terminates && trace[k].calls[j].starts == trace[k].starts
    ensures Times(trace[k + 1].processed, t) + Drained(trace[k + 1], t) == 1
  {
    assert Next(trace[k], trace[k + 1]);
    var step :| Enabled(trace[k], step) && trace[k + 1] == Apply(trace[k], step);
    ReturnsOnEmpty(trace[k], step, j);
    TaskInOnePlace(trace, k + 1, t);
    NothingInFlight(trace, k, k + 1, j, t);
  }

  // ----- progress

  /** No call of `Terminate` has lowered the flag yet. */
  predicate NeverStopped(s: State) {
    forall j | 0 <= j < |s.calls| :: s.calls[j].terminates ==> s.calls[j].stage == Asked
  }

  /** Consumers only exit because of a lowered flag; until then the flag is up once consumers were started. */
  ghost predicate KeepsGoing(s: State) {
    NeverStopped(s) ==>
      && (forall i | 0 <= i < |s.consumers| :: s.consumers[i] != Exited)
      && (|s.consumers| > 0 ==> s.running)
  }

  lemma StepKeepsGoing(s: State, step: Step)
    requires KeepsGoing(s) && CallsKinds(s) && Enabled(s, step)
    ensures KeepsGoing(Apply(s, step)) && CallsKinds(Apply(s, step))
  {
    var r := Apply(s, step);
    if step.LowerFlag? {
      assert r.calls[step.j].terminates && r.calls[step.j].stage == Joining;
    } else if NeverStopped(r) {
      forall j | 0 <= j < |s.calls| ensures s.calls[j].terminates ==> s.calls[j].stage == Asked {
        assert r.calls[j].terminates == s.calls[j].terminates;
      }
      assert NeverStopped(s);
    }
  }

  /** A call that only drains has no flag to lower. */
  predicate CallsKinds(s: State) {
    forall j | 0 <= j < |s.calls| ::
      !s.calls[j].terminates ==> s.calls[j].stage == Draining || s.calls[j].stage == Returned
  }

  /** In every run no consumer exits before a `Terminate` has lowered the flag. */
  lemma {:induction false} NoneExitsEarly(trace: seq<State>, k: nat)
    requires Run(trace) && k < |trace|
    ensures KeepsGoing(trace[k]) && CallsKinds(trace[k])
  {
    if k > 0 {
      NoneExitsEarly(trace, k - 1);
      assert Next(trace[k - 1], trace[k - 1 + 1]);
      var step :| Enabled(trace[k - 1], step) && trace[k] == Apply(trace[k - 1], step);
      StepKeepsGoing(trace[k - 1], step);
    }
  }

  /** A held task was offered to the handlers registered when it was taken up, and no others were asked. */
  ghost predicate HeldOffered(s: State, i: int) {
    0 <= i < |s.consumers| && s.consumers[i].Holding? ==>
      && s.consumers[i].ticket in s.offered
      && |s.consumers[i].seen| <= s.offered[s.consumers[i].ticket]
  }

  lemma StepKeepsOffered(s: State, step: Step)
    requires Conserved(s) && (forall i :: HeldOffered(s, i)) && Enabled(s, step)
    ensures forall i :: HeldOffered(Apply(s, step), i)
  {
    var r := Apply(s, step);
    forall i ensures HeldOffered(r, i) {
      assert HeldOffered(s, i);
      if step.Dequeue? && 0 <= i < |s.consumers| && i != step.i && s.consumers[i].Holding? {
        QueuedIsNew(s, step.k);
        HoldsOnce(s, i, i);
      }
    }
  }

  lemma {:induction false} RunOffered(trace: seq<State>, k: nat)
    requires Run(trace) && k < |trace|
    ensures forall i :: HeldOffered(trace[k], i)
  {
    if k > 0 {
      RunOffered(trace, k - 1);
      RunInv(trace, k - 1);
      assert Next(trace[k - 1], trace[k - 1 + 1]);
      var step :| Enabled(trace[k - 1], step) && trace[k] == Apply(trace[k - 1], step);
      StepKeepsOffered(trace[k - 1], step);
    }
  }

  function Last(trace: seq<State>): State
    requires trace != []
  {
    trace[|trace| - 1]
  }

  lemma Extend(trace: seq<State>, step: Step) returns (longer: seq<State>)
    requires Run(trace) && Enabled(Last(trace), step)
    ensures Run(longer) && trace <= longer && Last(longer) == Apply(Last(trace), step)
  {
    longer := trace + [Apply(Last(trace), step)];
    forall k | 0 <= k < |longer| - 1 ensures Next(longer[k], longer[k + 1]) {
      if k < |trace| - 1 {
        assert Next(trace[k], trace[k + 1]);
      }
    }
  }

  /** A consumer that holds a task can finish its pass over the handlers, and nothing else changes. */
  lemma {:induction false} PassCanEnd(trace: seq<State>, i: nat) returns (longer: seq<State>)
    requires Run(trace) && i < |Last(trace).consumers| && Last(trace).consumers[i].Holding?
    ensures Run(longer) && trace <= longer
    ensures var s, r := Last(trace), Last(longer);
      && r.running == s.running && r.queue == s.queue && r.calls == s.calls
      && r.consumers == s.consumers[i := AtTop]
      && r.processed == s.processed + [s.consumers[i].ticket]
    decreases
      var s := Last(trace);
      if s.consumers[i].Holding? && s.consumers[i].ticket in s.offered
      then s.offered[s.consumers[i].ticket] - |s.consumers[i].seen| else 0
  {
    var s := Last(trace);
    RunOffered(trace, |trace| - 1);
    assert HeldOffered(s, i);
    if |s.consumers[i].seen| == s.offered[s.consumers[i].ticket] {
      longer := Extend(trace, FinishTask(i));
    } else {
      var next := Extend(trace, OfferToHandler(i, Rejects));
      longer := PassCanEnd(next, i);
    }
  }

  /** A consumer of a running scheduler can come to wait for a task. */
  lemma CanPoll(trace: seq<State>, i: nat) returns (longer: seq<State>)
    requires Run(trace) && i < |Last(trace).consumers| && Last(trace).consumers[i] != Exited && Last(trace).running
    ensures Run(longer) && trace <= longer
    ensures i < |Last(longer).consumers| && Last(longer).consumers[i] == Polling
    ensures Last(longer).queue == Last(trace).queue
  {
    longer := trace;
    if Last(longer).consumers[i].Holding? {
      longer := PassCanEnd(longer, i);
    }
    if Last(longer).consumers[i] == AtTop {
      longer := Extend(longer, LookAtFlag(i));
    }
  }

  /** While the scheduler runs with a consumer that has not exited, every queued task can still be processed. */
  lemma QueuedCanBeProcessed(trace: seq<State>, i: nat, k: nat) returns (longer: seq<State>)
    requires Run(trace) && i < |Last(trace).consumers| && Last(trace).consumers[i] != Exited && Last(trace).running
    requires k < |Last(trace).queue|
    ensures Run(longer) && trace <= longer && Last(trace).queue[k] in Last(longer).processed
  {
    var polling := CanPoll(trace, i);
    var taken := Extend(polling, Dequeue(i, k));
    longer := PassCanEnd(taken, i);
  }

  // ----- a Terminate can always return

  /** How many consumers have not exited. */
  function Alive(cs: seq<Consumer>): nat {
    Sum(cs, StillAlive())
  }

  function StillAlive(): Consumer -> nat {
    (c: Consumer) => if c == Exited then 0 else 1
  }

  lemma {:induction false} NoneAlive(cs: seq<Consumer>)
    ensures Alive(cs) == 0 <==> AllExited(cs)
  {
    if cs != [] {
      NoneAlive(cs[1..]);
      assert cs == [cs[0]] + cs[1..];
      assert forall i | 1 <= i < |cs| :: cs[i] == cs[1..][i - 1];
    }
  }

  /** With the flag down a consumer can exit. */
  lemma CanExit(trace: seq<State>, i: nat) returns (longer: seq<State>)
    requires Run(trace) && i < |Last(trace).consumers| && Last(trace).consumers[i] != Exited && !Last(trace).running
    ensures Run(longer) && trace <= longer && !Last(longer).running && Last(longer).calls == Last(trace).calls
    ensures Last(longer).consumers == Last(trace).consumers[i := Exited]
  {
    longer := trace;
    if Last(longer).consumers[i].Holding? {
      longer := PassCanEnd(longer, i);
    } else if Last(longer).consumers[i] == Polling {
      longer := Extend(longer, TimeOut(i));
    }
    longer := Extend(longer, LookAtFlag(i));
  }

  lemma {:induction false} AllCanExit(trace: seq<State>) returns (longer: seq<State>)
    requires Run(trace) && !Last(trace).running
    ensures Run(longer) && trace <= longer && AllExited(Last(longer).consumers)
    ensures Last(longer).calls == Last(trace).calls
    decreases Alive(Last(trace).consumers)
  {
    var cs := Last(trace).consumers;
    NoneAlive(cs);
    if AllExited(cs) {
      longer := trace;
    } else {
      var i :| 0 <= i < |cs| && cs[i] != Exited;
      SumUpdate(cs, i, Exited, StillAlive());
      var next := CanExit(trace, i);
      longer := AllCanExit(next);
    }
  }

  /** A call that drains can empty the queue and return. */
  lemma {:induction false} DrainCanReturn(trace: seq<State>, j: nat) returns (longer: seq<State>)
    requires Run(trace) && CallAt(Last(trace), j, Draining)
    ensures Run(longer) && trace <= longer && CallAt(Last(longer), j, Returned)
    decreases |Last(trace).queue|
  {
    if Last(trace).queue == [] {
      longer := Extend(trace, ReturnDrained(j));
    } else {
      var next := Extend(trace, DrainTask(j, 0));
      longer := DrainCanReturn(next, j);
    }
  }

  /** However the run has gone, a `Terminate` that was called can return. */
  lemma TerminateCanReturn(trace: seq<State>, j: nat) returns (longer: seq<State>)
    requires Run(trace) && CallAt(Last(trace), j, Asked)
    ensures Run(longer) && trace <= longer && CallAt(Last(longer), j, Returned)
  {
    longer := Extend(trace, LowerFlag(j));
    longer := AllCanExit(longer);
    longer := Extend(longer, JoinConsumers(j));
    longer := DrainCanReturn(longer, j);
  }
}
