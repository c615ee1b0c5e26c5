/** Closing a file batch: one handler per file, each service call one atomic step. */
module BatchProtocol {
  import opened Wrappers

  datatype Status = InProgress | Completed | Failed | Cancelled

  datatype Counts = Counts(inProgress: nat, completed: nat, failed: nat, cancelled: nat, total: nat)

  function Count(files: seq<Status>, s: Status): nat {
    if files == [] then 0 else (if files[0] == s then 1 else 0) + Count(files[1..], s)
  }

  /** The aggregate query over the files of the batch. */
  function CountFiles(files: seq<Status>): Counts {
    Counts(Count(files, InProgress), Count(files, Completed), Count(files, Failed), Count(files, Cancelled), |files|)
  }

  lemma {:induction false} CountZero(files: seq<Status>, s: Status)
    ensures Count(files, s) == 0 <==> forall i | 0 <= i < |files| :: files[i] != s
  {
    if files != [] {
      CountZero(files[1..], s);
      assert forall i | 1 <= i < |files| :: files[i] == files[1..][i - 1];
    }
  }

  lemma {:induction false} CountAll(files: seq<Status>, s: Status)
    ensures Count(files, s) <= |files|
    ensures Count(files, s) == |files| <==> forall i | 0 <= i < |files| :: files[i] == s
  {
    if files != [] {
      CountAll(files[1..], s);
      assert forall i | 1 <= i < |files| :: files[i] == files[1..][i - 1];
    }
  }

  /** The status a handler writes to the batch; none when the counts fit no case. */
  function StatusFor(c: Counts): Option<Status> {
    if c.cancelled > 0 then Some(Cancelled)
    else if c.failed > 0 then Some(Failed)
    else if c.completed == c.total then Some(Completed)
    else None
  }

  /** For every list of files: cancelled if any is, else failed if any is, else completed if all are, else
      no status. */
  lemma StatusExactly(files: seq<Status>)
    ensures StatusFor(CountFiles(files)) ==
      if exists i :: 0 <= i < |files| && files[i] == Cancelled then Some(Cancelled)
      else if exists i :: 0 <= i < |files| && files[i] == Failed then Some(Failed)
      else if forall i | 0 <= i < |files| :: files[i] == Completed then Some(Completed)
      else None
  {
    CountZero(files, Cancelled);
    CountZero(files, Failed);
    CountAll(files, Completed);
  }

  // ----- handlers

  /** Where a handler stands. */
  datatype Pc =
    | Queued                        // the task waits in the scheduler
    | Checked                       // first check passed
    | Working                       // file marked in progress
    | Worked(ok: bool)              // ingestion and summary done, or an exception caught
    | Rechecked(ok: bool)           // second check passed
    | Updated                       // file status written
    | Counted(counts: Counts)       // counts of the batch read
    | Finished
    | Aborted                       // a check found the file not in progress

  /** `outcomes` records how the work of each handler ended. */
  datatype State = State(
    files: seq<Status>,
    handlers: seq<Pc>,
    outcomes: seq<Option<bool>>,
    batch: Status,
    writes: seq<Option<Status>>)

  ghost predicate Init(s: State) {
    && |s.files| == |s.handlers| == |s.outcomes| > 0 && s.batch == InProgress && s.writes == []
    && forall i | 0 <= i < |s.files| :: s.files[i] == InProgress && s.handlers[i] == Queued && s.outcomes[i] == None
  }

  function Move(s: State, i: nat, pc: Pc): State
    requires i < |s.handlers|
  {
    s.(handlers := s.handlers[i := pc])
  }

  function SetFile(s: State, i: nat, status: Status): State
    requires i < |s.files|
  {
    s.(files := s.files[i := status])
  }

  function Recorded(s: State, i: nat, ok: bool): State
    requires i < |s.outcomes|
  {
    s.(outcomes := s.outcomes[i := Some(ok)])
  }

  /** Writing the batch row: a request without a status leaves the status as it is. */
  function WriteBatch(s: State, status: Option<Status>): State {
    s.(batch := if status.Some? then status.value else s.batch, writes := s.writes + [status])
  }

  /** One step of handler `i`; `ok` is the outcome of its work. */
  function HandlerStep(s: State, i: nat, ok: bool): State
    requires i < |s.handlers| == |s.files| == |s.outcomes|
  {
    match s.handlers[i]
    case Queued => Move(s, i, if s.files[i] == InProgress then Checked else Aborted)
    case Checked => Move(SetFile(s, i, InProgress), i, Working)
    case Working => Move(Recorded(s, i, ok), i, Worked(ok))
    case Worked(r) => Move(s, i, if s.files[i] == InProgress then Rechecked(r) else Aborted)
    case Rechecked(r) => Move(SetFile(s, i, if r then Completed else Failed), i, Updated)
    case Updated => Move(s, i, Counted(CountFiles(s.files)))
    case Counted(c) => Move(if c.inProgress == 0 then WriteBatch(s, StatusFor(c)) else s, i, Finished)
    case Finished => s
    case Aborted => s
  }

  ghost predicate Next(s: State, t: State) {
    exists i: nat, ok :: i < |s.handlers| == |s.files| == |s.outcomes| && t == HandlerStep(s, i, ok)
  }

  ghost predicate Run(trace: seq<State>) {
    && trace != [] && Init(trace[0])
    && forall k | 0 <= k < |trace| - 1 :: Next(trace[k], trace[k + 1])
  }

  // ----- what every step keeps

  predicate Terminal(s: Status) {
    s == Completed || s == Failed
  }

  ghost predicate AllTerminal(files: seq<Status>) {
    forall i | 0 <= i < |files| :: Terminal(files[i])
  }

  predicate Before(pc: Pc) {
    pc.Queued? || pc.Checked? || pc.Working? || pc.Worked? || pc.Rechecked?
  }

  /** Failed if any file failed, otherwise completed. */
  ghost function Verdict(files: seq<Status>): Status {
    if exists i | 0 <= i < |files| :: files[i] == Failed then Failed else Completed
  }

  /** Once the work is done its outcome is known, and the file ends up as it says. */
  predicate OutcomeMatches(pc: Pc, outcome: Option<bool>, file: Status) {
    match pc
    case Worked(ok) => outcome == Some(ok)
    case Rechecked(ok) => outcome == Some(ok)
    case Updated => outcome.Some? && file == StatusAfter(outcome.value)
    case Counted(_) => outcome.Some? && file == StatusAfter(outcome.value)
    case Finished => outcome.Some? && file == StatusAfter(outcome.value)
    case _ => true
  }

  /** What a handler makes of its file. */
  function StatusAfter(ok: bool): Status {
    if ok then Completed else Failed
  }

  /** A file is in progress until its handler has written it, and the handler never aborts. */
  ghost predicate FileMatches(s: State, i: nat)
    requires i < |s.files| == |s.handlers| == |s.outcomes|
  {
    && !s.handlers[i].Aborted? && OutcomeMatches(s.handlers[i], s.outcomes[i], s.files[i])
    && (if Before(s.handlers[i]) then s.files[i] == InProgress else Terminal(s.files[i]))
  }

  /** Counts without a file in progress are final. */
  ghost predicate CountsFinal(s: State, i: nat)
    requires i < |s.handlers|
  {
    s.handlers[i].Counted? && s.handlers[i].counts.inProgress == 0 ==>
      AllTerminal(s.files) && s.handlers[i].counts == CountFiles(s.files)
  }

  /** Handler `i` is bound to close the batch. */
  predicate WillClose(s: State, i: nat)
    requires i < |s.handlers|
  {
    s.handlers[i].Updated? || (s.handlers[i].Counted? && s.handlers[i].counts.inProgress == 0)
  }

  ghost predicate Inv(s: State) {
    && |s.files| == |s.handlers| == |s.outcomes| > 0
    && (forall i: nat {:trigger FileMatches(s, i)} | i < |s.files| :: FileMatches(s, i))
    && (forall i: nat {:trigger CountsFinal(s, i)} | i < |s.handlers| :: CountsFinal(s, i))
    && (s.writes != [] ==> AllTerminal(s.files) && s.batch == Verdict(s.files))
    && (forall k | 0 <= k < |s.writes| :: s.writes[k] == Some(Verdict(s.files)))
    && (AllTerminal(s.files) ==> s.writes != [] || exists i: nat :: i < |s.handlers| && WillClose(s, i))
  }

  lemma VerdictOfCounts(files: seq<Status>)
    requires AllTerminal(files)
    ensures CountFiles(files).inProgress == 0 && StatusFor(CountFiles(files)) == Some(Verdict(files))
  {
    CountZero(files, InProgress);
    CountZero(files, Cancelled);
    CountZero(files, Failed);
    CountAll(files, Completed);
  }

  lemma InitInv(s: State)
    requires Init(s)
    ensures Inv(s)
  {
    assert !Terminal(s.files[0]);
  }

  /** Moving a handler on without touching the tables. */
  lemma MoveKeepsInv(s: State, i: nat, pc: Pc)
    requires Inv(s) && i < |s.handlers|
    requires !pc.Aborted? && (Before(pc) <==> Before(s.handlers[i]))
    requires pc.Counted? ==> pc.counts == CountFiles(s.files)
    requires OutcomeMatches(pc, s.outcomes[i], s.files[i])
    requires WillClose(s, i) ==>
               s.handlers[i].Updated? && pc.Counted? && (AllTerminal(s.files) ==> pc.counts.inProgress == 0)
    ensures Inv(Move(s, i, pc))
  {
    var t := Move(s, i, pc);
    forall j: nat | j < |t.files| ensures FileMatches(t, j) {
      assert FileMatches(s, j);
    }
    forall j: nat | j < |t.handlers| ensures CountsFinal(t, j) {
      assert CountsFinal(s, j);
      if j == i && pc.Counted? && pc.counts.inProgress == 0 {
        CountZero(s.files, InProgress);
        forall k | 0 <= k < |s.files| ensures Terminal(s.files[k]) {
          assert FileMatches(s, k);
        }
      }
    }
    if AllTerminal(t.files) && t.writes == [] {
      var c: nat :| c < |s.handlers| && WillClose(s, c);
      assert WillClose(t, c);
    }
  }

  lemma RecordKeepsInv(s: State, i: nat, ok: bool)
    requires Inv(s) && i < |s.handlers| && s.handlers[i].Working?
    ensures Inv(Recorded(s, i, ok))
  {
    var t := Recorded(s, i, ok);
    forall j: nat | j < |t.files| ensures FileMatches(t, j) {
      assert FileMatches(s, j);
    }
    forall j: nat | j < |t.handlers| ensures CountsFinal(t, j) {
      assert CountsFinal(s, j);
    }
    if AllTerminal(t.files) && t.writes == [] {
      var c: nat :| c < |s.handlers| && WillClose(s, c);
      assert WillClose(t, c);
    }
  }

  /** Writing the file's final status: if it was the last one, its handler will close the batch. */
  lemma UpdateKeepsInv(s: State, i: nat, status: Status)
    requires Inv(s) && i < |s.handlers| && Before(s.handlers[i])
    requires s.outcomes[i].Some? && status == StatusAfter(s.outcomes[i].value)
    ensures Inv(Move(SetFile(s, i, status), i, Updated))
  {
    var t := Move(SetFile(s, i, status), i, Updated);
    assert FileMatches(s, i);
    assert !AllTerminal(s.files) by { assert !Terminal(s.files[i]); }
    forall j: nat | j < |t.files| ensures FileMatches(t, j) {
      assert FileMatches(s, j);
    }
    forall j: nat | j < |t.handlers| ensures CountsFinal(t, j) {
      assert CountsFinal(s, j);
    }
    assert WillClose(t, i);
  }

  /** Closing: the written status is the verdict. */
  lemma CloseKeepsInv(s: State, i: nat)
    requires Inv(s) && i < |s.handlers| && s.handlers[i].Counted?
    ensures Inv(HandlerStep(s, i, true))
  {
    var c := s.handlers[i].counts;
    var t := HandlerStep(s, i, true);
    assert CountsFinal(s, i);
    if c.inProgress == 0 {
      VerdictOfCounts(s.files);
    }
    forall j: nat | j < |t.files| ensures FileMatches(t, j) {
      assert FileMatches(s, j);
    }
    forall j: nat | j < |t.handlers| ensures CountsFinal(t, j) {
      assert CountsFinal(s, j);
    }
    if AllTerminal(t.files) && t.writes == [] {
      var c: nat :| c < |s.handlers| && WillClose(s, c);
      assert WillClose(t, c);
    }
  }

  lemma StepKeepsInv(s: State, i: nat, ok: bool)
    requires Inv(s) && i < |s.handlers|
    ensures Inv(HandlerStep(s, i, ok))
  {
    assert FileMatches(s, i);
    match s.handlers[i]
    case Queued => MoveKeepsInv(s, i, Checked);
    case Checked =>
      assert SetFile(s, i, InProgress) == s;
      MoveKeepsInv(s, i, Working);
    case Working =>
      RecordKeepsInv(s, i, ok);
      MoveKeepsInv(Recorded(s, i, ok), i, Worked(ok));
    case Worked(r) => MoveKeepsInv(s, i, Rechecked(r));
    case Rechecked(r) => UpdateKeepsInv(s, i, if r then Completed else Failed);
    case Updated =>
      CountZero(s.files, InProgress);
      MoveKeepsInv(s, i, Counted(CountFiles(s.files)));
    case Counted(_) => CloseKeepsInv(s, i);
    case Finished =>
    case Aborted =>
  }

  // ----- every run

  lemma {:induction false} RunInv(trace: seq<State>, k: nat)
    requires Run(trace) && k < |trace|
    ensures Inv(trace[k])
  {
    if k == 0 {
      InitInv(trace[0]);
    } else {
      RunInv(trace, k - 1);
      assert Next(trace[k - 1], trace[k - 1 + 1]);
      var i: nat, ok :| i < |trace[k - 1].handlers| && trace[k] == HandlerStep(trace[k - 1], i, ok);
      StepKeepsInv(trace[k - 1], i, ok);
    }
  }

  /** In every run no handler aborts, and every status written to the batch is the final verdict:
      written only when all files are done, so no write contradicts another or a later state. */
  lemma WritesAgree(trace: seq<State>, k: nat, w: nat)
    requires Run(trace) && k < |trace| && w < |trace[k].writes|
    ensures AllTerminal(trace[k].files)
    ensures trace[k].writes[w] == Some(Verdict(trace[k].files)) && trace[k].batch == Verdict(trace[k].files)
    ensures StatusFor(CountFiles(trace[k].files)) == trace[k].writes[w]
  {
    RunInv(trace, k);
    VerdictOfCounts(trace[k].files);
  }

  ghost predicate AllDone(s: State) {
    forall i | 0 <= i < |s.handlers| :: Returned(s.handlers[i])
  }

  /** Once every handler has returned, some handler has closed the batch with the verdict of its files. */
  lemma BatchIsClosed(trace: seq<State>, k: nat)
    requires Run(trace) && k < |trace| && AllDone(trace[k])
    ensures forall i | 0 <= i < |trace[k].handlers| :: trace[k].handlers[i].Finished?
    ensures trace[k].writes != [] && AllTerminal(trace[k].files)
    ensures trace[k].batch == Verdict(trace[k].files)
    ensures Some(trace[k].batch) == StatusFor(CountFiles(trace[k].files))
  {
    var s := trace[k];
    RunInv(trace, k);
    forall i: nat | i < |s.handlers| ensures s.handlers[i].Finished? && Terminal(s.files[i]) {
      assert FileMatches(s, i);
    }
    VerdictOfCounts(s.files);
  }

  /** Once every handler has returned, a file is completed exactly when its work succeeded, and the batch is
      failed exactly when some work failed, completed otherwise. */
  lemma OutcomesDecide(trace: seq<State>, k: nat)
    requires Run(trace) && k < |trace| && AllDone(trace[k])
    ensures var s := trace[k];
      && |s.outcomes| == |s.files|
      && (forall i | 0 <= i < |s.files| ::
            s.outcomes[i].Some? && s.files[i] == if s.outcomes[i].value then Completed else Failed)
      && (s.batch == Failed <==> exists i :: 0 <= i < |s.files| && s.outcomes[i] == Some(false))
      && (s.batch == Failed || s.batch == Completed)
  {
    var s := trace[k];
    RunInv(trace, k);
    BatchIsClosed(trace, k);
    forall i: nat | i < |s.files|
      ensures s.outcomes[i].Some? && s.files[i] == if s.outcomes[i].value then Completed else Failed
    {
      assert FileMatches(s, i);
    }
  }

  // ----- every run comes to an end

  /** How many steps a handler still has to take. */
  function Left(pc: Pc): nat {
    match pc
    case Queued => 7
    case Checked => 6
    case Working => 5
    case Worked(_) => 4
    case Rechecked(_) => 3
    case Updated => 2
    case Counted(_) => 1
    case Finished => 0
    case Aborted => 0
  }

  function TotalLeft(hs: seq<Pc>): nat {
    if hs == [] then 0 else Left(hs[0]) + TotalLeft(hs[1..])
  }

  lemma {:induction false} TotalLeftFalls(hs: seq<Pc>, i: nat, pc: Pc)
    requires i < |hs|
    ensures TotalLeft(hs[i := pc]) == TotalLeft(hs) - Left(hs[i]) + Left(pc)
  {
    if i == 0 {
      assert hs[i := pc][1..] == hs[1..];
    } else {
      assert hs[i := pc][1..] == hs[1..][i - 1 := pc];
      TotalLeftFalls(hs[1..], i - 1, pc);
    }
  }

  predicate Returned(pc: Pc) {
    pc.Finished? || pc.Aborted?
  }

  /** Every step of an unfinished handler is one of the seven it takes. */
  lemma StepCounts(s: State, i: nat, ok: bool)
    requires Inv(s) && i < |s.handlers| && !Returned(s.handlers[i])
    ensures TotalLeft(HandlerStep(s, i, ok).handlers) == TotalLeft(s.handlers) - 1
  {
    assert FileMatches(s, i);
    TotalLeftFalls(s.handlers, i, HandlerStep(s, i, ok).handlers[i]);
  }

  lemma {:induction false} TotalAtStart(hs: seq<Pc>)
    requires forall i | 0 <= i < |hs| :: hs[i] == Queued
    ensures TotalLeft(hs) == 7 * |hs|
  {
    if hs != [] {
      TotalAtStart(hs[1..]);
    }
  }

  lemma {:induction false} NoneLeft(hs: seq<Pc>)
    ensures TotalLeft(hs) == 0 <==> forall i | 0 <= i < |hs| :: Returned(hs[i])
  {
    if hs != [] {
      NoneLeft(hs[1..]);
      assert forall i | 1 <= i < |hs| :: hs[i] == hs[1..][i - 1];
    }
  }

  /** A run in which every step does something. */
  ghost predicate Busy(trace: seq<State>) {
    Run(trace) && forall k | 0 <= k < |trace| - 1 :: trace[k] != trace[k + 1]
  }

  lemma {:induction false} BusyCounts(trace: seq<State>, k: nat)
    requires Busy(trace) && k < |trace|
    ensures TotalLeft(trace[k].handlers) == 7 * |trace[0].handlers| - k
  {
    if k == 0 {
      TotalAtStart(trace[0].handlers);
    } else {
      BusyCounts(trace, k - 1);
      RunInv(trace, k - 1);
      assert Next(trace[k - 1], trace[k - 1 + 1]) && trace[k - 1] != trace[k - 1 + 1];
      var i: nat, ok :| i < |trace[k - 1].handlers| && trace[k] == HandlerStep(trace[k - 1], i, ok);
      StepCounts(trace[k - 1], i, ok);
    }
  }

  /** In every interleaving the handlers together take at most seven steps per file, and all have
      returned exactly when they have taken that many. */
  lemma StepsRunOut(trace: seq<State>)
    requires Busy(trace)
    ensures |trace| <= 7 * |trace[0].handlers| + 1
    ensures AllDone(trace[|trace| - 1]) <==> |trace| == 7 * |trace[0].handlers| + 1
  {
    var last := trace[|trace| - 1];
    BusyCounts(trace, |trace| - 1);
    NoneLeft(last.handlers);
  }

  /** Every run can go on until all handlers have returned. */
  lemma RunCompletes(trace: seq<State>) returns (full: seq<State>)
    requires Run(trace)
    ensures Run(full) && trace <= full && AllDone(full[|full| - 1])
    decreases TotalLeft(trace[|trace| - 1].handlers)
  {
    var last := trace[|trace| - 1];
    if AllDone(last) {
      full := trace;
    } else {
      var i: nat :| i < |last.handlers| && !Returned(last.handlers[i]);
      RunInv(trace, |trace| - 1);
      StepCounts(last, i, true);
      var next := trace + [HandlerStep(last, i, true)];
      forall k | 0 <= k < |next| - 1 ensures Next(next[k], next[k + 1]) {
        assert k < |trace| - 1 ==> Next(trace[k], trace[k + 1]);
      }
      full := RunCompletes(next);
    }
  }
}
