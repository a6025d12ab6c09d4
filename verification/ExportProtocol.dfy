/** The asynchronous export job: deliveries of one queue message that load, flip, build, upload,
    sign and commit, each step a separate atomic effect that can fail, under crashes,
    redeliveries and duplicate deliveries. */
module ExportProtocol {
  import opened Wrappers

  datatype Status = Pending | Generating | Success | Failed

  datatype JobRow = JobRow(status: Status, s3Key: Option<string>, downloadUrl: Option<string>)

  // Where a delivery stands. Erring has caught an error that may be retried; Marking is about
  // to record a failure; Leaving has done its work but not acknowledged its message; Finished
  // has; Dead crashed before it did.
  datatype Stage =
    | Load | Flip | Build | Upload | Sign | Commit(url: string)
    | Erring | Marking | Leaving | Finished | Dead

  datatype Delivery = Delivery(stage: Stage, retries: nat)

  // The job row (None when it does not exist), the objects in the bucket, and every delivery.
  datatype World = World(row: Option<JobRow>, bucket: set<string>, deliveries: seq<Delivery>)

  datatype BuildOutcome = Built | DataError | Transient

  datatype Event =
    | Deliver
    | LoadRow(i: nat, ok: bool)
    | FlipGenerating(i: nat, ok: bool)
    | BuildWorkbook(i: nat, outcome: BuildOutcome)
    | PutObject(i: nat, ok: bool, stored: bool)
    | SignUrl(i: nat, ok: bool, url: string)
    | CommitSuccess(i: nat, ok: bool)
    | Decide(i: nat)
    | MarkFailed(i: nat, ok: bool)
    | Acknowledge(i: nat)
    | Crash(i: nat)
    | Redeliver(i: nat)

  const MAX_RETRIES: nat := 2

  predicate AtStage(w: World, i: nat, stage: Stage)
  {
    i < |w.deliveries| && w.deliveries[i].stage == stage
  }

  /** Still running, up to its acknowledgement. */
  predicate Active(d: Delivery)
  {
    d.stage != Finished && d.stage != Dead
  }

  /** With steps left that can touch the row or the bucket. */
  predicate Working(d: Delivery)
  {
    Active(d) && d.stage != Leaving
  }

  predicate Enabled(w: World, e: Event)
  {
    match e
    case Deliver => true
    case LoadRow(i, _) => AtStage(w, i, Load)
    case FlipGenerating(i, _) => AtStage(w, i, Flip)
    case BuildWorkbook(i, _) => AtStage(w, i, Build)
    case PutObject(i, ok, stored) => AtStage(w, i, Upload) && (ok ==> stored)
    case SignUrl(i, _, _) => AtStage(w, i, Sign)
    case CommitSuccess(i, _) => i < |w.deliveries| && w.deliveries[i].stage.Commit?
    case Decide(i) => AtStage(w, i, Erring)
    case MarkFailed(i, _) => AtStage(w, i, Marking)
    case Acknowledge(i) => AtStage(w, i, Leaving)
    case Crash(i) => i < |w.deliveries| && Active(w.deliveries[i])
    case Redeliver(i) => i < |w.deliveries| && w.deliveries[i].stage != Finished
  }

  function Moved(w: World, i: nat, stage: Stage): World
    requires i < |w.deliveries|
  {
    w.(deliveries := w.deliveries[i := w.deliveries[i].(stage := stage)])
  }

  function Sent(w: World, retries: nat): World
  {
    w.(deliveries := w.deliveries + [Delivery(Load, retries)])
  }

  /** UPDATE ... WHERE id: no effect when the row is not there. */
  function WithStatus(row: Option<JobRow>, status: Status): Option<JobRow>
  {
    match row
    case None => None
    case Some(r) => Some(r.(status := status))
  }

  function WithResult(row: Option<JobRow>, key: string, url: string): Option<JobRow>
  {
    match row
    case None => None
    case Some(_) => Some(JobRow(Success, Some(key), Some(url)))
  }

  /** One committed effect. The broker may deliver a message again at any time until it is
      acknowledged, whether its worker crashed or not. */
  function Step(w: World, e: Event, key: string): World
    requires Enabled(w, e)
  {
    match e
    case Deliver => Sent(w, 0)
    case LoadRow(i, ok) =>
      if !ok then Moved(w, i, Erring)
      else if w.row == None then Moved(w, i, Marking)
      else if w.row.value.status == Success then Moved(w, i, Leaving)
      else Moved(w, i, Flip)
    case FlipGenerating(i, ok) =>
      if ok then Moved(w, i, Build).(row := WithStatus(w.row, Generating)) else Moved(w, i, Erring)
    case BuildWorkbook(i, outcome) =>
      Moved(w, i, match outcome case Built => Upload case DataError => Marking case Transient => Erring)
    case PutObject(i, ok, stored) =>
      Moved(w, i, if ok then Sign else Erring).(bucket := if stored then w.bucket + {key} else w.bucket)
    case SignUrl(i, ok, url) => Moved(w, i, if ok then Commit(url) else Erring)
    case CommitSuccess(i, ok) =>
      if ok then Moved(w, i, Leaving).(row := WithResult(w.row, key, w.deliveries[i].stage.url)) else Moved(w, i, Erring)
    case Decide(i) =>
      var d := w.deliveries[i];
      if d.retries >= MAX_RETRIES - 1 then Moved(w, i, Marking)
      else Sent(Moved(w, i, Leaving), d.retries + 1)
    case MarkFailed(i, ok) =>
      Moved(w, i, Leaving).(row := if ok then WithStatus(w.row, Failed) else w.row)
    case Acknowledge(i) => Moved(w, i, Finished)
    case Crash(i) => Moved(w, i, Dead)
    case Redeliver(i) =>
      var d := w.deliveries[i];
      Sent(if d.stage == Dead then Moved(w, i, Finished) else w, d.retries)
  }

  /** The world after a run; None if some event was not enabled at its turn. */
  function Run(w: World, events: seq<Event>, key: string): Option<World>
    decreases |events|
  {
    if events == [] then Some(w)
    else if Enabled(w, events[0]) then Run(Step(w, events[0], key), events[1..], key)
    else None
  }

  function Created(): World
  {
    World(Some(JobRow(Pending, None, None)), {}, [])
  }

  predicate Succeeded(w: World)
  {
    w.row.Some? && w.row.value.status == Success
  }

  lemma RunCons(w: World, e: Event, rest: seq<Event>, key: string)
    requires Enabled(w, e)
    ensures Run(w, [e] + rest, key) == Run(Step(w, e, key), rest, key)
  {
    assert ([e] + rest)[1..] == rest;
  }

  // ---- any interleaving: SUCCESS is never a lie ----

  predicate UploadedBefore(d: Delivery)
  {
    d.stage == Sign || d.stage.Commit?
  }

  /** A row showing SUCCESS has its key, its link and its object; and a delivery past its
      upload has its object. */
  predicate Honest(w: World, key: string)
  {
    && (Succeeded(w) ==> w.row.value.s3Key == Some(key) && w.row.value.downloadUrl.Some? && key in w.bucket)
    && (forall i :: 0 <= i < |w.deliveries| && UploadedBefore(w.deliveries[i]) ==> key in w.bucket)
  }

  lemma StepKeepsHonest(w: World, e: Event, key: string)
    requires Honest(w, key) && Enabled(w, e)
    ensures Honest(Step(w, e, key), key)
  {
  }

  /** Under any interleaving of any number of deliveries, failures and crashes; in particular
      from a job just created. */
  lemma {:induction false} SuccessIsAlwaysBacked(w: World, events: seq<Event>, key: string)
    requires Honest(w, key)
    ensures Honest(Created(), key)
    ensures Run(w, events, key).Some? ==> Honest(Run(w, events, key).value, key)
    decreases |events|
  {
    if events != [] && Enabled(w, events[0]) {
      StepKeepsHonest(w, events[0], key);
      SuccessIsAlwaysBacked(Step(w, events[0], key), events[1..], key);
    }
  }

  // ---- when SUCCESS is left ----

  /** Every event of the run is enabled at its turn and allowed by the rule. */
  predicate Obeys(w: World, events: seq<Event>, key: string, rule: (World, Event) -> bool)
    decreases |events|
  {
    events == [] ||
    (Enabled(w, events[0]) && rule(w, events[0]) && Obeys(Step(w, events[0], key), events[1..], key, rule))
  }

  lemma {:induction false} ObeysRuns(w: World, events: seq<Event>, key: string, rule: (World, Event) -> bool)
    requires Obeys(w, events, key, rule)
    ensures Run(w, events, key).Some?
    decreases |events|
  {
    if events != [] {
      ObeysRuns(Step(w, events[0], key), events[1..], key, rule);
    }
  }

  lemma ObeysCons(w: World, e: Event, rest: seq<Event>, key: string, rule: (World, Event) -> bool)
    requires Enabled(w, e) && rule(w, e)
    ensures Obeys(w, [e] + rest, key, rule) <==> Obeys(Step(w, e, key), rest, key, rule)
    ensures Run(w, [e] + rest, key) == Run(Step(w, e, key), rest, key)
  {
    assert ([e] + rest)[1..] == rest;
  }

  /** The read of an already successful row fails on a delivery with no retry left. */
  predicate LastReadFails(w: World, e: Event)
  {
    Succeeded(w) && e.LoadRow? && !e.ok && e.i < |w.deliveries| && w.deliveries[e.i].retries >= MAX_RETRIES - 1
  }

  predicate ReadsHold(w: World, e: Event)
  {
    !LastReadFails(w, e)
  }

  /** A delivery that got past the guard before the row succeeded, and can still flip it back
      or record a failure over it. */
  predicate CanUndo(d: Delivery)
  {
    || d.stage == Flip || d.stage == Build || d.stage == Marking
    || ((d.stage == Upload || d.stage == Sign || d.stage.Commit? || d.stage == Erring) && d.retries >= MAX_RETRIES - 1)
  }

  predicate NoneCanUndo(w: World)
  {
    forall i :: 0 <= i < |w.deliveries| ==> !CanUndo(w.deliveries[i])
  }

  /** Exactly which steps take a row out of SUCCESS. */
  lemma LeavesSuccessIff(w: World, e: Event, key: string)
    requires Enabled(w, e) && Succeeded(w)
    ensures !Succeeded(Step(w, e, key)) <==> (e.FlipGenerating? && e.ok) || (e.MarkFailed? && e.ok)
  {
  }

  lemma StepKeepsFinal(w: World, e: Event, key: string)
    requires Enabled(w, e) && Succeeded(w) && NoneCanUndo(w) && ReadsHold(w, e)
    ensures Succeeded(Step(w, e, key)) && NoneCanUndo(Step(w, e, key))
  {
    LeavesSuccessIff(w, e, key);
  }

  lemma {:induction false} RunKeepsFinal(w: World, events: seq<Event>, key: string)
    requires Succeeded(w) && NoneCanUndo(w) && Obeys(w, events, key, ReadsHold)
    ensures Run(w, events, key).Some? && Succeeded(Run(w, events, key).value)
    decreases |events|
  {
    if events != [] {
      StepKeepsFinal(w, events[0], key);
      RunKeepsFinal(Step(w, events[0], key), events[1..], key);
    }
  }

  /** How delivery i gets from where it stands to undoing the success. */
  function Undoing(d: Delivery, i: nat): seq<Event>
  {
    match d.stage
    case Flip => [FlipGenerating(i, true)] + []
    case Build => [BuildWorkbook(i, DataError)] + ([MarkFailed(i, true)] + [])
    case Upload => [PutObject(i, false, false)] + GivingUp(i)
    case Sign => [SignUrl(i, false, "")] + GivingUp(i)
    case Commit(_) => [CommitSuccess(i, false)] + GivingUp(i)
    case Erring => GivingUp(i)
    case _ => [MarkFailed(i, true)] + []
  }

  function GivingUp(i: nat): seq<Event>
  {
    [Decide(i)] + ([MarkFailed(i, true)] + [])
  }

  predicate Loses(w: World, events: seq<Event>, key: string)
  {
    Run(w, events, key).Some? && !Succeeded(Run(w, events, key).value)
  }

  lemma MarkingLoses(w: World, i: nat, key: string, rule: (World, Event) -> bool)
    requires AtStage(w, i, Marking) && w.row.Some? && rule(w, MarkFailed(i, true))
    ensures Obeys(w, [MarkFailed(i, true)] + [], key, rule) && Loses(w, [MarkFailed(i, true)] + [], key)
    ensures Run(w, [MarkFailed(i, true)] + [], key).value.row == WithStatus(w.row, Failed)
  {
    ObeysCons(w, MarkFailed(i, true), [], key, rule);
  }

  lemma GivingUpLoses(w: World, i: nat, key: string)
    requires AtStage(w, i, Erring) && w.row.Some? && w.deliveries[i].retries >= MAX_RETRIES - 1
    ensures Obeys(w, GivingUp(i), key, ReadsHold) && Loses(w, GivingUp(i), key)
  {
    MarkingLoses(Step(w, Decide(i), key), i, key, ReadsHold);
    ObeysCons(w, Decide(i), [MarkFailed(i, true)] + [], key, ReadsHold);
  }

  lemma UndoingLoses(w: World, i: nat, key: string)
    requires Succeeded(w) && i < |w.deliveries| && CanUndo(w.deliveries[i])
    ensures Obeys(w, Undoing(w.deliveries[i], i), key, ReadsHold) && Loses(w, Undoing(w.deliveries[i], i), key)
  {
    match w.deliveries[i].stage {
      case Flip =>
        ObeysCons(w, FlipGenerating(i, true), [], key, ReadsHold);
      case Build =>
        MarkingLoses(Step(w, BuildWorkbook(i, DataError), key), i, key, ReadsHold);
        ObeysCons(w, BuildWorkbook(i, DataError), [MarkFailed(i, true)] + [], key, ReadsHold);
      case Upload =>
        GivingUpLoses(Step(w, PutObject(i, false, false), key), i, key);
        ObeysCons(w, PutObject(i, false, false), GivingUp(i), key, ReadsHold);
      case Sign =>
        GivingUpLoses(Step(w, SignUrl(i, false, ""), key), i, key);
        ObeysCons(w, SignUrl(i, false, ""), GivingUp(i), key, ReadsHold);
      case Commit(_) =>
        GivingUpLoses(Step(w, CommitSuccess(i, false), key), i, key);
        ObeysCons(w, CommitSuccess(i, false), GivingUp(i), key, ReadsHold);
      case Erring =>
        GivingUpLoses(w, i, key);
      case _ =>
        MarkingLoses(w, i, key, ReadsHold);
    }
  }

  /** The exact condition: from a successful row, no run without a failed last read leaves
      SUCCESS, whatever crashes, redeliveries and duplicates it holds, if and only if no
      delivery under way can still undo it. */
  lemma SuccessIsFinalIff(w: World, key: string)
    requires Succeeded(w)
    ensures NoneCanUndo(w) <==> forall events :: Obeys(w, events, key, ReadsHold) ==> !Loses(w, events, key)
  {
    if NoneCanUndo(w) {
      forall events | Obeys(w, events, key, ReadsHold) ensures !Loses(w, events, key) {
        RunKeepsFinal(w, events, key);
      }
    } else {
      var i :| 0 <= i < |w.deliveries| && CanUndo(w.deliveries[i]);
      UndoingLoses(w, i, key);
    }
  }

  /** The guard reads the row before the flip commits, so two deliveries at once can undo a
      success: the first reads PENDING, the second runs through, the first then flips the row
      back to GENERATING. */
  lemma DuplicateDeliveriesCanUndoSuccess(key: string, url: string)
    ensures var success := [Deliver] + ([LoadRow(0, true)] + ([Deliver] + ([LoadRow(1, true)] + RunsThrough(1, url, []))));
            var before := Run(Created(), success, key);
            && before.Some? && Succeeded(before.value)
            && Enabled(before.value, FlipGenerating(0, true))
            && !Succeeded(Step(before.value, FlipGenerating(0, true), key))
  {
    var w0 := Created();
    var w1 := Step(w0, Deliver, key);
    var w2 := Step(w1, LoadRow(0, true), key);
    var w3 := Step(w2, Deliver, key);
    var w4 := Step(w3, LoadRow(1, true), key);
    RunCons(w0, Deliver, [LoadRow(0, true)] + ([Deliver] + ([LoadRow(1, true)] + RunsThrough(1, url, []))), key);
    RunCons(w1, LoadRow(0, true), [Deliver] + ([LoadRow(1, true)] + RunsThrough(1, url, [])), key);
    RunCons(w2, Deliver, [LoadRow(1, true)] + RunsThrough(1, url, []), key);
    RunCons(w3, LoadRow(1, true), RunsThrough(1, url, []), key);
    RunThrough(w4, 1, key, url, []);
  }

  /** The steps of a delivery that meets no failure after loading, then the rest of the run. */
  function RunsThrough(i: nat, url: string, rest: seq<Event>): seq<Event>
  {
    [FlipGenerating(i, true)] + ([BuildWorkbook(i, Built)] + ([PutObject(i, true, true)]
    + ([SignUrl(i, true, url)] + ([CommitSuccess(i, true)] + rest))))
  }

  function Exported(w: World, i: nat, key: string, url: string): World
    requires i < |w.deliveries|
  {
    World(Some(JobRow(Success, Some(key), Some(url))), w.bucket + {key}, Moved(w, i, Leaving).deliveries)
  }

  /** Such a delivery ends in SUCCESS, with its key, link and object, and leaves every other
      delivery where it was. */
  lemma RunThrough(w: World, i: nat, key: string, url: string, rest: seq<Event>)
    requires AtStage(w, i, Flip) && w.row.Some?
    ensures Run(w, RunsThrough(i, url, rest), key) == Run(Exported(w, i, key, url), rest, key)
    ensures Obeys(w, RunsThrough(i, url, rest), key, StartsAlone) <==> Obeys(Exported(w, i, key, url), rest, key, StartsAlone)
  {
    var r4 := [CommitSuccess(i, true)] + rest;
    var r3 := [SignUrl(i, true, url)] + r4;
    var r2 := [PutObject(i, true, true)] + r3;
    var r1 := [BuildWorkbook(i, Built)] + r2;
    var w1 := Step(w, FlipGenerating(i, true), key);
    var w2 := Step(w1, BuildWorkbook(i, Built), key);
    var w3 := Step(w2, PutObject(i, true, true), key);
    var w4 := Step(w3, SignUrl(i, true, url), key);
    ObeysCons(w4, CommitSuccess(i, true), rest, key, StartsAlone);
    ObeysCons(w3, SignUrl(i, true, url), r4, key, StartsAlone);
    ObeysCons(w2, PutObject(i, true, true), r3, key, StartsAlone);
    ObeysCons(w1, BuildWorkbook(i, Built), r2, key, StartsAlone);
    ObeysCons(w, FlipGenerating(i, true), r1, key, StartsAlone);
    assert Step(w4, CommitSuccess(i, true), key) == Exported(w, i, key, url);
  }

  // ---- one delivery at a time ----

  /** A message is delivered, or delivered again, only when no other delivery is at work. */
  predicate StartsAlone(w: World, e: Event)
  {
    e.Deliver? || e.Redeliver? ==> forall i :: 0 <= i < |w.deliveries| ==> !Working(w.deliveries[i])
  }

  predicate Orderly(w: World, e: Event)
  {
    StartsAlone(w, e) && ReadsHold(w, e)
  }

  predicate OneWorking(w: World)
  {
    forall i, j :: 0 <= i < j < |w.deliveries| ==> !Working(w.deliveries[i]) || !Working(w.deliveries[j])
  }

  predicate Settled(w: World)
  {
    OneWorking(w) && (Succeeded(w) ==> NoneCanUndo(w))
  }

  lemma OneWorkingStep(w: World, e: Event, key: string)
    requires OneWorking(w) && Enabled(w, e) && StartsAlone(w, e)
    ensures OneWorking(Step(w, e, key))
  {
    if !e.Deliver? && !e.Redeliver? {
      assert e.i < |w.deliveries|;
      assert forall j :: 0 <= j < |w.deliveries| && j != e.i && Working(w.deliveries[e.i]) ==> !Working(w.deliveries[j]);
    }
  }

  /** A commit that turns the row to SUCCESS is the work of the only delivery at work. */
  lemma CommitSettles(w: World, e: Event, key: string)
    requires OneWorking(w) && Enabled(w, e) && !Succeeded(w) && Succeeded(Step(w, e, key))
    ensures NoneCanUndo(Step(w, e, key))
  {
    assert e.CommitSuccess? && e.ok;
    assert forall i :: 0 <= i < |w.deliveries| && i != e.i ==> !Working(w.deliveries[i]);
  }

  lemma {:induction false} OrderlyRunSettles(w: World, events: seq<Event>, key: string)
    requires Settled(w) && Obeys(w, events, key, Orderly)
    ensures Run(w, events, key).Some? && Settled(Run(w, events, key).value)
    decreases |events|
  {
    if events != [] {
      var next := Step(w, events[0], key);
      OneWorkingStep(w, events[0], key);
      if Succeeded(w) {
        StepKeepsFinal(w, events[0], key);
      } else if Succeeded(next) {
        CommitSettles(w, events[0], key);
      }
      OrderlyRunSettles(next, events[1..], key);
    }
  }

  /** So SUCCESS is final once a job just created reaches it with one delivery at a time: over
      crashes before and after the last commit, redeliveries and retries; and from then on even
      deliveries side by side cannot undo it. Both hold as long as no last read fails. */
  lemma SuccessIsFinal(events: seq<Event>, later: seq<Event>, key: string)
    requires Obeys(Created(), events, key, Orderly)
    ensures Run(Created(), events, key).Some?
    ensures var w := Run(Created(), events, key).value;
            Succeeded(w) && Obeys(w, later, key, ReadsHold) ==> Run(w, later, key).Some? && Succeeded(Run(w, later, key).value)
  {
    OrderlyRunSettles(Created(), events, key);
    var w := Run(Created(), events, key).value;
    if Succeeded(w) && Obeys(w, later, key, ReadsHold) {
      RunKeepsFinal(w, later, key);
    }
  }

  /** The reads of both attempts fail, from a delivery at its start with one retry left. */
  function ReadsFail(i: nat, n: nat): seq<Event>
  {
    [LoadRow(i, false)] + ([Decide(i)] + ([LoadRow(n, false)] + ([Decide(n)] + ([MarkFailed(n, true)] + []))))
  }

  lemma ReadsFailLoses(w: World, i: nat, key: string)
    requires AtStage(w, i, Load) && w.deliveries[i].retries == MAX_RETRIES - 2 && w.row.Some?
    ensures Obeys(w, ReadsFail(i, |w.deliveries|), key, StartsAlone) && Loses(w, ReadsFail(i, |w.deliveries|), key)
    ensures Run(w, ReadsFail(i, |w.deliveries|), key).value.row == WithStatus(w.row, Failed)
  {
    var n := |w.deliveries|;
    var w1 := Step(w, LoadRow(i, false), key);
    var w2 := Step(w1, Decide(i), key);
    var w3 := Step(w2, LoadRow(n, false), key);
    var w4 := Step(w3, Decide(n), key);
    MarkingLoses(w4, n, key, StartsAlone);
    ObeysCons(w3, Decide(n), [MarkFailed(n, true)] + [], key, StartsAlone);
    ObeysCons(w2, LoadRow(n, false), [Decide(n)] + ([MarkFailed(n, true)] + []), key, StartsAlone);
    ObeysCons(w1, Decide(i), [LoadRow(n, false)] + ([Decide(n)] + ([MarkFailed(n, true)] + [])), key, StartsAlone);
    ObeysCons(w, LoadRow(i, false), [Decide(i)] + ([LoadRow(n, false)] + ([Decide(n)] + ([MarkFailed(n, true)] + []))), key, StartsAlone);
  }

  /** The condition on the reads is needed everywhere: any successful row is lost by one more
      delivery whose reads fail. */
  lemma AnySuccessCanBeLost(w: World, key: string)
    requires Succeeded(w)
    ensures var n := |w.deliveries|; Loses(w, [Deliver] + ReadsFail(n, n + 1), key)
  {
    var n := |w.deliveries|;
    ReadsFailLoses(Step(w, Deliver, key), n, key);
    RunCons(w, Deliver, ReadsFail(n, n + 1), key);
  }

  function FirstDelivery(url: string, rest: seq<Event>): seq<Event>
  {
    [Deliver] + ([LoadRow(0, true)] + RunsThrough(0, url, rest))
  }

  lemma FirstDeliverySucceeds(key: string, url: string, rest: seq<Event>)
    ensures var w := World(Some(JobRow(Success, Some(key), Some(url))), {key}, [Delivery(Leaving, 0)]);
            && Run(Created(), FirstDelivery(url, rest), key) == Run(w, rest, key)
            && (Obeys(Created(), FirstDelivery(url, rest), key, StartsAlone) <==> Obeys(w, rest, key, StartsAlone))
  {
    var w1 := Step(Created(), Deliver, key);
    var w2 := Step(w1, LoadRow(0, true), key);
    RunThrough(w2, 0, key, url, rest);
    ObeysCons(w1, LoadRow(0, true), RunsThrough(0, url, rest), key, StartsAlone);
    ObeysCons(Created(), Deliver, [LoadRow(0, true)] + RunsThrough(0, url, rest), key, StartsAlone);
    assert Exported(w2, 0, key, url) == World(Some(JobRow(Success, Some(key), Some(url))), {key}, [Delivery(Leaving, 0)]);
  }

  /** With one delivery at a time throughout, from a job just created: the export succeeds, the
      worker crashes between the last commit and the acknowledgement, the message comes again,
      and the reads of its two attempts fail. The job ends FAILED. */
  lemma FailedReadUndoesSuccess(key: string, url: string)
    ensures var first := Run(Created(), FirstDelivery(url, []), key); first.Some? && Succeeded(first.value)
    ensures var events := FirstDelivery(url, CrashThenReadsFail());
            && Obeys(Created(), events, key, StartsAlone)
            && Loses(Created(), events, key)
            && Run(Created(), events, key).value.row == Some(JobRow(Failed, Some(key), Some(url)))
  {
    FirstDeliverySucceeds(key, url, []);
    FirstDeliverySucceeds(key, url, CrashThenReadsFail());
    CrashThenReadsFailLoses(World(Some(JobRow(Success, Some(key), Some(url))), {key}, [Delivery(Leaving, 0)]), key);
  }

  function CrashThenReadsFail(): seq<Event>
  {
    [Crash(0)] + ([Redeliver(0)] + ReadsFail(1, 2))
  }

  lemma CrashThenReadsFailLoses(w: World, key: string)
    requires w.deliveries == [Delivery(Leaving, 0)] && w.row.Some?
    ensures Obeys(w, CrashThenReadsFail(), key, StartsAlone) && Loses(w, CrashThenReadsFail(), key)
    ensures Run(w, CrashThenReadsFail(), key).value.row == WithStatus(w.row, Failed)
  {
    var w1 := Step(w, Crash(0), key);
    var w2 := Step(w1, Redeliver(0), key);
    ReadsFailLoses(w2, 1, key);
    ObeysCons(w1, Redeliver(0), ReadsFail(1, 2), key, StartsAlone);
    ObeysCons(w, Crash(0), [Redeliver(0)] + ReadsFail(1, 2), key, StartsAlone);
  }

  // ---- termination of a chain ----

  /** One message and its retry: the first delivery and perhaps a second, only the last of
      them at work; once that one is done, the row shows SUCCESS or FAILED. */
  predicate Chain(w: World)
  {
    && w.row.Some? && 1 <= |w.deliveries| <= MAX_RETRIES
    && (forall i :: 0 <= i < |w.deliveries| ==> w.deliveries[i].retries == i && w.deliveries[i].stage != Dead)
    && (forall i :: 0 <= i < |w.deliveries| - 1 ==> !Working(w.deliveries[i]))
    && (!Working(w.deliveries[|w.deliveries| - 1]) ==> Ended(w))
  }

  predicate Ended(w: World)
  {
    w.row.Some? && (w.row.value.status == Success || w.row.value.status == Failed)
  }

  /** No crash, no message from the broker, and the failure write succeeds. */
  predicate Smooth(e: Event)
  {
    !e.Deliver? && !e.Crash? && !e.Redeliver? && (e.MarkFailed? ==> e.ok)
  }

  function StageRank(stage: Stage): nat
  {
    match stage
    case Load => 9
    case Flip => 8
    case Build => 7
    case Upload => 6
    case Sign => 5
    case Commit(_) => 4
    case Erring => 3
    case Marking => 2
    case Leaving => 1
    case Finished => 0
    case Dead => 0
  }

  /** Steps left at most. */
  function Budget(w: World): nat
    requires Chain(w)
  {
    var first := w.deliveries[0];
    if |w.deliveries| == 1 then StageRank(first.stage) + if Working(first) then 8 else 0
    else StageRank(first.stage) + StageRank(w.deliveries[1].stage)
  }

  lemma AcknowledgeKeepsChain(w: World, i: nat)
    requires Chain(w) && AtStage(w, i, Leaving)
    ensures Chain(Moved(w, i, Finished))
  {
  }

  lemma LastMoveKeepsChain(w: World, i: nat, stage: Stage, row: Option<JobRow>)
    requires Chain(w) && i < |w.deliveries| && Working(w.deliveries[i]) && row.Some? && stage != Dead
    requires Working(Delivery(stage, i)) || row.value.status == Success || row.value.status == Failed
    ensures Chain(Moved(w, i, stage).(row := row))
  {
    assert i == |w.deliveries| - 1;
  }

  lemma RetryKeepsChain(w: World, i: nat)
    requires Chain(w) && AtStage(w, i, Erring) && w.deliveries[i].retries < MAX_RETRIES - 1
    ensures Chain(Sent(Moved(w, i, Leaving), w.deliveries[i].retries + 1))
  {
    assert i == |w.deliveries| - 1;
  }

  /** In a chain the only steps are those of the last delivery and acknowledgements. */
  lemma StepKeepsChain(w: World, e: Event, key: string)
    requires Chain(w) && Enabled(w, e) && Smooth(e)
    ensures Chain(Step(w, e, key))
  {
    if e.Acknowledge? {
      AcknowledgeKeepsChain(w, e.i);
    } else if e.Decide? && w.deliveries[e.i].retries < MAX_RETRIES - 1 {
      RetryKeepsChain(w, e.i);
    } else {
      var next := Step(w, e, key);
      LastMoveKeepsChain(w, e.i, next.deliveries[e.i].stage, next.row);
      assert next == Moved(w, e.i, next.deliveries[e.i].stage).(row := next.row, bucket := next.bucket);
    }
  }

  lemma StepUsesBudget(w: World, e: Event, key: string)
    requires Chain(w) && Enabled(w, e) && Smooth(e) && Chain(Step(w, e, key))
    ensures Budget(Step(w, e, key)) < Budget(w)
  {
  }

  /** Every crash-free run of a chain in which the failure write succeeds uses up its budget
      of steps, two attempts at most; as long as a delivery is not acknowledged it can go on;
      and as soon as the last attempt is done the row shows SUCCESS or FAILED. */
  lemma {:induction false} ChainSettles(w: World, events: seq<Event>, key: string)
    requires Chain(w) && forall k :: 0 <= k < |events| ==> Smooth(events[k])
    ensures Run(w, events, key).Some? ==>
      var after := Run(w, events, key).value;
      && Chain(after) && |events| + Budget(after) <= Budget(w)
      && (CanGoOn(after) || (Ended(after) && forall i :: 0 <= i < |after.deliveries| ==> after.deliveries[i].stage == Finished))
    decreases |events|
  {
    if events == [] {
      ActiveCanGoOn(w);
    } else if Enabled(w, events[0]) {
      StepKeepsChain(w, events[0], key);
      StepUsesBudget(w, events[0], key);
      ChainSettles(Step(w, events[0], key), events[1..], key);
    }
  }

  /** A message just delivered for an existing row is such a chain, of at most 17 steps. */
  lemma FreshDeliveryIsChain(w: World)
    requires w.row.Some? && w.deliveries == [Delivery(Load, 0)]
    ensures Chain(w) && Budget(w) == 17
  {
  }

  /** Some smooth step is enabled. */
  ghost predicate CanGoOn(w: World)
  {
    exists e :: Smooth(e) && Enabled(w, e)
  }

  function NextStep(w: World, i: nat): Event
    requires i < |w.deliveries|
  {
    match w.deliveries[i].stage
    case Load => LoadRow(i, true)
    case Flip => FlipGenerating(i, true)
    case Build => BuildWorkbook(i, Built)
    case Upload => PutObject(i, true, true)
    case Sign => SignUrl(i, true, "")
    case Commit(_) => CommitSuccess(i, true)
    case Erring => Decide(i)
    case Marking => MarkFailed(i, true)
    case _ => Acknowledge(i)
  }

  lemma ActiveCanGoOn(w: World)
    requires Chain(w)
    ensures CanGoOn(w) || forall i :: 0 <= i < |w.deliveries| ==> w.deliveries[i].stage == Finished
  {
    forall i | 0 <= i < |w.deliveries| && w.deliveries[i].stage != Finished ensures CanGoOn(w) {
      assert Smooth(NextStep(w, i)) && Enabled(w, NextStep(w, i));
    }
  }

  // ---- retries and failures ----

  /** A step of delivery i that hits an error which may be transient. */
  predicate MayBeTransient(e: Event)
  {
    match e
    case LoadRow(_, ok) => !ok
    case FlipGenerating(_, ok) => !ok
    case BuildWorkbook(_, outcome) => outcome == Transient
    case PutObject(_, ok, _) => !ok
    case SignUrl(_, ok, _) => !ok
    case CommitSuccess(_, ok) => !ok
    case _ => false
  }

  /** On the first attempt such an error leaves the row as it is and is followed by a second
      attempt; on the second it is followed by a recorded failure and no other attempt. */
  lemma TransientIsRetriedOnce(w: World, e: Event, key: string)
    requires Enabled(w, e) && MayBeTransient(e)
    ensures var after := Run(w, [e] + ([Decide(e.i)] + []), key);
            && after.Some? && after.value.row == w.row
            && if w.deliveries[e.i].retries == 0
               then after.value.deliveries == w.deliveries[e.i := Delivery(Leaving, 0)] + [Delivery(Load, 1)]
               else after.value.deliveries == w.deliveries[e.i := Delivery(Marking, w.deliveries[e.i].retries)]
  {
    var w1 := Step(w, e, key);
    RunCons(w1, Decide(e.i), [], key);
    RunCons(w, e, [Decide(e.i)] + [], key);
  }

  /** A crash costs no attempt: the redelivered message starts over on the attempt it was on, and
      nothing else has changed. */
  lemma RedeliveryKeepsAttempt(w: World, i: nat, key: string)
    requires Enabled(w, Crash(i))
    ensures var after := Run(w, [Crash(i)] + ([Redeliver(i)] + []), key);
            after == Some(w.(deliveries := w.deliveries[i := Delivery(Finished, w.deliveries[i].retries)]
                                           + [Delivery(Load, w.deliveries[i].retries)]))
  {
    var w1 := Step(w, Crash(i), key);
    var w2 := Step(w1, Redeliver(i), key);
    RunCons(w1, Redeliver(i), [], key);
    RunCons(w, Crash(i), [Redeliver(i)] + [], key);
    assert w2.deliveries == w.deliveries[i := Delivery(Finished, w.deliveries[i].retries)] + [Delivery(Load, w.deliveries[i].retries)];
    assert Run(w2, [], key) == Some(w2);
  }

  /** A data error, or a row that is not there, is not retried on any attempt. */
  lemma DataErrorIsNotRetried(w: World, e: Event, key: string)
    requires Enabled(w, e)
    requires (e.BuildWorkbook? && e.outcome == DataError) || (e.LoadRow? && e.ok && w.row == None)
    ensures var after := Run(w, [e] + ([MarkFailed(e.i, true)] + []), key);
            && after.Some? && after.value.row == WithStatus(w.row, Failed)
            && after.value.deliveries == w.deliveries[e.i := Delivery(Leaving, w.deliveries[e.i].retries)]
  {
    var w1 := Step(w, e, key);
    RunCons(w1, MarkFailed(e.i, true), [], key);
    RunCons(w, e, [MarkFailed(e.i, true)] + [], key);
  }

  /** No data error turns up, and the row is there. */
  predicate NoDataError(w: World, e: Event)
  {
    w.row.Some? && !(e.BuildWorkbook? && e.outcome == DataError)
  }

  /** A failure is recorded, or about to be, only by a second attempt. */
  predicate FailsLate(w: World)
  {
    && w.row.Some?
    && (forall i :: 0 <= i < |w.deliveries| && w.deliveries[i].stage == Marking ==> w.deliveries[i].retries >= 1)
    && (w.row.value.status == Failed ==> exists i :: 0 <= i < |w.deliveries| && w.deliveries[i].retries >= 1)
  }

  lemma StepFailsLate(w: World, e: Event, key: string)
    requires FailsLate(w) && Enabled(w, e) && NoDataError(w, e)
    ensures FailsLate(Step(w, e, key))
  {
    var next := Step(w, e, key);
    forall i | 0 <= i < |w.deliveries| ensures i < |next.deliveries| && next.deliveries[i].retries == w.deliveries[i].retries {}
    if w.row.value.status == Failed {
      var i :| 0 <= i < |w.deliveries| && w.deliveries[i].retries >= 1;
      assert next.deliveries[i].retries >= 1;
    } else if next.row.value.status == Failed {
      assert e.MarkFailed? && next.deliveries[e.i].retries >= 1;
    }
  }

  /** Under any interleaving, without data errors a job just created never shows FAILED before
      a second attempt. */
  lemma {:induction false} FailedOnlyAfterRetry(w: World, events: seq<Event>, key: string)
    requires FailsLate(w) && Obeys(w, events, key, NoDataError)
    ensures FailsLate(Created())
    ensures Run(w, events, key).Some? && FailsLate(Run(w, events, key).value)
    decreases |events|
  {
    if events != [] {
      StepFailsLate(w, events[0], key);
      FailedOnlyAfterRetry(Step(w, events[0], key), events[1..], key);
    }
  }

  predicate Producing(stage: Stage)
  {
    stage == Build || stage == Upload || stage == Sign || stage.Commit?
  }

  /** While its last delivery produces the export, the row of a chain shows GENERATING. */
  predicate ShowsProgress(w: World)
    requires Chain(w)
  {
    Producing(w.deliveries[|w.deliveries| - 1].stage) ==> w.row.value.status == Generating
  }

  lemma StepShowsProgress(w: World, e: Event, key: string)
    requires Chain(w) && ShowsProgress(w) && Enabled(w, e) && Smooth(e) && Chain(Step(w, e, key))
    ensures ShowsProgress(Step(w, e, key))
  {
  }

  lemma {:induction false} ProgressIsShown(w: World, events: seq<Event>, key: string)
    requires Chain(w) && ShowsProgress(w) && forall k :: 0 <= k < |events| ==> Smooth(events[k])
    ensures Run(w, events, key).Some? ==>
      var after := Run(w, events, key).value; Chain(after) && ShowsProgress(after)
    decreases |events|
  {
    if events != [] && Enabled(w, events[0]) {
      StepKeepsChain(w, events[0], key);
      StepShowsProgress(w, events[0], key);
      ProgressIsShown(Step(w, events[0], key), events[1..], key);
    }
  }
}
