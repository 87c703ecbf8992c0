/**
 How far a build of src/fastrag/indexing.py gets: a batch survives fewer failed upserts in a row than it
 has attempts, and a build whose batches all get through is validated and, if asked to, activated.
 */
module IndexProgress {
  import opened Common
  import opened IndexRegistry
  import opened IndexLifecycle
  import opened IndexBuilder

  /** The moves of one actor under these faults. */
  function Calls(i: nat, faults: seq<Fault>): (moves: seq<Move>)
    ensures |moves| == |faults| && forall m | m in moves :: m.actor == i
  {
    seq(|faults|, k requires 0 <= k < |faults| => Move(i, faults[k]))
  }

  /** Upserts that raise, with or without having applied; the first does not fail before it is sent. */
  predicate Failing(faults: seq<Fault>) {
    (forall f | f in faults :: !f.Fine?) && (faults != [] ==> !faults[0].Midway?)
  }

  /** Actor i of w with another program counter, and everything but the store as it was. */
  ghost predicate Moved(w: World, u: World, i: nat, pc: Pc) {
    && i < |w.actors| && u.actors == w.actors[i := w.actors[i].(pc := pc)]
    && u.rows == w.rows && u.alias == w.alias
  }

  lemma RunCons(w: World, size: nat, m: Move, rest: seq<Move>)
    requires size >= 1 && Schedules(w, [m] + rest) && m.actor < |w.actors|
    ensures Schedules(Step(w, m.actor, size, m.fault), rest)
    ensures Run(w, size, [m] + rest) == Run(Step(w, m.actor, size, m.fault), size, rest)
  {
    hide Step;
    SameActors(w, m, size);
    assert ([m] + rest)[1..] == rest;
    assert forall x | x in rest :: x in [m] + rest;
  }

  lemma UploadFails(w: World, size: nat, i: nat, offset: nat, attempt: nat, fault: Fault)
    requires size >= 1 && i < |w.actors| && w.actors[i].builds && w.actors[i].pc == Uploading(offset, attempt)
    requires offset < |w.actors[i].chunks| && w.actors[i].collection in w.store
    requires !fault.Fine? && (fault.Midway? ==> attempt > 0) && attempt < ATTEMPTS
    ensures var u := Step(w, i, size, fault);
      && Moved(w, u, i, if attempt + 1 < ATTEMPTS then Uploading(offset, attempt + 1) else Raising)
      && w.actors[i].collection in u.store
  {
    hide PointsOf, Batch;
  }

  /** After n failed upserts in a row a batch that had made `attempt` attempts is still tried, the (attempt +
      n + 1)-th time, exactly if that is at most four; the table and the alias have not changed. */
  lemma {:induction false} BatchSurvives(w: World, size: nat, i: nat, offset: nat, attempt: nat, faults: seq<Fault>)
    requires size >= 1 && i < |w.actors| && w.actors[i].builds && w.actors[i].pc == Uploading(offset, attempt)
    requires offset < |w.actors[i].chunks| && w.actors[i].collection in w.store
    requires attempt + |faults| <= ATTEMPTS && attempt < ATTEMPTS
    requires (forall f | f in faults :: !f.Fine?) && (attempt == 0 ==> Failing(faults))
    ensures Schedules(w, Calls(i, faults))
    ensures var u := Run(w, size, Calls(i, faults));
      && Moved(w, u, i, if attempt + |faults| < ATTEMPTS then Uploading(offset, attempt + |faults|) else Raising)
      && w.actors[i].collection in u.store
    decreases |faults|
  {
    hide Step, PointsOf;
    if faults == [] {
      assert w.actors[i := w.actors[i].(pc := w.actors[i].pc)] == w.actors;
    } else {
      var rest := faults[1..];
      UploadFails(w, size, i, offset, attempt, faults[0]);
      assert Calls(i, faults) == [Move(i, faults[0])] + Calls(i, rest);
      RunCons(w, size, Move(i, faults[0]), Calls(i, rest));
      if attempt + 1 < ATTEMPTS {
        BatchSurvives(Step(w, i, size, faults[0]), size, i, offset, attempt + 1, rest);
      }
    }
  }

  /** Any other call of a build that fails, wherever it fails, ends the build in its handler: nothing is
      skipped or tried again. */
  lemma FailureRaises(w: World, size: nat, i: nat, fault: Fault)
    requires size >= 1 && i < |w.actors| && w.actors[i].builds && !fault.Fine?
    requires var pc := w.actors[i].pc; !pc.Start? && !pc.Uploading? && !pc.Raising? && !pc.Finished? && !pc.Stopped?
    ensures Step(w, i, size, fault).actors[i].pc.Raising? && Step(w, i, size, fault).rows == w.rows
  {
    hide PointsOf, Batch;
  }

  /** A row that is gone when its centroid is to be stored, or is not validated when it is to be activated,
      fails the build too. */
  lemma RefusalRaises(w: World, size: nat, i: nat)
    requires size >= 1 && i < |w.actors| && w.actors[i].builds
    ensures var a := w.actors[i]; var u := Step(w, i, size, Fine);
      && (a.pc.MarkedValidated? && a.version !in w.rows ==> u.actors[i].pc.Raising?)
      && (a.pc.AliasFlipped? && !(a.version in w.rows && w.rows[a.version].state.Validated?) ==>
            u.actors[i].pc.Raising? && u.rows == w.rows)
  {
    hide PointsOf, Batch;
  }

  /** A batch that cannot be embedded is not retried: the build raises and nothing has changed. */
  lemma EmbeddingFails(w: World, size: nat, i: nat, offset: nat)
    requires size >= 1 && i < |w.actors| && w.actors[i].builds && w.actors[i].pc == Uploading(offset, 0)
    requires offset < |w.actors[i].chunks|
    ensures var u := Step(w, i, size, Midway); Moved(w, u, i, Raising) && u.store == w.store
  {
    hide PointsOf, Batch;
  }

  lemma UploadPasses(w: World, size: nat, i: nat, offset: nat, attempt: nat)
    requires size >= 1 && i < |w.actors| && w.actors[i].pc == Uploading(offset, attempt)
    requires offset < |w.actors[i].chunks| && w.actors[i].collection in w.store
    ensures var u := Step(w, i, size, Fine);
      Moved(w, u, i, Uploading(offset + size, 0)) && w.actors[i].collection in u.store
  {
    hide PointsOf, Batch;
  }

  /** The upload of everything from `offset` on, when the batch at o fails as `retries(o)` says before it
      gets through. */
  function Upload(i: nat, count: nat, size: nat, offset: nat, retries: nat -> seq<Fault>): (moves: seq<Move>)
    requires size >= 1
    ensures forall m | m in moves :: m.actor == i
    decreases Max(0, count - offset)
  {
    if offset >= count then []
    else Calls(i, retries(offset)) + ([Move(i, Fine)] + Upload(i, count, size, offset + size, retries))
  }

  /** Every batch fails fewer than four times in a row. */
  ghost predicate Tolerable(retries: nat -> seq<Fault>) {
    forall o: nat :: Failing(retries(o)) && |retries(o)| < ATTEMPTS
  }

  lemma MovedTwice(w: World, u: World, v: World, i: nat, pc: Pc, pc': Pc)
    requires Moved(w, u, i, pc) && Moved(u, v, i, pc')
    ensures Moved(w, v, i, pc')
  {
  }

  lemma OwnMoves(w: World, i: nat, moves: seq<Move>)
    requires i < |w.actors| && forall m | m in moves :: m.actor == i
    ensures Schedules(w, moves)
  {
  }

  lemma {:induction false} UploadsAll(w: World, size: nat, i: nat, offset: nat, retries: nat -> seq<Fault>) returns (end: nat)
    requires size >= 1 && i < |w.actors| && w.actors[i].builds && w.actors[i].pc == Uploading(offset, 0)
    requires w.actors[i].collection in w.store && Tolerable(retries)
    ensures var moves := Upload(i, |w.actors[i].chunks|, size, offset, retries);
      && Schedules(w, moves) && end >= |w.actors[i].chunks| && Moved(w, Run(w, size, moves), i, Uploading(end, 0))
    decreases Max(0, |w.actors[i].chunks| - offset)
  {
    hide Step, Moved, Failing;
    var n := |w.actors[i].chunks|;
    OwnMoves(w, i, Upload(i, n, size, offset, retries));
    if offset >= n {
      end := offset;
      Unmoved(w, i);
    } else {
      var faults := retries(offset);
      var first, rest := Calls(i, faults), Upload(i, n, size, offset + size, retries);
      assert Failing(faults) && |faults| < ATTEMPTS;
      FailingNotFine(faults);
      BatchSurvives(w, size, i, offset, 0, faults);
      var u := Run(w, size, first);
      MovedActor(w, u, i, Uploading(offset, |faults|));
      UploadPasses(u, size, i, offset, |faults|);
      var v := Step(u, i, size, Fine);
      MovedTwice(w, u, v, i, Uploading(offset, |faults|), Uploading(offset + size, 0));
      MovedActor(w, v, i, Uploading(offset + size, 0));
      end := UploadsAll(v, size, i, offset + size, retries);
      MovedTwice(w, v, Run(v, size, rest), i, Uploading(offset + size, 0), Uploading(end, 0));
      RunAppend(w, size, first, [Move(i, Fine)] + rest);
      RunCons(u, size, Move(i, Fine), rest);
    }
  }

  lemma FailingNotFine(faults: seq<Fault>)
    requires Failing(faults)
    ensures forall f | f in faults :: !f.Fine?
  {
  }

  lemma Unmoved(w: World, i: nat)
    requires i < |w.actors|
    ensures Moved(w, w, i, w.actors[i].pc)
  {
    assert w.actors[i := w.actors[i].(pc := w.actors[i].pc)] == w.actors;
  }

  lemma MovedActor(w: World, u: World, i: nat, pc: Pc)
    requires Moved(w, u, i, pc)
    ensures |u.actors| == |w.actors| && i < |u.actors| && u.actors[i] == w.actors[i].(pc := pc)
  {
  }

  /** From the end of the upload: the count is right exactly when the ids are distinct, and then the row is
      validated; otherwise it is marked failed. */
  lemma Validates(w: World, size: nat, i: nat, end: nat)
    requires size >= 1 && Inv(w, size) && i < |w.actors| && w.actors[i].builds
    requires w.actors[i].pc == Uploading(end, 0) && end >= |w.actors[i].chunks|
    ensures var a := w.actors[i]; var u := Step(Step(Step(w, i, size, Fine), i, size, Fine), i, size, Fine);
      && u.actors == w.actors[i := a.(pc := if DistinctIds(a.chunks) then MarkedValidated else Stopped)] && u.alias == w.alias
      && u.rows == w.rows[a.version := Row(a.collection, a.content, a.chunks, if DistinctIds(a.chunks) then Validated else Failed)]
  {
    hide PointsOf, Batch, DistinctIds, Separate, Complete, OneActive;
    var a := w.actors[i];
    assert ActorOk(w.rows, w.store, a, size);
    var w1 := Step(w, i, size, Fine);
    assert w1.actors[i].pc.Uploaded?;
    StepKeepsInv(w, i, size, Fine);
    ValidationExact(w1, i, size);
    var w2 := Step(w1, i, size, Fine);
    assert w2.rows == w.rows && w2.actors[i].pc == if DistinctIds(a.chunks) then Checked else Raising;
  }

  /** A validated build that is to activate does so, if nothing fails: its row becomes the one active row,
      and the alias names its collection. */
  lemma Activates(w: World, size: nat, i: nat)
    requires size >= 1 && i < |w.actors| && w.actors[i].builds && w.actors[i].activates && w.actors[i].pc.MarkedValidated?
    requires StateIs(w.rows, w.actors[i], Validated)
    ensures var a := w.actors[i];
      var u := Step(Step(Step(Step(w, i, size, Fine), i, size, Fine), i, size, Fine), i, size, Fine);
      && u.actors == w.actors[i := a.(pc := Finished)] && u.alias == Some(a.collection)
      && StateIs(u.rows, a, Active) && u.rows == Activate(w.rows, a.version).value
  {
    hide PointsOf, Batch, RetireActive;
  }

  /** All the moves of a build whose batches fail as `retries` says and where nothing else fails. */
  function Build(i: nat, a: Actor, size: nat, retries: nat -> seq<Fault>): (moves: seq<Move>)
    requires size >= 1
    ensures forall m | m in moves :: m.actor == i
  {
    [Move(i, Fine), Move(i, Fine)] + (Upload(i, |a.chunks|, size, 0, retries) + Quiet(i, if a.activates then 7 else 4))
  }

  function Quiet(i: nat, n: nat): (moves: seq<Move>)
    ensures |moves| == n && forall m | m in moves :: m.actor == i
  {
    if n == 0 then [] else [Move(i, Fine)] + Quiet(i, n - 1)
  }

  lemma RunQuiet(w: World, size: nat, i: nat, n: nat)
    requires size >= 1 && i < |w.actors| && n > 0
    ensures Schedules(w, Quiet(i, n)) && |Step(w, i, size, Fine).actors| == |w.actors| && Schedules(Step(w, i, size, Fine), Quiet(i, n - 1))
    ensures Run(w, size, Quiet(i, n)) == Run(Step(w, i, size, Fine), size, Quiet(i, n - 1))
  {
    hide Step;
    OwnMoves(w, i, Quiet(i, n));
    SameActors(w, Move(i, Fine), size);
    RunCons(w, size, Move(i, Fine), Quiet(i, n - 1));
  }

  lemma Opens(w: World, size: nat, i: nat)
    requires size >= 1 && i < |w.actors| && w.actors[i].builds && w.actors[i].pc.Start? && w.actors[i].chunks != []
    ensures var a := w.actors[i]; var u := Step(Step(w, i, size, Fine), i, size, Fine);
      && u.actors == w.actors[i := a.(pc := Uploading(0, 0))] && u.alias == w.alias && a.collection in u.store
      && u.rows == w.rows[a.version := Row(a.collection, a.content, a.chunks, Building)]
  {
    hide PointsOf, Batch;
  }

  /** A build of distinct chunks none of whose batches fails four times in a row, in a world where nothing
      else fails or moves, finishes: its row is active, or validated if it is not to activate, the alias
      names its collection if it is, and the collection holds exactly its chunks. */
  lemma BuildFinishes(w: World, size: nat, i: nat, retries: nat -> seq<Fault>)
    requires size >= 1 && Inv(w, size) && i < |w.actors| && w.actors[i].builds && w.actors[i].pc.Start?
    requires w.actors[i].chunks != [] && DistinctIds(w.actors[i].chunks) && Tolerable(retries)
    ensures var a := w.actors[i]; var moves := Build(i, a, size, retries);
      && Schedules(w, moves)
      && var u := Run(w, size, moves);
      && u.actors == w.actors[i := a.(pc := Finished)]
      && StateIs(u.rows, a, if a.activates then Active else Validated)
      && u.alias == (if a.activates then Some(a.collection) else w.alias)
      && a.collection in u.store && u.store[a.collection] == PointsOf(a.chunks)
  {
    hide Step, PointsOf, DistinctIds, Inv, Tolerable, Upload, Quiet;
    var a := w.actors[i];
    var upload, rest := Upload(i, |a.chunks|, size, 0, retries), Quiet(i, if a.activates then 7 else 4);
    OwnMoves(w, i, Build(i, a, size, retries));
    Opens(w, size, i);
    var w1 := Step(w, i, size, Fine);
    SameActors(w, Move(i, Fine), size);
    var w2 := Step(w1, i, size, Fine);
    assert Build(i, a, size, retries) == [Move(i, Fine)] + ([Move(i, Fine)] + (upload + rest));
    RunCons(w, size, Move(i, Fine), [Move(i, Fine)] + (upload + rest));
    RunCons(w1, size, Move(i, Fine), upload + rest);
    StepKeepsInv(w, i, size, Fine);
    StepKeepsInv(w1, i, size, Fine);
    RunAppend(w2, size, upload, rest);
    var end := UploadsAll(w2, size, i, 0, retries);
    var w3 := Run(w2, size, upload);
    RunKeepsInv(w2, size, upload);
    Closes(w3, size, i, end);
    assert w3.actors[i := a.(pc := Finished)] == w.actors[i := a.(pc := Finished)];
  }

  /** The last moves of such a build. */
  lemma Closes(w: World, size: nat, i: nat, end: nat)
    requires size >= 1 && Inv(w, size) && i < |w.actors| && w.actors[i].builds
    requires w.actors[i].pc == Uploading(end, 0) && end >= |w.actors[i].chunks| && DistinctIds(w.actors[i].chunks)
    ensures var a := w.actors[i]; var moves := Quiet(i, if a.activates then 7 else 4);
      && Schedules(w, moves)
      && var u := Run(w, size, moves);
      && u.actors == w.actors[i := a.(pc := Finished)]
      && StateIs(u.rows, a, if a.activates then Active else Validated)
      && u.alias == (if a.activates then Some(a.collection) else w.alias)
      && a.collection in u.store && u.store[a.collection] == PointsOf(a.chunks)
  {
    hide Step, PointsOf, DistinctIds, Inv, Quiet;
    var a := w.actors[i];
    var n := if a.activates then 7 else 4;
    Validates(w, size, i, end);
    var u := After3(w, size, i, n);
    Kept3(w, size, i);
    if a.activates {
      Activates(u, size, i);
      var v := After3(u, size, i, 4);
      RunQuiet(v, size, i, 1);
      Nothing(Step(v, i, size, Fine), size, i);
      Kept3(u, size, i);
      StepKeepsInv(v, i, size, Fine);
      ActiveComplete(Step(v, i, size, Fine), size, a);
    } else {
      RunQuiet(u, size, i, 1);
      StagesOrFinishes(u, size, i);
      Nothing(Step(u, i, size, Fine), size, i);
      StepKeepsInv(u, i, size, Fine);
      ActiveComplete(Step(u, i, size, Fine), size, a);
    }
  }

  lemma StagesOrFinishes(w: World, size: nat, i: nat)
    requires size >= 1 && i < |w.actors| && w.actors[i].builds && w.actors[i].pc.MarkedValidated? && w.actors[i].version in w.rows
    ensures Moved(w, Step(w, i, size, Fine), i, if w.actors[i].activates then Staged else Finished)
  {
    hide PointsOf, Batch;
  }

  lemma After3(w: World, size: nat, i: nat, n: nat) returns (u: World)
    requires size >= 1 && i < |w.actors| && n >= 3
    ensures u == Step(Step(Step(w, i, size, Fine), i, size, Fine), i, size, Fine) && |u.actors| == |w.actors|
    ensures Schedules(w, Quiet(i, n)) && Schedules(u, Quiet(i, n - 3)) && Run(w, size, Quiet(i, n)) == Run(u, size, Quiet(i, n - 3))
  {
    hide Step, Quiet, Run;
    RunQuiet(w, size, i, n);
    var w1 := Step(w, i, size, Fine);
    RunQuiet(w1, size, i, n - 1);
    var w2 := Step(w1, i, size, Fine);
    RunQuiet(w2, size, i, n - 2);
    u := Step(w2, i, size, Fine);
  }

  lemma Kept3(w: World, size: nat, i: nat)
    requires size >= 1 && i < |w.actors| && Inv(w, size)
    ensures |Step(Step(w, i, size, Fine), i, size, Fine).actors| == |Step(w, i, size, Fine).actors| == |w.actors|
    ensures Inv(Step(Step(Step(w, i, size, Fine), i, size, Fine), i, size, Fine), size)
  {
    hide Step, Inv;
    SameActors(w, Move(i, Fine), size);
    StepKeepsInv(w, i, size, Fine);
    var w1 := Step(w, i, size, Fine);
    SameActors(w1, Move(i, Fine), size);
    StepKeepsInv(w1, i, size, Fine);
    StepKeepsInv(Step(w1, i, size, Fine), i, size, Fine);
  }

  lemma Nothing(w: World, size: nat, i: nat)
    requires size >= 1
    ensures Schedules(w, Quiet(i, 0)) && Run(w, size, Quiet(i, 0)) == w
  {
  }

  lemma ActiveComplete(w: World, size: nat, a: Actor)
    requires Inv(w, size) && (StateIs(w.rows, a, Active) || StateIs(w.rows, a, Validated))
    ensures a.collection in w.store && w.store[a.collection] == PointsOf(a.chunks)
  {
    hide PointsOf, DistinctIds, Separate, OneActive, ActorOk;
    assert Complete(w.store, w.rows[a.version]);
  }
}
