/**
 Whether any row of the manifest table is active: which calls of src/fastrag/indexing.py and
 src/fastrag/registry.py make one active, which take the active one down, and what is left after a run.
 */
module IndexActive {
  import opened Common
  import opened IndexRegistry
  import opened IndexLifecycle
  import opened IndexAlias

  ghost predicate AnyActive(w: World) { exists v :: v in w.rows && w.rows[v].state.Active? }

  /** The move takes the active row down: a builder of that very version starts over on it, or its
      exception handler marks it failed. */
  predicate Downs(w: World, m: Move)
    requires m.actor < |w.actors|
  {
    var a := w.actors[m.actor];
    && a.builds && m.fault.Fine? && a.version in w.rows && w.rows[a.version].state.Active?
    && (a.pc.Raising? || (a.pc.Start? && a.chunks != []))
  }

  datatype Turn = Up | Down

  /** The last move of a run that activated a row or took the active one down. */
  function LastTurn(w: World, size: nat, moves: seq<Move>): Option<Turn>
    requires size >= 1 && Schedules(w, moves)
    decreases |moves|
  {
    if moves == [] then None
    else
      var later := LastTurn(Step(w, moves[0].actor, size, moves[0].fault), size, moves[1..]);
      if later.Some? then later
      else if Commits(w, size, moves[0]) then Some(Up)
      else if Downs(w, moves[0]) then Some(Down)
      else None
  }

  lemma CommitActivates(w: World, size: nat, m: Move)
    requires size >= 1 && m.actor < |w.actors| && Commits(w, size, m)
    ensures AnyActive(Step(w, m.actor, size, m.fault))
  {
    hide Step, Commits;
    CommitRows(w, size, m);
    ActivateExact(w.rows, w.actors[m.actor].version);
    var u, v := Step(w, m.actor, size, m.fault), w.actors[m.actor].version;
    assert v in u.rows && u.rows[v].state.Active?;
  }

  lemma DownDeactivates(w: World, size: nat, m: Move)
    requires size >= 1 && m.actor < |w.actors| && OneActive(w.rows) && Downs(w, m)
    ensures !AnyActive(Step(w, m.actor, size, m.fault))
  {
    var a, u := w.actors[m.actor], Step(w, m.actor, size, m.fault);
    forall v | v in u.rows ensures !u.rows[v].state.Active? {
      assert v != a.version ==> v in w.rows && u.rows[v] == w.rows[v];
    }
  }

  /** No other move touches the active row or activates one. */
  lemma OthersLeaveActive(w: World, size: nat, m: Move)
    requires size >= 1 && m.actor < |w.actors| && Inv(w, size) && !Commits(w, size, m) && !Downs(w, m)
    ensures AnyActive(Step(w, m.actor, size, m.fault)) <==> AnyActive(w)
  {
    hide Inv, Step, Commits;
    var u := Step(w, m.actor, size, m.fault);
    if AnyActive(u) {
      var v :| v in u.rows && u.rows[v].state.Active?;
      StepActive(w, size, m, v);
    }
    if AnyActive(w) {
      var v :| v in w.rows && w.rows[v].state.Active?;
      ActiveStays(w, size, m, v);
    }
  }

  lemma ActiveStays(w: World, size: nat, m: Move, v: string)
    requires size >= 1 && m.actor < |w.actors| && Inv(w, size) && !Commits(w, size, m) && !Downs(w, m)
    requires v in w.rows && w.rows[v].state.Active?
    ensures var u := Step(w, m.actor, size, m.fault); v in u.rows && u.rows[v].state.Active?
  {
    hide PointsOf, Batch, Upsert, Separate, Complete, DistinctIds;
    var a := w.actors[m.actor];
    assert ActorOk(w.rows, w.store, a, size);
  }

  /** Over every schedule and every pattern of failures: some row is active in the end exactly when the
      last move that activated a row or took the active one down was an activation, or there was no such
      move and one was active at the start. */
  lemma {:induction false} ActiveExactly(w: World, size: nat, moves: seq<Move>)
    requires size >= 1 && Schedules(w, moves) && Inv(w, size)
    ensures AnyActive(Run(w, size, moves)) <==>
      match LastTurn(w, size, moves) case Some(turn) => turn.Up? case None => AnyActive(w)
    decreases |moves|
  {
    hide Inv, Step, Commits, Downs, AnyActive;
    if moves != [] {
      var m := moves[0];
      var u := Step(w, m.actor, size, m.fault);
      SameActors(w, m, size);
      StepKeepsInv(w, m.actor, size, m.fault);
      ActiveExactly(u, size, moves[1..]);
      if Commits(w, size, m) {
        CommitActivates(w, size, m);
      } else if Downs(w, m) {
        InvOneActive(w, size);
        DownDeactivates(w, size, m);
      } else {
        OthersLeaveActive(w, size, m);
      }
    }
  }

  lemma InvOneActive(w: World, size: nat)
    requires Inv(w, size)
    ensures OneActive(w.rows)
  {
  }

  /******* Runs that end with no row active, and one that does not *******/

  /** Building the active version again takes its row down with the first call: nothing has failed, and
      no row is active. */
  lemma RebuildDownsActive(w: World, size: nat, i: nat)
    requires size >= 1 && Inv(w, size) && i < |w.actors|
    requires var a := w.actors[i];
      a.builds && a.pc.Start? && a.chunks != [] && a.version in w.rows && w.rows[a.version].state.Active?
    ensures AnyActive(w) && !AnyActive(Run(w, size, [Move(i, Fine)]))
  {
    hide Inv, Run, Step, AnyActive;
    InvOneActive(w, size);
    DownDeactivates(w, size, Move(i, Fine));
    RunNext(w, size, Move(i, Fine), []);
    RunNone(Step(w, i, size, Fine), size);
    assert [Move(i, Fine)] + [] == [Move(i, Fine)];
    ActiveRow(w, w.actors[i].version);
  }

  lemma ActiveRow(w: World, v: string)
    requires v in w.rows && w.rows[v].state.Active?
    ensures AnyActive(w)
  {
  }

  /** Every call works, and still no row is active: a separate activation of a version commits just before
      the version's own builder would; that builder is refused, and its handler marks the active row failed. */
  lemma RefusedBuilderDownsActive(w: World, size: nat, i: nat, j: nat)
    requires size >= 1 && Inv(w, size) && i < |w.actors| && j < |w.actors| && i != j
    requires var a, b := w.actors[i], w.actors[j];
      && a.builds && a.pc.AliasFlipped? && !b.builds && b.pc.Staged? && a.version == b.version
      && a.version in w.rows && w.rows[a.version].state.Validated?
    ensures !AnyActive(Run(w, size, [Move(j, Fine), Move(j, Fine), Move(i, Fine), Move(i, Fine)]))
  {
    hide Inv, Run, Step, AnyActive;
    var v := w.actors[i].version;
    FlipStep(w, size, j);
    var w1 := Step(w, j, size, Fine);
    ActivateExact(w.rows, v);
    CommitStep(w1, size, j);
    var w2 := Step(w1, j, size, Fine);
    ActivateExact(w2.rows, v);
    RefusedStep(w2, size, i);
    var w3 := Step(w2, i, size, Fine);
    DownDeactivates(w3, size, Move(i, Fine));
    RunFour(w, size, Move(j, Fine), Move(j, Fine), Move(i, Fine), Move(i, Fine));
  }

  lemma RefusedStep(w: World, size: nat, i: nat)
    requires size >= 1 && i < |w.actors| && w.actors[i].builds && w.actors[i].pc.AliasFlipped?
    requires Activate(w.rows, w.actors[i].version).None?
    ensures Step(w, i, size, Fine) == w.(actors := w.actors[i := w.actors[i].(pc := Raising)])
  {
  }

  /** Promotion fails and marking the row failed takes effect, but another builder commits in between: its
      row stays active. */
  lemma OtherCommitRestores(w: World, size: nat, i: nat, j: nat, fault: Fault)
    requires size >= 1 && Inv(w, size) && i < |w.actors| && j < |w.actors| && i != j && !fault.Fine?
    requires var a, b := w.actors[i], w.actors[j];
      && a.builds && a.pc.RowActivated? && a.version in w.rows && w.rows[a.version].state.Active?
      && b.pc.AliasFlipped? && b.version != a.version && b.version in w.rows && w.rows[b.version].state.Validated?
    ensures var u := Run(w, size, [Move(i, fault), Move(j, Fine), Move(i, Fine)]);
      var a, b := w.actors[i].version, w.actors[j].version;
      a in u.rows && u.rows[a].state.Failed? && b in u.rows && u.rows[b].state.Active?
  {
    hide Inv, Run, Step;
    var a, b := w.actors[i].version, w.actors[j].version;
    UnpromotedStep(w, size, i, fault);
    var w1 := Step(w, i, size, fault);
    ActivateExact(w1.rows, b);
    CommitStep(w1, size, j);
    var w2 := Step(w1, j, size, Fine);
    FailStep(w2, size, i);
    RunTriple(w, size, Move(i, fault), Move(j, Fine), Move(i, Fine));
  }

  lemma UnpromotedStep(w: World, size: nat, i: nat, fault: Fault)
    requires size >= 1 && i < |w.actors| && w.actors[i].builds && w.actors[i].pc.RowActivated? && !fault.Fine?
    ensures Step(w, i, size, fault) == w.(actors := w.actors[i := w.actors[i].(pc := Raising)])
  {
  }

  lemma FailStep(w: World, size: nat, i: nat)
    requires size >= 1 && i < |w.actors| && w.actors[i].pc.Raising? && w.actors[i].version in w.rows
    ensures var v := w.actors[i].version; Step(w, i, size, Fine).rows == w.rows[v := w.rows[v].(state := Failed)]
  {
  }
}
