/**
 The alias and the active row of src/fastrag/indexing.py are moved by separate calls. When they name
 the same collection, when they do not, and what an alias that was moved always names.
 */
module IndexAlias {
  import opened Common
  import opened IndexRegistry
  import opened IndexLifecycle

  /** The calls of a run that moved the alias or committed an activation, in order, by actor. */
  datatype Swing = Flip(actor: nat) | Commit(actor: nat)

  /** Does this move put the alias on the actor's collection? */
  predicate Flips(w: World, m: Move)
    requires m.actor < |w.actors|
  {
    w.actors[m.actor].pc.Staged? && (m.fault.Fine? || m.fault.After?)
  }

  function SwingOf(w: World, size: nat, m: Move): seq<Swing>
    requires size >= 1 && m.actor < |w.actors|
  {
    if Flips(w, m) then [Flip(m.actor)] else if Commits(w, size, m) then [Commit(m.actor)] else []
  }

  function Swings(w: World, size: nat, moves: seq<Move>): seq<Swing>
    requires size >= 1 && Schedules(w, moves)
    decreases |moves|
  {
    if moves == [] then []
    else SwingOf(w, size, moves[0]) + Swings(Step(w, moves[0].actor, size, moves[0].fault), size, moves[1..])
  }

  /** The actor that flipped last, and the one that committed last. */
  function LastFlip(swings: seq<Swing>): Option<nat> {
    if swings == [] then None
    else
      var later := LastFlip(swings[1..]);
      if later.None? && swings[0].Flip? then Some(swings[0].actor) else later
  }

  function LastCommit(swings: seq<Swing>): Option<nat> {
    if swings == [] then None
    else
      var later := LastCommit(swings[1..]);
      if later.None? && swings[0].Commit? then Some(swings[0].actor) else later
  }

  lemma LastOfCons(s: Swing, rest: seq<Swing>)
    ensures LastFlip([s] + rest) == if LastFlip(rest).None? && s.Flip? then Some(s.actor) else LastFlip(rest)
    ensures LastCommit([s] + rest) == if LastCommit(rest).None? && s.Commit? then Some(s.actor) else LastCommit(rest)
  {
    assert ([s] + rest)[1..] == rest;
  }

  lemma LastOfNone(rest: seq<Swing>)
    ensures [] + rest == rest && LastFlip([]) == None && LastCommit([]) == None
  {
  }

  /** What the first move adds to the two. */
  lemma LastOfMove(w: World, size: nat, m: Move, rest: seq<Swing>)
    requires size >= 1 && m.actor < |w.actors|
    ensures var all := SwingOf(w, size, m) + rest;
      && LastFlip(all) == (if LastFlip(rest).None? && Flips(w, m) then Some(m.actor) else LastFlip(rest))
      && LastCommit(all) == (if LastCommit(rest).None? && Commits(w, size, m) then Some(m.actor) else LastCommit(rest))
      && (forall s :: s in all <==> s in SwingOf(w, size, m) || s in rest)
  {
    hide LastFlip, LastCommit, Step;
    LastOfNone(rest);
    if SwingOf(w, size, m) != [] {
      LastOfCons(SwingOf(w, size, m)[0], rest);
    }
  }

  /** Every collection is named after its version, as the source names it. */
  ghost predicate Named(w: World) {
    && (forall a | a in w.actors :: a.collection == CollectionName(a.version))
    && (forall v | v in w.rows :: w.rows[v].collection == CollectionName(v))
  }

  /** One step as seen from outside the actor that makes it. */
  lemma StepSwings(w: World, size: nat, m: Move)
    requires size >= 1 && m.actor < |w.actors| && Inv(w, size)
    ensures var u := Step(w, m.actor, size, m.fault); var a := w.actors[m.actor];
      && u.alias == (if Flips(w, m) then Some(a.collection) else w.alias)
      && |u.actors| == |w.actors|
      && (forall i | 0 <= i < |w.actors| && i != m.actor :: u.actors[i] == w.actors[i])
      && u.actors[m.actor] == a.(pc := u.actors[m.actor].pc)
      && RowsChange(w.rows, u.rows, a, u.actors[m.actor].pc)
  {
    hide PointsOf, Batch, Upsert, Separate, Complete, OneActive;
    assert ActorOk(w.rows, w.store, w.actors[m.actor], size);
    StepFootprint(w, w.actors[m.actor], size, m.fault);
  }

  /** A row becomes active only by a commit of its version, and one that stays active is untouched. */
  lemma StepActive(w: World, size: nat, m: Move, v: string)
    requires size >= 1 && m.actor < |w.actors| && Inv(w, size)
    requires var u := Step(w, m.actor, size, m.fault); v in u.rows && u.rows[v].state.Active?
    ensures if Commits(w, size, m) then v == w.actors[m.actor].version
            else v in w.rows && Step(w, m.actor, size, m.fault).rows[v] == w.rows[v]
  {
    hide Inv, Step, Register;
    StepSwings(w, size, m);
    if Commits(w, size, m) {
      CommitRows(w, size, m);
    }
    ActivateExact(w.rows, w.actors[m.actor].version);
    RegisterRow(w, size, m, v);
  }

  lemma CommitRows(w: World, size: nat, m: Move)
    requires size >= 1 && m.actor < |w.actors| && Commits(w, size, m)
    ensures Activate(w.rows, w.actors[m.actor].version) == Some(Step(w, m.actor, size, m.fault).rows)
  {
  }

  lemma RegisterRow(w: World, size: nat, m: Move, v: string)
    requires m.actor < |w.actors|
    ensures var a := w.actors[m.actor]; var r := Register(w.rows, a.version, Row(a.collection, a.content, a.chunks, Building));
      v in r && r[v].state.Active? ==> v in w.rows && r[v] == w.rows[v]
  {
  }

  lemma StepNamed(w: World, size: nat, m: Move)
    requires size >= 1 && m.actor < |w.actors| && Inv(w, size) && Named(w)
    ensures Named(Step(w, m.actor, size, m.fault))
  {
    hide Inv, Step, CollectionName;
    StepSwings(w, size, m);
    var a, u := w.actors[m.actor], Step(w, m.actor, size, m.fault);
    assert a in w.actors;
    ActivateExact(w.rows, a.version);
    forall b | b in u.actors ensures b.collection == CollectionName(b.version) {
      var i :| 0 <= i < |u.actors| && u.actors[i] == b;
      assert w.actors[i] in w.actors;
    }
  }

  /******* The alias is the last flip, the active row the last commit *******/

  lemma {:induction false} AliasIsLastFlip(w: World, size: nat, moves: seq<Move>)
    requires size >= 1 && Schedules(w, moves) && Inv(w, size)
    ensures var u, f := Run(w, size, moves), LastFlip(Swings(w, size, moves));
      && (f.Some? ==> f.value < |w.actors|)
      && u.alias == (if f.None? then w.alias else Some(w.actors[f.value].collection))
    decreases |moves|
  {
    hide Inv, Step, SwingOf, LastFlip;
    if moves != [] {
      var m := moves[0];
      var u := Step(w, m.actor, size, m.fault);
      StepSwings(w, size, m);
      StepKeepsInv(w, m.actor, size, m.fault);
      AliasIsLastFlip(u, size, moves[1..]);
      LastOfMove(w, size, m, Swings(u, size, moves[1..]));
    } else {
      LastOfNone([]);
    }
  }

  lemma {:induction false} ActiveIsLastCommit(w: World, size: nat, moves: seq<Move>, v: string)
    requires size >= 1 && Schedules(w, moves) && Inv(w, size)
    requires var u := Run(w, size, moves); v in u.rows && u.rows[v].state.Active?
    ensures var u, c := Run(w, size, moves), LastCommit(Swings(w, size, moves));
      && (c.Some? ==> c.value < |w.actors| && w.actors[c.value].version == v)
      && (c.None? ==> v in w.rows && u.rows[v] == w.rows[v])
    decreases |moves|
  {
    hide Inv, Step, SwingOf, LastCommit, Commits;
    if moves != [] {
      var m := moves[0];
      var u := Step(w, m.actor, size, m.fault);
      StepSwings(w, size, m);
      StepKeepsInv(w, m.actor, size, m.fault);
      ActiveIsLastCommit(u, size, moves[1..], v);
      LastOfMove(w, size, m, Swings(u, size, moves[1..]));
      if LastCommit(Swings(u, size, moves[1..])).None? {
        StepActive(w, size, m, v);
      }
    } else {
      LastOfNone([]);
    }
  }

  /** An actor commits only after its own flip. */
  lemma {:induction false} CommitAfterFlip(w: World, size: nat, moves: seq<Move>, i: nat)
    requires size >= 1 && Schedules(w, moves) && Inv(w, size) && i < |w.actors| && !w.actors[i].pc.AliasFlipped?
    requires Commit(i) in Swings(w, size, moves)
    ensures Flip(i) in Swings(w, size, moves)
    decreases |moves|
  {
    hide Inv, LastFlip, LastCommit;
    var m := moves[0];
    var u := Step(w, m.actor, size, m.fault);
    LastOfMove(w, size, m, Swings(u, size, moves[1..]));
    if Flip(i) !in SwingOf(w, size, m) {
      NotFlipped(w, size, m, i);
      StepKeepsInv(w, m.actor, size, m.fault);
      SameActors(w, m, size);
      CommitAfterFlip(u, size, moves[1..], i);
    }
  }

  lemma NotFlipped(w: World, size: nat, m: Move, i: nat)
    requires size >= 1 && m.actor < |w.actors| && i < |w.actors| && !w.actors[i].pc.AliasFlipped?
    requires Flip(i) !in SwingOf(w, size, m)
    ensures Commit(i) !in SwingOf(w, size, m) && !Step(w, m.actor, size, m.fault).actors[i].pc.AliasFlipped?
  {
  }

  lemma {:induction false} LastFlipIn(swings: seq<Swing>, i: nat)
    ensures LastFlip(swings) == Some(i) ==> Flip(i) in swings
    ensures LastCommit(swings) == Some(i) ==> Commit(i) in swings
    ensures Flip(i) in swings ==> LastFlip(swings).Some?
    decreases |swings|
  {
    if swings != [] {
      LastFlipIn(swings[1..], i);
      assert swings == [swings[0]] + swings[1..];
    }
  }

  /** A builder that starts over on a version does not flip while its old row is still active. */
  lemma {:induction false} RebuildDoesNotFlip(w: World, size: nat, moves: seq<Move>, v: string, i: nat)
    requires size >= 1 && Schedules(w, moves) && Inv(w, size) && i < |w.actors|
    requires w.actors[i].builds && w.actors[i].version == v && (w.actors[i].pc.Start? || w.actors[i].pc.Stopped?)
    requires LastCommit(Swings(w, size, moves)).None?
    requires var u := Run(w, size, moves); v in u.rows && u.rows[v].state.Active?
    ensures Flip(i) !in Swings(w, size, moves)
    decreases |moves|
  {
    hide Inv, SwingOf, LastCommit, Step;
    if moves != [] {
      var m := moves[0];
      var u := Step(w, m.actor, size, m.fault);
      StepSwings(w, size, m);
      StepKeepsInv(w, m.actor, size, m.fault);
      LastOfMove(w, size, m, Swings(u, size, moves[1..]));
      ActiveIsLastCommit(u, size, moves[1..], v);
      StartedRow(w, size, m, i);
      RebuildDoesNotFlip(u, size, moves[1..], v, i);
    }
  }

  lemma StartedRow(w: World, size: nat, m: Move, i: nat)
    requires size >= 1 && m.actor < |w.actors| && i < |w.actors|
    requires w.actors[i].pc.Start? || w.actors[i].pc.Stopped?
    ensures Flip(i) !in SwingOf(w, size, m)
    ensures var u := Step(w, m.actor, size, m.fault); var v := w.actors[i].version;
      v in u.rows && u.rows[v].state.Active? ==> u.actors[i].pc.Start? || u.actors[i].pc.Stopped?
  {
  }

  /******* When they agree *******/

  /** The alias names the collection of every active row. */
  ghost predicate Aligned(w: World) {
    forall v | v in w.rows && w.rows[v].state.Active? :: w.alias == Some(w.rows[v].collection)
  }

  /** Over every run and every pattern of failures: with some row active, the alias names its collection
      exactly when the collection flipped to last is the one committed last, where before any flip or
      commit each is the one that was active at the start. */
  lemma AlignedByCollection(w: World, size: nat, moves: seq<Move>, v: string)
    requires size >= 1 && Schedules(w, moves) && Inv(w, size) && Named(w) && Aligned(w)
    requires var u := Run(w, size, moves); v in u.rows && u.rows[v].state.Active?
    ensures var swings := Swings(w, size, moves); var f, c := LastFlip(swings), LastCommit(swings);
      && (f.Some? ==> f.value < |w.actors|) && (c.Some? ==> c.value < |w.actors|)
      && var flipped := if f.Some? then Some(w.actors[f.value].collection) else w.alias;
      && var committed := if c.Some? then w.actors[c.value].collection else CollectionName(v);
      && (Run(w, size, moves).alias == Some(Run(w, size, moves).rows[v].collection) <==> flipped == Some(committed))
  {
    hide Inv, Swings, Run, LastFlip, LastCommit, CollectionName;
    AliasIsLastFlip(w, size, moves);
    ActiveIsLastCommit(w, size, moves, v);
    RunNamed(w, size, moves);
    var c := LastCommit(Swings(w, size, moves));
    if c.Some? {
      assert w.actors[c.value] in w.actors;
    }
  }

  lemma {:induction false} RunNamed(w: World, size: nat, moves: seq<Move>)
    requires size >= 1 && Schedules(w, moves) && Inv(w, size) && Named(w)
    ensures Named(Run(w, size, moves))
    decreases |moves|
  {
    hide Inv, Step, Named;
    if moves != [] {
      StepNamed(w, size, moves[0]);
      StepKeepsInv(w, moves[0].actor, size, moves[0].fault);
      SameActors(w, moves[0], size);
      RunNamed(Step(w, moves[0].actor, size, moves[0].fault), size, moves[1..]);
    }
  }

  /** No two actors share a collection, and none is there to activate what is active already. */
  ghost predicate Apart(w: World) {
    && (forall i, j | 0 <= i < j < |w.actors| :: w.actors[i].collection != w.actors[j].collection)
    && (forall a, v | a in w.actors && !a.builds && v in w.rows && w.rows[v].state.Active? ::
          a.collection != w.rows[v].collection)
  }

  /** The condition on the schedule: the actor that flipped last is the one that committed last. So no
      other actor's flip falls between that flip and its commit, and none comes after it. */
  predicate Clean(swings: seq<Swing>) { LastFlip(swings) == LastCommit(swings) }

  /** From a fresh start with alias and table in agreement, and some row active in the end: they agree
      in the end exactly when the schedule is clean. */
  lemma AliasExactly(w: World, size: nat, moves: seq<Move>, v: string)
    requires size >= 1 && Schedules(w, moves) && Initial(w) && Named(w) && Aligned(w) && Apart(w)
    requires var u := Run(w, size, moves); v in u.rows && u.rows[v].state.Active?
    ensures Run(w, size, moves).alias == Some(Run(w, size, moves).rows[v].collection) <==> Clean(Swings(w, size, moves))
  {
    hide Inv, Swings, Run, LastFlip, LastCommit, CollectionName, Separate;
    InitialInv(w, size);
    AlignedByCollection(w, size, moves, v);
    ActiveIsLastCommit(w, size, moves, v);
    var swings := Swings(w, size, moves);
    var f, c := LastFlip(swings), LastCommit(swings);
    if c.Some? {
      LastFlipIn(swings, c.value);
      assert w.actors[c.value] in w.actors;
      CommitAfterFlip(w, size, moves, c.value);
    } else if f.Some? {
      UncommittedFlip(w, size, moves, v, f.value);
    }
  }

  /** Without any commit, a flip leaves the collection that is still active. */
  lemma UncommittedFlip(w: World, size: nat, moves: seq<Move>, v: string, f: nat)
    requires size >= 1 && Schedules(w, moves) && Inv(w, size) && Initial(w) && Apart(w) && f < |w.actors|
    requires LastCommit(Swings(w, size, moves)).None? && LastFlip(Swings(w, size, moves)) == Some(f)
    requires var u := Run(w, size, moves); v in u.rows && u.rows[v].state.Active?
    ensures v in w.rows && w.actors[f].collection != w.rows[v].collection
  {
    hide Inv, Swings, Run, LastFlip, LastCommit;
    ActiveIsLastCommit(w, size, moves, v);
    LastFlipIn(Swings(w, size, moves), f);
    var a := w.actors[f];
    assert a in w.actors;
    if a.builds && a.version == v {
      RebuildDoesNotFlip(w, size, moves, v, f);
    }
  }

  /******* Schedules that are not clean *******/

  /** No failure is needed: of two builders about to flip, both flip, and then the one that flipped last
      commits first. The other's row ends up active under an alias that names the last flipper's. */
  lemma FaultFreeSplit(w: World, size: nat, i: nat, j: nat)
    requires size >= 1 && Inv(w, size) && i < |w.actors| && j < |w.actors| && i != j
    requires var a, b := w.actors[i], w.actors[j];
      && a.pc.Staged? && b.pc.Staged? && a.version != b.version && a.collection != b.collection
      && a.version in w.rows && w.rows[a.version].state.Validated? && w.rows[a.version].collection == a.collection
      && b.version in w.rows && w.rows[b.version].state.Validated?
    ensures var moves := [Move(i, Fine), Move(j, Fine), Move(j, Fine), Move(i, Fine)];
      var u := Run(w, size, moves); var a := w.actors[i];
      && a.version in u.rows && u.rows[a.version].state.Active? && u.rows[a.version].collection == a.collection
      && u.alias == Some(w.actors[j].collection) && !Aligned(u)
  {
    hide Inv, Run, Step, Aligned;
    var a, b := w.actors[i], w.actors[j];
    RunFour(w, size, Move(i, Fine), Move(j, Fine), Move(j, Fine), Move(i, Fine));
    FlipStep(w, size, i);
    var w1 := Step(w, i, size, Fine);
    FlipStep(w1, size, j);
    var w2 := Step(w1, j, size, Fine);
    ActivateExact(w.rows, b.version);
    CommitStep(w2, size, j);
    var w3 := Step(w2, j, size, Fine);
    ActivateExact(w3.rows, a.version);
    assert w3.rows[a.version].(state := Building) == w.rows[a.version].(state := Building);
    CommitStep(w3, size, i);
    var w4 := Step(w3, i, size, Fine);
    assert w4.rows[a.version].(state := Building) == w3.rows[a.version].(state := Building);
    NotAligned(w4, a.version);
  }

  lemma NotAligned(w: World, v: string)
    requires v in w.rows && w.rows[v].state.Active? && w.alias != Some(w.rows[v].collection)
    ensures !Aligned(w)
  {
  }

  lemma FlipStep(w: World, size: nat, i: nat)
    requires size >= 1 && i < |w.actors| && w.actors[i].pc.Staged?
    ensures var a := w.actors[i];
      Step(w, i, size, Fine) == World(w.rows, w.store, Some(a.collection), w.actors[i := a.(pc := AliasFlipped)])
  {
  }

  lemma CommitStep(w: World, size: nat, i: nat)
    requires size >= 1 && i < |w.actors| && w.actors[i].pc.AliasFlipped? && Activate(w.rows, w.actors[i].version).Some?
    ensures var a := w.actors[i];
      Step(w, i, size, Fine) ==
      World(Activate(w.rows, a.version).value, w.store, w.alias, w.actors[i := a.(pc := RowActivated)])
  {
  }

  lemma RunTriple(w: World, size: nat, a: Move, b: Move, c: Move)
    requires size >= 1 && a.actor < |w.actors| && b.actor < |w.actors| && c.actor < |w.actors|
    ensures Run(w, size, [a, b, c]) ==
      Step(Step(Step(w, a.actor, size, a.fault), b.actor, size, b.fault), c.actor, size, c.fault)
  {
    hide Step, Run;
    RunNext(w, size, a, [b, c]);
    var w1 := Step(w, a.actor, size, a.fault);
    RunNext(w1, size, b, [c]);
    var w2 := Step(w1, b.actor, size, b.fault);
    RunNext(w2, size, c, []);
    RunNone(Step(w2, c.actor, size, c.fault), size);
    assert [a, b, c] == [a] + [b, c] && [b, c] == [b] + [c] && [c] == [c] + [];
  }

  lemma RunFour(w: World, size: nat, a: Move, b: Move, c: Move, e: Move)
    requires size >= 1 && a.actor < |w.actors| && b.actor < |w.actors| && c.actor < |w.actors| && e.actor < |w.actors|
    ensures Run(w, size, [a, b, c, e]) ==
      Step(Step(Step(Step(w, a.actor, size, a.fault), b.actor, size, b.fault), c.actor, size, c.fault), e.actor, size, e.fault)
  {
    hide Step, Run;
    SameActors(w, a, size);
    RunNext(w, size, a, [b, c, e]);
    RunTriple(Step(w, a.actor, size, a.fault), size, b, c, e);
    assert [a, b, c, e] == [a] + [b, c, e];
  }

  lemma RunNext(w: World, size: nat, m: Move, rest: seq<Move>)
    requires size >= 1 && m.actor < |w.actors| && Schedules(w, rest)
    ensures |Step(w, m.actor, size, m.fault).actors| == |w.actors|
    ensures Schedules(w, [m] + rest) && Run(w, size, [m] + rest) == Run(Step(w, m.actor, size, m.fault), size, rest)
  {
    hide Step;
    SameActors(w, m, size);
    assert ([m] + rest)[1..] == rest;
  }

  lemma RunNone(w: World, size: nat)
    requires size >= 1
    ensures Run(w, size, []) == w
  {
  }

  /** A failed activation after a flip: the alias names the new collection while another version's row
      is still the active one. */
  lemma AliasRunsAhead(w: World, i: nat, size: nat, v: string, fault: Fault)
    requires i < |w.actors| && size >= 1 && Inv(w, size)
    requires w.actors[i].builds && w.actors[i].pc.Staged?
    requires v in w.rows && w.rows[v].state.Active? && v != w.actors[i].version && !fault.Fine?
    ensures var u := Step(Step(w, i, size, Fine), i, size, fault);
      u.rows == w.rows && u.rows[v].state.Active? && u.alias == Some(w.actors[i].collection)
      && u.alias != Some(u.rows[v].collection)
  {
  }

  /******* What a moved alias names *******/

  /** A builder that may still write its collection. */
  predicate Early(pc: Pc) { pc.Start? || pc.Registered? || pc.Uploading? }

  /** The collection is exactly the point map of some row's chunks, and no builder will touch it. */
  ghost predicate Solid(w: World, c: string) {
    && (exists v :: v in w.rows && w.rows[v].collection == c && Complete(w.store, w.rows[v]))
    && (forall a | a in w.actors && a.builds && a.collection == c :: !Early(a.pc))
  }

  /** Whoever is about to flip, or will be once validated, flips to a solid collection. */
  ghost predicate Poised(w: World) {
    forall a | a in w.actors && (a.pc.Checked? || a.pc.MarkedValidated? || a.pc.Staged?) :: Solid(w, a.collection)
  }

  lemma StepSolid(w: World, size: nat, m: Move, c: string)
    requires size >= 1 && m.actor < |w.actors| && Inv(w, size) && Named(w) && Solid(w, c)
    ensures Solid(Step(w, m.actor, size, m.fault), c)
  {
    hide Inv, Step, PointsOf, DistinctIds, CollectionName;
    var a, u := w.actors[m.actor], Step(w, m.actor, size, m.fault);
    assert a in w.actors;
    StepSwings(w, size, m);
    StepLeavesStore(w, size, m, c);
    ActivateExact(w.rows, a.version);
    var v :| v in w.rows && w.rows[v].collection == c && Complete(w.store, w.rows[v]);
    assert u.rows[v].collection == c && u.rows[v].chunks == w.rows[v].chunks;
    assert Complete(u.store, u.rows[v]);
    forall b | b in u.actors && b.builds && b.collection == c ensures !Early(b.pc) {
      var i :| 0 <= i < |u.actors| && u.actors[i] == b;
      assert w.actors[i] in w.actors;
    }
  }

  lemma StepLeavesStore(w: World, size: nat, m: Move, c: string)
    requires size >= 1 && m.actor < |w.actors| && Inv(w, size)
    requires forall a | a in w.actors && a.builds && a.collection == c :: !Early(a.pc)
    ensures var u := Step(w, m.actor, size, m.fault);
      && (c in w.store <==> c in u.store) && (c in w.store ==> u.store[c] == w.store[c])
      && (!Early(w.actors[m.actor].pc) ==> !Early(u.actors[m.actor].pc))
  {
    hide PointsOf, Batch, Upsert, Separate, Complete, OneActive;
    var a := w.actors[m.actor];
    assert a in w.actors && ActorOk(w.rows, w.store, a, size);
    StepStore(w, a, size, m.fault);
  }

  lemma StepPoised(w: World, size: nat, m: Move)
    requires size >= 1 && m.actor < |w.actors| && Inv(w, size) && Named(w) && Poised(w)
    ensures Poised(Step(w, m.actor, size, m.fault))
  {
    hide Inv, Step, Solid;
    var a, u := w.actors[m.actor], Step(w, m.actor, size, m.fault);
    StepSwings(w, size, m);
    forall b | b in u.actors && (b.pc.Checked? || b.pc.MarkedValidated? || b.pc.Staged?) ensures Solid(u, b.collection) {
      var i :| 0 <= i < |u.actors| && u.actors[i] == b;
      var before := w.actors[i];
      assert before in w.actors;
      if i == m.actor && b.pc.Checked? {
        CheckedSolid(w, size, m);
      } else {
        if i == m.actor {
          PcBefore(w, size, m);
        }
        StepSolid(w, size, m, before.collection);
      }
    }
  }

  lemma PcBefore(w: World, size: nat, m: Move)
    requires size >= 1 && m.actor < |w.actors|
    requires var pc := Step(w, m.actor, size, m.fault).actors[m.actor].pc; pc.MarkedValidated? || pc.Staged?
    ensures var pc := w.actors[m.actor].pc; pc.Checked? || pc.MarkedValidated? || pc.Staged?
  {
  }

  /** A collection that passed validation is solid. */
  lemma CheckedSolid(w: World, size: nat, m: Move)
    requires size >= 1 && m.actor < |w.actors| && Inv(w, size)
    requires Step(w, m.actor, size, m.fault).actors[m.actor].pc.Checked?
    ensures var u := Step(w, m.actor, size, m.fault); Solid(u, w.actors[m.actor].collection)
  {
    hide Step, PointsOf, DistinctIds, Complete;
    var a, u := w.actors[m.actor], Step(w, m.actor, size, m.fault);
    StepKeepsInv(w, m.actor, size, m.fault);
    StepSwings(w, size, m);
    var b := u.actors[m.actor];
    assert ActorOk(u.rows, u.store, b, size);
    CheckedComplete(u, b, size);
    assert u.rows[b.version].collection == a.collection;
    forall d | d in u.actors && d.builds && d.collection == a.collection ensures !Early(d.pc) {
      var i :| 0 <= i < |u.actors| && u.actors[i] == d;
      OneBuilder(u, i, m.actor);
    }
  }

  lemma OneBuilder(u: World, i: nat, k: nat)
    requires Separate(u) && i < |u.actors| && k < |u.actors| && u.actors[i].builds && u.actors[k].builds
    requires u.actors[i].collection == u.actors[k].collection
    ensures i == k
  {
  }

  lemma CheckedComplete(u: World, b: Actor, size: nat)
    requires ActorOk(u.rows, u.store, b, size) && b.pc.Checked?
    ensures b.version in u.rows && u.rows[b.version].collection == b.collection && Complete(u.store, u.rows[b.version])
    ensures b.builds
  {
  }

  lemma {:induction false} RunSolid(w: World, size: nat, moves: seq<Move>, c: string)
    requires size >= 1 && Schedules(w, moves) && Inv(w, size) && Named(w) && Solid(w, c)
    ensures Solid(Run(w, size, moves), c)
    decreases |moves|
  {
    hide Inv, Step, Named, Solid;
    if moves != [] {
      var m := moves[0];
      StepSolid(w, size, m, c);
      StepNamed(w, size, m);
      StepKeepsInv(w, m.actor, size, m.fault);
      SameActors(w, m, size);
      RunSolid(Step(w, m.actor, size, m.fault), size, moves[1..], c);
    }
  }

  lemma {:induction false} FlippedSolid(w: World, size: nat, moves: seq<Move>)
    requires size >= 1 && Schedules(w, moves) && Inv(w, size) && Named(w) && Poised(w)
    requires LastFlip(Swings(w, size, moves)).Some?
    ensures var u := Run(w, size, moves); u.alias.Some? && Solid(u, u.alias.value)
    decreases |moves|
  {
    hide Inv, Step, Named, Solid, SwingOf, LastFlip;
    if moves == [] {
      LastOfNone([]);
    } else {
      var m := moves[0];
      var u := Step(w, m.actor, size, m.fault);
      StepSwings(w, size, m);
      StepKeepsInv(w, m.actor, size, m.fault);
      LastOfMove(w, size, m, Swings(u, size, moves[1..]));
      StepNamed(w, size, m);
      StepPoised(w, size, m);
      if LastFlip(Swings(u, size, moves[1..])).Some? {
        FlippedSolid(u, size, moves[1..]);
      } else {
        assert w.actors[m.actor] in w.actors;
        StepSolid(w, size, m, w.actors[m.actor].collection);
        RunSolid(u, size, moves[1..], w.actors[m.actor].collection);
        AliasIsLastFlip(u, size, moves[1..]);
      }
    }
  }

  /** Over every run and every pattern of failures, an alias that was moved names a collection that is
      exactly the point map of some row's chunks, provided a separate activation starts from a solid
      collection: it flips before the registry has looked at the row. */
  lemma MovedAliasIsComplete(w: World, size: nat, moves: seq<Move>)
    requires size >= 1 && Schedules(w, moves) && Initial(w) && Named(w)
    requires forall a | a in w.actors && !a.builds :: Solid(w, a.collection)
    requires LastFlip(Swings(w, size, moves)).Some?
    ensures var u := Run(w, size, moves);
      exists v :: v in u.rows && u.alias == Some(u.rows[v].collection) && Complete(u.store, u.rows[v])
  {
    hide Run, Swings, LastFlip, Inv, Named, Separate, OneActive, Complete;
    InitialInv(w, size);
    FlippedSolid(w, size, moves);
  }
}
