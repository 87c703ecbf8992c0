/**
 The builder of src/fastrag/indexing.py as it runs: ordered calls on a vector store and the manifest
 table, batches uploaded in a loop, each batch retried in a loop, and an exception handler. The
 result is proved to be one actor's path through the transition system of IndexLifecycle.dfy, so
 every theorem about interleavings holds of this code.
 */
module IndexBuilder {
  import opened Common
  import opened IndexRegistry
  import opened IndexLifecycle

  lemma {:induction false} RunSnoc(w: World, size: nat, moves: seq<Move>, m: Move)
    requires size >= 1 && Schedules(w, moves) && m.actor < |w.actors|
    ensures Schedules(w, moves + [m]) && |Run(w, size, moves).actors| == |w.actors|
    ensures Run(w, size, moves + [m]) == Step(Run(w, size, moves), m.actor, size, m.fault)
    decreases |moves|
  {
    hide Step;
    if moves == [] {
      assert [m][1..] == [];
    } else {
      SameActors(w, moves[0], size);
      RunSnoc(Step(w, moves[0].actor, size, moves[0].fault), size, moves[1..], m);
      assert (moves + [m])[1..] == moves[1..] + [m];
    }
  }

  /** What a lone builder knows about its row and the alias at each point after validation. */
  ghost predicate SoloOk(w: World) {
    && |w.actors| == 1 && w.actors[0].builds
    && var a := w.actors[0];
       match a.pc
       case MarkedValidated => StateIs(w.rows, a, Validated)
       case Staged => a.activates && StateIs(w.rows, a, Validated)
       case AliasFlipped => a.activates && StateIs(w.rows, a, Validated) && w.alias == Some(a.collection)
       case RowActivated => a.activates && StateIs(w.rows, a, Active) && w.alias == Some(a.collection)
       case Finished =>
         if a.activates then StateIs(w.rows, a, Active) && w.alias == Some(a.collection)
         else StateIs(w.rows, a, Validated)
       case _ => true
  }

  ghost predicate StateIs(rows: Rows, a: Actor, state: RowState) {
    a.version in rows && rows[a.version] == Row(a.collection, a.content, a.chunks, state)
  }

  lemma SoloStep(w: World, size: nat, fault: Fault)
    requires size >= 1 && SoloOk(w) && ActorOk(w.rows, w.store, w.actors[0], size)
    ensures SoloOk(Step(w, 0, size, fault))
  {
    ActivateExact(w.rows, w.actors[0].version);
  }

  /** A lone build that returns normally has its row active, with the alias on its collection, or, when
      activation was deferred, validated. */
  lemma {:induction false} SoloBuild(w: World, size: nat, moves: seq<Move>)
    requires size >= 1 && Schedules(w, moves) && Inv(w, size) && SoloOk(w)
    ensures SoloOk(Run(w, size, moves)) && Inv(Run(w, size, moves), size)
    decreases |moves|
  {
    hide Step, StateIs, Separate, OneActive, ActorOk;
    if moves != [] {
      SameActors(w, moves[0], size);
      SoloStep(w, size, moves[0].fault);
      StepKeepsInv(w, 0, size, moves[0].fault);
      SoloBuild(Step(w, 0, size, moves[0].fault), size, moves[1..]);
    }
  }

  class Qdrant {
    var collections: map<string, Points>
    var alias: Option<string>

    constructor (collections: map<string, Points>, alias: Option<string>)
      ensures this.collections == collections && this.alias == alias
    {
      this.collections := collections;
      this.alias := alias;
    }

    /** Drop the collection if it exists, create it empty, then index its payload fields. */
    method CreateCollection(collection: string, fault: Fault) returns (raised: bool)
      modifies this`collections
      ensures raised == !fault.Fine?
      ensures collections ==
        match fault
        case Before => old(collections)
        case Midway => old(collections) - {collection}
        case _ => old(collections)[collection := map[]]
    {
      if fault.Before? {
        return true;
      }
      if collection in collections {
        collections := collections - {collection};
      } else {
        assert collections - {collection} == collections;
      }
      if fault.Midway? {
        return true;
      }
      collections := collections[collection := map[]];
      return fault.After?;
    }

    /** One upsert call; it may raise without or after applying the batch. */
    method Upsert(collection: string, batch: seq<Chunk>, fault: Fault) returns (raised: bool)
      modifies this`collections
      ensures raised == !(fault.Fine? && collection in old(collections))
      ensures collections ==
        if fault.Fine? || fault.After? then IndexLifecycle.Upsert(old(collections), collection, batch) else old(collections)
    {
      raised := true;
      if (fault.Fine? || fault.After?) && collection in collections {
        collections := collections[collection := collections[collection] + PointsOf(batch)];
        raised := fault.After?;
      }
    }
  }

  class Builder {
    const registry: PostgresIndexRegistry
    const client: Qdrant
    const batchSize: nat

    constructor (registry: PostgresIndexRegistry, client: Qdrant, batchSize: nat)
      ensures this.registry == registry && this.client == client && this.batchSize == batchSize
    {
      this.registry := registry;
      this.client := client;
      this.batchSize := batchSize;
    }

    /** The shared state with this builder, alone, at a given point of its program. */
    ghost function Snapshot(a: Actor, pc: Pc): World
      reads registry, client
    {
      World(registry.rows, client.collections, client.alias, [a.(pc := pc)])
    }

    /** The builder has come from `w0` to `pc` by the moves so far. */
    ghost predicate Reached(w0: World, moves: seq<Move>, a: Actor, pc: Pc)
      reads registry, client
    {
      && batchSize >= 1 && |w0.actors| == 1 && Schedules(w0, moves)
      && Run(w0, batchSize, moves) == Snapshot(a, pc)
    }

    /** Upload one batch, tolerating up to three failed calls. */
    method UpsertWithRetry(ghost w0: World, ghost moves: seq<Move>, a: Actor, offset: nat, faults: nat -> Fault, t: nat)
      returns (raised: bool, ghost moves': seq<Move>, t': nat)
      requires Reached(w0, moves, a, Uploading(offset, 0)) && a.builds && offset < |a.chunks|
      modifies client`collections
      ensures Reached(w0, moves', a, if raised then Raising else Uploading(offset + batchSize, 0))
    {
      hide IndexLifecycle.Upsert, Run;
      moves', t' := moves, t;
      if faults(t).Midway? {
        RunSnoc(w0, batchSize, moves', Move(0, Midway));
        return true, moves' + [Move(0, Midway)], t + 1;
      }
      var batch := Batch(a.chunks, offset, batchSize);
      var attempt := 0;
      while attempt < ATTEMPTS
        invariant 0 <= attempt <= ATTEMPTS
        invariant attempt < ATTEMPTS ==> Reached(w0, moves', a, Uploading(offset, attempt))
        invariant attempt == 0 ==> !faults(t').Midway?
        invariant attempt == ATTEMPTS ==> Reached(w0, moves', a, Raising)
      {
        var fault := faults(t');
        RunSnoc(w0, batchSize, moves', Move(0, fault));
        var failed := client.Upsert(a.collection, batch, fault);
        moves', t' := moves' + [Move(0, fault)], t' + 1;
        if !failed {
          return false, moves', t';
        }
        attempt := attempt + 1;
      }
      return true, moves', t';
    }

    method Upload(ghost w0: World, ghost moves: seq<Move>, a: Actor, faults: nat -> Fault, t: nat)
      returns (raised: bool, ghost moves': seq<Move>, t': nat)
      requires Reached(w0, moves, a, Uploading(0, 0)) && a.builds
      modifies client`collections
      ensures Reached(w0, moves', a, if raised then Raising else Uploaded)
    {
      hide Run;
      moves', t' := moves, t;
      var offset := 0;
      while offset < |a.chunks|
        invariant Reached(w0, moves', a, Uploading(offset, 0))
      {
        raised, moves', t' := UpsertWithRetry(w0, moves', a, offset, faults, t');
        if raised {
          return;
        }
        offset := offset + batchSize;
      }
      RunSnoc(w0, batchSize, moves', Move(0, Fine));
      return false, moves' + [Move(0, Fine)], t';
    }

    /** The body of the try block: everything after the row is registered. */
    method TryBuild(ghost w0: World, ghost moves: seq<Move>, a: Actor, faults: nat -> Fault, t: nat)
      returns (raised: bool, ghost moves': seq<Move>, t': nat)
      requires Reached(w0, moves, a, Registered) && a.builds
      modifies registry, client
      ensures Reached(w0, moves', a, if raised then Raising else Finished)
    {
      hide Run, PointsOf, RetireActive;
      RunSnoc(w0, batchSize, moves, Move(0, faults(t)));
      raised := client.CreateCollection(a.collection, faults(t));
      moves', t' := moves + [Move(0, faults(t))], t + 1;
      if raised { return; }

      raised, moves', t' := Upload(w0, moves', a, faults, t');
      if raised { return; }

      RunSnoc(w0, batchSize, moves', Move(0, faults(t')));
      raised := !(faults(t').Fine? && a.collection in client.collections && |client.collections[a.collection]| == |a.chunks|);
      moves', t' := moves' + [Move(0, faults(t'))], t' + 1;
      if raised { return; }

      raised, moves', t' := MarkValidated(w0, moves', a, faults, t');
      if raised || !a.activates { return; }
      raised, moves', t' := Activate(w0, moves', a, faults, t');
    }

    /** Mark the row validated, then stage and store the centroid. */
    method MarkValidated(ghost w0: World, ghost moves: seq<Move>, a: Actor, faults: nat -> Fault, t: nat)
      returns (raised: bool, ghost moves': seq<Move>, t': nat)
      requires Reached(w0, moves, a, Checked) && a.builds
      modifies registry
      ensures Reached(w0, moves', a, if raised then Raising else if a.activates then Staged else Finished)
    {
      hide Run;
      moves', t' := moves, t;
      RunSnoc(w0, batchSize, moves', Move(0, faults(t')));
      raised := true;
      if faults(t').Fine? {
        var ok := registry.SetStateSync(a.version, Validated);
        raised := !ok;
      }
      moves', t' := moves' + [Move(0, faults(t'))], t' + 1;
      if raised { return; }

      RunSnoc(w0, batchSize, moves', Move(0, faults(t')));
      raised := !faults(t').Fine? || a.version !in registry.rows;
      moves', t' := moves' + [Move(0, faults(t'))], t' + 1;
    }

    /** Flip the alias, activate the row, promote the centroid, in that order. */
    method Activate(ghost w0: World, ghost moves: seq<Move>, a: Actor, faults: nat -> Fault, t: nat)
      returns (raised: bool, ghost moves': seq<Move>, t': nat)
      requires Reached(w0, moves, a, Staged) && a.builds
      modifies registry, client
      ensures Reached(w0, moves', a, if raised then Raising else Finished)
    {
      hide Run, RetireActive;
      moves', t' := moves, t;
      RunSnoc(w0, batchSize, moves', Move(0, faults(t')));
      raised := !faults(t').Fine?;
      if faults(t').Fine? || faults(t').After? {
        client.alias := Some(a.collection);
      }
      moves', t' := moves' + [Move(0, faults(t'))], t' + 1;
      if raised { return; }

      RunSnoc(w0, batchSize, moves', Move(0, faults(t')));
      raised := true;
      if faults(t').Fine? {
        var ok := registry.ActivateSync(a.version);
        raised := !ok;
      }
      moves', t' := moves' + [Move(0, faults(t'))], t' + 1;
      if raised { return; }

      RunSnoc(w0, batchSize, moves', Move(0, faults(t')));
      raised := !faults(t').Fine?;
      moves', t' := moves' + [Move(0, faults(t'))], t' + 1;
    }

    /** A whole build. It returns normally exactly when it ends at Finished; on an exception it has
        tried to mark its row failed. Its effect is a run of the one-builder transition system. */
    method BuildFromChunks(version: string, content: string, chunks: seq<Chunk>, activate: bool, faults: nat -> Fault)
      returns (ok: bool, ghost moves: seq<Move>)
      requires batchSize >= 1
      modifies registry, client
      ensures var a := Actor(true, version, CollectionName(version), content, chunks, activate, Start);
        var w0 := World(old(registry.rows), old(client.collections), old(client.alias), [a]);
        && Schedules(w0, moves)
        && Run(w0, batchSize, moves) == Snapshot(a, if ok then Finished else Stopped)
    {
      hide Run;
      var collection := CollectionName(version);
      var a := Actor(true, version, collection, content, chunks, activate, Start);
      ghost var w0 := World(registry.rows, client.collections, client.alias, [a]);
      moves := [];
      StartRun(w0);
      RunSnoc(w0, batchSize, moves, Move(0, faults(0)));
      moves := [Move(0, faults(0))];
      assert [] + moves == moves;
      if chunks == [] || !faults(0).Fine? {
        return false, moves;
      }
      registry.RegisterSync(version, Row(collection, content, chunks, Building));
      var raised, t;
      raised, moves, t := TryBuild(w0, moves, a, faults, 1);
      if raised {
        RunSnoc(w0, batchSize, moves, Move(0, faults(t)));
        if faults(t).Fine? {
          var _ := registry.SetStateSync(version, Failed);
        }
        moves := moves + [Move(0, faults(t))];
        return false, moves;
      }
      return true, moves;
    }

    lemma StartRun(w0: World)
      requires batchSize >= 1
      ensures Run(w0, batchSize, []) == w0
    {
    }
  }
}
