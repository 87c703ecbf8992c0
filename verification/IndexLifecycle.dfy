/**
 The shadow-index protocol of src/fastrag/indexing.py as a transition system: any number of builders
 and activations interleave over one manifest table, one vector store and one alias, every external
 call may fail before or after taking effect, and a builder may stop for good at any point.
 */
module IndexLifecycle {
  import opened Common
  import opened IndexRegistry

  /******* Collections *******/

  type Points = map<string, string>

  /** Upserting chunks in order: the last chunk with an id wins. */
  function PointsOf(chunks: seq<Chunk>): Points {
    if chunks == [] then map[]
    else PointsOf(chunks[..|chunks| - 1])[chunks[|chunks| - 1].id := chunks[|chunks| - 1].payload]
  }

  predicate DistinctIds(chunks: seq<Chunk>) {
    forall i, j | 0 <= i < j < |chunks| :: chunks[i].id != chunks[j].id
  }

  lemma {:induction false} PointsAppend(a: seq<Chunk>, b: seq<Chunk>)
    ensures PointsOf(a + b) == PointsOf(a) + PointsOf(b)
    decreases |b|
  {
    hide PointsOf;
    if b == [] {
      assert a + b == a;
      PointsNone();
    } else {
      var n := |b| - 1;
      PointsAppend(a, b[..n]);
      assert a + b == (a + b[..n]) + [b[n]] && b == b[..n] + [b[n]];
      PointsSnoc(a + b[..n], b[n]);
      PointsSnoc(b[..n], b[n]);
    }
  }

  lemma PointsNone()
    ensures PointsOf([]) == map[]
  {
  }

  lemma PointsSnoc(a: seq<Chunk>, c: Chunk)
    ensures PointsOf(a + [c]) == PointsOf(a)[c.id := c.payload]
  {
    assert (a + [c])[..|a|] == a;
  }

  predicate HasId(chunks: seq<Chunk>, id: string) {
    exists i | 0 <= i < |chunks| :: chunks[i].id == id
  }

  lemma {:induction false} PointsHasIds(chunks: seq<Chunk>, id: string)
    ensures id in PointsOf(chunks) <==> HasId(chunks, id)
    decreases |chunks|
  {
    if chunks != [] {
      var n := |chunks| - 1;
      PointsHasIds(chunks[..n], id);
      if HasId(chunks, id) && chunks[n].id != id {
        var i :| 0 <= i < |chunks| && chunks[i].id == id;
        assert chunks[..n][i].id == id;
      }
    }
  }

  /** The exact count the code validates against holds exactly when no two chunks share an id. */
  lemma {:induction false} CountMeansDistinct(chunks: seq<Chunk>)
    ensures |PointsOf(chunks)| <= |chunks|
    ensures |PointsOf(chunks)| == |chunks| <==> DistinctIds(chunks)
    decreases |chunks|
  {
    if chunks != [] {
      var n := |chunks| - 1;
      var init, last := chunks[..n], chunks[n];
      CountMeansDistinct(init);
      PointsHasIds(init, last.id);
      var m := PointsOf(init);
      assert PointsOf(chunks) == m[last.id := last.payload];
      assert m[last.id := last.payload].Keys == m.Keys + {last.id};
      DistinctSnoc(chunks);
    }
  }

  lemma DistinctSnoc(chunks: seq<Chunk>)
    requires chunks != []
    ensures var n := |chunks| - 1;
      DistinctIds(chunks) <==> DistinctIds(chunks[..n]) && !HasId(chunks[..n], chunks[n].id)
  {
    var n := |chunks| - 1;
    var init := chunks[..n];
    assert forall i | 0 <= i < n :: init[i] == chunks[i];
    if DistinctIds(init) && !HasId(init, chunks[n].id) {
      forall i, j | 0 <= i < j < |chunks| ensures chunks[i].id != chunks[j].id {
        assert init[i].id != chunks[n].id;
      }
    }
  }

  /******* Builders *******/

  const ATTEMPTS := 4

  datatype Pc =
    | Start | Registered | Uploading(offset: nat, attempt: nat) | Uploaded | Checked
    | MarkedValidated | Staged | AliasFlipped | RowActivated | Raising | Finished | Stopped

  /** A build, or the separate activation of an already validated version. */
  datatype Actor = Actor(builds: bool, version: string, collection: string, content: string,
                         chunks: seq<Chunk>, activates: bool, pc: Pc)

  datatype World = World(rows: Rows, store: map<string, Points>, alias: Option<string>, actors: seq<Actor>)

  /** How an external call fares: it works, or it raises having done nothing, part, or all of it. */
  datatype Fault = Fine | Before | Midway | After

  function Batch(chunks: seq<Chunk>, offset: nat, size: nat): seq<Chunk>
    requires offset <= |chunks|
  {
    chunks[offset..Min(offset + size, |chunks|)]
  }

  function Upsert(store: map<string, Points>, collection: string, batch: seq<Chunk>): map<string, Points> {
    if collection in store then store[collection := store[collection] + PointsOf(batch)] else store
  }

  /** The effect of one actor's next call on the shared state and on its own program counter. */
  datatype Next = Next(rows: Rows, store: map<string, Points>, alias: Option<string>, pc: Pc)

  function Advance(w: World, a: Actor, size: nat, fault: Fault): Next
    requires size >= 1
  {
    var same := Next(w.rows, w.store, w.alias, a.pc);
    var raise := same.(pc := if a.builds then Raising else Stopped);
    match a.pc
    case Start =>
      if !fault.Fine? || a.chunks == [] then same.(pc := Stopped)
      else Next(Register(w.rows, a.version, Row(a.collection, a.content, a.chunks, Building)), w.store, w.alias, Registered)
    case Registered =>
      (match fault
       case Fine => same.(store := w.store[a.collection := map[]], pc := Uploading(0, 0))
       case Before => raise
       case Midway => raise.(store := w.store - {a.collection})
       case After => raise.(store := w.store[a.collection := map[]]))
    case Uploading(offset, attempt) =>
      if offset >= |a.chunks| then same.(pc := Uploaded)
      else if fault.Midway? && attempt == 0 then raise
      else
        var applied := if fault.Fine? || fault.After?
          then Upsert(w.store, a.collection, Batch(a.chunks, offset, size)) else w.store;
        if fault.Fine? && a.collection in w.store then same.(store := applied, pc := Uploading(offset + size, 0))
        else if attempt >= ATTEMPTS - 1 then raise.(store := applied)
        else same.(store := applied, pc := Uploading(offset, attempt + 1))
    case Uploaded =>
      if fault.Fine? && a.collection in w.store && |w.store[a.collection]| == |a.chunks| then same.(pc := Checked)
      else raise
    case Checked =>
      if !fault.Fine? || SetState(w.rows, a.version, Validated).None? then raise
      else same.(rows := SetState(w.rows, a.version, Validated).value, pc := MarkedValidated)
    case MarkedValidated =>
      if !fault.Fine? || a.version !in w.rows then raise
      else same.(pc := if a.activates then Staged else Finished)
    case Staged =>
      if fault.Fine? then same.(alias := Some(a.collection), pc := AliasFlipped)
      else if fault.After? then raise.(alias := Some(a.collection))
      else raise
    case AliasFlipped =>
      if !fault.Fine? || Activate(w.rows, a.version).None? then raise
      else same.(rows := Activate(w.rows, a.version).value, pc := RowActivated)
    case RowActivated => if fault.Fine? then same.(pc := Finished) else raise
    case Raising =>
      if fault.Fine? && SetState(w.rows, a.version, Failed).Some?
      then same.(rows := SetState(w.rows, a.version, Failed).value, pc := Stopped)
      else same.(pc := Stopped)
    case Finished => same
    case Stopped => same
  }

  function Step(w: World, i: nat, size: nat, fault: Fault): World
    requires i < |w.actors| && size >= 1
  {
    var n := Advance(w, w.actors[i], size, fault);
    World(n.rows, n.store, n.alias, w.actors[i := w.actors[i].(pc := n.pc)])
  }

  /******* The invariant *******/

  predicate Servable(s: RowState) { s.Validated? || s.Active? }

  /** A row whose collection holds exactly its chunks, one point per chunk. */
  ghost predicate Complete(store: map<string, Points>, row: Row) {
    row.collection in store && store[row.collection] == PointsOf(row.chunks) && DistinctIds(row.chunks)
  }

  /** Builders use versions and collection names of their own. */
  ghost predicate Separate(w: World) {
    && (forall i, j | 0 <= i < j < |w.actors| && w.actors[i].builds && w.actors[j].builds ::
          w.actors[i].version != w.actors[j].version && w.actors[i].collection != w.actors[j].collection)
    && (forall i, v | 0 <= i < |w.actors| && w.actors[i].builds && v in w.rows && v != w.actors[i].version ::
          w.rows[v].collection != w.actors[i].collection)
  }

  predicate Busy(pc: Pc) { pc.Registered? || pc.Uploading? || pc.Uploaded? || pc.Checked? }

  ghost predicate Uploads(store: map<string, Points>, a: Actor, size: nat) {
    match a.pc
    case Uploading(offset, _) =>
      && a.collection in store
      && (|| store[a.collection] == PointsOf(a.chunks[..Min(offset, |a.chunks|)])
          || store[a.collection] == PointsOf(a.chunks[..Min(offset + size, |a.chunks|)]))
    case Uploaded => a.collection in store && store[a.collection] == PointsOf(a.chunks)
    case Checked =>
      a.collection in store && store[a.collection] == PointsOf(a.chunks) && DistinctIds(a.chunks)
    case _ => true
  }

  /** A builder at work owns a row in state building; its collection holds the batches so far. */
  ghost predicate ActorOk(rows: Rows, store: map<string, Points>, a: Actor, size: nat) {
    && (a.pc.Start? || a.pc.Raising? ==> a.builds)
    && (Busy(a.pc) ==> a.builds && a.version in rows && rows[a.version] == Row(a.collection, a.content, a.chunks, Building))
    && Uploads(store, a, size)
  }

  ghost predicate Inv(w: World, size: nat) {
    && OneActive(w.rows)
    && (forall v | v in w.rows && Servable(w.rows[v].state) :: Complete(w.store, w.rows[v]))
    && Separate(w)
    && (forall i | 0 <= i < |w.actors| :: ActorOk(w.rows, w.store, w.actors[i], size))
  }

  /** How one step may change the table: not at all, one row of its own version, or an activation. */
  ghost predicate RowsChange(before: Rows, after: Rows, a: Actor, pc: Pc) {
    || after == before
    || (a.builds && a.pc.Start? && pc.Registered? && after == Register(before, a.version, Row(a.collection, a.content, a.chunks, Building)))
    || (a.pc.Checked? && pc.MarkedValidated? && SetState(before, a.version, Validated) == Some(after))
    || (a.builds && a.pc.Raising? && SetState(before, a.version, Failed) == Some(after))
    || (a.pc.AliasFlipped? && pc.RowActivated? && Activate(before, a.version) == Some(after))
  }

  /** A step touches no collection but its own, and that one only while its row is being built. */
  lemma StepStore(w: World, a: Actor, size: nat, fault: Fault)
    requires size >= 1
    ensures var n := Advance(w, a, size, fault);
      && (forall c | c != a.collection :: c in n.store <==> c in w.store)
      && (forall c | c != a.collection && c in w.store :: n.store[c] == w.store[c])
      && (n.store != w.store ==> a.pc.Registered? || a.pc.Uploading?)
  {
    hide PointsOf, Register, SetState, Activate, Batch;
  }

  lemma StepFootprint(w: World, a: Actor, size: nat, fault: Fault)
    requires size >= 1 && ActorOk(w.rows, w.store, a, size)
    ensures var n := Advance(w, a, size, fault);
      && RowsChange(w.rows, n.rows, a, n.pc)
      && (forall c | c != a.collection :: c in n.store <==> c in w.store)
      && (forall c | c != a.collection && c in w.store :: n.store[c] == w.store[c])
      && (n.store != w.store ==> a.pc.Registered? || a.pc.Uploading?)
      && (Busy(n.pc) ==> Busy(a.pc) || a.pc.Start?)
      && (n.pc.Raising? ==> a.builds)
      && !n.pc.Start?
  {
    hide PointsOf, Batch, Upsert;
    StepStore(w, a, size, fault);
  }

  lemma StepKeepsOneActive(w: World, i: nat, size: nat, fault: Fault)
    requires i < |w.actors| && size >= 1 && Inv(w, size)
    ensures OneActive(Step(w, i, size, fault).rows)
  {
    var a := w.actors[i];
    hide Advance;
    StepFootprint(w, a, size, fault);
    ActivateExact(w.rows, a.version);
  }

  /** One upload call leaves the collection at one of the two prefixes the retry loop allows. */
  lemma UploadAdvances(w: World, a: Actor, size: nat, fault: Fault)
    requires size >= 1 && ActorOk(w.rows, w.store, a, size) && a.pc.Uploading?
    ensures var n := Advance(w, a, size, fault); Uploads(n.store, a.(pc := n.pc), size)
  {
    hide PointsOf, DistinctIds;
    var n := Advance(w, a, size, fault);
    var offset := a.pc.offset;
    var lo, hi := Min(offset, |a.chunks|), Min(offset + size, |a.chunks|);
    if offset < |a.chunks| {
      var batch := Batch(a.chunks, offset, size);
      PointsAppend(a.chunks[..lo], batch);
      assert a.chunks[..lo] + batch == a.chunks[..hi];
      assert PointsOf(a.chunks[..hi]) + PointsOf(batch) == PointsOf(a.chunks[..hi]) by {
        UpsertTwice(PointsOf(a.chunks[..lo]), PointsOf(batch));
      }
    } else {
      assert a.chunks[..lo] == a.chunks && a.chunks[..hi] == a.chunks;
    }
  }

  lemma UpsertTwice(m: Points, b: Points)
    ensures (m + b) + b == m + b
  {
  }

  lemma StepKeepsSelf(w: World, i: nat, size: nat, fault: Fault)
    requires i < |w.actors| && size >= 1 && Inv(w, size)
    ensures var v := Step(w, i, size, fault); ActorOk(v.rows, v.store, v.actors[i], size)
  {
    hide Separate, Complete, OneActive, Advance, ActorOk;
    var a := w.actors[i];
    assert ActorOk(w.rows, w.store, a, size);
    SelfKept(w, a, size, fault);
  }

  lemma SelfKept(w: World, a: Actor, size: nat, fault: Fault)
    requires size >= 1 && ActorOk(w.rows, w.store, a, size)
    ensures var n := Advance(w, a, size, fault); ActorOk(n.rows, n.store, a.(pc := n.pc), size)
  {
    hide DistinctIds, PointsOf, Batch, Upsert;
    if a.pc.Uploading? {
      UploadAdvances(w, a, size, fault);
    } else if a.pc.Registered? {
      assert a.chunks[..0] == [];
      PointsNone();
    } else if a.pc.Uploaded? {
      CountMeansDistinct(a.chunks);
    }
  }

  lemma StepKeepsOthers(w: World, i: nat, j: nat, size: nat, fault: Fault)
    requires i < |w.actors| && j < |w.actors| && i != j && size >= 1 && Inv(w, size)
    ensures var v := Step(w, i, size, fault); ActorOk(v.rows, v.store, w.actors[j], size)
  {
    var a, b := w.actors[i], w.actors[j];
    assert ActorOk(w.rows, w.store, a, size) && ActorOk(w.rows, w.store, b, size);
    hide Advance, PointsOf, DistinctIds;
    StepFootprint(w, a, size, fault);
    ActivateExact(w.rows, a.version);
    if Busy(b.pc) {
      assert a.builds ==> a.version != b.version && a.collection != b.collection;
    }
  }

  lemma StepKeepsComplete(w: World, i: nat, size: nat, fault: Fault, r: string)
    requires i < |w.actors| && size >= 1 && Inv(w, size)
    requires var v := Step(w, i, size, fault); r in v.rows && Servable(v.rows[r].state)
    ensures var v := Step(w, i, size, fault); Complete(v.store, v.rows[r])
  {
    var a := w.actors[i];
    assert ActorOk(w.rows, w.store, a, size);
    hide Advance, PointsOf, DistinctIds;
    StepFootprint(w, a, size, fault);
    ActivateExact(w.rows, a.version);
    var n := Advance(w, a, size, fault);
    assert r in w.rows;
    if a.pc.Checked? && r == a.version {
      assert n.store == w.store;
    } else {
      assert Servable(w.rows[r].state);
      assert Complete(w.store, w.rows[r]);
      assert n.rows[r].collection == w.rows[r].collection && n.rows[r].chunks == w.rows[r].chunks;
    }
  }

  lemma StepKeepsSeparate(w: World, i: nat, size: nat, fault: Fault)
    requires i < |w.actors| && size >= 1 && Inv(w, size)
    ensures Separate(Step(w, i, size, fault))
  {
    var a := w.actors[i];
    assert ActorOk(w.rows, w.store, a, size);
    hide Advance;
    StepFootprint(w, a, size, fault);
    ActivateExact(w.rows, a.version);
  }

  lemma StepKeepsInv(w: World, i: nat, size: nat, fault: Fault)
    requires i < |w.actors| && size >= 1 && Inv(w, size)
    ensures Inv(Step(w, i, size, fault), size)
  {
    hide Advance, Separate, OneActive, Complete, ActorOk;
    var v := Step(w, i, size, fault);
    StepKeepsOneActive(w, i, size, fault);
    StepKeepsSeparate(w, i, size, fault);
    forall r | r in v.rows && Servable(v.rows[r].state) ensures Complete(v.store, v.rows[r]) {
      StepKeepsComplete(w, i, size, fault, r);
    }
    forall j | 0 <= j < |v.actors| ensures ActorOk(v.rows, v.store, v.actors[j], size) {
      if j == i {
        StepKeepsSelf(w, i, size, fault);
      } else {
        StepKeepsOthers(w, i, j, size, fault);
      }
    }
  }

  /******* Runs *******/

  /** One scheduling choice: which actor moves, and how its call fares. */
  datatype Move = Move(actor: nat, fault: Fault)

  predicate Schedules(w: World, moves: seq<Move>) {
    forall m | m in moves :: m.actor < |w.actors|
  }

  function Run(w: World, size: nat, moves: seq<Move>): World
    requires size >= 1 && Schedules(w, moves)
    decreases |moves|
  {
    if moves == [] then w
    else Run(Step(w, moves[0].actor, size, moves[0].fault), size, moves[1..])
  }

  lemma SameActors(w: World, m: Move, size: nat)
    requires size >= 1 && m.actor < |w.actors|
    ensures |Step(w, m.actor, size, m.fault).actors| == |w.actors|
  {
  }

  /** A table in good order with builders that have not begun and activations about to flip. */
  ghost predicate Initial(w: World) {
    && OneActive(w.rows) && Separate(w)
    && (forall v | v in w.rows && Servable(w.rows[v].state) :: Complete(w.store, w.rows[v]))
    && (forall a | a in w.actors :: a.pc == if a.builds then Start else Staged)
  }

  lemma InitialInv(w: World, size: nat)
    requires Initial(w)
    ensures Inv(w, size)
  {
  }

  lemma {:induction false} RunKeepsInv(w: World, size: nat, moves: seq<Move>)
    requires size >= 1 && Inv(w, size) && Schedules(w, moves)
    ensures Inv(Run(w, size, moves), size)
    decreases |moves|
  {
    hide Inv, Step;
    if moves != [] {
      StepKeepsInv(w, moves[0].actor, size, moves[0].fault);
      SameActors(w, moves[0], size);
      RunKeepsInv(Step(w, moves[0].actor, size, moves[0].fault), size, moves[1..]);
    }
  }

  /** The index invariant over every interleaving and every pattern of failures: at most one row is
      active, and the collection of a validated or active row is exactly the id-to-payload map of its
      chunks, one point each, despite batching and retried upserts that had already applied. */
  lemma IndexInvariant(w: World, size: nat, moves: seq<Move>)
    requires size >= 1 && Initial(w) && Schedules(w, moves)
    ensures var u := Run(w, size, moves);
      && OneActive(u.rows)
      && (forall v | v in u.rows && Servable(u.rows[v].state) :: Complete(u.store, u.rows[v]))
  {
    hide Step, Complete, OneActive, Separate;
    InitialInv(w, size);
    RunKeepsInv(w, size, moves);
  }

  /** A run in two parts. */
  lemma {:induction false} RunAppend(w: World, size: nat, before: seq<Move>, after: seq<Move>)
    requires size >= 1 && Schedules(w, before + after)
    ensures Schedules(w, before) && Schedules(Run(w, size, before), after)
    ensures |Run(w, size, before).actors| == |w.actors|
    ensures Run(w, size, before + after) == Run(Run(w, size, before), size, after)
    decreases |before|
  {
    hide Step;
    assert forall m :: m in before + after <==> m in before || m in after;
    if before == [] {
      assert before + after == after;
    } else {
      SameActors(w, before[0], size);
      assert (before + after)[1..] == before[1..] + after;
      RunAppend(Step(w, before[0].actor, size, before[0].fault), size, before[1..], after);
    }
  }

  /** Validation passes exactly when the chunk ids are pairwise distinct. */
  lemma ValidationExact(w: World, i: nat, size: nat)
    requires i < |w.actors| && size >= 1 && Inv(w, size) && w.actors[i].pc.Uploaded?
    ensures Step(w, i, size, Fine).actors[i].pc.Checked? <==> DistinctIds(w.actors[i].chunks)
    ensures !DistinctIds(w.actors[i].chunks) ==> Step(w, i, size, Fine).actors[i].pc.Raising?
  {
    var a := w.actors[i];
    assert ActorOk(w.rows, w.store, a, size);
    CountMeansDistinct(a.chunks);
  }

  /******* Crash safety *******/

  /** Does this move commit a registry activation? */
  predicate Commits(w: World, size: nat, m: Move)
    requires size >= 1 && m.actor < |w.actors|
  {
    w.actors[m.actor].pc.AliasFlipped? && Step(w, m.actor, size, m.fault).actors[m.actor].pc.RowActivated?
  }

  predicate NoneCommits(w: World, size: nat, moves: seq<Move>)
    requires size >= 1 && Schedules(w, moves)
    decreases |moves|
  {
    moves == [] ||
    (!Commits(w, size, moves[0]) && NoneCommits(Step(w, moves[0].actor, size, moves[0].fault), size, moves[1..]))
  }

  /** No builder is building version `v` again. */
  predicate Spared(w: World, v: string) {
    forall a | a in w.actors && a.builds :: a.version != v
  }

  lemma StepSparesActive(w: World, size: nat, m: Move, v: string)
    requires size >= 1 && Inv(w, size) && m.actor < |w.actors| && !Commits(w, size, m)
    requires v in w.rows && w.rows[v].state.Active? && Spared(w, v)
    ensures var u := Step(w, m.actor, size, m.fault);
      && v in u.rows && u.rows[v] == w.rows[v] && Spared(u, v)
      && w.rows[v].collection in u.store && u.store[w.rows[v].collection] == w.store[w.rows[v].collection]
  {
    var a := w.actors[m.actor];
    assert ActorOk(w.rows, w.store, a, size);
    assert a in w.actors;
    assert Complete(w.store, w.rows[v]);
    hide Advance, PointsOf, DistinctIds;
    StepFootprint(w, a, size, m.fault);
    var u := Step(w, m.actor, size, m.fault);
    forall b | b in u.actors && b.builds ensures b.version != v {
      var j :| 0 <= j < |u.actors| && u.actors[j] == b;
      assert w.actors[j] in w.actors;
    }
  }

  lemma {:induction false} RunSparesActive(w: World, size: nat, moves: seq<Move>, v: string)
    requires size >= 1 && Inv(w, size) && Schedules(w, moves) && NoneCommits(w, size, moves)
    requires v in w.rows && w.rows[v].state.Active? && Spared(w, v)
    ensures var u := Run(w, size, moves);
      && v in u.rows && u.rows[v] == w.rows[v] && OneActive(u.rows)
      && w.rows[v].collection in u.store && u.store[w.rows[v].collection] == w.store[w.rows[v].collection]
    decreases |moves|
  {
    hide Step, Spared, ActorOk, Separate;
    if moves != [] {
      var u := Step(w, moves[0].actor, size, moves[0].fault);
      SameActors(w, moves[0], size);
      StepKeepsInv(w, moves[0].actor, size, moves[0].fault);
      StepSparesActive(w, size, moves[0], v);
      RunSparesActive(u, size, moves[1..], v);
    }
  }

  /** Crash safety: from any moment of any run until the next registry activation commits, whatever
      fails and wherever builders stop, the active row and the collection it names are untouched,
      provided no builder rebuilds that very version. */
  lemma CrashSafety(w: World, size: nat, before: seq<Move>, moves: seq<Move>, v: string)
    requires size >= 1 && Initial(w) && Schedules(w, before) && Schedules(Run(w, size, before), moves)
    requires var here := Run(w, size, before);
      NoneCommits(here, size, moves) && v in here.rows && here.rows[v].state.Active? && Spared(here, v)
    ensures var here := Run(w, size, before); var u := Run(here, size, moves);
      && v in u.rows && u.rows[v] == here.rows[v] && OneActive(u.rows)
      && here.rows[v].collection in here.store && here.rows[v].collection in u.store
      && u.store[here.rows[v].collection] == here.store[here.rows[v].collection]
  {
    hide Run, Step, Separate, ActorOk, Initial, Spared, NoneCommits, OneActive;
    InitialInv(w, size);
    RunKeepsInv(w, size, before);
    assert Complete(Run(w, size, before).store, Run(w, size, before).rows[v]);
    RunSparesActive(Run(w, size, before), size, moves, v);
  }

  /******* Where the guarantees end *******/

  /** The two calls after a builder's own activation: promoting the centroid, and on an exception
      marking the row failed, each of which may fail. */
  function Promote(w: World, i: nat, size: nat, promotion: Fault, marking: Fault): World
    requires i < |w.actors| && size >= 1
  {
    var u := Step(w, i, size, promotion);
    if u.actors[i].pc.Raising? then Step(u, i, size, marking) else u
  }

  /** After a builder has activated its row, no row at all is active exactly when the centroid promotion
      fails and marking the row failed takes effect; otherwise the row stays active. */
  lemma PromotionFailureExact(w: World, i: nat, size: nat, promotion: Fault, marking: Fault)
    requires i < |w.actors| && size >= 1 && OneActive(w.rows)
    requires var a := w.actors[i];
      a.builds && a.pc.RowActivated? && a.version in w.rows && w.rows[a.version].state.Active?
    ensures var u := Promote(w, i, size, promotion, marking);
      && ((forall v | v in u.rows :: !u.rows[v].state.Active?) <==> !promotion.Fine? && marking.Fine?)
      && (promotion.Fine? || !marking.Fine? ==> u.rows == w.rows)
  {
    var a := w.actors[i];
    var u := Promote(w, i, size, promotion, marking);
    if promotion.Fine? || !marking.Fine? {
      assert u.rows == w.rows;
      assert u.rows[a.version].state.Active?;
    } else {
      forall v | v in u.rows ensures !u.rows[v].state.Active? {
        assert v != a.version ==> u.rows[v] == w.rows[v];
      }
    }
  }

  function SafeChar(c: char): char {
    if 'a' <= c <= 'z' || 'A' <= c <= 'Z' || '0' <= c <= '9' || c == '_' || c == '-' then c else '-'
  }

  /** The collection a version is built into. */
  function CollectionName(version: string): string {
    "kb_" + seq(|version|, i requires 0 <= i < |version| => SafeChar(version[i]))
  }

  /** Collection names need not be distinct for distinct versions. */
  lemma CollectionNamesClash()
    ensures CollectionName("1.0") == CollectionName("1-0")
  {
    assert CollectionName("1.0") == "kb_1-0";
    assert CollectionName("1-0") == "kb_1-0";
  }

  /** A letter, a digit or an underscore, by its ASCII code. */
  predicate Word(c: char) {
    var code := c as int;
    48 <= code < 58 || 65 <= code < 91 || code == 95 || 97 <= code < 123
  }

  /** Two versions share a collection exactly when they differ, if at all, only in characters that are
      both written as a hyphen: neither a letter nor a digit nor an underscore. */
  lemma NameClashExactly(a: string, b: string)
    ensures CollectionName(a) == CollectionName(b) <==>
            |a| == |b| && forall i | 0 <= i < |a| :: a[i] == b[i] || (!Word(a[i]) && !Word(b[i]))
  {
    hide SafeChar, Word;
    var x := seq(|a|, i requires 0 <= i < |a| => SafeChar(a[i]));
    var y := seq(|b|, i requires 0 <= i < |b| => SafeChar(b[i]));
    assert CollectionName(a)[3..] == x && CollectionName(b)[3..] == y;
    if CollectionName(a) == CollectionName(b) {
      forall i | 0 <= i < |a| ensures a[i] == b[i] || (!Word(a[i]) && !Word(b[i])) {
        assert x[i] == y[i];
        SameSafe(a[i], b[i]);
      }
    }
    if |a| == |b| && forall i | 0 <= i < |a| :: a[i] == b[i] || (!Word(a[i]) && !Word(b[i])) {
      forall i | 0 <= i < |a| ensures x[i] == y[i] {
        SameSafe(a[i], b[i]);
      }
      assert x == y;
    }
  }

  lemma SafeIs(c: char)
    ensures SafeChar(c) == if Word(c) then c else '-'
  {
  }

  lemma SameSafe(c: char, d: char)
    ensures SafeChar(c) == SafeChar(d) <==> c == d || (!Word(c) && !Word(d))
  {
    hide SafeChar, Word;
    SafeIs(c);
    SafeIs(d);
    HyphenIsNoWord();
  }

  lemma HyphenIsNoWord()
    ensures !Word('-')
  {
  }

  /** Why the invariant asks for distinct names: a builder of another version that shares the active
      row's collection empties it with its first two calls, and the row stays active. */
  lemma SharedNameEmptiesActive(w: World, i: nat, size: nat, v: string)
    requires i < |w.actors| && size >= 1
    requires v in w.rows && w.rows[v].state.Active?
    requires var a := w.actors[i];
      a.builds && a.pc.Start? && a.chunks != [] && a.version != v && a.collection == w.rows[v].collection
    ensures var u := Step(Step(w, i, size, Fine), i, size, Fine);
      && v in u.rows && u.rows[v].state.Active? && u.store[u.rows[v].collection] == map[]
      && (u.rows[v].chunks != [] ==> !Complete(u.store, u.rows[v]))
  {
    var u := Step(Step(w, i, size, Fine), i, size, Fine);
    if u.rows[v].chunks != [] {
      PointsHasIds(u.rows[v].chunks, u.rows[v].chunks[0].id);
    }
  }
}
