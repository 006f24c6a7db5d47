/**
 * The JSON document store shared by several processes: a lock file created exclusively
 * around load, mutate and an atomic save (app/persistence/json_store.py,
 * app/core/paths.py).  A lock is never reclaimed.
 */
module LockedStore {
  import opened Prelude

  type Doc = string

  /**
   * The document of an absent file, what loading makes of a stored text, and whether it writes that back:
   * some defaults are filled in without the text being saved for them.
   */
  datatype Config = Config(empty: Doc, norm: Doc -> Doc, changes: Doc -> bool)

  /** The text that a stored one is left as by loading it. */
  function Stored(c: Config, doc: Doc): Doc {
    if c.changes(doc) then c.norm(doc) else doc
  }

  datatype Op = Read | Mutate(fn: Doc -> Option<Doc>)

  datatype Effect = Untouched | Normalized | Applied

  /** One visit to the critical section, in the order the lock file was created. */
  datatype Visit = Visit(client: nat, op: Op, effect: Effect, raised: bool, result: Option<Doc>)

  /** What a save is for: an absent file, the defaults found missing on loading, or the mutated document. */
  datatype Purpose = Creating | Defaulting(memory: Doc) | Applying(memory: Doc)

  /** Where a process stands. */
  datatype Pc =
    | Outside
    | Entered
    | Saving(data: Doc, purpose: Purpose)
    | Loaded(data: Doc)
    | Releasing

  datatype System = System(
    file: Option<Doc>,
    lock: Option<nat>,
    temporaries: map<nat, string>,
    pcs: map<nat, Pc>,
    visits: seq<Visit>)

  datatype Action =
    | Enter(p: nat, op: Op)
    | Load(p: nat)
    | WriteSome(p: nat)
    | Replace(p: nat)
    | Raises(p: nat)
    | CallMutator(p: nat)
    | Unlock(p: nat)

  function Content(c: Config, file: Option<Doc>): Doc {
    match file case Some(d) => d case None => c.empty
  }

  function Start(processes: set<nat>, file: Option<Doc>): System {
    System(file, None, map[], map p | p in processes :: Outside, [])
  }

  /** Where a process stands after a save: a created file is loaded like any other. */
  function Next(purpose: Purpose): Pc {
    match purpose
    case Creating => Entered
    case Defaulting(memory) => Loaded(memory)
    case Applying(_) => Releasing
  }

  /** And what its visit has done to the document by then. */
  function Done(purpose: Purpose): Effect {
    match purpose
    case Creating => Untouched
    case Defaulting(_) => Normalized
    case Applying(_) => Applied
  }

  /** The visit in progress, updated. */
  function Update(visits: seq<Visit>, v: Visit): seq<Visit>
    requires visits != []
  {
    visits[|visits| - 1 := v]
  }

  /** One atomic step of one process; a step its process is not ready for does nothing. */
  function Step(c: Config, y: System, a: Action): System {
    if a.p !in y.pcs then y
    else
      var pc := y.pcs[a.p];
      if a.Enter? then
        if pc == Outside && y.lock == None then
          y.(lock := Some(a.p), pcs := y.pcs[a.p := Entered],
             visits := y.visits + [Visit(a.p, a.op, Untouched, false, None)])
        else y
      else if y.visits == [] then y
      else
        var v := y.visits[|y.visits| - 1];
        match a
        case Load(p) =>
          if pc != Entered then y
          else if y.file == None then
            y.(pcs := y.pcs[p := Saving(c.empty, Creating)], temporaries := y.temporaries[p := ""])
          else
            var memory := c.norm(y.file.value);
            if c.changes(y.file.value) then
              y.(pcs := y.pcs[p := Saving(memory, Defaulting(memory))], temporaries := y.temporaries[p := ""])
            else y.(pcs := y.pcs[p := Loaded(memory)], visits := Update(y.visits, v.(effect := Normalized)))
        case WriteSome(p) =>
          if pc.Saving? && p in y.temporaries && |y.temporaries[p]| < |pc.data| then
            y.(temporaries := y.temporaries[p := pc.data[..|y.temporaries[p]| + 1]])
          else y
        case Replace(p) =>
          if pc.Saving? && p in y.temporaries && y.temporaries[p] == pc.data then
            System(Some(y.temporaries[p]), y.lock, y.temporaries - {p}, y.pcs[p := Next(pc.purpose)],
                   Update(y.visits, v.(effect := Done(pc.purpose))))
          else y
        case Raises(p) =>
          if pc == Entered || pc.Loaded? || pc.Saving? then
            y.(temporaries := y.temporaries - {p}, pcs := y.pcs[p := Releasing],
               visits := Update(y.visits, v.(raised := true)))
          else y
        case CallMutator(p) =>
          if !pc.Loaded? then y
          else if v.op.Read? then
            y.(pcs := y.pcs[p := Releasing], visits := Update(y.visits, v.(result := Some(pc.data))))
          else if v.op.fn(pc.data) == None then
            y.(pcs := y.pcs[p := Releasing], visits := Update(y.visits, v.(raised := true)))
          else
            y.(pcs := y.pcs[p := Saving(v.op.fn(pc.data).value, Applying(pc.data))],
               temporaries := y.temporaries[p := ""])
        case Unlock(p) =>
          if pc == Releasing then y.(lock := None, pcs := y.pcs[p := Outside]) else y
        case Enter(_, _) => y
  }

  function Run(c: Config, y: System, actions: seq<Action>): System {
    if actions == [] then y else Step(c, Run(c, y, actions[..|actions| - 1]), actions[|actions| - 1])
  }

  // ---------------------------------------------------------------- the sequential meaning

  /** What a visit has done to the document so far. */
  function After(c: Config, v: Visit, doc: Doc): Doc {
    match v.effect
    case Untouched => doc
    case Normalized => Stored(c, doc)
    case Applied =>
      if v.op.Mutate? && v.op.fn(c.norm(doc)).Some? then v.op.fn(c.norm(doc)).value else Stored(c, doc)
  }

  /** The visits one after the other, in acquisition order. */
  function Fold(c: Config, doc: Doc, visits: seq<Visit>): Doc {
    if visits == [] then doc
    else After(c, visits[|visits| - 1], Fold(c, doc, visits[..|visits| - 1]))
  }

  /**
   * A visit that is over, having found `doc`: a normal return means the whole operation took place, an exception
   * that the mutation did not.
   */
  ghost predicate Complete(c: Config, v: Visit, doc: Doc) {
    if v.raised then v.effect != Applied
    else
      match v.op
      case Read => v.effect == Normalized && v.result == Some(c.norm(doc))
      case Mutate(fn) => v.effect == Applied && fn(c.norm(doc)).Some?
  }

  /** What the process inside knows, its visit having found `doc`. */
  ghost predicate Inside(c: Config, pc: Pc, v: Visit, doc: Doc) {
    match pc
    case Outside => false
    case Entered => v.effect == Untouched && !v.raised
    case Saving(d, purpose) => !v.raised && (
      match purpose
      case Creating => v.effect == Untouched && d == c.empty == doc
      case Defaulting(memory) => v.effect == Untouched && memory == c.norm(doc) && d == Stored(c, doc)
      case Applying(memory) =>
        v.effect == Normalized && memory == c.norm(doc) && v.op.Mutate? && v.op.fn(memory) == Some(d))
    case Loaded(d) => v.effect == Normalized && !v.raised && d == c.norm(doc)
    case Releasing => Complete(c, v, doc)
  }

  /** At most one process is between creating and unlinking the lock file. */
  ghost predicate MutualExclusion(y: System) {
    match y.lock
    case None => forall p :: p in y.pcs ==> y.pcs[p] == Outside
    case Some(h) => h in y.pcs && y.pcs[h] != Outside && forall p :: p in y.pcs && p != h ==> y.pcs[p] == Outside
  }

  /** The visits that are over. */
  function Over(y: System): nat {
    if y.lock.Some? && y.visits != [] then |y.visits| - 1 else |y.visits|
  }

  ghost predicate Inv(c: Config, doc: Doc, y: System) {
    && MutualExclusion(y)
    && Content(c, y.file) == Fold(c, doc, y.visits)
    && (forall i :: 0 <= i < Over(y) ==> Complete(c, y.visits[i], Fold(c, doc, y.visits[..i])))
    && (y.lock.Some? ==>
          && y.visits != []
          && Inside(c, y.pcs[y.lock.value], y.visits[|y.visits| - 1], Fold(c, doc, y.visits[..|y.visits| - 1])))
  }

  lemma FoldLast(c: Config, doc: Doc, visits: seq<Visit>, v: Visit)
    ensures Fold(c, doc, visits + [v]) == After(c, v, Fold(c, doc, visits))
    ensures (visits + [v])[..|visits|] == visits
  {
  }

  /** Changing the visit in progress leaves the earlier ones alone. */
  lemma Earlier(c: Config, doc: Doc, visits: seq<Visit>, more: seq<Visit>, n: nat)
    requires n <= |visits| && n <= |more| && visits[..n] == more[..n]
    requires forall i :: 0 <= i < n ==> Complete(c, visits[i], Fold(c, doc, visits[..i]))
    ensures forall i :: 0 <= i < n ==> Complete(c, more[i], Fold(c, doc, more[..i]))
  {
    forall i | 0 <= i < n
      ensures visits[i] == more[i] && visits[..i] == more[..i]
    {
      assert visits[..n][i] == more[..n][i];
      assert visits[..n][..i] == more[..n][..i];
    }
  }

  /** A step of the process inside: its visit goes from `v` to `v'`, with everybody else outside. */
  lemma VisitGoesOn(c: Config, doc: Doc, y: System, y': System, v': Visit)
    requires Inv(c, doc, y) && y.lock.Some? && y'.lock == y.lock
    requires y'.visits == Update(y.visits, v')
    requires y'.pcs.Keys == y.pcs.Keys && forall p :: p in y.pcs && Some(p) != y.lock ==> y'.pcs[p] == y.pcs[p]
    requires var before := Fold(c, doc, y.visits[..|y.visits| - 1]);
             Content(c, y'.file) == After(c, v', before) && Inside(c, y'.pcs[y.lock.value], v', before)
    ensures Inv(c, doc, y')
  {
    var n := |y.visits| - 1;
    FoldLast(c, doc, y.visits[..n], v');
    assert y'.visits[..n] == y.visits[..n] && y'.visits == y.visits[..n] + [v'];
    Earlier(c, doc, y.visits, y'.visits, n);
  }

  /** What the process inside can rely on. */
  lemma InsideNow(c: Config, doc: Doc, y: System, p: nat)
    requires Inv(c, doc, y) && p in y.pcs && y.pcs[p] != Outside
    ensures y.lock == Some(p) && y.visits != []
    ensures var n := |y.visits| - 1;
            var before := Fold(c, doc, y.visits[..n]);
            Inside(c, y.pcs[p], y.visits[n], before) && Content(c, y.file) == After(c, y.visits[n], before)
  {
  }

  lemma EnterKeepsInv(c: Config, doc: Doc, y: System, p: nat, op: Op)
    requires Inv(c, doc, y) && p in y.pcs && y.lock == None
    ensures Inv(c, doc, Step(c, y, Enter(p, op)))
  {
    var y' := Step(c, y, Enter(p, op));
    FoldLast(c, doc, y.visits, y'.visits[|y.visits|]);
    Earlier(c, doc, y.visits, y'.visits, |y.visits|);
  }

  lemma UnlockKeepsInv(c: Config, doc: Doc, y: System, p: nat)
    requires Inv(c, doc, y) && p in y.pcs && y.pcs[p] == Releasing
    ensures Inv(c, doc, Step(c, y, Unlock(p)))
  {
    InsideNow(c, doc, y, p);
    var n := |y.visits| - 1;
    assert Complete(c, y.visits[n], Fold(c, doc, y.visits[..n]));
    forall i | 0 <= i < |y.visits|
      ensures Complete(c, y.visits[i], Fold(c, doc, y.visits[..i]))
    {
      assert i == n || i < Over(y);
    }
  }

  lemma LoadKeepsInv(c: Config, doc: Doc, y: System, p: nat)
    requires Inv(c, doc, y) && p in y.pcs && y.pcs[p] != Outside
    ensures Inv(c, doc, Step(c, y, Load(p)))
  {
    InsideNow(c, doc, y, p);
    var y', v := Step(c, y, Load(p)), y.visits[|y.visits| - 1];
    if y.pcs[p] == Entered {
      assert Update(y.visits, v) == y.visits;
      VisitGoesOn(c, doc, y, y', y'.visits[|y.visits| - 1]);
    }
  }

  lemma ReplaceKeepsInv(c: Config, doc: Doc, y: System, p: nat)
    requires Inv(c, doc, y) && p in y.pcs && y.pcs[p] != Outside
    ensures Inv(c, doc, Step(c, y, Replace(p)))
  {
    InsideNow(c, doc, y, p);
    var y' := Step(c, y, Replace(p));
    if y' != y {
      assert y.pcs[p].Saving? && y'.file == Some(y.pcs[p].data);
      VisitGoesOn(c, doc, y, y', y'.visits[|y.visits| - 1]);
    }
  }

  lemma RaisesKeepsInv(c: Config, doc: Doc, y: System, p: nat)
    requires Inv(c, doc, y) && p in y.pcs && y.pcs[p] != Outside
    ensures Inv(c, doc, Step(c, y, Raises(p)))
  {
    InsideNow(c, doc, y, p);
    var y' := Step(c, y, Raises(p));
    VisitGoesOn(c, doc, y, y', y'.visits[|y.visits| - 1]);
  }

  lemma CallMutatorKeepsInv(c: Config, doc: Doc, y: System, p: nat)
    requires Inv(c, doc, y) && p in y.pcs && y.pcs[p] != Outside
    ensures Inv(c, doc, Step(c, y, CallMutator(p)))
  {
    InsideNow(c, doc, y, p);
    var y', v := Step(c, y, CallMutator(p)), y.visits[|y.visits| - 1];
    if y.pcs[p].Loaded? {
      assert Update(y.visits, v) == y.visits;
      if v.op.Read? {
        VisitGoesOn(c, doc, y, y', v.(result := Some(y.pcs[p].data)));
      } else if v.op.fn(y.pcs[p].data) == None {
        VisitGoesOn(c, doc, y, y', v.(raised := true));
      } else {
        VisitGoesOn(c, doc, y, y', v);
      }
    }
  }

  /** Every step of every process keeps the invariant. */
  lemma StepKeepsInv(c: Config, doc: Doc, y: System, a: Action)
    requires Inv(c, doc, y)
    ensures Inv(c, doc, Step(c, y, a))
  {
    if a.p in y.pcs {
      if a.Enter? {
        if y.lock == None {
          EnterKeepsInv(c, doc, y, a.p, a.op);
        }
      } else if y.pcs[a.p] != Outside {
        match a
        case Load(p) => LoadKeepsInv(c, doc, y, p);
        case Replace(p) => ReplaceKeepsInv(c, doc, y, p);
        case Raises(p) => RaisesKeepsInv(c, doc, y, p);
        case CallMutator(p) => CallMutatorKeepsInv(c, doc, y, p);
        case Unlock(p) =>
          if y.pcs[p] == Releasing {
            UnlockKeepsInv(c, doc, y, p);
          }
        case WriteSome(_) =>
      }
    }
  }

  lemma {:induction false} RunKeepsInv(c: Config, doc: Doc, y: System, actions: seq<Action>)
    requires Inv(c, doc, y)
    ensures Inv(c, doc, Run(c, y, actions))
  {
    if actions != [] {
      RunKeepsInv(c, doc, y, actions[..|actions| - 1]);
      StepKeepsInv(c, doc, Run(c, y, actions[..|actions| - 1]), actions[|actions| - 1]);
    }
  }

  // ---------------------------------------------------------------- progress

  /** Whoever saves has a temporary file with the beginning of what is to be saved. */
  ghost predicate Drafts(y: System) {
    forall p :: p in y.pcs && y.pcs[p].Saving? ==> p in y.temporaries && y.temporaries[p] <= y.pcs[p].data
  }

  lemma StepKeepsDrafts(c: Config, y: System, a: Action)
    requires Drafts(y)
    ensures Drafts(Step(c, y, a))
  {
    if a.WriteSome? && a.p in y.pcs && y.pcs[a.p].Saving? && |y.temporaries[a.p]| < |y.pcs[a.p].data| {
      assert y.pcs[a.p].data[..|y.temporaries[a.p]| + 1] <= y.pcs[a.p].data;
    }
  }

  lemma {:induction false} RunKeepsDrafts(c: Config, y: System, actions: seq<Action>)
    requires Drafts(y)
    ensures Drafts(Run(c, y, actions))
  {
    if actions != [] {
      RunKeepsDrafts(c, y, actions[..|actions| - 1]);
      StepKeepsDrafts(c, Run(c, y, actions[..|actions| - 1]), actions[|actions| - 1]);
    }
  }

  lemma {:induction false} RunSplits(c: Config, y: System, a: seq<Action>, b: seq<Action>)
    ensures Run(c, y, a + b) == Run(c, Run(c, y, a), b)
    decreases |b|
  {
    if b == [] {
      assert a + b == a;
    } else {
      RunSplits(c, y, a, b[..|b| - 1]);
      assert (a + b)[..|a + b| - 1] == a + b[..|b| - 1];
    }
  }

  /** While somebody is inside, nobody else can do anything. */
  lemma OnlyHolderMoves(c: Config, doc: Doc, y: System, a: Action)
    requires Inv(c, doc, y) && y.lock.Some? && a.p != y.lock.value
    ensures Step(c, y, a) == y
  {
  }

  /** The mutation would be an exception. */
  predicate Refused(c: Config, op: Op, found: Doc) {
    op.Mutate? && op.fn(c.norm(found)) == None
  }

  /** The stages that are left of a visit. */
  function Left(pc: Pc, file: Option<Doc>): nat {
    match pc
    case Outside => 0
    case Releasing => 1
    case Saving(_, purpose) => (match purpose case Applying(_) => 2 case Defaulting(_) => 4 case Creating => 6)
    case Loaded(_) => 3
    case Entered => if file.Some? then 5 else 7
  }

  /** What is left to be written of the temporary file. */
  function Unwritten(y: System, p: nat): nat {
    if p in y.pcs && y.pcs[p].Saving? && p in y.temporaries && |y.temporaries[p]| < |y.pcs[p].data|
    then |y.pcs[p].data| - |y.temporaries[p]| else 0
  }

  /** The visit of `p` goes on: nothing else moves, and it raises only where its mutation is refused. */
  ghost predicate GoesOn(c: Config, doc: Doc, y: System, z: System, p: nat) {
    && y.visits != [] && |z.visits| == |y.visits|
    && z.pcs.Keys == y.pcs.Keys && (forall q :: q in y.pcs && q != p ==> z.pcs[q] == y.pcs[q])
    && var n := |y.visits| - 1;
    var v, w, found := y.visits[n], z.visits[n], Fold(c, doc, y.visits[..n]);
    && z.visits[..n] == y.visits[..n]
    && w.client == v.client && w.op == v.op
    && (v.raised ==> w.raised) && (w.raised ==> v.raised || Refused(c, v.op, found))
  }

  /** What the process inside does next if nothing goes wrong. */
  function NextAction(y: System, p: nat): Action
    requires p in y.pcs
  {
    match y.pcs[p]
    case Saving(_, _) => if Unwritten(y, p) > 0 then WriteSome(p) else Replace(p)
    case Loaded(_) => CallMutator(p)
    case Releasing => Unlock(p)
    case _ => Load(p)
  }

  /** Less of the visit is left. */
  ghost predicate Closer(y: System, z: System, p: nat)
    requires p in y.pcs
  {
    && p in z.pcs
    && (z.lock == Some(p) || z.lock == None)
    && (Left(z.pcs[p], z.file) < Left(y.pcs[p], y.file)
        || (Left(z.pcs[p], z.file) == Left(y.pcs[p], y.file) && Unwritten(z, p) < Unwritten(y, p)))
  }

  /** A step that changes the visit in progress, if anything, and where its process stands. */
  lemma VisitChanged(c: Config, doc: Doc, y: System, z: System, p: nat, w: Visit)
    requires p in y.pcs && y.visits != [] && z.visits == Update(y.visits, w)
    requires z.pcs.Keys == y.pcs.Keys && forall q :: q in y.pcs && q != p ==> z.pcs[q] == y.pcs[q]
    requires var n := |y.visits| - 1;
             var v := y.visits[n];
             && w.client == v.client && w.op == v.op && (v.raised ==> w.raised)
             && (w.raised ==> v.raised || Refused(c, v.op, Fold(c, doc, y.visits[..n])))
    ensures GoesOn(c, doc, y, z, p)
  {
  }

  lemma WritingGoesOn(c: Config, doc: Doc, y: System, p: nat)
    requires Inv(c, doc, y) && y.lock == Some(p) && p in y.pcs && y.pcs[p].Saving? && Unwritten(y, p) > 0
    ensures var z := Step(c, y, WriteSome(p)); GoesOn(c, doc, y, z, p) && Closer(y, z, p)
  {
    var v := y.visits[|y.visits| - 1];
    assert y.visits == Update(y.visits, v);
    VisitChanged(c, doc, y, Step(c, y, WriteSome(p)), p, v);
  }

  lemma ReplacingGoesOn(c: Config, doc: Doc, y: System, p: nat)
    requires Inv(c, doc, y) && y.lock == Some(p) && p in y.pcs && y.pcs[p].Saving?
    requires p in y.temporaries && y.temporaries[p] == y.pcs[p].data
    ensures var z := Step(c, y, Replace(p)); GoesOn(c, doc, y, z, p) && Closer(y, z, p)
  {
    var v := y.visits[|y.visits| - 1];
    VisitChanged(c, doc, y, Step(c, y, Replace(p)), p, v.(effect := Done(y.pcs[p].purpose)));
  }

  lemma LoadingGoesOn(c: Config, doc: Doc, y: System, p: nat)
    requires Inv(c, doc, y) && y.lock == Some(p) && p in y.pcs && y.pcs[p] == Entered
    ensures var z := Step(c, y, NextAction(y, p)); GoesOn(c, doc, y, z, p) && Closer(y, z, p)
  {
    InsideNow(c, doc, y, p);
    var z, v := Step(c, y, Load(p)), y.visits[|y.visits| - 1];
    if y.file == None || c.changes(y.file.value) {
      assert Update(y.visits, v) == y.visits;
      VisitChanged(c, doc, y, z, p, v);
    } else {
      VisitChanged(c, doc, y, z, p, v.(effect := Normalized));
    }
  }

  lemma LoadedGoesOn(c: Config, doc: Doc, y: System, p: nat)
    requires Inv(c, doc, y) && y.lock == Some(p) && p in y.pcs && y.pcs[p].Loaded?
    ensures var z := Step(c, y, NextAction(y, p)); GoesOn(c, doc, y, z, p) && Closer(y, z, p)
  {
    InsideNow(c, doc, y, p);
    var z, v := Step(c, y, CallMutator(p)), y.visits[|y.visits| - 1];
    if v.op.Read? {
      VisitChanged(c, doc, y, z, p, v.(result := Some(y.pcs[p].data)));
    } else if v.op.fn(y.pcs[p].data) == None {
      VisitChanged(c, doc, y, z, p, v.(raised := true));
    } else {
      assert Update(y.visits, v) == y.visits;
      VisitChanged(c, doc, y, z, p, v);
    }
  }

  /** Its next action brings a visit closer to its end. */
  lemma NextGoesOn(c: Config, doc: Doc, y: System, p: nat)
    requires Inv(c, doc, y) && Drafts(y) && y.lock == Some(p) && p in y.pcs
    ensures var z := Step(c, y, NextAction(y, p)); GoesOn(c, doc, y, z, p) && Closer(y, z, p)
  {
    InsideNow(c, doc, y, p);
    match y.pcs[p]
    case Saving(_, _) =>
      if Unwritten(y, p) > 0 {
        WritingGoesOn(c, doc, y, p);
      } else {
        ReplacingGoesOn(c, doc, y, p);
      }
    case Entered => LoadingGoesOn(c, doc, y, p);
    case Loaded(_) => LoadedGoesOn(c, doc, y, p);
    case Releasing =>
      assert y.visits == Update(y.visits, y.visits[|y.visits| - 1]);
      VisitChanged(c, doc, y, Step(c, y, Unlock(p)), p, y.visits[|y.visits| - 1]);
  }

  /** A visit that is under way can always be brought to its end, by its own process and without an exception. */
  lemma {:induction false} VisitEnds(c: Config, doc: Doc, y: System, p: nat) returns (actions: seq<Action>)
    requires Inv(c, doc, y) && Drafts(y) && y.lock == Some(p) && p in y.pcs
    ensures forall a :: a in actions ==> a.p == p && !a.Raises? && !a.Enter?
    ensures var z := Run(c, y, actions); Inv(c, doc, z) && z.lock == None && GoesOn(c, doc, y, z, p)
    decreases Left(y.pcs[p], y.file), Unwritten(y, p)
  {
    var a := NextAction(y, p);
    var z := Step(c, y, a);
    NextGoesOn(c, doc, y, p);
    StepKeepsInv(c, doc, y, a);
    StepKeepsDrafts(c, y, a);
    assert Run(c, y, []) == y && [a][..0] == [] && Run(c, y, [a]) == z;
    if z.lock == None {
      actions := [a];
    } else {
      var rest := VisitEnds(c, doc, z, p);
      actions := [a] + rest;
      RunSplits(c, y, [a], rest);
    }
  }

  // ---------------------------------------------------------------- theorems

  /** The operations run one at a time, each on what the one before it left. */
  function Sequential(c: Config, doc: Doc, visits: seq<Visit>): Doc {
    if visits == [] then doc
    else
      var d := Sequential(c, doc, visits[..|visits| - 1]);
      match visits[|visits| - 1].op
      case Read => Stored(c, d)
      case Mutate(fn) => if fn(c.norm(d)).Some? then fn(c.norm(d)).value else Stored(c, d)
  }

  ghost predicate NobodyRaised(visits: seq<Visit>) {
    forall i :: 0 <= i < |visits| ==> !visits[i].raised
  }

  lemma {:induction false} FoldIsSequential(c: Config, doc: Doc, visits: seq<Visit>)
    requires NobodyRaised(visits)
    requires forall i :: 0 <= i < |visits| ==> Complete(c, visits[i], Fold(c, doc, visits[..i]))
    ensures Fold(c, doc, visits) == Sequential(c, doc, visits)
  {
    if visits != [] {
      var rest := visits[..|visits| - 1];
      forall i | 0 <= i < |rest|
        ensures Complete(c, rest[i], Fold(c, doc, rest[..i]))
      {
        assert rest[..i] == visits[..i];
      }
      FoldIsSequential(c, doc, rest);
    }
  }

  /** What a finished visit did, between the document it found and the one it left. */
  ghost predicate TookPlace(c: Config, v: Visit, found: Doc, left: Doc) {
    if v.raised then left == found || left == Stored(c, found)
    else
      match v.op
      case Read => v.result == Some(c.norm(found)) && left == Stored(c, found)
      case Mutate(fn) => fn(c.norm(found)) == Some(left)
  }

  lemma VisitTookPlace(c: Config, doc: Doc, y: System, i: nat)
    requires Inv(c, doc, y) && i < Over(y)
    ensures TookPlace(c, y.visits[i], Fold(c, doc, y.visits[..i]), Fold(c, doc, y.visits[..i + 1]))
  {
    var v, found := y.visits[i], Fold(c, doc, y.visits[..i]);
    FoldLast(c, doc, y.visits[..i], v);
    assert y.visits[..i + 1] == y.visits[..i] + [v];
    assert Complete(c, v, found);
  }

  /**
   * Linearizability, for any number of processes and any interleaving of their steps: at most one process is
   * inside; the stored file always holds the effects so far of the visits in the order of their acquisitions;
   * and each finished visit took place as a whole on what the visits before it left, whether or not others
   * raised, or raised and changed nothing but perhaps defaults.
   */
  lemma Linearizable(c: Config, processes: set<nat>, file: Option<Doc>, actions: seq<Action>)
    ensures var y, doc := Run(c, Start(processes, file), actions), Content(c, file);
            && MutualExclusion(y)
            && Content(c, y.file) == Fold(c, doc, y.visits)
            && |y.visits| - 1 <= Over(y) <= |y.visits|
            && forall i :: 0 <= i < Over(y) ==>
                 TookPlace(c, y.visits[i], Fold(c, doc, y.visits[..i]), Fold(c, doc, y.visits[..i + 1]))
  {
    var y, doc := Run(c, Start(processes, file), actions), Content(c, file);
    RunKeepsInv(c, doc, Start(processes, file), actions);
    forall i | 0 <= i < Over(y)
      ensures TookPlace(c, y.visits[i], Fold(c, doc, y.visits[..i]), Fold(c, doc, y.visits[..i + 1]))
    {
      VisitTookPlace(c, doc, y, i);
    }
  }

  /** Between visits, if nobody raised, the file is the sequential result of the operations. */
  lemma QuietIsSequential(c: Config, processes: set<nat>, file: Option<Doc>, actions: seq<Action>)
    ensures var y, doc := Run(c, Start(processes, file), actions), Content(c, file);
            y.lock == None && NobodyRaised(y.visits) ==> Content(c, y.file) == Sequential(c, doc, y.visits)
  {
    var y, doc := Run(c, Start(processes, file), actions), Content(c, file);
    RunKeepsInv(c, doc, Start(processes, file), actions);
    if y.lock == None && NobodyRaised(y.visits) {
      FoldIsSequential(c, doc, y.visits);
    }
  }

  /** What a visit of this kind is to do. */
  ghost predicate Served(c: Config, op: Op, v: Visit, found: Doc, left: Doc) {
    && v.op == op
    && match op
       case Read => !v.raised && v.result == Some(c.norm(found)) && left == Stored(c, found)
       case Mutate(fn) =>
         if fn(c.norm(found)).Some? then !v.raised && Some(left) == fn(c.norm(found))
         else v.raised && (left == found || left == Stored(c, found))
  }

  lemma {:induction false} StaysProcess(c: Config, y: System, actions: seq<Action>)
    ensures Run(c, y, actions).pcs.Keys == y.pcs.Keys
  {
    if actions != [] {
      var z := Run(c, y, actions[..|actions| - 1]);
      StaysProcess(c, y, actions[..|actions| - 1]);
      StepKeepsProcesses(c, z, actions[|actions| - 1]);
    }
  }

  lemma StepKeepsProcesses(c: Config, y: System, a: Action)
    ensures Step(c, y, a).pcs.Keys == y.pcs.Keys
  {
    var z := Step(c, y, a);
    assert forall q :: q in z.pcs <==> q in y.pcs;
  }

  /** A free lock is taken and what is wanted is done. */
  lemma VisitServes(c: Config, doc: Doc, y: System, p: nat, op: Op) returns (more: seq<Action>)
    requires Inv(c, doc, y) && Drafts(y) && y.lock == None && p in y.pcs
    ensures forall a :: a in more ==> a.p == p && !a.Raises?
    ensures var z := Run(c, y, more);
            && Inv(c, doc, z) && z.lock == None
            && |z.visits| == |y.visits| + 1 && z.visits[..|y.visits|] == y.visits
            && var v := z.visits[|y.visits|];
            v.client == p && v.op == op && (v.raised ==> Refused(c, op, Fold(c, doc, y.visits)))
  {
    var enter := Enter(p, op);
    var x := Step(c, y, enter);
    StepKeepsInv(c, doc, y, enter);
    StepKeepsDrafts(c, y, enter);
    assert Run(c, y, []) == y && [enter][..0] == [] && Run(c, y, [enter]) == x;
    var rest := VisitEnds(c, doc, x, p);
    more := [enter] + rest;
    RunSplits(c, y, [enter], rest);
    assert x.visits[..|y.visits|] == y.visits;
  }

  /**
   * In every reachable state without a visit under way, any process can take one through: a read then returns the
   * document and a mutation leaves exactly what the mutator made of it, unless the mutator itself raises.
   */
  lemma EverybodyIsServed(c: Config, processes: set<nat>, file: Option<Doc>, actions: seq<Action>, p: nat, op: Op)
    returns (more: seq<Action>)
    requires p in processes && Run(c, Start(processes, file), actions).lock == None
    ensures forall a :: a in more ==> a.p == p && !a.Raises?
    ensures var y := Run(c, Start(processes, file), actions);
            var z := Run(c, y, more);
            && z.lock == None
            && |z.visits| == |y.visits| + 1 && z.visits[..|y.visits|] == y.visits
            && Served(c, op, z.visits[|y.visits|], Content(c, y.file), Content(c, z.file))
  {
    var y, doc := Run(c, Start(processes, file), actions), Content(c, file);
    RunKeepsInv(c, doc, Start(processes, file), actions);
    RunKeepsDrafts(c, Start(processes, file), actions);
    StaysProcess(c, Start(processes, file), actions);
    assert p in Start(processes, file).pcs.Keys;
    more := VisitServes(c, doc, y, p, op);
    var z, n := Run(c, y, more), |y.visits|;
    VisitTookPlace(c, doc, z, n);
    assert z.visits[..n + 1] == z.visits;
  }
}
