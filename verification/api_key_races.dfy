/**
 Rotations and deletions of one API key that overlap.  A rotation is four separate accesses
 to the two maps and a deletion two; any number of callers interleave between them, and a
 revocation may come at any time.  Other ids are left alone, and the hashes of new secrets
 are new.
 */
module ApiKeyRaces {
  import opened Options
  import opened ApiKeys

  /** Where one caller stands inside `rotate`. */
  datatype Phase =
    | Idle
    | Cloned(clone: ApiKey)
    | Removed(clone: ApiKey, newHash: string)
    | Written(newHash: string)

  /** The tables, the callers, removals that found nothing, and every hash seen so far. */
  datatype Race = Race(t: Tables, callers: seq<Phase>, misses: nat, used: set<string>)

  datatype Step =
    | Read(caller: nat)
    | Remove(caller: nat, newHash: string)
    | Write(caller: nat)
    | Insert(caller: nat)
    | Disable

  function To(r: Race, i: nat, p: Phase): Race
    requires i < |r.callers|
  {
    r.(callers := r.callers[i := p])
  }

  /** One access; a step whose caller is not at that point leaves everything alone. */
  function Move(id: string, r: Race, step: Step): Race {
    if step.Disable? then
      if id in r.t.keys then r.(t := r.t.(keys := r.t.keys[id := r.t.keys[id].(enabled := false)])) else r
    else if step.caller >= |r.callers| then
      r
    else
      var i := step.caller;
      match (step, r.callers[i])
      case (Read(_), Idle) => if id in r.t.keys then To(r, i, Cloned(r.t.keys[id])) else r
      case (Remove(_, newHash), Cloned(k)) =>
        if newHash in r.used then r else
          To(r, i, Removed(k, newHash)).(
            t := r.t.(byKey := r.t.byKey - {k.key}),
            misses := r.misses + (if k.key in r.t.byKey then 0 else 1),
            used := r.used + {newHash})
      case (Write(_), Removed(k, newHash)) =>
        To(r, i, Written(newHash)).(t := r.t.(keys := r.t.keys[id := k.(key := newHash)]))
      case (Insert(_), Written(newHash)) =>
        To(r, i, Idle).(t := r.t.(byKey := r.t.byKey[newHash := id]))
      case _ => r
  }

  function Run(id: string, r: Race, steps: seq<Step>): (end: Race)
    ensures id in r.t.keys ==> id in end.t.keys
    decreases |steps|
  {
    if steps == [] then r else Run(id, Move(id, r, steps[0]), steps[1..])
  }

  lemma {:induction false} RunConcat(id: string, r: Race, a: seq<Step>, b: seq<Step>)
    ensures Run(id, r, a + b) == Run(id, Run(id, r, a), b)
    decreases |a|
  {
    if a == [] {
      assert a + b == b;
    } else {
      assert (a + b)[0] == a[0] && (a + b)[1..] == a[1..] + b;
      RunConcat(id, Move(id, r, a[0]), a[1..], b);
    }
  }

  /** The hashes under which the id can be opened. */
  function Live(t: Tables, id: string): set<string> {
    set h | h in t.byKey && t.byKey[h] == id
  }

  predicate AllIdle(callers: seq<Phase>) {
    forall i :: 0 <= i < |callers| ==> callers[i] == Idle
  }

  /** Nobody is inside a call, and the maps are inverse. */
  ghost predicate Start(id: string, r: Race) {
    && Inverse(r.t) && id in r.t.keys
    && AllIdle(r.callers) && r.misses == 0
    && r.t.byKey.Keys <= r.used
  }

  // ---------------------------------------------------------------------------
  // What every step keeps
  // ---------------------------------------------------------------------------

  predicate Removing(p: Phase) {
    p.Removed? || p.Written?
  }

  /** The callers whose old hash is gone and whose new one is not in yet. */
  function Between(callers: seq<Phase>): set<nat> {
    set i: nat | i < |callers| && Removing(callers[i])
  }

  /** The entries of other ids are what they were. */
  ghost predicate Elsewhere(t0: Tables, t: Tables, id: string) {
    && (forall j :: j != id ==> (j in t.keys <==> j in t0.keys))
    && (forall j :: j != id && j in t.keys && j in t0.keys ==> t.keys[j] == t0.keys[j])
    && (forall h :: (h in t.byKey && t.byKey[h] != id) <==> (h in t0.byKey && t0.byKey[h] != id))
    && (forall h :: h in t0.byKey && t0.byKey[h] != id && h in t.byKey ==> t.byKey[h] == t0.byKey[h])
  }

  /** A hash that this id has, or had, or is about to get. */
  ghost predicate Own(t: Tables, id: string, h: string) {
    h in t.byKey ==> t.byKey[h] == id
  }

  /** Hashes on their way in are new, and different for different callers. */
  ghost predicate NewHashes(r: Race) {
    && (forall i :: 0 <= i < |r.callers| && Removing(r.callers[i]) ==>
          r.callers[i].newHash in r.used && r.callers[i].newHash !in r.t.byKey)
    && forall i, j :: 0 <= i < j < |r.callers| && Removing(r.callers[i]) && Removing(r.callers[j]) ==>
         r.callers[i].newHash != r.callers[j].newHash
  }

  predicate HasClone(p: Phase) {
    p.Cloned? || p.Removed?
  }

  ghost predicate Clones(id: string, r: Race)
    requires id in r.t.keys
  {
    && r.t.keys[id].id == id && Own(r.t, id, r.t.keys[id].key)
    && forall i :: 0 <= i < |r.callers| && HasClone(r.callers[i]) ==>
         r.callers[i].clone.id == id && Own(r.t, id, r.callers[i].clone.key)
  }

  /** The current hash opens the id, or some caller will see to it. */
  ghost predicate Promised(id: string, r: Race)
    requires id in r.t.keys
  {
    || r.t.keys[id].key in r.t.byKey
    || (exists i :: 0 <= i < |r.callers| && r.callers[i] == Written(r.t.keys[id].key))
    || (exists i :: 0 <= i < |r.callers| && r.callers[i].Removed?)
  }

  /** Every hash the id opens under, or will once the callers are through, is accounted for. */
  predicate Counted(id: string, r: Race) {
    |Live(r.t, id)| + |Between(r.callers)| == 1 + r.misses
  }

  ghost predicate Sound(t0: Tables, id: string, r: Race) {
    && id in r.t.keys && Elsewhere(t0, r.t, id)
    && r.t.byKey.Keys <= r.used
    && NewHashes(r) && Clones(id, r) && Promised(id, r) && Counted(id, r)
  }

  lemma StartSound(id: string, r: Race)
    requires Start(id, r)
    ensures Sound(r.t, id, r)
  {
    assert Between(r.callers) == {};
    assert Live(r.t, id) == {r.t.keys[id].key};
  }

  lemma BetweenUpdate(callers: seq<Phase>, i: nat, p: Phase)
    requires i < |callers|
    ensures Between(callers[i := p]) == if Removing(p) then Between(callers) + {i} else Between(callers) - {i}
  {
  }

  lemma ReadSound(t0: Tables, id: string, r: Race, i: nat)
    requires Sound(t0, id, r) && i < |r.callers| && r.callers[i].Idle?
    ensures Sound(t0, id, Move(id, r, Read(i)))
  {
    var n := Move(id, r, Read(i));
    BetweenUpdate(r.callers, i, n.callers[i]);
    PromiseStays(id, r, n, i);
  }

  /** A step of an idle caller, or one that is about to remove, takes no promise back. */
  lemma PromiseStays(id: string, r: Race, n: Race, i: nat)
    requires id in r.t.keys && id in n.t.keys && Promised(id, r)
    requires i < |r.callers| && (r.callers[i].Idle? || r.callers[i].Cloned?)
    requires n.t == r.t && |n.callers| == |r.callers|
    requires forall j :: 0 <= j < |r.callers| && j != i ==> n.callers[j] == r.callers[j]
    ensures Promised(id, n)
  {
    var h := r.t.keys[id].key;
    if j :| 0 <= j < |r.callers| && r.callers[j] == Written(h) {
      assert n.callers[j] == Written(h);
    }
    if j :| 0 <= j < |r.callers| && r.callers[j].Removed? {
      assert n.callers[j].Removed?;
    }
  }

  lemma RemoveCounts(id: string, r: Race, i: nat, newHash: string)
    requires id in r.t.keys && Counted(id, r)
    requires i < |r.callers| && r.callers[i].Cloned? && newHash !in r.used && Own(r.t, id, r.callers[i].clone.key)
    ensures Counted(id, Move(id, r, Remove(i, newHash)))
  {
    var n := Move(id, r, Remove(i, newHash));
    var gone := r.callers[i].clone.key;
    BetweenUpdate(r.callers, i, n.callers[i]);
    assert i !in Between(r.callers);
    if gone in r.t.byKey {
      assert Live(n.t, id) == Live(r.t, id) - {gone};
    } else {
      assert Live(n.t, id) == Live(r.t, id);
    }
  }

  lemma RemoveSound(t0: Tables, id: string, r: Race, i: nat, newHash: string)
    requires Sound(t0, id, r) && i < |r.callers| && r.callers[i].Cloned? && newHash !in r.used
    ensures Sound(t0, id, Move(id, r, Remove(i, newHash)))
  {
    var n := Move(id, r, Remove(i, newHash));
    RemoveCounts(id, r, i, newHash);
    assert n.callers[i].Removed?;
    RemoveNewHashes(id, r, i, newHash);
  }

  lemma RemoveNewHashes(id: string, r: Race, i: nat, newHash: string)
    requires id in r.t.keys && NewHashes(r) && r.t.byKey.Keys <= r.used
    requires i < |r.callers| && r.callers[i].Cloned? && newHash !in r.used
    ensures NewHashes(Move(id, r, Remove(i, newHash)))
  {
  }

  lemma WriteCounts(id: string, r: Race, i: nat)
    requires id in r.t.keys && Counted(id, r) && i < |r.callers| && r.callers[i].Removed?
    ensures Counted(id, Move(id, r, Write(i)))
  {
    var n := Move(id, r, Write(i));
    BetweenUpdate(r.callers, i, n.callers[i]);
    assert Between(n.callers) == Between(r.callers);
    assert Live(n.t, id) == Live(r.t, id);
  }

  lemma WriteNewHashes(id: string, r: Race, i: nat)
    requires id in r.t.keys && NewHashes(r) && i < |r.callers| && r.callers[i].Removed?
    ensures NewHashes(Move(id, r, Write(i)))
  {
  }

  lemma WriteSound(t0: Tables, id: string, r: Race, i: nat)
    requires Sound(t0, id, r) && i < |r.callers| && r.callers[i].Removed?
    ensures Sound(t0, id, Move(id, r, Write(i)))
  {
    var n := Move(id, r, Write(i));
    WriteCounts(id, r, i);
    WriteNewHashes(id, r, i);
    assert n.callers[i] == Written(n.t.keys[id].key);
  }

  lemma InsertCounts(id: string, r: Race, i: nat)
    requires id in r.t.keys && Counted(id, r)
    requires i < |r.callers| && r.callers[i].Written? && r.callers[i].newHash !in r.t.byKey
    ensures Counted(id, Move(id, r, Insert(i)))
  {
    var n := Move(id, r, Insert(i));
    BetweenUpdate(r.callers, i, n.callers[i]);
    assert i in Between(r.callers);
    assert Live(n.t, id) == Live(r.t, id) + {r.callers[i].newHash};
  }

  lemma InsertPromised(id: string, r: Race, i: nat)
    requires id in r.t.keys && Promised(id, r) && i < |r.callers| && r.callers[i].Written?
    ensures Promised(id, Move(id, r, Insert(i)))
  {
    var n := Move(id, r, Insert(i));
    var cur := r.t.keys[id].key;
    if j :| 0 <= j < |r.callers| && r.callers[j] == Written(cur) {
      assert cur in n.t.byKey || n.callers[j] == Written(cur);
    }
    if j :| 0 <= j < |r.callers| && r.callers[j].Removed? {
      assert n.callers[j].Removed?;
    }
  }

  lemma InsertSound(t0: Tables, id: string, r: Race, i: nat)
    requires Sound(t0, id, r) && i < |r.callers| && r.callers[i].Written?
    ensures Sound(t0, id, Move(id, r, Insert(i)))
  {
    InsertCounts(id, r, i);
    InsertPromised(id, r, i);
    InsertNewHashes(id, r, i);
  }

  lemma InsertNewHashes(id: string, r: Race, i: nat)
    requires id in r.t.keys && NewHashes(r) && i < |r.callers| && r.callers[i].Written?
    ensures NewHashes(Move(id, r, Insert(i)))
  {
  }

  lemma DisableSound(t0: Tables, id: string, r: Race)
    requires Sound(t0, id, r)
    ensures Sound(t0, id, Move(id, r, Disable))
  {
    assert Live(Move(id, r, Disable).t, id) == Live(r.t, id);
  }

  lemma StepSound(t0: Tables, id: string, r: Race, step: Step)
    requires Sound(t0, id, r)
    ensures Sound(t0, id, Move(id, r, step))
  {
    match step {
      case Disable => DisableSound(t0, id, r);
      case Read(i) => if i < |r.callers| && r.callers[i].Idle? { ReadSound(t0, id, r, i); }
      case Remove(i, h) => if i < |r.callers| && r.callers[i].Cloned? && h !in r.used { RemoveSound(t0, id, r, i, h); }
      case Write(i) => if i < |r.callers| && r.callers[i].Removed? { WriteSound(t0, id, r, i); }
      case Insert(i) => if i < |r.callers| && r.callers[i].Written? { InsertSound(t0, id, r, i); }
    }
  }

  lemma {:induction false} RunSound(t0: Tables, id: string, r: Race, steps: seq<Step>)
    requires Sound(t0, id, r)
    ensures Sound(t0, id, Run(id, r, steps))
    decreases |steps|
  {
    if steps != [] {
      StepSound(t0, id, r, steps[0]);
      RunSound(t0, id, Move(id, r, steps[0]), steps[1..]);
    }
  }

  /**
   Once all calls have returned, the key opens under its current hash and under one further
   hash for each removal that found nothing.
   */
  lemma OneMoreSecretPerMiss(id: string, r: Race, steps: seq<Step>)
    requires Start(id, r) && AllIdle(Run(id, r, steps).callers)
    ensures var end := Run(id, r, steps);
            && end.t.keys[id].key in Live(end.t, id)
            && |Live(end.t, id)| == 1 + end.misses
            && (Inverse(end.t) <==> end.misses == 0)
  {
    StartSound(id, r);
    RunSound(r.t, id, r, steps);
    var end := Run(id, r, steps);
    assert Between(end.callers) == {};
    InverseIffOne(r.t, id, end);
  }

  lemma InverseIffOne(t0: Tables, id: string, end: Race)
    requires Inverse(t0) && id in t0.keys && Sound(t0, id, end) && AllIdle(end.callers)
    ensures Inverse(end.t) <==> |Live(end.t, id)| == 1
  {
    var cur := end.t.keys[id].key;
    assert cur in Live(end.t, id);
    if Inverse(end.t) {
      assert Live(end.t, id) == {cur};
    }
    if |Live(end.t, id)| == 1 {
      assert |Live(end.t, id) - {cur}| == 0;
      assert forall h :: h in Live(end.t, id) ==> h == cur;
      forall h | h in end.t.byKey
        ensures end.t.byKey[h] in end.t.keys && end.t.keys[end.t.byKey[h]].key == h
      {
        if end.t.byKey[h] == id {
          assert h in Live(end.t, id);
        } else {
          assert h in t0.byKey && t0.byKey[h] != id;
        }
      }
      forall j | j in end.t.keys
        ensures end.t.keys[j].id == j && end.t.keys[j].key in end.t.byKey && end.t.byKey[end.t.keys[j].key] == j
      {
        if j != id {
          assert t0.byKey[t0.keys[j].key] == j;
        }
      }
    }
  }

  // ---------------------------------------------------------------------------
  // Which overlaps do harm
  // ---------------------------------------------------------------------------

  /**
   The step takes nobody by surprise: a key is read while no other caller is between its
   own read and write, and a hash is removed while no other caller is between its write and
   its insertion.
   */
  predicate InTurn(r: Race, step: Step) {
    match step
    case Read(i) =>
      i < |r.callers| && r.callers[i].Idle? ==> forall j :: 0 <= j < |r.callers| ==> !HasClone(r.callers[j])
    case Remove(i, newHash) =>
      i < |r.callers| && r.callers[i].Cloned? && newHash !in r.used ==>
        forall j :: 0 <= j < |r.callers| ==> !r.callers[j].Written?
    case _ => true
  }

  predicate Orderly(id: string, r: Race, steps: seq<Step>)
    requires id in r.t.keys
    decreases |steps|
  {
    steps == [] || (InTurn(r, steps[0]) && Orderly(id, Move(id, r, steps[0]), steps[1..]))
  }

  /** What orderly steps keep: at most one caller holds a clone, and it is the current key. */
  ghost predicate Tidy(id: string, r: Race)
    requires id in r.t.keys
  {
    var cur := r.t.keys[id].key;
    && r.misses == 0 && cur in r.used
    && (forall i, j :: 0 <= i < j < |r.callers| && HasClone(r.callers[i]) ==> !HasClone(r.callers[j]))
    && (forall i :: 0 <= i < |r.callers| && HasClone(r.callers[i]) ==> r.callers[i].clone.key == cur)
    && (forall i :: 0 <= i < |r.callers| && r.callers[i].Written? ==> r.callers[i].newHash == cur)
    && (forall i, j :: 0 <= i < |r.callers| && 0 <= j < |r.callers| && r.callers[i].Removed? ==> !r.callers[j].Written?)
    && (forall i :: 0 <= i < |r.callers| && r.callers[i].Removed? ==> cur !in r.t.byKey && r.callers[i].newHash != cur)
  }

  lemma TidyRead(id: string, r: Race, i: nat)
    requires id in r.t.keys && Tidy(id, r) && InTurn(r, Read(i))
    ensures Tidy(id, Move(id, r, Read(i)))
  {
  }

  lemma TidyRemove(t0: Tables, id: string, r: Race, i: nat, newHash: string)
    requires Sound(t0, id, r) && Tidy(id, r) && InTurn(r, Remove(i, newHash))
    ensures Tidy(id, Move(id, r, Remove(i, newHash)))
  {
    if i < |r.callers| && r.callers[i].Cloned? && newHash !in r.used {
      assert r.t.keys[id].key in r.t.byKey;
    }
  }

  lemma TidyWrite(t0: Tables, id: string, r: Race, i: nat)
    requires Sound(t0, id, r) && Tidy(id, r)
    ensures Tidy(id, Move(id, r, Write(i)))
  {
  }

  lemma TidyInsert(id: string, r: Race, i: nat)
    requires id in r.t.keys && Tidy(id, r)
    ensures Tidy(id, Move(id, r, Insert(i)))
  {
  }

  lemma OrderlyStep(t0: Tables, id: string, r: Race, step: Step)
    requires Sound(t0, id, r) && Tidy(id, r) && InTurn(r, step)
    ensures Tidy(id, Move(id, r, step))
  {
    match step {
      case Read(i) => TidyRead(id, r, i);
      case Remove(i, h) => TidyRemove(t0, id, r, i, h);
      case Write(i) => TidyWrite(t0, id, r, i);
      case Insert(i) => TidyInsert(id, r, i);
      case Disable =>
    }
  }

  /** Both callers are about to remove the same hash. */
  predicate SameClone(r: Race, i: nat, j: nat) {
    && i < |r.callers| && j < |r.callers| && i != j
    && r.callers[i].Cloned? && r.callers[j].Cloned?
    && r.callers[i].clone.key == r.callers[j].clone.key && r.callers[i].clone.key in r.used
  }

  /**
   A removal is bound to find nothing: two callers are about to remove the same hash, or one
   is about to remove a hash that is gone for good.
   */
  ghost predicate Doomed(r: Race) {
    || r.misses > 0
    || (exists i, j :: SameClone(r, i, j))
    || (exists i :: 0 <= i < |r.callers| && r.callers[i].Cloned? && Gone(r, r.callers[i].clone.key))
  }

  /** Out of the index, and nobody is going to put it back. */
  ghost predicate Gone(r: Race, h: string) {
    && h in r.used && h !in r.t.byKey
    && forall i :: 0 <= i < |r.callers| && Removing(r.callers[i]) ==> r.callers[i].newHash != h
  }

  lemma GoneStays(id: string, r: Race, step: Step, h: string)
    requires id in r.t.keys && Gone(r, h)
    ensures Gone(Move(id, r, step), h)
  {
  }

  lemma DoomedPair(id: string, r: Race, step: Step, i: nat, j: nat)
    requires id in r.t.keys && NewHashes(r) && SameClone(r, i, j)
    ensures Doomed(Move(id, r, step))
  {
    var n := Move(id, r, step);
    var h := r.callers[i].clone.key;
    if n.callers[i] == r.callers[i] && n.callers[j] == r.callers[j] {
      assert SameClone(n, i, j);
    } else {
      var other := if n.callers[i] == r.callers[i] then i else j;
      assert step.Remove? && n.callers[other] == r.callers[other];
      if h in r.t.byKey {
        assert Gone(n, h);
      }
    }
  }

  lemma DoomedStep(id: string, r: Race, step: Step)
    requires id in r.t.keys && NewHashes(r) && Doomed(r)
    ensures Doomed(Move(id, r, step))
  {
    var n := Move(id, r, step);
    if r.misses == 0 {
      if i, j :| SameClone(r, i, j) {
        DoomedPair(id, r, step, i, j);
      } else {
        var i :| 0 <= i < |r.callers| && r.callers[i].Cloned? && Gone(r, r.callers[i].clone.key);
        GoneStays(id, r, step, r.callers[i].clone.key);
        assert n.callers[i] == r.callers[i] || n.misses > 0;
      }
    }
  }

  lemma {:induction false} DoomedRun(t0: Tables, id: string, r: Race, steps: seq<Step>)
    requires Sound(t0, id, r) && Doomed(r)
    ensures Doomed(Run(id, r, steps))
    decreases |steps|
  {
    if steps != [] {
      StepSound(t0, id, r, steps[0]);
      DoomedStep(id, r, steps[0]);
      DoomedRun(t0, id, Move(id, r, steps[0]), steps[1..]);
    }
  }

  lemma OutOfTurnRead(t0: Tables, id: string, r: Race, i: nat)
    requires Sound(t0, id, r) && Tidy(id, r) && !InTurn(r, Read(i))
    ensures Doomed(Move(id, r, Read(i)))
  {
    var n := Move(id, r, Read(i));
    var cur := r.t.keys[id].key;
    var j :| 0 <= j < |r.callers| && HasClone(r.callers[j]);
    assert n.callers[i].Cloned? && n.callers[i].clone.key == cur;
    assert n.callers[j] == r.callers[j];
    if r.callers[j].Cloned? {
      assert SameClone(n, i, j);
    } else {
      assert forall k :: 0 <= k < |n.callers| && Removing(n.callers[k]) ==> n.callers[k].newHash != cur;
      assert Gone(n, cur);
    }
  }

  lemma OutOfTurnRemove(t0: Tables, id: string, r: Race, i: nat, newHash: string)
    requires Sound(t0, id, r) && Tidy(id, r) && !InTurn(r, Remove(i, newHash))
    ensures Doomed(Move(id, r, Remove(i, newHash)))
  {
    var j :| 0 <= j < |r.callers| && r.callers[j].Written?;
    assert r.callers[j].newHash == r.callers[i].clone.key;
  }

  lemma {:induction false} OrderlyOrDoomed(t0: Tables, id: string, r: Race, steps: seq<Step>)
    requires Sound(t0, id, r) && Tidy(id, r)
    ensures if Orderly(id, r, steps) then Tidy(id, Run(id, r, steps)) else Doomed(Run(id, r, steps))
    decreases |steps|
  {
    if steps != [] {
      var n := Move(id, r, steps[0]);
      StepSound(t0, id, r, steps[0]);
      if InTurn(r, steps[0]) {
        OrderlyStep(t0, id, r, steps[0]);
        OrderlyOrDoomed(t0, id, n, steps[1..]);
      } else {
        match steps[0] {
          case Read(i) => OutOfTurnRead(t0, id, r, i);
          case Remove(i, h) => OutOfTurnRemove(t0, id, r, i, h);
        }
        DoomedRun(t0, id, n, steps[1..]);
      }
    }
  }

  /**
   Once all calls have returned the maps are inverse again, so that only the latest secret
   opens the key, exactly when every step was in turn.
   */
  lemma InverseIffOrderly(id: string, r: Race, steps: seq<Step>)
    requires Start(id, r) && AllIdle(Run(id, r, steps).callers)
    ensures Inverse(Run(id, r, steps).t) <==> Orderly(id, r, steps)
  {
    StartSound(id, r);
    OneMoreSecretPerMiss(id, r, steps);
    OrderlyOrDoomed(r.t, id, r, steps);
  }

  lemma OneStep(id: string, r: Race, a: Step)
    requires id in r.t.keys
    ensures Run(id, r, [a]) == Move(id, r, a)
  {
    assert [a][1..] == [];
  }

  lemma TwoSteps(id: string, r: Race, a: Step, b: Step)
    requires id in r.t.keys
    ensures Run(id, r, [a, b]) == Move(id, Move(id, r, a), b)
  {
    RunConcat(id, r, [a], [b]);
    OneStep(id, r, a);
    OneStep(id, Move(id, r, a), b);
    assert [a] + [b] == [a, b];
  }

  lemma FourSteps(id: string, r: Race, a: Step, b: Step, c: Step, d: Step)
    requires id in r.t.keys
    ensures Run(id, r, [a, b, c, d]) == Move(id, Move(id, Move(id, Move(id, r, a), b), c), d)
  {
    RunConcat(id, r, [a, b], [c, d]);
    TwoSteps(id, r, a, b);
    TwoSteps(id, Run(id, r, [a, b]), c, d);
    assert [a, b] + [c, d] == [a, b, c, d];
  }

  /** A rotation that nobody interrupts does what the store's `Rotate` does. */
  lemma UninterruptedRotation(hash: Hash, id: string, secret: string, r: Race, i: nat)
    requires Start(id, r) && i < |r.callers| && hash(secret) !in r.used
    ensures var end := Run(id, r, [Read(i), Remove(i, hash(secret)), Write(i), Insert(i)]);
            end.t == Next(hash, r.t, Op.Rotate(id, secret)) && end.callers == r.callers
  {
    FourSteps(id, r, Read(i), Remove(i, hash(secret)), Write(i), Insert(i));
    var r1 := Move(id, r, Read(i));
    var r2 := Move(id, r1, Remove(i, hash(secret)));
    var r3 := Move(id, r2, Write(i));
    assert r1.callers[i] == Cloned(r.t.keys[id]);
    assert r2.callers[i] == Removed(r.t.keys[id], hash(secret));
    assert r3.callers[i] == Written(hash(secret));
    assert Move(id, r3, Insert(i)).callers == r.callers;
  }

  /**
   Two rotations of one key that both read it before either writes it leave both new
   secrets accepted: the caller of the first was handed one that is not the latest.
   */
  lemma OverlappingRotations(id: string, r: Race, a: string, b: string) returns (steps: seq<Step>)
    requires Start(id, r) && |r.callers| >= 2 && a != b && a !in r.used && b !in r.used
    ensures var end := Run(id, r, steps);
            && AllIdle(end.callers) && end.t.keys[id].key == b
            && a in Live(end.t, id) && b in Live(end.t, id) && !Inverse(end.t)
  {
    var first := [Read(0), Read(1), Remove(0, a), Write(0)];
    var second := [Insert(0), Remove(1, b), Write(1), Insert(1)];
    steps := first + second;
    RunConcat(id, r, first, second);
    FourSteps(id, r, Read(0), Read(1), Remove(0, a), Write(0));
    var k := r.t.keys[id];
    var mid := Run(id, r, first);
    BothRead(id, r, a);
    FourSteps(id, mid, Insert(0), Remove(1, b), Write(1), Insert(1));
    BothFinish(id, mid, k, a, b);
    var end := Run(id, r, steps);
    forall i | 0 <= i < |end.callers| ensures end.callers[i] == Idle {
    }
  }

  lemma BothRead(id: string, r: Race, a: string)
    requires id in r.t.keys && |r.callers| >= 2 && AllIdle(r.callers) && a !in r.used
    ensures var k := r.t.keys[id];
            var mid := Move(id, Move(id, Move(id, Move(id, r, Read(0)), Read(1)), Remove(0, a)), Write(0));
            && id in mid.t.keys && mid.used == r.used + {a}
            && mid.callers == r.callers[0 := Written(a)][1 := Cloned(k)]
            && k.key !in mid.t.byKey
  {
    var k := r.t.keys[id];
    var r2 := Move(id, Move(id, r, Read(0)), Read(1));
    assert r2.callers == r.callers[0 := Cloned(k)][1 := Cloned(k)];
    var r3 := Move(id, r2, Remove(0, a));
    assert r3.callers == r.callers[0 := Removed(k, a)][1 := Cloned(k)];
  }

  lemma BothFinish(id: string, mid: Race, k: ApiKey, a: string, b: string)
    requires id in mid.t.keys && |mid.callers| >= 2 && a != b && k.key != a && b !in mid.used
    requires mid.callers[0] == Written(a) && mid.callers[1] == Cloned(k)
    ensures var end := Move(id, Move(id, Move(id, Move(id, mid, Insert(0)), Remove(1, b)), Write(1)), Insert(1));
            && id in end.t.keys && end.t.keys[id].key == b
            && end.callers == mid.callers[0 := Idle][1 := Idle]
            && a in Live(end.t, id) && b in Live(end.t, id) && !Inverse(end.t)
  {
    var m1 := Move(id, mid, Insert(0));
    assert m1.callers == mid.callers[0 := Idle] && m1.callers[1] == Cloned(k);
    var m2 := Move(id, m1, Remove(1, b));
    assert m2.callers[1] == Removed(k, b) && a in m2.t.byKey && m2.t.byKey[a] == id;
    var m3 := Move(id, m2, Write(1));
    assert m3.callers[1] == Written(b);
    var end := Move(id, m3, Insert(1));
    assert end.t.byKey[a] == id && end.t.keys[id].key == b;
  }

  // ---------------------------------------------------------------------------
  // Revocations
  // ---------------------------------------------------------------------------

  /** The key is revoked, and so is every clone that may still be written. */
  ghost predicate Revoked(id: string, r: Race) {
    && id in r.t.keys && !r.t.keys[id].enabled
    && forall i :: 0 <= i < |r.callers| && HasClone(r.callers[i]) ==> !r.callers[i].clone.enabled
  }

  lemma {:induction false} RevokedRun(id: string, r: Race, steps: seq<Step>)
    requires Revoked(id, r)
    ensures Revoked(id, Run(id, r, steps))
    decreases |steps|
  {
    if steps != [] {
      RevokedRun(id, Move(id, r, steps[0]), steps[1..]);
    }
  }

  predicate Enabled(id: string, r: Race, steps: seq<Step>)
    requires id in r.t.keys
  {
    Run(id, r, steps).t.keys[id].enabled
  }

  /** A rotation that read the key before it was revoked writes it back enabled. */
  lemma RevocationUndone(id: string, r: Race, newHash: string, i: nat) returns (steps: seq<Step>)
    requires id in r.t.keys && newHash !in r.used
    requires i < |r.callers| && HasClone(r.callers[i]) && r.callers[i].clone.enabled
    ensures Enabled(id, r, steps)
  {
    if r.callers[i].Removed? {
      steps := [Write(i)];
      OneStep(id, r, Write(i));
    } else {
      var n := Move(id, r, Remove(i, newHash));
      assert n.callers[i] == Removed(r.callers[i].clone, newHash);
      steps := [Remove(i, newHash), Write(i)];
      TwoSteps(id, r, Remove(i, newHash), Write(i));
    }
  }

  /**
   A revocation holds, whatever rotations do from then on, exactly when no rotation under way
   holds a clone it read while the key was enabled.
   */
  lemma RevocationHoldsIff(id: string, r: Race, newHash: string)
    requires id in r.t.keys && newHash !in r.used
    ensures (forall steps :: !Enabled(id, Move(id, r, Disable), steps))
            <==> (forall i :: 0 <= i < |r.callers| && HasClone(r.callers[i]) ==> !r.callers[i].clone.enabled)
  {
    var d := Move(id, r, Disable);
    if forall i :: 0 <= i < |r.callers| && HasClone(r.callers[i]) ==> !r.callers[i].clone.enabled {
      forall steps ensures !Enabled(id, d, steps) {
        RevokedRun(id, d, steps);
      }
    }
    if i :| 0 <= i < |r.callers| && HasClone(r.callers[i]) && r.callers[i].clone.enabled {
      var steps := RevocationUndone(id, d, newHash, i);
      assert Enabled(id, d, steps);
    }
  }

  // ---------------------------------------------------------------------------
  // Deletions
  // ---------------------------------------------------------------------------

  /** Rotations and revocations, and deleters: each is idle or has yet to remove a hash. */
  datatype Scene = Scene(race: Race, deleters: seq<Option<string>>)

  datatype Access =
    | Rotating(step: Step)
    | TakeOut(deleter: nat)
    | DropHash(deleter: nat)

  function Advance(id: string, s: Scene, a: Access): Scene {
    var t := s.race.t;
    match a
    case Rotating(step) => s.(race := Move(id, s.race, step))
    case TakeOut(d) =>
      if d < |s.deleters| && s.deleters[d].None? && id in t.keys then
        Scene(s.race.(t := t.(keys := t.keys - {id})), s.deleters[d := Some(t.keys[id].key)])
      else s
    case DropHash(d) =>
      if d < |s.deleters| && s.deleters[d].Some? then
        Scene(s.race.(t := t.(byKey := t.byKey - {s.deleters[d].value})), s.deleters[d := None])
      else s
  }

  function Play(id: string, s: Scene, accesses: seq<Access>): Scene
    decreases |accesses|
  {
    if accesses == [] then s else Play(id, Advance(id, s, accesses[0]), accesses[1..])
  }

  lemma {:induction false} PlayConcat(id: string, s: Scene, a: seq<Access>, b: seq<Access>)
    ensures Play(id, s, a + b) == Play(id, Play(id, s, a), b)
    decreases |a|
  {
    if a == [] {
      assert a + b == b;
    } else {
      assert (a + b)[0] == a[0] && (a + b)[1..] == a[1..] + b;
      PlayConcat(id, Advance(id, s, a[0]), a[1..], b);
    }
  }

  lemma PlayOne(id: string, s: Scene, a: Access)
    ensures Play(id, s, [a]) == Advance(id, s, a)
  {
    assert [a][1..] == [];
  }

  lemma PlayTwo(id: string, s: Scene, a: Access, b: Access)
    ensures Play(id, s, [a, b]) == Advance(id, Advance(id, s, a), b)
  {
    PlayConcat(id, s, [a], [b]);
    PlayOne(id, s, a);
    PlayOne(id, Advance(id, s, a), b);
    assert [a] + [b] == [a, b];
  }

  lemma PlayThree(id: string, s: Scene, a: Access, b: Access, c: Access)
    ensures Play(id, s, [a, b, c]) == Advance(id, Advance(id, Advance(id, s, a), b), c)
  {
    PlayConcat(id, s, [a], [b, c]);
    PlayOne(id, s, a);
    PlayTwo(id, Advance(id, s, a), b, c);
    assert [a] + [b, c] == [a, b, c];
  }

  /** A deletion that nobody interrupts does what the store's `Delete` does. */
  lemma UninterruptedDeletion(hash: Hash, id: string, s: Scene, d: nat)
    requires id in s.race.t.keys && d < |s.deleters| && s.deleters[d].None?
    ensures Play(id, s, [TakeOut(d), DropHash(d)]).race.t == Next(hash, s.race.t, Op.Delete(id))
  {
    PlayTwo(id, s, TakeOut(d), DropHash(d));
  }

  /** Nobody can write the id any more. */
  ghost predicate GoneForGood(id: string, s: Scene) {
    && id !in s.race.t.keys
    && forall i :: 0 <= i < |s.race.callers| ==> !HasClone(s.race.callers[i])
  }

  lemma {:induction false} GoneRun(id: string, s: Scene, accesses: seq<Access>)
    requires GoneForGood(id, s)
    ensures GoneForGood(id, Play(id, s, accesses))
    decreases |accesses|
  {
    if accesses != [] {
      GoneRun(id, Advance(id, s, accesses[0]), accesses[1..]);
    }
  }

  /**
   A rotation that read the key before it was deleted brings it back, whether the deletion
   has finished or not, as it was read and open under the rotation's new secret.
   */
  lemma DeletionUndone(id: string, s: Scene, newHash: string, i: nat) returns (accesses: seq<Access>)
    requires newHash !in s.race.used
    requires i < |s.race.callers| && HasClone(s.race.callers[i])
    ensures var k := s.race.callers[i].clone;
            var t := Play(id, s, accesses).race.t;
            && id in t.keys && t.keys[id] == k.(key := t.keys[id].key)
            && t.keys[id].key in Live(t, id)
  {
    var p := s.race.callers[i];
    if p.Removed? {
      accesses := [Rotating(Write(i)), Rotating(Insert(i))];
      PlayTwo(id, s, accesses[0], accesses[1]);
      WrittenBack(id, s, i);
    } else {
      var n := Advance(id, s, Rotating(Remove(i, newHash)));
      assert n.race.callers[i] == Removed(p.clone, newHash);
      accesses := [Rotating(Remove(i, newHash)), Rotating(Write(i)), Rotating(Insert(i))];
      PlayThree(id, s, accesses[0], accesses[1], accesses[2]);
      WrittenBack(id, n, i);
    }
  }

  lemma WrittenBack(id: string, s: Scene, i: nat)
    requires i < |s.race.callers| && s.race.callers[i].Removed?
    ensures var p := s.race.callers[i];
            var t := Advance(id, Advance(id, s, Rotating(Write(i))), Rotating(Insert(i))).race.t;
            id in t.keys && t.keys[id] == p.clone.(key := p.newHash) && p.newHash in Live(t, id)
  {
    var w := Advance(id, s, Rotating(Write(i)));
    assert w.race.callers[i] == Written(s.race.callers[i].newHash);
  }

  predicate Present(id: string, s: Scene, accesses: seq<Access>) {
    id in Play(id, s, accesses).race.t.keys
  }

  /**
   A key that was taken out stays away, whatever rotations, revocations and other deletions
   do from then on, exactly when no rotation under way had read it.
   */
  lemma DeletionHoldsIff(id: string, s: Scene, d: nat, newHash: string)
    requires id in s.race.t.keys && d < |s.deleters| && s.deleters[d].None? && newHash !in s.race.used
    ensures (forall accesses :: !Present(id, Advance(id, s, TakeOut(d)), accesses))
            <==> (forall i :: 0 <= i < |s.race.callers| ==> !HasClone(s.race.callers[i]))
  {
    var taken := Advance(id, s, TakeOut(d));
    if forall i :: 0 <= i < |s.race.callers| ==> !HasClone(s.race.callers[i]) {
      forall accesses ensures !Present(id, taken, accesses) {
        GoneRun(id, taken, accesses);
      }
    }
    if i :| 0 <= i < |s.race.callers| && HasClone(s.race.callers[i]) {
      var accesses := DeletionUndone(id, taken, newHash, i);
      assert Present(id, taken, accesses);
    }
  }

  /**
   The run: a rotation reads an enabled key, the key is deleted from beginning to end, and
   the rotation goes on.  All calls have returned, the deleted key is back, enabled, and
   opens under a secret issued after the deletion.
   */
  lemma DeletedKeyReturns(id: string, s: Scene, newHash: string) returns (accesses: seq<Access>)
    requires Start(id, s.race) && |s.race.callers| >= 1 && |s.deleters| >= 1
    requires (forall d :: 0 <= d < |s.deleters| ==> s.deleters[d].None?) && newHash !in s.race.used
    requires s.race.t.keys[id].enabled
    ensures Rotating(Read(0)) in accesses && TakeOut(0) in accesses && DropHash(0) in accesses
    ensures var end := Play(id, s, accesses);
            && end.deleters == s.deleters && AllIdle(end.race.callers)
            && id in end.race.t.keys && end.race.t.keys[id].enabled
            && end.race.t.keys[id].key == newHash && newHash in Live(end.race.t, id)
  {
    var before := [Rotating(Read(0)), TakeOut(0), DropHash(0)];
    var after := [Rotating(Remove(0, newHash)), Rotating(Write(0)), Rotating(Insert(0))];
    accesses := before + after;
    PlayConcat(id, s, before, after);
    PlayThree(id, s, before[0], before[1], before[2]);
    var mid := Play(id, s, before);
    DeletedAround(id, s);
    PlayThree(id, mid, after[0], after[1], after[2]);
    FinishedAfter(id, mid, newHash);
    assert accesses[0] == before[0] && accesses[1] == before[1] && accesses[2] == before[2];
  }

  lemma DeletedAround(id: string, s: Scene)
    requires id in s.race.t.keys && |s.race.callers| >= 1 && s.race.callers[0].Idle?
    requires |s.deleters| >= 1 && s.deleters[0].None?
    ensures var mid := Advance(id, Advance(id, Advance(id, s, Rotating(Read(0))), TakeOut(0)), DropHash(0));
            && mid.race.callers == s.race.callers[0 := Cloned(s.race.t.keys[id])]
            && mid.race.used == s.race.used && mid.deleters == s.deleters
  {
    var taken := Advance(id, Advance(id, s, Rotating(Read(0))), TakeOut(0));
    assert taken.deleters[0].Some?;
  }

  lemma FinishedAfter(id: string, mid: Scene, newHash: string)
    requires |mid.race.callers| >= 1 && mid.race.callers[0].Cloned? && newHash !in mid.race.used
    ensures var end := Advance(id, Advance(id, Advance(id, mid, Rotating(Remove(0, newHash))),
                                           Rotating(Write(0))), Rotating(Insert(0)));
            && end.race.callers == mid.race.callers[0 := Idle] && end.deleters == mid.deleters
            && id in end.race.t.keys
            && end.race.t.keys[id] == mid.race.callers[0].clone.(key := newHash)
            && newHash in Live(end.race.t, id)
  {
    var n := Advance(id, mid, Rotating(Remove(0, newHash)));
    assert n.race.callers[0] == Removed(mid.race.callers[0].clone, newHash);
    WrittenBack(id, n, 0);
  }
}
