// Concurrent callers of TryUpdate.  Taking the mutex, each write of a run and
// releasing the mutex are the steps, and a run is any interleaving of them.  What
// a run writes in between is left open here; which ends it can have and what they
// make of the updating flag is what Ota.State.DoUpdate promises.
module UpdateLock {
  import opened Ota
  import opened Wrappers

  // Refused at the mutex; holding it before, during and after the run; gone.
  datatype Place = Refused | Entered | Working | Leaving(end: Outcome) | Left(end: Outcome)

  // holder, granted and writes only record history: who took the mutex, who was
  // granted a reboot, and, oldest first, who wrote to the updater's state.
  datatype Device = Device(mu: bool, updating: bool, callers: map<nat, Place>,
                           holder: Option<nat>, granted: Option<nat>, writes: seq<nat>)

  datatype Step = TryLock(id: nat) | Begin(id: nat) | Write(id: nat) | End(id: nat, end: Outcome) | Unlock(id: nat)

  const START: Device := Device(false, false, map[], None, None, [])

  predicate Holding(p: Place) { p.Entered? || p.Working? || p.Leaving? }

  // The ways in which a run that has begun can end.
  predicate RunEnd(r: Outcome) { PossibleEnd(r) && !r.AlreadyUpdating? }

  predicate Enabled(d: Device, t: Step) {
    match t
    case TryLock(id) => id !in d.callers
    case Begin(id) => id in d.callers && d.callers[id].Entered?
    case Write(id) => id in d.callers && d.callers[id].Working?
    case End(id, r) => id in d.callers && d.callers[id].Working? && RunEnd(r)
    case Unlock(id) => id in d.callers && d.callers[id].Leaving?
  }

  function Next(d: Device, t: Step): Device
    requires Enabled(d, t)
  {
    match t
    case TryLock(id) =>
      if d.mu then d.(callers := d.callers[id := Refused])
      else d.(mu := true, callers := d.callers[id := Entered], holder := Some(id))
    case Begin(id) =>
      if d.updating then d.(callers := d.callers[id := Leaving(AlreadyUpdating)])
      else d.(updating := true, callers := d.callers[id := Working], writes := d.writes + [id])
    case Write(id) => d.(writes := d.writes + [id])
    case End(id, r) =>
      d.(updating := StillUpdating(r), callers := d.callers[id := Leaving(r)], writes := d.writes + [id],
         granted := if r.Rebooting? then Some(id) else d.granted)
    case Unlock(id) => d.(mu := false, callers := d.callers[id := Left(d.callers[id].end)], holder := None)
  }

  ghost predicate Inside(d: Device, id: nat) { id in d.callers && Holding(d.callers[id]) }

  // The caller was told that the device reboots.
  ghost predicate GrantedReboot(d: Device, id: nat) {
    id in d.callers && (d.callers[id].Leaving? || d.callers[id].Left?) && d.callers[id].end.Rebooting?
  }

  ghost predicate Running(d: Device, id: nat) { id in d.callers && d.callers[id].Working? }

  // ------------------------------------------------------------------ invariant

  ghost predicate Exclusive(d: Device) {
    (forall i: nat :: Inside(d, i) <==> d.holder == Some(i)) && (d.mu <==> d.holder.Some?)
  }

  ghost predicate FlagOk(d: Device) {
    && (forall i: nat :: GrantedReboot(d, i) <==> d.granted == Some(i))
    && (d.granted.Some? ==> d.updating && forall i: nat :: !Running(d, i))
    && (d.updating && d.granted.None? ==> d.holder.Some? && Running(d, d.holder.value))
    && (forall i: nat :: Running(d, i) ==> d.updating)
  }

  // All writes of one caller stand together.
  ghost predicate Contiguous(writes: seq<nat>) {
    forall i, j, k :: 0 <= i < j < k < |writes| && writes[i] == writes[k] ==> writes[j] == writes[i]
  }

  ghost predicate WritesOk(d: Device) {
    && Contiguous(d.writes)
    && (forall i: nat :: i in d.writes ==> i in d.callers && !d.callers[i].Entered?)
    && (forall i: nat :: Running(d, i) ==> d.writes != [] && d.writes[|d.writes| - 1] == i)
  }

  ghost predicate Inv(d: Device) { Exclusive(d) && FlagOk(d) && WritesOk(d) }

  lemma ExclusiveStep(d: Device, t: Step)
    requires Exclusive(d) && Enabled(d, t)
    ensures Exclusive(Next(d, t))
  {
    assert t.TryLock? || Inside(d, t.id);
    assert forall i: nat :: i != t.id ==> (Inside(Next(d, t), i) <==> Inside(d, i));
  }

  lemma FlagStep(d: Device, t: Step)
    requires Exclusive(d) && FlagOk(d) && Enabled(d, t)
    ensures FlagOk(Next(d, t))
  {
    var d' := Next(d, t);
    assert t.TryLock? || Inside(d, t.id);
    assert forall i: nat :: i != t.id ==>
             (Running(d', i) <==> Running(d, i)) && (GrantedReboot(d', i) <==> GrantedReboot(d, i));
    assert forall i: nat :: Running(d, i) ==> Inside(d, i);
    match t
    case TryLock(id) => assert !GrantedReboot(d, id);
    case Begin(id) => assert !GrantedReboot(d, id);
    case Write(id) => assert Running(d, id);
    case End(id, r) => assert Running(d, id) && !GrantedReboot(d, id);
    case Unlock(id) => assert GrantedReboot(d', id) <==> GrantedReboot(d, id);
  }

  // A write by the caller who wrote last, or by one who has not written yet.
  lemma OneMoreWrite(writes: seq<nat>, id: nat)
    requires Contiguous(writes) && (id in writes ==> writes[|writes| - 1] == id)
    ensures Contiguous(writes + [id])
  {
    var more, n := writes + [id], |writes|;
    forall i, j, k | 0 <= i < j < k < |more| && more[i] == more[k] ensures more[j] == more[i] {
      if k == n && j < n - 1 { assert writes[i] == writes[n - 1]; }
    }
  }

  lemma WritesStep(d: Device, t: Step)
    requires Exclusive(d) && WritesOk(d) && Enabled(d, t)
    ensures WritesOk(Next(d, t))
  {
    assert forall i: nat :: Running(d, i) ==> Inside(d, i);
    assert forall i: nat :: i != t.id ==> (Running(Next(d, t), i) <==> Running(d, i));
    assert t.TryLock? || Inside(d, t.id);
    match t
    case TryLock(id) => assert id !in d.writes;
    case Begin(id) =>
      assert id !in d.writes;
      OneMoreWrite(d.writes, id);
    case Write(id) =>
      assert Running(d, id);
      OneMoreWrite(d.writes, id);
    case End(id, r) =>
      assert Running(d, id);
      OneMoreWrite(d.writes, id);
    case Unlock(id) =>
  }

  lemma StepKeeps(d: Device, t: Step)
    requires Inv(d) && Enabled(d, t)
    ensures Inv(Next(d, t))
  {
    ExclusiveStep(d, t);
    FlagStep(d, t);
    WritesStep(d, t);
  }

  // ------------------------------------------------------------------ every run

  ghost predicate StepAt(ds: seq<Device>, ts: seq<Step>, i: nat)
    requires |ds| == |ts| + 1 && i < |ts|
  {
    Enabled(ds[i], ts[i]) && ds[i + 1] == Next(ds[i], ts[i])
  }

  ghost predicate IsRun(ds: seq<Device>, ts: seq<Step>) {
    |ds| == |ts| + 1 && ds[0] == START && forall i :: 0 <= i < |ts| ==> StepAt(ds, ts, i)
  }

  lemma {:induction false} RunKeeps(ds: seq<Device>, ts: seq<Step>, k: nat)
    requires IsRun(ds, ts) && k < |ds|
    ensures Inv(ds[k])
  {
    if k == 0 {
    } else {
      RunKeeps(ds, ts, k - 1);
      assert StepAt(ds, ts, k - 1);
      StepKeeps(ds[k - 1], ts[k - 1]);
    }
  }

  // At most one caller is inside at any moment, and what the runs write does not
  // mix: between two writes of one caller nobody else writes.
  lemma OneAtATime(ds: seq<Device>, ts: seq<Step>, k: nat)
    requires IsRun(ds, ts) && k < |ds|
    ensures forall i: nat, j: nat :: Inside(ds[k], i) && Inside(ds[k], j) ==> i == j
    ensures Contiguous(ds[k].writes)
  {
    RunKeeps(ds, ts, k);
  }

  // A caller is refused exactly when another one is inside, and while one is
  // inside nobody else does anything but be refused.
  lemma RefusedExactly(ds: seq<Device>, ts: seq<Step>, k: nat)
    requires IsRun(ds, ts) && k < |ts| && ts[k].TryLock?
    ensures ds[k + 1].callers.Keys == ds[k].callers.Keys + {ts[k].id}
    ensures ds[k + 1].callers[ts[k].id].Refused? <==> exists i: nat :: Inside(ds[k], i)
    ensures (exists i: nat :: Inside(ds[k], i)) ==>
              ds[k + 1] == ds[k].(callers := ds[k].callers[ts[k].id := Refused])
    ensures forall i: nat :: i in ds[k].callers ==> ds[k + 1].callers[i] == ds[k].callers[i]
    ensures ds[k + 1].updating == ds[k].updating && ds[k + 1].writes == ds[k].writes
  {
    RunKeeps(ds, ts, k);
    assert StepAt(ds, ts, k);
  }

  lemma OthersWait(ds: seq<Device>, ts: seq<Step>, k: nat, id: nat)
    requires IsRun(ds, ts) && k < |ts| && Inside(ds[k], id) && ts[k].id != id
    ensures ts[k].TryLock? && Inside(ds[k + 1], id) && ds[k + 1].callers[id] == ds[k].callers[id]
    ensures ds[k + 1] == ds[k].(callers := ds[k].callers[ts[k].id := Refused])
  {
    RunKeeps(ds, ts, k);
    assert StepAt(ds, ts, k);
    if !ts[k].TryLock? { assert Inside(ds[k], ts[k].id); }
  }

  // With nobody inside, the updating flag says that a reboot was granted; and no
  // interleaving grants two.
  lemma FlagMeansReboot(ds: seq<Device>, ts: seq<Step>, k: nat)
    requires IsRun(ds, ts) && k < |ds|
    ensures !ds[k].mu ==> (ds[k].updating <==> exists i: nat :: GrantedReboot(ds[k], i))
    ensures forall i: nat, j: nat :: GrantedReboot(ds[k], i) && GrantedReboot(ds[k], j) ==> i == j
  {
    RunKeeps(ds, ts, k);
    assert forall i: nat :: Running(ds[k], i) ==> Inside(ds[k], i);
  }
}
