// The event stream hand-over: one bounded channel, one registration slot guarded
// by a mutex, and any number of StreamEvents calls of which each new one
// replaces the one before.  The calls run concurrently, so the protocol is a
// state machine: every section that runs under the mutex is one step, and so is
// every channel operation and every send.  A run is any sequence of steps.
module EventStream {
  import opened Wrappers

  const CAPACITY: nat := 100

  // Where a call is: at the select; holding an event it has not yet checked for;
  // holding an event after seeing itself registered; returning; returned.
  datatype Place = Selecting | Holding(event: nat) | Cleared(event: nat) | Ending | Ended

  // Events are numbered in the order they enter the channel.  replaced, late and
  // openAt only record history: whether a newer call has taken over, how many
  // events were sent after that, and how many events had left the channel when
  // the call registered.
  datatype Call = Call(place: Place, done: bool, sent: seq<nat>, lost: seq<nat>,
                       replaced: bool, late: nat, openAt: nat)

  // taker[e] is the call that received event e; wire lists the sent events in the
  // order in which they were sent, by whatever call.
  datatype Server = Server(queue: seq<nat>, issued: nat, active: Option<nat>, calls: map<nat, Call>,
                           taker: seq<nat>, wire: seq<nat>)

  datatype Step =
    | Broadcast
    | Open(id: nat)
    | Disconnect(id: nat)
    | Receive(id: nat)
    | Check(id: nat)
    | Send(id: nat, ok: bool)
    | Leave(id: nat)
    | Cleanup(id: nat)

  const START: Server := Server([], 0, None, map[], [], [])

  predicate Enabled(s: Server, t: Step) {
    match t
    case Broadcast => |s.queue| < CAPACITY
    case Open(id) => id !in s.calls
    case Disconnect(id) => id in s.calls
    case Receive(id) => id in s.calls && s.calls[id].place.Selecting? && s.queue != []
    case Check(id) => id in s.calls && s.calls[id].place.Holding?
    case Send(id, _) => id in s.calls && s.calls[id].place.Cleared?
    case Leave(id) => id in s.calls && s.calls[id].place.Selecting? && s.calls[id].done
    case Cleanup(id) => id in s.calls && s.calls[id].place.Ending?
  }

  // The registration slot never names a call that is not there.
  predicate SlotFits(s: Server) {
    s.active.Some? ==> s.active.value in s.calls
  }

  function Next(s: Server, t: Step): Server
    requires Enabled(s, t) && SlotFits(s)
  {
    match t
    case Broadcast => s.(queue := s.queue + [s.issued], issued := s.issued + 1)
    case Open(id) =>
      // cancel the previous call, then register
      var calls := if s.active.Some?
                   then s.calls[s.active.value := s.calls[s.active.value].(done := true, replaced := true)]
                   else s.calls;
      s.(calls := calls[id := Call(Selecting, false, [], [], false, 0, |s.taker|)], active := Some(id))
    case Disconnect(id) => s.(calls := s.calls[id := s.calls[id].(done := true)])
    case Receive(id) =>
      s.(queue := s.queue[1..], taker := s.taker + [id],
         calls := s.calls[id := s.calls[id].(place := Holding(s.queue[0]))])
    case Check(id) =>
      var c := s.calls[id];
      if s.active == Some(id)
      then s.(calls := s.calls[id := c.(place := Cleared(c.place.event))])
      else s.(calls := s.calls[id := c.(place := Ending, lost := c.lost + [c.place.event])])
    case Send(id, ok) =>
      var c := s.calls[id];
      if ok
      then s.(calls := s.calls[id := c.(place := Selecting, sent := c.sent + [c.place.event],
                                        late := if c.replaced then c.late + 1 else c.late)],
              wire := s.wire + [c.place.event])
      else s.(calls := s.calls[id := c.(place := Ending, lost := c.lost + [c.place.event])])
    case Leave(id) => s.(calls := s.calls[id := s.calls[id].(place := Ending)])
    case Cleanup(id) =>
      s.(calls := s.calls[id := s.calls[id].(place := Ended, done := true)],
         active := if s.active == Some(id) then None else s.active)
  }

  // ------------------------------------------------------------------ invariant

  ghost predicate Ascending(s: seq<nat>) {
    forall i, j :: 0 <= i < j < |s| ==> s[i] < s[j]
  }

  function InHand(c: Call): seq<nat> {
    match c.place
    case Holding(e) => [e]
    case Cleared(e) => [e]
    case _ => []
  }

  // Everything a call ever received, oldest first.
  function Received(c: Call): seq<nat> { c.sent + c.lost + InHand(c) }

  // These are, in order, the events that went to this call.
  ghost predicate Owns(taker: seq<nat>, id: nat, received: seq<nat>, openAt: nat) {
    && Ascending(received)
    && (forall e :: e in received <==> 0 <= e < |taker| && taker[e] == id)
    && forall e :: e in received ==> e >= openAt
  }

  // What holds of one call, given who is registered.
  ghost predicate Standing(active: Option<nat>, id: nat, c: Call) {
    && (c.lost != [] ==> |c.lost| == 1 && (c.place.Ending? || c.place.Ended?))
    && (!c.place.Ended? ==> (c.replaced <==> active != Some(id)))
    && (c.place.Ended? ==> active != Some(id))
    && c.late <= 1
    && (c.late == 1 ==> c.replaced && !c.place.Cleared?)
  }

  ghost predicate CallOk(s: Server, id: nat, c: Call) {
    Owns(s.taker, id, Received(c), c.openAt) && Standing(s.active, id, c)
  }

  // Only a call that has seen itself registered can put an event on the wire, so
  // what other calls have sent, or are about to, left the channel before the
  // registered call came.
  ghost predicate BeforeActive(s: Server, id: nat, c: Call)
    requires SlotFits(s)
  {
    s.active.Some? && s.active.value != id ==>
      && (forall e :: e in c.sent ==> e < s.calls[s.active.value].openAt)
      && (c.place.Cleared? ==> c.place.event < s.calls[s.active.value].openAt)
  }

  ghost predicate QueueOk(s: Server) {
    && |s.taker| + |s.queue| == s.issued && |s.queue| <= CAPACITY
    && forall i :: 0 <= i < |s.queue| ==> s.queue[i] == |s.taker| + i
  }

  ghost predicate CallsOk(s: Server) {
    && SlotFits(s)
    && forall id :: id in s.calls ==>
         CallOk(s, id, s.calls[id]) && BeforeActive(s, id, s.calls[id]) && s.calls[id].openAt <= |s.taker|
  }

  // The wire holds exactly what the calls have sent, nothing twice.
  ghost predicate WireOk(s: Server) {
    && (forall e :: e in s.wire ==> 0 <= e < |s.taker| && s.taker[e] in s.calls && e in s.calls[s.taker[e]].sent)
    && (forall id, e :: id in s.calls && e in s.calls[id].sent ==> e in s.wire)
    && (forall i, j :: 0 <= i < j < |s.wire| ==> s.wire[i] != s.wire[j])
  }

  ghost predicate Inv(s: Server) {
    && QueueOk(s) && CallsOk(s) && WireOk(s)
    && forall e :: 0 <= e < |s.taker| ==> s.taker[e] in s.calls
  }

  // ------------------------------------------------------- steps keep the invariant

  // A step that touches one call and leaves the slot alone.
  lemma OneCall(s: Server, s': Server, id: nat, c: Call)
    requires Inv(s) && id in s.calls && s'.calls == s.calls[id := c]
    requires s'.active == s.active && s'.taker == s.taker && c.openAt == s.calls[id].openAt
    requires CallOk(s', id, c) && BeforeActive(s', id, c)
    ensures CallsOk(s')
  {
    forall x | x in s'.calls && x != id ensures CallOk(s', x, s'.calls[x]) && BeforeActive(s', x, s'.calls[x]) {
      assert CallOk(s, x, s.calls[x]) && BeforeActive(s, x, s.calls[x]);
    }
  }

  lemma SameWire(s: Server, s': Server, id: nat, c: Call)
    requires Inv(s) && id in s.calls && s'.calls == s.calls[id := c] && c.sent == s.calls[id].sent
    requires s'.wire == s.wire && s.taker <= s'.taker
    ensures WireOk(s')
  {
    assert forall e :: e in s.wire ==> s'.taker[e] == s.taker[e];
  }

  lemma BroadcastKeeps(s: Server)
    requires Inv(s) && Enabled(s, Broadcast)
    ensures Inv(Next(s, Broadcast))
  {
    var s' := Next(s, Broadcast);
    forall x | x in s'.calls ensures CallOk(s', x, s'.calls[x]) && BeforeActive(s', x, s'.calls[x]) {
      assert CallOk(s, x, s.calls[x]) && BeforeActive(s, x, s.calls[x]);
    }
  }

  lemma DisconnectKeeps(s: Server, id: nat)
    requires Inv(s) && Enabled(s, Disconnect(id))
    ensures Inv(Next(s, Disconnect(id)))
  {
    var s', c := Next(s, Disconnect(id)), s.calls[id].(done := true);
    assert CallOk(s, id, s.calls[id]) && BeforeActive(s, id, s.calls[id]);
    assert Received(c) == Received(s.calls[id]);
    OneCall(s, s', id, c);
    SameWire(s, s', id, c);
  }

  lemma LeaveKeeps(s: Server, id: nat)
    requires Inv(s) && Enabled(s, Leave(id))
    ensures Inv(Next(s, Leave(id)))
  {
    var s', c := Next(s, Leave(id)), s.calls[id].(place := Ending);
    assert CallOk(s, id, s.calls[id]) && BeforeActive(s, id, s.calls[id]);
    assert Received(c) == Received(s.calls[id]);
    OneCall(s, s', id, c);
    SameWire(s, s', id, c);
  }

  lemma CheckKeeps(s: Server, id: nat)
    requires Inv(s) && Enabled(s, Check(id))
    ensures Inv(Next(s, Check(id)))
  {
    var s' := Next(s, Check(id));
    var b, c := s.calls[id], s'.calls[id];
    assert CallOk(s, id, b) && BeforeActive(s, id, b);
    assert Received(c) == Received(b);
    OneCall(s, s', id, c);
    SameWire(s, s', id, c);
  }

  // An event in hand is the latest received.
  lemma HandIsLatest(c: Call)
    requires Ascending(Received(c)) && InHand(c) != []
    ensures InHand(c)[0] in Received(c)
    ensures forall e :: e in c.sent || e in c.lost ==> e < InHand(c)[0]
  {
    var all, n := Received(c), |Received(c)|;
    assert all[n - 1] == InHand(c)[0];
    assert forall i :: 0 <= i < |c.sent| ==> all[i] == c.sent[i];
    assert forall i :: 0 <= i < |c.lost| ==> all[|c.sent| + i] == c.lost[i];
  }

  lemma SendCall(s: Server, s': Server, id: nat, b: Call, c: Call)
    requires SlotFits(s) && SlotFits(s') && s'.active == s.active && s'.taker == s.taker
    requires s.active.Some? ==> s'.calls[s.active.value].openAt == s.calls[s.active.value].openAt
    requires CallOk(s, id, b) && BeforeActive(s, id, b) && b.place.Cleared?
    requires c == b.(place := Selecting, sent := b.sent + [b.place.event],
                     late := if b.replaced then b.late + 1 else b.late)
    ensures CallOk(s', id, c) && BeforeActive(s', id, c)
    ensures b.place.event !in b.sent && b.place.event < |s.taker| && s.taker[b.place.event] == id
  {
    assert Received(c) == Received(b) by { assert b.lost == []; }
    HandIsLatest(b);
  }

  lemma SentWire(s: Server, s': Server, id: nat, e: nat)
    requires Inv(s) && id in s.calls && e !in s.calls[id].sent
    requires id in s'.calls && s'.calls[id].sent == s.calls[id].sent + [e] && s'.calls == s.calls[id := s'.calls[id]]
    requires s'.taker == s.taker && 0 <= e < |s.taker| && s.taker[e] == id && s'.wire == s.wire + [e]
    ensures WireOk(s')
  {
    assert e !in s.wire;
    forall x, y | x in s'.calls && y in s'.calls[x].sent ensures y in s'.wire {
      if x == id && y == e { assert s'.wire[|s.wire|] == e; } else { assert y in s.wire; }
    }
    forall y | y in s'.wire ensures 0 <= y < |s'.taker| && s'.taker[y] in s'.calls && y in s'.calls[s'.taker[y]].sent {
      if y in s.wire { assert y in s.calls[s.taker[y]].sent; }
    }
  }

  lemma SendKeeps(s: Server, id: nat)
    requires Inv(s) && Enabled(s, Send(id, true))
    ensures Inv(Next(s, Send(id, true)))
  {
    var s' := Next(s, Send(id, true));
    var b, c := s.calls[id], s'.calls[id];
    assert CallOk(s, id, b) && BeforeActive(s, id, b);
    SendCall(s, s', id, b, c);
    OneCall(s, s', id, c);
    SentWire(s, s', id, b.place.event);
  }

  lemma SendFailKeeps(s: Server, id: nat)
    requires Inv(s) && Enabled(s, Send(id, false))
    ensures Inv(Next(s, Send(id, false)))
  {
    var s' := Next(s, Send(id, false));
    var b, c := s.calls[id], s'.calls[id];
    assert CallOk(s, id, b) && BeforeActive(s, id, b);
    assert Received(c) == Received(b) by { assert b.lost == []; }
    OneCall(s, s', id, c);
    SameWire(s, s', id, c);
  }

  lemma OwnsMore(taker: seq<nat>, id: nat, received: seq<nat>, openAt: nat)
    requires Owns(taker, id, received, openAt) && openAt <= |taker|
    ensures Owns(taker + [id], id, received + [|taker|], openAt)
  {
    assert forall i :: 0 <= i < |received| ==> received[i] in received;
  }

  lemma ReceiveCall(s: Server, s': Server, id: nat, b: Call, c: Call)
    requires SlotFits(s) && SlotFits(s') && s'.active == s.active && s'.taker == s.taker + [id]
    requires s.active.Some? ==> s'.calls[s.active.value].openAt == s.calls[s.active.value].openAt
    requires CallOk(s, id, b) && BeforeActive(s, id, b) && b.place.Selecting? && b.openAt <= |s.taker|
    requires c == b.(place := Holding(|s.taker|))
    ensures CallOk(s', id, c) && BeforeActive(s', id, c)
  {
    assert Received(c) == Received(b) + [|s.taker|];
    OwnsMore(s.taker, id, Received(b), b.openAt);
  }

  lemma ReceiveKeeps(s: Server, id: nat)
    requires Inv(s) && Enabled(s, Receive(id))
    ensures Inv(Next(s, Receive(id)))
  {
    var s' := Next(s, Receive(id));
    var b, c := s.calls[id], s'.calls[id];
    assert s.queue[0] == |s.taker|;
    assert CallOk(s, id, b) && BeforeActive(s, id, b) && b.openAt <= |s.taker|;
    ReceiveCall(s, s', id, b, c);
    forall x | x in s'.calls && x != id ensures CallOk(s', x, s'.calls[x]) && BeforeActive(s', x, s'.calls[x]) {
      assert CallOk(s, x, s.calls[x]) && BeforeActive(s, x, s.calls[x]);
    }
    SameWire(s, s', id, c);
  }

  lemma CleanupKeeps(s: Server, id: nat)
    requires Inv(s) && Enabled(s, Cleanup(id))
    ensures Inv(Next(s, Cleanup(id)))
  {
    var s' := Next(s, Cleanup(id));
    var b, c := s.calls[id], s'.calls[id];
    assert CallOk(s, id, b) && BeforeActive(s, id, b);
    assert Received(c) == Received(b);
    forall x | x in s'.calls && x != id ensures CallOk(s', x, s'.calls[x]) && BeforeActive(s', x, s'.calls[x]) {
      assert CallOk(s, x, s.calls[x]) && BeforeActive(s, x, s.calls[x]);
    }
    SameWire(s, s', id, c);
  }

  // What a newly opened call does to a call that is already there.
  lemma OpenOther(s: Server, s': Server, id: nat, x: nat, b: Call, c: Call)
    requires CallOk(s, x, b) && x != id
    requires c == if s.active == Some(x) then b.(done := true, replaced := true) else b
    requires s'.active == Some(id) && s'.taker == s.taker && id in s'.calls && s'.calls[id].openAt == |s.taker|
    ensures CallOk(s', x, c) && BeforeActive(s', x, c)
  {
    assert Received(c) == Received(b);
    assert forall e :: e in c.sent ==> e in Received(c);
    if InHand(b) != [] { HandIsLatest(b); }
  }

  lemma OpenWire(s: Server, s': Server, id: nat)
    requires Inv(s) && id !in s.calls && s' == Next(s, Open(id))
    ensures WireOk(s')
  {
    assert forall x :: x in s.calls ==> x in s'.calls && s'.calls[x].sent == s.calls[x].sent;
    assert forall e :: e in s.wire ==> s.taker[e] in s.calls;
  }

  lemma OpenKeeps(s: Server, id: nat)
    requires Inv(s) && Enabled(s, Open(id))
    ensures Inv(Next(s, Open(id)))
  {
    var s' := Next(s, Open(id));
    assert Received(s'.calls[id]) == [];
    assert forall e :: 0 <= e < |s.taker| ==> s.taker[e] != id;
    assert CallOk(s', id, s'.calls[id]);
    forall x | x in s.calls
      ensures CallOk(s', x, s'.calls[x]) && BeforeActive(s', x, s'.calls[x]) && s'.calls[x].openAt <= |s.taker|
    {
      assert CallOk(s, x, s.calls[x]);
      OpenOther(s, s', id, x, s.calls[x], s'.calls[x]);
    }
    OpenWire(s, s', id);
  }

  lemma StepKeeps(s: Server, t: Step)
    requires Inv(s) && Enabled(s, t)
    ensures Inv(Next(s, t))
  {
    match t
    case Broadcast => BroadcastKeeps(s);
    case Open(id) => OpenKeeps(s, id);
    case Disconnect(id) => DisconnectKeeps(s, id);
    case Receive(id) => ReceiveKeeps(s, id);
    case Check(id) => CheckKeeps(s, id);
    case Send(id, ok) => if ok { SendKeeps(s, id); } else { SendFailKeeps(s, id); }
    case Leave(id) => LeaveKeeps(s, id);
    case Cleanup(id) => CleanupKeeps(s, id);
  }

  // ------------------------------------------------------------------- every run

  ghost predicate StepAt(ss: seq<Server>, ts: seq<Step>, i: nat)
    requires |ss| == |ts| + 1 && i < |ts|
  {
    SlotFits(ss[i]) && Enabled(ss[i], ts[i]) && ss[i + 1] == Next(ss[i], ts[i])
  }

  // The states a run passes through.
  ghost predicate IsRun(ss: seq<Server>, ts: seq<Step>) {
    |ss| == |ts| + 1 && ss[0] == START && forall i :: 0 <= i < |ts| ==> StepAt(ss, ts, i)
  }

  // Step k of the run sends an event.
  ghost predicate Sending(ss: seq<Server>, ts: seq<Step>, k: nat, id: nat) {
    IsRun(ss, ts) && k < |ts| && StepAt(ss, ts, k) && ts[k] == Send(id, true)
  }

  lemma {:induction false} RunKeeps(ss: seq<Server>, ts: seq<Step>, k: nat)
    requires IsRun(ss, ts) && k < |ss|
    ensures Inv(ss[k])
  {
    if k == 0 {
    } else {
      RunKeeps(ss, ts, k - 1);
      assert StepAt(ss, ts, k - 1);
      StepKeeps(ss[k - 1], ts[k - 1]);
    }
  }

  ghost predicate InQueue(s: Server, e: nat) { e in s.queue }
  ghost predicate Held(s: Server, e: nat, id: nat) { id in s.calls && e in InHand(s.calls[id]) }
  ghost predicate Sent(s: Server, e: nat, id: nat) { id in s.calls && e in s.calls[id].sent }
  ghost predicate Lost(s: Server, e: nat, id: nat) { id in s.calls && e in s.calls[id].lost }

  ghost predicate NotWith(s: Server, e: nat, id: nat) { !Held(s, e, id) && !Sent(s, e, id) && !Lost(s, e, id) }

  // Held, sent or lost by this call, one of the three, and not with any other.
  ghost predicate OnlyWith(s: Server, e: nat, id: nat) {
    && (Held(s, e, id) || Sent(s, e, id) || Lost(s, e, id))
    && !(Held(s, e, id) && Sent(s, e, id)) && !(Held(s, e, id) && Lost(s, e, id)) && !(Sent(s, e, id) && Lost(s, e, id))
    && forall other :: other != id ==> NotWith(s, e, other)
  }

  lemma OnePlace(c: Call, e: nat)
    requires Ascending(Received(c)) && e in Received(c)
    ensures (e in c.sent && e !in c.lost && e !in InHand(c)) || (e !in c.sent && e in c.lost && e !in InHand(c))
         || (e !in c.sent && e !in c.lost && e in InHand(c))
  {
    var all := Received(c);
    assert forall i :: 0 <= i < |c.sent| ==> all[i] == c.sent[i];
    assert forall i :: 0 <= i < |c.lost| ==> all[|c.sent| + i] == c.lost[i];
    assert forall i :: 0 <= i < |InHand(c)| ==> all[|c.sent| + |c.lost| + i] == InHand(c)[i];
  }

  // Conservation: at any moment of any run, an event that has entered the channel
  // is in exactly one place: queued, or held, sent or lost by one call.
  lemma Conserved(ss: seq<Server>, ts: seq<Step>, k: nat, e: nat)
    requires IsRun(ss, ts) && k < |ss| && e < ss[k].issued
    ensures InQueue(ss[k], e) ==> forall id :: NotWith(ss[k], e, id)
    ensures !InQueue(ss[k], e) ==> exists id :: OnlyWith(ss[k], e, id)
  {
    RunKeeps(ss, ts, k);
    var s := ss[k];
    forall id | id in s.calls && e in Received(s.calls[id]) ensures e < |s.taker| && s.taker[e] == id {
      assert CallOk(s, id, s.calls[id]);
    }
    assert forall id :: !NotWith(s, e, id) ==> id in s.calls && e in Received(s.calls[id]);
    if e < |s.taker| {
      var id := s.taker[e];
      assert CallOk(s, id, s.calls[id]);
      OnePlace(s.calls[id], e);
      assert OnlyWith(s, e, id);
    } else {
      assert s.queue[e - |s.taker|] == e;
    }
  }

  // Each call sends in channel order, loses at most one event, and once replaced
  // sends at most one more.
  lemma CallGuarantees(ss: seq<Server>, ts: seq<Step>, k: nat, id: nat)
    requires IsRun(ss, ts) && k < |ss| && id in ss[k].calls
    ensures Ascending(ss[k].calls[id].sent)
    ensures |ss[k].calls[id].lost| <= 1 && ss[k].calls[id].late <= 1
  {
    RunKeeps(ss, ts, k);
    var c := ss[k].calls[id];
    assert CallOk(ss[k], id, c);
    assert forall i :: 0 <= i < |c.sent| ==> Received(c)[i] == c.sent[i];
  }

  // While no replaced call interferes the wire is in channel order: what the
  // registered call sends is newer than anything sent before, by anyone.
  lemma RegisteredSendsInOrder(ss: seq<Server>, ts: seq<Step>, k: nat, id: nat)
    requires Sending(ss, ts, k, id) && ss[k].active == Some(id)
    ensures forall e :: e in ss[k].wire ==> e < ss[k].calls[id].place.event
  {
    RunKeeps(ss, ts, k);
    var s := ss[k];
    var c := s.calls[id];
    assert CallOk(s, id, c);
    HandIsLatest(c);
    forall e | e in s.wire ensures e < c.place.event {
      var x := s.taker[e];
      assert e in s.calls[x].sent;
      if x != id { assert BeforeActive(s, x, s.calls[x]); }
    }
  }

  // ------------------------------------------------------------- late sends

  lemma {:induction false} CallsStay(ss: seq<Server>, ts: seq<Step>, j: nat, k: nat, id: nat)
    requires IsRun(ss, ts) && j <= k < |ss| && id in ss[j].calls
    ensures id in ss[k].calls && ss[k].calls[id].openAt == ss[j].calls[id].openAt
    ensures ss[j].calls[id].replaced ==> ss[k].calls[id].replaced
  {
    if j == k {
    } else {
      CallsStay(ss, ts, j, k - 1, id);
      assert StepAt(ss, ts, k - 1);
    }
  }

  // Every call has been opened at some step, which found it absent.
  lemma {:induction false} OpenedAt(ss: seq<Server>, ts: seq<Step>, k: nat, id: nat) returns (j: nat)
    requires IsRun(ss, ts) && k < |ss| && id in ss[k].calls
    ensures j < k && ts[j] == Open(id) && id !in ss[j].calls
    ensures ss[k].calls[id].openAt == |ss[j].taker|
  {
    assert k > 0 && StepAt(ss, ts, k - 1);
    if id !in ss[k - 1].calls {
      j := k - 1;
    } else {
      j := OpenedAt(ss, ts, k - 1, id);
    }
  }

  // What the call has sent, or is cleared to send, lies below the bound.
  ghost predicate SendsBelow(s: Server, id: nat, bound: nat) {
    && id in s.calls && (s.calls[id].replaced || s.calls[id].place.Ended?)
    && (forall e :: e in s.calls[id].sent ==> e < bound)
    && (s.calls[id].place.Cleared? ==> s.calls[id].place.event < bound)
  }

  // A replaced call is never cleared again.
  lemma SendsBelowStep(s: Server, t: Step, id: nat, bound: nat)
    requires Inv(s) && Enabled(s, t) && SendsBelow(s, id, bound)
    ensures SendsBelow(Next(s, t), id, bound)
  {
    assert CallOk(s, id, s.calls[id]);
  }

  lemma OpenReplacesAll(s: Server, x: nat, id: nat)
    requires Inv(s) && Enabled(s, Open(x)) && id in s.calls
    ensures SendsBelow(Next(s, Open(x)), id, |s.taker|)
  {
    var b := s.calls[id];
    assert CallOk(s, id, b);
    assert forall e :: e in b.sent ==> e in Received(b);
    if InHand(b) != [] { HandIsLatest(b); }
  }

  // From the moment a call is opened, every call that was there before sends
  // only what had left the channel by then.
  lemma {:induction false} OlderCallsSendOlder(ss: seq<Server>, ts: seq<Step>, j: nat, k: nat, x: nat, id: nat)
    requires IsRun(ss, ts) && j < k < |ss| && ts[j] == Open(x) && id in ss[j].calls
    ensures SendsBelow(ss[k], id, |ss[j].taker|)
  {
    RunKeeps(ss, ts, k - 1);
    assert StepAt(ss, ts, k - 1);
    if k == j + 1 {
      OpenReplacesAll(ss[j], x, id);
    } else {
      OlderCallsSendOlder(ss, ts, j, k - 1, x, id);
      SendsBelowStep(ss[k - 1], ts[k - 1], id, |ss[j].taker|);
    }
  }

  // A call that came after this one has sent something.
  ghost predicate Overtaken(ss: seq<Server>, ts: seq<Step>, k: nat, id: nat)
    requires IsRun(ss, ts) && k < |ss|
  {
    exists j, x :: 0 <= j < k && ts[j] == Open(x) && id in ss[j].calls
                   && x in ss[k].calls && ss[k].calls[x].sent != []
  }

  lemma OvertakenSendsLate(ss: seq<Server>, ts: seq<Step>, k: nat, id: nat)
    requires Sending(ss, ts, k, id) && Overtaken(ss, ts, k, id)
    ensures exists e :: e in ss[k].wire && e > ss[k].calls[id].place.event
  {
    RunKeeps(ss, ts, k);
    var j, x :| 0 <= j < k && ts[j] == Open(x) && id in ss[j].calls && x in ss[k].calls && ss[k].calls[x].sent != [];
    OlderCallsSendOlder(ss, ts, j, k, x, id);
    assert StepAt(ss, ts, j);
    CallsStay(ss, ts, j + 1, k, x);
    var e := ss[k].calls[x].sent[0];
    assert CallOk(ss[k], x, ss[k].calls[x]) && e in Received(ss[k].calls[x]);
    assert e in ss[k].wire;
  }

  lemma LateSendIsOvertaken(ss: seq<Server>, ts: seq<Step>, k: nat, id: nat, e: nat)
    requires Sending(ss, ts, k, id)
    requires e in ss[k].wire && e > ss[k].calls[id].place.event
    ensures Overtaken(ss, ts, k, id)
  {
    RunKeeps(ss, ts, k);
    var s := ss[k];
    var x, c := s.taker[e], s.calls[id];
    assert x in s.calls && e in s.calls[x].sent && CallOk(s, id, c);
    HandIsLatest(c);
    var j := OpenedAt(ss, ts, k, x);
    if id !in ss[j].calls {
      var i := OpenedAt(ss, ts, k, id);
      assert StepAt(ss, ts, i) && StepAt(ss, ts, j);
      if i < j { CallsStay(ss, ts, i + 1, j, id); }
      CallsStay(ss, ts, j + 1, i, x);
      OlderCallsSendOlder(ss, ts, i, k, id, x);
    }
  }

  // A send goes out behind a newer event exactly when a call opened after the
  // sending one has already sent something.
  lemma SendsLateExactly(ss: seq<Server>, ts: seq<Step>, k: nat, id: nat)
    requires Sending(ss, ts, k, id)
    ensures (exists e :: e in ss[k].wire && e > ss[k].calls[id].place.event) <==> Overtaken(ss, ts, k, id)
  {
    if Overtaken(ss, ts, k, id) { OvertakenSendsLate(ss, ts, k, id); }
    if e :| e in ss[k].wire && e > ss[k].calls[id].place.event { LateSendIsOvertaken(ss, ts, k, id, e); }
  }

  // The call was replaced while it was cleared to send this event.
  ghost predicate ReplacedWhileCleared(ss: seq<Server>, ts: seq<Step>, k: nat, id: nat, event: nat)
    requires IsRun(ss, ts) && k < |ss|
  {
    exists j, x :: 0 <= j < k && ts[j] == Open(x) && ss[j].active == Some(id)
                   && id in ss[j].calls && ss[j].calls[id].place == Cleared(event)
  }

  lemma ReplacedNotActive(s: Server, id: nat)
    requires Inv(s) && id in s.calls && s.calls[id].replaced
    ensures s.active != Some(id)
  {
    assert CallOk(s, id, s.calls[id]);
  }

  // A call that is cleared although it was replaced was cleared before.
  lemma ClearedStep(s: Server, t: Step, id: nat)
    requires SlotFits(s) && Enabled(s, t) && id in Next(s, t).calls
    requires id in s.calls && s.calls[id].replaced ==> s.active != Some(id)
    requires Next(s, t).calls[id].place.Cleared? && Next(s, t).calls[id].replaced
    ensures id in s.calls && s.calls[id].place == Next(s, t).calls[id].place
    ensures s.calls[id].replaced || (t.Open? && s.active == Some(id))
  {}

  lemma {:induction false} ClearedBefore(ss: seq<Server>, ts: seq<Step>, k: nat, id: nat)
    requires IsRun(ss, ts) && k < |ss| && id in ss[k].calls
    requires ss[k].calls[id].place.Cleared? && ss[k].calls[id].replaced
    ensures ReplacedWhileCleared(ss, ts, k, id, ss[k].calls[id].place.event)
  {
    assert k > 0 && StepAt(ss, ts, k - 1);
    var s := ss[k - 1];
    RunKeeps(ss, ts, k - 1);
    if id in s.calls && s.calls[id].replaced { ReplacedNotActive(s, id); }
    ClearedStep(s, ts[k - 1], id);
    if s.calls[id].replaced {
      ClearedBefore(ss, ts, k - 1, id);
    } else {
      assert ts[k - 1] == Open(ts[k - 1].id);
    }
  }

  // A call sends after it was replaced exactly when the replacement found it
  // cleared to send, and then it sends the event it was cleared for.
  lemma ReplacedSendExactly(ss: seq<Server>, ts: seq<Step>, k: nat, id: nat)
    requires Sending(ss, ts, k, id)
    ensures ss[k].calls[id].replaced <==> ReplacedWhileCleared(ss, ts, k, id, ss[k].calls[id].place.event)
  {
    if ss[k].calls[id].replaced { ClearedBefore(ss, ts, k, id); }
    if ReplacedWhileCleared(ss, ts, k, id, ss[k].calls[id].place.event) {
      var j, x :| 0 <= j < k && ts[j] == Open(x) && ss[j].active == Some(id)
                  && id in ss[j].calls && ss[j].calls[id].place == Cleared(ss[k].calls[id].place.event);
      assert StepAt(ss, ts, j);
      CallsStay(ss, ts, j + 1, k, id);
    }
  }

  // ---------------------------------------------------------------- cancelling

  // Step j cancels the call's context: its client disconnects, its own clean-up
  // runs, or another call opens while this one is registered.
  ghost predicate Cancels(ss: seq<Server>, ts: seq<Step>, j: nat, id: nat)
    requires |ss| == |ts| + 1 && j < |ts|
  {
    && id in ss[j].calls
    && (ts[j] == Disconnect(id) || ts[j] == Cleanup(id) || (ts[j].Open? && ss[j].active == Some(id)))
  }

  lemma DoneStep(ss: seq<Server>, ts: seq<Step>, j: nat, id: nat)
    requires |ss| == |ts| + 1 && j < |ts| && StepAt(ss, ts, j) && id in ss[j].calls
    ensures id in ss[j + 1].calls
    ensures ss[j + 1].calls[id].done <==> ss[j].calls[id].done || Cancels(ss, ts, j, id)
  {}

  // A call's context is done exactly when some step has cancelled it.
  lemma {:induction false} DoneExactly(ss: seq<Server>, ts: seq<Step>, k: nat, id: nat)
    requires IsRun(ss, ts) && k < |ss| && id in ss[k].calls
    ensures ss[k].calls[id].done <==> exists j :: 0 <= j < k && Cancels(ss, ts, j, id)
  {
    assert k > 0 && StepAt(ss, ts, k - 1);
    if id in ss[k - 1].calls {
      DoneExactly(ss, ts, k - 1, id);
      DoneStep(ss, ts, k - 1, id);
    } else {
      assert !ss[k].calls[id].done;
      if j :| 0 <= j < k && Cancels(ss, ts, j, id) { CallsStay(ss, ts, j, k - 1, id); }
    }
  }

  // The call has been opened and neither another call since, nor its own clean-up
  // run.
  ghost predicate LastOpened(ts: seq<Step>, k: nat, id: nat)
    requires k <= |ts|
  {
    exists j :: 0 <= j < k && ts[j] == Open(id) && forall i :: j < i < k ==> !ts[i].Open? && ts[i] != Cleanup(id)
  }

  lemma LastOpenedStep(ts: seq<Step>, k: nat, id: nat)
    requires 0 < k <= |ts|
    ensures LastOpened(ts, k, id)
       <==> ts[k - 1] == Open(id) || (LastOpened(ts, k - 1, id) && !ts[k - 1].Open? && ts[k - 1] != Cleanup(id))
  {
    if LastOpened(ts, k - 1, id) && !ts[k - 1].Open? && ts[k - 1] != Cleanup(id) {
      var j :| 0 <= j < k - 1 && ts[j] == Open(id)
               && forall i :: j < i < k - 1 ==> !ts[i].Open? && ts[i] != Cleanup(id);
      assert forall i :: j < i < k ==> !ts[i].Open? && ts[i] != Cleanup(id);
    }
  }

  // Registered is the call opened last, until its clean-up runs.
  lemma {:induction false} RegisteredExactly(ss: seq<Server>, ts: seq<Step>, k: nat, id: nat)
    requires IsRun(ss, ts) && k < |ss|
    ensures ss[k].active == Some(id) <==> LastOpened(ts, k, id)
  {
    if k == 0 {
    } else {
      assert StepAt(ss, ts, k - 1);
      RegisteredExactly(ss, ts, k - 1, id);
      LastOpenedStep(ts, k, id);
    }
  }

  // Step j opens another call while this one is registered.
  ghost predicate Replaces(ss: seq<Server>, ts: seq<Step>, j: nat, id: nat)
    requires |ss| == |ts| + 1 && j < |ts|
  {
    id in ss[j].calls && ts[j].Open? && ss[j].active == Some(id)
  }

  lemma ReplacedStep(ss: seq<Server>, ts: seq<Step>, j: nat, id: nat)
    requires |ss| == |ts| + 1 && j < |ts| && StepAt(ss, ts, j) && id in ss[j].calls
    ensures id in ss[j + 1].calls
    ensures ss[j + 1].calls[id].replaced <==> ss[j].calls[id].replaced || Replaces(ss, ts, j, id)
  {}

  // A call has been replaced exactly when another one opened while it was
  // registered.
  lemma {:induction false} ReplacedExactly(ss: seq<Server>, ts: seq<Step>, k: nat, id: nat)
    requires IsRun(ss, ts) && k < |ss| && id in ss[k].calls
    ensures ss[k].calls[id].replaced <==> exists j :: 0 <= j < k && Replaces(ss, ts, j, id)
  {
    assert k > 0 && StepAt(ss, ts, k - 1);
    if id in ss[k - 1].calls {
      ReplacedExactly(ss, ts, k - 1, id);
      ReplacedStep(ss, ts, k - 1, id);
    } else {
      assert !ss[k].calls[id].replaced;
      if j :| 0 <= j < k && Replaces(ss, ts, j, id) { CallsStay(ss, ts, j, k - 1, id); }
    }
  }

  // At its select a replaced call can always return.
  lemma ReplacedCanLeave(ss: seq<Server>, ts: seq<Step>, k: nat, id: nat)
    requires IsRun(ss, ts) && k < |ss| && id in ss[k].calls && ss[k].calls[id].replaced
    ensures ss[k].calls[id].done
    ensures ss[k].calls[id].place.Selecting? ==> Enabled(ss[k], Leave(id))
  {
    ReplacedExactly(ss, ts, k, id);
    var j :| 0 <= j < k && Replaces(ss, ts, j, id);
    assert Cancels(ss, ts, j, id);
    DoneExactly(ss, ts, k, id);
  }

  // A call that returns has been cancelled or has lost an event.
  ghost predicate Justified(c: Call) {
    c.place.Ending? || c.place.Ended? ==> c.done || c.lost != []
  }

  lemma JustifiedStep(s: Server, t: Step, id: nat)
    requires SlotFits(s) && Enabled(s, t) && id in Next(s, t).calls
    requires id in s.calls ==> Justified(s.calls[id])
    ensures Justified(Next(s, t).calls[id])
  {}

  lemma {:induction false} RunJustified(ss: seq<Server>, ts: seq<Step>, k: nat, id: nat)
    requires IsRun(ss, ts) && k < |ss| && id in ss[k].calls
    ensures Justified(ss[k].calls[id])
  {
    assert k > 0 && StepAt(ss, ts, k - 1);
    if id in ss[k - 1].calls { RunJustified(ss, ts, k - 1, id); }
    JustifiedStep(ss[k - 1], ts[k - 1], id);
  }

  // No call returns without a reason: some step has cancelled it, or it has lost
  // the one event that it could not send.
  lemma ReturnsForAReason(ss: seq<Server>, ts: seq<Step>, k: nat, id: nat)
    requires IsRun(ss, ts) && k < |ss| && id in ss[k].calls
    requires ss[k].calls[id].place.Ending? || ss[k].calls[id].place.Ended?
    ensures |ss[k].calls[id].lost| == 1 || exists j :: 0 <= j < k && Cancels(ss, ts, j, id)
  {
    RunKeeps(ss, ts, k);
    assert CallOk(ss[k], id, ss[k].calls[id]);
    RunJustified(ss, ts, k, id);
    DoneExactly(ss, ts, k, id);
  }

  ghost predicate CanMove(s: Server, id: nat) {
    || Enabled(s, Receive(id)) || Enabled(s, Leave(id)) || Enabled(s, Check(id)) || Enabled(s, Cleanup(id))
    || (Enabled(s, Send(id, true)) && Enabled(s, Send(id, false)))
  }

  // A call can go on unless it has returned, or waits for an event on an empty
  // channel without having been cancelled.
  lemma StandsStillExactly(ss: seq<Server>, ts: seq<Step>, k: nat, id: nat)
    requires IsRun(ss, ts) && k < |ss| && id in ss[k].calls
    ensures var c := ss[k].calls[id];
            !CanMove(ss[k], id) <==>
              c.place.Ended? ||
              (c.place.Selecting? && ss[k].queue == [] && !exists j :: 0 <= j < k && Cancels(ss, ts, j, id))
  {
    DoneExactly(ss, ts, k, id);
  }

  // The channel never holds more than 100 events, and the sender waits exactly
  // while it holds that many.
  lemma ChannelBound(ss: seq<Server>, ts: seq<Step>, k: nat)
    requires IsRun(ss, ts) && k < |ss|
    ensures |ss[k].queue| <= 100 && (Enabled(ss[k], Broadcast) <==> |ss[k].queue| != 100)
  {
    RunKeeps(ss, ts, k);
  }

  lemma Extend(ss: seq<Server>, ts: seq<Step>, t: Step) returns (ss': seq<Server>, ts': seq<Step>)
    requires IsRun(ss, ts) && SlotFits(ss[|ts|]) && Enabled(ss[|ts|], t)
    ensures IsRun(ss', ts') && ss'[|ts'|] == Next(ss[|ts|], t)
  {
    ss', ts' := ss + [Next(ss[|ts|], t)], ts + [t];
    forall i | 0 <= i < |ts'| ensures StepAt(ss', ts', i) {
      if i < |ts| { assert StepAt(ss, ts, i); }
    }
  }

  // A run after which call 0 is about to send event 0 and event 1 is queued.
  lemma ClearToSend() returns (ss: seq<Server>, ts: seq<Step>)
    ensures IsRun(ss, ts)
    ensures ss[|ts|] == Server([1], 2, Some(0), map[0 := Call(Cleared(0), false, [], [], false, 0, 0)], [0], [])
  {
    ss, ts := [START], [];
    ss, ts := Extend(ss, ts, Open(0));
    ss, ts := Extend(ss, ts, Broadcast);
    ss, ts := Extend(ss, ts, Broadcast);
    ss, ts := Extend(ss, ts, Receive(0));
    ss, ts := Extend(ss, ts, Check(0));
  }

  // A replaced call can still send what it was cleared to send, after its
  // successor has sent something newer.
  lemma OrderCanInvert() returns (ss: seq<Server>, ts: seq<Step>)
    ensures IsRun(ss, ts) && ss[|ts|].wire == [1, 0]
  {
    ss, ts := ClearToSend();
    ss, ts := Extend(ss, ts, Open(1));
    ss, ts := Extend(ss, ts, Receive(1));
    ss, ts := Extend(ss, ts, Check(1));
    var old0, new1 := Call(Cleared(0), true, [], [], true, 0, 0), Call(Cleared(1), false, [], [], false, 0, 1);
    assert ss[|ts|] == Server([], 2, Some(1), map[0 := old0, 1 := new1], [0, 1], []);
    ss, ts := Extend(ss, ts, Send(1, true));
    ss, ts := Extend(ss, ts, Send(0, true));
  }

  // A replaced call can still take an event, which is then lost to its successor.
  lemma StaleCallTakesEvent() returns (ss: seq<Server>, ts: seq<Step>)
    ensures IsRun(ss, ts)
    ensures var s := ss[|ts|];
            && s.active == Some(1) && s.queue == [] && s.wire == [] && s.issued == 1
            && 0 in s.calls && s.calls[0].lost == [0] && s.calls[0].place.Ending?
  {
    ss, ts := [START], [];
    ss, ts := Extend(ss, ts, Open(0));
    ss, ts := Extend(ss, ts, Open(1));
    ss, ts := Extend(ss, ts, Broadcast);
    ss, ts := Extend(ss, ts, Receive(0));
    ss, ts := Extend(ss, ts, Check(0));
  }

  // Nothing is sent by a call that has not seen itself registered since it
  // received the event: the step before, among its own, is a passed check.
  lemma {:induction false} SendFollowsCheck(ss: seq<Server>, ts: seq<Step>, k: nat, id: nat)
    requires IsRun(ss, ts) && k < |ss| && id in ss[k].calls && ss[k].calls[id].place.Cleared?
    ensures exists i :: 0 <= i < k && ts[i] == Check(id) && ss[i].active == Some(id)
                        && id in ss[i].calls && ss[i].calls[id].place == Holding(ss[k].calls[id].place.event)
  {
    assert k > 0 && StepAt(ss, ts, k - 1);
    var s, t := ss[k - 1], ts[k - 1];
    if t == Check(id) {
      assert s.active == Some(id);
    } else {
      assert id in s.calls && s.calls[id].place == ss[k].calls[id].place;
      SendFollowsCheck(ss, ts, k - 1, id);
    }
  }
}
