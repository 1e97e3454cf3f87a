// The websocket client table of the embedded example as interleaved steps: any number of slots,
// connections and informer threads. One step is one access to shared memory, or taking or giving
// back the context lock.
module Slots {
  import opened Documents

  /** Stands for a pointer to a connection; a closed connection's address may be used again. */
  type Conn = nat

  /** States: 0 free, 1 connected, 2 ready, 3 an informer is writing. */
  datatype Slot = Slot(conn: Option<Conn>, state: int)

  datatype Holder = Free | ByConn(c: Conn) | ByInformer(t: nat)

  /** Where a connection's handlers are; an index is the value of "client" or of the loop variable. */
  datatype ConnPc =
    | Away             // no handler runs, no slot is used
    | Scanning(i: nat) // connect handler, locked, about to look at slot i
    | Named(i: nat)    // locked, has stored the connection
    | Marked(i: nat)   // locked, has stored state 1
    | Linked(i: nat)   // locked, has stored the user data
    | Full             // locked, found no free slot
    | Accepted         // between the connect and the next handler
    | Greeting(i: nat) // ready handler, about to check its asserts and store state 2
    | Open             // data frames may arrive
    | Closing(i: nat)  // close handler, about to check its asserts and take the lock
    | Checking(i: nat) // locked, about to test for state 3
    | Waiting(i: nat)  // unlocked, asleep
    | Zeroed(i: nat)   // locked, has stored state 0
    | Cleared          // locked, has stored NULL

  /** Where an informer is; c is the connection in the slot when state 3 was entered. */
  datatype InformPc =
    | Resting
    | Aiming(i: nat)
    | Looking(i: nat)                                      // locked
    | Skipped(i: nat)                                      // locked, nothing to do
    | Taken(i: nat, c: Option<Conn>)                       // locked, has stored state 3
    | Sending(i: nat, c: Option<Conn>)                     // unlocked, about to read the connection
    | Writing(i: nat, c: Option<Conn>, to: Option<Conn>)   // unlocked, inside mg_websocket_write
    | Returning(i: nat, c: Option<Conn>)                   // unlocked, the write is done
    | Putting(i: nat, c: Option<Conn>)                     // locked, about to store state 2
    | Restored(i: nat)                                     // locked, has stored state 2

  datatype State = State(slots: seq<Slot>, user: map<Conn, nat>, lock: Holder,
                         conns: map<Conn, ConnPc>, informers: seq<InformPc>)

  function Pc(s: State, c: Conn): ConnPc {
    if c in s.conns then s.conns[c] else Away
  }

  predicate Initial(s: State) {
    && (forall i :: 0 <= i < |s.slots| ==> s.slots[i] == Slot(None, 0))
    && s.lock == Free && s.conns == map[] && s.user == map[]
    && forall t :: 0 <= t < |s.informers| ==> s.informers[t] == Resting
  }

  // ----- the steps

  /** Events from outside, and the next statement of a running handler. */
  datatype Step =
    | StartConnect(c: Conn)
    | StartReady(c: Conn)
    | DataFrame(c: Conn)
    | StartClose(c: Conn)
    | StartInform(t: nat)
    | Continue(c: Conn)
    | InformOn(t: nat)

  predicate ConnLocks(pc: ConnPc) {
    pc.Scanning? || pc.Named? || pc.Marked? || pc.Linked? || pc.Full? || pc.Checking? || pc.Zeroed? || pc.Cleared?
  }

  predicate InformLocks(pc: InformPc) {
    pc.Looking? || pc.Skipped? || pc.Taken? || pc.Putting? || pc.Restored?
  }

  predicate Enabled(s: State, step: Step) {
    match step
    case StartConnect(c) => Pc(s, c).Away? && s.lock.Free?
    case StartReady(c) => Pc(s, c).Accepted? && c in s.user
    case DataFrame(c) => Pc(s, c).Open?
    case StartClose(c) => (Pc(s, c).Accepted? || Pc(s, c).Open?) && c in s.user
    case StartInform(t) => t < |s.informers| && s.informers[t].Resting?
    case Continue(c) =>
      var pc := Pc(s, c);
      && !pc.Away? && !pc.Accepted? && !pc.Open?
      && (pc.Closing? || pc.Waiting? ==> s.lock.Free?)
      && (pc.Named? || pc.Marked? || pc.Greeting? || pc.Checking? || pc.Zeroed? ==> pc.i < |s.slots|)
    case InformOn(t) =>
      && t < |s.informers|
      && var pc := s.informers[t];
      && !pc.Resting?
      && ((pc.Aiming? && pc.i < |s.slots|) || pc.Returning? ==> s.lock.Free?)
      && (pc.Looking? || pc.Sending? || pc.Putting? ==> pc.i < |s.slots|)
  }

  function Goto(s: State, c: Conn, pc: ConnPc): State { s.(conns := s.conns[c := pc]) }

  function SetState(s: State, i: nat, v: int): State
    requires i < |s.slots|
  {
    s.(slots := s.slots[i := s.slots[i].(state := v)])
  }

  function SetConn(s: State, i: nat, v: Option<Conn>): State
    requires i < |s.slots|
  {
    s.(slots := s.slots[i := s.slots[i].(conn := v)])
  }

  function Unlock(s: State): State { s.(lock := Free) }

  function Perform(s: State, step: Step): State
    requires Enabled(s, step)
  {
    match step
    case StartConnect(c) => Goto(s, c, Scanning(0)).(lock := ByConn(c))
    case StartReady(c) => Goto(s, c, Greeting(s.user[c]))
    case DataFrame(c) => s
    case StartClose(c) => Goto(s, c, Closing(s.user[c]))
    case StartInform(t) => s.(informers := s.informers[t := Aiming(0)])
    case Continue(c) => PerformConn(s, c)
    case InformOn(t) => PerformInform(s, t)
  }

  function PerformConn(s: State, c: Conn): State
    requires Enabled(s, Continue(c))
  {
    match Pc(s, c)
    case Scanning(i) =>
      if i >= |s.slots| then Goto(s, c, Full)
      else if s.slots[i].conn.None? then Goto(SetConn(s, i, Some(c)), c, Named(i))
      else Goto(s, c, Scanning(i + 1))
    case Named(i) => Goto(SetState(s, i, 1), c, Marked(i))
    case Marked(i) => Goto(s.(user := s.user[c := i]), c, Linked(i))
    case Linked(_) => Goto(Unlock(s), c, Accepted)
    case Full => Goto(Unlock(s), c, Away)
    case Greeting(i) => Goto(SetState(s, i, 2), c, Open)
    case Closing(i) => Goto(s, c, Checking(i)).(lock := ByConn(c))
    case Waiting(i) => Goto(s, c, Checking(i)).(lock := ByConn(c))
    case Checking(i) =>
      if s.slots[i].state == 3 then Goto(Unlock(s), c, Waiting(i)) else Goto(SetState(s, i, 0), c, Zeroed(i))
    case Zeroed(i) => Goto(SetConn(s, i, None), c, Cleared)
    case Cleared => Goto(Unlock(s), c, Away)
  }

  function PerformInform(s: State, t: nat): State
    requires Enabled(s, InformOn(t))
  {
    match s.informers[t]
    case Aiming(i) =>
      if i < |s.slots| then s.(informers := s.informers[t := Looking(i)], lock := ByInformer(t))
      else s.(informers := s.informers[t := Resting])
    case Looking(i) =>
      if s.slots[i].state == 2 then
        SetState(s, i, 3).(informers := s.informers[t := Taken(i, s.slots[i].conn)])
      else s.(informers := s.informers[t := Skipped(i)])
    case Skipped(i) => Unlock(s).(informers := s.informers[t := Aiming(i + 1)])
    case Taken(i, c) => Unlock(s).(informers := s.informers[t := Sending(i, c)])
    case Sending(i, c) => s.(informers := s.informers[t := Writing(i, c, s.slots[i].conn)])
    case Writing(i, c, _) => s.(informers := s.informers[t := Returning(i, c)])
    case Returning(i, c) => s.(informers := s.informers[t := Putting(i, c)], lock := ByInformer(t))
    case Putting(i, c) => SetState(s, i, 2).(informers := s.informers[t := Restored(i)])
    case Restored(i) => Unlock(s).(informers := s.informers[t := Aiming(i + 1)])
  }

  // ----- the invariant

  /** The slot a connection holds. */
  function SlotOf(s: State, c: Conn): Option<nat> {
    var pc := Pc(s, c);
    if pc.Accepted? || pc.Open? then (if c in s.user then Some(s.user[c]) else None)
    else if pc.Away? || pc.Scanning? || pc.Full? || pc.Cleared? then None
    else Some(pc.i)
  }

  /** The states of its slot that fit where the handlers are. */
  predicate Fits(pc: ConnPc, state: int) {
    match pc
    case Named(_) => state == 0
    case Marked(_) => state == 1
    case Linked(_) => state == 1
    case Accepted => state == 1
    case Greeting(_) => state == 1
    case Open => state == 2 || state == 3
    case Zeroed(_) => state == 0
    case _ => 1 <= state <= 3
  }

  predicate ConnOk(s: State, c: Conn) {
    var pc := Pc(s, c);
    && (ConnLocks(pc) <==> s.lock == ByConn(c))
    && (pc.Accepted? || pc.Open? ==> c in s.user)
    && (SlotOf(s, c).Some? ==>
          var i := SlotOf(s, c).value;
          && i < |s.slots| && s.slots[i].conn == Some(c) && Fits(pc, s.slots[i].state)
          && (pc.Named? || pc.Marked? || (c in s.user && s.user[c] == i)))
  }

  /** Informer t is between entering state 3 and leaving it, at slot i. */
  predicate Inside(pc: InformPc, i: nat) {
    (pc.Taken? || pc.Sending? || pc.Writing? || pc.Returning? || pc.Putting?) && pc.i == i
  }

  predicate SlotOk(s: State, i: nat)
    requires i < |s.slots|
  {
    var slot := s.slots[i];
    && 0 <= slot.state <= 3
    && (if slot.conn.Some? then SlotOf(s, slot.conn.value) == Some(i) else slot.state == 0)
    && (slot.state == 3 ==> exists t :: 0 <= t < |s.informers| && Inside(s.informers[t], i))
  }

  predicate InformOk(s: State, t: nat)
    requires t < |s.informers|
  {
    var pc := s.informers[t];
    && (InformLocks(pc) <==> s.lock == ByInformer(t))
    && (!pc.Resting? && !pc.Aiming? ==> pc.i < |s.slots|)
    && (!pc.Resting? && Inside(pc, pc.i) ==> pc.c.Some? && s.slots[pc.i] == Slot(pc.c, 3))
    && (pc.Writing? ==> pc.to == pc.c)
  }

  predicate Exclusive(s: State) {
    forall t, u :: 0 <= t < u < |s.informers| && !s.informers[t].Resting? && Inside(s.informers[t], s.informers[t].i) ==>
      !Inside(s.informers[u], s.informers[t].i)
  }

  ghost predicate Inv(s: State) {
    && (forall c :: ConnOk(s, c))
    && (forall i :: 0 <= i < |s.slots| ==> SlotOk(s, i))
    && (forall t :: 0 <= t < |s.informers| ==> InformOk(s, t))
    && Exclusive(s)
    && (s.lock.ByInformer? ==> s.lock.t < |s.informers|)
  }

  // What the invariant says of one connection, one slot, one informer.

  lemma ConnIs(s: State, c: Conn)
    requires Inv(s)
    ensures ConnOk(s, c)
  {
  }

  lemma SlotIs(s: State, i: nat)
    requires Inv(s) && i < |s.slots|
    ensures SlotOk(s, i)
  {
  }

  lemma InformIs(s: State, t: nat)
    requires Inv(s) && t < |s.informers|
    ensures InformOk(s, t)
  {
  }

  lemma HolderIs(s: State)
    requires Inv(s)
    ensures s.lock.ByInformer? ==> s.lock.t < |s.informers|
    ensures Exclusive(s)
  {
  }

  lemma InitialInv(s: State)
    requires Initial(s)
    ensures Inv(s)
  {
  }

  // ----- every step keeps it

  lemma ConnStepKeepsConns(s: State, c: Conn, d: Conn)
    requires Inv(s) && Enabled(s, Continue(c))
    ensures ConnOk(PerformConn(s, c), d)
  {
    hide Inv;
    var s' := PerformConn(s, c);
    var pc := Pc(s, c);
    ConnIs(s, c);
    ConnIs(s, d);
    if pc.Scanning? && pc.i < |s.slots| { SlotIs(s, pc.i); }
    if d != c { assert Pc(s', d) == Pc(s, d) && SlotOf(s', d) == SlotOf(s, d); }
  }

  lemma ConnStepKeepsSlots(s: State, c: Conn, i: nat)
    requires Inv(s) && Enabled(s, Continue(c)) && i < |s.slots|
    ensures SlotOk(PerformConn(s, c), i)
  {
    hide Inv;
    var s' := PerformConn(s, c);
    ConnIs(s, c);
    SlotIs(s, i);
    if s'.slots[i].conn.Some? && s'.slots[i].conn.value != c {
      var d := s'.slots[i].conn.value;
      assert Pc(s', d) == Pc(s, d) && SlotOf(s', d) == SlotOf(s, d);
    }
  }

  lemma ConnStepKeeps(s: State, c: Conn)
    requires Inv(s) && Enabled(s, Continue(c))
    ensures Inv(PerformConn(s, c))
  {
    var s' := PerformConn(s, c);
    forall d ensures ConnOk(s', d) { ConnStepKeepsConns(s, c, d); }
    forall i | 0 <= i < |s'.slots| ensures SlotOk(s', i) { ConnStepKeepsSlots(s, c, i); }
    assert ConnOk(s, c);
    forall t | 0 <= t < |s'.informers| ensures InformOk(s', t) {
      assert InformOk(s, t);
    }
  }

  /** Starting a handler changes no slot. */
  lemma StartKeeps(s: State, step: Step)
    requires Inv(s) && Enabled(s, step) && !step.Continue? && !step.InformOn?
    ensures Inv(Perform(s, step))
  {
    var s' := Perform(s, step);
    forall d ensures ConnOk(s', d) { StartKeepsConns(s, step, d); }
    forall i | 0 <= i < |s'.slots| ensures SlotOk(s', i) { StartKeepsSlots(s, step, i); }
    hide ConnOk, SlotOk;
    forall t | 0 <= t < |s'.informers| ensures InformOk(s', t) {
      InformIs(s, t);
    }
  }

  lemma StartKeepsConns(s: State, step: Step, d: Conn)
    requires Inv(s) && Enabled(s, step) && !step.Continue? && !step.InformOn?
    ensures ConnOk(Perform(s, step), d)
  {
    hide Inv;
    var s' := Perform(s, step);
    ConnIs(s, d);
    if Pc(s', d) == Pc(s, d) { assert SlotOf(s', d) == SlotOf(s, d); }
  }

  lemma StartKeepsSlots(s: State, step: Step, i: nat)
    requires Inv(s) && Enabled(s, step) && !step.Continue? && !step.InformOn? && i < |s.slots|
    ensures SlotOk(Perform(s, step), i)
  {
    hide Inv;
    var s' := Perform(s, step);
    SlotIs(s, i);
    if s.slots[i].conn.Some? {
      var d := s.slots[i].conn.value;
      ConnIs(s, d);
      assert SlotOf(s', d) == SlotOf(s, d);
    }
    if s.slots[i].state == 3 {
      var u :| 0 <= u < |s.informers| && Inside(s.informers[u], i);
      assert Inside(s'.informers[u], i);
    }
  }

  lemma InformStepKeepsConns(s: State, t: nat, d: Conn)
    requires Inv(s) && Enabled(s, InformOn(t))
    ensures ConnOk(PerformInform(s, t), d)
  {
    hide Inv;
    var s' := PerformInform(s, t);
    InformIs(s, t);
    ConnIs(s, d);
    assert Pc(s', d) == Pc(s, d) && SlotOf(s', d) == SlotOf(s, d);
  }

  lemma InformStepKeepsSlots(s: State, t: nat, i: nat)
    requires Inv(s) && Enabled(s, InformOn(t)) && i < |s.slots|
    ensures SlotOk(PerformInform(s, t), i)
  {
    hide Inv;
    var s' := PerformInform(s, t);
    InformIs(s, t);
    SlotIs(s, i);
    if s'.slots[i].conn.Some? {
      var d := s'.slots[i].conn.value;
      assert Pc(s', d) == Pc(s, d) && SlotOf(s', d) == SlotOf(s, d);
    }
    if s'.slots[i].state == 3 {
      if s.slots[i].state == 3 {
        var u :| 0 <= u < |s.informers| && Inside(s.informers[u], i);
        assert Inside(s'.informers[u], i);
      } else {
        assert Inside(s'.informers[t], i);
      }
    }
  }

  lemma InformStepKeepsInforms(s: State, t: nat, u: nat)
    requires Inv(s) && Enabled(s, InformOn(t)) && u < |s.informers|
    ensures InformOk(PerformInform(s, t), u)
  {
    hide Inv;
    HolderIs(s);
    InformIs(s, t);
    InformIs(s, u);
    var pc := s.informers[t];
    if pc.Looking? || pc.Sending? { SlotIs(s, pc.i); }
    if t != u { assert !(t < u) || !(u < t); }
  }

  lemma InformStepKeeps(s: State, t: nat)
    requires Inv(s) && Enabled(s, InformOn(t))
    ensures Inv(PerformInform(s, t))
  {
    hide ConnOk, SlotOk, InformOk, Exclusive;
    var s' := PerformInform(s, t);
    forall d ensures ConnOk(s', d) { InformStepKeepsConns(s, t, d); }
    forall i | 0 <= i < |s'.slots| ensures SlotOk(s', i) { InformStepKeepsSlots(s, t, i); }
    forall u | 0 <= u < |s'.informers| ensures InformOk(s', u) { InformStepKeepsInforms(s, t, u); }
    ExclusiveKept(s, t);
  }

  /** State 3 is entered from state 2 only, when nobody is inside. */
  lemma AloneInside(s: State, t: nat, x: nat, i: nat)
    requires Inv(s) && Enabled(s, InformOn(t)) && x < |s.informers| && x != t
    requires Inside(PerformInform(s, t).informers[t], i)
    ensures !Inside(s.informers[x], i)
  {
    hide Inv;
    HolderIs(s);
    InformIs(s, x);
    if t < x { assert !Inside(s.informers[t], i) || !Inside(s.informers[x], i); }
  }

  lemma OthersStay(s: State, t: nat)
    requires Enabled(s, InformOn(t))
    ensures var r := PerformInform(s, t).informers;
      |r| == |s.informers| && forall x :: 0 <= x < |r| && x != t ==> r[x] == s.informers[x]
  {
  }

  lemma ExclusiveKept(s: State, t: nat)
    requires Inv(s) && Enabled(s, InformOn(t))
    ensures Exclusive(PerformInform(s, t))
  {
    hide Inv, PerformInform, Inside;
    HolderIs(s);
    OthersStay(s, t);
    var r := PerformInform(s, t).informers;
    forall u, v | 0 <= u < v < |r| && !r[u].Resting? && Inside(r[u], r[u].i) ensures !Inside(r[v], r[u].i) {
      if u == t { AloneInside(s, t, v, r[u].i); }
      if v == t && Inside(r[v], r[u].i) { AloneInside(s, t, u, r[u].i); }
    }
  }

  lemma StepKeeps(s: State, step: Step)
    requires Inv(s) && Enabled(s, step)
    ensures Inv(Perform(s, step))
  {
    match step
    case Continue(c) => ConnStepKeeps(s, c);
    case InformOn(t) => InformStepKeeps(s, t);
    case _ => StartKeeps(s, step);
  }

  // ----- runs

  function Run(s: State, steps: seq<Step>): Option<State>
    decreases |steps|
  {
    if steps == [] then Some(s)
    else if Enabled(s, steps[0]) then Run(Perform(s, steps[0]), steps[1..])
    else None
  }

  lemma {:induction false} RunKeeps(s: State, steps: seq<Step>)
    requires Inv(s) && Run(s, steps).Some?
    ensures Inv(Run(s, steps).value)
    decreases |steps|
  {
    if steps != [] {
      StepKeeps(s, steps[0]);
      RunKeeps(Perform(s, steps[0]), steps[1..]);
    }
  }

  /** The conditions of the ASSERTs that a connection's handlers are about to evaluate. */
  predicate AssertsHold(s: State, c: Conn) {
    match Pc(s, c)
    case Greeting(i) => i < |s.slots| && s.slots[i] == Slot(Some(c), 1)
    case Closing(i) => i < |s.slots| && s.slots[i].conn == Some(c) && s.slots[i].state >= 1
    case Open => c in s.user && s.user[c] < |s.slots| && s.slots[s.user[c]].conn == Some(c) && s.slots[s.user[c]].state >= 1
    case _ => true
  }

  /** A handler is between the two stores that take or free the slot. */
  predicate BetweenStores(s: State, i: nat) {
    s.lock.ByConn? && (Pc(s, s.lock.c) == Named(i) || Pc(s, s.lock.c) == Zeroed(i))
  }

  /** Informer t is inside the write for slot i, or about to enter or just out of it. */
  predicate InsideSlot(s: State, t: nat, i: nat) {
    t < |s.informers| && Inside(s.informers[t], i)
  }

  /**
   * Safety over every interleaving from the empty table: slots are used consistently, no connection
   * holds two, state 3 is the mark of exactly one informer in its unlocked write, and every ASSERT holds.
   */
  lemma Safety(s0: State, steps: seq<Step>)
    requires Initial(s0) && Run(s0, steps).Some?
    ensures var s := Run(s0, steps).value;
      && (forall c :: AssertsHold(s, c))
      && (forall i :: 0 <= i < |s.slots| && !BetweenStores(s, i) ==> (s.slots[i].conn.Some? <==> s.slots[i].state != 0))
      && (forall i, j :: 0 <= i < j < |s.slots| && s.slots[i].conn.Some? ==> s.slots[i].conn != s.slots[j].conn)
      && (forall i :: 0 <= i < |s.slots| ==> (s.slots[i].state == 3 <==> exists t :: InsideSlot(s, t, i)))
      && (forall i, t, u :: InsideSlot(s, t, i) && InsideSlot(s, u, i) ==> t == u)
  {
    InitialInv(s0);
    RunKeeps(s0, steps);
    var s := Run(s0, steps).value;
    forall c ensures AssertsHold(s, c) { assert ConnOk(s, c); }
    forall i | 0 <= i < |s.slots| && !BetweenStores(s, i)
      ensures s.slots[i].conn.Some? <==> s.slots[i].state != 0
    {
      assert SlotOk(s, i);
      if s.slots[i].conn.Some? { assert ConnOk(s, s.slots[i].conn.value); }
    }
    forall i, j | 0 <= i < j < |s.slots| && s.slots[i].conn.Some? ensures s.slots[i].conn != s.slots[j].conn {
      assert SlotOk(s, i) && SlotOk(s, j);
    }
    forall i | 0 <= i < |s.slots| ensures s.slots[i].state == 3 <==> exists t :: InsideSlot(s, t, i) {
      assert SlotOk(s, i);
      if s.slots[i].state == 3 {
        var t :| 0 <= t < |s.informers| && Inside(s.informers[t], i);
        assert InsideSlot(s, t, i);
      }
      if t :| InsideSlot(s, t, i) { assert InformOk(s, t); }
    }
    forall i, t, u | InsideSlot(s, t, i) && InsideSlot(s, u, i) ensures t == u {
      assert !(t < u) && !(u < t);
    }
  }

  /**
   * The write goes to the connection seen when state 3 was entered; until the informer has put
   * state 2 back, that connection still owns the slot and its close handler has not freed it.
   */
  lemma WriteTarget(s0: State, steps: seq<Step>, t: nat)
    requires Initial(s0) && Run(s0, steps).Some? && t < |Run(s0, steps).value.informers|
    ensures var s := Run(s0, steps).value;
      var pc := s.informers[t];
      && (pc.Writing? ==> pc.to == pc.c)
      && (pc.Sending? || pc.Writing? || pc.Returning? || pc.Putting? ==>
            && pc.c.Some? && pc.i < |s.slots| && s.slots[pc.i] == Slot(pc.c, 3)
            && var owner := Pc(s, pc.c.value);
               owner.Open? || owner == Closing(pc.i) || owner == Checking(pc.i) || owner == Waiting(pc.i))
  {
    InitialInv(s0);
    RunKeeps(s0, steps);
    var s := Run(s0, steps).value;
    assert InformOk(s, t);
    var pc := s.informers[t];
    if pc.Sending? || pc.Writing? || pc.Returning? || pc.Putting? {
      assert SlotOk(s, pc.i) && ConnOk(s, pc.c.value);
    }
  }

  /** Some handler or informer is in the middle of its work. */
  ghost predicate Busy(s: State) {
    || (exists c :: !Pc(s, c).Away? && !Pc(s, c).Accepted? && !Pc(s, c).Open?)
    || (exists t :: 0 <= t < |s.informers| && !s.informers[t].Resting?)
  }

  /** No deadlock: while anything is in the middle of its work, something can take its next step. */
  lemma Progress(s0: State, steps: seq<Step>)
    requires Initial(s0) && Run(s0, steps).Some? && Busy(Run(s0, steps).value)
    ensures var s := Run(s0, steps).value;
      (exists c :: Enabled(s, Continue(c))) || (exists t :: Enabled(s, InformOn(t)))
  {
    InitialInv(s0);
    RunKeeps(s0, steps);
    var s := Run(s0, steps).value;
    match s.lock
    case ByConn(c) =>
      assert ConnOk(s, c);
      assert Enabled(s, Continue(c));
    case ByInformer(t) =>
      assert InformOk(s, t);
      assert Enabled(s, InformOn(t));
    case Free =>
      if c :| !Pc(s, c).Away? && !Pc(s, c).Accepted? && !Pc(s, c).Open? {
        assert ConnOk(s, c);
        assert Enabled(s, Continue(c));
      } else {
        var t: nat :| 0 <= t < |s.informers| && !s.informers[t].Resting?;
        assert InformOk(s, t);
        assert Enabled(s, InformOn(t));
      }
  }

  // ----- a waiting close handler can always finish

  /** What informer t still has to do inside its slot. */
  function InsideLeft(pc: InformPc): nat {
    match pc
    case Taken(_, _) => 5
    case Sending(_, _) => 4
    case Writing(_, _, _) => 3
    case Returning(_, _) => 2
    case Putting(_, _) => 1
    case _ => 0
  }

  /** What must happen before slot i is out of state 3 for good. */
  ghost function BlockedLeft(s: State, i: nat): nat {
    if exists t: nat :: InsideSlot(s, t, i) then
      var t: nat :| InsideSlot(s, t, i);
      InsideLeft(s.informers[t])
    else if s.lock.ByInformer? && s.lock.t < |s.informers| && s.informers[s.lock.t] == Looking(i) then 6
    else 0
  }

  /** Steps left until the lock is free. */
  function LockLeft(s: State): nat {
    match s.lock
    case Free => 0
    case ByConn(c) =>
      (match Pc(s, c)
       case Scanning(i) => if i < |s.slots| then |s.slots| - i + 5 else 5
       case Named(_) => 3
       case Marked(_) => 2
       case Checking(_) => 4
       case Zeroed(_) => 2
       case _ => 1)
    case ByInformer(t) =>
      if t >= |s.informers| then 0
      else match s.informers[t]
        case Looking(_) => 2
        case Putting(_, _) => 2
        case _ => 1
  }

  function CloseLeft(pc: ConnPc): nat {
    match pc
    case Cleared => 1
    case Zeroed(_) => 2
    case Checking(_) => 3
    case _ => 4
  }

  predicate InClose(pc: ConnPc) { pc.Closing? || pc.Waiting? || pc.Checking? || pc.Zeroed? || pc.Cleared? }

  lemma BlockedBy(s: State, t: nat, i: nat)
    requires Inv(s) && InsideSlot(s, t, i)
    ensures BlockedLeft(s, i) == InsideLeft(s.informers[t]) > 0
  {
    forall u: nat | InsideSlot(s, u, i) ensures u == t {
      assert !(t < u) && !(u < t);
    }
  }

  /** While the slot is blocked it does not matter how far the close handler is. */
  ghost function HandlerLeft(s: State, c: Conn, i: nat): nat {
    if BlockedLeft(s, i) > 0 then 0 else CloseLeft(Pc(s, c))
  }

  /** The handler of c is closing slot i and has not yet stored NULL. */
  ghost predicate ClosingSlot(s: State, c: Conn, i: nat) {
    Inv(s) && i < |s.slots| && InClose(Pc(s, c)) && !Pc(s, c).Cleared? && Pc(s, c).i == i
  }

  lemma Unblocked(s: State, i: nat)
    requires Inv(s) && i < |s.slots| && s.slots[i].state != 3
    requires !(s.lock.ByInformer? && s.informers[s.lock.t] == Looking(i))
    ensures BlockedLeft(s, i) == 0
  {
    forall t: nat | t < |s.informers| ensures !InsideSlot(s, t, i) { assert InformOk(s, t); }
  }

  lemma BlockedByLooker(s: State, t: nat, i: nat)
    requires t < |s.informers| && s.lock == ByInformer(t) && s.informers[t] == Looking(i)
    requires forall u: nat :: !InsideSlot(s, u, i)
    ensures BlockedLeft(s, i) == 6
  {
  }

  /** A step of a connection other than c, or of c itself, inside the lock. */
  lemma ConnNextDecreases(s: State, c: Conn, i: nat, d: Conn)
    requires ClosingSlot(s, c, i) && s.lock == ByConn(d)
    ensures Enabled(s, Continue(d))
    ensures var s' := PerformConn(s, d);
      && (d == c ==> Pc(s', c).Cleared? || InClose(Pc(s', c)))
      && (Pc(s', c).Cleared? || (ClosingSlot(s', c, i) && BlockedLeft(s', i) == BlockedLeft(s, i)
            && (HandlerLeft(s', c, i) < HandlerLeft(s, c, i)
                || (HandlerLeft(s', c, i) == HandlerLeft(s, c, i) && LockLeft(s') < LockLeft(s)))))
  {
    hide Inv, BlockedLeft, InsideLeft;
    ConnIs(s, d);
    ConnIs(s, c);
    SlotIs(s, i);
    ConnStepKeeps(s, d);
    var s' := PerformConn(s, d);
    assert s'.informers == s.informers;
    if s.slots[i].state == 3 {
      var t :| 0 <= t < |s.informers| && Inside(s.informers[t], i);
      BlockedBy(s, t, i);
      BlockedBy(s', t, i);
    } else {
      Unblocked(s, i);
      Unblocked(s', i);
    }
  }

  /** A step of an informer that holds the lock, or that is inside slot i while the lock is free. */
  lemma InformNextDecreases(s: State, c: Conn, i: nat, t: nat)
    requires ClosingSlot(s, c, i) && t < |s.informers|
    requires s.lock == ByInformer(t) || (s.lock.Free? && InsideSlot(s, t, i))
    ensures Enabled(s, InformOn(t))
    ensures var s' := PerformInform(s, t);
      && ClosingSlot(s', c, i) && Pc(s', c) == Pc(s, c)
      && (BlockedLeft(s', i) < BlockedLeft(s, i)
          || (BlockedLeft(s', i) == BlockedLeft(s, i) && LockLeft(s') < LockLeft(s)))
  {
    hide Inv, BlockedLeft;
    InformIs(s, t);
    ConnIs(s, c);
    SlotIs(s, i);
    InformStepKeeps(s, t);
    var s' := PerformInform(s, t);
    assert Pc(s', c) == Pc(s, c);
    if InsideSlot(s, t, i) {
      BlockedBy(s, t, i);
      if InsideSlot(s', t, i) { BlockedBy(s', t, i); } else { Unblocked(s', i); }
    } else if s.informers[t] == Looking(i) {
      forall u: nat | u < |s.informers| ensures InsideSlot(s, u, i) ==> s.slots[i].state == 3 { InformIs(s, u); }
      if s.slots[i].state == 3 {
        var u :| 0 <= u < |s.informers| && Inside(s.informers[u], i);
        BlockedBy(s, u, i);
        BlockedBy(s', u, i);
      } else if InsideSlot(s', t, i) {
        BlockedByLooker(s, t, i);
        BlockedBy(s', t, i);
      } else {
        BlockedByLooker(s, t, i);
        Unblocked(s', i);
      }
    } else if s.slots[i].state == 3 {
      var u :| 0 <= u < |s.informers| && Inside(s.informers[u], i);
      BlockedBy(s, u, i);
      BlockedBy(s', u, i);
    } else {
      Unblocked(s, i);
      Unblocked(s', i);
    }
  }

  /** With the lock free and nobody inside the slot, the handler takes the lock. */
  lemma TakeLockDecreases(s: State, c: Conn, i: nat)
    requires ClosingSlot(s, c, i) && s.lock.Free? && s.slots[i].state != 3
    ensures Enabled(s, Continue(c))
    ensures var s' := PerformConn(s, c);
      && ClosingSlot(s', c, i) && BlockedLeft(s', i) == BlockedLeft(s, i)
      && HandlerLeft(s', c, i) < HandlerLeft(s, c, i)
  {
    assert ConnOk(s, c);
    ConnStepKeeps(s, c);
    Unblocked(s, i);
    Unblocked(PerformConn(s, c), i);
  }

  lemma TableSize(s: State, step: Step)
    requires Enabled(s, step)
    ensures |Perform(s, step).slots| == |s.slots|
  {
  }

  /** The step that stores NULL leaves the slot free. */
  lemma FreedAt(s: State, c: Conn, i: nat)
    requires ClosingSlot(s, c, i) && Enabled(s, Continue(c)) && Pc(PerformConn(s, c), c).Cleared?
    ensures |PerformConn(s, c).slots| == |s.slots| && PerformConn(s, c).slots[i] == Slot(None, 0)
  {
    hide Inv;
    ConnIs(s, c);
  }

  lemma {:induction false} CloseFinishes(s: State, c: Conn, i: nat) returns (steps: seq<Step>)
    requires ClosingSlot(s, c, i)
    ensures Run(s, steps).Some? && Pc(Run(s, steps).value, c).Away?
    ensures |Run(s, steps).value.slots| == |s.slots| && Run(s, steps).value.slots[i] == Slot(None, 0)
    decreases BlockedLeft(s, i), HandlerLeft(s, c, i), LockLeft(s)
  {
    hide Inv, BlockedLeft, LockLeft, PerformInform;
    HolderIs(s);
    var step: Step;
    if s.lock.ByConn? {
      step := Continue(s.lock.c);
      ConnNextDecreases(s, c, i, s.lock.c);
    } else if s.lock.ByInformer? {
      step := InformOn(s.lock.t);
      InformNextDecreases(s, c, i, s.lock.t);
    } else if s.slots[i].state == 3 {
      SlotIs(s, i);
      var t :| 0 <= t < |s.informers| && Inside(s.informers[t], i);
      step := InformOn(t);
      InformNextDecreases(s, c, i, t);
    } else {
      step := Continue(c);
      TakeLockDecreases(s, c, i);
    }
    var s' := Perform(s, step);
    TableSize(s, step);
    if Pc(s', c).Cleared? {
      steps := [step, Continue(c)];
      assert steps[1..] == [Continue(c)] && steps[1..][1..] == [];
      assert Enabled(s', Continue(c));
      FreedAt(s, c, i);
      assert Run(Perform(s', Continue(c)), []) == Some(Perform(s', Continue(c)));
      assert Run(s', [Continue(c)]) == Run(Perform(s', Continue(c)), []);
    } else {
      var rest := CloseFinishes(s', c, i);
      steps := [step] + rest;
      assert steps[1..] == rest;
    }
  }

  /** The handler of c has ended, and the slot that it had not yet emptied is free. */
  predicate Finishes(s: State, more: seq<Step>, c: Conn) {
    && Run(s, more).Some? && Pc(Run(s, more).value, c).Away?
    && (InClose(Pc(s, c)) && !Pc(s, c).Cleared? ==>
          var r, i := Run(s, more).value.slots, Pc(s, c).i; i < |r| && r[i] == Slot(None, 0))
  }

  /**
   * A close handler never waits in vain: from every reachable state the threads can be scheduled so
   * that it returns, with its slot freed for the next connection.
   */
  lemma CloseCanFinish(s0: State, steps: seq<Step>, c: Conn)
    requires Initial(s0) && Run(s0, steps).Some? && InClose(Pc(Run(s0, steps).value, c))
    ensures exists more :: Finishes(Run(s0, steps).value, more, c)
  {
    InitialInv(s0);
    RunKeeps(s0, steps);
    var s := Run(s0, steps).value;
    assert ConnOk(s, c);
    if Pc(s, c).Cleared? {
      assert Enabled(s, Continue(c));
      assert [Continue(c)][1..] == [];
      assert Run(s, [Continue(c)]) == Run(Perform(s, Continue(c)), []);
      assert Finishes(s, [Continue(c)], c);
    } else {
      var more := CloseFinishes(s, c, Pc(s, c).i);
      assert Finishes(s, more, c);
    }
  }
}
