// What each handler and the informer achieve: alone, from any reachable state, and for the connect
// handler among the steps of all others.
module SlotRuns {
  import opened Documents
  import opened Slots

  function Times(n: nat, step: Step): seq<Step> {
    if n == 0 then [] else [step] + Times(n - 1, step)
  }

  lemma RunOn(s: State, step: Step, rest: seq<Step>)
    requires Enabled(s, step)
    ensures Run(s, [step] + rest) == Run(Perform(s, step), rest)
  {
    hide Perform, Enabled;
    assert ([step] + rest)[1..] == rest;
  }

  lemma RunOne(s: State, step: Step)
    requires Enabled(s, step)
    ensures Run(s, [step]) == Some(Perform(s, step))
  {
    hide Perform, Enabled;
    assert [step] + [] == [step];
    RunOn(s, step, []);
  }

  lemma RunTwo(s: State, first: Step, second: Step)
    requires Enabled(s, first) && Enabled(Perform(s, first), second)
    ensures Run(s, [first, second]) == Some(Perform(Perform(s, first), second))
  {
    hide Perform, Enabled;
    assert [first] + [second] == [first, second];
    RunOn(s, first, [second]);
    RunOne(Perform(s, first), second);
  }

  lemma {:induction false} RunConcat(s: State, a: seq<Step>, b: seq<Step>)
    requires Run(s, a).Some?
    ensures Run(s, a + b) == Run(Run(s, a).value, b)
    decreases |a|
  {
    hide Perform, Enabled;
    if a == [] {
      assert a + b == b;
    } else {
      assert (a + b)[1..] == a[1..] + b;
      RunConcat(Perform(s, a[0]), a[1..], b);
    }
  }

  // ----- the connect handler

  /** The first slot without a connection. */
  predicate FirstFree(slots: seq<Slot>, k: nat) {
    k < |slots| && slots[k].conn.None? && forall i :: 0 <= i < k ==> slots[i].conn.Some?
  }

  predicate Occupied(slots: seq<Slot>) { forall i :: 0 <= i < |slots| ==> slots[i].conn.Some? }

  /** Slot k taken by c, the handler at its end. */
  function Seated(s: State, c: Conn, k: nat): State
    requires k < |s.slots|
  {
    State(s.slots[k := Slot(Some(c), 1)], s.user[c := k], Free, s.conns[c := Accepted], s.informers)
  }

  function TurnedAway(s: State, c: Conn): State { s.(lock := Free, conns := s.conns[c := Away]) }

  lemma Overwritten(m: map<Conn, ConnPc>, c: Conn, x: ConnPc, y: ConnPc)
    ensures m[c := x][c := y] == m[c := y]
  {
  }

  lemma TimesTwo(step: Step)
    ensures Times(2, step) == [step, step] && Times(4, step) == [step, step] + [step, step]
  {
    assert Times(0, step) == [] && Times(1, step) == [step];
    assert Times(3, step) == [step] + Times(2, step);
  }

  /** From the store of the connection to the unlock. */
  lemma SeatRun(s: State, c: Conn, k: nat)
    requires Pc(s, c) == Scanning(k) && k < |s.slots| && s.slots[k].conn.None?
    ensures Run(s, Times(4, Continue(c))) == Some(Seated(s, c, k))
  {
    hide Run;
    var a := Perform(s, Continue(c));
    var b := Perform(a, Continue(c));
    var d := Perform(b, Continue(c));
    var e := Perform(d, Continue(c));
    TimesTwo(Continue(c));
    RunTwo(s, Continue(c), Continue(c));
    RunConcat(s, [Continue(c), Continue(c)], [Continue(c), Continue(c)]);
    RunTwo(b, Continue(c), Continue(c));
    assert e.slots == s.slots[k := Slot(Some(c), 1)];
    assert e.conns == s.conns[c := Accepted];
  }

  /** From the end of the loop without a free slot to the unlock. */
  lemma TurnAwayRun(s: State, c: Conn)
    requires Pc(s, c) == Scanning(|s.slots|)
    ensures Run(s, Times(2, Continue(c))) == Some(TurnedAway(s, c))
  {
    hide Run;
    TimesTwo(Continue(c));
    RunTwo(s, Continue(c), Continue(c));
    Overwritten(s.conns, c, Full, Away);
  }

  /** The loop from slot i on. */
  lemma {:induction false} ScanRun(s: State, c: Conn, i: nat) returns (n: nat)
    requires Pc(s, c) == Scanning(i) && i <= |s.slots| && forall k :: 0 <= k < i ==> s.slots[k].conn.Some?
    ensures Occupied(s.slots) ==> Run(s, Times(n, Continue(c))) == Some(TurnedAway(s, c))
    ensures forall k: nat :: FirstFree(s.slots, k) ==> Run(s, Times(n, Continue(c))) == Some(Seated(s, c, k))
    decreases |s.slots| - i
  {
    hide Run, Perform, Enabled;
    if i == |s.slots| {
      TurnAwayRun(s, c);
      n := 2;
    } else if s.slots[i].conn.None? {
      SeatRun(s, c, i);
      n := 4;
    } else {
      Advance(s, c, i);
      var s' := Perform(s, Continue(c));
      n := ScanRun(s', c, i + 1);
      RunOn(s, Continue(c), Times(n, Continue(c)));
      Overwritten(s.conns, c, Scanning(i + 1), Accepted);
      Overwritten(s.conns, c, Scanning(i + 1), Away);
      n := n + 1;
    }
  }

  lemma Advance(s: State, c: Conn, i: nat)
    requires Pc(s, c) == Scanning(i) && i < |s.slots| && s.slots[i].conn.Some?
    ensures Enabled(s, Continue(c)) && Perform(s, Continue(c)) == s.(conns := s.conns[c := Scanning(i + 1)])
  {
  }

  /**
   * WebSocketConnectHandler alone, from any reachable state with the lock free: it ends, and takes the
   * first slot without a connection, sets it to state 1 and has the connection's user data name it; no
   * other slot changes. Without such a slot it turns the client away and changes nothing.
   */
  lemma ConnectRun(s0: State, steps: seq<Step>, c: Conn) returns (own: seq<Step>)
    requires Initial(s0) && Run(s0, steps).Some? && Enabled(Run(s0, steps).value, StartConnect(c))
    ensures own != [] && own[0] == StartConnect(c) && forall i :: 0 < i < |own| ==> own[i] == Continue(c)
    ensures var s := Run(s0, steps).value;
      && Run(s, own).Some?
      && var r := Run(s, own).value;
         && (Pc(r, c).Accepted? <==> exists k: nat :: FirstFree(s.slots, k))
         && (Pc(r, c).Accepted? || Pc(r, c).Away?)
         && (forall k: nat :: FirstFree(s.slots, k) ==>
               r.slots == s.slots[k := Slot(Some(c), 1)] && r.user == s.user[c := k])
         && (Pc(r, c).Away? ==> r.slots == s.slots && r.user == s.user)
         && r.lock.Free? && r.informers == s.informers && forall d :: d != c ==> Pc(r, d) == Pc(s, d)
  {
    hide Run;
    var s := Run(s0, steps).value;
    var s' := Perform(s, StartConnect(c));
    var n := ScanRun(s', c, 0);
    own := [StartConnect(c)] + Times(n, Continue(c));
    RunOn(s, StartConnect(c), Times(n, Continue(c)));
    TimesAre(n, Continue(c));
    FreeFrom(s.slots, 0);
  }

  lemma TimesAre(n: nat, step: Step)
    ensures |Times(n, step)| == n && forall i :: 0 <= i < n ==> Times(n, step)[i] == step
  {
  }

  lemma {:induction false} FreeFrom(slots: seq<Slot>, i: nat)
    requires i <= |slots| && forall k :: 0 <= k < i ==> slots[k].conn.Some?
    ensures Occupied(slots) || exists k: nat :: FirstFree(slots, k)
    decreases |slots| - i
  {
    if i < |slots| {
      if slots[i].conn.None? { assert FirstFree(slots, i); } else { FreeFrom(slots, i + 1); }
    }
  }

  // ----- the connect handler among the others

  /** Where the handler that started in s has got to in u: what it has seen of the slots, and what it took. */
  predicate Scanned(s: State, u: State, c: Conn) {
    && |u.slots| == |s.slots|
    && match Pc(u, c)
       case Scanning(i) =>
         && i <= |s.slots| && (forall k :: 0 <= k < |s.slots| ==> u.slots[k].conn == s.slots[k].conn)
         && forall k :: 0 <= k < i ==> s.slots[k].conn.Some?
       case Named(i) => FirstFree(s.slots, i)
       case Marked(i) => FirstFree(s.slots, i)
       case Linked(i) => FirstFree(s.slots, i) && c in u.user && u.user[c] == i
       case Full => Occupied(s.slots)
       case Accepted => c in u.user && FirstFree(s.slots, u.user[c])
       case Away => Occupied(s.slots)
       case _ => false
  }

  predicate Starts(step: Step, c: Conn) {
    step == StartConnect(c) || step == StartReady(c) || step == StartClose(c)
  }

  /** The steps of the others store no connection while the connect handler has the lock. */
  lemma ScannedKept(s: State, u: State, c: Conn, step: Step)
    requires Inv(u) && Enabled(u, step) && Scanned(s, u, c) && !Starts(step, c)
    ensures Scanned(s, Perform(u, step), c)
  {
    match step
    case Continue(d) => if d == c { OwnStepScans(s, u, c); } else { OtherConnScans(s, u, c, d); }
    case InformOn(t) => InformerScans(s, u, c, t);
    case _ =>
  }

  lemma OwnStepScans(s: State, u: State, c: Conn)
    requires Enabled(u, Continue(c)) && Scanned(s, u, c)
    ensures Scanned(s, PerformConn(u, c), c)
  {
    if Pc(u, c).Scanning? && Pc(u, c).i < |s.slots| && s.slots[Pc(u, c).i].conn.None? {
      assert FirstFree(s.slots, Pc(u, c).i);
    }
  }

  lemma OtherConnScans(s: State, u: State, c: Conn, d: Conn)
    requires Inv(u) && Enabled(u, Continue(d)) && Scanned(s, u, c) && d != c
    ensures Scanned(s, PerformConn(u, d), c)
  {
    hide Inv;
    ConnIs(u, c);
    ConnIs(u, d);
    assert Pc(PerformConn(u, d), c) == Pc(u, c);
  }

  lemma InformerScans(s: State, u: State, c: Conn, t: nat)
    requires Enabled(u, InformOn(t)) && Scanned(s, u, c)
    ensures Scanned(s, PerformInform(u, t), c)
  {
    assert Pc(PerformInform(u, t), c) == Pc(u, c);
  }

  lemma {:induction false} ScannedThroughout(s: State, u: State, c: Conn, steps: seq<Step>)
    requires Inv(u) && Scanned(s, u, c) && Run(u, steps).Some? && forall i :: 0 <= i < |steps| ==> !Starts(steps[i], c)
    ensures Scanned(s, Run(u, steps).value, c)
    decreases |steps|
  {
    hide Inv, Scanned, Perform, Enabled;
    if steps != [] {
      ScannedKept(s, u, c, steps[0]);
      StepKeeps(u, steps[0]);
      ScannedThroughout(s, Perform(u, steps[0]), c, steps[1..]);
    }
  }

  /**
   * However the other handlers and the informers run meanwhile, a connect handler that has ended has
   * accepted the client if and only if some slot had no connection when it began, and then the client
   * holds the first of these.
   */
  lemma ConnectDecides(s0: State, before: seq<Step>, c: Conn, steps: seq<Step>)
    requires Initial(s0) && Run(s0, before).Some? && Enabled(Run(s0, before).value, StartConnect(c))
    requires var s := Run(s0, before).value;
      Run(Perform(s, StartConnect(c)), steps).Some? && forall i :: 0 <= i < |steps| ==> !Starts(steps[i], c)
    ensures var s := Run(s0, before).value;
      var r := Run(Perform(s, StartConnect(c)), steps).value;
      && (Pc(r, c).Accepted? ==>
            && c in r.user && FirstFree(s.slots, r.user[c])
            && r.user[c] < |r.slots| && r.slots[r.user[c]] == Slot(Some(c), 1))
      && (Pc(r, c).Away? ==> Occupied(s.slots))
  {
    hide Inv, Run;
    var s := Run(s0, before).value;
    InitialInv(s0);
    RunKeeps(s0, before);
    StepKeeps(s, StartConnect(c));
    var u := Perform(s, StartConnect(c));
    ScannedThroughout(s, u, c, steps);
    RunKeeps(u, steps);
    ConnIs(Run(u, steps).value, c);
  }

  // ----- the ready handler and the close handler

  function Opened(s: State, c: Conn, i: nat): State
    requires i < |s.slots|
  {
    s.(slots := s.slots[i := Slot(Some(c), 2)], conns := s.conns[c := Open])
  }

  function Freed(s: State, c: Conn, i: nat): State
    requires i < |s.slots|
  {
    s.(slots := s.slots[i := Slot(None, 0)], conns := s.conns[c := Away])
  }

  /** WebSocketReadyHandler sets the slot of its connection to state 2 and changes nothing else. */
  lemma ReadyRun(s0: State, steps: seq<Step>, c: Conn)
    requires Initial(s0) && Run(s0, steps).Some? && Enabled(Run(s0, steps).value, StartReady(c))
    ensures var s := Run(s0, steps).value;
      && s.user[c] < |s.slots| && s.slots[s.user[c]] == Slot(Some(c), 1)
      && Run(s, [StartReady(c), Continue(c)]) == Some(Opened(s, c, s.user[c]))
  {
    hide Inv, Run;
    var s := Run(s0, steps).value;
    InitialInv(s0);
    RunKeeps(s0, steps);
    ConnIs(s, c);
    RunTwo(s, StartReady(c), Continue(c));
    Overwritten(s.conns, c, Greeting(s.user[c]), Open);
  }

  /** WebSocketCloseHandler with nobody writing: the slot is empty and free again, and no other changes. */
  lemma CloseRun(s0: State, steps: seq<Step>, c: Conn)
    requires Initial(s0) && Run(s0, steps).Some? && Enabled(Run(s0, steps).value, StartClose(c))
    requires Run(s0, steps).value.lock.Free?
    ensures var s := Run(s0, steps).value;
      && s.user[c] < |s.slots| && s.slots[s.user[c]].conn == Some(c)
      && if s.slots[s.user[c]].state == 3
         then Run(s, [StartClose(c)] + Times(2, Continue(c))) == Some(s.(conns := s.conns[c := Waiting(s.user[c])]))
         else Run(s, [StartClose(c)] + Times(4, Continue(c))) == Some(Freed(s, c, s.user[c]))
  {
    hide Inv, Run, ConnOk, Perform;
    var s := Run(s0, steps).value;
    InitialInv(s0);
    RunKeeps(s0, steps);
    Owns(s, c);
    if s.slots[s.user[c]].state == 3 { WaitRun(s, c); } else { FreeRun(s, c); }
  }

  lemma Owns(s: State, c: Conn)
    requires Inv(s) && Enabled(s, StartClose(c))
    ensures s.user[c] < |s.slots| && s.slots[s.user[c]].conn == Some(c)
  {
    hide Inv;
    ConnIs(s, c);
  }

  lemma WaitRun(s: State, c: Conn)
    requires Enabled(s, StartClose(c)) && s.lock.Free? && s.user[c] < |s.slots| && s.slots[s.user[c]].state == 3
    ensures Run(s, [StartClose(c)] + Times(2, Continue(c))) == Some(s.(conns := s.conns[c := Waiting(s.user[c])]))
  {
    hide Run;
    var a := Perform(s, StartClose(c));
    TimesTwo(Continue(c));
    RunOn(s, StartClose(c), Times(2, Continue(c)));
    RunTwo(a, Continue(c), Continue(c));
    assert Perform(Perform(a, Continue(c)), Continue(c)).conns == s.conns[c := Waiting(s.user[c])];
  }

  lemma FreeRun(s: State, c: Conn)
    requires Enabled(s, StartClose(c)) && s.lock.Free? && s.user[c] < |s.slots| && s.slots[s.user[c]].state != 3
    ensures Run(s, [StartClose(c)] + Times(4, Continue(c))) == Some(Freed(s, c, s.user[c]))
  {
    hide Run;
    var a := Perform(s, StartClose(c));
    TimesTwo(Continue(c));
    RunOn(s, StartClose(c), Times(4, Continue(c)));
    RunTwo(a, Continue(c), Continue(c));
    var b := Perform(Perform(a, Continue(c)), Continue(c));
    RunConcat(a, [Continue(c), Continue(c)], [Continue(c), Continue(c)]);
    RunTwo(b, Continue(c), Continue(c));
    var r := Perform(Perform(b, Continue(c)), Continue(c));
    assert r.conns == s.conns[c := Away];
    assert r.slots == s.slots[s.user[c] := Slot(None, 0)];
  }

  // ----- the informer

  datatype Write = Write(slot: nat, to: Option<Conn>)

  /** The websocket writes in a run of informer t, in order. */
  function Writes(s: State, steps: seq<Step>, t: nat): seq<Write>
    decreases |steps|
  {
    if steps == [] || !Enabled(s, steps[0]) then []
    else
      var now := if steps[0] == InformOn(t) && s.informers[t].Writing?
        then [Write(s.informers[t].i, s.informers[t].to)] else [];
      now + Writes(Perform(s, steps[0]), steps[1..], t)
  }

  /** A write to the connection of every slot in state 2, from slot i on. */
  function Due(slots: seq<Slot>, i: nat): seq<Write>
    requires i <= |slots|
    decreases |slots| - i
  {
    if i == |slots| then []
    else (if slots[i].state == 2 then [Write(i, slots[i].conn)] else []) + Due(slots, i + 1)
  }

  lemma {:induction false} DueExactly(slots: seq<Slot>, i: nat, w: Write)
    requires i <= |slots|
    ensures w in Due(slots, i) <==> i <= w.slot < |slots| && slots[w.slot].state == 2 && slots[w.slot].conn == w.to
    decreases |slots| - i
  {
    if i < |slots| { DueExactly(slots, i + 1, w); }
  }

  /** The informer's steps ss lead from s to r and write w. */
  ghost predicate Goes(s: State, t: nat, n: nat, r: State, w: seq<Write>) {
    Run(s, Times(n, InformOn(t))) == Some(r) && Writes(s, Times(n, InformOn(t)), t) == w
  }

  lemma GoesNowhere(s: State, t: nat)
    ensures Goes(s, t, 0, s, [])
  {
  }

  lemma GoesOn(s: State, t: nat, n: nat, r: State, w: seq<Write>)
    requires Enabled(s, InformOn(t)) && !s.informers[t].Writing? && Goes(Perform(s, InformOn(t)), t, n, r, w)
    ensures Goes(s, t, n + 1, r, w)
  {
    hide Perform, Enabled;
    var all := Times(n + 1, InformOn(t));
    assert all[0] == InformOn(t) && all[1..] == Times(n, InformOn(t));
    assert [] + w == w;
  }

  lemma GoesWriting(s: State, t: nat, n: nat, r: State, w: seq<Write>)
    requires Enabled(s, InformOn(t)) && s.informers[t].Writing? && Goes(Perform(s, InformOn(t)), t, n, r, w)
    ensures Goes(s, t, n + 1, r, [Write(s.informers[t].i, s.informers[t].to)] + w)
  {
    hide Perform, Enabled;
    var all := Times(n + 1, InformOn(t));
    assert all[0] == InformOn(t) && all[1..] == Times(n, InformOn(t));
  }

  /** The informer at another place, nothing else changed. */
  function At(s: State, t: nat, pc: InformPc): State
    requires t < |s.informers|
  {
    s.(informers := s.informers[t := pc])
  }

  lemma Moved(s: State, t: nat, x: InformPc, y: InformPc)
    requires t < |s.informers|
    ensures At(At(s, t, x), t, y) == At(s, t, y)
  {
    assert s.informers[t := x][t := y] == s.informers[t := y];
  }

  /** A slot that is not ready is passed over. */
  lemma PassOver(s: State, t: nat, i: nat, n: nat, r: State, w: seq<Write>)
    requires t < |s.informers| && s.informers[t] == Aiming(i) && s.lock.Free? && i < |s.slots| && s.slots[i].state != 2
    requires Goes(At(s, t, Aiming(i + 1)), t, n, r, w)
    ensures Goes(s, t, n + 3, r, w)
  {
    hide Goes;
    var a := Perform(s, InformOn(t));
    var b := Perform(a, InformOn(t));
    var d := Perform(b, InformOn(t));
    assert d.informers == s.informers[t := Aiming(i + 1)];
    assert d == At(s, t, Aiming(i + 1));
    GoesOn(b, t, n, r, w);
    GoesOn(a, t, n + 1, r, w);
    GoesOn(s, t, n + 2, r, w);
  }

  /** A ready slot is written to, between two changes of its state that undo each other. */
  lemma WriteTo(s: State, t: nat, i: nat, n: nat, r: State, w: seq<Write>)
    requires t < |s.informers| && s.informers[t] == Aiming(i) && s.lock.Free? && i < |s.slots| && s.slots[i].state == 2
    requires Goes(At(s, t, Aiming(i + 1)), t, n, r, w)
    ensures Goes(s, t, n + 8, r, [Write(i, s.slots[i].conn)] + w)
  {
    hide Goes;
    var c := s.slots[i].conn;
    var a := Perform(s, InformOn(t));
    var b := Perform(a, InformOn(t));
    var d := Perform(b, InformOn(t));
    var e := Perform(d, InformOn(t));
    assert e.informers[t] == Writing(i, c, c) && e.lock.Free? && e.slots == s.slots[i := Slot(c, 3)];
    Unwind(s, e, t, i, n, r, w);
    GoesOn(d, t, n + 4, r, [Write(i, c)] + w);
    GoesOn(b, t, n + 5, r, [Write(i, c)] + w);
    GoesOn(a, t, n + 6, r, [Write(i, c)] + w);
    GoesOn(s, t, n + 7, r, [Write(i, c)] + w);
  }

  /** From the write on. */
  lemma Unwind(s: State, e: State, t: nat, i: nat, n: nat, r: State, w: seq<Write>)
    requires t < |s.informers| && s.informers[t] == Aiming(i) && s.lock.Free? && i < |s.slots| && s.slots[i].state == 2
    requires var c := s.slots[i].conn; e == At(s, t, Writing(i, c, c)).(slots := s.slots[i := Slot(c, 3)])
    requires Goes(At(s, t, Aiming(i + 1)), t, n, r, w)
    ensures Goes(e, t, n + 4, r, [Write(i, s.slots[i].conn)] + w)
  {
    hide Goes;
    var a := Perform(e, InformOn(t));
    var b := Perform(a, InformOn(t));
    var d := Perform(b, InformOn(t));
    var f := Perform(d, InformOn(t));
    assert f.informers == s.informers[t := Aiming(i + 1)];
    assert f.slots == s.slots;
    assert f == At(s, t, Aiming(i + 1));
    GoesOn(d, t, n, r, w);
    GoesOn(b, t, n + 1, r, w);
    GoesOn(a, t, n + 2, r, w);
    GoesWriting(e, t, n + 3, r, w);
  }

  lemma {:induction false} InformFrom(s: State, t: nat, i: nat) returns (n: nat)
    requires t < |s.informers| && s.informers[t] == Aiming(i) && s.lock.Free? && i <= |s.slots|
    ensures Goes(s, t, n, At(s, t, Resting), Due(s.slots, i))
    decreases |s.slots| - i
  {
    hide Goes;
    var r := At(s, t, Resting);
    if i == |s.slots| {
      GoesNowhere(r, t);
      GoesOn(s, t, 0, r, []);
      n := 1;
    } else {
      n := InformFrom(At(s, t, Aiming(i + 1)), t, i + 1);
      Moved(s, t, Aiming(i + 1), Resting);
      var w := Due(s.slots, i + 1);
      if s.slots[i].state == 2 {
        WriteTo(s, t, i, n, r, w);
        n := n + 8;
      } else {
        PassOver(s, t, i, n, r, w);
        assert [] + w == w;
        n := n + 3;
      }
    }
  }

  /**
   * InformWebsockets alone, from any reachable state with the lock free: it ends, has written once to
   * the connection of each slot in state 2, in order, and nowhere else, and leaves the table as it was.
   */
  lemma InformRun(s: State, t: nat) returns (n: nat)
    requires Enabled(s, StartInform(t)) && s.lock.Free?
    ensures var own := [StartInform(t)] + Times(n, InformOn(t));
      Run(s, own) == Some(s) && Writes(s, own, t) == Due(s.slots, 0)
    ensures forall w :: w in Due(s.slots, 0) <==> w.slot < |s.slots| && s.slots[w.slot].state == 2 && s.slots[w.slot].conn == w.to
  {
    var a := Perform(s, StartInform(t));
    n := InformFrom(a, t, 0);
    var own := [StartInform(t)] + Times(n, InformOn(t));
    assert own[1..] == Times(n, InformOn(t));
    Moved(s, t, Aiming(0), Resting);
    assert At(s, t, Resting) == s;
    assert [] + Due(s.slots, 0) == Due(s.slots, 0);
    forall w ensures w in Due(s.slots, 0) <==> w.slot < |s.slots| && s.slots[w.slot].state == 2 && s.slots[w.slot].conn == w.to {
      DueExactly(s.slots, 0, w);
    }
  }
}
