/** The calls of record.c from beginning to end, as runs of the state machine of Record: what each of them
    does to the records, from any state in which it can start. */
module RecordCalls {
  import opened Record

  /** The state to which a run leads, if all of its actions can happen. */
  ghost function End(s: State, run: seq<Action>): Option<State>
    decreases |run|
  {
    if run == [] then Some(s) else if Enabled(s, run[0]) then End(Next(s, run[0]), run[1..]) else None
  }

  lemma {:induction false} EndReached(s: State, run: seq<Action>, s': State)
    ensures End(s, run) == Some(s') <==> Reachable(s, run, s')
    decreases |run|
  {
    if run != [] && Enabled(s, run[0]) { EndReached(Next(s, run[0]), run[1..], s'); }
  }

  /** Steps of thread t. */
  ghost function Steps(t: nat, n: nat): seq<Action> {
    if n == 0 then [] else [Step(t)] + Steps(t, n - 1)
  }

  /** Where a call of thread t with n steps leads. */
  ghost function After(s: State, t: nat, call: Call, n: nat): Option<State> {
    End(s, [Lock(t, call)] + Steps(t, n))
  }

  lemma OneStep(s: State, t: nat, n: nat, s': State)
    requires Enabled(s, Step(t)) && s' == Next(s, Step(t))
    ensures End(s, Steps(t, n + 1)) == End(s', Steps(t, n))
  {
    assert ([Step(t)] + Steps(t, n))[1..] == Steps(t, n);
  }

  lemma WholeCall(s: State, t: nat, call: Call, n: nat)
    requires Enabled(s, Lock(t, call))
    ensures After(s, t, call, n) == End(Entered(s, t, Entry(call)), Steps(t, n))
  {
    assert ([Lock(t, call)] + Steps(t, n))[1..] == Steps(t, n);
  }

  /** Thread t stands at pc, with the mutex. */
  function Entered(s: State, t: nat, pc: Pc): State {
    s.(pcs := s.pcs[t := pc], mutex := Some(t))
  }

  /** With its last step, a call releases the mutex. */
  lemma LastStep(s: State, t: nat)
    requires t in s.pcs && (s.pcs[t].Create3? || s.pcs[t].Close1? || s.pcs[t].Destroy3?)
    ensures End(s, Steps(t, 1)) == Some(Left(s, t, Idle))
  {
    OneStep(s, t, 0, Left(s, t, Idle));
  }

  /** Thread t stands at pc, without the mutex. */
  function Left(s: State, t: nat, pc: Pc): State {
    s.(pcs := s.pcs[t := pc], mutex := None)
  }

  /** t has made a call, and nothing but the store, the sessions and the pointers has changed. */
  ghost predicate LeftAs(s: State, end: Option<State>, t: nat, pc: Pc) {
    && end.Some? && end.value.pcs == s.pcs[t := pc] && end.value.mutex == None && end.value.fault == s.fault
  }

  /** All names but one have the entries they had. */
  ghost predicate OthersAsBefore(st: Store, st': Store, name: Name) {
    forall m :: m != name ==> (m in st'.records <==> m in st.records) && (m in st.records ==> st'.records[m] == st.records[m])
  }

  /** An entry has its own event flag, and a new one is not ready. */
  lemma EntryFound(s: State, name: Name)
    requires Inv(s) && s.mutex == None
    ensures var e := GetOrCreate(s.store, name);
            && name in e.records && e.records[name].flags in e.ready && OthersAsBefore(s.store, e, name)
            && (if name in s.store.records then e.records[name] == s.store.records[name]
                else e.records[name] == RecordData(s.store.nextFlag, 0, 0) && s.store.nextFlag !in s.created)
  {
    if name in s.store.records { assert EntryOk(s, name); }
  }

  /** A create leaves a record with its pointer that is ready for everyone who opens it, and no other record
      is changed. */
  lemma CreateRuns(s: State, t: nat, name: Name, data: nat)
    requires Inv(s) && t in s.pcs && s.pcs[t].Idle? && s.mutex == None
    requires name in s.store.records ==> s.store.records[name].flags !in s.created
    ensures LeftAs(s, After(s, t, CallCreate(name, data), 4), t, Idle)
    ensures var s' := After(s, t, CallCreate(name, data), 4).value;
            && s'.sessions == s.sessions && OthersAsBefore(s.store, s'.store, name) && name in s'.store.records
            && var r := s'.store.records[name];
               && r.data == data && r.flags in s'.store.ready && s'.store.ready[r.flags] && s'.created == s.created[r.flags := data]
               && if name in s.store.records then
                    r.flags == s.store.records[name].flags && r.holders == s.store.records[name].holders
                  else
                    r.flags == s.store.nextFlag && r.holders == 0
  {
    WholeCall(s, t, CallCreate(name, data), 4);
    EntryFound(s, name);
    var s2 := Entered(s, t, Create1(name, data)).(store := GetOrCreate(s.store, name));
    CreateStarts(s, t, name, data, s2);
    CreateEnds(s2, t, name, data);
  }

  lemma CreateStarts(s: State, t: nat, name: Name, data: nat, s2: State)
    requires t in s.pcs && s2 == Entered(s, t, Create1(name, data)).(store := GetOrCreate(s.store, name))
    ensures End(Entered(s, t, Create0(name, data)), Steps(t, 4)) == End(s2, Steps(t, 3))
  {
    var s1 := Entered(s, t, Create0(name, data));
    assert s1.pcs[t := Create1(name, data)] == s2.pcs;
    OneStep(s1, t, 3, s2);
  }

  lemma CreateEnds(s: State, t: nat, name: Name, data: nat)
    requires t in s.pcs && s.pcs[t] == Create1(name, data) && name in s.store.records
    requires s.store.records[name].flags in s.store.ready && s.store.records[name].flags !in s.created
    ensures var flags := s.store.records[name].flags;
            End(s, Steps(t, 3)) == Some(Left(s, t, Idle).(store := SetReady(SetData(s.store, name, data), name),
                                                          created := s.created[flags := data]))
  {
    var s1 := StorePointer(s, t, name, data);
    OneStep(s, t, 2, s1);
    ReadyEnds(s1, t, name);
    assert Left(s1, t, Idle).pcs == s.pcs[t := Idle];
  }

  lemma ReadyEnds(s: State, t: nat, name: Name)
    requires t in s.pcs && s.pcs[t] == Create2(name) && name in s.store.records
    requires s.store.records[name].flags in s.store.ready
    ensures End(s, Steps(t, 2)) == Some(Left(s, t, Idle).(store := SetReady(s.store, name)))
  {
    var s1 := At(s, t, Create3).(store := SetReady(s.store, name));
    OneStep(s, t, 1, s1);
    LastStep(s1, t);
    assert Left(s1, t, Idle).pcs == s.pcs[t := Idle];
  }

  /** An open counts one more holder, of the record that is there or of a new one that is not ready, and then waits. */
  lemma OpenRuns(s: State, t: nat, name: Name)
    requires Inv(s) && t in s.pcs && s.pcs[t].Idle? && s.mutex == None
    ensures LeftAs(s, After(s, t, CallOpen(name), 3), t, Waiting(s.nextSid))
    ensures var s' := After(s, t, CallOpen(name), 3).value;
            && s'.created == s.created && OthersAsBefore(s.store, s'.store, name) && name in s'.store.records
            && var r := s'.store.records[name];
               && s'.sessions == s.sessions[s.nextSid := Session(t, name, r.flags, None)]
               && if name in s.store.records then
                    && s'.store.ready == s.store.ready && r.flags == s.store.records[name].flags
                    && r.data == s.store.records[name].data && r.holders == s.store.records[name].holders + 1
                  else
                    && s'.store.ready == s.store.ready[r.flags := false] && r.flags == s.store.nextFlag
                    && r.data == 0 && r.holders == 1
  {
    WholeCall(s, t, CallOpen(name), 3);
    EntryFound(s, name);
    var s2 := Entered(s, t, Open1(name)).(store := GetOrCreate(s.store, name));
    OpenStarts(s, t, name, s2);
    OpenEnds(s2, t, name);
  }

  lemma OpenStarts(s: State, t: nat, name: Name, s2: State)
    requires t in s.pcs && s2 == Entered(s, t, Open1(name)).(store := GetOrCreate(s.store, name))
    ensures End(Entered(s, t, Open0(name)), Steps(t, 3)) == End(s2, Steps(t, 2))
  {
    var s1 := Entered(s, t, Open0(name));
    assert s1.pcs[t := Open1(name)] == s2.pcs;
    OneStep(s1, t, 2, s2);
  }

  lemma OpenEnds(s: State, t: nat, name: Name)
    requires t in s.pcs && s.pcs[t] == Open1(name) && name in s.store.records
    ensures End(s, Steps(t, 2)) == Some(Left(Enter(s, t, name), t, Waiting(s.nextSid)))
  {
    var s1 := Enter(s, t, name);
    OneStep(s, t, 1, s1);
    OneStep(s1, t, 0, Left(s1, t, Waiting(s.nextSid)));
  }

  /** A close counts one holder less of the record that was opened. */
  lemma CloseRuns(s: State, t: nat, sid: nat)
    requires Inv(s) && t in s.pcs && s.pcs[t].Idle? && s.mutex == None
    requires sid in s.sessions && s.sessions[sid].owner == t && s.sessions[sid].got.Some?
    ensures LeftAs(s, After(s, t, CallClose(sid), 2), t, Idle)
    ensures var s', name := After(s, t, CallClose(sid), 2).value, s.sessions[sid].name;
            && s'.created == s.created && s'.sessions == s.sessions - {sid} && s'.store.ready == s.store.ready
            && name in s.store.records
            && s'.store.records == s.store.records[name := s.store.records[name].(holders := s.store.records[name].holders - 1)]
  {
    assert SessionOk(s, sid);
    WholeCall(s, t, CallClose(sid), 2);
    var s1 := Entered(s, t, Close0(sid));
    var s2 := Leave(s1, t, sid);
    OneStep(s1, t, 1, s2);
    LastStep(s2, t);
    assert Left(s2, t, Idle).pcs == s.pcs[t := Idle];
  }

  /** A destroy removes the record and its event flag if nobody has it open or waits for it. */
  lemma DestroyRuns(s: State, t: nat, name: Name)
    requires Inv(s) && t in s.pcs && s.pcs[t].Idle? && s.mutex == None && name in s.store.records
    requires forall sid <- s.sessions :: s.sessions[sid].name != name
    ensures LeftAs(s, After(s, t, CallDestroy(name), 4), t, Idle)
    ensures var s' := After(s, t, CallDestroy(name), 4).value;
            && s'.created == s.created && s'.sessions == s.sessions
            && s'.store.records == s.store.records - {name} && s'.store.ready == s.store.ready - {s.store.records[name].flags}
  {
    assert EntryOk(s, name);
    assert Holders(s.sessions, name) == {};
    WholeCall(s, t, CallDestroy(name), 4);
    LookedAt(s, t, name, 3);
    DestroyEnds(Entered(s, t, Destroy1(name)), t, name);
    assert s.pcs[t := Destroy1(name)][t := Idle] == s.pcs[t := Idle];
  }

  lemma LookedAt(s: State, t: nat, name: Name, n: nat)
    requires t in s.pcs && name in s.store.records
    ensures var pc := if s.store.records[name].holders == 0 then Destroy1(name) else Destroy3(false);
            End(Entered(s, t, Destroy0(name)), Steps(t, n + 1)) == End(Entered(s, t, pc), Steps(t, n))
  {
    var pc := if s.store.records[name].holders == 0 then Destroy1(name) else Destroy3(false);
    assert s.pcs[t := Destroy0(name)][t := pc] == s.pcs[t := pc];
    OneStep(Entered(s, t, Destroy0(name)), t, n, Entered(s, t, pc));
  }

  lemma DestroyEnds(s: State, t: nat, name: Name)
    requires t in s.pcs && s.pcs[t] == Destroy1(name) && name in s.store.records
    requires s.store.records[name].flags in s.store.ready
    ensures End(s, Steps(t, 3)) == Some(Left(s, t, Idle).(store := Erase(FreeFlags(s.store, name), name)))
  {
    var s1 := At(s, t, Destroy2(name)).(store := FreeFlags(s.store, name));
    OneStep(s, t, 2, s1);
    EraseEnds(s1, t, name);
    assert Left(s1, t, Idle).pcs == s.pcs[t := Idle];
  }

  lemma EraseEnds(s: State, t: nat, name: Name)
    requires t in s.pcs && s.pcs[t] == Destroy2(name)
    ensures End(s, Steps(t, 2)) == Some(Left(s, t, Idle).(store := Erase(s.store, name)))
  {
    var s1 := At(s, t, Destroy3(true)).(store := Erase(s.store, name));
    OneStep(s, t, 1, s1);
    LastStep(s1, t);
    assert Left(s1, t, Idle).pcs == s.pcs[t := Idle];
  }

  /** And changes nothing if somebody has. */
  lemma DestroyRefused(s: State, t: nat, name: Name, sid: nat)
    requires Inv(s) && t in s.pcs && s.pcs[t].Idle? && s.mutex == None && name in s.store.records
    requires sid in s.sessions && s.sessions[sid].name == name
    ensures After(s, t, CallDestroy(name), 2) == Some(s)
  {
    assert EntryOk(s, name);
    assert sid in Holders(s.sessions, name);
    WholeCall(s, t, CallDestroy(name), 2);
    LookedAt(s, t, name, 1);
    LastStep(Entered(s, t, Destroy3(false)), t);
    assert s.pcs[t := Destroy3(false)][t := Idle] == s.pcs;
  }
}
