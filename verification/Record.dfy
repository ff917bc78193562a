/** record.c: named records that any number of threads create, open, close and destroy.

    Every statement between taking the mutex and releasing it is a step of its own, and so are the
    wait for the event flag and the reading of the data pointer, which happen without the mutex. */
module Record {

  type Name = string

  datatype Option<T> = None | Some(value: T)

  /** An entry of the dictionary. Its event flag is allocated with it, so that the identity of the
      flag tells the incarnations of a name apart. A data pointer of 0 is NULL. */
  datatype RecordData = RecordData(flags: nat, data: nat, holders: int)

  /** The dictionary, the event flags that are allocated with their READY bit, and the next flag. */
  datatype Store = Store(records: map<Name, RecordData>, ready: map<nat, bool>, nextFlag: nat)

  // ---------------------------------------------------------------- single statements

  /** furi_record_data_get_or_create. */
  function GetOrCreate(st: Store, name: Name): Store {
    if name in st.records then st
    else Store(st.records[name := RecordData(st.nextFlag, 0, 0)], st.ready[st.nextFlag := false], st.nextFlag + 1)
  }

  function SetData(st: Store, name: Name, data: nat): Store
    requires name in st.records
  {
    st.(records := st.records[name := st.records[name].(data := data)])
  }

  function SetReady(st: Store, name: Name): Store
    requires name in st.records
  {
    st.(ready := st.ready[st.records[name].flags := true])
  }

  function AddHolders(st: Store, name: Name, n: int): Store
    requires name in st.records
  {
    st.(records := st.records[name := st.records[name].(holders := st.records[name].holders + n)])
  }

  function FreeFlags(st: Store, name: Name): Store
    requires name in st.records
  {
    st.(ready := st.ready - {st.records[name].flags})
  }

  function Erase(st: Store, name: Name): Store {
    st.(records := st.records - {name})
  }

  // ---------------------------------------------------------------- threads

  /** An open that has been counted and not yet been closed; `got` is what it has returned. */
  datatype Session = Session(owner: nat, name: Name, flags: nat, got: Option<nat>)

  /** Where a thread stands; what it does next is in brackets. */
  datatype Pc =
    | Idle
    | Create0(name: Name, data: nat)   // [get or create the entry]
    | Create1(name: Name, data: nat)   // [store the pointer]
    | Create2(name: Name)              // [set READY]
    | Create3                          // [unlock]
    | Open0(name: Name)                // [get or create the entry]
    | Open1(name: Name)                // [count one more holder]
    | Open2(sid: nat)                  // [unlock]
    | Waiting(sid: nat)                // [wait for READY]
    | Reading(sid: nat)                // [read the pointer, return]
    | Close0(sid: nat)                 // [count one holder less]
    | Close1                           // [unlock]
    | Destroy0(name: Name)             // [look at the number of holders]
    | Destroy1(name: Name)             // [free the event flag]
    | Destroy2(name: Name)             // [erase the entry]
    | Destroy3(ret: bool)              // [unlock]

  predicate Locked(pc: Pc) {
    !pc.Idle? && !pc.Waiting? && !pc.Reading?
  }

  /** `created` records the pointer given to the create of an incarnation; `fault` that a thread
      has touched an event flag or an entry that is gone. */
  datatype State = State(store: Store, mutex: Option<nat>, pcs: map<nat, Pc>, sessions: map<nat, Session>,
                         nextSid: nat, created: map<nat, nat>, fault: bool)

  datatype Call = CallCreate(name: Name, data: nat) | CallOpen(name: Name) | CallClose(sid: nat) | CallDestroy(name: Name)

  datatype Action = Lock(t: nat, call: Call) | Step(t: nat)

  function Entry(call: Call): Pc {
    match call
    case CallCreate(name, data) => Create0(name, data)
    case CallOpen(name) => Open0(name)
    case CallClose(sid) => Close0(sid)
    case CallDestroy(name) => Destroy0(name)
  }

  /** When an action can happen. Besides the mutex and the wait this states what the callers must
      respect: a thread closes an open of its own that has returned, an incarnation is created
      once, and a record that is destroyed exists. */
  predicate Enabled(s: State, a: Action) {
    a.t in s.pcs &&
    match a
    case Lock(t, call) =>
      && s.pcs[t].Idle? && s.mutex.None?
      && (call.CallClose? ==>
            call.sid in s.sessions && s.sessions[call.sid].owner == t && s.sessions[call.sid].got.Some?)
    case Step(t) =>
      match s.pcs[t]
      case Idle => false
      case Create1(name, _) => name in s.store.records ==> s.store.records[name].flags !in s.created
      case Waiting(sid) =>
        sid in s.sessions && s.sessions[sid].flags in s.store.ready ==> s.store.ready[s.sessions[sid].flags]
      case Destroy0(name) => name in s.store.records
      case _ => true
  }

  function At(s: State, t: nat, pc: Pc): State {
    s.(pcs := s.pcs[t := pc])
  }

  function Unlock(s: State, t: nat, pc: Pc): State {
    At(s, t, pc).(mutex := None)
  }

  function Fault(s: State): State { s.(fault := true) }

  function Next(s: State, a: Action): State
    requires Enabled(s, a)
  {
    match a
    case Lock(t, call) => At(s, t, Entry(call)).(mutex := Some(t))
    case Step(t) =>
      match s.pcs[t]
      case Create0(name, data) => At(s, t, Create1(name, data)).(store := GetOrCreate(s.store, name))
      case Create1(name, data) => if name !in s.store.records then Fault(s) else StorePointer(s, t, name, data)
      case Create2(name) =>
        if name !in s.store.records || s.store.records[name].flags !in s.store.ready then Fault(s)
        else At(s, t, Create3).(store := SetReady(s.store, name))
      case Open0(name) => At(s, t, Open1(name)).(store := GetOrCreate(s.store, name))
      case Open1(name) => if name !in s.store.records then Fault(s) else Enter(s, t, name)
      case Open2(sid) => Unlock(s, t, Waiting(sid))
      case Waiting(sid) =>
        if sid !in s.sessions || s.sessions[sid].flags !in s.store.ready then Fault(s) else At(s, t, Reading(sid))
      case Reading(sid) => if !SameEntry(s, sid) then Fault(s) else Return(s, t, sid)
      case Close0(sid) => if !SameEntry(s, sid) then Fault(s) else Leave(s, t, sid)
      case Destroy0(name) => At(s, t, if s.store.records[name].holders == 0 then Destroy1(name) else Destroy3(false))
      case Destroy1(name) =>
        if name !in s.store.records || s.store.records[name].flags !in s.store.ready then Fault(s)
        else At(s, t, Destroy2(name)).(store := FreeFlags(s.store, name))
      case Destroy2(name) => At(s, t, Destroy3(true)).(store := Erase(s.store, name))
      case _ => Unlock(s, t, Idle)
  }

  function StorePointer(s: State, t: nat, name: Name, data: nat): State
    requires name in s.store.records
  {
    At(s, t, Create2(name)).(store := SetData(s.store, name, data), created := s.created[s.store.records[name].flags := data])
  }

  function Enter(s: State, t: nat, name: Name): State
    requires name in s.store.records
  {
    At(s, t, Open2(s.nextSid)).(
      store := AddHolders(s.store, name, 1),
      sessions := s.sessions[s.nextSid := Session(t, name, s.store.records[name].flags, None)],
      nextSid := s.nextSid + 1)
  }

  /** The entry to which a session points is still there. */
  predicate SameEntry(s: State, sid: nat) {
    && sid in s.sessions && s.sessions[sid].name in s.store.records
    && s.store.records[s.sessions[sid].name].flags == s.sessions[sid].flags
  }

  function Return(s: State, t: nat, sid: nat): State
    requires SameEntry(s, sid)
  {
    At(s, t, Idle).(
      sessions := s.sessions[sid := s.sessions[sid].(got := Some(s.store.records[s.sessions[sid].name].data))])
  }

  function Leave(s: State, t: nat, sid: nat): State
    requires SameEntry(s, sid)
  {
    At(s, t, Close1).(store := AddHolders(s.store, s.sessions[sid].name, -1), sessions := s.sessions - {sid})
  }

  // ---------------------------------------------------------------- the invariant

  /** The sessions of a name. */
  function Holders(sessions: map<nat, Session>, name: Name): set<nat> {
    set sid | sid in sessions && sessions[sid].name == name
  }

  /** A thread has freed the event flag of the entry that it is about to erase. */
  predicate BeingErased(s: State, name: Name) {
    s.mutex.Some? && s.mutex.value in s.pcs && s.pcs[s.mutex.value] == Destroy2(name)
  }

  /** A thread has stored the pointer of the entry that it is about to make ready. */
  predicate BeingMadeReady(s: State, name: Name) {
    s.mutex.Some? && s.mutex.value in s.pcs && s.pcs[s.mutex.value] == Create2(name)
  }

  predicate EntryOk(s: State, name: Name)
    requires name in s.store.records
  {
    var r := s.store.records[name];
    && r.flags < s.store.nextFlag && r.holders == |Holders(s.sessions, name)|
    && (r.flags in s.store.ready <==> !BeingErased(s, name))
    && (r.flags in s.created ==> r.data == s.created[r.flags])
    && (r.flags in s.store.ready ==> (s.store.ready[r.flags] <==> r.flags in s.created && !BeingMadeReady(s, name)))
  }

  ghost predicate EntriesOk(s: State) {
    forall name <- s.store.records :: EntryOk(s, name)
  }

  /** Different names have different event flags. */
  ghost predicate FlagsApart(st: Store) {
    forall m, n :: m in st.records && n in st.records && st.records[m].flags == st.records[n].flags ==> m == n
  }

  predicate SessionOk(s: State, sid: nat)
    requires sid in s.sessions
  {
    var o := s.sessions[sid];
    && sid < s.nextSid && SameEntry(s, sid)
    && (o.got.Some? ==> o.flags in s.created && o.got.value == s.created[o.flags])
  }

  ghost predicate SessionsOk(s: State) {
    forall sid <- s.sessions :: SessionOk(s, sid)
  }

  predicate Pending(s: State, t: nat, sid: nat) {
    sid in s.sessions && s.sessions[sid].owner == t && s.sessions[sid].got.None?
  }

  predicate PcOk(s: State, t: nat)
    requires t in s.pcs
  {
    && (Locked(s.pcs[t]) <==> s.mutex == Some(t))
    && match s.pcs[t]
       case Create1(name, _) => name in s.store.records
       case Create2(name) => name in s.store.records && s.store.records[name].flags in s.created
       case Open1(name) => name in s.store.records
       case Open2(sid) => Pending(s, t, sid)
       case Waiting(sid) => Pending(s, t, sid)
       case Reading(sid) =>
         && Pending(s, t, sid) && s.sessions[sid].flags in s.store.ready && s.store.ready[s.sessions[sid].flags]
       case Close0(sid) => sid in s.sessions && s.sessions[sid].owner == t && s.sessions[sid].got.Some?
       case Destroy1(name) => name in s.store.records && s.store.records[name].holders == 0
       case Destroy2(name) => name in s.store.records && s.store.records[name].holders == 0
       case _ => true
  }

  ghost predicate PcsOk(s: State) {
    forall t <- s.pcs :: PcOk(s, t)
  }

  /** Flags that were handed out are below the next one. */
  ghost predicate FreshOk(s: State) {
    && (forall f <- s.created :: f < s.store.nextFlag)
    && (s.mutex.Some? ==> s.mutex.value in s.pcs)
  }

  ghost predicate Inv(s: State) {
    !s.fault && EntriesOk(s) && FlagsApart(s.store) && SessionsOk(s) && PcsOk(s) && FreshOk(s)
  }

  // ---------------------------------------------------------------- every step keeps it

  /** What a step of thread t must leave alone, as far as the other threads are concerned. */
  ghost predicate Others(s: State, s': State, t: nat) {
    && t in s.pcs && t in s'.pcs && s'.pcs == s.pcs[t := s'.pcs[t]]
    && (if s.mutex == None || s.mutex == Some(t) then s'.mutex == None || s'.mutex == Some(t)
        else s'.mutex == s.mutex && s'.store == s.store && s'.created == s.created)
    && (forall sid <- s.sessions :: s.sessions[sid].owner != t ==> sid in s'.sessions && s'.sessions[sid] == s.sessions[sid])
    && (forall sid <- s.sessions :: ReadyKept(s, s', s.sessions[sid].flags))
  }

  predicate ReadyKept(s: State, s': State, f: nat) {
    f in s.store.ready && s.store.ready[f] ==> f in s'.store.ready && s'.store.ready[f]
  }

  lemma OthersOk(s: State, s': State, t: nat)
    requires Inv(s) && Others(s, s', t) && PcOk(s', t)
    ensures PcsOk(s')
  {
    forall u <- s'.pcs ensures PcOk(s', u) {
      if u != t {
        assert PcOk(s, u) && PcOk(s, t);
      }
    }
  }

  /** Steps that change no more than where the thread stands and the mutex. */
  lemma MoveKeeps(s: State, t: nat, pc: Pc, mutex: Option<nat>)
    requires Inv(s) && t in s.pcs && mutex == (if Locked(pc) then Some(t) else if Locked(s.pcs[t]) then None else s.mutex)
    requires s.mutex == None || Locked(s.pcs[t]) || !Locked(pc)
    requires !s.pcs[t].Destroy2? && !pc.Destroy2? && !s.pcs[t].Create2? && !pc.Create2?
    requires PcOk(At(s, t, pc).(mutex := mutex), t)
    ensures Inv(At(s, t, pc).(mutex := mutex))
  {
    var s' := At(s, t, pc).(mutex := mutex);
    assert PcOk(s, t);
    OthersOk(s, s', t);
    forall name <- s'.store.records ensures EntryOk(s', name) {
      if s.mutex.Some? { assert PcOk(s, s.mutex.value); }
      SameEntryOk(s, s', name);
    }
    SameSessionsOk(s, s');
  }

  lemma SameEntryOk(s: State, s': State, name: Name)
    requires EntriesOk(s) && name in s.store.records && s'.store == s.store && s'.created == s.created
    requires Holders(s'.sessions, name) == Holders(s.sessions, name)
    requires BeingErased(s', name) == BeingErased(s, name) && BeingMadeReady(s', name) == BeingMadeReady(s, name)
    ensures EntryOk(s', name)
  {
    assert EntryOk(s, name);
  }

  lemma SameSessionsOk(s: State, s': State)
    requires SessionsOk(s) && s'.store == s.store && s'.created == s.created
    requires s'.sessions == s.sessions && s'.nextSid == s.nextSid
    ensures SessionsOk(s')
  {
    forall sid <- s'.sessions ensures SessionOk(s', sid) { assert SessionOk(s, sid); }
  }

  lemma {:induction false} HoldersChange(sessions: map<nat, Session>, sid: nat, o: Session, name: Name)
    requires sid !in sessions
    ensures |Holders(sessions[sid := o], name)| == |Holders(sessions, name)| + if name == o.name then 1 else 0
  {
    var h, h' := Holders(sessions, name), Holders(sessions[sid := o], name);
    assert h' == if name == o.name then h + {sid} else h;
  }

  lemma HoldersLess(sessions: map<nat, Session>, sid: nat, name: Name)
    requires sid in sessions
    ensures |Holders(sessions - {sid}, name)| == |Holders(sessions, name)| - if name == sessions[sid].name then 1 else 0
  {
    var h, h' := Holders(sessions, name), Holders(sessions - {sid}, name);
    assert h' == if name == sessions[sid].name then h - {sid} else h;
  }

  lemma SameHolders(sessions: map<nat, Session>, sid: nat, o: Session, name: Name)
    requires sid in sessions && o.name == sessions[sid].name
    ensures Holders(sessions[sid := o], name) == Holders(sessions, name)
  {
  }

  /** Getting or creating an entry, with the next pc that needs it. */
  lemma GetOrCreateKeeps(s: State, t: nat, name: Name, pc: Pc)
    requires Inv(s) && t in s.pcs && Locked(s.pcs[t]) && !s.pcs[t].Destroy2? && !s.pcs[t].Create2?
    requires pc == Open1(name) || exists data :: pc == Create1(name, data)
    ensures Inv(At(s, t, pc).(store := GetOrCreate(s.store, name)))
  {
    var s' := At(s, t, pc).(store := GetOrCreate(s.store, name));
    assert PcOk(s, t);
    forall sid <- s.sessions ensures SessionOk(s', sid) && s.sessions[sid].flags != s.store.nextFlag {
      GetOrCreateSession(s, t, name, pc, sid);
    }
    OthersOk(s, s', t);
    forall m <- s'.store.records ensures EntryOk(s', m) { GetOrCreateEntryOk(s, t, name, pc, m); }
    GetOrCreateApart(s, name);
  }

  lemma GetOrCreateSession(s: State, t: nat, name: Name, pc: Pc, sid: nat)
    requires Inv(s) && t in s.pcs && sid in s.sessions
    ensures SessionOk(At(s, t, pc).(store := GetOrCreate(s.store, name)), sid) && s.sessions[sid].flags != s.store.nextFlag
  {
    assert SessionOk(s, sid);
    assert EntryOk(s, s.sessions[sid].name);
  }

  lemma GetOrCreateEntryOk(s: State, t: nat, name: Name, pc: Pc, m: Name)
    requires Inv(s) && t in s.pcs && Locked(s.pcs[t]) && !s.pcs[t].Destroy2? && !pc.Destroy2?
    requires !s.pcs[t].Create2? && !pc.Create2?
    requires m in GetOrCreate(s.store, name).records
    ensures EntryOk(At(s, t, pc).(store := GetOrCreate(s.store, name)), m)
  {
    assert PcOk(s, t);
    if m in s.store.records {
      assert EntryOk(s, m);
    } else {
      forall sid <- s.sessions ensures s.sessions[sid].name in s.store.records { assert SessionOk(s, sid); }
      assert Holders(s.sessions, m) == {};
    }
  }

  lemma GetOrCreateApart(s: State, name: Name)
    requires EntriesOk(s) && FlagsApart(s.store)
    ensures FlagsApart(GetOrCreate(s.store, name))
  {
    forall m <- s.store.records ensures s.store.records[m].flags < s.store.nextFlag { assert EntryOk(s, m); }
  }

  /** An update of one entry that leaves its flag, and the sessions, as they are. */
  lemma EntryKeeps(s: State, s': State, t: nat, name: Name)
    requires Inv(s) && name in s.store.records && Others(s, s', t) && PcOk(s', t) && !s'.fault
    requires Locked(s.pcs[t]) && Locked(s'.pcs[t]) && s'.mutex == s.mutex && !s.pcs[t].Destroy2?
    requires s'.sessions == s.sessions && s'.nextSid == s.nextSid && s'.store.nextFlag == s.store.nextFlag
    requires s'.store.records.Keys == s.store.records.Keys && s'.store.records[name].flags == s.store.records[name].flags
    requires forall m <- s.store.records :: m != name ==> s'.store.records[m] == s.store.records[m]
    requires EntryOk(s', name)
    requires forall f :: f != s.store.records[name].flags ==>
               (f in s'.store.ready <==> f in s.store.ready) && (f in s.store.ready ==> s'.store.ready[f] == s.store.ready[f])
    requires forall f :: f != s.store.records[name].flags ==>
               (f in s'.created <==> f in s.created) && (f in s.created ==> s'.created[f] == s.created[f])
    requires s.store.records[name].flags in s.created ==>
               s.store.records[name].flags in s'.created
               && s'.created[s.store.records[name].flags] == s.created[s.store.records[name].flags]
    requires s'.pcs[t].Destroy2? || s'.pcs[t].Create2? ==> s'.pcs[t].name == name
    requires s.pcs[t].Create2? ==> s.pcs[t].name == name
    ensures Inv(s')
  {
    var flag := s.store.records[name].flags;
    assert PcOk(s, t) && EntryOk(s, name);
    OthersOk(s, s', t);
    forall m <- s'.store.records ensures EntryOk(s', m) {
      if m != name { OtherEntryOk(s, s', m); }
    }
    forall sid <- s'.sessions ensures SessionOk(s', sid) { assert SessionOk(s, sid); }
  }

  lemma OtherEntryOk(s: State, s': State, m: Name)
    requires EntriesOk(s) && m in s.store.records && m in s'.store.records && s'.store.records[m] == s.store.records[m]
    requires s'.sessions == s.sessions && s'.store.nextFlag == s.store.nextFlag && !BeingErased(s, m) && !BeingErased(s', m)
    requires !BeingMadeReady(s, m) && !BeingMadeReady(s', m)
    requires var f := s.store.records[m].flags;
             && (f in s'.store.ready <==> f in s.store.ready) && (f in s.store.ready ==> s'.store.ready[f] == s.store.ready[f])
             && (f in s'.created <==> f in s.created) && (f in s.created ==> s'.created[f] == s.created[f])
    ensures EntryOk(s', m)
  {
    assert EntryOk(s, m);
  }

  lemma StorePointerKeeps(s: State, t: nat)
    requires Inv(s) && t in s.pcs && s.pcs[t].Create1? && Enabled(s, Step(t))
    ensures Inv(Next(s, Step(t)))
  {
    var name := s.pcs[t].name;
    assert PcOk(s, t) && EntryOk(s, name);
    EntryKeeps(s, Next(s, Step(t)), t, name);
  }

  lemma SetReadyKeeps(s: State, t: nat)
    requires Inv(s) && t in s.pcs && s.pcs[t].Create2?
    ensures Inv(Next(s, Step(t)))
  {
    var name := s.pcs[t].name;
    assert PcOk(s, t) && EntryOk(s, name);
    EntryKeeps(s, Next(s, Step(t)), t, name);
  }

  lemma FreeFlagsKeeps(s: State, t: nat)
    requires Inv(s) && t in s.pcs && s.pcs[t].Destroy1?
    ensures Inv(Next(s, Step(t)))
  {
    var name := s.pcs[t].name;
    assert PcOk(s, t) && EntryOk(s, name);
    NoHolders(s, name);
    forall sid <- s.sessions ensures ReadyKept(s, Next(s, Step(t)), s.sessions[sid].flags) { assert SessionOk(s, sid); }
    EntryKeeps(s, Next(s, Step(t)), t, name);
  }

  lemma NoHolders(s: State, name: Name)
    requires Inv(s) && name in s.store.records && s.store.records[name].holders == 0
    ensures forall sid <- s.sessions :: s.sessions[sid].name != name
    ensures forall sid <- s.sessions :: s.sessions[sid].flags != s.store.records[name].flags
  {
    assert EntryOk(s, name);
    assert Holders(s.sessions, name) == {};
    forall sid <- s.sessions ensures s.sessions[sid].name != name && s.sessions[sid].flags != s.store.records[name].flags {
      assert SessionOk(s, sid);
      assert s.sessions[sid].name == name ==> sid in Holders(s.sessions, name);
    }
  }

  lemma EraseKeeps(s: State, t: nat)
    requires Inv(s) && t in s.pcs && s.pcs[t].Destroy2?
    ensures Inv(Next(s, Step(t)))
  {
    var name, s' := s.pcs[t].name, Next(s, Step(t));
    assert PcOk(s, t) && EntryOk(s, name);
    NoHolders(s, name);
    OthersOk(s, s', t);
    forall m <- s'.store.records ensures EntryOk(s', m) { EraseEntry(s, t, m); }
    forall sid <- s'.sessions ensures SessionOk(s', sid) { assert SessionOk(s, sid); }
  }

  lemma EraseEntry(s: State, t: nat, m: Name)
    requires Inv(s) && t in s.pcs && s.pcs[t].Destroy2? && m in s.store.records && m != s.pcs[t].name
    ensures EntryOk(Next(s, Step(t)), m)
  {
    assert PcOk(s, t) && EntryOk(s, m);
  }

  lemma EnterKeeps(s: State, t: nat)
    requires Inv(s) && t in s.pcs && s.pcs[t].Open1?
    ensures Inv(Next(s, Step(t)))
  {
    var name := s.pcs[t].name;
    assert PcOk(s, t) && EntryOk(s, name);
    var s' := Enter(s, t, name);
    forall o <- s.sessions ensures o != s.nextSid { assert SessionOk(s, o); }
    OthersOk(s, s', t);
    forall m <- s'.store.records ensures EntryOk(s', m) { EnterEntry(s, t, name, m); }
    forall o <- s'.sessions ensures SessionOk(s', o) { EnterSession(s, t, name, o); }
  }

  lemma EnterEntry(s: State, t: nat, name: Name, m: Name)
    requires Inv(s) && t in s.pcs && s.pcs[t] == Open1(name) && name in s.store.records && m in s.store.records
    requires s.nextSid !in s.sessions
    ensures EntryOk(Enter(s, t, name), m)
  {
    assert PcOk(s, t) && EntryOk(s, m);
    HoldersChange(s.sessions, s.nextSid, Session(t, name, s.store.records[name].flags, None), m);
  }

  lemma EnterSession(s: State, t: nat, name: Name, o: nat)
    requires Inv(s) && t in s.pcs && name in s.store.records && o in Enter(s, t, name).sessions && s.nextSid !in s.sessions
    ensures SessionOk(Enter(s, t, name), o)
  {
    if o != s.nextSid { assert SessionOk(s, o); }
  }

  lemma ReturnKeeps(s: State, t: nat)
    requires Inv(s) && t in s.pcs && s.pcs[t].Reading?
    ensures Inv(Next(s, Step(t)))
    ensures Next(s, Step(t)) == Return(s, t, s.pcs[t].sid)
  {
    var sid, s' := s.pcs[t].sid, Next(s, Step(t));
    assert PcOk(s, t) && SessionOk(s, sid) && EntryOk(s, s.sessions[sid].name);
    OthersOk(s, s', t);
    forall m <- s'.store.records ensures EntryOk(s', m) {
      SameHolders(s.sessions, sid, s'.sessions[sid], m);
      if s.mutex.Some? { assert PcOk(s, s.mutex.value); }
      SameEntryOk(s, s', m);
    }
    forall o <- s'.sessions ensures SessionOk(s', o) { assert SessionOk(s, o); }
  }

  lemma LeaveKeeps(s: State, t: nat)
    requires Inv(s) && t in s.pcs && s.pcs[t].Close0?
    ensures Inv(Next(s, Step(t)))
  {
    var sid, s' := s.pcs[t].sid, Next(s, Step(t));
    assert PcOk(s, t) && SessionOk(s, sid) && EntryOk(s, s.sessions[sid].name);
    OthersOk(s, s', t);
    forall m <- s'.store.records ensures EntryOk(s', m) {
      assert EntryOk(s, m);
      HoldersLess(s.sessions, sid, m);
    }
    forall o <- s'.sessions ensures SessionOk(s', o) { assert SessionOk(s, o); }
  }

  lemma UnlockKeeps(s: State, t: nat)
    requires Inv(s) && t in s.pcs && (s.pcs[t].Create3? || s.pcs[t].Close1? || s.pcs[t].Destroy3?)
    ensures Inv(Next(s, Step(t)))
  {
    assert PcOk(s, t);
    MoveKeeps(s, t, Idle, None);
  }

  lemma OpenedKeeps(s: State, t: nat)
    requires Inv(s) && t in s.pcs && s.pcs[t].Open2?
    ensures Inv(Next(s, Step(t)))
  {
    assert PcOk(s, t);
    MoveKeeps(s, t, Waiting(s.pcs[t].sid), None);
  }

  lemma WaitingKeeps(s: State, t: nat)
    requires Inv(s) && t in s.pcs && s.pcs[t].Waiting? && Enabled(s, Step(t))
    ensures Inv(Next(s, Step(t)))
  {
    assert PcOk(s, t);
    EntryOfSession(s, s.pcs[t].sid);
    MoveKeeps(s, t, Reading(s.pcs[t].sid), s.mutex);
  }

  lemma LookKeeps(s: State, t: nat)
    requires Inv(s) && t in s.pcs && s.pcs[t].Destroy0? && Enabled(s, Step(t))
    ensures Inv(Next(s, Step(t)))
  {
    assert PcOk(s, t);
    var name := s.pcs[t].name;
    MoveKeeps(s, t, if s.store.records[name].holders == 0 then Destroy1(name) else Destroy3(false), s.mutex);
  }

  lemma StepKeeps(s: State, a: Action)
    requires Inv(s) && Enabled(s, a)
    ensures Inv(Next(s, a))
  {
    match a
    case Lock(t, call) =>
      assert PcOk(s, t);
      MoveKeeps(s, t, Entry(call), Some(t));
    case Step(t) =>
      assert PcOk(s, t);
      match s.pcs[t]
      case Create0(name, data) => GetOrCreateKeeps(s, t, name, Create1(name, data));
      case Create1(_, _) => StorePointerKeeps(s, t);
      case Create2(_) => SetReadyKeeps(s, t);
      case Open0(name) => GetOrCreateKeeps(s, t, name, Open1(name));
      case Open1(_) => EnterKeeps(s, t);
      case Reading(_) => ReturnKeeps(s, t);
      case Close0(_) => LeaveKeeps(s, t);
      case Destroy1(_) => FreeFlagsKeeps(s, t);
      case Destroy2(_) => EraseKeeps(s, t);
      case Open2(_) => OpenedKeeps(s, t);
      case Waiting(_) => WaitingKeeps(s, t);
      case Destroy0(_) => LookKeeps(s, t);
      case _ => UnlockKeeps(s, t);
  }

  // ---------------------------------------------------------------- whole runs

  /** furi_record_init, with any finite set of threads. */
  predicate Initial(s: State) {
    && s.store.records == map[] && s.mutex == None && s.sessions == map[] && s.created == map[] && !s.fault
    && forall t <- s.pcs :: s.pcs[t] == Idle
  }

  ghost predicate Reachable(s: State, run: seq<Action>, s': State)
    decreases |run|
  {
    if run == [] then s == s'
    else Enabled(s, run[0]) && Reachable(Next(s, run[0]), run[1..], s')
  }

  lemma {:induction false} RunKeeps(s: State, run: seq<Action>, s': State)
    requires Inv(s) && Reachable(s, run, s')
    ensures Inv(s')
    decreases |run|
  {
    if run != [] {
      StepKeeps(s, run[0]);
      RunKeeps(Next(s, run[0]), run[1..], s');
    }
  }

  /** In every interleaving of any number of threads: no thread touches an event flag or an entry
      that is gone, the number of holders is the number of opens that were counted and not closed,
      the entry of every such open is still that of its own incarnation, and what it has returned is
      the pointer that was given to the create of that incarnation. */
  lemma Safety(s: State, run: seq<Action>, s': State)
    requires Initial(s) && Reachable(s, run, s')
    ensures !s'.fault
    ensures forall name <- s'.store.records :: s'.store.records[name].holders == |Holders(s'.sessions, name)|
    ensures forall sid <- s'.sessions :: SameEntry(s', sid) && s'.sessions[sid].flags in s'.store.ready
    ensures forall sid <- s'.sessions :: s'.sessions[sid].got.Some? ==>
              && SameEntry(s', sid) && s'.sessions[sid].flags in s'.created
              && s'.sessions[sid].got.value == s'.created[s'.sessions[sid].flags]
              && s'.store.records[s'.sessions[sid].name].data == s'.sessions[sid].got.value
  {
    assert Inv(s);
    RunKeeps(s, run, s');
    forall name <- s'.store.records ensures s'.store.records[name].holders == |Holders(s'.sessions, name)| {
      assert EntryOk(s', name);
    }
    forall sid <- s'.sessions
      ensures SameEntry(s', sid) && s'.sessions[sid].flags in s'.store.ready
      ensures s'.sessions[sid].got.Some? ==>
                && s'.sessions[sid].flags in s'.created && s'.sessions[sid].got.value == s'.created[s'.sessions[sid].flags]
                && s'.store.records[s'.sessions[sid].name].data == s'.sessions[sid].got.value
    {
      EntryOfSession(s', sid);
    }
  }

  lemma EntryOfSession(s: State, sid: nat)
    requires Inv(s) && sid in s.sessions
    ensures SessionOk(s, sid) && s.sessions[sid].flags in s.store.ready
    ensures s.sessions[sid].got.Some? ==> s.store.records[s.sessions[sid].name].data == s.sessions[sid].got.value
  {
    assert SessionOk(s, sid) && EntryOk(s, s.sessions[sid].name);
    if BeingErased(s, s.sessions[sid].name) {
      assert PcOk(s, s.mutex.value);
      NoHolders(s, s.sessions[sid].name);
      assert false;
    }
  }

  /** An open that has been counted stays until its own thread closes it, whatever the others do. */
  lemma OnlyOwnCloseEnds(s: State, a: Action, sid: nat)
    requires Inv(s) && Enabled(s, a) && sid in s.sessions
    ensures sid in Next(s, a).sessions || (s.pcs[a.t] == Close0(sid) && a.t == s.sessions[sid].owner)
  {
    assert PcOk(s, a.t);
  }

  /** A thread that waits goes on exactly if its incarnation has been made ready. */
  lemma WaitEndsIff(s: State, t: nat)
    requires Inv(s) && t in s.pcs && s.pcs[t].Waiting?
    ensures s.pcs[t].sid in s.sessions && s.sessions[s.pcs[t].sid].flags in s.store.ready
    ensures Enabled(s, Step(t)) <==> s.store.ready[s.sessions[s.pcs[t].sid].flags]
    ensures Enabled(s, Step(t)) ==> Next(s, Step(t)) == At(s, t, Reading(s.pcs[t].sid))
  {
    assert PcOk(s, t);
    EntryOfSession(s, s.pcs[t].sid);
  }

  /** The pointer of an incarnation never changes, and as long as it is open it stays ready. */
  lemma StaysReady(s: State, a: Action, f: nat, sid: nat)
    requires Inv(s) && Enabled(s, a)
    ensures f in s.created ==> f in Next(s, a).created && Next(s, a).created[f] == s.created[f]
    ensures sid in s.sessions && s.sessions[sid].flags == f && f in s.store.ready && s.store.ready[f] ==>
              f in Next(s, a).store.ready && Next(s, a).store.ready[f]
  {
    assert PcOk(s, a.t);
    if a.Step? && s.pcs[a.t].Destroy1? { NoHolders(s, s.pcs[a.t].name); }
  }

  /** Once it waits has passed, an open can return at any time, with that pointer. */
  lemma ReadingReturns(s: State, t: nat)
    requires Inv(s) && t in s.pcs && s.pcs[t].Reading?
    ensures var sid := s.pcs[t].sid;
            && sid in s.sessions && s.sessions[sid].flags in s.created && Enabled(s, Step(t))
            && Next(s, Step(t)).pcs[t] == Idle && sid in Next(s, Step(t)).sessions
            && Next(s, Step(t)).sessions[sid].got == Some(s.created[s.sessions[sid].flags])
  {
    assert PcOk(s, t);
    var sid := s.pcs[t].sid;
    assert SessionOk(s, sid) && EntryOk(s, s.sessions[sid].name);
  }

  /** In every reachable state, an open that waits for an incarnation whose pointer has been stored goes on once
      no thread is about to make it ready, and returns that pointer with its next step. */
  lemma OpenReturns(start: State, run: seq<Action>, s: State, t: nat)
    requires Initial(start) && Reachable(start, run, s)
    requires t in s.pcs && s.pcs[t].Waiting? && s.pcs[t].sid in s.sessions
    requires s.sessions[s.pcs[t].sid].flags in s.created
    requires forall u <- s.pcs :: s.pcs[u] != Create2(s.sessions[s.pcs[t].sid].name)
    ensures Enabled(s, Step(t)) && Enabled(Next(s, Step(t)), Step(t))
    ensures var sid, end := s.pcs[t].sid, Next(Next(s, Step(t)), Step(t));
            && sid in end.sessions && end.sessions[sid].got == Some(s.created[s.sessions[sid].flags]) && end.pcs[t] == Idle
  {
    assert Inv(start);
    RunKeeps(start, run, s);
    var sid := s.pcs[t].sid;
    assert PcOk(s, t);
    EntryOfSession(s, sid);
    assert EntryOk(s, s.sessions[sid].name) && !BeingMadeReady(s, s.sessions[sid].name);
    WaitEndsIff(s, t);
    StepKeeps(s, Step(t));
    ReadingReturns(Next(s, Step(t)), t);
  }

  /** A destroy removes the record exactly if nobody has it open or waits for it. */
  lemma DestroyIff(s: State, t: nat)
    requires Inv(s) && t in s.pcs && s.pcs[t].Destroy0? && Enabled(s, Step(t))
    ensures var name := s.pcs[t].name;
            Next(s, Step(t)).pcs[t] == if Holders(s.sessions, name) == {} then Destroy1(name) else Destroy3(false)
  {
    assert EntryOk(s, s.pcs[t].name);
  }

  // ---------------------------------------------------------------- critical sections

  /** What a thread that holds the mutex is still going to do to the dictionary and the flags. */
  function Remaining(s: State, pc: Pc): Store {
    var st := s.store;
    match pc
    case Create0(name, data) => Created(st, name, data)
    case Create1(name, data) => if name in st.records then SetReady(SetData(st, name, data), name) else st
    case Create2(name) => if name in st.records then SetReady(st, name) else st
    case Open0(name) => Opened(st, name)
    case Open1(name) => if name in st.records then AddHolders(st, name, 1) else st
    case Close0(sid) => if SameEntry(s, sid) then AddHolders(st, s.sessions[sid].name, -1) else st
    case Destroy0(name) => Destroyed(st, name)
    case Destroy1(name) => if name in st.records then Erase(FreeFlags(st, name), name) else st
    case Destroy2(name) => Erase(st, name)
    case _ => st
  }

  /** The effect of a whole furi_record_create, of an open up to its wait, and of a destroy. */
  function Created(st: Store, name: Name, data: nat): Store {
    var e := GetOrCreate(st, name);
    SetReady(SetData(e, name, data), name)
  }

  function Opened(st: Store, name: Name): Store {
    AddHolders(GetOrCreate(st, name), name, 1)
  }

  function Destroyed(st: Store, name: Name): Store {
    if name in st.records && st.records[name].holders == 0 then Erase(FreeFlags(st, name), name) else st
  }

  /** What will have been done when t releases the mutex is the same in s and s'; or it has just released it. */
  predicate AsBefore(s: State, s': State, t: nat) {
    && t in s.pcs && t in s'.pcs
    && Remaining(s', s'.pcs[t]) == Remaining(s, s.pcs[t])
    && (s'.mutex == Some(t) || s'.store == Remaining(s, s.pcs[t]))
  }

  /** While a thread holds the mutex, no step of any thread changes what will have been done when
      it is released: the statements in between act as one. */
  lemma SectionStep(s: State, a: Action, t: nat)
    requires Inv(s) && Enabled(s, a) && s.mutex == Some(t)
    ensures AsBefore(s, Next(s, a), t)
  {
    assert PcOk(s, t) && PcOk(s, a.t);
    if a.t == t {
      OwnStep(s, t);
    } else if s.pcs[a.t].Waiting? {
      WaitEndsIff(s, a.t);
    } else {
      ReturnKeeps(s, a.t);
    }
  }

  lemma OwnStep(s: State, t: nat)
    requires Inv(s) && Enabled(s, Step(t)) && s.mutex == Some(t)
    ensures AsBefore(s, Next(s, Step(t)), t)
  {
    assert PcOk(s, t);
    match s.pcs[t]
    case Close0(sid) => OwnLeave(s, t);
    case Create0(_, _) => OwnEntry(s, t);
    case Open0(_) => OwnEntry(s, t);
    case Create1(name, _) => OwnStorePointer(s, t);
    case Create2(name) => OwnSetReady(s, t);
    case Destroy1(name) => OwnFree(s, t);
    case Destroy2(name) => OwnErase(s, t);
    case Open1(_) => OwnEnter(s, t);
    case Destroy0(_) => OwnLook(s, t);
    case _ => OwnUnlock(s, t);
  }

  lemma OwnUnlock(s: State, t: nat)
    requires t in s.pcs && (s.pcs[t].Open2? || s.pcs[t].Create3? || s.pcs[t].Close1? || s.pcs[t].Destroy3?)
    ensures AsBefore(s, Next(s, Step(t)), t)
  {
  }

  lemma OwnErase(s: State, t: nat)
    requires t in s.pcs && s.pcs[t].Destroy2?
    ensures AsBefore(s, Next(s, Step(t)), t)
  {
  }

  lemma OwnLook(s: State, t: nat)
    requires Inv(s) && s.mutex == Some(t) && t in s.pcs && s.pcs[t].Destroy0? && Enabled(s, Step(t))
    ensures AsBefore(s, Next(s, Step(t)), t)
  {
    var name := s.pcs[t].name;
    var pc := if s.store.records[name].holders == 0 then Destroy1(name) else Destroy3(false);
    assert Next(s, Step(t)) == At(s, t, pc) && Remaining(At(s, t, pc), pc) == Destroyed(s.store, name);
  }

  lemma OwnEnter(s: State, t: nat)
    requires Inv(s) && s.mutex == Some(t) && t in s.pcs && s.pcs[t].Open1?
    ensures AsBefore(s, Next(s, Step(t)), t)
  {
    assert PcOk(s, t);
  }

  lemma OwnEntry(s: State, t: nat)
    requires Inv(s) && s.mutex == Some(t) && t in s.pcs && (s.pcs[t].Create0? || s.pcs[t].Open0?)
    ensures AsBefore(s, Next(s, Step(t)), t)
  {
  }

  lemma OwnLeave(s: State, t: nat)
    requires Inv(s) && t in s.pcs && s.pcs[t].Close0?
    ensures AsBefore(s, Next(s, Step(t)), t)
  {
    assert PcOk(s, t);
    EntryOfSession(s, s.pcs[t].sid);
  }

  lemma OwnStorePointer(s: State, t: nat)
    requires Inv(s) && s.mutex == Some(t) && t in s.pcs && s.pcs[t].Create1? && Enabled(s, Step(t))
    ensures AsBefore(s, Next(s, Step(t)), t)
  {
    assert PcOk(s, t);
  }

  lemma OwnSetReady(s: State, t: nat)
    requires Inv(s) && s.mutex == Some(t) && t in s.pcs && s.pcs[t].Create2?
    ensures AsBefore(s, Next(s, Step(t)), t)
  {
    assert PcOk(s, t) && EntryOk(s, s.pcs[t].name);
  }

  lemma OwnFree(s: State, t: nat)
    requires Inv(s) && s.mutex == Some(t) && t in s.pcs && s.pcs[t].Destroy1?
    ensures AsBefore(s, Next(s, Step(t)), t)
  {
    assert PcOk(s, t) && EntryOk(s, s.pcs[t].name);
  }

  /** The mutex is held by t after every action of the run. */
  ghost predicate HeldThroughout(s: State, run: seq<Action>, t: nat)
    decreases |run|
  {
    s.mutex == Some(t) && (run == [] || (Enabled(s, run[0]) && HeldThroughout(Next(s, run[0]), run[1..], t)))
  }

  /** Whatever the other threads do in between, from taking the mutex to releasing it a thread
      changes the dictionary and the flags as if it had been alone. */
  lemma {:induction false} SectionIsAtomic(s: State, run: seq<Action>, a: Action, t: nat, s': State)
    requires Inv(s) && HeldThroughout(s, run, t) && Reachable(s, run, s') && Enabled(s', a) && Next(s', a).mutex != Some(t)
    ensures Next(s', a).store == Remaining(s, s.pcs[t])
    decreases |run|
  {
    if run == [] {
      SectionStep(s, a, t);
    } else {
      SectionStep(s, run[0], t);
      StepKeeps(s, run[0]);
      SectionIsAtomic(Next(s, run[0]), run[1..], a, t, s');
    }
  }

  // ---------------------------------------------------------------- the critical sections as code

  /** The shared state behind the mutex. */
  class RecordTable {
    var records: map<Name, RecordData>
    var ready: map<nat, bool>
    var nextFlag: nat

    ghost function Contents(): Store
      reads this
    {
      Store(records, ready, nextFlag)
    }

    constructor ()
      ensures Contents() == Store(map[], map[], 0)
    {
      records, ready, nextFlag := map[], map[], 0;
    }

    method GetOrCreateEntry(name: Name) returns (data: RecordData)
      modifies this
      ensures Contents() == GetOrCreate(old(Contents()), name)
      ensures name in records && data == records[name]
      ensures if name in old(records) then records == old(records) && ready == old(ready)
              else records == old(records)[name := RecordData(old(nextFlag), 0, 0)] && ready == old(ready)[old(nextFlag) := false]
    {
      if name !in records {
        ready, nextFlag := ready[nextFlag := false], nextFlag + 1;
        records := records[name := RecordData(nextFlag - 1, 0, 0)];
      }
      data := records[name];
    }

    method Create(name: Name, data: nat)
      modifies this
      ensures Contents() == Created(old(Contents()), name, data)
      ensures name in records && records[name].data == data && records - {name} == old(records) - {name}
      ensures records[name].flags in ready && ready[records[name].flags]
    {
      var entry := GetOrCreateEntry(name);
      records := records[name := entry.(data := data)];
      ready := ready[entry.flags := true];
    }

    /** furi_record_open as far as the mutex reaches. */
    method Open(name: Name) returns (flags: nat)
      modifies this
      ensures Contents() == Opened(old(Contents()), name)
      ensures name in records && flags == records[name].flags && records - {name} == old(records) - {name}
      ensures records[name].holders == 1 + if name in old(records) then old(records[name].holders) else 0
    {
      var entry := GetOrCreateEntry(name);
      records := records[name := entry.(holders := entry.holders + 1)];
      flags := entry.flags;
    }

    method Close(name: Name)
      requires name in records
      modifies this
      ensures Contents() == AddHolders(old(Contents()), name, -1)
      ensures records == old(records)[name := old(records[name]).(holders := old(records[name].holders) - 1)]
    {
      records := records[name := records[name].(holders := records[name].holders - 1)];
    }

    method Destroy(name: Name) returns (ret: bool)
      requires name in records
      modifies this
      ensures Contents() == Destroyed(old(Contents()), name)
      ensures ret <==> name !in records
      ensures ret <==> old(records[name].holders) == 0
      ensures if ret then records == old(records) - {name} && ready == old(ready) - {old(records[name].flags)}
              else records == old(records) && ready == old(ready)
    {
      ret := false;
      if records[name].holders == 0 {
        ready := ready - {records[name].flags};
        records := records - {name};
        ret := true;
      }
    }
  }
}
