/** The two maps of challenge responses, which issuance tasks update by load, clone and store
    (src/acme.rs, src/tls.rs). */
module Challenges {
  import opened Prelude

  /** Where a response is kept: by HTTP-01 token, or by TLS-ALPN-01 domain. */
  datatype Slot = Token(token: string) | Validation(domain: string)

  datatype Edit = Put(slot: Slot, value: string) | Drop(slot: Slot)

  /** Token to key authorization, and domain to validation certificate. */
  datatype Shared = Shared(tokens: map<string, string>, certs: map<string, string>)

  const NO_RESPONSES := Shared(map[], map[])

  function Name(slot: Slot): string {
    match slot case Token(t) => t case Validation(d) => d
  }

  /** The map a slot is in. */
  function Cell(sh: Shared, slot: Slot): map<string, string> {
    if slot.Token? then sh.tokens else sh.certs
  }

  function WithCell(sh: Shared, slot: Slot, cell: map<string, string>): Shared {
    if slot.Token? then Shared(cell, sh.certs) else Shared(sh.tokens, cell)
  }

  function Get(sh: Shared, slot: Slot): Option<string> {
    var cell := Cell(sh, slot);
    if Name(slot) in cell then Some(cell[Name(slot)]) else None
  }

  function EditCell(e: Edit, cell: map<string, string>): map<string, string> {
    match e
    case Put(slot, value) => cell[Name(slot) := value]
    case Drop(slot) => cell - {Name(slot)}
  }

  /** An update that nothing interrupts. */
  function Apply(e: Edit, sh: Shared): Shared {
    WithCell(sh, e.slot, EditCell(e, Cell(sh, e.slot)))
  }

  lemma {:induction false} ApplyGets(e: Edit, sh: Shared, slot: Slot)
    ensures Get(Apply(e, sh), slot)
            == if slot != e.slot then Get(sh, slot) else if e.Put? then Some(e.value) else None
  {
  }

  function Replay(log: seq<Edit>, k: nat): Shared
    requires k <= |log|
  {
    if k == 0 then NO_RESPONSES else Apply(log[k - 1], Replay(log, k - 1))
  }

  lemma {:induction false} ReplayPrefix(log: seq<Edit>, e: Edit, k: nat)
    requires k <= |log|
    ensures Replay(log + [e], k) == Replay(log, k)
  {
    hide Apply;
    if k > 0 {
      ReplayPrefix(log, e, k - 1);
    }
  }

  lemma {:induction false} ReplayOneMore(log: seq<Edit>, e: Edit)
    ensures Replay(log + [e], |log + [e]|) == Apply(e, Replay(log, |log|))
  {
    hide Apply;
    ReplayPrefix(log, e, |log|);
  }

  // ----- issuance tasks

  /** An update between its load and its store, with the map it loaded. */
  datatype Pending = Pending(edit: Edit, snapshot: map<string, string>)

  /** A task past the lock: the maps when it got there, the slots it has filled and with what,
      how many it has emptied once it tears down, and its update in flight. */
  datatype Task = Task(before: Shared, active: seq<Slot>, mine: map<Slot, string>,
                       tornDown: Option<nat>, pending: Option<Pending>)

  datatype State = State(lock: Option<nat>, tasks: map<nat, Task>, shared: Shared, log: seq<Edit>)

  datatype Action =
    | Acquire(t: nat)
    | Load(t: nat, edit: Edit)
    | Store(t: nat)
    | Finalize(t: nat)
    | Finish(t: nat)
    | Abort(t: nat)

  /** What a task may update next: a new response while it sets up; after finalization, its
      slots in order. */
  predicate MayEdit(task: Task, e: Edit) {
    if task.tornDown.None? then e.Put?
    else task.tornDown.value < |task.active| && e == Drop(task.active[task.tornDown.value])
  }

  /** `locked` is false for a program without the lock. */
  predicate Enabled(locked: bool, s: State, a: Action) {
    if a.Acquire? then a.t !in s.tasks && (locked ==> s.lock.None?)
    else
      && a.t in s.tasks
      && var task := s.tasks[a.t];
         match a
         case Load(_, e) => task.pending.None? && MayEdit(task, e)
         case Store(_) => task.pending.Some?
         case Finalize(_) => task.pending.None? && task.tornDown.None?
         case Finish(_) => task.pending.None? && task.tornDown == Some(|task.active|)
         case Abort(_) => task.pending.None? && task.tornDown.None?
  }

  function Stored(task: Task, e: Edit): Task {
    match e
    case Put(slot, value) =>
      task.(active := task.active + [slot], mine := task.mine[slot := value], pending := None)
    case Drop(_) =>
      task.(tornDown := if task.tornDown.Some? then Some(task.tornDown.value + 1) else None, pending := None)
  }

  function Step(s: State, a: Action): State
    requires !a.Acquire? ==> a.t in s.tasks
    requires a.Store? ==> s.tasks[a.t].pending.Some?
  {
    match a
    case Acquire(t) => s.(lock := Some(t), tasks := s.tasks[t := Task(s.shared, [], map[], None, None)])
    case Load(t, e) => s.(tasks := s.tasks[t := s.tasks[t].(pending := Some(Pending(e, Cell(s.shared, e.slot))))])
    case Store(t) =>
      var p := s.tasks[t].pending.value;
      State(s.lock, s.tasks[t := Stored(s.tasks[t], p.edit)],
            WithCell(s.shared, p.edit.slot, EditCell(p.edit, p.snapshot)), s.log + [p.edit])
    case Finalize(t) => s.(tasks := s.tasks[t := s.tasks[t].(tornDown := Some(0))])
    case Finish(t) => s.(lock := None, tasks := s.tasks - {t})
    case Abort(t) => s.(lock := None, tasks := s.tasks - {t})
  }

  /** Actions that cannot happen do nothing. */
  function Next(locked: bool, s: State, a: Action): State {
    if Enabled(locked, s, a) then Step(s, a) else s
  }

  const INITIAL := State(None, map[], NO_RESPONSES, [])

  function After(locked: bool, acts: seq<Action>, k: nat): State
    requires k <= |acts|
  {
    if k == 0 then INITIAL else Next(locked, After(locked, acts, k - 1), acts[k - 1])
  }

  // ----- with the lock

  /** While a task sets up, its responses are served; while it tears down, those done are gone;
      and at no time has it touched another slot. */
  ghost predicate Keeps(task: Task, sh: Shared) {
    && (forall slot :: slot in task.active <==> slot in task.mine)
    && (forall slot :: slot !in task.active ==> Get(sh, slot) == Get(task.before, slot))
    && (task.tornDown.None? ==> forall slot :: slot in task.active ==> Get(sh, slot) == Some(task.mine[slot]))
    && (task.tornDown.Some? ==>
          && task.tornDown.value <= |task.active|
          && forall i :: 0 <= i < task.tornDown.value ==> Get(sh, task.active[i]) == None)
    && (task.pending.Some? ==>
          && MayEdit(task, task.pending.value.edit)
          && task.pending.value.snapshot == Cell(sh, task.pending.value.edit.slot))
  }

  ghost predicate Inv(s: State) {
    && (forall t :: t in s.tasks ==> s.lock == Some(t) && Keeps(s.tasks[t], s.shared))
    && (s.lock.Some? ==> s.lock.value in s.tasks)
    && s.shared == Replay(s.log, |s.log|)
  }

  lemma {:induction false} AcquireKeeps(sh: Shared)
    ensures Keeps(Task(sh, [], map[], None, None), sh)
  {
  }

  lemma {:induction false} LoadKeeps(task: Task, sh: Shared, e: Edit)
    requires Keeps(task, sh) && MayEdit(task, e)
    ensures Keeps(task.(pending := Some(Pending(e, Cell(sh, e.slot)))), sh)
  {
    hide Get;
  }

  lemma {:induction false} StoreKeeps(task: Task, sh: Shared)
    requires Keeps(task, sh) && task.pending.Some?
    ensures var e := task.pending.value.edit;
            Keeps(Stored(task, e), Apply(e, sh))
  {
    hide Get, Apply, Cell;
    var e := task.pending.value.edit;
    forall slot
      ensures Get(Apply(e, sh), slot)
              == if slot != e.slot then Get(sh, slot) else if e.Put? then Some(e.value) else None
    {
      ApplyGets(e, sh, slot);
    }
  }

  lemma {:induction false} FinalizeKeeps(task: Task, sh: Shared)
    requires Keeps(task, sh) && task.pending.None? && task.tornDown.None?
    ensures Keeps(task.(tornDown := Some(0)), sh)
  {
    hide Get;
  }

  /** Every action of every task keeps the invariant, as long as writers hold the lock. */
  lemma {:induction false} NextKeeps(s: State, a: Action)
    requires Inv(s)
    ensures Inv(Next(true, s, a))
  {
    hide Keeps, Replay, Apply, MayEdit, Stored;
    if Enabled(true, s, a) {
      match a
      case Acquire(t) => AcquireKeeps(s.shared);
      case Load(t, e) => LoadKeeps(s.tasks[t], s.shared, e);
      case Store(t) =>
        var task := s.tasks[t];
        StoreKeeps(task, s.shared);
        StoreApplies(task, s.shared);
        ReplayOneMore(s.log, task.pending.value.edit);
      case Finalize(t) => FinalizeKeeps(s.tasks[t], s.shared);
      case Finish(t) =>
      case Abort(t) =>
    }
  }

  /** The stored map is the current one with the edit applied: nothing came in between. */
  lemma {:induction false} StoreApplies(task: Task, sh: Shared)
    requires Keeps(task, sh) && task.pending.Some?
    ensures var p := task.pending.value;
            WithCell(sh, p.edit.slot, EditCell(p.edit, p.snapshot)) == Apply(p.edit, sh)
  {
    hide Get;
  }

  lemma {:induction false} RunKeeps(acts: seq<Action>, k: nat)
    requires k <= |acts|
    ensures Inv(After(true, acts, k))
  {
    hide Inv, Next;
    if k == 0 {
      InitialKeeps();
    } else {
      RunKeeps(acts, k - 1);
      NextKeeps(After(true, acts, k - 1), acts[k - 1]);
    }
  }

  lemma {:induction false} InitialKeeps()
    ensures Inv(INITIAL)
  {
  }

  /** In every interleaving no update is lost: at every point the maps are what the updates
      stored so far give when applied one after the other. */
  lemma {:induction false} NoUpdateLost(acts: seq<Action>, k: nat)
    requires k <= |acts|
    ensures var s := After(true, acts, k); s.shared == Replay(s.log, |s.log|)
  {
    hide After, Keeps, Replay;
    RunKeeps(acts, k);
  }

  /** In every interleaving, a task that finishes leaves none of its responses behind and every
      other slot as it found it. */
  lemma {:induction false} FinishLeavesNothing(acts: seq<Action>, k: nat, t: nat, slot: Slot)
    requires k <= |acts| && Enabled(true, After(true, acts, k), Finish(t))
    ensures var s := After(true, acts, k);
            Get(Next(true, s, Finish(t)).shared, slot)
            == if slot in s.tasks[t].active then None else Get(s.tasks[t].before, slot)
  {
    hide After, Replay, Get;
    RunKeeps(acts, k);
  }

  /** And while it waits for the authority, all its responses are there to be read. */
  lemma {:induction false} ResponsesServed(acts: seq<Action>, k: nat, t: nat, slot: Slot)
    requires k <= |acts| && Enabled(true, After(true, acts, k), Finalize(t))
    requires slot in After(true, acts, k).tasks[t].active
    ensures var s := After(true, acts, k);
            slot in s.tasks[t].mine && Get(s.shared, slot) == Some(s.tasks[t].mine[slot])
  {
    hide After, Replay, Get;
    RunKeeps(acts, k);
  }

  lemma {:induction false} LockedStep(acts: seq<Action>, k: nat)
    requires k < |acts|
    ensures After(true, acts, k + 1) == Next(true, After(true, acts, k), acts[k])
  {
  }

  /** The state in which a task that has the lock has put one response in place. */
  function OneInPlace(slot: Slot, value: string): State {
    State(Some(0), map[0 := Task(NO_RESPONSES, [slot], map[slot := value], None, None)],
          Apply(Put(slot, value), NO_RESPONSES), [Put(slot, value)])
  }

  lemma {:induction false} PutGoesThrough(slot: Slot, value: string)
    ensures var s1 := Next(true, INITIAL, Acquire(0));
            var s2 := Next(true, s1, Load(0, Put(slot, value)));
            Next(true, s2, Store(0)) == OneInPlace(slot, value)
  {
    hide Cell, WithCell, EditCell;
    var s1 := Next(true, INITIAL, Acquire(0));
    assert s1.tasks == map[0 := Task(NO_RESPONSES, [], map[], None, None)] && s1.lock == Some(0);
    var s2 := Next(true, s1, Load(0, Put(slot, value)));
    assert s2.tasks[0].pending == Some(Pending(Put(slot, value), Cell(NO_RESPONSES, slot)));
    var s3 := Next(true, s2, Store(0));
    var no: map<Slot, string> := map[];
    assert no[slot := value] == map[slot := value] && [] + [slot] == [slot];
    assert s3.tasks[0] == Task(NO_RESPONSES, [slot], map[slot := value], None, None);
    assert s3.tasks == OneInPlace(slot, value).tasks;
    assert s3.log == [Put(slot, value)];
  }

  lemma {:induction false} DropGoesThrough(slot: Slot, value: string)
    ensures var s4 := Next(true, OneInPlace(slot, value), Finalize(0));
            var s5 := Next(true, s4, Load(0, Drop(slot)));
            var s6 := Next(true, s5, Store(0));
            var s7 := Next(true, s6, Finish(0));
            s7.log == [Put(slot, value), Drop(slot)] && s7.lock == None && s7.tasks == map[]
  {
    hide Cell, WithCell, EditCell, Apply;
    var s4 := Next(true, OneInPlace(slot, value), Finalize(0));
    assert s4.tasks[0].tornDown == Some(0) && s4.tasks[0].pending.None? && s4.tasks[0].active == [slot];
    var s5 := Next(true, s4, Load(0, Drop(slot)));
    assert s5.tasks[0].pending.Some? && s5.tasks[0].pending.value.edit == Drop(slot);
    var s6 := Next(true, s5, Store(0));
    assert s6.tasks.Keys == {0} && s6.tasks[0].tornDown == Some(1) && s6.tasks[0].pending.None? && |s6.tasks[0].active| == 1;
  }

  /** A run that goes through: a task takes the lock, puts a response in place, has it read, removes
      it and releases the lock, and then another can take it. */
  lemma {:induction false} RunGoesThrough(slot: Slot, value: string)
    ensures var acts := [Acquire(0), Load(0, Put(slot, value)), Store(0), Finalize(0), Load(0, Drop(slot)), Store(0), Finish(0)];
            && Get(After(true, acts, 3).shared, slot) == Some(value)
            && After(true, acts, 7).log == [Put(slot, value), Drop(slot)]
            && After(true, acts, 7).lock == None && Enabled(true, After(true, acts, 7), Acquire(1))
  {
    hide After, Next, Apply, Get;
    var acts := [Acquire(0), Load(0, Put(slot, value)), Store(0), Finalize(0), Load(0, Drop(slot)), Store(0), Finish(0)];
    InitialAfter(acts);
    LockedStep(acts, 0);
    LockedStep(acts, 1);
    LockedStep(acts, 2);
    PutGoesThrough(slot, value);
    ApplyGets(Put(slot, value), NO_RESPONSES, slot);
    LockedStep(acts, 3);
    LockedStep(acts, 4);
    LockedStep(acts, 5);
    LockedStep(acts, 6);
    DropGoesThrough(slot, value);
  }

  lemma {:induction false} InitialAfter(acts: seq<Action>)
    ensures After(true, acts, 0) == INITIAL
  {
  }

  // ----- without it

  lemma {:induction false} AfterStep(acts: seq<Action>, k: nat)
    requires k < |acts|
    ensures After(false, acts, k + 1) == Next(false, After(false, acts, k), acts[k])
  {
  }

  /** Two tasks that have both loaded: the second store undoes the first. */
  lemma {:induction false} SecondStoreWins(s: State, a: Edit, b: Edit)
    requires 0 in s.tasks && 1 in s.tasks
    requires a == Put(Token("a"), "x") && b == Put(Token("b"), "y")
    requires s.tasks[0].pending == Some(Pending(a, map[])) && s.tasks[1].pending == Some(Pending(b, map[]))
    requires s.log == []
    ensures var t := Next(false, Next(false, s, Store(0)), Store(1));
            t.log == [a, b] && "a" !in t.shared.tokens
  {
    var m := Next(false, s, Store(0));
    assert m.log == [a] && m.tasks[1] == s.tasks[1];
    assert EditCell(b, map[]) == map["b" := "y"];
  }

  /** Without the lock two tasks can both load before either stores, and an update is lost. */
  lemma {:induction false} LostWithoutLock()
    ensures exists acts: seq<Action> ::
              var s := After(false, acts, |acts|); s.shared != Replay(s.log, |s.log|)
  {
    var a, b := Put(Token("a"), "x"), Put(Token("b"), "y");
    var acts := [Acquire(0), Acquire(1), Load(0, a), Load(1, b), Store(0), Store(1)];
    BothLoad(acts, a, b);
    AfterStep(acts, 4);
    AfterStep(acts, 5);
    SecondStoreWins(After(false, acts, 4), a, b);
    hide After, Next;
    assert "a" in Replay([a, b], 2).tokens;
    assert |acts| == 6;
  }

  lemma {:induction false} BothLoad(acts: seq<Action>, a: Edit, b: Edit)
    requires |acts| == 6 && acts[..4] == [Acquire(0), Acquire(1), Load(0, a), Load(1, b)]
    requires a.Put? && b.Put? && a.slot.Token? && b.slot.Token?
    ensures var s := After(false, acts, 4);
            && 0 in s.tasks && 1 in s.tasks && s.log == []
            && s.tasks[0].pending == Some(Pending(a, map[])) && s.tasks[1].pending == Some(Pending(b, map[]))
  {
    var idle := Task(NO_RESPONSES, [], map[], None, None);
    assert acts[0] == acts[..4][0] && acts[1] == acts[..4][1] && acts[2] == acts[..4][2] && acts[3] == acts[..4][3];
    AfterStep(acts, 0);
    AfterStep(acts, 1);
    AfterStep(acts, 2);
    AfterStep(acts, 3);
    var s2 := After(false, acts, 2);
    assert s2.tasks == map[0 := idle, 1 := idle] && s2.shared == NO_RESPONSES && s2.log == [];
    var s3 := Next(false, s2, Load(0, a));
    assert s3.tasks[0].pending == Some(Pending(a, map[])) && s3.tasks[1] == idle;
  }
}
