// golang/server/server.go and golang/connector/mysql_connector.go: handlers that take a slot of a
// bounded channel around the callback, and the connector's mutex around each query. One action is
// one statement of one handler; any interleaving of them is a run.

module RequestServer {
  import opened Wrappers
  import opened Database
  import opened Sums
  import opened AuctionSpec
  import opened AuctionSteps

  /** Inside `fetchModels` or `fetchModelByID`: before the lock, with it, and with the rows. */
  datatype Fetch = Unlocked | Locked | Fetched(rows: Rows)

  datatype Handler = Waiting | Inside(local: Local, fetch: Fetch) | Left(response: Option<Response>)

  /** `slots` is the number of values in the channel, `mutex` the handler holding the lock. */
  datatype State = State(handlers: seq<Handler>, slots: nat, mutex: Option<nat>)

  /** The tables, the requests and the capacity of the channel (`config.N_Thread`, 3 as shipped). */
  datatype Config = Config(db: Db, requests: seq<Request>, capacity: nat)

  datatype Action =
    | Enter(h: nat)
    | Lock(h: nat)
    | Fetch(h: nat)
    | Unlock(h: nat)
    | Advance(h: nat)
    | Choose(h: nat, k: nat)
    | Order(h: nat, sorted: seq<Ads>)
    | Leave(h: nat)

  function Init(cfg: Config): State {
    State(seq(|cfg.requests|, _ => Waiting), 0, None)
  }

  predicate At(s: State, h: nat, fetch: Fetch) {
    h < |s.handlers| && s.handlers[h].Inside? && s.handlers[h].fetch == fetch
  }

  predicate Enabled(cfg: Config, s: State, a: Action) {
    a.h < |s.handlers| == |cfg.requests| &&
    match a
    case Enter(h) => s.handlers[h].Waiting? && s.slots < cfg.capacity
    case Lock(h) => At(s, h, Unlocked) && Wants(s.handlers[h].local).Some? && s.mutex.None?
    case Fetch(h) => At(s, h, Locked) && Wants(s.handlers[h].local).Some?
    case Unlock(h) =>
      s.handlers[h].Inside? && s.handlers[h].fetch.Fetched? && Wants(s.handlers[h].local).Some? && s.mutex == Some(h)
    case Advance(h) => At(s, h, Unlocked) && CanTurn(s.handlers[h].local)
    case Choose(h, k) => At(s, h, Unlocked) && CanPick(s.handlers[h].local, k)
    case Order(h, sorted) => At(s, h, Unlocked) && CanSort(s.handlers[h].local, sorted)
    case Leave(h) => At(s, h, Unlocked) && s.handlers[h].local.Done? && s.slots > 0
  }

  /** What the acting handler becomes. */
  function Moved(cfg: Config, s: State, a: Action): Handler
    requires Enabled(cfg, s, a)
  {
    var here := s.handlers[a.h];
    match a
    case Enter(_) => Inside(Start, Unlocked)
    case Lock(_) => Inside(here.local, Locked)
    case Fetch(_) => Inside(here.local, Fetched(Execute(cfg.db, Wants(here.local).value)))
    case Unlock(h) => Inside(Resume(cfg.requests[h], here.local, here.fetch.rows), Unlocked)
    case Advance(h) => Inside(Turn(cfg.requests[h], here.local), Unlocked)
    case Choose(_, k) => Inside(Pick(here.local, k), Unlocked)
    case Order(h, sorted) => Inside(Sort(cfg.requests[h], sorted), Unlocked)
    case Leave(_) => Left(here.local.response)
  }

  function Apply(cfg: Config, s: State, a: Action): State
    requires Enabled(cfg, s, a)
  {
    State(
      s.handlers[a.h := Moved(cfg, s, a)],
      if a.Enter? then s.slots + 1 else if a.Leave? then s.slots - 1 else s.slots,
      if a.Lock? then Some(a.h) else if a.Unlock? then None else s.mutex)
  }

  function Run(cfg: Config, actions: seq<Action>): Option<State> {
    if actions == [] then Some(Init(cfg))
    else
      match Run(cfg, actions[..|actions| - 1])
      case None => None
      case Some(s) =>
        var last := actions[|actions| - 1];
        if Enabled(cfg, s, last) then Some(Apply(cfg, s, last)) else None
  }

  // ---------- what every reachable state keeps ----------

  /** What sequential `auction` answers. */
  ghost function Answer(cfg: Config, h: nat): Option<Response>
    requires h < |cfg.requests|
  {
    Respond(cfg.requests[h], Winner(cfg.db, cfg.requests[h], GO_RULES))
  }

  /** A handler's own state never depends on the others: the tables do not change. */
  ghost predicate HandlerInv(db: Db, req: Request, handler: Handler) {
    match handler
    case Waiting => true
    case Inside(local, fetch) =>
      && LocalInv(db, req, local)
      && (fetch != Unlocked ==> Wants(local).Some?)
      && (fetch.Fetched? ==> Wants(local).Some? && fetch.rows == Execute(db, Wants(local).value))
    case Left(response) => response == Respond(req, Winner(db, req, GO_RULES))
  }

  // Numbers kept per handler: whether it is in the callback, and how much it has left to do.

  function InCallback(handler: Handler): int {
    if handler.Inside? then 1 else 0
  }

  function WorkOf(handler: Handler, ads: nat): int {
    match handler
    case Waiting => 3 * StepsLeft(Start, ads) + 2
    case Inside(local, fetch) =>
      3 * StepsLeft(local, ads) + (if fetch.Unlocked? then 1 else if fetch.Locked? then 0 else -1)
    case Left(_) => 0
  }

  function Work(ads: nat): Handler -> int {
    (handler: Handler) => WorkOf(handler, ads)
  }

  /** The channel holds one value per handler in the callback and never more than its capacity;
      the lock is held by the one handler that is past `Lock` and not past `Unlock`, if any. */
  ghost predicate Inv(cfg: Config, s: State) {
    && |s.handlers| == |cfg.requests|
    && s.slots == Sum(InCallback, s.handlers) && s.slots <= cfg.capacity
    && (forall h :: 0 <= h < |s.handlers| ==>
        (s.mutex == Some(h) <==> s.handlers[h].Inside? && s.handlers[h].fetch != Unlocked))
    && (s.mutex.Some? ==> s.mutex.value < |s.handlers|)
    && forall h :: 0 <= h < |s.handlers| ==> HandlerInv(cfg.db, cfg.requests[h], s.handlers[h])
  }

  lemma InitInv(cfg: Config)
    ensures Inv(cfg, Init(cfg))
  {
    SumAtMost(InCallback, Init(cfg).handlers, 0);
  }

  /** One handler's step keeps its own invariant. */
  lemma MovedInv(cfg: Config, s: State, a: Action)
    requires ValidDb(cfg.db) && Enabled(cfg, s, a)
    requires HandlerInv(cfg.db, cfg.requests[a.h], s.handlers[a.h])
    ensures HandlerInv(cfg.db, cfg.requests[a.h], Moved(cfg, s, a))
  {
    var req, here := cfg.requests[a.h], s.handlers[a.h];
    match a
    case Enter(_) =>
    case Lock(_) =>
    case Fetch(_) =>
    case Unlock(_) => ResumeKeeps(cfg.db, req, here.local);
    case Advance(_) => TurnKeeps(cfg.db, req, here.local);
    case Choose(_, k) => PickKeeps(cfg.db, req, here.local, k);
    case Order(_, sorted) => SortKeeps(cfg.db, req, here.local, sorted);
    case Leave(_) =>
  }

  lemma SlotsStep(cfg: Config, s: State, a: Action)
    requires Enabled(cfg, s, a) && s.slots == Sum(InCallback, s.handlers) && s.slots <= cfg.capacity
    ensures var t := Apply(cfg, s, a); t.slots == Sum(InCallback, t.handlers) && t.slots <= cfg.capacity
  {
    SumReplaced(InCallback, s.handlers, a.h, Moved(cfg, s, a));
  }

  lemma InvStep(cfg: Config, s: State, a: Action)
    requires ValidDb(cfg.db) && Inv(cfg, s) && Enabled(cfg, s, a)
    ensures Inv(cfg, Apply(cfg, s, a))
  {
    SlotsStep(cfg, s, a);
    MovedInv(cfg, s, a);
    var t := Apply(cfg, s, a);
    var x := Moved(cfg, s, a);
    assert t.mutex == Some(a.h) <==> x.Inside? && x.fetch != Unlocked;
  }

  /** In every reachable state. */
  lemma {:induction false} RunInv(cfg: Config, actions: seq<Action>)
    requires ValidDb(cfg.db)
    ensures Run(cfg, actions).Some? ==> Inv(cfg, Run(cfg, actions).value)
  {
    if actions == [] {
      InitInv(cfg);
    } else {
      RunInv(cfg, actions[..|actions| - 1]);
      var s := Run(cfg, actions[..|actions| - 1]);
      if s.Some? && Enabled(cfg, s.value, actions[|actions| - 1]) {
        InvStep(cfg, s.value, actions[|actions| - 1]);
      }
    }
  }

  /** However the handlers are interleaved, each finished one holds the answer sequential
      `auction` gives to its request. */
  lemma EveryAnswerIsSequential(cfg: Config, actions: seq<Action>, s: State)
    requires ValidDb(cfg.db) && Run(cfg, actions) == Some(s)
    ensures |s.handlers| == |cfg.requests|
    ensures forall h :: 0 <= h < |s.handlers| && s.handlers[h].Left? ==> s.handlers[h].response == Answer(cfg, h)
  {
    RunInv(cfg, actions);
    forall h | 0 <= h < |s.handlers| ensures HandlerInv(cfg.db, cfg.requests[h], s.handlers[h]) {}
  }

  predicate AtTheTables(handler: Handler) {
    handler.Inside? && handler.fetch != Unlocked
  }

  /** A handler in the callback left a value in the channel. */
  lemma SlotTaken(cfg: Config, s: State, h: nat)
    requires Inv(cfg, s) && h < |s.handlers| && s.handlers[h].Inside?
    ensures s.slots > 0
  {
    SumAtLeast(InCallback, s.handlers);
    assert InCallback(s.handlers[h]) == 1;
  }

  /** The channel holds one value per handler in the callback and at most `capacity`; the handler
      at the tables, and no other, holds the lock, and with it one of those slots. */
  lemma SlotsAndLock(cfg: Config, actions: seq<Action>, s: State)
    requires ValidDb(cfg.db) && Run(cfg, actions) == Some(s)
    ensures s.slots == Sum(InCallback, s.handlers) <= cfg.capacity
    ensures forall h :: 0 <= h < |s.handlers| ==> (AtTheTables(s.handlers[h]) <==> s.mutex == Some(h))
    ensures s.mutex.Some? ==> s.mutex.value < |s.handlers| && s.handlers[s.mutex.value].Inside? && s.slots > 0
    ensures forall h, j :: 0 <= h < j < |s.handlers| ==> !(AtTheTables(s.handlers[h]) && AtTheTables(s.handlers[j]))
  {
    RunInv(cfg, actions);
    if s.mutex.Some? {
      SlotTaken(cfg, s, s.mutex.value);
    }
  }

  /** Only a query reads the tables: no other statement would go otherwise on different ones. */
  lemma OnlyFetchReads(cfg: Config, db: Db, s: State, a: Action)
    requires Enabled(cfg, s, a) && !a.Fetch?
    ensures Enabled(cfg.(db := db), s, a) && Apply(cfg.(db := db), s, a) == Apply(cfg, s, a)
  {
  }

  /** And whoever queries holds the lock. */
  lemma FetchHoldsLock(cfg: Config, actions: seq<Action>, s: State, h: nat)
    requires ValidDb(cfg.db) && Run(cfg, actions) == Some(s) && Enabled(cfg, s, Fetch(h))
    ensures s.mutex == Some(h)
    ensures Apply(cfg, s, Fetch(h)).handlers[h] ==
      Inside(s.handlers[h].local, Fetched(Execute(cfg.db, Wants(s.handlers[h].local).value)))
  {
    RunInv(cfg, actions);
  }

  // ---------- no deadlock, and an end ----------

  /** Every action brings its handler's end nearer. */
  lemma MovedAdvances(cfg: Config, s: State, a: Action)
    requires Enabled(cfg, s, a) && HandlerInv(cfg.db, cfg.requests[a.h], s.handlers[a.h])
    ensures WorkOf(Moved(cfg, s, a), |cfg.db.adses|) < WorkOf(s.handlers[a.h], |cfg.db.adses|)
  {
    var req, here := cfg.requests[a.h], s.handlers[a.h];
    match a
    case Enter(_) =>
    case Lock(_) =>
    case Fetch(_) =>
    case Unlock(_) => ResumeAdvances(cfg.db, req, here.local);
    case Advance(_) => TurnAdvances(cfg.db, req, here.local);
    case Choose(_, k) => PickAdvances(cfg.db, req, here.local, k);
    case Order(_, _) =>
    case Leave(_) =>
  }

  lemma WorkDecreases(cfg: Config, s: State, a: Action)
    requires Inv(cfg, s) && Enabled(cfg, s, a)
    ensures Sum(Work(|cfg.db.adses|), Apply(cfg, s, a).handlers) < Sum(Work(|cfg.db.adses|), s.handlers)
  {
    SumReplaced(Work(|cfg.db.adses|), s.handlers, a.h, Moved(cfg, s, a));
    MovedAdvances(cfg, s, a);
  }

  lemma WorkNonNegative(cfg: Config, s: State)
    requires Inv(cfg, s)
    ensures Sum(Work(|cfg.db.adses|), s.handlers) >= 0
  {
    forall h | 0 <= h < |s.handlers| ensures Work(|cfg.db.adses|)(s.handlers[h]) >= 0 {
      assert HandlerInv(cfg.db, cfg.requests[h], s.handlers[h]);
      if s.handlers[h].Inside? {
        StepsNonNegative(cfg.db, cfg.requests[h], s.handlers[h].local);
      }
    }
    SumAtLeast(Work(|cfg.db.adses|), s.handlers);
  }

  lemma {:induction false} WorkOfRun(cfg: Config, actions: seq<Action>, s: State)
    requires ValidDb(cfg.db) && Run(cfg, actions) == Some(s)
    ensures |actions| + Sum(Work(|cfg.db.adses|), s.handlers) <= |cfg.requests| * WorkOf(Waiting, |cfg.db.adses|)
  {
    if actions == [] {
      SumAtMost(Work(|cfg.db.adses|), s.handlers, WorkOf(Waiting, |cfg.db.adses|));
    } else {
      var before := actions[..|actions| - 1];
      var t := Run(cfg, before).value;
      WorkOfRun(cfg, before, t);
      RunInv(cfg, before);
      WorkDecreases(cfg, t, actions[|actions| - 1]);
    }
  }

  /** Every run ends: its length is bounded by the requests and the ads. */
  lemma RunsAreBounded(cfg: Config, actions: seq<Action>)
    requires ValidDb(cfg.db) && Run(cfg, actions).Some?
    ensures |actions| <= |cfg.requests| * (3 * StepsLeft(Start, |cfg.db.adses|) + 2)
  {
    var s := Run(cfg, actions).value;
    WorkOfRun(cfg, actions, s);
    RunInv(cfg, actions);
    WorkNonNegative(cfg, s);
  }

  /** A handler in the callback can go on once nobody else has the lock. */
  lemma InsideCanMove(cfg: Config, s: State, h: nat) returns (a: Action)
    requires Inv(cfg, s) && h < |s.handlers| && s.handlers[h].Inside?
    requires s.mutex.None? || s.mutex == Some(h)
    ensures Enabled(cfg, s, a)
  {
    var here := s.handlers[h];
    assert HandlerInv(cfg.db, cfg.requests[h], here);
    if here.fetch.Locked? {
      a := Fetch(h);
    } else if here.fetch.Fetched? {
      a := Unlock(h);
    } else if Wants(here.local).Some? {
      a := Lock(h);
    } else if here.local.Done? {
      a := Leave(h);
      SlotTaken(cfg, s, h);
    } else if !here.local.Choosing? {
      a := Advance(h);
    } else if here.local.remaining != {} {
      var k :| k in here.local.remaining;
      a := Choose(h, k);
    } else {
      var sorted := SomeSort(here.local.targetted);
      a := Order(h, sorted);
    }
  }

  /** While a request is unfinished some handler can step. */
  lemma Progress(cfg: Config, s: State) returns (a: Action)
    requires Inv(cfg, s) && cfg.capacity > 0
    requires exists h :: 0 <= h < |s.handlers| && !s.handlers[h].Left?
    ensures Enabled(cfg, s, a)
  {
    if s.mutex.Some? {
      a := InsideCanMove(cfg, s, s.mutex.value);
    } else if h :| 0 <= h < |s.handlers| && s.handlers[h].Inside? {
      a := InsideCanMove(cfg, s, h);
    } else {
      SumAtMost(InCallback, s.handlers, 0);
      var h :| 0 <= h < |s.handlers| && !s.handlers[h].Left?;
      a := Enter(h);
    }
  }

  /** Nobody waits for ever: a run that cannot go on has given every request its answer. */
  lemma StuckMeansServed(cfg: Config, actions: seq<Action>, s: State)
    requires ValidDb(cfg.db) && cfg.capacity > 0 && Run(cfg, actions) == Some(s)
    requires forall a :: !Enabled(cfg, s, a)
    ensures |s.handlers| == |cfg.requests|
    ensures forall h :: 0 <= h < |s.handlers| ==> s.handlers[h] == Left(Answer(cfg, h))
  {
    RunInv(cfg, actions);
    if h :| 0 <= h < |s.handlers| && !s.handlers[h].Left? {
      var a := Progress(cfg, s);
      assert false;
    }
    forall h | 0 <= h < |s.handlers| ensures HandlerInv(cfg.db, cfg.requests[h], s.handlers[h]) {}
  }

  /** While a request is unfinished the run can go on, and is nearer its end then. */
  lemma OneMore(cfg: Config, actions: seq<Action>, s: State) returns (a: Action)
    requires ValidDb(cfg.db) && cfg.capacity > 0 && Run(cfg, actions) == Some(s)
    requires exists h :: 0 <= h < |s.handlers| && !s.handlers[h].Left?
    ensures Enabled(cfg, s, a) && Run(cfg, actions + [a]) == Some(Apply(cfg, s, a))
    ensures 0 <= Sum(Work(|cfg.db.adses|), Apply(cfg, s, a).handlers) < Sum(Work(|cfg.db.adses|), s.handlers)
  {
    RunInv(cfg, actions);
    a := Progress(cfg, s);
    WorkDecreases(cfg, s, a);
    assert (actions + [a])[..|actions|] == actions;
    RunInv(cfg, actions + [a]);
    WorkNonNegative(cfg, Apply(cfg, s, a));
  }

  /** From every reachable state there is a way to serve everybody. */
  lemma {:induction false} CanServe(cfg: Config, actions: seq<Action>, s: State)
    returns (all: seq<Action>, t: State)
    requires ValidDb(cfg.db) && cfg.capacity > 0 && Run(cfg, actions) == Some(s)
    ensures actions <= all && Run(cfg, all) == Some(t) && |t.handlers| == |cfg.requests|
    ensures forall h :: 0 <= h < |t.handlers| ==> t.handlers[h] == Left(Answer(cfg, h))
    decreases Sum(Work(|cfg.db.adses|), s.handlers)
  {
    if h :| 0 <= h < |s.handlers| && !s.handlers[h].Left? {
      var a := OneMore(cfg, actions, s);
      all, t := CanServe(cfg, actions + [a], Apply(cfg, s, a));
    } else {
      all, t := actions, s;
      EveryAnswerIsSequential(cfg, actions, s);
    }
  }

  /** What a schedule leads to, in which whatever is not enabled waits. */
  function Play(cfg: Config, schedule: seq<Action>): State {
    if schedule == [] then Init(cfg)
    else
      var s, last := Play(cfg, schedule[..|schedule| - 1]), schedule[|schedule| - 1];
      if Enabled(cfg, s, last) then Apply(cfg, s, last) else s
  }

  predicate Unfinished(cfg: Config, actions: seq<Action>)
    requires Run(cfg, actions).Some?
  {
    var s := Run(cfg, actions).value;
    exists h | 0 <= h < |s.handlers| :: !s.handlers[h].Left?
  }

  ghost predicate CanContinue(cfg: Config, actions: seq<Action>)
    requires Run(cfg, actions).Some?
  {
    exists a :: Enabled(cfg, Run(cfg, actions).value, a)
  }

  /** The server never deadlocks exactly when the channel has room for somebody: with none, no
      request is ever let in. */
  lemma DeadlockFreeExactly(cfg: Config)
    requires ValidDb(cfg.db) && cfg.requests != []
    ensures cfg.capacity > 0 <==>
      forall actions | Run(cfg, actions).Some? :: Unfinished(cfg, actions) ==> CanContinue(cfg, actions)
  {
    if cfg.capacity > 0 {
      forall actions | Run(cfg, actions).Some? && Unfinished(cfg, actions) ensures CanContinue(cfg, actions) {
        RunInv(cfg, actions);
        var a := Progress(cfg, Run(cfg, actions).value);
      }
    } else {
      assert Run(cfg, []) == Some(Init(cfg));
      assert Init(cfg).handlers[0].Waiting?;
      assert Unfinished(cfg, []);
      assert forall a :: !Enabled(cfg, Init(cfg), a);
      assert !CanContinue(cfg, []);
    }
  }

  // ---------- the statements, on the shared channel and mutex ----------

  class HttpServer {
    const cfg: Config
    var handlers: seq<Handler>
    var threads: nat
    var mut: Option<nat>

    ghost function Snapshot(): State
      reads this
    {
      State(handlers, threads, mut)
    }

    ghost predicate Valid()
      reads this
    {
      ValidDb(cfg.db) && Inv(cfg, Snapshot())
    }

    constructor (cfg: Config)
      requires ValidDb(cfg.db)
      ensures this.cfg == cfg && Valid() && Snapshot() == Init(cfg)
    {
      this.cfg := cfg;
      handlers := seq(|cfg.requests|, _ => Waiting);
      threads, mut := 0, None;
      new;
      InitInv(cfg);
    }

    /** `threads <- struct{}{}`: blocks until the channel has room, and leaves a value for every
        handler in the callback. */
    method Send(h: nat)
      requires Valid() && h < |handlers| && handlers[h].Waiting? && threads < cfg.capacity
      modifies this
      ensures Valid() && Snapshot() == Apply(cfg, old(Snapshot()), Enter(h))
      ensures threads == Sum(InCallback, handlers) == Sum(InCallback, old(handlers)) + 1
    {
      ghost var s := Snapshot();
      InvStep(cfg, s, Enter(h));
      threads := threads + 1;
      handlers := handlers[h := Inside(Start, Unlocked)];
    }

    /** `<-threads`, once the callback has returned with the sequential answer; the channel is
        never empty then. */
    method Receive(h: nat)
      requires Valid() && h < |handlers| && At(Snapshot(), h, Unlocked) && handlers[h].local.Done?
      modifies this
      ensures Valid() && Enabled(cfg, old(Snapshot()), Leave(h)) && Snapshot() == Apply(cfg, old(Snapshot()), Leave(h))
      ensures threads == Sum(InCallback, handlers) == Sum(InCallback, old(handlers)) - 1
      ensures handlers[h] == Left(Answer(cfg, h))
    {
      ghost var s := Snapshot();
      SlotTaken(cfg, s, h);
      InvStep(cfg, s, Leave(h));
      assert HandlerInv(cfg.db, cfg.requests[h], handlers[h]);
      threads := threads - 1;
      handlers := handlers[h := Left(handlers[h].local.response)];
    }

    /** `mut.Lock()`: blocks until nobody holds it, and then nobody else is at the tables. */
    method LockMutex(h: nat)
      requires Valid() && h < |handlers| && At(Snapshot(), h, Unlocked) && Wants(handlers[h].local).Some? && mut.None?
      modifies this
      ensures Valid() && Snapshot() == Apply(cfg, old(Snapshot()), Lock(h))
      ensures forall j :: 0 <= j < |handlers| ==> (AtTheTables(handlers[j]) <==> j == h)
    {
      ghost var s := Snapshot();
      InvStep(cfg, s, Lock(h));
      mut := Some(h);
      handlers := handlers[h := handlers[h].(fetch := Locked)];
    }

    /** The query, its rows written through the caller's pointer: only the holder of the lock
        gets here. */
    method QueryTables(h: nat)
      requires Valid() && h < |handlers| && At(Snapshot(), h, Locked)
      modifies this
      ensures Valid() && Wants(old(handlers[h].local)).Some? && Snapshot() == Apply(cfg, old(Snapshot()), Fetch(h))
      ensures mut == Some(h)
    {
      ghost var s := Snapshot();
      assert HandlerInv(cfg.db, cfg.requests[h], handlers[h]);
      InvStep(cfg, s, Fetch(h));
      var rows := Execute(cfg.db, Wants(handlers[h].local).value);
      handlers := handlers[h := handlers[h].(fetch := Fetched(rows))];
    }

    /** The deferred `mut.Unlock()`, always by the holder, and back into `auction` with the rows;
        nobody is at the tables then. */
    method UnlockMutex(h: nat)
      requires Valid() && h < |handlers| && handlers[h].Inside? && handlers[h].fetch.Fetched?
      modifies this
      ensures Valid() && Enabled(cfg, old(Snapshot()), Unlock(h))
      ensures Snapshot() == Apply(cfg, old(Snapshot()), Unlock(h))
      ensures forall j :: 0 <= j < |handlers| ==> !AtTheTables(handlers[j])
    {
      ghost var s := Snapshot();
      assert HandlerInv(cfg.db, cfg.requests[h], handlers[h]);
      InvStep(cfg, s, Unlock(h));
      mut := None;
      var local := Resume(cfg.requests[h], handlers[h].local, handlers[h].fetch.rows);
      handlers := handlers[h := Inside(local, Unlocked)];
    }

    /** A statement of `auction` that touches nothing shared. */
    method Compute(a: Action)
      requires Valid() && Enabled(cfg, Snapshot(), a) && (a.Advance? || a.Choose? || a.Order?)
      modifies this`handlers
      ensures Valid() && Snapshot() == Apply(cfg, old(Snapshot()), a)
    {
      ghost var s := Snapshot();
      InvStep(cfg, s, a);
      match a
      case Advance(h) => handlers := handlers[h := Inside(Turn(cfg.requests[h], handlers[h].local), Unlocked)];
      case Choose(h, k) => handlers := handlers[h := Inside(Pick(handlers[h].local, k), Unlocked)];
      case Order(h, sorted) => handlers := handlers[h := Inside(Sort(cfg.requests[h], sorted), Unlocked)];
    }

    method Perform(a: Action)
      requires Valid() && Enabled(cfg, Snapshot(), a)
      modifies this
      ensures Valid() && Snapshot() == Apply(cfg, old(Snapshot()), a)
    {
      match a
      case Enter(h) => Send(h);
      case Lock(h) => LockMutex(h);
      case Fetch(h) => QueryTables(h);
      case Unlock(h) => UnlockMutex(h);
      case Leave(h) => Receive(h);
      case _ => Compute(a);
    }
  }

  /** Serves the requests under any schedule; what is not enabled waits. */
  method Serve(cfg: Config, schedule: seq<Action>) returns (handlers: seq<Handler>)
    requires ValidDb(cfg.db)
    ensures |handlers| == |cfg.requests| && handlers == Play(cfg, schedule).handlers
    ensures forall h :: 0 <= h < |handlers| && handlers[h].Left? ==> handlers[h].response == Answer(cfg, h)
  {
    var server := new HttpServer(cfg);
    for i := 0 to |schedule|
      invariant server.cfg == cfg && server.Valid() && server.Snapshot() == Play(cfg, schedule[..i])
    {
      assert schedule[..i + 1][..i] == schedule[..i];
      var enabled := Enabled(cfg, State(server.handlers, server.threads, server.mut), schedule[i]);
      if enabled {
        server.Perform(schedule[i]);
      }
    }
    assert schedule[..|schedule|] == schedule;
    handlers := server.handlers;
    forall h | 0 <= h < |handlers| ensures HandlerInv(cfg.db, cfg.requests[h], handlers[h]) {}
  }
}
