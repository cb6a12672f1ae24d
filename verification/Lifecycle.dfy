/** The generation loop and the database cutover (cmd/loomarr/main.go).

  One generation's luck, what fails and how it ends, is a value of type `Env`; everything the
  process writes outside itself is an event of its log. */
module Lifecycle {
  import opened Common

  type Url = string

  predicate IsSqlite(url: Url) {
    "sqlite://" <= url
  }

  predicate IsPostgres(url: Url) {
    "postgres://" <= url || "postgresql://" <= url
  }

  /** Why the last migration did not stick, or why a generation stopped. */
  datatype Problem =
    | NoProblem | ConfigInvalid | OpenFailed | NotSelected | BuildFailed | ListenFailed | RestoreFailed
    | ServerFailed | DrainFailed | CloseFailed | PinnedByEnv | CopyFailed | PersistFailed

  datatype Event =
    | Opened(url: Url)                  // the generation's store
    | Closed                            // that store
    | CloseErred                        // closing it reported an error
    | Copied(source: Url, target: Url)  // an offline copy that verified
    | Persisted(url: Url)               // the bootstrap file's DATABASE_URL
    | Serving                           // listener acquired: the generation is committed

  datatype Stop = ServerError | Signal | FirstRequest

  /** What the world does to one generation.  `arrivals` are the lifecycle requests handlers make
      before the loop picks one ("" asks for a plain restart), `late` those made afterwards. */
  datatype Env = Env(
    configOk: bool, pin: Option<Url>, openOk: bool, buildOk: bool, listenOk: bool, restoreOk: bool,
    arrivals: seq<Url>, late: seq<Url>, stop: Stop,
    drainOk: bool, closeOk: bool, deferredCloseOk: bool, pinnedAtCommit: bool, copyOk: bool, persistOk: bool)
  {
    predicate Valid() {
      stop == FirstRequest ==> arrivals != []
    }
  }

  /** What handlers can submit: a generation without a store has no database service, so only
      plain restarts reach it (internal/app/buildoperations.go). */
  predicate Offered(e: Env, live: bool) {
    live || forall r :: r in e.arrivals + e.late ==> r == ""
  }

  /** `fallback` is the SQLite URL to return to, or "". */
  datatype State = State(lastError: Problem, fallback: Url, bootstrap: Url, log: seq<Event>)

  /** `problem` is the error a stopped process returns. */
  datatype Result = Result(state: State, restart: bool, problem: Problem)

  // ---------------------------------------------------------------- the requester

  /** The gate and its one-slot channel. */
  datatype Gate = Gate(claimed: bool, slot: seq<Url>)

  function Submitted(g: Gate, dsn: Url): Gate {
    if g.claimed then g else Gate(true, g.slot + [dsn])
  }

  function Taken(g: Gate): Gate {
    if g.slot == [] then g else g.(slot := g.slot[1..])
  }

  /** A generation-long admission gate before a one-slot channel. */
  class LifecycleRequester {
    var claimed: bool
    var requests: seq<Url>

    ghost predicate Valid()
      reads this
    {
      |requests| <= 1 && (!claimed ==> requests == [])
    }

    function View(): Gate
      reads this
    {
      Gate(claimed, requests)
    }

    constructor ()
      ensures Valid() && !claimed && requests == []
    {
      claimed, requests := false, [];
    }

    /** The send into the slot is made only when the slot is free, so it never blocks. */
    method Request(dsn: Url) returns (accepted: bool)
      requires Valid()
      modifies this
      ensures Valid() && accepted == !old(claimed)
      ensures View() == Submitted(old(View()), dsn)
    {
      if claimed {
        return false;
      }
      claimed := true;
      assert |requests| < 1;
      requests := requests + [dsn];
      return true;
    }

    method Receive() returns (dsn: Url)
      requires Valid() && requests != []
      modifies this
      ensures Valid() && View() == Taken(old(View())) && dsn == old(requests)[0]
    {
      dsn := requests[0];
      requests := requests[1..];
    }
  }

  // ---------------------------------------------------------------- one generation, as a function

  function ConfiguredUrl(s: State, e: Env): Url {
    if e.pin.Some? then e.pin.value else s.bootstrap
  }

  predicate Opens(url: Url, e: Env) {
    url != "" && e.openOk && (IsSqlite(url) || IsPostgres(url))
  }

  /** `restoreSQLite` and the return that follows it. */
  function Restored(s: State, e: Env, cause: Problem): Result {
    if !e.restoreOk then Result(s, false, RestoreFailed)
    else Result(State(cause, "", s.fallback, s.log + [Persisted(s.fallback)]), true, NoProblem)
  }

  /** The deferred close of whatever store is still open; its error, if any, is dropped. */
  function CloseAfter(r: Result, live: bool, e: Env): Result {
    if live then r.(state := r.state.(log := r.state.log + [if e.deferredCloseOk then Closed else CloseErred])) else r
  }

  function AfterOpen(s: State, url: Url, live: bool): State {
    var t := if live then s.(log := s.log + [Opened(url)]) else s;
    if t.fallback != "" && !(live && IsPostgres(url)) then t.(lastError := NotSelected, fallback := "") else t
  }

  function Failed(s: State, e: Env, cause: Problem): Result {
    if s.fallback != "" then Restored(s, e, cause) else Result(s, false, cause)
  }

  /** The migration itself, after the live store closed: the outcome and, on success, its log. */
  function Migration(source: Url, target: Url, e: Env): Problem {
    if e.pinnedAtCommit then PinnedByEnv
    else if !(IsSqlite(source) && e.copyOk) then CopyFailed
    else if !e.persistOk then PersistFailed
    else NoProblem
  }

  function MigrationLog(source: Url, target: Url, e: Env): seq<Event> {
    if Migration(source, target, e) == NoProblem then [Copied(source, target), Persisted(target)]
    else if Migration(source, target, e) == PersistFailed then [Copied(source, target)]
    else []
  }

  function Cutover(s: State, source: Url, target: Url, live: bool, e: Env): Result {
    var closed := s.(log := s.log + if !live then [] else if e.closeOk then [Closed] else [CloseErred]);
    if live && !e.closeOk then Result(closed.(lastError := CloseFailed), true, NoProblem)
    else
      var problem := Migration(source, target, e);
      var moved := closed.(log := closed.log + MigrationLog(source, target, e));
      if problem != NoProblem then Result(moved.(lastError := problem), true, NoProblem)
      else Result(State(NoProblem, source, target, moved.log), true, NoProblem)
  }

  /** From the moment the generation serves until it ends. */
  function Served(s: State, url: Url, live: bool, e: Env): Result
    requires e.Valid()
  {
    var asked := e.stop == FirstRequest;
    var dsn := if asked then e.arrivals[0] else "";
    if e.stop == ServerError then CloseAfter(Result(s, false, ServerFailed), live, e)
    else if !e.drainOk && dsn != "" then CloseAfter(Result(s.(lastError := DrainFailed), true, NoProblem), live, e)
    else if !e.drainOk && !asked then CloseAfter(Result(s, false, DrainFailed), live, e)
    else if dsn != "" then Cutover(s, url, dsn, live, e)
    else if asked then CloseAfter(Result(s.(lastError := NoProblem), true, NoProblem), live, e)
    else CloseAfter(Result(s, false, NoProblem), live, e)
  }

  function Generation(s: State, e: Env): Result
    requires e.Valid()
  {
    if !e.configOk then Result(s, false, ConfigInvalid)
    else
      var url := ConfiguredUrl(s, e);
      var live := Opens(url, e);
      if url != "" && !live && s.fallback != "" then Restored(s, e, OpenFailed)
      else
        var t := AfterOpen(s, url, live);
        if !e.buildOk then CloseAfter(Failed(t, e, BuildFailed), live, e)
        else if !e.listenOk then CloseAfter(Failed(t, e, ListenFailed), live, e)
        else Served(t.(fallback := "", log := t.log + [Serving]), url, live, e)
  }

  // ---------------------------------------------------------------- the process

  class Process {
    var lastError: Problem
    var fallback: Url
    var bootstrap: Url
    var log: seq<Event>

    constructor (bootstrap: Url)
      ensures View() == State(NoProblem, "", bootstrap, [])
    {
      lastError, fallback, this.bootstrap, log := NoProblem, "", bootstrap, [];
    }

    function View(): State
      reads this
    {
      State(lastError, fallback, bootstrap, log)
    }

    /** The bootstrap file is replaced atomically or not at all. */
    method UpdateBootstrap(url: Url, ok: bool) returns (written: bool)
      modifies this
      ensures written == ok
      ensures View() == if ok then old(View()).(bootstrap := url, log := old(log) + [Persisted(url)]) else old(View())
    {
      if ok {
        bootstrap := url;
        log := log + [Persisted(url)];
      }
      return ok;
    }

    method RestoreSQLite(cause: Problem, e: Env) returns (ok: bool)
      modifies this
      ensures Result(View(), ok, if ok then NoProblem else RestoreFailed) == Restored(old(View()), e, cause)
    {
      ok := UpdateBootstrap(fallback, e.restoreOk);
      if !ok {
        return;
      }
      lastError := cause;
      fallback := "";
    }

    /** Copy, and only after a verified copy commit the new bootstrap URL. */
    method MigrateThenPersist(source: Url, target: Url, e: Env) returns (problem: Problem)
      requires !e.pinnedAtCommit
      modifies this
      ensures problem == Migration(source, target, e)
      ensures View() == old(View()).(log := old(log) + MigrationLog(source, target, e),
                                     bootstrap := if problem == NoProblem then target else old(bootstrap))
    {
      if !(IsSqlite(source) && e.copyOk) {
        return CopyFailed;
      }
      log := log + [Copied(source, target)];
      var ok := UpdateBootstrap(target, e.persistOk);
      if !ok {
        return PersistFailed;
      }
      assert log == old(log) + [Copied(source, target), Persisted(target)];
      return NoProblem;
    }

    method MigrateDatabase(source: Url, target: Url, e: Env) returns (problem: Problem)
      modifies this
      ensures problem == Migration(source, target, e)
      ensures View() == old(View()).(log := old(log) + MigrationLog(source, target, e),
                                     bootstrap := if problem == NoProblem then target else old(bootstrap))
    {
      if e.pinnedAtCommit {
        return PinnedByEnv;
      }
      problem := MigrateThenPersist(source, target, e);
    }

    /** The live store must close before the copy starts. */
    method PerformCutover(source: Url, target: Url, live: bool, e: Env)
      modifies this
      ensures Result(View(), true, NoProblem) == Cutover(old(View()), source, target, live, e)
    {
      if live {
        if !e.closeOk {
          log := log + [CloseErred];
          lastError := CloseFailed;
          return;
        }
        log := log + [Closed];
      }
      assert log == old(log) + if live then [Closed] else [];
      var problem := MigrateDatabase(source, target, e);
      if problem != NoProblem {
        lastError := problem;
        return;
      }
      lastError := NoProblem;
      fallback := source;
    }

    /** The deferred close. */
    method CloseStore(live: bool, e: Env)
      modifies this
      ensures View() == old(View()).(log := old(log) +
        if live then [if e.deferredCloseOk then Closed else CloseErred] else [])
    {
      if live {
        log := log + [if e.deferredCloseOk then Closed else CloseErred];
      }
    }

    /** Serve, take one transition, drain, and hand over. */
    method Serve(url: Url, live: bool, e: Env) returns (restart: bool, problem: Problem)
      requires e.Valid()
      modifies this
      ensures Result(View(), restart, problem) == Served(old(View()), url, live, e)
    {
      var lifecycle := new LifecycleRequester();
      for i := 0 to |e.arrivals|
        invariant lifecycle.Valid()
        invariant if i == 0 then !lifecycle.claimed else lifecycle.claimed && lifecycle.requests == [e.arrivals[0]]
        invariant View() == old(View())
      {
        var accepted := lifecycle.Request(e.arrivals[i]);
        assert accepted == (i == 0);
      }
      var dsn := "";
      match e.stop {
        case ServerError =>
          CloseStore(live, e);
          return false, ServerFailed;
        case FirstRequest =>
          restart := true;
          dsn := lifecycle.Receive();
        case Signal =>
          restart := false;
      }
      for i := 0 to |e.late|
        invariant lifecycle.Valid()
        invariant restart ==> lifecycle.claimed && lifecycle.requests == []
        invariant View() == old(View())
      {
        var accepted := lifecycle.Request(e.late[i]);
        assert restart ==> !accepted;
      }
      if !e.drainOk {
        if dsn != "" {
          lastError := DrainFailed;
          CloseStore(live, e);
          return true, NoProblem;
        }
        if !restart {
          CloseStore(live, e);
          return false, DrainFailed;
        }
      }
      if dsn != "" {
        PerformCutover(url, dsn, live, e);
        return true, NoProblem;
      }
      if restart {
        lastError := NoProblem;
        CloseStore(live, e);
        return true, NoProblem;
      }
      CloseStore(live, e);
      return false, NoProblem;
    }

    /** A generation that failed before it served: back to SQLite if a cutover is pending. */
    method FailStart(cause: Problem, live: bool, e: Env) returns (restart: bool, problem: Problem)
      modifies this
      ensures Result(View(), restart, problem) == CloseAfter(Failed(old(View()), e, cause), live, e)
    {
      restart, problem := false, cause;
      if fallback != "" {
        restart := RestoreSQLite(cause, e);
        problem := if restart then NoProblem else RestoreFailed;
      }
      CloseStore(live, e);
    }

    method RunOnce(e: Env) returns (restart: bool, problem: Problem)
      requires e.Valid()
      modifies this
      ensures Result(View(), restart, problem) == Generation(old(View()), e)
    {
      hide IsSqlite, IsPostgres, Served, Failed, CloseAfter, Restored;
      if !e.configOk {
        return false, ConfigInvalid;
      }
      var url := if e.pin.Some? then e.pin.value else bootstrap;
      var live := false;
      if url != "" {
        live := e.openOk && (IsSqlite(url) || IsPostgres(url));
        if !live && fallback != "" {
          restart := RestoreSQLite(OpenFailed, e);
          return restart, if restart then NoProblem else RestoreFailed;
        }
        if live {
          log := log + [Opened(url)];
        }
      }
      assert live == Opens(url, e);
      if fallback != "" && !(live && IsPostgres(url)) {
        lastError := NotSelected;
        fallback := "";
      }
      assert View() == AfterOpen(old(View()), url, live);
      if !e.buildOk {
        restart, problem := FailStart(BuildFailed, live, e);
        return;
      }
      if !e.listenOk {
        restart, problem := FailStart(ListenFailed, live, e);
        return;
      }
      fallback := "";
      log := log + [Serving];
      restart, problem := Serve(url, live, e);
    }

    /** The restart loop, for as many generations as `envs` describes. */
    method Run(envs: seq<Env>) returns (restart: bool, problem: Problem, generations: nat)
      requires forall i :: 0 <= i < |envs| ==> envs[i].Valid()
      modifies this
      ensures generations <= |envs|
      ensures Result(View(), restart, problem) == After(old(View()), envs[..generations])
      ensures generations < |envs| ==> !restart
    {
      restart, problem, generations := true, NoProblem, 0;
      while generations < |envs| && restart
        invariant generations <= |envs|
        invariant Result(View(), restart, problem) == After(old(View()), envs[..generations])
        decreases |envs| - generations
      {
        assert envs[..generations + 1][..generations] == envs[..generations];
        restart, problem := RunOnce(envs[generations]);
        generations := generations + 1;
      }
    }
  }

  /** Where a run of these generations, one after the other, ends. */
  function After(s: State, envs: seq<Env>): Result
    requires forall i :: 0 <= i < |envs| ==> envs[i].Valid()
  {
    if envs == [] then Result(s, true, NoProblem)
    else
      var r := After(s, envs[..|envs| - 1]);
      if r.restart then Generation(r.state, envs[|envs| - 1]) else r
  }
}
