/** What holds over every run of the generation loop (cmd/loomarr/main.go). */
module LifecycleRuns {
  import opened Common
  import opened Lifecycle

  // ---------------------------------------------------------------- the requester, over every history

  datatype Op = Submit(dsn: Url) | Take

  /** The gate after a history, which submissions were accepted, and what was received. */
  datatype History = History(gate: Gate, accepted: seq<bool>, received: seq<Url>)

  function Play(ops: seq<Op>): History {
    if ops == [] then History(Gate(false, []), [], [])
    else
      var h := Play(ops[..|ops| - 1]);
      match ops[|ops| - 1]
      case Submit(dsn) => History(Submitted(h.gate, dsn), h.accepted + [!h.gate.claimed], h.received)
      case Take =>
        if h.gate.slot == [] then h
        else History(Taken(h.gate), h.accepted, h.received + [h.gate.slot[0]])
  }

  function Submissions(ops: seq<Op>): seq<Url> {
    if ops == [] then []
    else
      Submissions(ops[..|ops| - 1]) + match ops[|ops| - 1] case Submit(dsn) => [dsn] case Take => []
  }

  /** Of the submissions so far only the first was accepted; it waits in the slot or was received. */
  ghost predicate FirstOnly(h: History, dsns: seq<Url>) {
    && |h.accepted| == |dsns|
    && (forall i :: 0 <= i < |h.accepted| ==> h.accepted[i] == (i == 0))
    && (h.gate.claimed <==> dsns != [])
    && h.received + h.gate.slot == (if dsns == [] then [] else [dsns[0]])
  }

  lemma SubmitFirstOnly(h: History, dsns: seq<Url>, dsn: Url)
    requires FirstOnly(h, dsns)
    ensures FirstOnly(History(Submitted(h.gate, dsn), h.accepted + [!h.gate.claimed], h.received), dsns + [dsn])
  {
  }

  lemma TakeFirstOnly(h: History, dsns: seq<Url>)
    requires FirstOnly(h, dsns) && h.gate.slot != []
    ensures FirstOnly(History(Taken(h.gate), h.accepted, h.received + [h.gate.slot[0]]), dsns)
  {
    assert h.received + h.gate.slot == h.received + [h.gate.slot[0]] + h.gate.slot[1..];
  }

  /** Whatever the handlers and the loop do, in whatever order: exactly the first submission is
      accepted, at most one waits in the slot, and only the first is ever received, once. */
  lemma {:induction false} OnlyFirstRequest(ops: seq<Op>)
    ensures FirstOnly(Play(ops), Submissions(ops))
  {
    if ops != [] {
      var n := |ops| - 1;
      var h, dsns := Play(ops[..n]), Submissions(ops[..n]);
      OnlyFirstRequest(ops[..n]);
      hide FirstOnly;
      match ops[n]
      case Submit(dsn) =>
        SubmitFirstOnly(h, dsns, dsn);
      case Take =>
        assert Submissions(ops) == dsns;
        if h.gate.slot != [] {
          TakeFirstOnly(h, dsns);
        }
    }
  }

  // ---------------------------------------------------------------- what a generation can do

  /** The generation got as far as serving. */
  predicate Serves(s: State, e: Env) {
    var url := ConfiguredUrl(s, e);
    e.configOk && !(url != "" && !Opens(url, e) && s.fallback != "") && e.buildOk && e.listenOk
  }

  /** An operator asked for the transition this generation ended in. */
  predicate Requested(s: State, e: Env) {
    Serves(s, e) && e.stop == FirstRequest
  }

  /** The generation ended in a verified and committed cutover. */
  predicate CutsOver(s: State, e: Env)
    requires e.Valid()
  {
    var url := ConfiguredUrl(s, e);
    Requested(s, e) && e.arrivals[0] != "" && e.drainOk && (Opens(url, e) ==> e.closeOk)
    && Migration(url, e.arrivals[0], e) == NoProblem
  }

  /** The first generation after a cutover failed before it served: its database did not open,
      or it opened the Postgres target and then could not be built or could not listen. */
  predicate TargetFails(s: State, e: Env) {
    var url := ConfiguredUrl(s, e);
    var live := Opens(url, e);
    s.fallback != "" && e.configOk
    && ((url != "" && !live) || (live && IsPostgres(url) && !(e.buildOk && e.listenOk)))
  }

  /** What a generation that serves leaves behind.  A cutover restarts on the target with the
      SQLite database it left as the fallback.  Everything else leaves the bootstrap alone and no
      fallback: a migration that does not complete restarts with the reason on record, a plain
      restart, however it drains, clears the record. */
  lemma ServedOutcomes(s: State, e: Env)
    requires e.Valid() && Serves(s, e)
    ensures var r, url := Generation(s, e), ConfiguredUrl(s, e);
      if CutsOver(s, e) then
        r.restart && IsSqlite(url) && r.state.fallback == url && r.state.bootstrap == e.arrivals[0]
        && r.state.lastError == NoProblem
      else
        && r.state.bootstrap == s.bootstrap && r.state.fallback == ""
        && (Requested(s, e) ==> r.restart)
        && (Requested(s, e) && e.arrivals[0] == "" ==> r.state.lastError == NoProblem)
        && (Requested(s, e) && e.arrivals[0] != "" ==>
              r.state.lastError in {DrainFailed, CloseFailed, PinnedByEnv, CopyFailed, PersistFailed})
  {
    hide IsPostgres;
  }

  /** A pending fallback at the start of a generation means exactly that the one before ended in
      a verified cutover. */
  lemma FallbackMeansCutover(s: State, e: Env)
    requires e.Valid() && Generation(s, e).restart
    ensures Generation(s, e).state.fallback != "" <==> CutsOver(s, e)
  {
    hide IsPostgres;
  }

  /** A restart nobody asked for happens exactly when the target failed and the rollback could
      be written. */
  lemma UnrequestedRestart(s: State, e: Env)
    requires e.Valid()
    ensures Generation(s, e).restart && !Requested(s, e) <==> TargetFails(s, e) && e.restoreOk
  {
    hide IsSqlite, IsPostgres, Cutover;
  }

  /** The process goes round exactly when an operator asked for it or a failed target was rolled
      back, and it stops without a problem exactly on a signal after a clean drain. */
  lemma RestartsExactly(s: State, e: Env)
    requires e.Valid()
    ensures Generation(s, e).restart <==> Requested(s, e) || (TargetFails(s, e) && e.restoreOk)
    ensures !Generation(s, e).restart && Generation(s, e).problem == NoProblem <==>
      Serves(s, e) && e.stop == Signal && e.drainOk
  {
    hide IsSqlite, IsPostgres, Migration, MigrationLog;
  }

  /** When the target fails, either the bootstrap names the old SQLite database again before the
      next generation starts, or the process stops with the restore error and the bootstrap as
      it was. */
  lemma FailedTargetRollsBack(s: State, e: Env)
    requires e.Valid() && TargetFails(s, e)
    ensures var r := Generation(s, e);
      if e.restoreOk
      then r.restart && r.state.bootstrap == s.fallback && r.state.fallback == ""
           && r.state.lastError in {OpenFailed, BuildFailed, ListenFailed}
      else !r.restart && r.problem == RestoreFailed && r.state.bootstrap == s.bootstrap
  {
    hide IsSqlite, IsPostgres, Served;
  }

  /** A pending fallback lasts one configured generation: that generation serves, is rolled back,
      stops on the restore error, or finds that Postgres was not selected after all, and says so
      unless an operator's transition writes over it. */
  lemma FallbackLastsOnce(s: State, e: Env)
    requires e.Valid() && s.fallback != "" && e.configOk && !TargetFails(s, e)
    ensures Generation(s, e).restart ==> Requested(s, e)
    ensures var url, r := ConfiguredUrl(s, e), Generation(s, e);
      && (!CutsOver(s, e) ==> r.state.fallback == "" && r.state.bootstrap == s.bootstrap)
      && (!(Opens(url, e) && IsPostgres(url)) && !r.restart ==> r.state.lastError == NotSelected)
  {
    hide IsSqlite, IsPostgres, Migration, MigrationLog;
  }

  /** Two generations in a row: after a cutover away from `url`, a target that fails before
      serving leaves the bootstrap naming `url`. */
  lemma CutoverThenFailure(s: State, e: Env, next: Env)
    requires e.Valid() && next.Valid() && CutsOver(s, e)
    requires TargetFails(Generation(s, e).state, next) && next.restoreOk
    ensures After(s, [e, next]).restart && After(s, [e, next]).state.bootstrap == ConfiguredUrl(s, e)
  {
    assert Serves(s, e);
    hide Generation, CutsOver, TargetFails;
    ServedOutcomes(s, e);
    FailedTargetRollsBack(Generation(s, e).state, next);
    assert [e][..0] == [] && After(s, [e]) == Generation(s, e);
    assert [e, next][..1] == [e];
    assert After(s, [e, next]) == Generation(Generation(s, e).state, next);
  }

  // ---------------------------------------------------------------- counting restarts

  function UnrequestedRestarts(s: State, envs: seq<Env>): nat
    requires forall i :: 0 <= i < |envs| ==> envs[i].Valid()
  {
    if envs == [] then 0
    else
      var init, e := envs[..|envs| - 1], envs[|envs| - 1];
      var r := After(s, init);
      UnrequestedRestarts(s, init)
      + if r.restart && Generation(r.state, e).restart && !Requested(r.state, e) then 1 else 0
  }

  function Cutovers(s: State, envs: seq<Env>): nat
    requires forall i :: 0 <= i < |envs| ==> envs[i].Valid()
  {
    if envs == [] then 0
    else
      var init, e := envs[..|envs| - 1], envs[|envs| - 1];
      var r := After(s, init);
      Cutovers(s, init) + if r.restart && CutsOver(r.state, e) then 1 else 0
  }

  /** Over every run, restarts nobody requested never outnumber completed cutovers; a pending
      fallback is a cutover not yet used up. */
  lemma {:induction false} RestartsNeedCutovers(s: State, envs: seq<Env>)
    requires s.fallback == "" && forall i :: 0 <= i < |envs| ==> envs[i].Valid()
    ensures var r := After(s, envs);
      UnrequestedRestarts(s, envs) + (if r.restart && r.state.fallback != "" then 1 else 0) <= Cutovers(s, envs)
  {
    hide Generation, CutsOver, Requested, TargetFails;
    if envs != [] {
      var init, e := envs[..|envs| - 1], envs[|envs| - 1];
      RestartsNeedCutovers(s, init);
      var r := After(s, init);
      if r.restart {
        UnrequestedRestart(r.state, e);
        NeedsFallback(r.state, e);
        if Generation(r.state, e).restart { FallbackMeansCutover(r.state, e); }
      }
    }
  }

  lemma NeedsFallback(s: State, e: Env)
    requires e.Valid()
    ensures TargetFails(s, e) ==> s.fallback != ""
    ensures CutsOver(s, e) ==> Requested(s, e) && !TargetFails(s, e)
  {
  }

  // ---------------------------------------------------------------- the log of a whole run

  /** Whether the process has a store handle it has not tried to close; a close that failed gives
      the handle up without the store being closed. */
  predicate HandleHeld(log: seq<Event>) {
    log != [] &&
    match log[|log| - 1]
    case Opened(_) => true
    case Closed => false
    case CloseErred => false
    case _ => HandleHeld(log[..|log| - 1])
  }

  /** The copy a rollback would undo: the last one, until a generation serves or the bootstrap is
      written again. */
  function PendingCopy(log: seq<Event>): Option<Event>
    ensures PendingCopy(log).Some? ==> PendingCopy(log).value.Copied?
  {
    if log == [] then None
    else
      var init := log[..|log| - 1];
      match log[|log| - 1]
      case Copied(source, target) => Some(Copied(source, target))
      case Serving => None
      case Persisted(_) => if init != [] && init[|init| - 1].Copied? then PendingCopy(init) else None
      case _ => PendingCopy(init)
  }

  function LastPersisted(log: seq<Event>, initial: Url): Url {
    if log == [] then initial
    else if log[|log| - 1].Persisted? then log[|log| - 1].url
    else LastPersisted(log[..|log| - 1], initial)
  }

  /** The last three events: the store was opened at `source`, served, and closed. */
  predicate ServedAndClosed(log: seq<Event>, source: Url) {
    |log| >= 3 && log[|log| - 3..] == [Opened(source), Serving, Closed]
  }

  /** The event may follow these: no store is opened over one that was not given up; a copy runs
      from an SQLite store the same generation opened, served from and closed; the bootstrap is
      rewritten only to the target of the copy just verified or back to the source of a copy
      since which nothing has served. */
  predicate MayFollow(log: seq<Event>, event: Event) {
    match event
    case Opened(_) => !HandleHeld(log)
    case Closed => HandleHeld(log)
    case CloseErred => HandleHeld(log)
    case Copied(source, _) => IsSqlite(source) && ServedAndClosed(log, source)
    case Persisted(url) =>
      || (log != [] && log[|log| - 1].Copied? && log[|log| - 1].target == url)
      || (PendingCopy(log).Some? && PendingCopy(log).value.source == url)
    case Serving => true
  }

  ghost predicate SafeLog(log: seq<Event>) {
    forall i :: 0 <= i < |log| ==> MayFollow(log[..i], log[i])
  }

  lemma SafeExtend(log: seq<Event>, event: Event)
    requires SafeLog(log) && MayFollow(log, event)
    ensures SafeLog(log + [event])
  {
    hide MayFollow;
    var all := log + [event];
    forall i | 0 <= i < |all| ensures MayFollow(all[..i], all[i]) {
      if i < |log| { assert all[..i] == log[..i]; } else { assert all[..i] == log; }
    }
  }

  lemma Extended(log: seq<Event>, event: Event, initial: Url)
    ensures var all := log + [event];
      && HandleHeld(all) == (match event
           case Opened(_) => true
           case Closed => false
           case CloseErred => false
           case _ => HandleHeld(log))
      && PendingCopy(all) == (match event
           case Copied(_, _) => Some(event)
           case Serving => None
           case Persisted(_) => if log != [] && log[|log| - 1].Copied? then PendingCopy(log) else None
           case _ => PendingCopy(log))
      && LastPersisted(all, initial) == (if event.Persisted? then event.url else LastPersisted(log, initial))
  {
    var all := log + [event];
    assert all[..|all| - 1] == log;
  }

  /** What holds of the process whenever `live` says whether it holds its store: the log is safe,
      the bootstrap is what was last written, and a pending fallback is the source of the copy a
      rollback would undo, whose target the bootstrap names. */
  ghost predicate Inv(s: State, initial: Url, live: bool) {
    && SafeLog(s.log)
    && (HandleHeld(s.log) <==> live)
    && s.bootstrap == LastPersisted(s.log, initial)
    && (s.fallback != "" ==> PendingCopy(s.log) == Some(Copied(s.fallback, s.bootstrap)))
  }

  lemma InvEvent(s: State, initial: Url, live: bool, event: Event)
    requires Inv(s, initial, live) && event in {Closed, CloseErred, Serving}
    requires if event.Serving? then s.fallback == "" else live
    ensures Inv(s.(log := s.log + [event]), initial, live && event.Serving?)
  {
    hide SafeLog, IsSqlite;
    SafeExtend(s.log, event);
    Extended(s.log, event, initial);
  }

  lemma InvRestored(s: State, e: Env, initial: Url, live: bool, cause: Problem)
    requires Inv(s, initial, live) && s.fallback != ""
    ensures Inv(Restored(s, e, cause).state, initial, live)
  {
    hide SafeLog, IsSqlite;
    if e.restoreOk {
      SafeExtend(s.log, Persisted(s.fallback));
      Extended(s.log, Persisted(s.fallback), initial);
    }
  }

  lemma InvAfterOpen(s: State, initial: Url, url: Url, live: bool)
    requires Inv(s, initial, false)
    ensures Inv(AfterOpen(s, url, live), initial, live)
    ensures live ==> var log := AfterOpen(s, url, live).log; log != [] && log[|log| - 1] == Opened(url)
  {
    hide SafeLog, IsSqlite, IsPostgres;
    if live {
      SafeExtend(s.log, Opened(url));
      Extended(s.log, Opened(url), initial);
    }
  }

  lemma InvCloseAfter(r: Result, initial: Url, live: bool, e: Env)
    requires Inv(r.state, initial, live)
    ensures Inv(CloseAfter(r, live, e).state, initial, false)
  {
    hide SafeLog, IsSqlite;
    if live { InvEvent(r.state, initial, live, if e.deferredCloseOk then Closed else CloseErred); }
  }

  lemma InvFailed(s: State, e: Env, initial: Url, live: bool, cause: Problem)
    requires Inv(s, initial, live)
    ensures Inv(CloseAfter(Failed(s, e, cause), live, e).state, initial, false)
  {
    hide Inv;
    if s.fallback != "" { InvRestored(s, e, initial, live, cause); }
    InvCloseAfter(Failed(s, e, cause), initial, live, e);
  }

  lemma InvMigration(s: State, initial: Url, source: Url, target: Url, e: Env)
    requires Inv(s, initial, false) && s.fallback == "" && ServedAndClosed(s.log, source)
    ensures var p, t := Migration(source, target, e), s.(log := s.log + MigrationLog(source, target, e));
      Inv(if p == NoProblem then t.(bootstrap := target, fallback := source) else t, initial, false)
  {
    hide SafeLog, IsSqlite, ServedAndClosed;
    var p := Migration(source, target, e);
    var copied := s.log + [Copied(source, target)];
    if p == NoProblem || p == PersistFailed {
      SafeExtend(s.log, Copied(source, target));
      Extended(s.log, Copied(source, target), initial);
      if p == NoProblem {
        SafeExtend(copied, Persisted(target));
        Extended(copied, Persisted(target), initial);
        assert s.log + MigrationLog(source, target, e) == copied + [Persisted(target)];
      }
    } else {
      assert s.log + [] == s.log;
    }
  }

  /** The generation opened the store at `url` and has done nothing since but serve. */
  predicate OpenedAndServing(log: seq<Event>, url: Url) {
    |log| >= 2 && log[|log| - 2..] == [Opened(url), Serving]
  }

  lemma InvCutover(s: State, initial: Url, source: Url, target: Url, e: Env)
    requires Inv(s, initial, true) && s.fallback == "" && OpenedAndServing(s.log, source)
    ensures Inv(Cutover(s, source, target, true, e).state, initial, false)
  {
    hide SafeLog, IsSqlite, Migration, MigrationLog;
    if !e.closeOk {
      InvEvent(s, initial, true, CloseErred);
    } else {
      InvEvent(s, initial, true, Closed);
      var log := s.log + [Closed];
      assert log[|log| - 3..] == s.log[|s.log| - 2..] + [Closed];
      InvMigration(s.(log := log), initial, source, target, e);
    }
  }

  lemma InvServed(s: State, initial: Url, url: Url, live: bool, e: Env)
    requires Inv(s, initial, live) && s.fallback == "" && e.Valid() && Offered(e, live)
    requires live ==> OpenedAndServing(s.log, url)
    ensures Inv(Served(s, url, live, e).state, initial, false)
  {
    hide SafeLog, IsSqlite, Cutover, CloseAfter;
    if e.stop == FirstRequest { assert e.arrivals[0] in e.arrivals + e.late; }
    if live { InvCutover(s, initial, url, if e.stop == FirstRequest then e.arrivals[0] else "", e); }
    forall t, restart, problem | t in {s, s.(lastError := DrainFailed), s.(lastError := NoProblem)}
      ensures Inv(CloseAfter(Result(t, restart, problem), live, e).state, initial, false)
    {
      InvCloseAfter(Result(t, restart, problem), initial, live, e);
    }
  }

  lemma InvGeneration(s: State, initial: Url, e: Env)
    requires Inv(s, initial, false) && e.Valid() && Offered(e, Opens(ConfiguredUrl(s, e), e))
    ensures Inv(Generation(s, e).state, initial, false)
  {
    hide SafeLog, IsSqlite, IsPostgres, Served, Failed, CloseAfter, AfterOpen, Restored, HandleHeld, PendingCopy,
      LastPersisted, Offered;
    if e.configOk {
      var url := ConfiguredUrl(s, e);
      var live := Opens(url, e);
      if url != "" && !live && s.fallback != "" {
        InvRestored(s, e, initial, false, OpenFailed);
      } else {
        InvAfterOpen(s, initial, url, live);
        var t := AfterOpen(s, url, live);
        InvFailed(t, e, initial, live, if !e.buildOk then BuildFailed else ListenFailed);
        InvEvent(t.(fallback := ""), initial, live, Serving);
        InvServed(t.(fallback := "", log := t.log + [Serving]), initial, url, live, e);
      }
    }
  }

  /** The run meets only requests that its generations can have offered. */
  ghost predicate Possible(s: State, envs: seq<Env>) {
    && (forall i :: 0 <= i < |envs| ==> envs[i].Valid())
    && (forall i :: 0 <= i < |envs| ==> OfferedNext(s, envs[..i], envs[i]))
  }

  ghost predicate OfferedNext(s: State, envs: seq<Env>, e: Env)
    requires forall i :: 0 <= i < |envs| ==> envs[i].Valid()
  {
    var r := After(s, envs);
    r.restart ==> Offered(e, Opens(ConfiguredUrl(r.state, e), e))
  }

  /** Over every run from a fresh start, with anything failing anywhere: the log is safe and the
      bootstrap is what the log last wrote. */
  lemma {:induction false} RunIsSafe(initial: Url, envs: seq<Env>)
    requires Possible(State(NoProblem, "", initial, []), envs)
    ensures Inv(After(State(NoProblem, "", initial, []), envs).state, initial, false)
  {
    hide Generation, Inv, Offered;
    var s := State(NoProblem, "", initial, []);
    if envs == [] {
      FreshInv(initial);
    } else {
      var n := |envs| - 1;
      forall i | 0 <= i < n ensures OfferedNext(s, envs[..n][..i], envs[..n][i]) {
        assert envs[..n][..i] == envs[..i];
      }
      RunIsSafe(initial, envs[..n]);
      var r := After(s, envs[..n]);
      if r.restart {
        assert OfferedNext(s, envs[..n], envs[n]);
        InvGeneration(r.state, initial, envs[n]);
      }
    }
  }

  lemma FreshInv(initial: Url)
    ensures Inv(State(NoProblem, "", initial, []), initial, false)
  {
  }

  /** The order of a whole run's events, spelled out for the copy: whenever one is logged, the
      three events before it are its own generation opening that very source, serving from it,
      and closing it without error. */
  lemma CopiesFollowTheClose(initial: Url, envs: seq<Env>, i: nat)
    requires Possible(State(NoProblem, "", initial, []), envs)
    requires var log := After(State(NoProblem, "", initial, []), envs).state.log; i < |log| && log[i].Copied?
    ensures var log := After(State(NoProblem, "", initial, []), envs).state.log;
      i >= 3 && IsSqlite(log[i].source) && log[i - 3..i] == [Opened(log[i].source), Serving, Closed]
  {
    hide After;
    RunIsSafe(initial, envs);
    var log := After(State(NoProblem, "", initial, []), envs).state.log;
    assert MayFollow(log[..i], log[i]);
    assert log[..i][i - 3..] == log[i - 3..i];
  }

  /** The same for the bootstrap: it moves to a target only right after that target was copied to
      from a store just closed, and otherwise only back to the source of the copy pending. */
  lemma BootstrapMoves(initial: Url, envs: seq<Env>, i: nat)
    requires Possible(State(NoProblem, "", initial, []), envs)
    requires var log := After(State(NoProblem, "", initial, []), envs).state.log; i < |log| && log[i].Persisted?
    ensures var log := After(State(NoProblem, "", initial, []), envs).state.log;
      || (i >= 4 && exists source ::
            log[i - 4..i] == [Opened(source), Serving, Closed, Copied(source, log[i].url)])
      || (PendingCopy(log[..i]).Some? && PendingCopy(log[..i]).value.source == log[i].url)
  {
    hide After;
    RunIsSafe(initial, envs);
    var log := After(State(NoProblem, "", initial, []), envs).state.log;
    assert MayFollow(log[..i], log[i]);
    if i > 0 && log[i - 1].Copied? {
      CopiesFollowTheClose(initial, envs, i - 1);
      assert log[i - 4..i] == log[i - 4..i - 1] + [log[i - 1]];
      assert log[i - 4..i] == [Opened(log[i - 1].source), Serving, Closed, Copied(log[i - 1].source, log[i - 1].target)];
    }
  }
}
