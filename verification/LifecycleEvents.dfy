/** One generation of the process, event by event and field by field, in the words of its inputs
  (cmd/loomarr/main.go, `runOnce` and what it calls). */
module LifecycleEvents {
  import opened Common
  import opened Lifecycle

  /** The database the generation is told to use: pinned by the environment, or the bootstrap's. */
  function Chosen(s: State, e: Env): Url {
    match e.pin case Some(url) => url case None => s.bootstrap
  }

  lemma UrlKinds(url: Url)
    ensures IsSqlite(url) <==> "sqlite://" <= url
    ensures IsPostgres(url) <==> "postgres://" <= url || "postgresql://" <= url
  {
  }

  lemma OpensWhen(url: Url, e: Env)
    ensures Opens(url, e) <==> e.openOk && (IsSqlite(url) || IsPostgres(url))
  {
    if url == "" { assert !IsSqlite(url) && !IsPostgres(url); }
  }

  /** The log with one more event, if it happens. */
  function Then(log: seq<Event>, happens: bool, event: Event): seq<Event> {
    if happens then log + [event] else log
  }

  /** The log once the store a generation has, if any, is given up. */
  function GivenUp(log: seq<Event>, live: bool, ok: bool): seq<Event> {
    Then(log, live, if ok then Closed else CloseErred)
  }

  lemma ServedEvents(s: State, url: Url, live: bool, e: Env)
    requires e.Valid()
    ensures var hands := e.stop == FirstRequest && e.arrivals[0] != "" && e.drainOk;
      var copies := hands && (!live || e.closeOk) && !e.pinnedAtCommit && IsSqlite(url) && e.copyOk;
      var target := if hands then e.arrivals[0] else "";
      var closed := GivenUp(s.log, live, if hands then e.closeOk else e.deferredCloseOk);
      Served(s, url, live, e).state.log
        == Then(Then(closed, copies, Copied(url, target)), copies && e.persistOk, Persisted(target))
  {
    hide IsSqlite;
    assert s.log + [] == s.log;
    var closed := s.log + [Closed];
    assert closed + [] == closed && s.log + [] == s.log;
    assert forall log: seq<Event>, a: Event, b: Event :: log + [a, b] == log + [a] + [b];
  }

  lemma FailedEvents(s: State, cause: Problem, live: bool, e: Env)
    ensures CloseAfter(Failed(s, e, cause), live, e).state.log
      == GivenUp(Then(s.log, s.fallback != "" && e.restoreOk, Persisted(s.fallback)), live, e.deferredCloseOk)
  {
  }

  lemma OpenEvents(s: State, url: Url, live: bool)
    ensures AfterOpen(s, url, live).log == Then(s.log, live, Opened(url))
    ensures AfterOpen(s, url, live).bootstrap == s.bootstrap
    ensures AfterOpen(s, url, live).fallback == if live && IsPostgres(url) then s.fallback else ""
    ensures AfterOpen(s, url, live).lastError ==
      if s.fallback != "" && !(live && IsPostgres(url)) then NotSelected else s.lastError
  {
    hide IsPostgres;
  }

  /** Everything a generation logs, by its inputs: it opens the store chosen if it is an SQLite or a
      Postgres one and opening works; it serves if it was built and got its listener and, with a
      cutover pending, no configured database failed to open; it rolls a pending cutover back if
      that open failed, or Postgres was open and it did not get to serve; it gives its store up; it
      copies if it served, was first asked to migrate, drained and closed cleanly, was not pinned,
      and ran on SQLite; it commits the target if the copy verified and could be written down. */
  lemma EventsExactly(s: State, e: Env)
    requires e.Valid()
    ensures var url := Chosen(s, e);
      var sqlite, postgres := "sqlite://" <= url, "postgres://" <= url || "postgresql://" <= url;
      var opens := e.configOk && e.openOk && (sqlite || postgres);
      var stays := url == "" || opens || s.fallback == "";
      var serves := e.configOk && stays && e.buildOk && e.listenOk;
      var rollsBack := e.configOk && s.fallback != "" && e.restoreOk
        && (!stays || (opens && postgres && !(e.buildOk && e.listenOk)));
      var hands := serves && e.stop == FirstRequest && e.arrivals[0] != "" && e.drainOk;
      var copies := hands && (!opens || e.closeOk) && !e.pinnedAtCommit && sqlite && e.copyOk;
      var target := if hands then e.arrivals[0] else "";
      var started := Then(Then(s.log, opens, Opened(url)), serves, Serving);
      var back := Then(started, rollsBack, Persisted(s.fallback));
      var closed := GivenUp(back, opens, if hands then e.closeOk else e.deferredCloseOk);
      Generation(s, e).state.log
        == Then(Then(closed, copies, Copied(url, target)), copies && e.persistOk, Persisted(target))
  {
    hide Generation, IsSqlite, IsPostgres;
    UrlKinds(Chosen(s, e));
    EventsByKind(s, e);
  }

  lemma EventsByKind(s: State, e: Env)
    requires e.Valid()
    ensures var url := Chosen(s, e);
      var opens := e.configOk && e.openOk && (IsSqlite(url) || IsPostgres(url));
      var stays := url == "" || opens || s.fallback == "";
      var serves := e.configOk && stays && e.buildOk && e.listenOk;
      var rollsBack := e.configOk && s.fallback != "" && e.restoreOk
        && (!stays || (opens && IsPostgres(url) && !(e.buildOk && e.listenOk)));
      var hands := serves && e.stop == FirstRequest && e.arrivals[0] != "" && e.drainOk;
      var copies := hands && (!opens || e.closeOk) && !e.pinnedAtCommit && IsSqlite(url) && e.copyOk;
      var target := if hands then e.arrivals[0] else "";
      var started := Then(Then(s.log, opens, Opened(url)), serves, Serving);
      var back := Then(started, rollsBack, Persisted(s.fallback));
      var closed := GivenUp(back, opens, if hands then e.closeOk else e.deferredCloseOk);
      Generation(s, e).state.log
        == Then(Then(closed, copies, Copied(url, target)), copies && e.persistOk, Persisted(target))
  {
    var url := Chosen(s, e);
    OpensWhen(url, e);
    hide IsSqlite, IsPostgres, Opens, AfterOpen, Failed, CloseAfter, Served;
    var live := Opens(url, e);
    var t := AfterOpen(s, url, live);
    OpenEvents(s, url, live);
    FailedEvents(t, if !e.buildOk then BuildFailed else ListenFailed, live, e);
    var served := t.(fallback := "", log := t.log + [Serving]);
    ServedEvents(served, url, live, e);
  }

  lemma ServedState(s: State, url: Url, live: bool, e: Env)
    requires e.Valid()
    ensures var hands := e.stop == FirstRequest && e.arrivals[0] != "" && e.drainOk;
      var moves := hands && (!live || e.closeOk) && !e.pinnedAtCommit && IsSqlite(url) && e.copyOk && e.persistOk;
      var r := Served(s, url, live, e);
      && r.restart == (e.stop == FirstRequest)
      && r.problem == (if e.stop == ServerError then ServerFailed
                       else if e.stop == Signal && !e.drainOk then DrainFailed else NoProblem)
      && r.state.bootstrap == (if moves then e.arrivals[0] else s.bootstrap)
      && r.state.fallback == (if moves then url else s.fallback)
      && r.state.lastError == (
           if e.stop != FirstRequest then s.lastError
           else if e.arrivals[0] == "" then NoProblem
           else if !e.drainOk then DrainFailed
           else if live && !e.closeOk then CloseFailed
           else if e.pinnedAtCommit then PinnedByEnv
           else if !(IsSqlite(url) && e.copyOk) then CopyFailed
           else if !e.persistOk then PersistFailed
           else NoProblem)
  {
    hide IsSqlite;
  }

  /** What a generation that serves leaves, by its inputs: it goes round exactly when something was
      requested; the bootstrap and the fallback move only with a completed cutover; the recorded
      error is the step a requested migration failed at, nothing after a request that succeeded,
      and otherwise what it was, or that Postgres was not selected when a cutover was pending. */
  lemma ServingLeaves(s: State, e: Env)
    requires e.Valid() && e.configOk && e.buildOk && e.listenOk
    requires var url := Chosen(s, e);
      url == "" || s.fallback == "" || (e.openOk && ("sqlite://" <= url || "postgres://" <= url || "postgresql://" <= url))
    ensures var url := Chosen(s, e);
      var sqlite, postgres := "sqlite://" <= url, "postgres://" <= url || "postgresql://" <= url;
      var opens := e.openOk && (sqlite || postgres);
      var moves := e.stop == FirstRequest && e.arrivals[0] != "" && e.drainOk && (!opens || e.closeOk)
        && !e.pinnedAtCommit && sqlite && e.copyOk && e.persistOk;
      var r := Generation(s, e);
      && r.restart == (e.stop == FirstRequest)
      && r.problem == (if e.stop == ServerError then ServerFailed
                       else if e.stop == Signal && !e.drainOk then DrainFailed else NoProblem)
      && r.state.bootstrap == (if moves then e.arrivals[0] else s.bootstrap)
      && r.state.fallback == (if moves then url else "")
      && r.state.lastError == (
           if e.stop != FirstRequest then (if s.fallback != "" && !(opens && postgres) then NotSelected else s.lastError)
           else if e.arrivals[0] == "" then NoProblem
           else if !e.drainOk then DrainFailed
           else if opens && !e.closeOk then CloseFailed
           else if e.pinnedAtCommit then PinnedByEnv
           else if !(sqlite && e.copyOk) then CopyFailed
           else if !e.persistOk then PersistFailed
           else NoProblem)
  {
    var url := Chosen(s, e);
    UrlKinds(url);
    OpensWhen(url, e);
    hide IsSqlite, IsPostgres, Opens, AfterOpen, Failed, CloseAfter, Served;
    var live := Opens(url, e);
    OpenEvents(s, url, live);
    var t := AfterOpen(s, url, live);
    ServedState(t.(fallback := "", log := t.log + [Serving]), url, live, e);
  }

  /** What a generation that fails before serving leaves, by its inputs: with Postgres pending it
      puts the SQLite URL back and goes round with the reason on record, or stops with the restore
      error and everything as it was; otherwise it stops with its own error. */
  lemma FailingLeaves(s: State, e: Env)
    requires e.Valid() && e.configOk
    requires var url := Chosen(s, e);
      !(url == "" || s.fallback == "" || (e.openOk && ("sqlite://" <= url || "postgres://" <= url || "postgresql://" <= url)))
      || !e.buildOk || !e.listenOk
    ensures var url := Chosen(s, e);
      var postgres := "postgres://" <= url || "postgresql://" <= url;
      var opens := e.openOk && ("sqlite://" <= url || postgres);
      var unopened := url != "" && s.fallback != "" && !opens;
      var pending := s.fallback != "" && (unopened || (opens && postgres));
      var reason := if unopened then OpenFailed else if !e.buildOk then BuildFailed else ListenFailed;
      var r := Generation(s, e);
      && r.restart == (pending && e.restoreOk)
      && r.problem == (if !pending then reason else if e.restoreOk then NoProblem else RestoreFailed)
      && r.state.bootstrap == (if pending && e.restoreOk then s.fallback else s.bootstrap)
      && r.state.fallback == (if pending && !e.restoreOk then s.fallback else "")
      && r.state.lastError == (if pending && e.restoreOk then reason
                               else if s.fallback != "" && !pending then NotSelected else s.lastError)
  {
    var url := Chosen(s, e);
    UrlKinds(url);
    OpensWhen(url, e);
    hide IsSqlite, IsPostgres, Opens, AfterOpen, Served;
    OpenEvents(s, url, Opens(url, e));
  }

  /** A configuration that cannot be read stops the process and leaves everything alone. */
  lemma UnreadLeaves(s: State, e: Env)
    requires e.Valid() && !e.configOk
    ensures Generation(s, e) == Result(s, false, ConfigInvalid)
  {
  }

  lemma KindsDiffer(url: Url)
    requires "postgres://" <= url || "postgresql://" <= url
    ensures !("sqlite://" <= url)
  {
    assert url[0] == 'p';
  }

  /** SQLite serves, is asked to migrate, and everything works. */
  lemma Migrates(s: State, e: Env)
    requires e.Valid() && s.fallback == "" && "sqlite://" <= Chosen(s, e)
    requires e.configOk && e.openOk && e.buildOk && e.listenOk && e.stop == FirstRequest && e.arrivals[0] != ""
    requires e.drainOk && e.closeOk && !e.pinnedAtCommit && e.copyOk && e.persistOk
    ensures var url, target, r := Chosen(s, e), e.arrivals[0], Generation(s, e);
      && r.restart && r.state.fallback == url && r.state.bootstrap == target && r.state.lastError == NoProblem
      && r.state.log == s.log + [Opened(url), Serving, Closed, Copied(url, target), Persisted(target)]
  {
    hide Generation, Chosen;
    EventsExactly(s, e);
    ServingLeaves(s, e);
    var url, target := Chosen(s, e), e.arrivals[0];
    FiveEvents(s.log, Opened(url), Serving, Closed, Copied(url, target), Persisted(target));
  }

  lemma FiveEvents(log: seq<Event>, a: Event, b: Event, c: Event, d: Event, e: Event)
    ensures log + [a] + [b] + [c] + [d] + [e] == log + [a, b, c, d, e]
  {
  }

  /** With a cutover pending, the Postgres target opens, is built and listens: it serves, stays the
      bootstrap however the generation ends, and the process goes round only if it was asked to. */
  lemma TargetServes(s: State, e: Env)
    requires e.Valid() && e.configOk && e.openOk && e.buildOk && e.listenOk
    requires "postgres://" <= Chosen(s, e) || "postgresql://" <= Chosen(s, e)
    ensures var url, r := Chosen(s, e), Generation(s, e);
      && |r.state.log| == |s.log| + 3 && r.state.log[..|s.log| + 2] == s.log + [Opened(url), Serving]
      && r.state.log[|s.log| + 2] in {Closed, CloseErred}
      && r.state.bootstrap == s.bootstrap && r.state.fallback == "" && r.restart == (e.stop == FirstRequest)
  {
    hide Generation, Chosen;
    EventsExactly(s, e);
    ServingLeaves(s, e);
    var url := Chosen(s, e);
    KindsDiffer(url);
    var hands := e.stop == FirstRequest && e.arrivals[0] != "" && e.drainOk;
    ThreeEvents(s.log, Opened(url), Serving, if (if hands then e.closeOk else e.deferredCloseOk) then Closed else CloseErred);
  }

  lemma ThreeEvents(log: seq<Event>, a: Event, b: Event, c: Event)
    ensures log + [a] + [b] + [c] == log + [a, b, c]
    ensures (log + [a, b, c])[..|log| + 2] == log + [a, b]
  {
  }

  /** A cutover from start to commit, over two generations: the target stays the bootstrap. */
  lemma CutoverCommits(s: State, e: Env, next: Env)
    requires e.Valid() && s.fallback == "" && "sqlite://" <= Chosen(s, e)
    requires e.configOk && e.openOk && e.buildOk && e.listenOk && e.stop == FirstRequest && e.arrivals[0] != ""
    requires e.drainOk && e.closeOk && !e.pinnedAtCommit && e.copyOk && e.persistOk
    requires "postgres://" <= e.arrivals[0] || "postgresql://" <= e.arrivals[0]
    requires next.Valid() && next.configOk && next.openOk && next.buildOk && next.listenOk && next.pin == None
    ensures var target, r := e.arrivals[0], After(s, [e, next]);
      && r.state.bootstrap == target && r.state.fallback == "" && r.restart == (next.stop == FirstRequest)
      && |r.state.log| == |s.log| + 8 && r.state.log[|s.log| + 4..|s.log| + 7] == [Persisted(target), Opened(target), Serving]
  {
    hide Generation;
    Migrates(s, e);
    var t := Generation(s, e).state;
    TargetServes(t, next);
    AfterTwo(s, e, next);
    var log := Generation(t, next).state.log;
    var url := Chosen(s, e);
    var head, target := log[..|t.log| + 2], e.arrivals[0];
    assert Chosen(t, next) == target;
    assert head == s.log + [Opened(url), Serving, Closed, Copied(url, target), Persisted(target), Opened(target), Serving];
    assert log[|s.log| + 4..|s.log| + 7] == head[|s.log| + 4..|s.log| + 7];
  }

  lemma AfterTwo(s: State, e: Env, next: Env)
    requires e.Valid() && next.Valid() && Generation(s, e).restart
    ensures After(s, [e, next]) == Generation(Generation(s, e).state, next)
  {
    hide Generation;
    var one, two := [e], [e, next];
    assert one[..|one| - 1] == [] && one[|one| - 1] == e;
    assert After(s, one) == Generation(s, e);
    assert two[..|two| - 1] == one && two[|two| - 1] == next;
  }
}
