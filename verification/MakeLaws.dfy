/** What the Makefile reader's result means (cmd/dev-docs/main.go). */
module MakeLaws {
  import opened Common
  import opened MakeDocs

  // ---------------------------------------------------------------- include chains

  predicate Includes(repo: Repo, file: Path, included: Path) {
    file in repo.files && exists i :: 0 <= i < |repo.files[file]| && LineIncludes(repo.files[file][i], included)
  }

  predicate LineIncludes(line: Line, included: Path) {
    line.Include? && Literal(included) in line.refs
  }

  /** Each file of the chain includes the next. */
  ghost predicate Chain(repo: Repo, c: seq<Path>)
    ensures Chain(repo, c) ==> c != []
  {
    c != [] && forall i :: 0 <= i < |c| - 1 ==> Includes(repo, c[i], c[i + 1])
  }

  /** The file exists inside the root, is readable to its end, and names its includes literally. */
  predicate Sound(repo: Repo, file: Path) {
    && file !in repo.outside && file in repo.files
    && forall i :: 0 <= i < |repo.files[file]| ==> SoundLine(repo.files[file][i])
  }

  predicate SoundLine(line: Line) {
    !line.Unreadable? && (line.Include? ==> forall r :: r in line.refs ==> r.Literal?)
  }

  /** Every include chain from `path` stays off `stack`, never meets a file twice and meets only
      sound files. */
  ghost predicate Clean(repo: Repo, path: Path, stack: set<Path>) {
    forall c :: Chain(repo, c) && c[0] == path ==> GoodChain(repo, c, stack)
  }

  ghost predicate GoodChain(repo: Repo, c: seq<Path>, stack: set<Path>) {
    Distinct(c) && (forall i :: 0 <= i < |c| ==> c[i] !in stack && Sound(repo, c[i]))
  }

  predicate NoBad(tokens: seq<Token>) {
    forall i :: 0 <= i < |tokens| ==> !tokens[i].Bad?
  }

  lemma NoBadConcat(a: seq<Token>, b: seq<Token>)
    ensures NoBad(a + b) <==> NoBad(a) && NoBad(b)
  {
    var c := a + b;
    if NoBad(c) {
      forall i | 0 <= i < |a| ensures !a[i].Bad? { assert c[i] == a[i]; }
      forall i | 0 <= i < |b| ensures !b[i].Bad? { assert c[|a| + i] == b[i]; }
    }
  }

  lemma {:induction false} NoBadRefs(repo: Repo, refs: seq<Ref>, stack: set<Path>)
    ensures NoBad(InlineRefs(repo, refs, stack)) <==>
      forall r :: r in refs ==> r.Literal? && NoBad(Inline(repo, r.path, stack))
  {
    hide Inline;
    if refs != [] {
      var n := |refs| - 1;
      NoBadRefs(repo, refs[..n], stack);
      NoBadConcat(InlineRefs(repo, refs[..n], stack), InlineRef(repo, refs[n], stack));
      assert refs == refs[..n] + [refs[n]];
      if refs[n].NonLiteral? { assert InlineRef(repo, refs[n], stack)[0].Bad?; }
    }
  }

  /** A line is inlined without an error exactly when it is sound and so is what it includes. */
  lemma NoBadLine(repo: Repo, path: Path, line: Line, stack: set<Path>)
    ensures NoBad(InlineLine(repo, path, line, stack)) <==>
      SoundLine(line) && forall q :: LineIncludes(line, q) ==> NoBad(Inline(repo, q, stack))
  {
    hide Inline, InlineRefs, NoBad;
    match line {
      case Include(refs) =>
        NoBadRefs(repo, refs, stack);
        forall q | LineIncludes(line, q) ensures Literal(q) in refs {}
        if SoundLine(line) && forall q :: LineIncludes(line, q) ==> NoBad(Inline(repo, q, stack)) {
          forall r | r in refs ensures r.Literal? && NoBad(Inline(repo, r.path, stack)) {
            assert LineIncludes(line, r.path);
          }
        }
      case Unreadable => OneBad(ReadFailed(path));
      case Section(name) => OneGood(Sect(name));
      case Target(name, deps, doc) => OneGood(Tgt(name, deps, doc, path));
      case Other => NoneBad();
    }
  }

  lemma OneBad(error: Error)
    ensures !NoBad([Bad(error)])
  {
    assert [Bad(error)][0].Bad?;
  }

  lemma OneGood(t: Token)
    requires !t.Bad?
    ensures NoBad([t])
  {
  }

  lemma NoneBad()
    ensures NoBad([])
  {
  }

  lemma {:induction false} NoBadLines(repo: Repo, path: Path, lines: seq<Line>, stack: set<Path>)
    ensures NoBad(InlineLines(repo, path, lines, stack)) <==>
      forall i :: 0 <= i < |lines| ==> NoBad(InlineLine(repo, path, lines[i], stack))
  {
    hide InlineLine, NoBad;
    if lines != [] {
      var n := |lines| - 1;
      NoBadLines(repo, path, lines[..n], stack);
      NoBadConcat(InlineLines(repo, path, lines[..n], stack), InlineLine(repo, path, lines[n], stack));
      assert forall i :: 0 <= i < n ==> lines[..n][i] == lines[i];
    } else {
      NoneBad();
    }
  }

  /** One level: a file is inlined without an error exactly when it is new, sound, and everything
      it includes is inlined without an error below it. */
  lemma NoBadFile(repo: Repo, path: Path, stack: set<Path>)
    ensures NoBad(Inline(repo, path, stack)) <==>
      && path !in stack && Sound(repo, path)
      && forall q :: Includes(repo, path, q) ==> NoBad(Inline(repo, q, stack + {path}))
  {
    hide NoBad, InlineLines, InlineLine, SoundLine, LineIncludes;
    if path in repo.outside {
      OneBad(Escapes(path));
    } else if path in stack {
      OneBad(Cyclic(path));
    } else if path !in repo.files {
      OneBad(Missing(path));
    } else {
      var lines := repo.files[path];
      NoBadLines(repo, path, lines, stack + {path});
      forall i | 0 <= i < |lines|
        ensures NoBad(InlineLine(repo, path, lines[i], stack + {path})) <==>
          SoundLine(lines[i]) && forall q :: LineIncludes(lines[i], q) ==> NoBad(Inline(repo, q, stack + {path}))
      {
        NoBadLine(repo, path, lines[i], stack + {path});
      }
      BelowLines(repo, path, stack + {path});
    }
  }

  lemma BelowLines(repo: Repo, path: Path, stack: set<Path>)
    requires path in repo.files
    ensures var lines := repo.files[path];
      (forall q :: Includes(repo, path, q) ==> NoBad(Inline(repo, q, stack))) <==>
      (forall i :: 0 <= i < |lines| ==> forall q :: LineIncludes(lines[i], q) ==> NoBad(Inline(repo, q, stack)))
  {
    hide NoBad, Inline, LineIncludes;
    var lines := repo.files[path];
    if forall i :: 0 <= i < |lines| ==> forall q :: LineIncludes(lines[i], q) ==> NoBad(Inline(repo, q, stack)) {
      forall q | Includes(repo, path, q) ensures NoBad(Inline(repo, q, stack)) {
        var i :| 0 <= i < |lines| && LineIncludes(lines[i], q);
      }
    }
  }

  lemma ChainTail(repo: Repo, c: seq<Path>)
    requires Chain(repo, c) && |c| > 1
    ensures Chain(repo, c[1..]) && Includes(repo, c[0], c[1])
  {
    hide Includes;
    var t := c[1..];
    forall i | 0 <= i < |t| - 1 ensures Includes(repo, t[i], t[i + 1]) {
      assert Includes(repo, c[i + 1], c[i + 2]);
    }
    assert Includes(repo, c[0], c[0 + 1]);
  }

  lemma ChainCons(repo: Repo, path: Path, c: seq<Path>)
    requires Chain(repo, c) && Includes(repo, path, c[0])
    ensures Chain(repo, [path] + c)
  {
    hide Includes;
    var d := [path] + c;
    forall i | 0 <= i < |d| - 1 ensures Includes(repo, d[i], d[i + 1]) {
      if i > 0 { assert Includes(repo, c[i - 1], c[i]); }
    }
  }

  /** A file inlines without an error only if no chain from it goes wrong. */
  lemma {:induction false} NoBadChain(repo: Repo, path: Path, stack: set<Path>, c: seq<Path>)
    requires NoBad(Inline(repo, path, stack)) && Chain(repo, c) && c[0] == path
    ensures GoodChain(repo, c, stack)
    decreases |c|
  {
    hide NoBad, Inline, Includes, Chain, Sound;
    NoBadFile(repo, path, stack);
    if |c| > 1 {
      ChainTail(repo, c);
      var t := c[1..];
      NoBadChain(repo, c[1], stack + {path}, t);
      forall i | 0 < i < |c| ensures c[i] != path && c[i] !in stack && Sound(repo, c[i]) {
        assert c[i] == t[i - 1];
      }
      forall i, j | 0 <= i < j < |c| ensures c[i] != c[j] {
        if i > 0 { assert t[i - 1] != t[j - 1]; }
      }
    }
  }

  lemma CleanBelow(repo: Repo, path: Path, stack: set<Path>, q: Path)
    requires Clean(repo, path, stack) && Includes(repo, path, q)
    ensures Clean(repo, q, stack + {path})
  {
    hide Includes, Chain, Sound;
    forall c | Chain(repo, c) && c[0] == q ensures GoodChain(repo, c, stack + {path}) {
      ChainCons(repo, path, c);
      var d := [path] + c;
      assert GoodChain(repo, d, stack);
      forall i | 0 <= i < |c| ensures c[i] !in stack + {path} && Sound(repo, c[i]) {
        assert d[i + 1] == c[i] && d[0] != d[i + 1];
      }
      forall i, j | 0 <= i < j < |c| ensures c[i] != c[j] {
        assert d[i + 1] != d[j + 1];
      }
    }
  }

  lemma {:induction false} CleanHasNoBad(repo: Repo, path: Path, stack: set<Path>)
    requires Clean(repo, path, stack)
    ensures NoBad(Inline(repo, path, stack))
    decreases repo.files.Keys - stack
  {
    hide NoBad, Inline, Includes, Clean;
    SelfGood(repo, path, stack);
    assert repo.files.Keys - (stack + {path}) < repo.files.Keys - stack by {
      assert path in repo.files.Keys - stack;
    }
    forall q | Includes(repo, path, q) ensures NoBad(Inline(repo, q, stack + {path})) {
      CleanBelow(repo, path, stack, q);
      CleanHasNoBad(repo, q, stack + {path});
    }
    NoBadFile(repo, path, stack);
  }

  lemma SelfGood(repo: Repo, path: Path, stack: set<Path>)
    requires Clean(repo, path, stack)
    ensures path !in stack && Sound(repo, path)
  {
    assert Chain(repo, [path]) && [path][0] == path;
    assert GoodChain(repo, [path], stack);
  }

  /** The inlined Makefile is free of include errors exactly when no include chain from the root
      meets a file twice, leaves the root, or meets a missing, unreadable or non-literal one. */
  lemma NoBadMeansClean(repo: Repo, path: Path, stack: set<Path>)
    ensures NoBad(Inline(repo, path, stack)) <==> Clean(repo, path, stack)
  {
    hide NoBad, Inline, Chain;
    if NoBad(Inline(repo, path, stack)) {
      forall c | Chain(repo, c) && c[0] == path ensures GoodChain(repo, c, stack) {
        NoBadChain(repo, path, stack, c);
      }
    }
    if Clean(repo, path, stack) { CleanHasNoBad(repo, path, stack); }
  }

  // ---------------------------------------------------------------- a reported cycle is one

  function Elements(c: seq<Path>): set<Path> {
    set p | p in c
  }

  /** A chain from `root` that comes back to a file it already went through. */
  ghost predicate Loops(repo: Repo, root: Path, file: Path) {
    exists c :: Chain(repo, c) && c[0] == root && c[|c| - 1] == file && file in c[..|c| - 1]
  }

  ghost predicate ReportsLoops(repo: Repo, root: Path, tokens: seq<Token>) {
    forall file :: Bad(Cyclic(file)) in tokens ==> Loops(repo, root, file)
  }

  lemma ChainSnoc(repo: Repo, c: seq<Path>, q: Path)
    requires Chain(repo, c) && Includes(repo, c[|c| - 1], q)
    ensures Chain(repo, c + [q])
  {
    hide Includes;
    var d := c + [q];
    forall i | 0 <= i < |d| - 1 ensures Includes(repo, d[i], d[i + 1]) {
      if i < |c| - 1 { assert Includes(repo, c[i], c[i + 1]); }
    }
  }

  /** `c` is the chain of files being read, ending in `path`; the files before it are the stack. */
  lemma {:induction false} CyclesAreReal(repo: Repo, c: seq<Path>, stack: set<Path>)
    requires Chain(repo, c) && stack == Elements(c[..|c| - 1])
    ensures ReportsLoops(repo, c[0], Inline(repo, c[|c| - 1], stack))
    decreases repo.files.Keys - stack, 0, 0
  {
    hide Chain;
    var path := c[|c| - 1];
    if path in repo.outside {
    } else if path in stack {
      assert path in c[..|c| - 1];
    } else if path in repo.files {
      assert repo.files.Keys - (stack + {path}) < repo.files.Keys - stack by {
        assert path in repo.files.Keys - stack;
      }
      assert c == c[..|c| - 1] + [path];
      CyclesInLines(repo, c, repo.files[path], stack + {path});
    }
  }

  lemma {:induction false} CyclesInLines(repo: Repo, c: seq<Path>, lines: seq<Line>, stack: set<Path>)
    requires Chain(repo, c) && stack == Elements(c)
    requires forall i, q :: 0 <= i < |lines| && LineIncludes(lines[i], q) ==> Includes(repo, c[|c| - 1], q)
    ensures ReportsLoops(repo, c[0], InlineLines(repo, c[|c| - 1], lines, stack))
    decreases repo.files.Keys - stack, 2, |lines|
  {
    hide Chain, Loops, Includes;
    if lines != [] {
      var n := |lines| - 1;
      assert forall i :: 0 <= i < n ==> lines[..n][i] == lines[i];
      CyclesInLines(repo, c, lines[..n], stack);
      if lines[n].Include? {
        forall q | Literal(q) in lines[n].refs ensures Includes(repo, c[|c| - 1], q) {
          assert LineIncludes(lines[n], q);
        }
        CyclesInRefs(repo, c, lines[n].refs, stack);
      }
    }
  }

  lemma {:induction false} CyclesInRefs(repo: Repo, c: seq<Path>, refs: seq<Ref>, stack: set<Path>)
    requires Chain(repo, c) && stack == Elements(c)
    requires forall q :: Literal(q) in refs ==> Includes(repo, c[|c| - 1], q)
    ensures ReportsLoops(repo, c[0], InlineRefs(repo, refs, stack))
    decreases repo.files.Keys - stack, 1, |refs|
  {
    hide Chain, Loops, Includes;
    if refs != [] {
      var n := |refs| - 1;
      assert refs == refs[..n] + [refs[n]];
      CyclesInRefs(repo, c, refs[..n], stack);
      if refs[n].Literal? {
        var d := c + [refs[n].path];
        assert Literal(refs[n].path) in refs;
        ChainSnoc(repo, c, refs[n].path);
        assert d[..|d| - 1] == c;
        CyclesAreReal(repo, d, stack);
      }
    }
  }

  // ---------------------------------------------------------------- every cycle becomes a token

  ghost predicate HasCycle(tokens: seq<Token>) {
    exists q :: Bad(Cyclic(q)) in tokens
  }

  lemma HasCycleConcat(a: seq<Token>, b: seq<Token>)
    ensures HasCycle(a) || HasCycle(b) ==> HasCycle(a + b)
  {
    if q :| Bad(Cyclic(q)) in a { assert Bad(Cyclic(q)) in a + b; }
    if q :| Bad(Cyclic(q)) in b { assert Bad(Cyclic(q)) in a + b; }
  }

  lemma {:induction false} CycleInRefs(repo: Repo, refs: seq<Ref>, q: Path, stack: set<Path>)
    requires Literal(q) in refs && HasCycle(Inline(repo, q, stack))
    ensures HasCycle(InlineRefs(repo, refs, stack))
  {
    hide Inline, HasCycle;
    var n := |refs| - 1;
    assert refs == refs[..n] + [refs[n]];
    if refs[n] != Literal(q) { CycleInRefs(repo, refs[..n], q, stack); }
    HasCycleConcat(InlineRefs(repo, refs[..n], stack), InlineRef(repo, refs[n], stack));
  }

  lemma {:induction false} CycleInLines(repo: Repo, path: Path, lines: seq<Line>, i: nat, q: Path, stack: set<Path>)
    requires i < |lines| && LineIncludes(lines[i], q) && HasCycle(Inline(repo, q, stack))
    ensures HasCycle(InlineLines(repo, path, lines, stack))
  {
    hide Inline, HasCycle;
    var n := |lines| - 1;
    if i < n {
      CycleInLines(repo, path, lines[..n], i, q, stack);
    } else {
      CycleInRefs(repo, lines[n].refs, q, stack);
    }
    HasCycleConcat(InlineLines(repo, path, lines[..n], stack), InlineLine(repo, path, lines[n], stack));
  }

  /** A chain inside the root whose last file is being read already, or comes earlier in it, is
      inlined with a cycle error, whatever else the files hold. */
  lemma {:induction false} ChainHasCycle(repo: Repo, c: seq<Path>, stack: set<Path>)
    requires Chain(repo, c) && forall i :: 0 <= i < |c| ==> c[i] !in repo.outside
    requires c[|c| - 1] in stack || c[|c| - 1] in c[..|c| - 1]
    ensures HasCycle(Inline(repo, c[0], stack))
    decreases |c|
  {
    hide Chain, Includes;
    if c[0] in stack {
      assert Bad(Cyclic(c[0])) in Inline(repo, c[0], stack);
    } else {
      ChainTail(repo, c);
      var t := c[1..];
      ChainHasCycle(repo, t, stack + {c[0]});
      var i := IncludingLine(repo, c[0], c[1]);
      CycleInLines(repo, c[0], repo.files[c[0]], i, c[1], stack + {c[0]});
    }
  }

  lemma IncludingLine(repo: Repo, file: Path, q: Path) returns (i: nat)
    requires Includes(repo, file, q)
    ensures file in repo.files && i < |repo.files[file]| && LineIncludes(repo.files[file][i], q)
  {
    i :| 0 <= i < |repo.files[file]| && LineIncludes(repo.files[file][i], q);
  }

  // ---------------------------------------------------------------- the whole result

  /** The targets of the inlined Makefile, each under the last section before it. */
  function Docs(tokens: seq<Token>, section: string): seq<TargetDoc> {
    if tokens == [] then []
    else
      match tokens[0]
      case Sect(name) => Docs(tokens[1..], name)
      case Bad(_) => Docs(tokens[1..], section)
      case Tgt(name, deps, doc, _) => [TargetDoc(name, deps, doc, section)] + Docs(tokens[1..], section)
  }

  function Names(tokens: seq<Token>): seq<string> {
    if tokens == [] then []
    else (if tokens[0].Tgt? then [tokens[0].name] else []) + Names(tokens[1..])
  }

  lemma DistinctCons(x: string, names: seq<string>)
    ensures Distinct([x] + names) <==> x !in names && Distinct(names)
  {
    var all := [x] + names;
    if Distinct(all) {
      forall i | 0 <= i < |names| ensures names[i] != x { assert all[0] != all[i + 1]; }
      forall i, j | 0 <= i < j < |names| ensures names[i] != names[j] { assert all[i + 1] != all[j + 1]; }
    }
  }

  /** The flat pass succeeds exactly on error-free tokens with unique target names, and then yields
      every target in order under its section. */
  lemma {:induction false} ScanMeaning(s: Scanned, tokens: seq<Token>)
    ensures var r := Scan(s, tokens);
      && (r.Done? <==> NoBad(tokens) && Distinct(Names(tokens)) && forall n :: n in Names(tokens) ==> n !in s.seen)
      && (r.Done? ==> r.state.out == s.out + Docs(tokens, s.section))
    decreases |tokens|
  {
    hide NoBad, Distinct;
    if tokens == [] {
      NoneBad();
      NoNames();
    } else {
      var t, rest := tokens[0], tokens[1..];
      assert tokens == [t] + rest;
      NoBadConcat([t], rest);
      match t {
        case Bad(error) => OneBad(error);
        case Sect(name) =>
          OneGood(t);
          ScanMeaning(s.(section := name), rest);
          assert Names(tokens) == Names(rest);
        case Tgt(name, deps, doc, file) =>
          OneGood(t);
          DistinctCons(name, Names(rest));
          assert Names(tokens) == [name] + Names(rest);
          if name !in s.seen {
            ScanMeaning(ScanOne(s, t).state, rest);
            assert s.out + ([TargetDoc(name, deps, doc, s.section)] + Docs(rest, s.section))
                == s.out + [TargetDoc(name, deps, doc, s.section)] + Docs(rest, s.section);
          } else {
            assert name in Names(tokens);
          }
      }
    }
  }

  lemma NoNames()
    ensures Distinct<string>([])
  {
  }

  /** What `parseMakefile` accepts and returns: it succeeds exactly when no include chain goes
      wrong, the target names of the fully inlined Makefile are unique and there is at least one,
      and it returns those targets in order, each under the last section before it. */
  lemma DocumentedMeaning(repo: Repo, path: Path)
    ensures var tokens, r := Inline(repo, path, {}), Documented(repo, path);
      && (r.Ok? <==> Clean(repo, path, {}) && Distinct(Names(tokens)) && Docs(tokens, "General") != [])
      && (r.Ok? ==> r.targets == Docs(tokens, "General"))
  {
    hide Inline, Scan, Clean, Distinct, NoBad;
    ScanMeaning(START, Inline(repo, path, {}));
    NoBadMeansClean(repo, path, {});
  }

  /** The first thing to go wrong in the inlined Makefile is this error. */
  ghost predicate FailsFirst(tokens: seq<Token>, error: Error) {
    exists i :: 0 <= i < |tokens| && FailsFirstAt(tokens, error, i)
  }

  ghost predicate FailsFirstAt(tokens: seq<Token>, error: Error, i: nat)
    requires i < |tokens|
  {
    tokens[i] == Bad(error) && NoBad(tokens[..i]) && Distinct(Names(tokens[..i]))
  }

  /** An include error is reported exactly when nothing, include or duplicate, failed before it. */
  lemma FirstErrorReported(repo: Repo, path: Path, error: Error)
    requires !error.Duplicate? && !error.NoTargets?
    ensures Documented(repo, path) == Err(error) <==> FailsFirst(Inline(repo, path, {}), error)
  {
    hide Inline, Scan, Distinct, NoBad;
    var tokens := Inline(repo, path, {});
    if Documented(repo, path) == Err(error) {
      var i := FailingToken(START, tokens, error);
      ScanMeaning(START, tokens[..i]);
      assert FailsFirstAt(tokens, error, i);
    }
    if i :| 0 <= i < |tokens| && FailsFirstAt(tokens, error, i) {
      var before, after := tokens[..i], tokens[i + 1..];
      assert tokens == before + [Bad(error)] + after;
      ScanMeaning(START, before);
      ScanConcat(START, before, [Bad(error)]);
      ScanConcat(START, before + [Bad(error)], after);
      ScanSingle(Scan(START, before).state, Bad(error));
    }
  }

  /** The token a failed pass stopped at: the pass gets through everything before it. */
  lemma {:induction false} FailingToken(s: Scanned, tokens: seq<Token>, error: Error) returns (i: nat)
    requires Scan(s, tokens) == Failed(error) && !error.Duplicate?
    ensures i < |tokens| && tokens[i] == Bad(error) && Scan(s, tokens[..i]).Done?
    decreases |tokens|
  {
    var r := ScanOne(s, tokens[0]);
    i := 0;
    if r.Done? {
      var rest := tokens[1..];
      i := FailingToken(r.state, rest, error);
      assert tokens[..i + 1][1..] == rest[..i];
      i := i + 1;
    }
  }

  /** Every include cycle the root reaches makes the reader fail, and a cycle it reports is one. */
  lemma CyclesReported(repo: Repo, path: Path, file: Path)
    ensures Loops(repo, path, file) ==> Documented(repo, path).Err?
    ensures Documented(repo, path) == Err(Cyclic(file)) ==> Loops(repo, path, file)
  {
    if Loops(repo, path, file) {
      LoopIsNotClean(repo, path, file);
      DocumentedMeaning(repo, path);
    }
    if Documented(repo, path) == Err(Cyclic(file)) {
      hide Inline;
      var i := FailingToken(START, Inline(repo, path, {}), Cyclic(file));
      assert [path][..0] == [];
      CyclesAreReal(repo, [path], {});
    }
  }

  lemma LoopIsNotClean(repo: Repo, path: Path, file: Path)
    requires Loops(repo, path, file)
    ensures !Clean(repo, path, {})
  {
    hide Chain;
    var c :| Chain(repo, c) && c[0] == path && c[|c| - 1] == file && file in c[..|c| - 1];
    var i :| 0 <= i < |c| - 1 && c[i] == file;
    assert c[i] == c[|c| - 1];
    assert !GoodChain(repo, c, {});
  }

  // ---------------------------------------------------------------- cycles among sound files

  /** Every file the root reaches is sound. */
  ghost predicate AllSound(repo: Repo, root: Path) {
    forall c :: Chain(repo, c) && c[0] == root ==> Sound(repo, c[|c| - 1])
  }

  ghost predicate OnlyCycles(tokens: seq<Token>) {
    forall error :: Bad(error) in tokens ==> error.Cyclic?
  }

  lemma OnlyCyclesConcat(a: seq<Token>, b: seq<Token>)
    requires OnlyCycles(a) && OnlyCycles(b)
    ensures OnlyCycles(a + b)
  {
  }

  lemma AllSoundBelow(repo: Repo, path: Path, q: Path)
    requires AllSound(repo, path) && Includes(repo, path, q)
    ensures AllSound(repo, q)
  {
    hide Includes, Chain, Sound;
    forall c | Chain(repo, c) && c[0] == q ensures Sound(repo, c[|c| - 1]) {
      ChainCons(repo, path, c);
      assert ([path] + c)[|c|] == c[|c| - 1];
    }
  }

  lemma {:induction false} OnlyCyclesInRefs(repo: Repo, refs: seq<Ref>, stack: set<Path>)
    requires forall r :: r in refs ==> r.Literal? && OnlyCycles(Inline(repo, r.path, stack))
    ensures OnlyCycles(InlineRefs(repo, refs, stack))
  {
    hide Inline, OnlyCycles;
    if refs == [] {
      NoTokens();
    } else {
      var n := |refs| - 1;
      assert refs == refs[..n] + [refs[n]];
      OnlyCyclesInRefs(repo, refs[..n], stack);
      assert refs[n] in refs;
      OnlyCyclesConcat(InlineRefs(repo, refs[..n], stack), InlineRef(repo, refs[n], stack));
    }
  }

  lemma NoTokens()
    ensures OnlyCycles([])
  {
  }

  lemma OneToken(t: Token)
    requires t.Bad? ==> t.error.Cyclic?
    ensures OnlyCycles([t])
  {
  }

  lemma {:induction false} OnlyCyclesInLines(repo: Repo, path: Path, lines: seq<Line>, stack: set<Path>)
    requires forall i :: 0 <= i < |lines| ==> SoundLine(lines[i])
    requires forall i, q :: 0 <= i < |lines| && LineIncludes(lines[i], q) ==> OnlyCycles(Inline(repo, q, stack))
    ensures OnlyCycles(InlineLines(repo, path, lines, stack))
  {
    hide Inline, OnlyCycles;
    if lines == [] {
      NoTokens();
    } else {
      var n := |lines| - 1;
      assert forall i :: 0 <= i < n ==> lines[..n][i] == lines[i];
      OnlyCyclesInLines(repo, path, lines[..n], stack);
      assert SoundLine(lines[n]);
      match lines[n] {
        case Include(refs) =>
          forall r | r in refs ensures r.Literal? && OnlyCycles(Inline(repo, r.path, stack)) {
            assert LineIncludes(lines[n], r.path);
          }
          OnlyCyclesInRefs(repo, refs, stack);
        case Section(name) => OneToken(Sect(name));
        case Target(name, deps, doc) => OneToken(Tgt(name, deps, doc, path));
        case Other => NoTokens();
      }
      OnlyCyclesConcat(InlineLines(repo, path, lines[..n], stack), InlineLine(repo, path, lines[n], stack));
    }
  }

  /** Where every file within reach is sound, nothing but a cycle can go wrong with an include. */
  lemma {:induction false} SoundMeansOnlyCycles(repo: Repo, path: Path, stack: set<Path>)
    requires AllSound(repo, path)
    ensures OnlyCycles(Inline(repo, path, stack))
    decreases repo.files.Keys - stack
  {
    hide OnlyCycles, AllSound, Includes;
    SoundStart(repo, path);
    if path in stack {
      OneToken(Bad(Cyclic(path)));
    } else {
      assert repo.files.Keys - (stack + {path}) < repo.files.Keys - stack by {
        assert path in repo.files.Keys - stack;
      }
      var lines := repo.files[path];
      forall i, q | 0 <= i < |lines| && LineIncludes(lines[i], q) ensures OnlyCycles(Inline(repo, q, stack + {path})) {
        LineOfFile(repo, path, i, q);
        AllSoundBelow(repo, path, q);
        SoundMeansOnlyCycles(repo, q, stack + {path});
      }
      OnlyCyclesInLines(repo, path, lines, stack + {path});
    }
  }

  lemma LineOfFile(repo: Repo, path: Path, i: nat, q: Path)
    requires path in repo.files && i < |repo.files[path]| && LineIncludes(repo.files[path][i], q)
    ensures Includes(repo, path, q)
  {
  }

  lemma SoundStart(repo: Repo, path: Path)
    requires AllSound(repo, path)
    ensures Sound(repo, path)
  {
    assert Chain(repo, [path]);
  }

  /** In a Makefile whose files within reach are sound and whose target names are unique, the
      reader reports a cycle exactly when there is one, and the one it reports is real. */
  lemma CycleIsTheError(repo: Repo, path: Path)
    requires AllSound(repo, path) && Distinct(Names(Inline(repo, path, {})))
    ensures (exists file :: Loops(repo, path, file)) <==> (exists q :: Documented(repo, path) == Err(Cyclic(q)))
    ensures forall q :: Documented(repo, path) == Err(Cyclic(q)) ==> Loops(repo, path, q)
  {
    hide Chain, Inline, Distinct, AllSound;
    var tokens := Inline(repo, path, {});
    forall q | Documented(repo, path) == Err(Cyclic(q)) ensures Loops(repo, path, q) {
      CyclesReported(repo, path, q);
    }
    if file :| Loops(repo, path, file) {
      LoopHasCycle(repo, path, file);
      SoundMeansOnlyCycles(repo, path, {});
      var q := FirstCycle(tokens);
      FirstErrorReported(repo, path, Cyclic(q));
    }
  }

  lemma LoopHasCycle(repo: Repo, path: Path, file: Path)
    requires AllSound(repo, path) && Loops(repo, path, file)
    ensures HasCycle(Inline(repo, path, {}))
  {
    hide Sound, HasCycle;
    var c :| Chain(repo, c) && c[0] == path && c[|c| - 1] == file && file in c[..|c| - 1];
    forall i | 0 <= i < |c| ensures c[i] !in repo.outside {
      ChainHead(repo, c, i + 1);
      assert c[..i + 1][i] == c[i];
      SoundInside(repo, c[i]);
    }
    ChainHasCycle(repo, c, {});
  }

  lemma ChainHead(repo: Repo, c: seq<Path>, n: nat)
    requires Chain(repo, c) && 0 < n <= |c|
    ensures Chain(repo, c[..n])
  {
    hide Includes;
    forall i | 0 <= i < n - 1 ensures Includes(repo, c[..n][i], c[..n][i + 1]) {
      assert Includes(repo, c[i], c[i + 1]);
    }
  }

  lemma SoundInside(repo: Repo, file: Path)
    requires Sound(repo, file)
    ensures file !in repo.outside
  {
  }

  /** The first error of tokens that hold a cycle and no other error. */
  lemma FirstCycle(tokens: seq<Token>) returns (q: Path)
    requires HasCycle(tokens) && OnlyCycles(tokens) && Distinct(Names(tokens))
    ensures FailsFirst(tokens, Cyclic(q))
  {
    var p :| Bad(Cyclic(p)) in tokens;
    var k :| 0 <= k < |tokens| && tokens[k] == Bad(Cyclic(p));
    var i := FirstBad(tokens, k);
    NamesPrefix(tokens, i);
    assert tokens[i] in tokens;
    q := tokens[i].error.path;
    assert FailsFirstAt(tokens, Cyclic(q), i);
  }

  lemma {:induction false} FirstBad(tokens: seq<Token>, k: nat) returns (i: nat)
    requires k < |tokens| && tokens[k].Bad?
    ensures i < |tokens| && tokens[i].Bad? && NoBad(tokens[..i])
  {
    if j :| 0 <= j < k && tokens[j].Bad? {
      i := FirstBad(tokens, j);
    } else {
      i := k;
    }
  }

  lemma NamesPrefix(tokens: seq<Token>, i: nat)
    requires i <= |tokens| && Distinct(Names(tokens))
    ensures Distinct(Names(tokens[..i]))
  {
    NamesConcat(tokens[..i], tokens[i..]);
    assert tokens == tokens[..i] + tokens[i..];
    var some := Names(tokens[..i]);
    forall a, b | 0 <= a < b < |some| ensures some[a] != some[b] {
      assert Names(tokens)[a] == some[a] && Names(tokens)[b] == some[b];
    }
  }

  lemma {:induction false} NamesConcat(a: seq<Token>, b: seq<Token>)
    ensures Names(a + b) == Names(a) + Names(b)
  {
    if a == [] {
      assert a + b == b;
    } else {
      NamesConcat(a[1..], b);
      assert (a + b)[1..] == a[1..] + b;
      var own := if a[0].Tgt? then [a[0].name] else [];
      assert Names(a + b) == own + Names(a[1..] + b) && Names(a) == own + Names(a[1..]);
      assert own + (Names(a[1..]) + Names(b)) == (own + Names(a[1..])) + Names(b);
    }
  }
}
