/** The Makefile reader with recursive includes (cmd/dev-docs/main.go, `parseMakefile` and
  `makeParseState.parse`). */
module MakeDocs {
  import opened Common

  /** A normalised absolute path. */
  type Path = string

  /** One name of an include line, already resolved against the root. */
  datatype Ref = NonLiteral(text: string) | Literal(path: Path)

  /** A line as the three regular expressions classify it, in their order of precedence;
      `Unreadable` is where the scanner gives up. */
  datatype Line =
    | Section(name: string)
    | Include(refs: seq<Ref>)
    | Target(name: string, deps: seq<string>, doc: string)
    | Other
    | Unreadable

  datatype Repo = Repo(files: map<Path, seq<Line>>, outside: set<Path>)

  datatype Error =
    | Escapes(path: Path) | Cyclic(path: Path) | Missing(path: Path) | NotLiteral(text: string)
    | ReadFailed(path: Path) | Duplicate(name: string, file: Path, first: Path) | NoTargets

  datatype TargetDoc = TargetDoc(name: string, deps: seq<string>, doc: string, section: string)

  // ---------------------------------------------------------------- the inlined Makefile

  /** What the fully inlined Makefile is made of. */
  datatype Token =
    | Sect(name: string)
    | Tgt(name: string, deps: seq<string>, doc: string, file: Path)
    | Bad(error: Error)

  function Inline(repo: Repo, path: Path, stack: set<Path>): seq<Token>
    decreases repo.files.Keys - stack, 0, 0
  {
    if path in repo.outside then [Bad(Escapes(path))]
    else if path in stack then [Bad(Cyclic(path))]
    else if path !in repo.files then [Bad(Missing(path))]
    else InlineLines(repo, path, repo.files[path], stack + {path})
  }

  function InlineLines(repo: Repo, path: Path, lines: seq<Line>, stack: set<Path>): seq<Token>
    decreases repo.files.Keys - stack, 2, |lines|
  {
    if lines == [] then []
    else InlineLines(repo, path, lines[..|lines| - 1], stack) + InlineLine(repo, path, lines[|lines| - 1], stack)
  }

  function InlineLine(repo: Repo, path: Path, line: Line, stack: set<Path>): seq<Token>
    decreases repo.files.Keys - stack, 1, if line.Include? then |line.refs| + 1 else 0
  {
    match line
    case Section(name) => [Sect(name)]
    case Include(refs) => InlineRefs(repo, refs, stack)
    case Target(name, deps, doc) => [Tgt(name, deps, doc, path)]
    case Other => []
    case Unreadable => [Bad(ReadFailed(path))]
  }

  function InlineRefs(repo: Repo, refs: seq<Ref>, stack: set<Path>): seq<Token>
    decreases repo.files.Keys - stack, 1, |refs|
  {
    if refs == [] then []
    else InlineRefs(repo, refs[..|refs| - 1], stack) + InlineRef(repo, refs[|refs| - 1], stack)
  }

  function InlineRef(repo: Repo, ref: Ref, stack: set<Path>): seq<Token>
    decreases repo.files.Keys - stack, 0, 1
  {
    match ref
    case NonLiteral(text) => [Bad(NotLiteral(text))]
    case Literal(path) => Inline(repo, path, stack)
  }

  // ---------------------------------------------------------------- one flat pass

  datatype Scanned = Scanned(section: string, out: seq<TargetDoc>, seen: map<string, Path>)

  datatype Outcome = Done(state: Scanned) | Failed(error: Error)

  function ScanOne(s: Scanned, t: Token): Outcome {
    match t
    case Sect(name) => Done(s.(section := name))
    case Bad(error) => Failed(error)
    case Tgt(name, deps, doc, file) =>
      if name in s.seen then Failed(Duplicate(name, file, s.seen[name]))
      else Done(Scanned(s.section, s.out + [TargetDoc(name, deps, doc, s.section)], s.seen[name := file]))
  }

  function Scan(s: Scanned, tokens: seq<Token>): Outcome
    decreases |tokens|
  {
    if tokens == [] then Done(s)
    else
      var r := ScanOne(s, tokens[0]);
      if r.Failed? then r else Scan(r.state, tokens[1..])
  }

  lemma {:induction false} ScanConcat(s: Scanned, a: seq<Token>, b: seq<Token>)
    ensures Scan(s, a + b) == var r := Scan(s, a); if r.Failed? then r else Scan(r.state, b)
    decreases |a|
  {
    hide ScanOne;
    if a == [] {
      assert a + b == b;
    } else {
      assert (a + b)[1..] == a[1..] + b;
      var r := ScanOne(s, a[0]);
      if r.Done? { ScanConcat(r.state, a[1..], b); }
    }
  }

  lemma ScanSingle(s: Scanned, t: Token)
    ensures Scan(s, [t]) == ScanOne(s, t)
  {
    assert [t][1..] == [];
  }

  const START := Scanned("General", [], map[])

  // ---------------------------------------------------------------- the recursive reader

  class MakeParseState {
    const repo: Repo
    var section: string
    var out: seq<TargetDoc>
    var stack: set<Path>
    var seen: map<string, Path>

    constructor (repo: Repo)
      ensures this.repo == repo && stack == {} && State() == START
    {
      this.repo := repo;
      section, out, stack, seen := "General", [], {}, map[];
    }

    function State(): Scanned
      reads this
    {
      Scanned(section, out, seen)
    }

    /** The tokens read so far took the parser from `before` to here, or to this error. */
    ghost predicate Agrees(before: Scanned, tokens: seq<Token>, err: Option<Error>)
      reads this
    {
      Scan(before, tokens) == if err.Some? then Failed(err.value) else Done(State())
    }

    method Parse(path: Path) returns (err: Option<Error>)
      modifies this
      ensures Agrees(old(State()), Inline(repo, path, old(stack)), err)
      ensures stack == old(stack)
      decreases repo.files.Keys - stack, 0, 0
    {
      ghost var before, outer := State(), stack;
      ghost var tokens := Inline(repo, path, stack);
      if path in repo.outside || path in stack || path !in repo.files {
        var error := if path in repo.outside then Escapes(path) else if path in stack then Cyclic(path) else Missing(path);
        ScanSingle(before, Bad(error));
        return Some(error);
      }
      stack := stack + {path};
      assert repo.files.Keys - stack < repo.files.Keys - outer by {
        assert path in repo.files.Keys - outer && path !in repo.files.Keys - stack;
      }
      err := ParseLines(path, repo.files[path]);
      stack := stack - {path};
      assert stack == outer;
    }

    method ParseLines(path: Path, lines: seq<Line>) returns (err: Option<Error>)
      modifies this
      ensures Agrees(old(State()), InlineLines(repo, path, lines, old(stack)), err)
      ensures stack == old(stack)
      decreases repo.files.Keys - stack, 2, |lines|
    {
      hide Inline, InlineRef, InlineRefs, ScanOne;
      ghost var before, all := State(), stack;
      for i := 0 to |lines|
        invariant stack == all
        invariant Agrees(before, InlineLines(repo, path, lines[..i], stack), None)
      {
        var line := lines[i];
        ghost var read := InlineLines(repo, path, lines[..i], stack);
        assert lines[..i + 1][..i] == lines[..i];
        ScanConcat(before, read, InlineLine(repo, path, line, stack));
        err := ParseLine(path, line);
        if err.Some? {
          FailureStops(before, path, lines, i + 1, stack, err.value);
          return;
        }
      }
      assert lines[..|lines|] == lines;
      return None;
    }

    /** Once a prefix has failed the whole has failed the same way. */
    lemma FailureStops(before: Scanned, path: Path, lines: seq<Line>, i: nat, stack: set<Path>, error: Error)
      requires i <= |lines| && Scan(before, InlineLines(repo, path, lines[..i], stack)) == Failed(error)
      ensures Scan(before, InlineLines(repo, path, lines, stack)) == Failed(error)
      decreases |lines| - i
    {
      hide Scan, InlineLine;
      if i == |lines| {
        assert lines[..i] == lines;
      } else {
        assert lines[..i + 1][..i] == lines[..i];
        ScanConcat(before, InlineLines(repo, path, lines[..i], stack), InlineLine(repo, path, lines[i], stack));
        FailureStops(before, path, lines, i + 1, stack, error);
      }
    }

    method ParseLine(path: Path, line: Line) returns (err: Option<Error>)
      modifies this
      ensures Agrees(old(State()), InlineLine(repo, path, line, old(stack)), err)
      ensures stack == old(stack)
      decreases repo.files.Keys - stack, 1, if line.Include? then |line.refs| + 1 else 0
    {
      hide Inline, InlineRef;
      ghost var before := State();
      match line {
        case Section(name) =>
          ScanSingle(before, Sect(name));
          section := name;
          return None;
        case Include(refs) =>
          err := ParseRefs(refs);
        case Target(name, deps, doc) =>
          ScanSingle(before, Tgt(name, deps, doc, path));
          if name in seen {
            return Some(Duplicate(name, path, seen[name]));
          }
          seen := seen[name := path];
          out := out + [TargetDoc(name, deps, doc, section)];
          return None;
        case Other =>
          return None;
        case Unreadable =>
          ScanSingle(before, Bad(ReadFailed(path)));
          return Some(ReadFailed(path));
      }
    }

    method ParseRefs(refs: seq<Ref>) returns (err: Option<Error>)
      modifies this
      ensures Agrees(old(State()), InlineRefs(repo, refs, old(stack)), err)
      ensures stack == old(stack)
      decreases repo.files.Keys - stack, 1, |refs|
    {
      hide Inline, ScanOne;
      ghost var before, all := State(), stack;
      for i := 0 to |refs|
        invariant stack == all
        invariant Agrees(before, InlineRefs(repo, refs[..i], stack), None)
      {
        var ref := refs[i];
        assert refs[..i + 1][..i] == refs[..i];
        ScanConcat(before, InlineRefs(repo, refs[..i], stack), InlineRef(repo, ref, stack));
        if ref.NonLiteral? {
          ScanBad(State(), NotLiteral(ref.text));
          RefFailureStops(before, refs, i + 1, stack, NotLiteral(ref.text));
          return Some(NotLiteral(ref.text));
        }
        err := Parse(ref.path);
        if err.Some? {
          RefFailureStops(before, refs, i + 1, stack, err.value);
          return;
        }
      }
      assert refs[..|refs|] == refs;
      return None;
    }

    lemma ScanBad(s: Scanned, error: Error)
      ensures Scan(s, [Bad(error)]) == Failed(error)
    {
      ScanSingle(s, Bad(error));
    }

    lemma RefFailureStops(before: Scanned, refs: seq<Ref>, i: nat, stack: set<Path>, error: Error)
      requires i <= |refs| && Scan(before, InlineRefs(repo, refs[..i], stack)) == Failed(error)
      ensures Scan(before, InlineRefs(repo, refs, stack)) == Failed(error)
      decreases |refs| - i
    {
      hide Scan, InlineRef;
      if i == |refs| {
        assert refs[..i] == refs;
      } else {
        assert refs[..i + 1][..i] == refs[..i];
        ScanConcat(before, InlineRefs(repo, refs[..i], stack), InlineRef(repo, refs[i], stack));
        RefFailureStops(before, refs, i + 1, stack, error);
      }
    }
  }

  datatype Result = Ok(targets: seq<TargetDoc>) | Err(error: Error)

  function Documented(repo: Repo, path: Path): Result {
    var r := Scan(START, Inline(repo, path, {}));
    if r.Failed? then Err(r.error) else if r.state.out == [] then Err(NoTargets) else Ok(r.state.out)
  }

  /** Reading with includes is one flat pass over the inlined Makefile, errors included. */
  method ParseMakefile(repo: Repo, path: Path) returns (result: Result)
    ensures result == Documented(repo, path)
  {
    hide Inline, Scan;
    var state := new MakeParseState(repo);
    var err := state.Parse(path);
    if err.Some? {
      return Err(err.value);
    }
    if |state.out| == 0 {
      return Err(NoTargets);
    }
    return Ok(state.out);
  }
}
