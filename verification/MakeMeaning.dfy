/** What the Makefile reader returns, said of the files themselves (cmd/dev-docs/main.go,
  `parseMakefile` and `makeParseState.parse`). */
module MakeMeaning {
  import opened Common
  import opened MakeDocs
  import opened MakeLaws

  // ---------------------------------------------------------------- where tokens come from

  lemma {:induction false} TokenInRefs(repo: Repo, refs: seq<Ref>, stack: set<Path>, t: Token)
    ensures t in InlineRefs(repo, refs, stack) <==> exists r :: r in refs && t in InlineRef(repo, r, stack)
  {
    hide InlineRef;
    if refs != [] {
      var n := |refs| - 1;
      TokenInRefs(repo, refs[..n], stack, t);
      assert refs == refs[..n] + [refs[n]];
      if t in InlineRefs(repo, refs[..n], stack) {
        var r :| r in refs[..n] && t in InlineRef(repo, r, stack);
        assert r in refs;
      }
      assert refs[n] in refs;
    }
  }

  lemma {:induction false} TokenInLines(repo: Repo, path: Path, lines: seq<Line>, stack: set<Path>, t: Token)
    ensures t in InlineLines(repo, path, lines, stack) <==>
      exists i :: 0 <= i < |lines| && t in InlineLine(repo, path, lines[i], stack)
  {
    hide InlineLine;
    if lines != [] {
      var n := |lines| - 1;
      TokenInLines(repo, path, lines[..n], stack, t);
      assert forall i :: 0 <= i < n ==> lines[..n][i] == lines[i];
    }
  }

  /** What a line gives by itself: its section or target, or an error, when the files `open` are
      being read and the last of them, `file`, holds the line. */
  ghost predicate LineGives(repo: Repo, open: set<Path>, file: Path, line: Line, t: Token) {
    match line
    case Section(name) => t == Sect(name)
    case Target(name, deps, doc) => t == Tgt(name, deps, doc, file)
    case Unreadable => t == Bad(ReadFailed(file))
    case Other => false
    case Include(refs) => exists r :: r in refs && RefFails(repo, open, r, t)
  }

  /** The name cannot be followed. */
  predicate RefFails(repo: Repo, open: set<Path>, r: Ref, t: Token) {
    match r
    case NonLiteral(text) => t == Bad(NotLiteral(text))
    case Literal(path) =>
      if path in repo.outside then t == Bad(Escapes(path))
      else if path in open then t == Bad(Cyclic(path))
      else path !in repo.files && t == Bad(Missing(path))
  }

  ghost predicate Gives(repo: Repo, open: set<Path>, file: Path, t: Token) {
    file in repo.files && exists i :: 0 <= i < |repo.files[file]| && LineGives(repo, open, file, repo.files[file][i], t)
  }

  predicate Readable(repo: Repo, stack: set<Path>, path: Path) {
    path !in repo.outside && path !in stack && path in repo.files
  }

  /** A chain of includes that the reader follows: files inside the root that exist, none of them
      read already, none twice. */
  ghost predicate Followed(repo: Repo, stack: set<Path>, c: seq<Path>) {
    Chain(repo, c) && Distinct(c) && forall i :: 0 <= i < |c| ==> Readable(repo, stack, c[i])
  }

  ghost predicate GivenAlong(repo: Repo, stack: set<Path>, c: seq<Path>, t: Token) {
    Followed(repo, stack, c) && Gives(repo, stack + Elements(c), c[|c| - 1], t)
  }

  lemma {:induction false} GivenIsInlined(repo: Repo, stack: set<Path>, c: seq<Path>, t: Token)
    requires GivenAlong(repo, stack, c, t)
    ensures t in Inline(repo, c[0], stack)
    decreases |c|
  {
    hide Inline, InlineLine, Includes, Chain, Gives;
    var path := c[0];
    if |c| == 1 {
      assert stack + Elements(c) == stack + {path};
      OwnToken(repo, path, stack, t);
    } else {
      ChainTail(repo, c);
      var s := c[1..];
      FollowedTail(repo, stack, c);
      assert stack + Elements(c) == stack + {path} + Elements(s);
      GivenIsInlined(repo, stack + {path}, s, t);
      var i := IncludingLine(repo, path, c[1]);
      IncludedToken(repo, path, i, c[1], stack, t);
    }
  }

  lemma FollowedTail(repo: Repo, stack: set<Path>, c: seq<Path>)
    requires Followed(repo, stack, c) && |c| > 1
    ensures Followed(repo, stack + {c[0]}, c[1..])
  {
    hide Includes, Chain;
    ChainTail(repo, c);
    var s := c[1..];
    forall i | 0 <= i < |s| ensures Readable(repo, stack + {c[0]}, s[i]) { assert s[i] == c[i + 1] != c[0]; }
  }

  lemma OwnToken(repo: Repo, path: Path, stack: set<Path>, t: Token)
    requires Readable(repo, stack, path) && Gives(repo, stack + {path}, path, t)
    ensures t in Inline(repo, path, stack)
  {
    hide InlineLine, LineGives;
    var lines := repo.files[path];
    var i :| 0 <= i < |lines| && LineGives(repo, stack + {path}, path, lines[i], t);
    OwnLineToken(repo, path, lines[i], stack + {path}, t);
    TokenInLines(repo, path, lines, stack + {path}, t);
  }

  lemma OwnLineToken(repo: Repo, path: Path, line: Line, open: set<Path>, t: Token)
    requires LineGives(repo, open, path, line, t)
    ensures t in InlineLine(repo, path, line, open)
  {
    if line.Include? {
      var r :| r in line.refs && RefFails(repo, open, r, t);
      assert t in InlineRef(repo, r, open);
      TokenInRefs(repo, line.refs, open, t);
    }
  }

  lemma IncludedToken(repo: Repo, path: Path, i: nat, q: Path, stack: set<Path>, t: Token)
    requires Readable(repo, stack, path) && i < |repo.files[path]| && LineIncludes(repo.files[path][i], q)
    requires t in Inline(repo, q, stack + {path})
    ensures t in Inline(repo, path, stack)
  {
    var lines, open := repo.files[path], stack + {path};
    assert t in InlineRef(repo, Literal(q), open);
    TokenInRefs(repo, lines[i].refs, open, t);
    assert t in InlineLine(repo, path, lines[i], open);
    hide Inline, InlineLine;
    TokenInLines(repo, path, lines, open, t);
    FileIsLines(repo, path, stack);
  }

  lemma FileIsLines(repo: Repo, path: Path, stack: set<Path>)
    requires Readable(repo, stack, path)
    ensures Inline(repo, path, stack) == InlineLines(repo, path, repo.files[path], stack + {path})
  {
  }

  lemma {:induction false} InlinedIsGiven(repo: Repo, stack: set<Path>, path: Path, t: Token) returns (c: seq<Path>)
    requires Readable(repo, stack, path) && t in Inline(repo, path, stack)
    ensures GivenAlong(repo, stack, c, t) && c != [] && c[0] == path
    decreases repo.files.Keys - stack
  {
    hide Inline, Includes, Chain, InlineLine, LineGives;
    var lines, open := repo.files[path], stack + {path};
    FileIsLines(repo, path, stack);
    TokenInLines(repo, path, lines, open, t);
    var i :| 0 <= i < |lines| && t in InlineLine(repo, path, lines[i], open);
    c := [path];
    StartChain(repo, path);
    assert stack + Elements(c) == open;
    var q := OwnOrIncluded(repo, path, lines[i], open, t);
    if !LineGives(repo, open, path, lines[i], t) {
      LineOfFile(repo, path, i, q);
      assert repo.files.Keys - open < repo.files.Keys - stack by { assert path in repo.files.Keys - stack; }
      var s := InlinedIsGiven(repo, open, q, t);
      c := [path] + s;
      ChainCons(repo, path, s);
      FollowedCons(repo, stack, path, s);
      assert stack + Elements(c) == open + Elements(s);
    }
  }

  lemma StartChain(repo: Repo, path: Path)
    ensures Chain(repo, [path])
  {
  }

  lemma FollowedCons(repo: Repo, stack: set<Path>, path: Path, s: seq<Path>)
    requires Readable(repo, stack, path) && Followed(repo, stack + {path}, s) && Chain(repo, [path] + s)
    ensures Followed(repo, stack, [path] + s)
  {
    hide Chain;
    var c := [path] + s;
    forall i | 0 <= i < |c| ensures Readable(repo, stack, c[i]) {
      if i > 0 { assert Readable(repo, stack + {path}, s[i - 1]); }
    }
    forall i, j | 0 <= i < j < |c| ensures c[i] != c[j] {
      assert Readable(repo, stack + {path}, s[j - 1]);
      if i > 0 { assert s[i - 1] != s[j - 1]; }
    }
  }

  /** A token of a line is the line's own, or that of a file it includes and the reader enters. */
  lemma OwnOrIncluded(repo: Repo, path: Path, line: Line, open: set<Path>, t: Token) returns (q: Path)
    requires t in InlineLine(repo, path, line, open)
    ensures LineGives(repo, open, path, line, t)
      || (LineIncludes(line, q) && Readable(repo, open, q) && t in Inline(repo, q, open))
  {
    q := path;
    if line.Include? {
      TokenInRefs(repo, line.refs, open, t);
      var r :| r in line.refs && t in InlineRef(repo, r, open);
      OwnRef(repo, r, open, t);
      if r.Literal? { q := r.path; }
    }
  }

  lemma OwnRef(repo: Repo, r: Ref, open: set<Path>, t: Token)
    requires t in InlineRef(repo, r, open)
    ensures RefFails(repo, open, r, t) || (r.Literal? && Readable(repo, open, r.path) && t in Inline(repo, r.path, open))
  {
    if r.Literal? && !Readable(repo, open, r.path) {
      assert |Inline(repo, r.path, open)| == 1;
    }
  }

  /** Every section, target and error of the inlined Makefile comes from a line of a file the reader
      follows a chain of includes to, and every such line gives its own. */
  lemma TokensExactly(repo: Repo, root: Path, t: Token)
    requires Readable(repo, {}, root)
    ensures t in Inline(repo, root, {}) <==> exists c :: GivenAlong(repo, {}, c, t) && c != [] && c[0] == root
  {
    hide Inline, GivenAlong;
    if t in Inline(repo, root, {}) {
      var c := InlinedIsGiven(repo, {}, root, t);
    }
    if c :| GivenAlong(repo, {}, c, t) && c != [] && c[0] == root {
      GivenIsInlined(repo, {}, c, t);
    }
  }

  // ---------------------------------------------------------------- which targets are listed

  lemma {:induction false} DocInDocs(tokens: seq<Token>, section: string, name: string, deps: seq<string>, doc: string)
    ensures (exists s :: TargetDoc(name, deps, doc, s) in Docs(tokens, section)) <==>
      exists file :: Tgt(name, deps, doc, file) in tokens
    decreases |tokens|
  {
    if tokens != [] {
      var t, rest := tokens[0], tokens[1..];
      assert tokens == [t] + rest;
      DocInDocs(rest, if t.Sect? then t.name else section, name, deps, doc);
      if t.Tgt? {
        var first := TargetDoc(t.name, t.deps, t.doc, section);
        assert first in Docs(tokens, section);
        assert Docs(tokens, section) == [first] + Docs(rest, section);
        if file :| Tgt(name, deps, doc, file) in rest {
          var s :| TargetDoc(name, deps, doc, s) in Docs(rest, section);
          assert TargetDoc(name, deps, doc, s) in Docs(tokens, section);
        }
      }
    }
  }

  /** The chain of includes leads from the root to a file that has the line. */
  ghost predicate LeadsTo(repo: Repo, root: Path, c: seq<Path>, line: Line) {
    Chain(repo, c) && c[0] == root && c[|c| - 1] in repo.files && line in repo.files[c[|c| - 1]]
  }

  /** The reader lists a target exactly when a chain of includes leads from the root to a file that
      has its line: with that name, those prerequisites and that text. */
  lemma TargetsExactly(repo: Repo, root: Path, name: string, deps: seq<string>, doc: string)
    requires Documented(repo, root).Ok?
    ensures (exists s :: TargetDoc(name, deps, doc, s) in Documented(repo, root).targets) <==>
      exists c :: LeadsTo(repo, root, c, Target(name, deps, doc))
  {
    hide Inline, Docs, Documented, Chain, LineGives;
    DocumentedMeaning(repo, root);
    var tokens := Inline(repo, root, {});
    DocInDocs(tokens, "General", name, deps, doc);
    CleanRoot(repo, root);
    if file :| Tgt(name, deps, doc, file) in tokens {
      TargetLed(repo, root, name, deps, doc, file);
    }
    if c :| LeadsTo(repo, root, c, Target(name, deps, doc)) {
      LedIsToken(repo, root, c, name, deps, doc);
    }
  }

  lemma TargetLed(repo: Repo, root: Path, name: string, deps: seq<string>, doc: string, file: Path)
    requires Readable(repo, {}, root) && Tgt(name, deps, doc, file) in Inline(repo, root, {})
    ensures exists c :: LeadsTo(repo, root, c, Target(name, deps, doc))
  {
    hide Inline, Chain;
    var t := Tgt(name, deps, doc, file);
    TokensExactly(repo, root, t);
    var c :| GivenAlong(repo, {}, c, t) && c != [] && c[0] == root;
    assert LeadsTo(repo, root, c, Target(name, deps, doc));
  }

  lemma LedIsToken(repo: Repo, root: Path, c: seq<Path>, name: string, deps: seq<string>, doc: string)
    requires Clean(repo, root, {}) && LeadsTo(repo, root, c, Target(name, deps, doc))
    ensures Tgt(name, deps, doc, c[|c| - 1]) in Inline(repo, root, {})
  {
    hide Inline, Chain;
    var file := c[|c| - 1];
    var t := Tgt(name, deps, doc, file);
    CleanRoot(repo, root);
    CleanIsFollowed(repo, root, c);
    var i :| 0 <= i < |repo.files[file]| && repo.files[file][i] == Target(name, deps, doc);
    assert LineGives(repo, {} + Elements(c), file, repo.files[file][i], t);
    assert GivenAlong(repo, {}, c, t);
    TokensExactly(repo, root, t);
  }

  lemma CleanRoot(repo: Repo, root: Path)
    requires Clean(repo, root, {})
    ensures Readable(repo, {}, root)
  {
    SelfGood(repo, root, {});
  }

  lemma CleanIsFollowed(repo: Repo, root: Path, c: seq<Path>)
    requires Clean(repo, root, {}) && Chain(repo, c) && c[0] == root
    ensures Followed(repo, {}, c)
  {
    hide Chain;
    assert GoodChain(repo, c, {});
  }

  // ---------------------------------------------------------------- in which order, under which section

  /** The section in force after the tokens. */
  function SectionAfter(tokens: seq<Token>, section: string): string {
    if tokens == [] then section
    else SectionAfter(tokens[1..], if tokens[0].Sect? then tokens[0].name else section)
  }

  lemma {:induction false} DocsConcat(a: seq<Token>, b: seq<Token>, section: string)
    ensures Docs(a + b, section) == Docs(a, section) + Docs(b, SectionAfter(a, section))
    ensures SectionAfter(a + b, section) == SectionAfter(b, SectionAfter(a, section))
    decreases |a|
  {
    if a == [] {
      assert a + b == b;
    } else {
      assert (a + b)[1..] == a[1..] + b && (a + b)[0] == a[0];
      DocsConcat(a[1..], b, if a[0].Sect? then a[0].name else section);
    }
  }

  /** The last section line before line `i`, or the start section. */
  ghost predicate SectionAt(lines: seq<Line>, i: nat, section: string)
    requires i <= |lines|
  {
    || (section == "General" && forall j :: 0 <= j < i ==> !lines[j].Section?)
    || (exists j :: 0 <= j < i && lines[j] == Section(section) && forall k :: j < k < i ==> !lines[k].Section?)
  }

  /** The targets stand at these positions, all of them, in order, each under the last section line
      before it. */
  ghost predicate ListedAt(lines: seq<Line>, pos: seq<nat>, targets: seq<TargetDoc>) {
    && |pos| == |targets|
    && (forall a, b :: 0 <= a < b < |pos| ==> pos[a] < pos[b])
    && (forall i :: i in pos <==> 0 <= i < |lines| && lines[i].Target?)
    && (forall k :: 0 <= k < |pos| ==> pos[k] < |lines| && lines[pos[k]].Target? && ListedAs(lines, pos[k], targets[k]))
  }

  ghost predicate ListedAs(lines: seq<Line>, i: nat, t: TargetDoc)
    requires i < |lines| && lines[i].Target?
  {
    t.name == lines[i].name && t.deps == lines[i].deps && t.doc == lines[i].doc && SectionAt(lines, i, t.section)
  }

  predicate Flat(lines: seq<Line>) {
    forall i :: 0 <= i < |lines| ==> !lines[i].Include? && !lines[i].Unreadable?
  }

  lemma SectionPrefix(lines: seq<Line>, n: nat, i: nat, section: string)
    requires i <= n <= |lines|
    ensures SectionAt(lines[..n], i, section) <==> SectionAt(lines, i, section)
  {
    var init := lines[..n];
    if SectionAt(lines, i, section) {
      if j :| 0 <= j < i && lines[j] == Section(section) && forall k :: j < k < i ==> !lines[k].Section? {
        assert init[j] == Section(section);
      }
    }
    if SectionAt(init, i, section) {
      if j :| 0 <= j < i && init[j] == Section(section) && forall k :: j < k < i ==> !init[k].Section? {
        assert lines[j] == Section(section);
        forall k | j < k < i ensures !lines[k].Section? { assert init[k] == lines[k]; }
      } else {
        forall j | 0 <= j < i ensures !lines[j].Section? { assert init[j] == lines[j]; }
      }
    }
  }

  lemma {:induction false} FlatListing(repo: Repo, path: Path, lines: seq<Line>, stack: set<Path>) returns (pos: seq<nat>)
    requires Flat(lines)
    ensures var tokens := InlineLines(repo, path, lines, stack);
      ListedAt(lines, pos, Docs(tokens, "General")) && SectionAt(lines, |lines|, SectionAfter(tokens, "General"))
  {
    hide Docs, SectionAfter, ListedAs, SectionAt;
    pos := [];
    if lines == [] {
      NoDocs();
    } else {
      var n := |lines| - 1;
      var init := lines[..n];
      assert forall i :: 0 <= i < n ==> init[i] == lines[i];
      pos := FlatListing(repo, path, init, stack);
      var before, last := InlineLines(repo, path, init, stack), InlineLine(repo, path, lines[n], stack);
      DocsConcat(before, last, "General");
      OneLine(repo, path, lines[n], stack, SectionAfter(before, "General"));
      SectionSnoc(lines, n, SectionAfter(before, "General"));
      forall k | 0 <= k < |pos| ensures ListedAs(lines, pos[k], Docs(before, "General")[k]) {
        ListedPrefix(lines, n, pos[k], Docs(before, "General")[k]);
      }
      if lines[n].Target? {
        assert forall k :: 0 <= k < |pos| ==> pos[k] in pos;
        ListedLast(lines, n, SectionAfter(before, "General"));
        pos := pos + [n];
      }
    }
  }

  lemma NoDocs()
    ensures Docs([], "General") == [] && SectionAt([], 0, SectionAfter([], "General"))
  {
  }

  lemma OneLine(repo: Repo, path: Path, line: Line, stack: set<Path>, section: string)
    requires !line.Include? && !line.Unreadable?
    ensures var tokens := InlineLine(repo, path, line, stack);
      && Docs(tokens, section) == (if line.Target? then [TargetDoc(line.name, line.deps, line.doc, section)] else [])
      && SectionAfter(tokens, section) == (if line.Section? then line.name else section)
  {
    var tokens := InlineLine(repo, path, line, stack);
    assert tokens != [] ==> tokens[1..] == [];
  }

  lemma SectionSnoc(lines: seq<Line>, n: nat, section: string)
    requires n + 1 == |lines| && SectionAt(lines[..n], n, section)
    ensures SectionAt(lines, n, section)
    ensures SectionAt(lines, |lines|, if lines[n].Section? then lines[n].name else section)
  {
    SectionPrefix(lines, n, n, section);
    if lines[n].Section? {
      assert lines[n] == Section(lines[n].name);
    } else if j :| 0 <= j < n && lines[j] == Section(section) && forall k :: j < k < n ==> !lines[k].Section? {
      assert forall k :: j < k < |lines| ==> !lines[k].Section?;
    }
  }

  lemma ListedPrefix(lines: seq<Line>, n: nat, i: nat, t: TargetDoc)
    requires i < n <= |lines| && lines[i].Target? && ListedAs(lines[..n], i, t)
    ensures ListedAs(lines, i, t)
  {
    hide SectionAt;
    SectionPrefix(lines, n, i, t.section);
  }

  lemma ListedLast(lines: seq<Line>, n: nat, section: string)
    requires n < |lines| && lines[n].Target? && SectionAt(lines, n, section)
    ensures ListedAs(lines, n, TargetDoc(lines[n].name, lines[n].deps, lines[n].doc, section))
  {
  }

  /** A Makefile without includes is listed target by target, in the order of its lines, each under
      the last section line before it. */
  lemma FlatIsListed(repo: Repo, root: Path) returns (pos: seq<nat>)
    requires Documented(repo, root).Ok? && root in repo.files && Flat(repo.files[root])
    ensures ListedAt(repo.files[root], pos, Documented(repo, root).targets)
  {
    hide Inline, Documented, Docs, ListedAt;
    DocumentedMeaning(repo, root);
    CleanRoot(repo, root);
    FileIsLines(repo, root, {});
    pos := FlatListing(repo, root, repo.files[root], {} + {root});
  }

  // ---------------------------------------------------------------- an include is its text

  lemma {:induction false} LinesConcat(repo: Repo, path: Path, a: seq<Line>, b: seq<Line>, stack: set<Path>)
    ensures InlineLines(repo, path, a + b, stack) == InlineLines(repo, path, a, stack) + InlineLines(repo, path, b, stack)
    decreases |b|
  {
    hide InlineLine;
    if b == [] {
      assert a + b == a;
    } else {
      var m := |b| - 1;
      LinesConcat(repo, path, a, b[..m], stack);
      assert (a + b)[..|a + b| - 1] == a + b[..m];
    }
  }

  lemma {:induction false} RefsConcat(repo: Repo, a: seq<Ref>, b: seq<Ref>, stack: set<Path>)
    ensures InlineRefs(repo, a + b, stack) == InlineRefs(repo, a, stack) + InlineRefs(repo, b, stack)
    decreases |b|
  {
    hide InlineRef;
    if b == [] {
      assert a + b == a;
    } else {
      var m := |b| - 1;
      RefsConcat(repo, a, b[..m], stack);
      assert (a + b)[..|a + b| - 1] == a + b[..m];
    }
  }

  function Rewritten(repo: Repo, root: Path, lines: seq<Line>): Repo {
    repo.(files := repo.files[root := lines])
  }

  /** While the rewritten file is being read, nothing else is read differently. */
  lemma {:induction false} UnaffectedFile(repo: Repo, root: Path, other: seq<Line>, path: Path, stack: set<Path>)
    requires root in stack && root in repo.files
    ensures Inline(Rewritten(repo, root, other), path, stack) == Inline(repo, path, stack)
    decreases repo.files.Keys - stack, 0, 0
  {
    if Readable(repo, stack, path) {
      assert repo.files.Keys - (stack + {path}) < repo.files.Keys - stack by { assert path in repo.files.Keys - stack; }
      UnaffectedLines(repo, root, other, path, repo.files[path], stack + {path});
    }
  }

  lemma {:induction false} UnaffectedLines(repo: Repo, root: Path, other: seq<Line>, path: Path, lines: seq<Line>,
                                           stack: set<Path>)
    requires root in stack && root in repo.files
    ensures InlineLines(Rewritten(repo, root, other), path, lines, stack) == InlineLines(repo, path, lines, stack)
    decreases repo.files.Keys - stack, 2, |lines|
  {
    if lines != [] {
      var n := |lines| - 1;
      UnaffectedLines(repo, root, other, path, lines[..n], stack);
      if lines[n].Include? { UnaffectedRefs(repo, root, other, lines[n].refs, stack); }
    }
  }

  lemma {:induction false} UnaffectedRefs(repo: Repo, root: Path, other: seq<Line>, refs: seq<Ref>, stack: set<Path>)
    requires root in stack && root in repo.files
    ensures InlineRefs(Rewritten(repo, root, other), refs, stack) == InlineRefs(repo, refs, stack)
    decreases repo.files.Keys - stack, 1, |refs|
  {
    hide Inline;
    if refs != [] {
      var n := |refs| - 1;
      UnaffectedRefs(repo, root, other, refs[..n], stack);
      if refs[n].Literal? { UnaffectedFile(repo, root, other, refs[n].path, stack); }
    }
  }

  /** Where no include goes wrong, reading does not depend on which files are being read. */
  lemma {:induction false} SameFile(repo: Repo, path: Path, small: set<Path>, big: set<Path>)
    requires small <= big && NoBad(Inline(repo, path, big))
    ensures Inline(repo, path, small) == Inline(repo, path, big)
    decreases repo.files.Keys - small, 0, 0
  {
    hide NoBad;
    NoBadIsReadable(repo, path, big);
    assert repo.files.Keys - (small + {path}) < repo.files.Keys - small by { assert path in repo.files.Keys - small; }
    SameLines(repo, path, repo.files[path], small + {path}, big + {path});
  }

  lemma NoBadIsReadable(repo: Repo, path: Path, stack: set<Path>)
    requires NoBad(Inline(repo, path, stack))
    ensures Readable(repo, stack, path)
  {
    NoBadFile(repo, path, stack);
  }

  lemma {:induction false} SameLines(repo: Repo, path: Path, lines: seq<Line>, small: set<Path>, big: set<Path>)
    requires small <= big && NoBad(InlineLines(repo, path, lines, big))
    ensures InlineLines(repo, path, lines, small) == InlineLines(repo, path, lines, big)
    decreases repo.files.Keys - small, 2, |lines|
  {
    hide NoBad;
    if lines != [] {
      var n := |lines| - 1;
      NoBadConcat(InlineLines(repo, path, lines[..n], big), InlineLine(repo, path, lines[n], big));
      SameLines(repo, path, lines[..n], small, big);
      if lines[n].Include? { SameRefs(repo, lines[n].refs, small, big); }
    }
  }

  lemma {:induction false} SameRefs(repo: Repo, refs: seq<Ref>, small: set<Path>, big: set<Path>)
    requires small <= big && NoBad(InlineRefs(repo, refs, big))
    ensures InlineRefs(repo, refs, small) == InlineRefs(repo, refs, big)
    decreases repo.files.Keys - small, 1, |refs|
  {
    hide NoBad, Inline;
    if refs != [] {
      var n := |refs| - 1;
      NoBadConcat(InlineRefs(repo, refs[..n], big), InlineRef(repo, refs[n], big));
      SameRefs(repo, refs[..n], small, big);
      if refs[n].Literal? { SameFile(repo, refs[n].path, small, big); }
    }
  }

  /** The tokens without the file each target stands in. */
  function Unfiled(tokens: seq<Token>): seq<Token> {
    if tokens == [] then []
    else [if tokens[0].Tgt? then tokens[0].(file := "") else tokens[0]] + Unfiled(tokens[1..])
  }

  lemma {:induction false} UnfiledConcat(a: seq<Token>, b: seq<Token>)
    ensures Unfiled(a + b) == Unfiled(a) + Unfiled(b)
  {
    if a == [] {
      assert a + b == b;
    } else {
      UnfiledConcat(a[1..], b);
      assert (a + b)[1..] == a[1..] + b;
    }
  }

  lemma {:induction false} UnfiledMeaning(tokens: seq<Token>, section: string)
    ensures NoBad(Unfiled(tokens)) <==> NoBad(tokens)
    ensures Names(Unfiled(tokens)) == Names(tokens) && Docs(Unfiled(tokens), section) == Docs(tokens, section)
    decreases |tokens|
  {
    hide NoBad;
    if tokens != [] {
      var t, rest := tokens[0], tokens[1..];
      var u := if t.Tgt? then t.(file := "") else t;
      UnfiledMeaning(rest, if t.Sect? then t.name else section);
      assert tokens == [t] + rest && Unfiled(tokens) == [u] + Unfiled(rest);
      assert Unfiled(tokens)[1..] == Unfiled(rest);
      NoBadConcat([t], rest);
      NoBadConcat([u], Unfiled(rest));
      if t.Bad? { OneBad(t.error); } else { OneGood(t); OneGood(u); }
    }
  }

  /** The same lines in another file give the same, but for the file. */
  lemma {:induction false} MovedLines(repo: Repo, from: Path, to: Path, lines: seq<Line>, stack: set<Path>)
    requires NoBad(InlineLines(repo, from, lines, stack))
    ensures Unfiled(InlineLines(repo, to, lines, stack)) == Unfiled(InlineLines(repo, from, lines, stack))
    decreases |lines|
  {
    hide NoBad;
    if lines != [] {
      var n := |lines| - 1;
      var line := lines[n];
      NoBadConcat(InlineLines(repo, from, lines[..n], stack), InlineLine(repo, from, line, stack));
      MovedLines(repo, from, to, lines[..n], stack);
      MovedLine(repo, from, to, line, stack);
      UnfiledConcat(InlineLines(repo, from, lines[..n], stack), InlineLine(repo, from, line, stack));
      UnfiledConcat(InlineLines(repo, to, lines[..n], stack), InlineLine(repo, to, line, stack));
    }
  }

  lemma MovedLine(repo: Repo, from: Path, to: Path, line: Line, stack: set<Path>)
    requires NoBad(InlineLine(repo, from, line, stack))
    ensures Unfiled(InlineLine(repo, to, line, stack)) == Unfiled(InlineLine(repo, from, line, stack))
  {
    if line.Unreadable? { OneBad(ReadFailed(from)); }
  }

  /** The root's lines, in three parts around one included name. */
  function Around(before: seq<Line>, left: seq<Ref>, q: Path, right: seq<Ref>, after: seq<Line>): seq<Line> {
    before + [Include(left + [Literal(q)] + right)] + after
  }

  /** The same with the lines of a file in place of its name. */
  function Spliced(before: seq<Line>, left: seq<Ref>, lines: seq<Line>, right: seq<Ref>, after: seq<Line>): seq<Line> {
    before + [Include(left)] + lines + [Include(right)] + after
  }

  lemma IncludeLine(repo: Repo, path: Path, refs: seq<Ref>, stack: set<Path>)
    ensures InlineLines(repo, path, [Include(refs)], stack) == InlineRefs(repo, refs, stack)
  {
    var line := [Include(refs)];
    assert line[..0] == [] && InlineLines(repo, path, line[..0], stack) == [];
  }

  lemma OneRef(repo: Repo, q: Path, stack: set<Path>)
    ensures InlineRefs(repo, [Literal(q)], stack) == Inline(repo, q, stack)
  {
    assert [Literal(q)][..0] == [] && InlineRefs(repo, [], stack) == [];
  }

  lemma AroundTokens(repo: Repo, path: Path, before: seq<Line>, left: seq<Ref>, q: Path, right: seq<Ref>,
                     after: seq<Line>, stack: set<Path>)
    ensures InlineLines(repo, path, Around(before, left, q, right, after), stack) ==
      InlineLines(repo, path, before, stack) + InlineRefs(repo, left, stack) + Inline(repo, q, stack)
      + InlineRefs(repo, right, stack) + InlineLines(repo, path, after, stack)
  {
    hide Inline, InlineLines, InlineRefs;
    LinesConcat(repo, path, before + [Include(left + [Literal(q)] + right)], after, stack);
    LinesConcat(repo, path, before, [Include(left + [Literal(q)] + right)], stack);
    IncludeLine(repo, path, left + [Literal(q)] + right, stack);
    RefsConcat(repo, left + [Literal(q)], right, stack);
    RefsConcat(repo, left, [Literal(q)], stack);
    OneRef(repo, q, stack);
    Regroup(InlineLines(repo, path, before, stack), InlineRefs(repo, left, stack), Inline(repo, q, stack),
            InlineRefs(repo, right, stack));
  }

  lemma Regroup(a: seq<Token>, b: seq<Token>, c: seq<Token>, d: seq<Token>)
    ensures a + (b + c + d) == a + b + c + d
  {
  }

  lemma SplicedTokens(repo: Repo, path: Path, before: seq<Line>, left: seq<Ref>, lines: seq<Line>, right: seq<Ref>,
                      after: seq<Line>, stack: set<Path>)
    ensures InlineLines(repo, path, Spliced(before, left, lines, right, after), stack) ==
      InlineLines(repo, path, before, stack) + InlineRefs(repo, left, stack) + InlineLines(repo, path, lines, stack)
      + InlineRefs(repo, right, stack) + InlineLines(repo, path, after, stack)
  {
    hide InlineLines, InlineRefs;
    LinesConcat(repo, path, before + [Include(left)] + lines + [Include(right)], after, stack);
    LinesConcat(repo, path, before + [Include(left)] + lines, [Include(right)], stack);
    LinesConcat(repo, path, before + [Include(left)], lines, stack);
    LinesConcat(repo, path, before, [Include(left)], stack);
    IncludeLine(repo, path, left, stack);
    IncludeLine(repo, path, right, stack);
  }

  /** The middle part of accepted tokens can be read from the root instead of its own file. */
  lemma MiddleMoves(repo: Repo, root: Path, q: Path, stack: set<Path>)
    requires NoBad(Inline(repo, q, stack))
    ensures q in repo.files
    ensures Unfiled(InlineLines(repo, root, repo.files[q], stack)) == Unfiled(Inline(repo, q, stack))
  {
    hide NoBad, Inline, InlineLines;
    NoBadIsReadable(repo, q, stack);
    FileIsLines(repo, q, stack);
    SameLines(repo, q, repo.files[q], stack, stack + {q});
    MovedLines(repo, q, root, repo.files[q], stack);
  }

  lemma UnfiledAround(a: seq<Token>, b: seq<Token>, x: seq<Token>, y: seq<Token>, c: seq<Token>, d: seq<Token>)
    requires Unfiled(x) == Unfiled(y)
    ensures Unfiled(a + b + x + c + d) == Unfiled(a + b + y + c + d)
  {
    hide Unfiled;
    forall m | m in {x, y} ensures Unfiled(a + b + m + c + d) == Unfiled(a + b) + Unfiled(m) + Unfiled(c) + Unfiled(d) {
      UnfiledConcat(a + b + m + c, d);
      UnfiledConcat(a + b + m, c);
      UnfiledConcat(a + b, m);
    }
  }

  /** An accepted Makefile means what it means with the text of an included file in the place of its
      name: the same targets, in the same order, under the same sections. */
  lemma IncludeIsText(repo: Repo, root: Path, before: seq<Line>, left: seq<Ref>, q: Path, right: seq<Ref>,
                      after: seq<Line>)
    requires Documented(repo, root).Ok? && root in repo.files
    requires repo.files[root] == Around(before, left, q, right, after)
    ensures q in repo.files
    ensures Documented(Rewritten(repo, root, Spliced(before, left, repo.files[q], right, after)), root)
         == Documented(repo, root)
  {
    hide Inline, InlineLines, InlineRefs, Docs, NoBad, Names, Around, Spliced;
    DocumentedMeaning(repo, root);
    CleanRoot(repo, root);
    NoBadMeansClean(repo, root, {});
    FileIsLines(repo, root, {});
    var stack := {} + {root};
    AroundTokens(repo, root, before, left, q, right, after, stack);
    var a, b, x, c, d := InlineLines(repo, root, before, stack), InlineRefs(repo, left, stack), Inline(repo, q, stack),
      InlineRefs(repo, right, stack), InlineLines(repo, root, after, stack);
    NoBadConcat(a + b + x + c, d);
    NoBadConcat(a + b + x, c);
    NoBadConcat(a + b, x);
    MiddleMoves(repo, root, q, stack);
    var other := Spliced(before, left, repo.files[q], right, after);
    var repo2 := Rewritten(repo, root, other);
    FileIsLines(repo2, root, {});
    UnaffectedLines(repo, root, other, root, other, stack);
    SplicedTokens(repo, root, before, left, repo.files[q], right, after, stack);
    UnfiledAround(a, b, x, InlineLines(repo, root, repo.files[q], stack), c, d);
    SameResult(repo, repo2, root);
  }

  /** The result depends on the tokens only, and not on the files they stand in. */
  lemma SameResult(repo: Repo, repo2: Repo, root: Path)
    requires Documented(repo, root).Ok?
    requires Unfiled(Inline(repo2, root, {})) == Unfiled(Inline(repo, root, {}))
    ensures Documented(repo2, root) == Documented(repo, root)
  {
    hide Inline, Docs, NoBad, Names, Scan;
    var s, t := Inline(repo, root, {}), Inline(repo2, root, {});
    ScanMeaning(START, s);
    ScanMeaning(START, t);
    UnfiledMeaning(s, "General");
    UnfiledMeaning(t, "General");
  }

  // ---------------------------------------------------------------- duplicates

  /** Targets `i` and `j` of the inlined Makefile have one name, and nothing fails before `j`. */
  ghost predicate Repeats(tokens: seq<Token>, i: nat, j: nat, name: string, file: Path, first: Path) {
    && i < j < |tokens| && tokens[i].Tgt? && tokens[j].Tgt?
    && tokens[i].name == tokens[j].name == name && tokens[i].file == first && tokens[j].file == file
    && NoBad(tokens[..j]) && Distinct(Names(tokens[..j]))
  }

  /** A duplicate is reported with the file of the second target and the file of the first. */
  lemma DuplicateReported(repo: Repo, root: Path, name: string, file: Path, first: Path)
    requires Documented(repo, root) == Err(Duplicate(name, file, first))
    ensures exists i, j :: Repeats(Inline(repo, root, {}), i, j, name, file, first)
  {
    hide Inline, Names, NoBad;
    var tokens := Inline(repo, root, {});
    forall error | Bad(error) in tokens ensures !error.Duplicate? { NoDuplicateTokens(repo, root, {}, error); }
    var j := DuplicateAt(START, tokens, name, file, first);
    ScanMeaning(START, tokens[..j]);
    var i := SeenAt(START, tokens[..j], name, first);
    assert tokens[..j][i] == tokens[i];
    assert Repeats(tokens, i, j, name, file, first);
  }

  lemma {:induction false} DuplicateAt(s: Scanned, tokens: seq<Token>, name: string, file: Path, first: Path) returns (j: nat)
    requires Scan(s, tokens) == Failed(Duplicate(name, file, first))
    requires forall error :: Bad(error) in tokens ==> !error.Duplicate?
    ensures j < |tokens| && tokens[j].Tgt? && tokens[j].name == name && tokens[j].file == file
    ensures var r := Scan(s, tokens[..j]); r.Done? && name in r.state.seen && r.state.seen[name] == first
    decreases |tokens|
  {
    var r := ScanOne(s, tokens[0]);
    j := 0;
    if r.Done? {
      var rest := tokens[1..];
      j := DuplicateAt(r.state, rest, name, file, first);
      assert tokens[..j + 1][1..] == rest[..j];
      j := j + 1;
    } else {
      assert tokens[0] in tokens;
    }
  }

  /** A name that has been seen, and was not at first, was seen at a target of that file. */
  lemma {:induction false} SeenAt(s: Scanned, tokens: seq<Token>, name: string, first: Path) returns (i: nat)
    requires var r := Scan(s, tokens); r.Done? && name in r.state.seen && r.state.seen[name] == first && name !in s.seen
    ensures i < |tokens| && tokens[i].Tgt? && tokens[i].name == name && tokens[i].file == first
    decreases |tokens|
  {
    var t := ScanOne(s, tokens[0]).state;
    i := 0;
    if name !in t.seen {
      i := SeenAt(t, tokens[1..], name, first);
      i := i + 1;
    } else {
      StaysSeen(t, tokens[1..], name);
    }
  }

  lemma {:induction false} StaysSeen(s: Scanned, tokens: seq<Token>, name: string)
    requires Scan(s, tokens).Done? && name in s.seen
    ensures var t := Scan(s, tokens).state; name in t.seen && t.seen[name] == s.seen[name]
    decreases |tokens|
  {
    if tokens != [] { StaysSeen(ScanOne(s, tokens[0]).state, tokens[1..], name); }
  }

  /** Inlining by itself gives no error of this kind. */
  lemma NoDuplicateTokens(repo: Repo, path: Path, stack: set<Path>, error: Error)
    requires Bad(error) in Inline(repo, path, stack)
    ensures !error.Duplicate?
  {
    if Readable(repo, stack, path) {
      hide Inline, Chain, Includes;
      var c := InlinedIsGiven(repo, stack, path, Bad(error));
    }
  }
}
