/** Laws of command lookup: which file a name leads to, and what comes before what. */
module ExecLaws {
  import opened Option
  import opened ExecCache
  import opened ExecSearch

  /** Where the last slash of a text is; -1 if there is none. */
  function LastSlash(s: string): (i: int)
    ensures -1 <= i < |s|
    ensures i >= 0 ==> s[i] == '/'
    ensures forall k :: i < k < |s| ==> s[k] != '/'
  {
    if s == "" then -1 else if s[|s| - 1] == '/' then |s| - 1 else LastSlash(s[..|s| - 1])
  }

  lemma LastSlashAt(s: string, i: int)
    requires -1 <= i < |s| && (i >= 0 ==> s[i] == '/') && forall k :: i < k < |s| ==> s[k] != '/'
    ensures LastSlash(s) == i
  {}

  /** The file in a directory has the name as its last component, and the directory before the slash. */
  lemma FileIn(dir: string, name: string)
    requires '/' !in name
    ensures var f := FullName(dir, name);
            && f[LastSlash(f) + 1..] == name
            && (if dir == "" then LastSlash(f) == -1 else LastSlash(f) == |dir| && f[..LastSlash(f)] == dir)
  {
    var f := FullName(dir, name);
    if dir == "" {
      LastSlashAt(f, -1);
    } else {
      assert f == dir + ("/" + name);
      LastSlashAt(f, |dir|);
    }
  }

  /** There is a file in the directory that can be executed under the name. */
  ghost predicate Offers(env: Env, dir: string, name: string) {
    exists f :: IsFileIn(f, dir, name) && if IsAbsolute(f) then f in env.absolute else (env.cwd, f) in env.relative
  }

  predicate IsFileIn(f: string, dir: string, name: string) {
    var i := LastSlash(f);
    f[i + 1..] == name && if dir == "" then i == -1 else i == |dir| && f[..i] == dir
  }

  /** There is one file at most that it could be. */
  lemma OneFile(f: string, dir: string, name: string)
    requires '/' !in name && IsFileIn(f, dir, name)
    ensures f == FullName(dir, name)
  {
    hide LastSlash;
    var i := LastSlash(f);
    if dir == "" {
      assert f[0..] == f;
    } else {
      CutAt(f, i);
    }
  }

  lemma CutAt(f: string, i: nat)
    requires i < |f| && f[i] == '/'
    ensures f == f[..i] + "/" + f[i + 1..]
  {}

  lemma OffersFile(env: Env, dir: string, name: string)
    requires '/' !in name
    ensures Offers(env, dir, name) <==> IsExecutable(env, FullName(dir, name))
  {
    FileIn(dir, name);
    assert IsFileIn(FullName(dir, name), dir, name);
    hide FullName, LastSlash;
    forall f | IsFileIn(f, dir, name)
      ensures f == FullName(dir, name)
    {
      OneFile(f, dir, name);
    }
  }

  /** An element of a path that has the command. */
  ghost predicate Has(env: Env, e: PathElem, name: string) {
    match e
    case Dir(dir) => Offers(env, dir, name)
    case BuiltinMark => name in env.builtins
  }

  /** The first element that has the command decides: a file in it, or the built-in command. */
  lemma FirstHas(env: Env, path: Path, name: string, i: nat)
    requires '/' !in name && i <= |path| && forall k :: 0 <= k < i ==> !Has(env, path[k], name)
    requires i < |path| ==> Has(env, path[i], name)
    ensures Search(env, path, name, 0)
            == if i == |path| then Unknown else if path[i].BuiltinMark? then Builtin(name) else Normal(i)
  {
    FirstHasFrom(env, path, name, 0, i);
  }

  lemma {:induction false} FirstHasFrom(env: Env, path: Path, name: string, idx: nat, i: nat)
    requires '/' !in name && idx <= i <= |path| && forall k :: idx <= k < i ==> !Has(env, path[k], name)
    requires i < |path| ==> Has(env, path[i], name)
    ensures Search(env, path, name, idx)
            == if i == |path| then Unknown else if path[i].BuiltinMark? then Builtin(name) else Normal(i)
    decreases |path| - idx
  {
    hide Offers, FullName, IsExecutable;
    if idx < |path| {
      if path[idx].Dir? {
        OffersFile(env, path[idx].dir, name);
      }
      if idx < i {
        FirstHasFrom(env, path, name, idx + 1, i);
      }
    }
  }

  /** What a search finds is a file of that name in that directory, and nothing before it has the command. */
  lemma FoundFile(env: Env, path: Path, name: string)
    requires '/' !in name && Search(env, path, name, 0).Normal?
    ensures var i := Search(env, path, name, 0).index;
            && 0 <= i < |path| && path[i].Dir? && Offers(env, path[i].dir, name)
            && forall k :: 0 <= k < i ==> !Has(env, path[k], name)
  {
    hide Offers, FullName, IsExecutable, Search;
    SearchFound(env, path, name, 0);
    var i := Search(env, path, name, 0).index;
    forall k | 0 <= k <= i && path[k].Dir?
      ensures Offers(env, path[k].dir, name) <==> IsExecutable(env, FullName(path[k].dir, name))
    {
      OffersFile(env, path[k].dir, name);
    }
  }

  /** A name with a slash is the file itself. */
  lemma Slashed(env: Env, functions: map<string, int>, name: string, act: set<Act>, search: Option<Path>)
    requires '/' in name
    ensures Resolve(env, functions, name, act, search) in {Normal(-1), Unknown}
    ensures Resolve(env, functions, name, act, search) == Unknown <==>
              DO_ABS in act && if name[0] == '/' then name !in env.absolute else (env.cwd, name) !in env.relative
  {}

  /** A function comes first, unless it is not wanted. */
  lemma FunctionFirst(env: Env, functions: map<string, int>, name: string, act: set<Act>, search: Option<Path>)
    requires '/' !in name
    ensures Resolve(env, functions, name, act, search).Function? <==> name in functions && DO_NOFUNC !in act
    ensures name in functions && DO_NOFUNC !in act ==>
              Resolve(env, functions, name, act, search) == Function(functions[name])
  {
    FunctionNever(env, env.path, name, 0);
    if search.Some? {
      FunctionNever(env, search.value, name, 0);
    }
  }

  lemma {:induction false} FunctionNever(env: Env, path: Path, name: string, idx: nat)
    ensures !Search(env, path, name, idx).Function?
    decreases |path| - idx
  {
    if idx < |path| {
      FunctionNever(env, path, name, idx + 1);
    }
  }

  /**
   * A built-in command comes before any file if it is regular, if another path is searched, or if PATH has no
   * %builtin or has it first; otherwise it comes where %builtin is.
   */
  lemma BuiltinPlace(env: Env, functions: map<string, int>, name: string, act: set<Act>, search: Option<Path>)
    requires '/' !in name && (name in functions ==> DO_NOFUNC in act)
    ensures name in env.builtins
            && (env.builtins[name] || search.Some? || BuiltinMark !in env.path || env.path[0].BuiltinMark?) ==>
              Resolve(env, functions, name, act, search) == Builtin(name)
    ensures !(name in env.builtins
              && (env.builtins[name] || search.Some? || BuiltinMark !in env.path || env.path[0].BuiltinMark?)) ==>
              Resolve(env, functions, name, act, search)
              == if DO_REGBLTIN in act then Unknown
                 else Search(env, if search.Some? then search.value else env.path, name, 0)
  {
    var i := BuiltinLoc(env.path);
    if i < 0 {
      assert forall k :: 0 <= k < |env.path| ==> env.path[k].Dir?;
    } else {
      assert env.path[i] in env.path;
    }
    hide Search;
  }

  /** For instance: with PATH=/bin and an executable /bin/ls, `ls` is that file. */
  lemma LsInBin(builtins: map<string, bool>)
    requires "ls" !in builtins
    ensures Resolve(Env([Dir("/bin")], "/", {"/bin/ls"}, {}, builtins), map[], "ls", {}, None) == Normal(0)
  {
    var env := Env([Dir("/bin")], "/", {"/bin/ls"}, {}, builtins);
    assert "/bin/ls" == "/bin" + "/" + "ls";
    assert IsExecutable(env, FullName("/bin", "ls"));
  }

  // ---------- the table of commands ----------

  /** A lookup along PATH remembers what it found, and forgets a name it did not find; other names are left. */
  lemma Remembers(s: State, name: string)
    requires '/' !in name && name !in s.functions
    ensures var (entry, s') := Found(s, name, {}, None);
            && (entry.Unknown? ==> name !in s'.cached)
            && (!entry.Unknown? ==> name in s'.cached && s'.cached[name] == entry)
            && (forall n :: n != name ==> (n in s'.cached <==> n in s.cached))
            && (forall n :: n != name && n in s.cached ==> s'.cached[n] == s.cached[n])
            && s'.env == s.env && s'.functions == s.functions
  {
    FunctionFirst(s.env, s.functions, name, {}, None);
    hide Resolve;
  }

  /** Nothing is remembered of a lookup along another path, of a name with a slash, or of a function. */
  lemma NotRemembered(s: State, name: string, act: set<Act>, search: Option<Path>)
    requires search.Some? || '/' in name || name in s.functions
    ensures Found(s, name, act, search).1 == s
  {
    hide Resolve;
  }

  /** When PATH changes files are forgotten, and so are built-in commands that a file may now come before. */
  lemma Forgets(s: State, path: Path, n: string)
    ensures var s' := WithPath(s, path);
            && s'.env == s.env.(path := path) && s'.functions == s.functions
            && (n in s'.cached ==> n in s.cached && s'.cached[n] == s.cached[n])
            && (n in s.cached ==>
                  (n in s'.cached <==>
                     s.cached[n].Builtin?
                     && (IsRegular(s.env, s.cached[n].name) || path == [] || path[0].BuiltinMark?
                         || forall k :: 0 <= k < |path| ==> !path[k].BuiltinMark?)))
  {
  }

  // ---------- what a command runs ----------

  /** A simple command runs the function with its name if there is one, unless functions are passed over. */
  lemma RunsFunction(s: State, name: string, nofunc: bool, newpath: Option<Path>, search: Option<Path>)
    requires '/' !in name
    ensures var found := Step(s, Execute(name, nofunc, newpath, search)).0;
            && found.Some?
            && (found.value.Function? <==> name in s.functions && !nofunc)
            && (name in s.functions && !nofunc ==> found == Some(Function(s.functions[name])))
  {
    var env := if newpath.Some? then s.env.(path := newpath.value) else s.env;
    LocatedResolves(s, name, nofunc, newpath, search);
    FunctionFirst(env, s.functions, name, Flags(nofunc), search);
    hide Located, Resolve;
  }

  /** So it is after the function was defined, and not after it was unset. */
  lemma Defining(s: State, name: string, body: int, newpath: Option<Path>, search: Option<Path>)
    requires '/' !in name
    ensures Step(Step(s, Define(name, body)).1, Execute(name, false, newpath, search)).0 == Some(Function(body))
    ensures var found := Step(Step(s, Undefine(name)).1, Execute(name, false, newpath, search)).0;
            found.Some? && !found.value.Function?
  {
    RunsFunction(Step(s, Define(name, body)).1, name, false, newpath, search);
    RunsFunction(Step(s, Undefine(name)).1, name, false, newpath, search);
    hide Located, Resolve;
  }

  function After(s: State, run: seq<Event>): State
    decreases |run|
  {
    if run == [] then s else After(Step(s, run[0]).1, run[1..])
  }

  lemma OneAnswer(s: State, e: Event)
    ensures |Answers(s, [e])| == if e.Lookup? || e.Execute? then 1 else 0
  {
    hide Found, Located, WithPath;
    assert Answers(Step(s, e).1, []) == [];
  }

  /** Lookups are answered in the order in which they are made. */
  lemma {:induction false} InOrder(s: State, a: seq<Event>, b: seq<Event>)
    ensures Answers(s, a + b) == Answers(s, a) + Answers(After(s, a), b)
    decreases |a|
  {
    hide Step;
    if a == [] {
      assert a + b == b;
    } else {
      assert (a + b)[0] == a[0] && (a + b)[1..] == a[1..] + b;
      InOrder(Step(s, a[0]).1, a[1..], b);
    }
  }
}
