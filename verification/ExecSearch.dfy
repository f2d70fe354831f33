/** What a command name means, without a cache (find_command in src/exec.c). */
module ExecSearch {
  import opened Option

  /** An element of PATH: a directory, or %builtin for the built-in commands. */
  datatype PathElem = Dir(dir: string) | BuiltinMark

  type Path = seq<PathElem>

  datatype Command =
    | Unknown
    | Normal(index: int)
    | Function(body: int)
    | Builtin(name: string)

  datatype Act = DO_ABS | DO_NOFUNC | DO_ALTPATH | DO_REGBLTIN

  /**
   * What a search depends on: PATH, the current directory, which files can be executed (absolute names, and names
   * relative to a directory) and the built-in commands, with whether they are regular.
   */
  datatype Env = Env(
    path: Path,
    cwd: string,
    absolute: set<string>,
    relative: set<(string, string)>,
    builtins: map<string, bool>)

  predicate IsAbsolute(fullname: string) {
    fullname != "" && fullname[0] == '/'
  }

  predicate IsExecutable(env: Env, fullname: string) {
    if IsAbsolute(fullname) then fullname in env.absolute else (env.cwd, fullname) in env.relative
  }

  /** The file to try in a directory. */
  function FullName(dir: string, name: string): string {
    if dir == "" then name else dir + "/" + name
  }

  /** The index of %builtin in a path; -1 if there is none. */
  function BuiltinLoc(path: Path): (i: int)
    ensures -1 <= i < |path|
    ensures i >= 0 ==> path[i] == BuiltinMark
    ensures forall k :: 0 <= k < (if i >= 0 then i else |path|) ==> path[k].Dir?
  {
    if path == [] then -1
    else if path[0].BuiltinMark? then 0
    else
      var i := BuiltinLoc(path[1..]);
      if i < 0 then -1 else i + 1
  }

  /** The first element of a path, from idx on, that has the command. */
  function Search(env: Env, path: Path, name: string, idx: nat): Command
    decreases |path| - idx
  {
    if idx >= |path| then Unknown
    else if path[idx].BuiltinMark? then if name in env.builtins then Builtin(name) else Search(env, path, name, idx + 1)
    else if IsExecutable(env, FullName(path[idx].dir, name)) then Normal(idx)
    else Search(env, path, name, idx + 1)
  }

  /** Whether a built-in command is found without a search. */
  predicate BuiltinFirst(env: Env, name: string, alt: bool) {
    name in env.builtins && (env.builtins[name] || alt || BuiltinLoc(env.path) <= 0)
  }

  /** The meaning of a name that is not a function. */
  function Plain(env: Env, name: string): Command {
    if BuiltinFirst(env, name, false) then Builtin(name) else Search(env, env.path, name, 0)
  }

  /** The meaning of a name, given the functions; path is searched instead of PATH if it is given. */
  function Resolve(env: Env, functions: map<string, int>, name: string, act: set<Act>, path: Option<Path>): Command {
    if '/' in name then if DO_ABS in act && !IsExecutable(env, name) then Unknown else Normal(-1)
    else if name in functions && DO_NOFUNC !in act then Function(functions[name])
    else if BuiltinFirst(env, name, path.Some?) then Builtin(name)
    else if DO_REGBLTIN in act then Unknown
    else Search(env, if path.Some? then path.value else env.path, name, 0)
  }

  // ---------- what a change of directory leaves ----------

  lemma {:induction false} SearchFound(env: Env, path: Path, name: string, idx: nat)
    ensures match Search(env, path, name, idx)
            case Normal(i) =>
              && idx <= i < |path| && path[i].Dir? && IsExecutable(env, FullName(path[i].dir, name))
              && Skipped(env, path, name, idx, i)
            case Builtin(n) => n == name && name in env.builtins
                               && exists i :: idx <= i < |path| && path[i] == BuiltinMark
                                   && Skipped(env, path, name, idx, i)
            case Unknown => Skipped(env, path, name, idx, |path|)
            case Function(_) => false
    decreases |path| - idx
  {
    if idx < |path| && !(path[idx].BuiltinMark? && name in env.builtins)
       && !(path[idx].Dir? && IsExecutable(env, FullName(path[idx].dir, name))) {
      SearchFound(env, path, name, idx + 1);
    }
  }

  /** No element from lo up to hi has the command. */
  predicate Skipped(env: Env, path: Path, name: string, lo: nat, hi: nat) {
    forall k :: lo <= k < hi && k < |path| ==>
      if path[k].BuiltinMark? then name !in env.builtins else !IsExecutable(env, FullName(path[k].dir, name))
  }
}
