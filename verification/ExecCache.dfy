/** The command cache (src/exec.c): what it remembers is what a search would find. */
module ExecCache {
  import opened Option
  import opened ExecSearch

  datatype TblEntry = TblEntry(cmd: Command, rehash: bool)

  /**
   * An entry is a function, or what the name means now, or if it is to be rehashed what it meant in some
   * directory that was current before.
   */
  ghost predicate EntryOk(env: Env, name: string, e: TblEntry) {
    && '/' !in name && !e.cmd.Unknown?
    && (e.cmd.Function? ==> !e.rehash)
    && (!e.cmd.Function? ==>
          exists cwd0 :: Plain(env.(cwd := cwd0), name) == e.cmd && (!e.rehash ==> cwd0 == env.cwd))
  }

  /** What an earlier search tells about the absolute names of a path up to index prev. */
  ghost predicate Prior(env: Env, name: string, prev: int) {
    && -1 <= prev < |env.path|
    && (forall k :: 0 <= k < prev ==>
          && (env.path[k].BuiltinMark? ==> name !in env.builtins)
          && (env.path[k].Dir? && IsAbsolute(FullName(env.path[k].dir, name)) ==>
                !IsExecutable(env, FullName(env.path[k].dir, name))))
    && (prev >= 0 && env.path[prev].Dir? && IsAbsolute(FullName(env.path[prev].dir, name)) ==>
          IsExecutable(env, FullName(env.path[prev].dir, name)))
  }

  /** What EntryOk says that a lookup needs. */
  lemma EntryFacts(env: Env, name: string, e: TblEntry)
    requires EntryOk(env, name, e)
    ensures '/' !in name && !e.cmd.Unknown? && (e.cmd.Function? ==> !e.rehash)
    ensures e.cmd.Builtin? ==> e.cmd == Builtin(name) && name in env.builtins
    ensures !e.cmd.Function? && !e.rehash ==> Plain(env, name) == e.cmd
    ensures e.cmd.Normal? ==> !BuiltinFirst(env, name, false)
  {
    if !e.cmd.Function? {
      var cwd0 :| Plain(env.(cwd := cwd0), name) == e.cmd && (!e.rehash ==> cwd0 == env.cwd);
      SearchFound(env.(cwd := cwd0), env.path, name, 0);
      assert env.(cwd := env.cwd) == env;
    }
  }

  /** An entry that is not blocked is what a search gives. */
  lemma EntryResolves(env: Env, functions: map<string, int>, name: string, act: set<Act>, search: Option<Path>,
      cmd: Command)
    requires '/' !in name
            && (if cmd.Function? then name in functions && functions[name] == cmd.body else name !in functions)
    requires !cmd.Function? && !cmd.Unknown? ==> Plain(env, name) == cmd
    requires cmd.Builtin? ==> cmd == Builtin(name) && name in env.builtins
    requires match cmd
             case Function(_) => DO_NOFUNC !in act
             case Normal(_) => search.None? && DO_ALTPATH !in act && DO_REGBLTIN !in act
             case Builtin(_) => env.builtins[name] || DO_REGBLTIN !in act
             case Unknown => false
    ensures Resolve(env, functions, name, act, search) == cmd
  {
    hide Search, IsExecutable;
  }

  /** After a change of directory an entry that was marked says what was found before. */
  lemma MarkedEntry(env: Env, name: string, e: TblEntry, dir: string)
    requires EntryOk(env, name, e)
    ensures var mark := e.cmd.Normal?
            || (BuiltinLoc(env.path) > 0 && e.cmd.Builtin?
            && !(e.cmd.name in env.builtins && env.builtins[e.cmd.name]));
            EntryOk(env.(cwd := dir), name, if mark then e.(rehash := true) else e)
  {
    if !e.cmd.Function? {
      var cwd0 :| Plain(env.(cwd := cwd0), name) == e.cmd && (!e.rehash ==> cwd0 == env.cwd);
      SearchFound(env.(cwd := cwd0), env.path, name, 0);
      assert env.(cwd := dir).(cwd := cwd0) == env.(cwd := cwd0);
      if e.cmd.Builtin? && BuiltinFirst(env, name, false) {
        assert Plain(env.(cwd := dir).(cwd := dir), name) == e.cmd;
      }
    }
  }

  /** An entry that is left when PATH changes does not depend on PATH. */
  lemma KeptEntry(env: Env, name: string, e: TblEntry, path: Path)
    requires EntryOk(env, name, e) && !e.cmd.Normal?
    requires !(BuiltinLoc(path) > 0 && e.cmd.Builtin? && !(e.cmd.name in env.builtins && env.builtins[e.cmd.name]))
    ensures EntryOk(env.(path := path), name, e)
  {
    if !e.cmd.Function? {
      var cwd0 :| Plain(env.(cwd := cwd0), name) == e.cmd && (!e.rehash ==> cwd0 == env.cwd);
      SearchFound(env.(cwd := cwd0), env.path, name, 0);
      assert Plain(env.(path := path).(cwd := env.cwd), name) == e.cmd;
    }
  }

  lemma NoPrior(env: Env, name: string)
    ensures Prior(env, name, -1)
  {
  }

  lemma FreshEntry(env: Env, name: string, cmd: Command)
    requires '/' !in name && !cmd.Unknown? && !cmd.Function? && Plain(env, name) == cmd
    ensures EntryOk(env, name, TblEntry(cmd, false))
  {
    assert env.(cwd := env.cwd) == env;
  }

  lemma PriorAt(env: Env, name: string, prev: int, k: int)
    requires Prior(env, name, prev) && 0 <= k <= prev
    ensures k < |env.path|
    ensures env.path[k].Dir? && IsAbsolute(FullName(env.path[k].dir, name)) ==>
              (IsExecutable(env, FullName(env.path[k].dir, name)) <==> k == prev)
  {
  }

  /** An entry to be rehashed still tells about absolute names. */
  lemma RehashPrior(env: Env, name: string, e: TblEntry)
    requires EntryOk(env, name, e) && !e.cmd.Function? && !BuiltinFirst(env, name, false)
    ensures Prior(env, name, if e.cmd.Builtin? then BuiltinLoc(env.path) else e.cmd.index)
    ensures e.cmd.Normal? || (e.cmd == Builtin(name) && BuiltinLoc(env.path) > 0)
  {
    var cwd0 :| Plain(env.(cwd := cwd0), name) == e.cmd;
    SearchFound(env.(cwd := cwd0), env.path, name, 0);
    if e.cmd.Builtin? {
      var i :| 0 <= i < |env.path| && env.path[i] == BuiltinMark && Skipped(env.(cwd := cwd0), env.path, name, 0, i);
      assert i == BuiltinLoc(env.path);
    }
  }

  function FunctionsOf(table: map<string, TblEntry>): map<string, int> {
    map n | n in table && table[n].cmd.Function? :: table[n].cmd.body
  }

  /** An entry that is not a function is set, or only its mark. */
  lemma FunctionsKept(table: map<string, TblEntry>, name: string, cmd: Command)
    requires if name in table && table[name].cmd.Function? then table[name].cmd == cmd else !cmd.Function?
    ensures FunctionsOf(table[name := TblEntry(cmd, false)]) == FunctionsOf(table)
  {
  }

  lemma FunctionEntry(table: map<string, TblEntry>, name: string)
    ensures name in FunctionsOf(table) <==> name in table && table[name].cmd.Function?
    ensures name in FunctionsOf(table) ==> FunctionsOf(table)[name] == table[name].cmd.body
  {
  }

  lemma FunctionsWithout(table: map<string, TblEntry>, name: string)
    requires name in table && !table[name].cmd.Function?
    ensures FunctionsOf(table - {name}) == FunctionsOf(table)
  {
  }

  // ---------- what the table has besides functions ----------

  ghost function CachedOf(table: map<string, TblEntry>): map<string, Command> {
    map n | n in table && !table[n].cmd.Function? :: table[n].cmd
  }

  lemma CachedEntry(table: map<string, TblEntry>, name: string)
    ensures name in CachedOf(table) <==> name in table && !table[name].cmd.Function?
    ensures name in CachedOf(table) ==> CachedOf(table)[name] == table[name].cmd
    ensures name !in CachedOf(table) ==> CachedOf(table) - {name} == CachedOf(table)
  {
  }

  lemma CachedKept(table: map<string, TblEntry>, name: string, cmd: Command)
    requires name in table && table[name].cmd.Function? ==> table[name].cmd == cmd
    ensures CachedOf(table[name := TblEntry(cmd, false)])
            == if cmd.Function? then CachedOf(table) - {name} else CachedOf(table)[name := cmd]
    ensures name in table && table[name].cmd.Function? ==> CachedOf(table) - {name} == CachedOf(table)
    ensures name in table && table[name].cmd == cmd ==> CachedOf(table[name := TblEntry(cmd, false)]) == CachedOf(table)
  {
  }

  lemma SameCommands(table: map<string, TblEntry>, table': map<string, TblEntry>)
    requires table.Keys == table'.Keys && forall n :: n in table ==> table'[n].cmd == table[n].cmd
    ensures FunctionsOf(table') == FunctionsOf(table) && CachedOf(table') == CachedOf(table)
  {
  }

  lemma KnownEntries(env: Env, table: map<string, TblEntry>)
    requires forall n :: n in table ==> EntryOk(env, n, table[n])
    ensures forall n :: n in table ==> !table[n].cmd.Unknown?
  {
  }

  lemma CachedWithout(table: map<string, TblEntry>, name: string)
    requires name in table
    ensures CachedOf(table - {name}) == CachedOf(table) - {name}
  {
  }

  /** A lookup along PATH leaves what it found, or nothing if it searched in vain. */
  function CachedAfter(functions: map<string, int>, cached: map<string, Command>, name: string, act: set<Act>,
                       search: Option<Path>, entry: Command): map<string, Command>
  {
    if search.Some? || '/' in name || name in functions then cached
    else if entry.Builtin? || entry.Normal? then cached[name := entry]
    else if DO_REGBLTIN in act then cached
    else cached - {name}
  }

  predicate IsRegular(env: Env, name: string) {
    name in env.builtins && env.builtins[name]
  }

  /** What is left when PATH changes. */
  function CachedForPath(env: Env, cached: map<string, Command>): map<string, Command> {
    map n | n in cached && cached[n].Builtin?
        && (BuiltinLoc(env.path) <= 0 || IsRegular(env, cached[n].name)) :: cached[n]
  }

  lemma ClearedTable(env: Env, table: map<string, TblEntry>, table': map<string, TblEntry>)
    requires forall n :: n in table ==> !table[n].cmd.Unknown?
    requires forall n :: n in table' <==> n in table && !table[n].cmd.Normal?
                                          && !(BuiltinLoc(env.path) > 0 && table[n].cmd.Builtin?
                                              && !IsRegular(env, table[n].cmd.name))
    requires forall n :: n in table' ==> table'[n] == table[n]
    ensures FunctionsOf(table') == FunctionsOf(table)
    ensures CachedOf(table') == CachedForPath(env, CachedOf(table))
  {
    hide IsRegular, BuiltinLoc;
  }

  /** A lookup is refused because of what is in the table, though a search would find a built-in command. */
  predicate RefusedBy(env: Env, cached: map<string, Command>, name: string, act: set<Act>, search: Option<Path>) {
    && '/' !in name && DO_REGBLTIN in act && name in cached
    && name in env.builtins && !env.builtins[name] && BuiltinFirst(env, name, search.Some?)
  }

  lemma SlashResolves(env: Env, functions: map<string, int>, name: string, act: set<Act>, search: Option<Path>)
    requires '/' in name
    ensures Resolve(env, functions, name, act, search)
            == if DO_ABS in act && !IsExecutable(env, name) then Unknown else Normal(-1)
  {
  }

  lemma BuiltinPlain(env: Env, name: string)
    requires BuiltinFirst(env, name, false)
    ensures Plain(env, name) == Builtin(name)
  {
  }

  /** What a name is that is not found in the table. */
  lemma Unhelped(env: Env, functions: map<string, int>, name: string, act: set<Act>, search: Option<Path>)
    requires '/' !in name && (name in functions ==> DO_NOFUNC in act)
    ensures Resolve(env, functions, name, act, search) ==
              if BuiltinFirst(env, name, search.Some?) then Builtin(name)
              else if DO_REGBLTIN in act then Unknown
              else Search(env, if search.Some? then search.value else env.path, name, 0)
  {
  }

  class Commands {
    const absolute: set<string>
    const relative: set<(string, string)>
    const builtins: map<string, bool>
    var cmdtable: map<string, TblEntry>
    var builtinloc: int
    var path: Path
    var cwd: string
    var lastcmdentry: string

    constructor (absolute: set<string>, relative: set<(string, string)>, builtins: map<string, bool>, path: Path,
        cwd: string)
      ensures Valid() && Functions() == map[] && Cached() == map[]
              && Environment() == Env(path, cwd, absolute, relative, builtins)
    {
      this.absolute, this.relative, this.builtins := absolute, relative, builtins;
      this.path, this.cwd := path, cwd;
      cmdtable, builtinloc, lastcmdentry := map[], BuiltinLoc(path), "";
    }

    ghost function Environment(): Env
      reads this
    {
      Env(path, cwd, absolute, relative, builtins)
    }

    ghost predicate Valid()
      reads this
    {
      && builtinloc == BuiltinLoc(path)
      && (forall n :: n in cmdtable ==> EntryOk(Environment(), n, cmdtable[n]))
    }

    ghost function Functions(): map<string, int>
      reads this
    {
      FunctionsOf(cmdtable)
    }

    ghost function Cached(): map<string, Command>
      reads this
    {
      CachedOf(cmdtable)
    }

    ghost predicate Refused(name: string, act: set<Act>, search: Option<Path>)
      reads this
    {
      RefusedBy(Environment(), Cached(), name, act, search)
    }

    method CmdLookup(name: string, add: bool) returns (found: bool)
      modifies `cmdtable, `lastcmdentry
      ensures found == (name in old(cmdtable) || add) && lastcmdentry == name
      ensures cmdtable == if add && name !in old(cmdtable) then old(cmdtable)[name := TblEntry(Unknown, false)]
                          else old(cmdtable)
    {
      if add && name !in cmdtable {
        cmdtable := cmdtable[name := TblEntry(Unknown, false)];
      }
      lastcmdentry := name;
      found := name in cmdtable;
    }

    /** Deletes the entry of the last lookup. */
    method DeleteCmdEntry()
      requires lastcmdentry in cmdtable
      modifies `cmdtable
      ensures cmdtable == old(cmdtable) - {lastcmdentry}
    {
      cmdtable := cmdtable - {lastcmdentry};
    }

    /** What follows the label success of find_command; the entry is set up before it if cmd is given. */
    method Success(name: string, cmd: Option<Command>) returns (entry: Command)
      requires name in cmdtable || cmd.Some?
      modifies `cmdtable, `lastcmdentry
      ensures entry == if cmd.Some? then cmd.value else old(cmdtable)[name].cmd
      ensures cmdtable == old(cmdtable)[name := TblEntry(entry, false)]
    {
      if cmd.Some? {
        var found := CmdLookup(name, true);
        cmdtable := cmdtable[name := cmdtable[name].(cmd := cmd.value)];
      }
      cmdtable := cmdtable[name := cmdtable[name].(rehash := false)];
      entry := cmdtable[name].cmd;
    }

    /** What was found is put into the table. */
    method Remember(name: string, cmd: Command) returns (entry: Command)
      requires Valid() && '/' !in name && !cmd.Unknown? && !cmd.Function? && Plain(Environment(), name) == cmd
      requires name in cmdtable ==> !cmdtable[name].cmd.Function?
      modifies `cmdtable, `lastcmdentry
      ensures Valid() && Functions() == old(Functions()) && entry == cmd && Cached() == old(Cached())[name := cmd]
      ensures cmdtable == old(cmdtable)[name := TblEntry(cmd, false)]
    {
      hide EntryOk, FunctionsOf, CachedOf;
      CachedKept(cmdtable, name, cmd);
      FreshEntry(Environment(), name, cmd);
      FunctionsKept(cmdtable, name, cmd);
      entry := Success(name, Some(cmd));
    }

    /**
     * Finds a command, from the table if it can. The result is that of a search without a cache, unless the
     * lookup is refused.
     */
    method FindCommand(name: string, act0: set<Act>, search: Option<Path>) returns (entry: Command)
      requires Valid() && DO_ALTPATH !in act0
      modifies `cmdtable, `lastcmdentry
      ensures Valid() && Functions() == old(Functions())
      ensures old(Refused(name, act0, search)) ==> entry == Unknown
      ensures search.None? && '/' !in name && DO_NOFUNC !in act0 && (entry.Normal? || entry.Builtin?) ==>
                name in cmdtable && cmdtable[name] == TblEntry(entry, false)
      ensures entry == Resolve(Environment(), Functions(), name, act0, search) <==> !old(Refused(name, act0, search))
      ensures Cached() == CachedAfter(Functions(), old(Cached()), name, act0, search, entry)
    {
      hide EntryOk, Search, Plain, FullName, Prior, FunctionsOf, CachedOf, Resolve;
      ghost var env, functions := Environment(), Functions();
      FunctionEntry(cmdtable, name);
      CachedEntry(cmdtable, name);
      if '/' in name {
        SlashResolves(env, functions, name, act0, search);
        if DO_ABS in act0 && !CanExecute(name) {
          return Unknown;
        }
        return Normal(-1);
      }
      var updatetbl := search.None?;
      var act := if updatetbl then act0 else act0 + {DO_ALTPATH};
      var cmdp := CmdLookup(name, false);
      if cmdp {
        EntryFacts(env, name, cmdtable[name]);
        var e := cmdtable[name];
        var bit := Blocking(e.cmd);
        assert forall a :: a in act * bit <==> a in act && a in bit;
        if act * bit != {} {
          if DO_REGBLTIN in act * bit {
            Unhelped(env, functions, name, act0, search);
            return Unknown;
          }
          updatetbl, cmdp := false, false;
        } else if !e.rehash {
          assert forall a :: a in bit ==> a !in act by { assert forall a :: a in act && a in bit ==> a in act * bit; }
          FunctionsKept(cmdtable, name, e.cmd);
          CachedKept(cmdtable, name, e.cmd);
          EntryResolves(env, functions, name, act0, search, e.cmd);
          entry := Success(name, None);
          return;
        }
      }
      Unhelped(env, functions, name, act0, search);
      if name in builtins && (builtins[name] || DO_ALTPATH in act || builtinloc <= 0) {
        if !updatetbl {
          return Builtin(name);
        }
        BuiltinPlain(env, name);
        entry := Remember(name, Builtin(name));
        return;
      }
      if DO_REGBLTIN in act {
        return Unknown;
      }
      var prev := -1;
      if cmdp {
        RehashPrior(env, name, cmdtable[name]);
        prev := if cmdtable[name].cmd.Builtin? then builtinloc else cmdtable[name].cmd.index;
      } else {
        NoPrior(env, name);
      }
      entry := SearchPath(name, if search.Some? then search.value else path, prev, updatetbl, cmdp);
    }

    /** The flags for which an entry is of no use. */
    function Blocking(cmd: Command): set<Act> {
      match cmd
      case Normal(_) => {DO_ALTPATH, DO_REGBLTIN}
      case Function(_) => {DO_NOFUNC}
      case Builtin(n) => if n in builtins && builtins[n] then {} else {DO_REGBLTIN}
      case Unknown => {}
    }

    predicate CanExecute(fullname: string)
      reads this
    {
      if IsAbsolute(fullname) then fullname in absolute else (cwd, fullname) in relative
    }

    /** The search loop of find_command. In a rehash, absolute names before the remembered index are not tried again. */
    method SearchPath(name: string, p: Path, prev: int, updatetbl: bool, cmdp: bool) returns (entry: Command)
      requires Valid() && '/' !in name && !BuiltinFirst(Environment(), name, false)
      requires updatetbl ==> p == path && (name in cmdtable ==> cmdp && !cmdtable[name].cmd.Function?)
      requires cmdp ==> updatetbl && name in cmdtable
      requires prev >= 0 ==>
                 cmdp && prev == (if cmdtable[name].cmd.Builtin? then builtinloc else cmdtable[name].cmd.index)
      requires prev >= 0 ==> cmdtable[name].cmd.Normal? || cmdtable[name].cmd.Builtin?
      requires Prior(Environment(), name, prev) && lastcmdentry == name
      modifies `cmdtable, `lastcmdentry
      ensures Valid() && Functions() == old(Functions())
      ensures entry == Search(Environment(), p, name, 0) && !entry.Function?
      ensures updatetbl && !entry.Unknown? ==> name in cmdtable && cmdtable[name] == TblEntry(entry, false)
      ensures Cached() == if !updatetbl then old(Cached()) else if entry.Unknown? then old(Cached()) - {name}
                          else old(Cached())[name := entry]
    {
      hide EntryOk, FunctionsOf, CachedOf, Prior, BuiltinFirst;
      CachedEntry(cmdtable, name);
      ghost var env := Environment();
      var idx := -1;
      while idx + 1 < |p|
        invariant -1 <= idx < |p| && cmdtable == old(cmdtable) && lastcmdentry == name
        invariant Search(env, p, name, 0) == Search(env, p, name, idx + 1)
        decreases |p| - idx
      {
        idx := idx + 1;
        if p[idx].BuiltinMark? {
          if name in builtins {
            if !updatetbl {
              return Builtin(name);
            }
            entry := Remember(name, Builtin(name));
            return;
          }
          continue;
        }
        var fullname := FullName(p[idx].dir, name);
        if IsAbsolute(fullname) && idx <= prev {
          PriorAt(env, name, prev, idx);
          if idx < prev {
            continue;
          }
          FreshEntry(env, name, Normal(idx));
          FunctionsKept(cmdtable, name, Normal(idx));
          CachedKept(cmdtable, name, Normal(idx));
          entry := Success(name, None);
          return;
        }
        if !CanExecute(fullname) {
          continue;
        }
        if !updatetbl {
          return Normal(idx);
        }
        entry := Remember(name, Normal(idx));
        return;
      }
      if cmdp {
        FunctionsWithout(cmdtable, name);
        CachedWithout(cmdtable, name);
        DeleteCmdEntry();
      }
      return Unknown;
    }

    // ---------- changes ----------

    /** Called when the current directory changes. */
    method HashCd()
      modifies `cmdtable
      ensures cmdtable.Keys == old(cmdtable).Keys
      ensures forall n :: n in cmdtable ==>
                cmdtable[n] == if old(cmdtable)[n].cmd.Normal? || (builtinloc > 0 && NotRegular(old(cmdtable)[n].cmd))
                               then old(cmdtable)[n].(rehash := true) else old(cmdtable)[n]
    {
      cmdtable := map n | n in cmdtable ::
        if cmdtable[n].cmd.Normal? || (builtinloc > 0 && NotRegular(cmdtable[n].cmd))
        then cmdtable[n].(rehash := true) else cmdtable[n];
    }

    predicate NotRegular(cmd: Command) {
      cmd.Builtin? && !(cmd.name in builtins && builtins[cmd.name])
    }

    /** The cd command as far as the table is concerned. */
    method Cd(dir: string)
      requires Valid()
      modifies `cmdtable, `cwd
      ensures Valid() && Functions() == old(Functions()) && Cached() == old(Cached()) && cwd == dir
    {
      hide FunctionsOf, CachedOf;
      ghost var env := Environment();
      HashCd();
      SameCommands(old(cmdtable), cmdtable);
      cwd := dir;
      forall n | n in cmdtable
        ensures EntryOk(Environment(), n, cmdtable[n])
      {
        MarkedEntry(env, n, old(cmdtable)[n], dir);
      }
    }

    method ClearCmdEntry()
      modifies `cmdtable
      ensures cmdtable == map n | n in old(cmdtable)
                          && !(old(cmdtable)[n].cmd.Normal?
                              || (builtinloc > 0 && NotRegular(old(cmdtable)[n].cmd))) :: old(cmdtable)[n]
    {
      cmdtable := map n | n in cmdtable
          && !(cmdtable[n].cmd.Normal? || (builtinloc > 0 && NotRegular(cmdtable[n].cmd))) :: cmdtable[n];
    }

    /** A new value of PATH: where %builtin is is found before the table is cleared. */
    method ChangePath(newval: Path)
      requires Valid()
      modifies `cmdtable, `builtinloc, `path
      ensures Valid() && Functions() == old(Functions()) && path == newval
      ensures Cached() == CachedForPath(Environment(), old(Cached()))
    {
      hide FunctionsOf, CachedOf, CachedForPath, EntryOk;
      ghost var env := Environment();
      var idx, bltin := 0, -1;
      while idx < |newval|
        invariant idx <= |newval| && bltin == -1 && forall k :: 0 <= k < idx ==> newval[k].Dir?
      {
        if newval[idx].BuiltinMark? {
          bltin := idx;
          break;
        }
        idx := idx + 1;
      }
      builtinloc := bltin;
      ClearCmdEntry();
      path := newval;
      forall n | n in cmdtable
        ensures EntryOk(Environment(), n, cmdtable[n])
      {
        KeptEntry(env, n, cmdtable[n], newval);
      }
      assert forall n :: n in old(cmdtable) ==> !old(cmdtable)[n].cmd.Unknown? by { KnownEntries(env, old(cmdtable)); }
      ClearedTable(Environment(), old(cmdtable), cmdtable);
    }

    method Defun(name: string, body: int)
      requires Valid() && '/' !in name
      modifies `cmdtable, `lastcmdentry
      ensures Valid() && Functions() == old(Functions())[name := body] && Cached() == old(Cached()) - {name}
    {
      hide Search, Plain, IsExecutable;
      var found := CmdLookup(name, true);
      cmdtable := cmdtable[name := TblEntry(Function(body), false)];
    }

    method UnsetFunc(name: string)
      requires Valid()
      modifies `cmdtable, `lastcmdentry
      ensures Valid() && Functions() == old(Functions()) - {name} && Cached() == old(Cached())
    {
      hide Search, Plain, IsExecutable;
      var found := CmdLookup(name, false);
      if found && cmdtable[name].cmd.Function? {
        DeleteCmdEntry();
      }
    }
  }

  // ---------- any run ----------

  /**
   * What can happen: a lookup by itself; a simple command, which is looked up before and after its assignments;
   * and whatever changes what names mean.
   */
  datatype Event =
    | Lookup(name: string, act: set<Act>, search: Option<Path>)
    | Execute(name: string, nofunc: bool, newpath: Option<Path>, search: Option<Path>)
    | ChangeDir(dir: string)
    | SetPath(path: Path)
    | Define(name: string, body: int)
    | Undefine(name: string)

  predicate Allowed(e: Event) {
    match e
    case Lookup(_, act, _) => DO_ALTPATH !in act
    case Define(name, _) => '/' !in name
    case _ => true
  }

  /** What the names mean at a point of a run, and what the table has. */
  datatype State = State(env: Env, functions: map<string, int>, cached: map<string, Command>)

  function Found(s: State, name: string, act: set<Act>, search: Option<Path>): (r: (Command, State)) {
    var entry := if RefusedBy(s.env, s.cached, name, act, search) then Unknown
                 else Resolve(s.env, s.functions, name, act, search);
    (entry, s.(cached := CachedAfter(s.functions, s.cached, name, act, search, entry)))
  }

  function WithPath(s: State, path: Path): State {
    var env := s.env.(path := path);
    s.(env := env, cached := CachedForPath(env, s.cached))
  }

  function Flags(nofunc: bool): set<Act> {
    if nofunc then {DO_NOFUNC} else {}
  }

  /** The first lookup of a simple command asks only for regular built-in commands; if it finds one that is all. */
  function Located(s: State, name: string, nofunc: bool, newpath: Option<Path>, search: Option<Path>)
    : (Command, State)
  {
    var (first, s1) := Found(s, name, Flags(nofunc) + {DO_REGBLTIN}, None);
    var s2 := if newpath.Some? then WithPath(s1, newpath.value) else s1;
    if first.Builtin? && IsRegular(s.env, first.name) then (first, s2) else Found(s2, name, Flags(nofunc), search)
  }

  /** The table does not matter to what a simple command is, refused lookups or not. */
  lemma LocatedResolves(s: State, name: string, nofunc: bool, newpath: Option<Path>, search: Option<Path>)
    ensures var env := if newpath.Some? then s.env.(path := newpath.value) else s.env;
            Located(s, name, nofunc, newpath, search).0 == Resolve(env, s.functions, name, Flags(nofunc), search)
  {
    hide Search, BuiltinLoc;
    SearchFound(s.env, s.env.path, name, 0);
  }

  /** One event, and what a lookup in it finds. */
  function Step(s: State, e: Event): (Option<Command>, State) {
    match e
    case Lookup(name, act, search) =>
      var (entry, s1) := Found(s, name, act, search);
      (Some(entry), s1)
    case Execute(name, nofunc, newpath, search) =>
      var (entry, s1) := Located(s, name, nofunc, newpath, search);
      (Some(entry), s1)
    case ChangeDir(dir) => (None, s.(env := s.env.(cwd := dir)))
    case SetPath(path) => (None, WithPath(s, path))
    case Define(name, body) => (None, s.(functions := s.functions[name := body], cached := s.cached - {name}))
    case Undefine(name) => (None, s.(functions := s.functions - {name}))
  }

  function Answers(s: State, run: seq<Event>): seq<Command>
    decreases |run|
  {
    if run == [] then []
    else
      var (found, s1) := Step(s, run[0]);
      (if found.Some? then [found.value] else []) + Answers(s1, run[1..])
  }

  /** What the lookups find without a cache. */
  function Uncached(env: Env, functions: map<string, int>, run: seq<Event>): seq<Command>
    decreases |run|
  {
    if run == [] then []
    else match run[0]
         case Lookup(name, act, search) => [Resolve(env, functions, name, act, search)] + Uncached(env, functions,
             run[1..])
         case Execute(name, nofunc, newpath, search) =>
           var env' := if newpath.Some? then env.(path := newpath.value) else env;
           [Resolve(env', functions, name, Flags(nofunc), search)] + Uncached(env', functions, run[1..])
         case ChangeDir(dir) => Uncached(env.(cwd := dir), functions, run[1..])
         case SetPath(path) => Uncached(env.(path := path), functions, run[1..])
         case Define(name, body) => Uncached(env, functions[name := body], run[1..])
         case Undefine(name) => Uncached(env, functions - {name}, run[1..])
  }

  /** Whether a lookup by itself asks for regular built-in commands only, with a name that is not one of them. */
  predicate AsksRegular(env: Env, e: Event) {
    e.Lookup? && DO_REGBLTIN in e.act && !IsRegular(env, e.name)
  }

  /** Unless such a lookup is made by itself, every lookup finds what a search without a cache does. */
  lemma {:induction false} AnswersUncached(s: State, run: seq<Event>)
    requires forall i :: 0 <= i < |run| ==> !AsksRegular(s.env, run[i])
    ensures Answers(s, run) == Uncached(s.env, s.functions, run)
    decreases |run|
  {
    hide Resolve, CachedAfter, CachedForPath;
    if run != [] {
      var e := run[0];
      if e.Execute? {
        LocatedResolves(s, e.name, e.nofunc, e.newpath, e.search);
      }
      AnswersUncached(Step(s, e).1, run[1..]);
    }
  }

  /** The two lookups that a simple command makes (src/eval.c). */
  method Locate(c: Commands, name: string, nofunc: bool, newpath: Option<Path>, search: Option<Path>)
    returns (entry: Command)
    requires c.Valid()
    modifies c
    ensures c.Valid()
    ensures (entry, StateOf(c)) == Located(old(StateOf(c)), name, nofunc, newpath, search)
    ensures entry == Resolve(c.Environment(), c.Functions(), name, Flags(nofunc), search)
  {
    hide EntryOk, Resolve, FunctionsOf, CachedOf, CachedAfter, CachedForPath;
    LocatedResolves(StateOf(c), name, nofunc, newpath, search);
    entry := c.FindCommand(name, Flags(nofunc) + {DO_REGBLTIN}, None);
    if newpath.Some? {
      c.ChangePath(newpath.value);
    }
    if !(entry.Builtin? && entry.name in c.builtins && c.builtins[entry.name]) {
      entry := c.FindCommand(name, Flags(nofunc), search);
    }
  }

  ghost function StateOf(c: Commands): State
    reads c
  {
    State(c.Environment(), c.Functions(), c.Cached())
  }

  method Perform(c: Commands, e: Event) returns (found: Option<Command>)
    requires c.Valid() && Allowed(e)
    modifies c
    ensures c.Valid() && (found, StateOf(c)) == Step(old(StateOf(c)), e)
  {
    hide EntryOk, Resolve, FunctionsOf, CachedOf, CachedAfter, CachedForPath, Located;
    found := None;
    match e {
      case Lookup(name, act, search) =>
        var r := c.FindCommand(name, act, search);
        found := Some(r);
      case Execute(name, nofunc, newpath, search) =>
        var r := Locate(c, name, nofunc, newpath, search);
        found := Some(r);
      case ChangeDir(dir) =>
        c.Cd(dir);
      case SetPath(path) =>
        c.ChangePath(path);
      case Define(name, body) =>
        c.Defun(name, body);
      case Undefine(name) =>
        c.UnsetFunc(name);
    }
  }

  /** Whatever happens, what is found is told by what was in the table before. */
  method Replay(c: Commands, run: seq<Event>) returns (found: seq<Command>)
    requires c.Valid() && forall i :: 0 <= i < |run| ==> Allowed(run[i])
    modifies c
    ensures c.Valid() && found == Answers(old(StateOf(c)), run)
    ensures (forall i :: 0 <= i < |run| ==> !AsksRegular(old(c.Environment()), run[i])) ==>
              found == Uncached(old(c.Environment()), old(c.Functions()), run)
  {
    hide EntryOk, FunctionsOf, CachedOf, Step, Uncached;
    found := [];
    ghost var s := StateOf(c);
    var i := 0;
    assert run[0..] == run;
    while i < |run|
      invariant 0 <= i <= |run| && c.Valid()
      invariant found + Answers(StateOf(c), run[i..]) == Answers(s, run)
    {
      assert run[i..][0] == run[i] && run[i..][1..] == run[i + 1..];
      var r := Perform(c, run[i]);
      if r.Some? {
        found := found + [r.value];
      }
      i := i + 1;
    }
    if forall j :: 0 <= j < |run| ==> !AsksRegular(s.env, run[j]) {
      AnswersUncached(s, run);
      assert s.env == old(c.Environment()) && s.functions == old(c.Functions());
    }
  }

  /** echo is found, and then is not: with DO_REGBLTIN the entry is refused that a search would not need. */
  method EchoRefused() returns (first: Command, second: Command)
    ensures first == Builtin("echo") && second == Unknown
    ensures Resolve(Env([Dir("/bin")], "/", {}, {}, map["echo" := false]), map[], "echo", {DO_REGBLTIN}, None)
            == Builtin("echo")
  {
    hide EntryOk;
    var c := new Commands({}, {}, map["echo" := false], [Dir("/bin")], "/");
    assert BuiltinLoc([Dir("/bin")]) == -1;
    first := c.FindCommand("echo", {}, None);
    second := c.FindCommand("echo", {DO_REGBLTIN}, None);
  }
}
