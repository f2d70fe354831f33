/** Setting, unsetting and making local, in place (src/var.c). */
module VarMachine {
  import opened Option
  import opened CharClass
  import opened VarOwned
  import opened VarStore
  import opened VarTable
  import opened VarView
  import opened VarSteps

  /** All scopes' records, the oldest first. */
  function Flat(stack: seq<seq<Local>>): seq<Local>
    decreases |stack|
  {
    if stack == [] then [] else Flat(stack[..|stack| - 1]) + stack[|stack| - 1]
  }

  /** The text that setvar makes. */
  function SetText(name: string, val: Option<string>): string {
    NameOf(name) + if val.Some? then "=" + val.value else ""
  }

  function SetFlags(val: Option<string>, flags: Flags): Flags {
    flags + {VNOSAVE} + if val.None? then {VUNSET} else {}
  }

  class Vars {
    var vartab: Chains
    var entries: map<VarId, Entry>
    var texts: map<TextId, string>
    var localvar_stack: seq<seq<Local>>

    ghost var index: map<string, VarId>
    ghost var fixed: set<TextId>
    ghost var statics: set<VarId>
    /** Records being made or undone. */
    ghost var pending: seq<Local>

    constructor ()
      ensures Valid() && View() == map[] && Records() == [] && localvar_stack == [] && pending == [] && NoLeak({})
    {
      vartab := seq(VTABSIZE, i => []);
      entries, texts, localvar_stack := map[], map[], [];
      index, fixed, statics, pending := map[], {}, {}, [];
    }

    /** One of the built-in variables; its entry and its text are not on the heap (initvar). */
    method InitVar(text: string, flags: Flags)
      requires Valid() && IsText(text) && NameOf(text) !in View() && {VSTRFIXED, VTEXTFIXED} <= flags
              && VNOSAVE !in flags
      modifies `vartab, `entries, `texts, `index, `fixed, `statics
      ensures Valid() && Records() == old(Records())
      ensures View() == old(View())[NameOf(text) := Binding(flags, text)]
      ensures old(NoLeak({})) ==> NoLeak({})
    {
      hide Sound, TableOk, ViewOf, Saves, IsText, HashOf, NameOf, EndOfName, AllOwned;
      Looked(vartab, St(), NameOf(text));
      var t := SaveStr(text);
      var vp := Unused(entries, 0);
      var hashval := HashVal(text);
      var b := hashval % VTABSIZE;
      StaticAdded(vartab, old(St()), vp, b, flags, t, text);
      if old(NoLeak({})) {
        StaticOwned(old(St()), vp, flags, t, text, NameOf(text));
      }
      fixed, statics, index := fixed + {t}, statics + {vp}, index[NameOf(text) := vp];
      vartab := vartab[b := [vp] + vartab[b]];
      entries := entries[vp := Entry(flags, t)];
    }

    ghost function St(): Store
      reads this
    {
      Store(entries, texts, index, fixed, statics, Flat(localvar_stack) + pending)
    }

    ghost predicate Valid()
      reads this
    {
      Good(vartab, St())
    }

    /** Every text on the heap is owned, but for those of a caller. */
    ghost predicate NoLeak(spare: set<TextId>)
      reads this
    {
      AllOwned(St(), spare)
    }

    ghost function View(): View
      requires Valid()
      reads this
    {
      ViewOf(St())
    }

    ghost function Records(): (saves: seq<Saved>)
      requires Valid()
      reads this
      ensures |saves| == |Flat(localvar_stack) + pending|
    {
      Saves(St())
    }

    // ---------- memory ----------

    method CkFree(t: TextId)
      requires t in texts && t !in fixed
      modifies this`texts
      ensures texts == old(texts) - {t}
    {
      texts := texts - {t};
    }

    /** A new text; the address may be one that was freed. */
    method SaveStr(s: string) returns (t: TextId)
      modifies this`texts
      ensures t !in old(texts) && texts == old(texts)[t := s]
    {
      t := Unused(texts, 0);
      texts := texts[t := s];
    }

    // ---------- src/var.c ----------

    /** Whether a text may be passed to setvareq with these flags. */
    ghost predicate CanPass(s: TextId, flags: Flags)
      reads this
    {
      MayStore(St(), s, flags)
    }

    /** Sets name=value, or unsets a name. The variable's old text is freed if it was on the heap. */
    method SetVarEq(s: TextId, flags: Flags) returns (ok: bool, vp: VarId)
      requires Valid() && CanPass(s, flags)
      modifies `vartab, `entries, `texts, `index
      ensures Valid() && Records() == old(Records())
      ensures Assign(old(View()), old(texts[s]), flags) == if ok then Some(View()) else None
      ensures !ok ==> View() == old(View())
      ensures old(NoLeak({s})) ==> NoLeak(if VNOSAVE in flags then {} else {s})
      ensures ok && NameOf(old(texts[s])) !in old(index) && !PureUnset(flags) ==>
                vp !in old(entries) && vp in entries && index == old(index)[NameOf(old(texts[s])) := vp]
                    && entries[vp].flags == flags
    {
      hide Sound, TableOk, ViewOf, Saves, NameOf, IsText, HashOf, PureUnset, AllOwned;
      ghost var st := St();
      var b, k := FindVar(vartab, entries, texts, texts[s], St());
      Looked(vartab, st, NameOf(texts[s]));
      ok := true;
      if k < |vartab[b]| {
        vp := vartab[b][k];
        if VREADONLY in entries[vp].flags {
          if VNOSAVE in flags {
            TextFreed(vartab, st, s);
            FreeSpare(st, s);
            CkFree(s);
          }
          return false, vp;
        }
        if !PureUnset(flags) {
          Rewrite(vp, s, flags + (entries[vp].flags - {VTEXTFIXED, VSTACK, VNOSAVE, VUNSET}));
          return;
        }
        if VSTRFIXED in entries[vp].flags {
          Rewrite(vp, s, flags + {VSTRFIXED});
          return;
        }
        CanStore(vartab, st, vp, s, flags);
        Remove(b, k, {s});
      } else if !PureUnset(flags) {
        vp := Insert(b, s, flags);
        return;
      } else {
        vp := 0;
      }
      if Owns(flags) && VNOSAVE in flags {
        assert Unreferenced(St(), s);
        TextFreed(vartab, St(), s);
        FreeSpare(St(), s);
        CkFree(s);
      }
      UnsetOwns(st, s, flags);
    }

    /** Sets a variable, or unsets it if val is None; a bad name is an error. */
    method SetVar(name: string, val: Option<string>, flags: Flags) returns (ok: bool, vp: VarId)
      requires Valid() && Owns(flags) && (VUNSET in flags ==> val.None?)
      modifies `vartab, `entries, `texts, `index
      ensures Valid() && Records() == old(Records())
      ensures !ok ==> View() == old(View())
      ensures old(NoLeak({})) ==> NoLeak({})
      ensures !IsText(name) ==> !ok
      ensures IsText(name) ==>
                Assign(old(View()), SetText(name, val), SetFlags(val, flags)) == if ok then Some(View()) else None
      ensures ok && NameOf(name) !in old(index) && !PureUnset(SetFlags(val, flags)) ==>
                vp !in old(entries) && vp in entries && index == old(index)[NameOf(name) := vp]
                && entries[vp].flags == SetFlags(val, flags)
    {
      hide Sound, TableOk, ViewOf, Saves, IsText, HashOf, PureUnset, NameOf, EndOfName, AllOwned;
      vp := 0;
      if !IsText(name) {
        return false, vp;
      }
      SetTextName(name, val);
      var nameeq := NewText(SetText(name, val));
      ok, vp := SetVarEq(nameeq, SetFlags(val, flags));
    }

    method UnsetVar(name: string) returns (ok: bool)
      requires Valid() && IsText(name)
      modifies `vartab, `entries, `texts, `index
      ensures Valid() && Records() == old(Records())
      ensures Assign(old(View()), NameOf(name), {VUNSET, VNOSAVE}) == if ok then Some(View()) else None
      ensures !ok ==> View() == old(View())
      ensures old(NoLeak({})) ==> NoLeak({})
    {
      hide Sound, TableOk, ViewOf, Saves, IsText, HashOf, PureUnset, NameOf, EndOfName, Assign, AllOwned;
      assert SetText(name, None) == NameOf(name) && SetFlags(None, {}) == {VUNSET, VNOSAVE};
      var vp;
      ok, vp := SetVar(name, None, {});
    }

    /** The export and readonly commands, for one name. */
    method ExportCmd(name: string, val: Option<string>, flag: Flag) returns (ok: bool)
      requires Valid() && IsText(name) && flag in {VEXPORT, VREADONLY}
      modifies `vartab, `entries, `texts, `index
      ensures Valid() && Records() == old(Records())
      ensures !ok ==> View() == old(View())
      ensures old(NoLeak({})) ==> NoLeak({})
      ensures var n := NameOf(name);
              if val.None? && n in old(View()) then
                ok && View() == old(View())[n := old(View())[n].(flags := old(View())[n].flags + {flag})]
              else Assign(old(View()), SetText(name, val), SetFlags(val, {flag})) == if ok then Some(View()) else None
    {
      hide Sound, TableOk, ViewOf, Saves, IsText, HashOf, PureUnset, NameOf, EndOfName, Assign, AllOwned;
      if val.None? {
        var b, k := FindVar(vartab, entries, texts, name, St());
        Looked(vartab, St(), NameOf(name));
        if k < |vartab[b]| {
          var vp := vartab[b][k];
          FlagsAdded(vartab, St(), vp, flag);
          if NoLeak({}) {
            FlagsOwned(St(), vp, entries[vp].flags + {flag});
          }
          entries := entries[vp := entries[vp].(flags := entries[vp].flags + {flag})];
          return true;
        }
      }
      var vp;
      ok, vp := SetVar(name, val, {flag});
    }

    // ---------- local variables ----------

    /** A new scope. */
    method PushLocalVars() returns (stop: nat)
      requires Valid() && pending == []
      modifies `localvar_stack
      ensures Valid() && View() == old(View()) && Records() == old(Records())
      ensures stop == |old(localvar_stack)| && localvar_stack == old(localvar_stack) + [[]]
      ensures old(NoLeak({})) ==> NoLeak({})
    {
      hide Good, ViewOf, Saves, AllOwned;
      stop := |localvar_stack|;
      FlatPushed(localvar_stack, []);
      localvar_stack := localvar_stack + [[]];
      assert St() == old(St());
    }

    /**
     * Makes a variable local to the innermost scope and gives it a value if the argument has one. If that fails
     * because the variable is read only, no record is made, but the entry stays marked.
     */
    method MkLocal(name: string, flags: Flags) returns (ok: bool)
      requires Valid() && pending == [] && localvar_stack != []
      requires IsText(name) && flags <= {VEXPORT}
      modifies `vartab, `entries, `texts, `index, `fixed, `localvar_stack, `pending
      ensures Valid() && pending == [] && |localvar_stack| == |old(localvar_stack)|
      ensures localvar_stack[..|localvar_stack| - 1] == old(localvar_stack)[..|localvar_stack| - 1]
      ensures var n := NameOf(name);
              && (ok ==> Some(View()) == Localised(old(View()), name, flags))
              && (ok ==> Records() == old(Records()) + [Saved(n, Lookup(old(View()), n))])
              && (!ok ==> Localised(old(View()), name, flags) == None && Records() == old(Records()))
              && (!ok ==> n in old(View()) && View() == Marked(old(View()), n))
      ensures !ok <==> IsRefused(old(View()), name)
      ensures !ok ==> (View() == old(View()) <==> {VSTRFIXED, VTEXTFIXED} <= old(View())[NameOf(name)].flags)
      ensures old(NoLeak({})) ==> (NoLeak({}) <==> ok || !Owns(old(View())[NameOf(name)].flags))
    {
      hide Sound, TableOk, ViewOf, Saves, IsText, HashOf, PureUnset, NameOf, EndOfName, Localised, HasValue, AllOwned;
      LocalRefused(View(), name, flags);
      var b, k := FindVar(vartab, entries, texts, name, St());
      Looked(vartab, St(), NameOf(name));
      var lvp: Local;
      if k == |vartab[b]| {
        lvp := LocalNew(name, flags);
        ok := true;
      } else {
        ok, lvp := LocalExisting(vartab[b][k], name, flags);
        if !ok {
          return;
        }
      }
      Link(lvp);
    }

    /** The record is put into the innermost scope. */
    method Link(lvp: Local)
      requires Valid() && pending == [lvp] && localvar_stack != []
      modifies `localvar_stack, `pending
      ensures St() == old(St()) && pending == [] && |localvar_stack| == |old(localvar_stack)|
      ensures localvar_stack[..|localvar_stack| - 1] == old(localvar_stack)[..|localvar_stack| - 1]
    {
      hide Good, AllOwned;
      FlatLinked(localvar_stack, lvp);
      assert Flat(localvar_stack) + [lvp] == Flat(localvar_stack) + [lvp] + [];
      pending := [];
      var top := |localvar_stack| - 1;
      localvar_stack := localvar_stack[top := localvar_stack[top] + [lvp]];
    }

    /** The part of mklocal for a name without an entry: one is made, and its record says so. */
    method LocalNew(name: string, flags: Flags) returns (lvp: Local)
      requires Valid() && pending == [] && IsText(name) && flags <= {VEXPORT} && NameOf(name) !in View()
      modifies `vartab, `entries, `texts, `index, `fixed, `pending
      ensures Valid() && pending == [lvp]
      ensures old(NoLeak({})) ==> NoLeak({})
      ensures Some(View()) == Localised(old(View()), name, flags)
      ensures Records() == old(Records()) + [Saved(NameOf(name), None)]
    {
      hide Sound, TableOk, ViewOf, Saves, IsText, HashOf, PureUnset, NameOf, EndOfName, Localised, Assign,
          AllOwned;
      ghost var st := St();
      Looked(vartab, st, NameOf(name));
      LocalisedNew(View(), name, flags);
      var ok, vp;
      if HasValue(name) {
        var arg := StackText(name);
        Argument(vartab, St(), arg, {VSTRFIXED} + flags);
        FixedSpare(St(), arg);
        ok, vp := SetVarEq(arg, {VSTRFIXED} + flags);
        FixedSpare(St(), arg);
      } else {
        ok, vp := SetVar(name, None, {VSTRFIXED} + flags);
      }
      lvp := Local(vp, {VUNSET}, 0);
      NewEntryFacts(old(vartab), st, vp);
      Looked(vartab, St(), NameOf(name));
      MadeLocalNew(vartab, St(), vp, 0);
      NewRecordOwned(St(), lvp);
      assert St().locals + [lvp] == Flat(localvar_stack) + [lvp];
      pending := [lvp];
    }

    /** The part of mklocal for a name with an entry: its text and flags are saved, and kept from being freed. */
    method LocalExisting(vp: VarId, name: string, flags: Flags) returns (ok: bool, lvp: Local)
      requires Valid() && pending == [] && IsText(name) && flags <= {VEXPORT}
      requires vp in entries && NameOf(name) in index && index[NameOf(name)] == vp
      modifies `vartab, `entries, `texts, `index, `fixed, `pending
      ensures Valid() && pending == if ok then [lvp] else []
      ensures old(NoLeak({})) ==> (NoLeak({}) <==> ok || !Owns(old(entries[vp].flags)))
      ensures NameOf(name) in old(View())
      ensures Localised(old(View()), name, flags) == if ok then Some(View()) else None
      ensures !ok ==> View() == Marked(old(View()), NameOf(name))
      ensures Records() == if ok then old(Records()) + [Saved(NameOf(name), Some(old(View())[NameOf(name)]))]
              else old(Records())
    {
      hide Sound, TableOk, ViewOf, Saves, IsText, HashOf, PureUnset, NameOf, EndOfName, Assign, AllOwned;
      Looked(vartab, St(), NameOf(name));
      MadeLocal(vartab, St(), vp);
      PushSpare(vartab, St(), vp);
      ghost var st := St();
      lvp := Local(vp, entries[vp].flags, entries[vp].text);
      entries := entries[vp := Entry(entries[vp].flags + {VSTRFIXED, VTEXTFIXED}, entries[vp].text)];
      pending := [lvp];
      assert st.locals + [lvp] == St().locals && View() == Marked(old(View()), NameOf(name));
      ok := true;
      if HasValue(name) {
        var arg := StackText(name);
        Argument(vartab, St(), arg, flags);
        FixedSpare(St(), arg);
        var v;
        ok, v := SetVarEq(arg, flags);
        FixedSpare(St(), arg);
      }
      if !ok {
        RecordDropped(vartab, St());
        DropSpare(vartab, St(), NameOf(name));
        assert St().locals[..|St().locals| - 1] == Flat(localvar_stack);
        pending := [];
      }
    }

    /** Undoes the innermost scope's records, the newest first. */
    method PopLocalVars()
      requires Valid() && pending == [] && localvar_stack != []
      modifies this
      ensures Valid() && pending == [] && localvar_stack == old(localvar_stack)[..|old(localvar_stack)| - 1]
      ensures var k := |Flat(localvar_stack)|;
              && k <= |old(Records())| && Records() == old(Records())[..k]
              && View() == Undo(old(View()), old(Records())[k..])
      ensures old(NoLeak({})) ==> NoLeak({})
    {
      hide Sound, TableOk, ViewOf, Saves, IsText, HashOf, NameOf, EndOfName, Undo, AllOwned;
      var next := localvar_stack[|localvar_stack| - 1];
      assert Flat(localvar_stack) == Flat(localvar_stack[..|localvar_stack| - 1]) + next;
      localvar_stack := localvar_stack[..|localvar_stack| - 1];
      pending := next;
      assert St() == old(St());
      ghost var k, saves, view := |Flat(localvar_stack)|, Records(), View();
      assert saves[..k + |next|] == saves;
      while next != []
        invariant Valid() && pending == next && localvar_stack == old(localvar_stack)[..|old(localvar_stack)| - 1]
        invariant k + |next| <= |saves| && Records() == saves[..k + |next|]
        invariant Undo(View(), Records()[k..]) == Undo(view, saves[k..])
        invariant old(NoLeak({})) ==> NoLeak({})
        decreases |next|
      {
        UndoLast(View(), Records(), k);
        var lvp := next[|next| - 1];
        next := next[..|next| - 1];
        if lvp.flags == {VUNSET} {
          PopNew(lvp);
        } else {
          PopOld(lvp);
        }
      }
      UndoNothing(View(), Records()[k..]);
    }

    /** The part of poplocalvars for a record of an entry that was made for it. */
    method PopNew(lvp: Local)
      requires Valid() && pending != [] && lvp == pending[|pending| - 1] && IsNew(lvp)
      modifies `vartab, `entries, `texts, `index, `pending
      ensures Valid() && pending == old(pending)[..|old(pending)| - 1]
      ensures var k := |old(Records())| - 1;
              Records() == old(Records())[..k] && View() == Restore(old(View()), old(Records())[k])
      ensures old(NoLeak({})) ==> NoLeak({})
    {
      hide Sound, TableOk, ViewOf, Saves, IsText, HashOf, NameOf, EndOfName, AllOwned;
      LetGo(vartab, St());
      LetGoSpare(vartab, St());
      OwnedText(vartab, St(), lvp.vp);
      var e := entries[lvp.vp];
      ghost var n := NameOf(texts[e.text]);
      assert St().locals[..|St().locals| - 1] == Flat(localvar_stack) + pending[..|pending| - 1];
      entries := entries[lvp.vp := e.(flags := e.flags - {VSTRFIXED, VREADONLY})];
      pending := pending[..|pending| - 1];
      ghost var view := View();
      SetTextName(texts[e.text], None);
      assert SetText(texts[e.text], None) == n;
      UnsetRemoves(view, n);
      var ok := UnsetVar(texts[e.text]);
    }

    /** The part of poplocalvars for a record of an entry that was there. */
    method PopOld(lvp: Local)
      requires Valid() && pending != [] && lvp == pending[|pending| - 1] && !IsNew(lvp)
      modifies `entries, `texts, `pending
      ensures Valid() && pending == old(pending)[..|old(pending)| - 1]
      ensures var k := |old(Records())| - 1;
              Records() == old(Records())[..k] && View() == Restore(old(View()), old(Records())[k])
      ensures old(NoLeak({})) ==> NoLeak({})
    {
      hide Sound, TableOk, ViewOf, Saves, IsText, HashOf, NameOf, EndOfName, Restore, AllOwned;
      PutBack(vartab, St());
      LocalEntry(vartab, St());
      if NoLeak({}) {
        PopOwned(St());
      }
      OwnedText(vartab, St(), lvp.vp);
      assert St().locals[..|St().locals| - 1] == Flat(localvar_stack) + pending[..|pending| - 1];
      ghost var e := entries[lvp.vp];
      if Owns(entries[lvp.vp].flags) {
        CkFree(entries[lvp.vp].text);
      }
      assert texts == old(texts) - Freed(e);
      entries := entries[lvp.vp := Entry(lvp.flags, lvp.text)];
      pending := pending[..|pending| - 1];
    }

    /** Undoes scopes until those below stop are left. */
    method UnwindLocalVars(stop: nat)
      requires Valid() && pending == [] && stop <= |localvar_stack|
      modifies this
      ensures Valid() && pending == [] && localvar_stack == old(localvar_stack)[..stop]
      ensures var k := |Flat(localvar_stack)|;
              && k <= |old(Records())| && Records() == old(Records())[..k]
              && View() == Undo(old(View()), old(Records())[k..])
      ensures old(NoLeak({})) ==> NoLeak({})
    {
      hide Good, ViewOf, Saves, Undo, AllOwned;
      ghost var saves, view := Records(), View();
      UndoNothing(view, []);
      assert saves[|Flat(localvar_stack)|..] == [] && saves[..|saves|] == saves;
      while |localvar_stack| != stop
        invariant Valid() && pending == [] && stop <= |localvar_stack| <= |old(localvar_stack)|
        invariant localvar_stack == old(localvar_stack)[..|localvar_stack|]
        invariant var k := |Flat(localvar_stack)|;
                  k <= |saves| && Records() == saves[..k] && View() == Undo(view, saves[k..])
        invariant old(NoLeak({})) ==> NoLeak({})
        decreases |localvar_stack|
      {
        ghost var k := |Flat(localvar_stack)|;
        PopLocalVars();
        UndoSplit(view, saves, |Flat(localvar_stack)|, k);
      }
    }

    /** A text that nothing refers to yet. */
    method NewText(s: string) returns (t: TextId)
      requires Valid()
      modifies `texts
      ensures Valid() && View() == old(View()) && Records() == old(Records())
      ensures t !in old(texts) && texts == old(texts)[t := s] && t !in fixed && Unreferenced(St(), t)
      ensures old(NoLeak({})) ==> NoLeak({t})
    {
      hide Good, ViewOf, Saves, Unreferenced, AllOwned;
      t := SaveStr(s);
      TextAdded(vartab, old(St()), t, s);
      if old(NoLeak({})) {
        NewSpare(old(St()), t, s);
      }
    }

    /** An argument of a command, which is not on the heap. */
    method StackText(s: string) returns (t: TextId)
      requires Valid()
      modifies `texts, `fixed
      ensures Valid() && View() == old(View()) && Records() == old(Records())
      ensures t !in old(texts) && texts == old(texts)[t := s] && fixed == old(fixed) + {t}
      ensures old(NoLeak({})) ==> NoLeak({})
    {
      hide Good, ViewOf, Saves, AllOwned;
      t := SaveStr(s);
      TextOnStack(vartab, old(St()), t, s);
      if old(NoLeak({})) {
        NewSpare(old(St()), t, s);
      }
      fixed := fixed + {t};
    }

    /** What text s is stored as: itself, or a copy if the caller keeps it. */
    method Stored(s: TextId, flags: Flags) returns (t: TextId)
      requires s in texts
      modifies `texts
      ensures if Owns(flags) && VNOSAVE !in flags then t !in old(texts) && texts == old(texts)[t := old(texts)[s]]
              else t == s && texts == old(texts)
    {
      t := s;
      if VTEXTFIXED !in flags && VSTACK !in flags && VNOSAVE !in flags {
        t := SaveStr(texts[s]);
      }
    }

    /** The entry gets the text and the flags; its own text is freed if it was on the heap. */
    method Rewrite(vp: VarId, s: TextId, flags: Flags)
      requires Valid() && vp in entries && CanPass(s, flags) && NameOf(texts[s]) == NameOf(texts[entries[vp].text])
      requires VSTRFIXED in entries[vp].flags ==> VSTRFIXED in flags
      requires VREADONLY !in entries[vp].flags
      modifies `entries, `texts
      ensures Valid() && Records() == old(Records())
      ensures View() == old(View())[NameOf(old(texts[s])) := Binding(flags, old(texts[s]))]
      ensures old(NoLeak({s})) ==> NoLeak(if VNOSAVE in flags then {} else {s})
    {
      hide Sound, Good, ViewOf, Saves, NameOf, IsText, AllOwned;
      CanStore(vartab, St(), vp, s, flags);
      if Owns(entries[vp].flags) {
        CkFree(entries[vp].text);
      }
      var t := Stored(s, flags);
      RewriteOk(vartab, old(St()), vp, s, flags, t, texts);
      EntryReplaced(vartab, old(St()), vp, flags, t, texts);
      RewriteSpare(vartab, old(St()), vp, s, flags, t, texts);
      entries := entries[vp := Entry(flags, t)];
    }

    /** The entry is freed with its text. */
    method Remove(b: nat, k: nat, ghost spare: set<TextId>)
      requires Valid() && b < VTABSIZE && |vartab| == VTABSIZE && k < |vartab[b]| && vartab[b][k] in entries
      requires VSTRFIXED !in entries[vartab[b][k]].flags
      modifies `vartab, `entries, `texts, `index
      ensures Valid() && Records() == old(Records())
      ensures View() == old(View()) - {NameOf(old(texts[entries[vartab[b][k]].text]))}
      ensures texts == old(texts) - Freed(old(entries[vartab[b][k]]))
      ensures entries == old(entries) - {old(vartab[b][k])}
      ensures old(NoLeak(spare)) ==> NoLeak(spare)
    {
      hide Sound, Good, ViewOf, Saves, NameOf, IsText, AllOwned;
      var vp := vartab[b][k];
      OwnedText(vartab, St(), vp);
      EntryRemoved(vartab, St(), vp, b, k);
      if NoLeak(spare) {
        RemoveOwned(St(), vp, NameOf(texts[entries[vp].text]), spare);
      }
      index := index - {NameOf(texts[entries[vp].text])};
      if Owns(entries[vp].flags) {
        CkFree(entries[vp].text);
      }
      assert texts == old(texts) - Freed(entries[vp]);
      vartab := vartab[b := vartab[b][..k] + vartab[b][k + 1..]];
      entries := entries - {vp};
    }

    /** A new entry at the end of its chain. */
    method Insert(b: nat, s: TextId, flags: Flags) returns (vp: VarId)
      requires Valid() && CanPass(s, flags) && NameOf(texts[s]) !in index && NameOf(texts[s]) != ""
      requires |vartab| == VTABSIZE && b == HashOf(NameOf(texts[s])) % VTABSIZE
      modifies `vartab, `entries, `texts, `index
      ensures Valid() && Records() == old(Records())
      ensures View() == old(View())[NameOf(old(texts[s])) := Binding(flags, old(texts[s]))]
      ensures vp !in old(entries) && vp in entries && index == old(index)[NameOf(old(texts[s])) := vp]
      ensures entries[vp].flags == flags
      ensures old(NoLeak({s})) ==> NoLeak(if VNOSAVE in flags then {} else {s})
    {
      hide Sound, Good, ViewOf, Saves, NameOf, IsText, HashOf, AllOwned;
      vp := Unused(entries, 0);
      var t := Stored(s, flags);
      InsertOk(vartab, old(St()), vp, s, flags, t, texts);
      EntryInserted(vartab, old(St()), vp, b, flags, t, texts);
      InsertSpare(vartab, old(St()), vp, s, flags, t, texts, NameOf(texts[t]));
      index := index[NameOf(texts[t]) := vp];
      vartab := vartab[b := vartab[b] + [vp]];
      entries := entries[vp := Entry(flags, t)];
    }
  }

  /** The text of an entry is live, and on the heap if the entry owns it. */
  lemma OwnedText(tab: Chains, st: Store, vp: VarId)
    requires Good(tab, st) && vp in st.entries
    ensures st.entries[vp].text in st.texts && (Owns(st.entries[vp].flags) ==> st.entries[vp].text !in st.fixed)
    ensures IsText(st.texts[st.entries[vp].text])
  {
    hide IsText, NameOf, HashOf;
  }

  /** A text may be stored: it is fixed, or nothing refers to it, or it is going to be copied. */
  ghost predicate MayStore(st: Store, s: TextId, flags: Flags) {
    && s in st.texts && IsText(st.texts[s]) && (VUNSET in flags ==> VNOSAVE in flags)
    && if !Owns(flags) then s in st.fixed && VNOSAVE !in flags
       else if VNOSAVE in flags then s !in st.fixed && Unreferenced(st, s)
       else forall vp :: vp in st.entries && st.entries[vp].text == s ==> !Owns(st.entries[vp].flags)
  }

  /** Whether an argument of local has a value. */
  predicate HasValue(name: string) {
    '=' in name
  }

  /** A variable as it is once it has a record. */
  function Marked(view: View, n: string): View {
    if n in view then view[n := view[n].(flags := view[n].flags + {VSTRFIXED, VTEXTFIXED})] else view
  }

  /** The variables after a name was made local, with a value if the argument has one. */
  function Localised(view: View, name: string, flags: Flags): Option<View> {
    var n := NameOf(name);
    if n in view then if HasValue(name) then Assign(Marked(view, n), name, flags) else Some(Marked(view, n))
    else if HasValue(name) then Some(view[n := Binding({VSTRFIXED} + flags, name)])
    else Some(view[n := Binding({VSTRFIXED, VUNSET, VNOSAVE} + flags, n)])
  }

  /** A value for a variable that is read only. */
  predicate IsRefused(view: View, name: string) {
    var n := NameOf(name);
    n in view && HasValue(name) && VREADONLY in view[n].flags
  }

  /** Only that fails, and then nothing is changed if and only if both marks were there. */
  lemma LocalRefused(view: View, name: string, flags: Flags)
    ensures Localised(view, name, flags) == None <==> IsRefused(view, name)
    ensures var n := NameOf(name); n in view ==>
              (Marked(view, n) == view <==> {VSTRFIXED, VTEXTFIXED} <= view[n].flags)
  {
    hide EndOfName, PureUnset, HasValue;
    var n := NameOf(name);
    if n in view {
      assert Marked(view, n)[n].flags == view[n].flags + {VSTRFIXED, VTEXTFIXED};
      if {VSTRFIXED, VTEXTFIXED} <= view[n].flags {
        assert view[n].flags + {VSTRFIXED, VTEXTFIXED} == view[n].flags;
      }
    }
  }

  /** An instance: `local x=2` for a read only x that is neither built in nor local. */
  lemma ReadonlyMarked()
    ensures var view := map["x" := Binding({VREADONLY}, "x=1")];
            && Localised(view, "x=2", {}) == None
            && Marked(view, "x") == map["x" := Binding({VREADONLY, VSTRFIXED, VTEXTFIXED}, "x=1")] != view
  {
    var view := map["x" := Binding({VREADONLY}, "x=1")];
    XIsName();
    LocalRefused(view, "x=2", {});
    assert {VREADONLY} + {VSTRFIXED, VTEXTFIXED} == {VREADONLY, VSTRFIXED, VTEXTFIXED};
    assert Marked(view, "x")["x"] != view["x"];
  }

  lemma XIsName()
    ensures NameOf("x=2") == "x" && HasValue("x=2")
  {
    assert "x=2"[1..] == "=2";
    assert NameLength("=2") == 0;
    assert NameLength("x=2") == 1;
    assert "x=2"[..1] == "x";
  }

  /** Where there is no entry, one is made. */
  lemma LocalisedNew(view: View, name: string, flags: Flags)
    requires IsText(name) && NameOf(name) !in view && flags <= {VEXPORT}
    ensures !PureUnset({VSTRFIXED} + flags) && !PureUnset(SetFlags(None, {VSTRFIXED} + flags))
    ensures HasValue(name) ==> Localised(view, name, flags) == Assign(view, name, {VSTRFIXED} + flags)
    ensures !HasValue(name) ==>
              Localised(view, name, flags) == Assign(view, SetText(name, None), SetFlags(None, {VSTRFIXED} + flags))
    ensures Localised(view, name, flags).Some?
  {
    hide EndOfName;
    SetTextName(name, None);
    assert VSTRFIXED in ({VSTRFIXED} + flags) * {VEXPORT, VREADONLY, VSTRFIXED, VUNSET};
    assert VSTRFIXED in SetFlags(None, {VSTRFIXED} + flags) * {VEXPORT, VREADONLY, VSTRFIXED, VUNSET};
    assert SetFlags(None, {VSTRFIXED} + flags) == {VSTRFIXED, VUNSET, VNOSAVE} + flags;
    assert SetText(name, None) == NameOf(name);
  }

  /** A new entry has no records yet. */
  lemma NewEntryFacts(tab: Chains, st: Store, vp: VarId)
    requires Good(tab, st) && vp !in st.entries
    ensures vp !in st.statics && forall i :: 0 <= i < |st.locals| ==> st.locals[i].vp != vp
  {
    hide IsText, NameOf, HashOf;
  }

  /** The text of an argument is not an entry's own. */
  lemma Argument(tab: Chains, st: Store, t: TextId, flags: Flags)
    requires Good(tab, st) && t in st.texts && IsText(st.texts[t]) && t in st.fixed
    requires Owns(flags) && VUNSET !in flags && VNOSAVE !in flags
    ensures MayStore(st, t, flags)
  {
    hide IsText, NameOf, HashOf;
  }

  /** The entry of the last record. */
  lemma LocalEntry(tab: Chains, st: Store)
    requires Good(tab, st) && st.locals != []
    ensures st.locals[|st.locals| - 1].vp in st.entries
  {
    hide IsText, NameOf, HashOf;
  }

  /** An unset that is neither kept nor refused. */
  lemma UnsetRemoves(view: View, n: string)
    requires n in view && NameOf(n) == n && VREADONLY !in view[n].flags && VSTRFIXED !in view[n].flags
    ensures Assign(view, n, {VUNSET, VNOSAVE}) == Some(view - {n})
  {
    assert {VUNSET, VNOSAVE} * {VEXPORT, VREADONLY, VSTRFIXED, VUNSET} == {VUNSET};
  }

  lemma UndoNothing(view: View, saves: seq<Saved>)
    ensures saves == [] ==> Undo(view, saves) == view
  {
  }

  lemma UndoLast(view: View, saves: seq<Saved>, k: nat)
    requires k < |saves|
    ensures var n := |saves| - 1;
            Undo(view, saves[k..]) == Undo(Restore(view, saves[n]), saves[..n][k..])
  {
    var n := |saves| - 1;
    assert saves[k..][..|saves[k..]| - 1] == saves[..n][k..];
  }

  /** Undoing the records from j on is undoing those from k on, and then those in between. */
  lemma {:induction false} UndoSplit(view: View, saves: seq<Saved>, j: nat, k: nat)
    requires j <= k <= |saves|
    ensures Undo(view, saves[j..]) == Undo(Undo(view, saves[k..]), saves[..k][j..])
    decreases |saves|
  {
    if k == |saves| {
      assert saves[..k] == saves;
    } else {
      var n := |saves| - 1;
      UndoLast(view, saves, j);
      UndoLast(view, saves, k);
      UndoSplit(Restore(view, saves[n]), saves[..n], j, k);
      assert saves[..n][..k] == saves[..k];
    }
  }

  lemma DroppedSound(st: Store)
    requires Sound(st) && st.locals != []
    ensures Sound(st.(locals := st.locals[..|st.locals| - 1]))
  {
    hide IsText, NameOf, Owns;
  }

  /** A static entry with a static text, put at the front of its chain. */
  lemma StaticAdded(tab: Chains, st: Store, vp: VarId, b: nat, flags: Flags, t: TextId, text: string)
    requires Good(tab, st) && vp !in st.entries && t !in st.texts
    requires IsText(text) && NameOf(text) !in st.index && NameOf(text) != "" && b == HashOf(NameOf(text)) % VTABSIZE
    requires {VSTRFIXED, VTEXTFIXED} <= flags && |tab| == VTABSIZE
    ensures var st' := Store(st.entries[vp := Entry(flags, t)], st.texts[t := text], st.index[NameOf(text) := vp],
                             st.fixed + {t}, st.statics + {vp}, st.locals);
            && Good(tab[b := [vp] + tab[b]], st') && Saves(st') == Saves(st)
            && ViewOf(st') == ViewOf(st)[NameOf(text) := Binding(flags, text)]
  {
    hide IsText, NameOf, HashOf, Owns, LocalOwns;
    var st' := Store(st.entries[vp := Entry(flags, t)], st.texts[t := text], st.index[NameOf(text) := vp],
                     st.fixed + {t}, st.statics + {vp}, st.locals);
    StaticInserted(st, vp, flags, t, text);
    TablePrepended(tab, st, st', vp, b);
    SavesSame(st, st');
    ViewUpdated(st, st', vp);
  }

  /** A record can be forgotten. */
  lemma RecordDropped(tab: Chains, st: Store)
    requires Good(tab, st) && st.locals != []
    ensures var st' := st.(locals := st.locals[..|st.locals| - 1]);
            Good(tab, st') && ViewOf(st') == ViewOf(st) && Saves(st') == Saves(st)[..|st.locals| - 1]
  {
    hide IsText, NameOf, HashOf, Owns, EntryOwns, LocalOwns;
    var st' := st.(locals := st.locals[..|st.locals| - 1]);
    DroppedSound(st);
    TableKept(tab, st, st');
    assert forall n :: n in st.index ==> BindingOf(st', st.index[n]) == BindingOf(st, st.index[n]);
    SavesKept(st, st', |st.locals| - 1);
    assert Saves(st')[..|st.locals| - 1] == Saves(st');
  }

  lemma FlatLinked(stack: seq<seq<Local>>, l: Local)
    requires stack != []
    ensures Flat(stack[|stack| - 1 := stack[|stack| - 1] + [l]]) == Flat(stack) + [l]
  {
    var k := |stack| - 1;
    assert stack[k := stack[k] + [l]][..k] == stack[..k];
  }

  lemma FlatPushed(stack: seq<seq<Local>>, top: seq<Local>)
    ensures Flat(stack + [top]) == Flat(stack) + top
  {
    assert (stack + [top])[..|stack|] == stack;
  }

  lemma SetTextName(name: string, val: Option<string>)
    requires IsText(name)
    ensures IsText(SetText(name, val)) && NameOf(SetText(name, val)) == NameOf(name)
  {
    var n, rest := NameOf(name), if val.Some? then "=" + val.value else "";
    EndOfNameAppend(name, rest);
  }

  lemma EndOfNameAppend(name: string, rest: string)
    requires IsText(name) && (rest == "" || !IsInName(rest[0]))
    ensures EndOfName(NameOf(name) + rest) == EndOfName(name)
  {
    NameLengthPrefix(name);
    NameLengthAppend(NameOf(name), rest);
  }

  /** Flags that make an entry neither owner nor unset can be added in place. */
  lemma FlagsAdded(tab: Chains, st: Store, vp: VarId, flag: Flag)
    requires Good(tab, st) && vp in st.entries && flag in {VEXPORT, VREADONLY}
    ensures var e := st.entries[vp];
            var n := NameOf(st.texts[e.text]);
            var st' := st.(entries := st.entries[vp := e.(flags := e.flags + {flag})]);
            && Good(tab, st') && Saves(st') == Saves(st) && n in ViewOf(st)
            && ViewOf(st') == ViewOf(st)[n := ViewOf(st)[n].(flags := e.flags + {flag})]
            && ViewOf(st)[n].flags == e.flags
  {
    hide IsText, NameOf, HashOf;
    var e := st.entries[vp];
    Looked(tab, st, NameOf(st.texts[e.text]));
    FlagsReplaced(tab, st, vp, e.flags + {flag});
    assert ViewOf(st)[NameOf(st.texts[e.text])] == BindingOf(st, vp);
  }

  /** What the index says of a name is what the view says. */
  lemma Looked(tab: Chains, st: Store, n: string)
    requires Good(tab, st)
    ensures |tab| == VTABSIZE
    ensures n in st.index <==> n in ViewOf(st)
    ensures n in st.index ==>
              && st.index[n] in st.entries && NameOf(st.texts[st.entries[st.index[n]].text]) == n
              && ViewOf(st)[n] == Binding(st.entries[st.index[n]].flags, st.texts[st.entries[st.index[n]].text])
  {
    hide IsText, NameOf, HashOf, LocalsOk, EntryOwns, LocalOwns;
  }

  /** Freeing the entry's text does not free the one to be stored. */
  lemma CanStore(tab: Chains, st: Store, vp: VarId, s: TextId, flags: Flags)
    requires Good(tab, st) && vp in st.entries && MayStore(st, s, flags)
    ensures s !in Freed(st.entries[vp]) && st.entries[vp].text in st.texts
    ensures Owns(st.entries[vp].flags) ==> st.entries[vp].text !in st.fixed
  {
    hide IsText, NameOf, HashOf;
  }

  /** What is stored is as EntryReplaced requires. */
  lemma RewriteOk(tab: Chains, st: Store, vp: VarId, s: TextId, flags: Flags, t: TextId, texts: map<TextId, string>)
    requires Good(tab, st) && vp in st.entries && MayStore(st, s, flags)
    requires VSTRFIXED in st.entries[vp].flags ==> VSTRFIXED in flags
    requires var left := st.texts - Freed(st.entries[vp]);
             if Owns(flags) && VNOSAVE !in flags then t !in left && s in left && texts == left[t := left[s]]
             else t == s && texts == left
    ensures TextsKept(st.texts, Freed(st.entries[vp]), texts)
    ensures s !in Freed(st.entries[vp]) && t in texts && texts[t] == st.texts[s]
    ensures FlagsOk(st.statics, vp, flags)
    ensures if Owns(flags) then t !in st.fixed && (Unreferenced(st, t) || t in Freed(st.entries[vp])) else t in st.fixed
  {
    hide IsText, NameOf, HashOf;
  }

  /** What is stored is as EntryInserted requires. */
  lemma InsertOk(tab: Chains, st: Store, vp: VarId, s: TextId, flags: Flags, t: TextId, texts: map<TextId, string>)
    requires Good(tab, st) && vp !in st.entries && MayStore(st, s, flags)
    requires if Owns(flags) && VNOSAVE !in flags then t !in st.texts && texts == st.texts[t := st.texts[s]]
             else t == s && texts == st.texts
    ensures TextsKept(st.texts, {}, texts) && t in texts && texts[t] == st.texts[s] && FlagsOk(st.statics, vp, flags)
    ensures if Owns(flags) then t !in st.fixed && Unreferenced(st, t) else t in st.fixed
  {
    hide IsText, NameOf, HashOf;
  }

  // ---------- no text is lost ----------

  lemma FreeSpare(st: Store, s: TextId)
    ensures AllOwned(st, {s}) ==> AllOwned(st.(texts := st.texts - {s}), {})
  {
    hide AllOwned;
    if AllOwned(st, {s}) {
      SpareFreed(st, s);
    }
  }

  /** A text that is only passed to unset a variable is the callee's. */
  lemma UnsetOwns(st: Store, s: TextId, flags: Flags)
    requires MayStore(st, s, flags)
    ensures PureUnset(flags) ==> Owns(flags) && VNOSAVE in flags
  {
    if PureUnset(flags) {
      assert VUNSET in flags * {VEXPORT, VREADONLY, VSTRFIXED, VUNSET};
    }
  }

  lemma RewriteSpare(tab: Chains, st: Store, vp: VarId, s: TextId, flags: Flags, t: TextId, texts: map<TextId, string>)
    requires Good(tab, st) && vp in st.entries && MayStore(st, s, flags)
    requires var left := st.texts - Freed(st.entries[vp]);
             if Owns(flags) && VNOSAVE !in flags then t !in left && s in left && texts == left[t := left[s]]
             else t == s && texts == left
    ensures AllOwned(st, {s}) ==>
              AllOwned(st.(entries := st.entries[vp := Entry(flags, t)], texts := texts),
                       if VNOSAVE in flags then {} else {s})
  {
    hide AllOwned, IsText, NameOf, HashOf, TableOk;
    if AllOwned(st, {s}) {
      CanStore(tab, st, vp, s, flags);
      RewriteOwned(st, vp, flags, t, texts, {s});
      var st' := st.(entries := st.entries[vp := Entry(flags, t)], texts := texts);
      MoreSpare(st', {s} - {t}, if VNOSAVE in flags then {} else {s});
    }
  }

  lemma MoreSpare(st: Store, spare: set<TextId>, spare': set<TextId>)
    requires spare <= spare'
    ensures AllOwned(st, spare) ==> AllOwned(st, spare')
  {
    hide HasOwner;
  }

  lemma InsertSpare(tab: Chains, st: Store, vp: VarId, s: TextId, flags: Flags, t: TextId, texts: map<TextId, string>,
                    name: string)
    requires Good(tab, st) && vp !in st.entries && MayStore(st, s, flags)
    requires if Owns(flags) && VNOSAVE !in flags then t !in st.texts && texts == st.texts[t := st.texts[s]]
             else t == s && texts == st.texts
    ensures AllOwned(st, {s}) ==>
              AllOwned(st.(entries := st.entries[vp := Entry(flags, t)], texts := texts, index := st.index[name := vp]),
                       if VNOSAVE in flags then {} else {s})
  {
    hide AllOwned, IsText, NameOf, HashOf, TableOk;
    if AllOwned(st, {s}) {
      InsertOwned(st, vp, flags, t, texts, name, {s});
      var st' := st.(entries := st.entries[vp := Entry(flags, t)], texts := texts, index := st.index[name := vp]);
      MoreSpare(st', {s} - {t}, if VNOSAVE in flags then {} else {s});
    }
  }

  lemma PushSpare(tab: Chains, st: Store, vp: VarId)
    requires Good(tab, st) && vp in st.entries
    ensures var e := st.entries[vp];
            e.flags != {VUNSET} &&
            (AllOwned(st, {}) ==>
               AllOwned(st.(entries := st.entries[vp := Entry(e.flags + {VSTRFIXED, VTEXTFIXED}, e.text)],
                            locals := st.locals + [Local(vp, e.flags, e.text)]), {}))
  {
    hide AllOwned, IsText, NameOf, HashOf, TableOk;
    assert st.entries[vp].flags != {VUNSET};
    if AllOwned(st, {}) {
      PushOwned(st, vp);
    }
  }

  lemma DropSpare(tab: Chains, st: Store, n: string)
    requires Good(tab, st) && st.locals != [] && !IsNew(st.locals[|st.locals| - 1])
    requires Saves(st)[|st.locals| - 1].name == n && n in ViewOf(st) && VTEXTFIXED in ViewOf(st)[n].flags
    ensures var k := |st.locals| - 1;
            AllOwned(st, {}) ==> (AllOwned(st.(locals := st.locals[..k]), {}) <==> !Owns(st.locals[k].flags))
  {
    hide AllOwned, IsText, NameOf, HashOf, TableOk, Owns;
    if AllOwned(st, {}) {
      var l := st.locals[|st.locals| - 1];
      assert l.vp in st.entries && NameOf(st.texts[st.entries[l.vp].text]) == n;
      Looked(tab, st, n);
      assert st.index[n] == l.vp;
      DropOwned(st);
    }
  }

  lemma LetGoSpare(tab: Chains, st: Store)
    requires Good(tab, st) && st.locals != [] && IsNew(st.locals[|st.locals| - 1])
    requires st.locals[|st.locals| - 1].vp in st.entries
    ensures var k := |st.locals| - 1;
            var l := st.locals[k];
            var e := st.entries[l.vp];
            AllOwned(st, {}) ==>
              AllOwned(st.(entries := st.entries[l.vp := e.(flags := e.flags - {VSTRFIXED, VREADONLY})],
                           locals := st.locals[..k]), {})
  {
    hide AllOwned, IsText, NameOf, HashOf, TableOk;
    var k := |st.locals| - 1;
    var l := st.locals[k];
    if AllOwned(st, {}) {
      var st1 := st.(locals := st.locals[..k]);
      assert st.locals == st1.locals + [l];
      NewRecordOwned(st1, l);
      FlagsOwned(st1, l.vp, st1.entries[l.vp].flags - {VSTRFIXED, VREADONLY});
    }
  }

  /** A text that is not on the heap can always be added. */
  lemma TextOnStack(tab: Chains, st: Store, t: TextId, s: string)
    requires Good(tab, st) && t !in st.texts
    ensures var st' := st.(texts := st.texts[t := s], fixed := st.fixed + {t});
            Good(tab, st') && Saves(st') == Saves(st) && ViewOf(st') == ViewOf(st)
  {
    hide IsText, NameOf, LocalOwns, HashOf;
    var st1 := st.(texts := st.texts[t := s]);
    var st' := st1.(fixed := st.fixed + {t});
    TextAdded(tab, st, t, s);
    FixedMore(st1, t);
    TableKept(tab, st1, st');
    SavesSame(st1, st');
    assert forall n :: n in st.index ==> BindingOf(st', st.index[n]) == BindingOf(st1, st.index[n]);
  }

  lemma FixedMore(st: Store, t: TextId)
    requires Sound(st) && t in st.texts && Unreferenced(st, t)
    ensures Sound(st.(fixed := st.fixed + {t}))
  {
    hide IsText, NameOf;
  }

  function Unused<T>(m: map<int, T>, n: int): (k: int)
    ensures k !in m
    decreases |set k | k in m && k >= n|
  {
    if n !in m then n
    else
      assert (set k | k in m && k >= n + 1) == (set k | k in m && k >= n) - {n};
      Unused(m, n + 1)
  }
}
