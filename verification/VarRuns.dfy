/** Whole runs of assignments, exports, local variables and scopes inside scopes. */
module VarRuns {
  import opened Option
  import opened VarOwned
  import opened VarStore
  import opened VarView
  import opened VarSteps
  import opened VarMachine

  datatype Act =
    | Set(name: string, val: Option<string>, flags: Flags)
    | Export(name: string, val: Option<string>, flag: Flag)
    | MakeLocal(name: string, flags: Flags)
    | Scope(acts: seq<Act>)

  predicate Allowed(act: Act) {
    match act
    case Set(name, val, flags) => IsText(name) && Owns(flags) && VUNSET !in flags
    case Export(name, _, flag) => IsText(name) && flag in {VEXPORT, VREADONLY}
    case MakeLocal(name, flags) => IsText(name) && flags <= {VEXPORT}
    case Scope(acts) => forall i :: 0 <= i < |acts| ==> Allowed(acts[i])
  }

  function Exported(view: View, name: string, val: Option<string>, flag: Flag): Option<View> {
    var n := NameOf(name);
    if val.None? && n in view then Some(view[n := view[n].(flags := view[n].flags + {flag})])
    else Assign(view, SetText(name, val), SetFlags(val, {flag}))
  }

  /** The variables and what was saved in the scope after some acts; None after a read only error. */
  function Meaning(view: View, saves: seq<Saved>, acts: seq<Act>): Option<(View, seq<Saved>)>
    decreases acts
  {
    if acts == [] then Some((view, saves))
    else
      var (v, s) :- Effect(view, saves, acts[0]);
      Meaning(v, s, acts[1..])
  }

  /** One act. After a scope inside, what it saved is put back, and its other assignments stay. */
  function Effect(view: View, saves: seq<Saved>, act: Act): Option<(View, seq<Saved>)>
    decreases act
  {
    match act
    case Set(name, val, flags) =>
      var v :- Assign(view, SetText(name, val), SetFlags(val, flags));
      Some((v, saves))
    case Export(name, val, flag) =>
      var v :- Exported(view, name, val, flag);
      Some((v, saves))
    case MakeLocal(name, flags) =>
      var v :- Localised(view, name, flags);
      Some((v, saves + [Saved(NameOf(name), Lookup(view, NameOf(name)))]))
    case Scope(acts) =>
      var (v, s) :- Meaning(view, [], acts);
      Some((Undo(v, s), saves))
  }

  /** The acts of a scope; an error stops them. */
  method Perform(v: Vars, acts: seq<Act>, ghost base: seq<Saved>, ghost saves: seq<Saved>) returns (ok: bool)
    requires v.Valid() && v.pending == [] && v.localvar_stack != [] && v.Records() == base + saves
    requires forall i :: 0 <= i < |acts| ==> Allowed(acts[i])
    modifies v
    ensures v.Valid() && v.pending == []
    ensures ok <==> Meaning(old(v.View()), saves, acts).Some?
    ensures ok && old(v.NoLeak({})) ==> v.NoLeak({})
    ensures ok ==>
              && |v.localvar_stack| == |old(v.localvar_stack)|
              && v.localvar_stack[..|v.localvar_stack| - 1] == old(v.localvar_stack)[..|v.localvar_stack| - 1]
              && var (view, s) := Meaning(old(v.View()), saves, acts).value; v.View() == view && v.Records() == base + s
    decreases acts
  {
    hide Good, ViewOf, Saves, IsText, NameOf, Assign, Localised, Undo, SetText, SetFlags, Owns, AllOwned;
    if acts == [] {
      return true;
    }
    ok := PerformOne(v, acts[0], base, saves);
    if ok {
      ghost var s := Effect(old(v.View()), saves, acts[0]).value.1;
      ok := Perform(v, acts[1..], base, s);
    }
  }

  method PerformOne(v: Vars, act: Act, ghost base: seq<Saved>, ghost saves: seq<Saved>) returns (ok: bool)
    requires v.Valid() && v.pending == [] && v.localvar_stack != [] && v.Records() == base + saves && Allowed(act)
    modifies v
    ensures v.Valid() && v.pending == []
    ensures ok <==> Effect(old(v.View()), saves, act).Some?
    ensures ok && old(v.NoLeak({})) ==> v.NoLeak({})
    ensures ok ==>
              && |v.localvar_stack| == |old(v.localvar_stack)|
              && v.localvar_stack[..|v.localvar_stack| - 1] == old(v.localvar_stack)[..|v.localvar_stack| - 1]
              && var (view, s) := Effect(old(v.View()), saves, act).value; v.View() == view && v.Records() == base + s
    decreases act
  {
    hide Good, ViewOf, Saves, IsText, NameOf, Assign, Localised, Undo, SetText, SetFlags, Owns, AllOwned;
    match act
    case Set(name, val, flags) =>
      var vp;
      ok, vp := v.SetVar(name, val, flags);
    case Export(name, val, flag) =>
      ok := v.ExportCmd(name, val, flag);
    case MakeLocal(name, flags) =>
      ok := v.MkLocal(name, flags);
    case Scope(acts) =>
      var stop := v.PushLocalVars();
      ok := Perform(v, acts, base + saves, []);
      if ok {
        v.UnwindLocalVars(stop);
      }
  }

  /**
   * After a scope each name that it made local is bound as it was just before that was first done, flags and all,
   * and every other name keeps what it has.
   */
  lemma ScopeRestores(view: View, saves: seq<Saved>, acts: seq<Act>, n: string)
    requires Effect(view, saves, Scope(acts)).Some?
    ensures var (v, s) := Meaning(view, [], acts).value;
            var after := Effect(view, saves, Scope(acts)).value.0;
            && ((forall i :: 0 <= i < |s| ==> s[i].name != n) ==> Lookup(after, n) == Lookup(v, n))
            && (forall i :: 0 <= i < |s| && s[i].name == n && (forall j :: 0 <= j < i ==> s[j].name != n) ==>
                  Lookup(after, n) == s[i].was)
  {
    var (v, s) := Meaning(view, [], acts).value;
    if forall i :: 0 <= i < |s| ==> s[i].name != n {
      UndoKeepsOthers(v, s, n);
    }
    forall i | 0 <= i < |s| && s[i].name == n && forall j :: 0 <= j < i ==> s[j].name != n
      ensures Lookup(Undo(v, s), n) == s[i].was
    {
      UndoRestores(v, s, i);
    }
  }
}
