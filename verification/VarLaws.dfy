/** Laws of variables: what is read after an assignment, an export, a local and a scope, and what stays as it was. */
module VarLaws {
  import opened CharClass
  import opened Option
  import opened VarMachine
  import opened VarRuns
  import opened VarStore
  import opened VarTable
  import opened VarView

  /** What a variable is expanded to: what follows the equals sign, if it is set. */
  function Value(view: View, n: string): Option<string> {
    if n in view && VUNSET !in view[n].flags && |view[n].text| > |n| then Some(view[n].text[|n| + 1..]) else None
  }

  predicate Has(view: View, n: string, f: Flag) {
    n in view && f in view[n].flags
  }

  /** Only one name may be bound to something else. */
  ghost predicate OnlyChanges(view: View, view': View, n: string) {
    forall m :: m != n ==> Lookup(view', m) == Lookup(view, m)
  }

  lemma TextOf(name: string, val: string)
    requires IsText(name) && NameOf(name) == name
    ensures var text := SetText(name, Some(val));
            NameOf(text) == name && |text| > |name| && text[|name| + 1..] == val
  {
    hide EndOfName, IsText;
    SetTextName(name, Some(val));
    assert name + ("=" + val) == SetText(name, Some(val));
  }

  /** Setting gives the value, and what was exported stays exported; it fails just for what is read only. */
  lemma Setting(view: View, name: string, val: string, flags: Flags)
    requires IsText(name) && NameOf(name) == name && VUNSET !in flags
    ensures var r := Assign(view, SetText(name, Some(val)), SetFlags(Some(val), flags));
            && (r.None? <==> Has(view, name, VREADONLY))
            && (r.Some? ==>
                  && Value(r.value, name) == Some(val) && OnlyChanges(view, r.value, name)
                  && (forall f :: f in {VEXPORT, VREADONLY, VSTRFIXED} ==>
                        (Has(r.value, name, f) <==> f in flags || Has(view, name, f))))
  {
    hide EndOfName, IsText, NameOf, SetText;
    TextOf(name, val);
    NotUnset(SetFlags(Some(val), flags));
  }

  lemma NotUnset(flags: Flags)
    requires VUNSET !in flags
    ensures !PureUnset(flags)
  {
    assert VUNSET in {VUNSET};
  }

  /** Unsetting takes the value away; what has to keep its entry is there without it, and is not exported. */
  lemma Unsetting(view: View, name: string)
    requires IsText(name) && NameOf(name) == name
    ensures var r := Assign(view, name, {VUNSET, VNOSAVE});
            && (r.None? <==> Has(view, name, VREADONLY))
            && (r.Some? ==>
                  && Value(r.value, name) == None && OnlyChanges(view, r.value, name)
                  && (name in r.value <==> Has(view, name, VSTRFIXED)) && !Has(r.value, name, VEXPORT)
                  && (Has(r.value, name, VSTRFIXED) <==> Has(view, name, VSTRFIXED)))
  {
    hide EndOfName, IsText, NameOf;
    assert {VUNSET, VNOSAVE} * {VEXPORT, VREADONLY, VSTRFIXED, VUNSET} == {VUNSET};
  }

  /** Exporting, or making read only, keeps the value. */
  lemma Marking(view: View, name: string, flag: Flag)
    requires IsText(name) && NameOf(name) == name && flag in {VEXPORT, VREADONLY}
    ensures var r := Exported(view, name, None, flag);
            r.Some? && Has(r.value, name, flag) && Value(r.value, name) == Value(view, name)
            && OnlyChanges(view, r.value, name)
  {
    hide EndOfName, IsText, NameOf;
    SetTextName(name, None);
    assert name + "" == name;
    if name !in view {
      var flags := SetFlags(None, {flag});
      assert flag in flags * {VEXPORT, VREADONLY, VSTRFIXED, VUNSET};
      assert flag !in {VUNSET};
    }
  }

  /** With a value both are done. */
  lemma MarkingValue(view: View, name: string, val: string, flag: Flag)
    requires IsText(name) && NameOf(name) == name && flag in {VEXPORT, VREADONLY}
    ensures var r := Exported(view, name, Some(val), flag);
            && (r.None? <==> Has(view, name, VREADONLY))
            && (r.Some? ==>
                  Has(r.value, name, flag) && Value(r.value, name) == Some(val) && OnlyChanges(view, r.value, name))
  {
    hide Assign, SetText, SetFlags, NameOf, IsText;
    Setting(view, name, val, {flag});
  }

  // ---------- local variables ----------

  /** A name made local without a value keeps the one it has; one without any has none, but may be exported. */
  lemma LocalKeeps(view: View, name: string, flags: Flags)
    requires IsText(name) && NameOf(name) == name && !HasValue(name) && flags <= {VEXPORT}
    ensures var r := Localised(view, name, flags);
            r.Some? && Has(r.value, name, VSTRFIXED) && Value(r.value, name) == Value(view, name)
            && OnlyChanges(view, r.value, name)
            && (Has(r.value, name, VEXPORT) <==> if name in view then VEXPORT in view[name].flags else VEXPORT in flags)
  {
    hide EndOfName, IsText, NameOf;
  }

  /** With a value it has that one. */
  lemma LocalSets(view: View, name: string, val: string, flags: Flags)
    requires IsText(name) && NameOf(name) == name && flags <= {VEXPORT}
    ensures var r := Localised(view, name + "=" + val, flags);
            && (r.None? <==> Has(view, name, VREADONLY))
            && (r.Some? ==>
                  Has(r.value, name, VSTRFIXED) && Value(r.value, name) == Some(val)
                  && OnlyChanges(view, r.value, name)
                  && (Has(r.value, name, VEXPORT) <==> VEXPORT in flags || Has(view, name, VEXPORT)))
  {
    hide EndOfName, IsText, NameOf;
    TextOf(name, val);
    var text := name + "=" + val;
    assert text == SetText(name, Some(val)) == name + ("=" + val);
    assert text[|name|] == '=';
    NotUnset(flags);
  }

  // ---------- scopes ----------

  /** Acts are done one after the other. */
  lemma {:induction false} OneThenRest(view: View, saves: seq<Saved>, act: Act, acts: seq<Act>)
    ensures Meaning(view, saves, [act] + acts)
            == match Effect(view, saves, act) case None => None case Some((v, s)) => Meaning(v, s, acts)
  {
    hide Effect;
    assert ([act] + acts)[1..] == acts;
  }

  lemma {:induction false} SavesGrow(view: View, saves: seq<Saved>, acts: seq<Act>)
    requires Meaning(view, saves, acts).Some?
    ensures saves <= Meaning(view, saves, acts).value.1
    decreases |acts|
  {
    hide Assign, Localised, Exported, Undo;
    if acts != [] {
      var (v, s) := Effect(view, saves, acts[0]).value;
      assert saves <= s;
      SavesGrow(v, s, acts[1..]);
    }
  }

  /** Whatever is done to a local variable in a function, the caller has it as it was. */
  lemma LocalInFunction(view: View, saves: seq<Saved>, name: string, flags: Flags, acts: seq<Act>)
    requires Effect(view, saves, Scope([MakeLocal(name, flags)] + acts)).Some?
    ensures Lookup(Effect(view, saves, Scope([MakeLocal(name, flags)] + acts)).value.0, NameOf(name))
            == Lookup(view, NameOf(name))
  {
    hide NameOf, Localised, Undo;
    var n := NameOf(name);
    var all := [MakeLocal(name, flags)] + acts;
    var saved := Saved(n, Lookup(view, n));
    OneThenRest(view, [], MakeLocal(name, flags), acts);
    var v := Localised(view, name, flags).value;
    assert [] + [saved] == [saved];
    assert Meaning(view, [], all) == Meaning(v, [saved], acts);
    SavesGrow(v, [saved], acts);
    var s := Meaning(view, [], all).value.1;
    assert s[0] == saved;
    ScopeRestores(view, saves, all, n);
    assert s[0].name == n;
  }

  predicate NoLocals(acts: seq<Act>) {
    forall i :: 0 <= i < |acts| ==> !acts[i].MakeLocal?
  }

  lemma {:induction false} NothingSaved(view: View, saves: seq<Saved>, acts: seq<Act>)
    requires NoLocals(acts) && Meaning(view, saves, acts).Some?
    ensures Meaning(view, saves, acts).value.1 == saves
    decreases |acts|
  {
    hide Assign, Localised, Exported, Undo;
    if acts != [] {
      var (v, s) := Effect(view, saves, acts[0]).value;
      NothingSaved(v, s, acts[1..]);
    }
  }

  /** A function without local variables does what its body does in the caller. */
  lemma NothingLocal(view: View, saves: seq<Saved>, acts: seq<Act>)
    requires NoLocals(acts) && Meaning(view, [], acts).Some?
    ensures Effect(view, saves, Scope(acts)) == Some((Meaning(view, [], acts).value.0, saves))
  {
    NothingSaved(view, [], acts);
    hide Meaning;
    UndoNothing(Meaning(view, [], acts).value.0, []);
  }

  // ---------- the hash ----------

  /** Each character is added, the first another sixteen times, in 32 bits. */
  lemma HashSteps(n: string, c: char)
    ensures HashOf([c]) == 17 * (c as int) % 0x1_0000_0000
    ensures n != "" ==> HashOf(n + [c]) == (HashOf(n) + (c as int)) % 0x1_0000_0000
  {
    assert [c][..0] == [] && (n + [c])[..|n|] == n;
    assert SumOf([c]) == SumOf([]) + (c as int);
    if n != "" {
      WrapAdd((n[0] as int) * 16 + SumOf(n), c as int);
    }
  }
}
