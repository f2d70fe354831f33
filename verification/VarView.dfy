/** What the variables are, as a map from names, and what undoing saved records means. */
module VarView {
  import opened Option
  import opened VarStore

  datatype Binding = Binding(flags: Flags, text: string)

  type View = map<string, Binding>

  /** What a record says: the variable's binding when it was made local, or that there was none. */
  datatype Saved = Saved(name: string, was: Option<Binding>)

  // ---------- assignment ----------

  /** An unset that does not mean to mark the variable. */
  predicate PureUnset(flags: Flags) {
    flags * {VEXPORT, VREADONLY, VSTRFIXED, VUNSET} == {VUNSET}
  }

  /** Setting name=value, or unsetting a name; None if the variable is read only. */
  function Assign(view: View, text: string, flags: Flags): Option<View> {
    var n := NameOf(text);
    if n !in view then Some(if PureUnset(flags) then view else view[n := Binding(flags, text)])
    else if VREADONLY in view[n].flags then None
    else if !PureUnset(flags) then
      Some(view[n := Binding(flags + (view[n].flags - {VTEXTFIXED, VSTACK, VNOSAVE, VUNSET}), text)])
    else if VSTRFIXED in view[n].flags then Some(view[n := Binding(flags + {VSTRFIXED}, text)])
    else Some(view - {n})
  }

  // ---------- undoing ----------

  function Restore(view: View, s: Saved): View {
    if s.was.None? then view - {s.name} else view[s.name := s.was.value]
  }

  /** The newest record first. */
  function Undo(view: View, saves: seq<Saved>): View
    decreases |saves|
  {
    if saves == [] then view else Undo(Restore(view, saves[|saves| - 1]), saves[..|saves| - 1])
  }

  function Lookup(view: View, n: string): Option<Binding> {
    if n in view then Some(view[n]) else None
  }

  /** Names that were not made local keep what they have. */
  lemma {:induction false} UndoKeepsOthers(view: View, saves: seq<Saved>, n: string)
    requires forall i :: 0 <= i < |saves| ==> saves[i].name != n
    ensures Lookup(Undo(view, saves), n) == Lookup(view, n)
    decreases |saves|
  {
    if saves != [] {
      UndoKeepsOthers(Restore(view, saves[|saves| - 1]), saves[..|saves| - 1], n);
    }
  }

  /** Each name made local gets back what its oldest record says, whatever it is now. */
  lemma {:induction false} UndoRestores(view: View, saves: seq<Saved>, i: nat)
    requires i < |saves| && forall j :: 0 <= j < i ==> saves[j].name != saves[i].name
    ensures Lookup(Undo(view, saves), saves[i].name) == saves[i].was
    decreases |saves|
  {
    var k := |saves| - 1;
    if i < k {
      UndoRestores(Restore(view, saves[k]), saves[..k], i);
    } else {
      UndoKeepsOthers(Restore(view, saves[k]), saves[..k], saves[i].name);
    }
  }

  // ---------- the view of the store ----------

  ghost function BindingOf(st: Store, vp: VarId): Binding
    requires EntriesOk(st) && vp in st.entries
  {
    Binding(st.entries[vp].flags, st.texts[st.entries[vp].text])
  }

  ghost function ViewOf(st: Store): View
    requires EntriesOk(st) && IndexOk(st)
  {
    map n | n in st.index :: BindingOf(st, st.index[n])
  }

  ghost function SaveOf(st: Store, i: nat): Saved
    requires EntriesOk(st) && LocalsOk(st) && i < |st.locals|
  {
    var l := st.locals[i];
    Saved(NameOf(st.texts[st.entries[l.vp].text]), if IsNew(l) then None else Some(Binding(l.flags, st.texts[l.text])))
  }

  ghost function Saves(st: Store): (saves: seq<Saved>)
    requires EntriesOk(st) && LocalsOk(st)
    ensures |saves| == |st.locals|
  {
    seq(|st.locals|, i requires 0 <= i < |st.locals| => SaveOf(st, i))
  }

  /** Entry vp of name n is bound to flags and text t. */
  lemma ViewUpdated(st: Store, st': Store, vp: VarId)
    requires Sound(st) && Sound(st') && vp in st'.entries
    requires var n := NameOf(st'.texts[st'.entries[vp].text]);
             st'.index == st.index[n := vp]
    requires forall v :: v in st.entries && v != vp ==>
               v in st'.entries && BindingOf(st', v) == BindingOf(st, v)
    ensures ViewOf(st') == ViewOf(st)[NameOf(st'.texts[st'.entries[vp].text]) := BindingOf(st', vp)]
  {
    hide IsText, NameOf, LocalsOk, EntryOwns, LocalOwns;
  }

  lemma ViewRemoved(st: Store, st': Store, vp: VarId)
    requires Sound(st) && Sound(st') && vp in st.entries
    requires st'.index == st.index - {NameOf(st.texts[st.entries[vp].text])} && st'.entries == st.entries - {vp}
    requires forall v :: v in st.entries && v != vp ==> BindingOf(st', v) == BindingOf(st, v)
    ensures ViewOf(st') == ViewOf(st) - {NameOf(st.texts[st.entries[vp].text])}
  {
    hide IsText, NameOf, LocalsOk, EntryOwns, LocalOwns;
  }

  /** The records say what they said. */
  lemma SavesKept(st: Store, st': Store, k: nat)
    requires Sound(st) && Sound(st') && k <= |st.locals| && k <= |st'.locals| && st'.locals[..k] == st.locals[..k]
    requires forall v :: v in st.entries && v in st'.entries ==>
               NameOf(st'.texts[st'.entries[v].text]) == NameOf(st.texts[st.entries[v].text])
    requires forall i :: 0 <= i < k && !IsNew(st.locals[i]) ==>
               st.locals[i].text in st'.texts && st'.texts[st.locals[i].text] == st.texts[st.locals[i].text]
    ensures Saves(st')[..k] == Saves(st)[..k]
  {
    hide IsText, NameOf, EntryOwns, LocalOwns;
    assert forall i :: 0 <= i < k ==> st'.locals[i] == st.locals[i];
  }
}
