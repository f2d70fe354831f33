/** What each step of src/var.c does to the store, to the variables seen as a map, and to the saved records. */
module VarSteps {
  import opened Option
  import opened VarStore
  import opened VarTable
  import opened VarView

  ghost predicate Good(tab: Chains, st: Store) {
    Sound(st) && TableOk(tab, st)
  }

  /** The records are the same, and so is what they say. */
  lemma SavesSame(st: Store, st': Store)
    requires Sound(st) && Sound(st') && st'.locals == st.locals
    requires forall v :: v in st.entries && v in st'.entries ==>
               NameOf(st'.texts[st'.entries[v].text]) == NameOf(st.texts[st.entries[v].text])
    requires forall i :: 0 <= i < |st.locals| && !IsNew(st.locals[i]) ==>
               st.locals[i].text in st'.texts && st'.texts[st.locals[i].text] == st.texts[st.locals[i].text]
    ensures Saves(st') == Saves(st)
  {
    hide NameOf, IsText, IsNew, Saves, IndexOk, EntryOwns, LocalOwns;
    SavesKept(st, st', |st.locals|);
    assert st.locals[..|st.locals|] == st'.locals[..|st.locals|];
    assert Saves(st)[..|st.locals|] == Saves(st) && Saves(st')[..|st.locals|] == Saves(st');
  }

  lemma EntryReplaced(tab: Chains, st: Store, vp: VarId, flags: Flags, t: TextId, texts: map<TextId, string>)
    requires Good(tab, st) && vp in st.entries
    requires TextsKept(st.texts, Freed(st.entries[vp]), texts)
    requires t in texts && IsText(texts[t]) && NameOf(texts[t]) == NameOf(st.texts[st.entries[vp].text])
    requires FlagsOk(st.statics, vp, flags) && (VSTRFIXED in st.entries[vp].flags ==> VSTRFIXED in flags)
    requires if Owns(flags) then t !in st.fixed && (Unreferenced(st, t) || t in Freed(st.entries[vp]))
            else t in st.fixed
    ensures var st' := st.(entries := st.entries[vp := Entry(flags, t)], texts := texts);
            && Good(tab, st') && Saves(st') == Saves(st)
            && ViewOf(st') == ViewOf(st)[NameOf(texts[t]) := Binding(flags, texts[t])]
  {
    hide IsText, NameOf, LocalOwns;
    var st' := st.(entries := st.entries[vp := Entry(flags, t)], texts := texts);
    Replaced(st, vp, flags, t, texts);
    assert forall v :: v in st.entries ==>
        NameOf(st'.texts[st'.entries[v].text]) == NameOf(st.texts[st.entries[v].text]);
    TableKept(tab, st, st');
    SavesSame(st, st');
    var n := NameOf(texts[t]);
    assert st.index[n] == vp && st.index == st.index[n := vp];
    ViewUpdated(st, st', vp);
  }

  lemma EntryInserted(tab: Chains, st: Store, vp: VarId, b: nat, flags: Flags, t: TextId, texts: map<TextId, string>)
    requires Good(tab, st) && vp !in st.entries && TextsKept(st.texts, {}, texts)
    requires t in texts && IsText(texts[t]) && NameOf(texts[t]) !in st.index && FlagsOk(st.statics, vp, flags)
    requires NameOf(texts[t]) != "" && b == HashOf(NameOf(texts[t])) % VTABSIZE
    requires if Owns(flags) then t !in st.fixed && Unreferenced(st, t) else t in st.fixed
    ensures var st' := st.(entries := st.entries[vp := Entry(flags, t)], texts := texts,
            index := st.index[NameOf(texts[t]) := vp]);
            && Good(tab[b := tab[b] + [vp]], st') && Saves(st') == Saves(st)
            && ViewOf(st') == ViewOf(st)[NameOf(texts[t]) := Binding(flags, texts[t])]
  {
    hide IsText, NameOf, LocalOwns, HashOf;
    var st' := st.(entries := st.entries[vp := Entry(flags, t)], texts := texts,
        index := st.index[NameOf(texts[t]) := vp]);
    Inserted(st, vp, flags, t, texts);
    TableAppended(tab, st, st', vp, b);
    SavesSame(st, st');
    ViewUpdated(st, st', vp);
  }

  lemma EntryRemoved(tab: Chains, st: Store, vp: VarId, b: nat, k: nat)
    requires Good(tab, st) && vp in st.entries && VSTRFIXED !in st.entries[vp].flags
    requires b < VTABSIZE && k < |tab[b]| && tab[b][k] == vp
    ensures vp !in st.statics
    ensures var n := NameOf(st.texts[st.entries[vp].text]);
            var st' := st.(entries := st.entries - {vp}, texts := st.texts - Freed(st.entries[vp]),
                index := st.index - {n});
            && Good(tab[b := tab[b][..k] + tab[b][k + 1..]], st') && Saves(st') == Saves(st)
            && ViewOf(st') == ViewOf(st) - {n}
  {
    hide IsText, NameOf, LocalOwns, HashOf;
    var n := NameOf(st.texts[st.entries[vp].text]);
    var st' := st.(entries := st.entries - {vp}, texts := st.texts - Freed(st.entries[vp]), index := st.index - {n});
    Removed(st, vp);
    TableRemoved(tab, st, st', vp, b, k);
    SavesSame(st, st');
    ViewRemoved(st, st', vp);
  }

  /** Freeing or adding a text that nothing refers to changes neither. */
  lemma TextsChanged(tab: Chains, st: Store, st': Store)
    requires Good(tab, st) && Sound(st') && st' == st.(texts := st'.texts)
    requires forall v :: v in st.entries ==> st'.texts[st.entries[v].text] == st.texts[st.entries[v].text]
    requires forall i :: 0 <= i < |st.locals| && !IsNew(st.locals[i]) ==>
               st.locals[i].text in st'.texts && st'.texts[st.locals[i].text] == st.texts[st.locals[i].text]
    ensures Good(tab, st') && Saves(st') == Saves(st) && ViewOf(st') == ViewOf(st)
  {
    hide IsText, NameOf, LocalOwns, HashOf;
    TableKept(tab, st, st');
    SavesSame(st, st');
    assert forall n :: n in st.index ==> BindingOf(st', st.index[n]) == BindingOf(st, st.index[n]);
  }

  lemma TextFreed(tab: Chains, st: Store, t: TextId)
    requires Good(tab, st) && t !in st.fixed && Unreferenced(st, t)
    ensures var st' := st.(texts := st.texts - {t});
            Good(tab, st') && Saves(st') == Saves(st) && ViewOf(st') == ViewOf(st)
  {
    hide IsText, NameOf, LocalOwns, HashOf;
    TextGone(st, t);
    TextsChanged(tab, st, st.(texts := st.texts - {t}));
  }

  lemma TextAdded(tab: Chains, st: Store, t: TextId, s: string)
    requires Good(tab, st) && t !in st.texts
    ensures var st' := st.(texts := st.texts[t := s]);
            Good(tab, st') && Saves(st') == Saves(st) && ViewOf(st') == ViewOf(st) && Unreferenced(st', t)
                && t !in st.fixed
  {
    hide IsText, NameOf, LocalOwns, HashOf;
    TextNew(st, t, s);
    TextsChanged(tab, st, st.(texts := st.texts[t := s]));
  }

  /** An existing variable is made local. */
  lemma MadeLocal(tab: Chains, st: Store, vp: VarId)
    requires Good(tab, st) && vp in st.entries
    ensures var e := st.entries[vp];
            var n := NameOf(st.texts[e.text]);
            var st' := st.(entries := st.entries[vp := Entry(e.flags + {VSTRFIXED, VTEXTFIXED}, e.text)],
                           locals := st.locals + [Local(vp, e.flags, e.text)]);
            && Good(tab, st')
            && ViewOf(st') == ViewOf(st)[n := Binding(e.flags + {VSTRFIXED, VTEXTFIXED}, st.texts[e.text])]
            && n in ViewOf(st) && Saves(st') == Saves(st) + [Saved(n, Some(ViewOf(st)[n]))]
  {
    hide IsText, NameOf, LocalOwns, HashOf;
    var e := st.entries[vp];
    var n := NameOf(st.texts[e.text]);
    var st' := st.(entries := st.entries[vp := Entry(e.flags + {VSTRFIXED, VTEXTFIXED}, e.text)],
                   locals := st.locals + [Local(vp, e.flags, e.text)]);
    RecordPushed(st, vp);
    TableKept(tab, st, st');
    assert st.index[n] == vp && st.index == st.index[n := vp];
    ViewUpdated(st, st', vp);
    var k := |st.locals|;
    assert st'.locals[..k] == st.locals == st.locals[..k];
    SavesKept(st, st', k);
    assert Saves(st)[..k] == Saves(st);
    assert e.flags != {VUNSET};
    assert SaveOf(st', k) == Saved(n, Some(ViewOf(st)[n]));
    assert Saves(st') == Saves(st')[..k] + [Saves(st')[k]];
  }

  /** A variable is made local that there was no entry for. */
  lemma MadeLocalNew(tab: Chains, st: Store, vp: VarId, t: TextId)
    requires Good(tab, st) && vp in st.entries && vp !in st.statics && VSTRFIXED in st.entries[vp].flags
    requires forall i :: 0 <= i < |st.locals| ==> st.locals[i].vp != vp
    ensures var st' := st.(locals := st.locals + [Local(vp, {VUNSET}, t)]);
            && Good(tab, st') && ViewOf(st') == ViewOf(st)
            && Saves(st') == Saves(st) + [Saved(NameOf(st.texts[st.entries[vp].text]), None)]
  {
    hide IsText, NameOf, LocalOwns, HashOf;
    var st' := st.(locals := st.locals + [Local(vp, {VUNSET}, t)]);
    NewRecordPushed(st, vp, t);
    TableKept(tab, st, st');
    var k := |st.locals|;
    assert st'.locals[..k] == st.locals == st.locals[..k];
    SavesKept(st, st', k);
    assert Saves(st)[..k] == Saves(st);
    assert forall n :: n in st.index ==> BindingOf(st', st.index[n]) == BindingOf(st, st.index[n]);
    assert Saves(st') == Saves(st')[..k] + [Saves(st')[k]];
  }

  /** The last record is put back into its entry. */
  lemma PutBack(tab: Chains, st: Store)
    requires Good(tab, st) && st.locals != [] && !IsNew(st.locals[|st.locals| - 1])
    ensures var k := |st.locals| - 1;
            var l := st.locals[k];
            var st' := st.(entries := st.entries[l.vp := Entry(l.flags, l.text)],
                           texts := st.texts - Freed(st.entries[l.vp]), locals := st.locals[..k]);
            && Good(tab, st') && Saves(st') == Saves(st)[..k] && ViewOf(st') == Restore(ViewOf(st), Saves(st)[k])
  {
    hide IsText, NameOf, LocalOwns, HashOf;
    var k := |st.locals| - 1;
    var l := st.locals[k];
    var st' := st.(entries := st.entries[l.vp := Entry(l.flags, l.text)],
                   texts := st.texts - Freed(st.entries[l.vp]), locals := st.locals[..k]);
    RecordPopped(st);
    assert l.text !in Freed(st.entries[l.vp]);
    assert forall v :: v in st.entries ==>
        NameOf(st'.texts[st'.entries[v].text]) == NameOf(st.texts[st.entries[v].text]);
    TableKept(tab, st, st');
    var n := NameOf(st.texts[st.entries[l.vp].text]);
    assert st.index[n] == l.vp && st.index == st.index[n := l.vp];
    ViewUpdated(st, st', l.vp);
    SavesKept(st, st', k);
    assert Saves(st')[..k] == Saves(st');
  }

  /** The last record of an entry made for it goes, and the entry is no longer kept. */
  lemma LetGo(tab: Chains, st: Store)
    requires Good(tab, st) && st.locals != [] && IsNew(st.locals[|st.locals| - 1])
    ensures var k := |st.locals| - 1;
            var l := st.locals[k];
            && l.vp in st.entries
            && var e := st.entries[l.vp];
               var n := NameOf(st.texts[e.text]);
               var st' := st.(entries := st.entries[l.vp := Entry(e.flags - {VSTRFIXED, VREADONLY}, e.text)],
                              locals := st.locals[..k]);
               && Good(tab, st') && Saves(st') == Saves(st)[..k] && Saves(st)[k] == Saved(n, None)
               && ViewOf(st') == ViewOf(st)[n := Binding(e.flags - {VSTRFIXED, VREADONLY}, st.texts[e.text])]
  {
    hide IsText, NameOf, LocalOwns, HashOf;
    var k := |st.locals| - 1;
    var l := st.locals[k];
    var e := st.entries[l.vp];
    var st' := st.(entries := st.entries[l.vp := Entry(e.flags - {VSTRFIXED, VREADONLY}, e.text)],
                   locals := st.locals[..k]);
    NewRecordPopped(st);
    TableKept(tab, st, st');
    var n := NameOf(st.texts[e.text]);
    assert st.index[n] == l.vp && st.index == st.index[n := l.vp];
    ViewUpdated(st, st', l.vp);
    SavesKept(st, st', k);
    assert Saves(st')[..k] == Saves(st');
  }

  /** The flags of an entry change in place. */
  lemma FlagsReplaced(tab: Chains, st: Store, vp: VarId, flags: Flags)
    requires Good(tab, st) && vp in st.entries && Owns(flags) == Owns(st.entries[vp].flags)
    requires FlagsOk(st.statics, vp, flags) && (VSTRFIXED in st.entries[vp].flags ==> VSTRFIXED in flags)
    ensures var e := st.entries[vp];
            var st' := st.(entries := st.entries[vp := Entry(flags, e.text)]);
            && Good(tab, st') && Saves(st') == Saves(st)
            && ViewOf(st') == ViewOf(st)[NameOf(st.texts[e.text]) := Binding(flags, st.texts[e.text])]
  {
    hide IsText, NameOf, LocalOwns, EntryOwns, HashOf, Owns;
    var e := st.entries[vp];
    var n := NameOf(st.texts[e.text]);
    var st' := st.(entries := st.entries[vp := Entry(flags, e.text)]);
    FlagsChanged(st, vp, flags);
    TableKept(tab, st, st');
    SavesSame(st, st');
    assert st.index[n] == vp && st.index == st.index[n := vp];
    ViewUpdated(st, st', vp);
  }
}
