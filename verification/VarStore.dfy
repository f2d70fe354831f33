/**
 * Shell variables: what the entries, the texts they refer to and the saved records of local variables have to
 * satisfy, so that no text and no entry in use is freed (src/var.c).
 */
module VarStore {
  import opened CharClass

  datatype Flag = VEXPORT | VREADONLY | VSTRFIXED | VTEXTFIXED | VSTACK | VUNSET | VNOFUNC | VNOSAVE

  type Flags = set<Flag>

  /** The addresses of the variables' entries and of their texts. */
  type VarId = int
  type TextId = int

  datatype Entry = Entry(flags: Flags, text: TextId)

  /** A saved record. Its flags are {VUNSET} if there was no entry; then the text is of no use. */
  datatype Local = Local(vp: VarId, flags: Flags, text: TextId)

  /** A text: name or name=value. */
  predicate IsText(s: string) {
    EndOfName(s) > 0 && (EndOfName(s) == |s| || s[EndOfName(s)] == '=')
  }

  function NameOf(s: string): string {
    s[..EndOfName(s)]
  }

  /** Whether a text is to be freed with the reference to it. */
  predicate Owns(flags: Flags) {
    VTEXTFIXED !in flags && VSTACK !in flags
  }

  predicate IsNew(l: Local) {
    l.flags == {VUNSET}
  }

  /**
   * Everything in memory: index says which entry a name has, fixed and statics are what is not on the heap, and
   * locals are the saved records of all scopes, the newest last.
   */
  datatype Store = Store(
    entries: map<VarId, Entry>,
    texts: map<TextId, string>,
    index: map<string, VarId>,
    fixed: set<TextId>,
    statics: set<VarId>,
    locals: seq<Local>)

  /** Unset entries are marked in a way that a saved record of them does not look like one of no entry. */
  predicate FlagsOk(statics: set<VarId>, vp: VarId, flags: Flags) {
    (VUNSET in flags ==> VNOSAVE in flags || vp in statics) && (vp in statics ==> VSTRFIXED in flags)
  }

  ghost predicate EntriesOk(st: Store) {
    && (forall vp :: vp in st.entries ==>
          && st.entries[vp].text in st.texts && IsText(st.texts[st.entries[vp].text])
          && FlagsOk(st.statics, vp, st.entries[vp].flags))
    && (forall vp :: vp in st.statics ==> vp in st.entries)
    && (forall t :: t in st.fixed ==> t in st.texts)
  }

  /** Each name has at most one entry, and index finds it. */
  ghost predicate IndexOk(st: Store)
    requires EntriesOk(st)
  {
    && (forall vp :: vp in st.entries ==>
          var n := NameOf(st.texts[st.entries[vp].text]); n in st.index && st.index[n] == vp)
    && (forall n :: n in st.index ==>
          st.index[n] in st.entries && NameOf(st.texts[st.entries[st.index[n]].text]) == n)
  }

  /** An entry with saved records is not freed, and the records are of the same variable. */
  ghost predicate LocalsOk(st: Store)
    requires EntriesOk(st)
  {
    && (forall i :: 0 <= i < |st.locals| ==>
          var l := st.locals[i];
          && l.vp in st.entries && VSTRFIXED in st.entries[l.vp].flags
          && (IsNew(l) ==> l.vp !in st.statics)
          && (!IsNew(l) ==>
                && l.text in st.texts && IsText(st.texts[l.text]) && FlagsOk(st.statics, l.vp, l.flags)
                && NameOf(st.texts[l.text]) == NameOf(st.texts[st.entries[l.vp].text])))
    && (forall i, j :: 0 <= i < j < |st.locals| && st.locals[i].vp == st.locals[j].vp ==>
          !IsNew(st.locals[j]) && VSTRFIXED in st.locals[j].flags)
  }

  /** Nothing but the entry refers to a text that an entry owns. */
  ghost predicate EntryOwns(st: Store) {
    forall vp :: vp in st.entries && Owns(st.entries[vp].flags) ==>
      && st.entries[vp].text !in st.fixed
      && (forall other :: other in st.entries && other != vp ==> st.entries[other].text != st.entries[vp].text)
      && (forall i :: 0 <= i < |st.locals| && !IsNew(st.locals[i]) ==> st.locals[i].text != st.entries[vp].text)
  }

  /** Only later records of the same variable, and its entry, refer to a text that a record owns. */
  ghost predicate LocalOwns(st: Store) {
    forall i :: 0 <= i < |st.locals| && !IsNew(st.locals[i]) && Owns(st.locals[i].flags) ==>
      && st.locals[i].text !in st.fixed
      && (forall vp :: vp in st.entries && st.entries[vp].text == st.locals[i].text ==> vp == st.locals[i].vp)
      && (forall j :: 0 <= j < i && !IsNew(st.locals[j]) ==> st.locals[j].text != st.locals[i].text)
      && (forall j :: i < j < |st.locals| && !IsNew(st.locals[j]) && st.locals[j].text == st.locals[i].text ==>
            st.locals[j].vp == st.locals[i].vp && !Owns(st.locals[j].flags))
  }

  ghost predicate Sound(st: Store) {
    EntriesOk(st) && IndexOk(st) && LocalsOk(st) && EntryOwns(st) && LocalOwns(st)
  }

  /** Neither an entry nor a record refers to a text. */
  ghost predicate Unreferenced(st: Store, t: TextId) {
    && (forall vp :: vp in st.entries ==> st.entries[vp].text != t)
    && (forall i :: 0 <= i < |st.locals| && !IsNew(st.locals[i]) ==> st.locals[i].text != t)
  }

  /** The text freed when an entry gets another. */
  function Freed(e: Entry): set<TextId> {
    if Owns(e.flags) then {e.text} else {}
  }

  /** All texts but some are as they were. */
  ghost predicate TextsKept(texts: map<TextId, string>, freed: set<TextId>, texts': map<TextId, string>) {
    forall t :: t in texts && t !in freed ==> t in texts' && texts'[t] == texts[t]
  }

  // ---------- what keeps the store sound ----------

  /** An entry gets another text of the same name: a fixed one, or one that nothing else refers to. */
  lemma Replaced(st: Store, vp: VarId, flags: Flags, t: TextId, texts: map<TextId, string>)
    requires Sound(st) && vp in st.entries
    requires TextsKept(st.texts, Freed(st.entries[vp]), texts)
    requires t in texts && IsText(texts[t]) && NameOf(texts[t]) == NameOf(st.texts[st.entries[vp].text])
    requires FlagsOk(st.statics, vp, flags) && (VSTRFIXED in st.entries[vp].flags ==> VSTRFIXED in flags)
    requires if Owns(flags) then t !in st.fixed && (Unreferenced(st, t) || t in Freed(st.entries[vp]))
            else t in st.fixed
    ensures Sound(st.(entries := st.entries[vp := Entry(flags, t)], texts := texts))
  {
    hide IsText, NameOf;
    var st' := st.(entries := st.entries[vp := Entry(flags, t)], texts := texts);
    assert EntriesOk(st');
    SameNames(st, st');
  }

  /** Entries keep their names. */
  lemma SameNames(st: Store, st': Store)
    requires EntriesOk(st) && EntriesOk(st') && IndexOk(st) && st'.index == st.index
            && (forall v :: v in st'.entries <==> v in st.entries)
    requires forall v :: v in st.entries ==>
               NameOf(st'.texts[st'.entries[v].text]) == NameOf(st.texts[st.entries[v].text])
    ensures IndexOk(st')
  {
    hide IsText, NameOf;
    forall v | v in st'.entries
      ensures NameOf(st'.texts[st'.entries[v].text]) in st'.index
      ensures st'.index[NameOf(st'.texts[st'.entries[v].text])] == v
    {
      assert v in st.entries;
    }
    forall n | n in st'.index
      ensures st'.index[n] in st'.entries && NameOf(st'.texts[st'.entries[st'.index[n]].text]) == n
    {
      var v: VarId := st.index[n];
      assert v in st.entries && v in st'.entries;
    }
  }

  /** A new entry, with a text that nothing refers to or a fixed one. */
  lemma Inserted(st: Store, vp: VarId, flags: Flags, t: TextId, texts: map<TextId, string>)
    requires Sound(st) && vp !in st.entries && TextsKept(st.texts, {}, texts)
    requires t in texts && IsText(texts[t]) && NameOf(texts[t]) !in st.index && FlagsOk(st.statics, vp, flags)
    requires if Owns(flags) then t !in st.fixed && Unreferenced(st, t) else t in st.fixed
    ensures Sound(st.(entries := st.entries[vp := Entry(flags, t)], texts := texts,
            index := st.index[NameOf(texts[t]) := vp]))
  {
    hide IsText, NameOf;
    var n := NameOf(texts[t]);
    var st' := st.(entries := st.entries[vp := Entry(flags, t)], texts := texts, index := st.index[n := vp]);
    assert EntriesOk(st') && IndexOk(st') by {
      hide LocalsOk, EntryOwns, LocalOwns;
      assert EntriesOk(st');
      forall v | v in st.entries
        ensures NameOf(st'.texts[st'.entries[v].text]) == NameOf(st.texts[st.entries[v].text]) != n
      {
        assert NameOf(st.texts[st.entries[v].text]) in st.index;
      }
    }
    InsertedLocals(st, st', vp);
  }

  lemma InsertedLocals(st: Store, st': Store, vp: VarId)
    requires Sound(st) && vp !in st.entries && vp in st'.entries && EntriesOk(st') && TextsKept(st.texts, {}, st'.texts)
    requires st'.entries == st.entries[vp := st'.entries[vp]] && st'.locals == st.locals
    requires st'.fixed == st.fixed && st'.statics == st.statics
    requires var e := st'.entries[vp];
             if Owns(e.flags) then e.text !in st.fixed && Unreferenced(st, e.text) else e.text in st.fixed
    ensures LocalsOk(st') && EntryOwns(st') && LocalOwns(st')
  {
    hide IsText, NameOf, IndexOk;
    assert forall i :: 0 <= i < |st.locals| ==> st.locals[i].vp in st.entries;
  }

  /** An entry that no record refers to is freed, with its text. */
  lemma Removed(st: Store, vp: VarId)
    requires Sound(st) && vp in st.entries && VSTRFIXED !in st.entries[vp].flags
    ensures vp !in st.statics
    ensures var n := NameOf(st.texts[st.entries[vp].text]);
            Sound(st.(entries := st.entries - {vp}, texts := st.texts - Freed(st.entries[vp]), index := st.index - {n}))
  {
    hide IsText, NameOf, Owns;
    var n := NameOf(st.texts[st.entries[vp].text]);
    var st' := st.(entries := st.entries - {vp}, texts := st.texts - Freed(st.entries[vp]), index := st.index - {n});
    RemovedIndex(st, vp);
    assert forall i :: 0 <= i < |st.locals| ==> st.locals[i].vp in st.entries;
  }

  lemma RemovedIndex(st: Store, vp: VarId)
    requires Sound(st) && vp in st.entries && VSTRFIXED !in st.entries[vp].flags
    ensures var n := NameOf(st.texts[st.entries[vp].text]);
            var st' := st.(entries := st.entries - {vp}, texts := st.texts - Freed(st.entries[vp]),
                index := st.index - {n});
            EntriesOk(st') && IndexOk(st')
  {
    hide IsText, NameOf, LocalsOk, LocalOwns;
    var n := NameOf(st.texts[st.entries[vp].text]);
    var st' := st.(entries := st.entries - {vp}, texts := st.texts - Freed(st.entries[vp]), index := st.index - {n});
    assert forall v :: v in st.entries && v != vp ==> st.entries[v].text in st'.texts;
    assert EntriesOk(st');
    forall m | m in st'.index
      ensures st'.index[m] in st'.entries && NameOf(st'.texts[st'.entries[st'.index[m]].text]) == m
    {
      assert st.index[m] in st.entries;
    }
  }

  /** A text that nothing refers to is freed, or allocated. */
  lemma TextGone(st: Store, t: TextId)
    requires Sound(st) && t !in st.fixed && Unreferenced(st, t)
    ensures Sound(st.(texts := st.texts - {t}))
  {
    hide IsText, NameOf;
    var st' := st.(texts := st.texts - {t});
    assert EntriesOk(st');
    SameNames(st, st');
  }

  lemma TextNew(st: Store, t: TextId, s: string)
    requires Sound(st) && t !in st.texts
    ensures Sound(st.(texts := st.texts[t := s])) && Unreferenced(st, t) && t !in st.fixed
  {
    hide IsText, NameOf;
    var st' := st.(texts := st.texts[t := s]);
    assert EntriesOk(st');
    SameNames(st, st');
  }

  /** A record of an existing entry: the record owns the text now, and neither is freed. */
  lemma RecordPushed(st: Store, vp: VarId)
    requires Sound(st) && vp in st.entries
    ensures var e := st.entries[vp];
            Sound(st.(entries := st.entries[vp := Entry(e.flags + {VSTRFIXED, VTEXTFIXED}, e.text)],
                      locals := st.locals + [Local(vp, e.flags, e.text)]))
  {
    hide IsText, NameOf;
    var e := st.entries[vp];
    var st' := st.(entries := st.entries[vp := Entry(e.flags + {VSTRFIXED, VTEXTFIXED}, e.text)],
                   locals := st.locals + [Local(vp, e.flags, e.text)]);
    assert EntriesOk(st');
    SameNames(st, st');
    assert e.flags != {VUNSET};
  }

  /** A record of an entry that was made for it. */
  lemma NewRecordPushed(st: Store, vp: VarId, t: TextId)
    requires Sound(st) && vp in st.entries && vp !in st.statics && VSTRFIXED in st.entries[vp].flags
    requires forall i :: 0 <= i < |st.locals| ==> st.locals[i].vp != vp
    ensures Sound(st.(locals := st.locals + [Local(vp, {VUNSET}, t)]))
  {
    hide IsText, NameOf;
    var st' := st.(locals := st.locals + [Local(vp, {VUNSET}, t)]);
    assert EntriesOk(st');
    SameNames(st, st');
  }

  /** The last record is put back. */
  lemma RecordPopped(st: Store)
    requires Sound(st) && st.locals != [] && !IsNew(st.locals[|st.locals| - 1])
    ensures var l := st.locals[|st.locals| - 1];
            Sound(st.(entries := st.entries[l.vp := Entry(l.flags, l.text)],
                      texts := st.texts - Freed(st.entries[l.vp]),
                      locals := st.locals[..|st.locals| - 1]))
  {
    hide IsText, NameOf;
    var l := st.locals[|st.locals| - 1];
    var st' := st.(entries := st.entries[l.vp := Entry(l.flags, l.text)],
                   texts := st.texts - Freed(st.entries[l.vp]),
                   locals := st.locals[..|st.locals| - 1]);
    assert forall i :: 0 <= i < |st.locals| ==> st.locals[i].vp in st.entries;
    assert EntriesOk(st');
    SameNames(st, st');
  }

  /** The last record of an entry made for it goes; then the entry may be freed too. */
  lemma NewRecordPopped(st: Store)
    requires Sound(st) && st.locals != [] && IsNew(st.locals[|st.locals| - 1])
    ensures var l := st.locals[|st.locals| - 1];
            && l.vp in st.entries
            && Sound(st.(entries := st.entries[l.vp := Entry(st.entries[l.vp].flags - {VSTRFIXED, VREADONLY},
                st.entries[l.vp].text)],
                         locals := st.locals[..|st.locals| - 1]))
  {
    hide IsText, NameOf;
    var l := st.locals[|st.locals| - 1];
    var e := st.entries[l.vp];
    var st' := st.(entries := st.entries[l.vp := Entry(e.flags - {VSTRFIXED, VREADONLY}, e.text)],
                   locals := st.locals[..|st.locals| - 1]);
    assert EntriesOk(st');
    SameNames(st, st');
  }

  /** The flags of an entry change, but not whether it owns its text. */
  lemma FlagsChanged(st: Store, vp: VarId, flags: Flags)
    requires Sound(st) && vp in st.entries && Owns(flags) == Owns(st.entries[vp].flags)
    requires FlagsOk(st.statics, vp, flags) && (VSTRFIXED in st.entries[vp].flags ==> VSTRFIXED in flags)
    ensures Sound(st.(entries := st.entries[vp := Entry(flags, st.entries[vp].text)]))
  {
    hide IsText, NameOf, Owns;
    var st' := st.(entries := st.entries[vp := Entry(flags, st.entries[vp].text)]);
    assert EntriesOk(st');
    SameNames(st, st');
  }

  /** A static entry with a static text. */
  lemma StaticInserted(st: Store, vp: VarId, flags: Flags, t: TextId, text: string)
    requires Sound(st) && vp !in st.entries && t !in st.texts && IsText(text) && NameOf(text) !in st.index
    requires VSTRFIXED in flags && VTEXTFIXED in flags
    ensures Sound(Store(st.entries[vp := Entry(flags, t)], st.texts[t := text], st.index[NameOf(text) := vp],
                        st.fixed + {t}, st.statics + {vp}, st.locals))
  {
    hide IsText, NameOf;
    var st' := Store(st.entries[vp := Entry(flags, t)], st.texts[t := text], st.index[NameOf(text) := vp],
                     st.fixed + {t}, st.statics + {vp}, st.locals);
    assert forall i :: 0 <= i < |st.locals| ==> st.locals[i].vp in st.entries;
    StaticIndex(st, st', vp);
    assert EntriesOk(st');
  }

  lemma StaticIndex(st: Store, st': Store, vp: VarId)
    requires EntriesOk(st) && IndexOk(st) && vp !in st.entries && vp in st'.entries
    requires st'.entries == st.entries[vp := st'.entries[vp]] && TextsKept(st.texts, {}, st'.texts)
    requires var e := st'.entries[vp];
             e.text in st'.texts && IsText(st'.texts[e.text]) && VSTRFIXED in e.flags
             && NameOf(st'.texts[e.text]) !in st.index && st'.index == st.index[NameOf(st'.texts[e.text]) := vp]
    requires st'.statics == st.statics + {vp} && (forall t :: t in st'.fixed ==> t in st'.texts)
    ensures EntriesOk(st') && IndexOk(st')
  {
    hide IsText, NameOf;
    assert EntriesOk(st');
    var n := NameOf(st'.texts[st'.entries[vp].text]);
    forall v | v in st.entries
      ensures NameOf(st'.texts[st'.entries[v].text]) == NameOf(st.texts[st.entries[v].text]) != n
    {
      assert NameOf(st.texts[st.entries[v].text]) in st.index;
    }
  }
}
