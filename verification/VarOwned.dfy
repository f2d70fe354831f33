/** Every text on the heap has an owner that will free it: an entry, or the record of a local variable. */
module VarOwned {
  import opened VarStore

  ghost predicate EntryHas(st: Store, t: TextId, vp: VarId) {
    vp in st.entries && st.entries[vp].text == t && Owns(st.entries[vp].flags)
  }

  ghost predicate RecordHas(st: Store, t: TextId, i: int) {
    0 <= i < |st.locals| && !IsNew(st.locals[i]) && st.locals[i].text == t && Owns(st.locals[i].flags)
  }

  ghost predicate HasOwner(st: Store, t: TextId) {
    (exists vp :: EntryHas(st, t, vp)) || (exists i :: RecordHas(st, t, i))
  }

  /** No text on the heap is lost, but for some that a caller still has. */
  ghost predicate AllOwned(st: Store, spare: set<TextId>) {
    forall t :: t in st.texts && t !in st.fixed && t !in spare ==> HasOwner(st, t)
  }

  /** Texts keep an owner when the entries and records that own them stay. */
  lemma OwnersStay(st: Store, st': Store, spare: set<TextId>, spare': set<TextId>)
    requires AllOwned(st, spare)
    requires forall t :: t in st'.texts && t !in st'.fixed && t !in spare' ==>
               HasOwner(st', t) || (t in st.texts && t !in st.fixed && t !in spare)
    requires forall t, vp :: t in st'.texts && EntryHas(st, t, vp) ==> HasOwner(st', t)
    requires forall t, i :: t in st'.texts && RecordHas(st, t, i) ==> HasOwner(st', t)
    ensures AllOwned(st', spare')
  {
    hide EntryHas, RecordHas;
    forall t | t in st'.texts && t !in st'.fixed && t !in spare'
      ensures HasOwner(st', t)
    {
      if t in st.texts && t !in st.fixed && t !in spare {
        assert HasOwner(st, t);
      }
    }
  }

  lemma FixedSpare(st: Store, t: TextId)
    requires t in st.fixed
    ensures AllOwned(st, {t}) <==> AllOwned(st, {})
  {
    hide HasOwner;
  }

  /** A new text belongs to who asked for it; or it is not on the heap. */
  lemma NewSpare(st: Store, t: TextId, s: string)
    requires t !in st.texts && AllOwned(st, {})
    ensures AllOwned(st.(texts := st.texts[t := s]), {t})
    ensures AllOwned(st.(texts := st.texts[t := s], fixed := st.fixed + {t}), {})
  {
    OwnersStay(st, st.(texts := st.texts[t := s]), {}, {t}) by {
      SameOwners(st, st.(texts := st.texts[t := s]));
    }
    OwnersStay(st, st.(texts := st.texts[t := s], fixed := st.fixed + {t}), {}, {}) by {
      SameOwners(st, st.(texts := st.texts[t := s], fixed := st.fixed + {t}));
    }
  }

  /** What owns what depends on the entries and the records alone. */
  lemma SameOwners(st: Store, st': Store)
    requires st'.entries == st.entries && st'.locals == st.locals
    ensures forall t, vp :: EntryHas(st, t, vp) ==> HasOwner(st', t)
    ensures forall t, i :: RecordHas(st, t, i) ==> HasOwner(st', t)
  {
    forall t, vp | EntryHas(st, t, vp)
      ensures HasOwner(st', t)
    {
      assert EntryHas(st', t, vp);
    }
    forall t, i | RecordHas(st, t, i)
      ensures HasOwner(st', t)
    {
      assert RecordHas(st', t, i);
    }
  }

  /** A spare text is freed. */
  lemma SpareFreed(st: Store, t: TextId)
    requires AllOwned(st, {t})
    ensures AllOwned(st.(texts := st.texts - {t}), {})
  {
    var st' := st.(texts := st.texts - {t});
    SameOwners(st, st');
    OwnersStay(st, st', {t}, {});
  }

  /** An entry gets another text, and the one it owned is freed. */
  lemma RewriteOwned(st: Store, vp: VarId, flags: Flags, t: TextId, texts: map<TextId, string>, spare: set<TextId>)
    requires AllOwned(st, spare) && vp in st.entries
    requires texts.Keys == (st.texts.Keys - Freed(st.entries[vp])) + {t} && (Owns(flags) || t in st.fixed)
    requires EntryOwns(st)
    ensures AllOwned(st.(entries := st.entries[vp := Entry(flags, t)], texts := texts), spare - {t})
  {
    hide Owns;
    var st' := st.(entries := st.entries[vp := Entry(flags, t)], texts := texts);
    assert Owns(flags) ==> EntryHas(st', t, vp);
    forall u | u in st'.texts && u in Freed(st.entries[vp])
      ensures HasOwner(st', u)
    {
      assert u == t && u !in st.fixed;
    }
    OthersStay(st, st', vp);
    OwnersStay(st, st', spare, spare - {t});
  }

  /** The other entries, and the records, own what they did. */
  lemma OthersStay(st: Store, st': Store, vp: VarId)
    requires vp in st.entries && st'.locals == st.locals
    requires forall v :: v in st.entries && v != vp ==> v in st'.entries && st'.entries[v] == st.entries[v]
    requires forall t :: t in st'.texts && t in Freed(st.entries[vp]) ==> HasOwner(st', t)
    ensures forall t, v :: t in st'.texts && EntryHas(st, t, v) ==> HasOwner(st', t)
    ensures forall t, i :: t in st'.texts && RecordHas(st, t, i) ==> HasOwner(st', t)
  {
    hide Owns;
    forall t, v | t in st'.texts && EntryHas(st, t, v)
      ensures HasOwner(st', t)
    {
      if v == vp {
        assert t in Freed(st.entries[vp]);
      } else {
        assert EntryHas(st', t, v);
      }
    }
    forall t, i | t in st'.texts && RecordHas(st, t, i)
      ensures HasOwner(st', t)
    {
      assert RecordHas(st', t, i);
    }
  }

  /** A new entry. */
  lemma InsertOwned(st: Store, vp: VarId, flags: Flags, t: TextId, texts: map<TextId, string>, name: string,
                    spare: set<TextId>)
    requires AllOwned(st, spare) && vp !in st.entries
    requires texts.Keys == st.texts.Keys + {t} && (Owns(flags) || t in st.fixed)
    ensures AllOwned(st.(entries := st.entries[vp := Entry(flags, t)], texts := texts, index := st.index[name := vp]),
                     spare - {t})
  {
    hide Owns;
    var st' := st.(entries := st.entries[vp := Entry(flags, t)], texts := texts, index := st.index[name := vp]);
    assert Owns(flags) ==> EntryHas(st', t, vp);
    forall u, v | EntryHas(st, u, v)
      ensures HasOwner(st', u)
    {
      assert EntryHas(st', u, v);
    }
    forall u, i | RecordHas(st, u, i)
      ensures HasOwner(st', u)
    {
      assert RecordHas(st', u, i);
    }
    OwnersStay(st, st', spare, spare - {t});
  }

  /** An entry goes with the text that it owned. */
  lemma RemoveOwned(st: Store, vp: VarId, name: string, spare: set<TextId>)
    requires AllOwned(st, spare) && vp in st.entries
    ensures AllOwned(st.(entries := st.entries - {vp}, texts := st.texts - Freed(st.entries[vp]),
                         index := st.index - {name}), spare)
  {
    hide Owns;
    var st' := st.(entries := st.entries - {vp}, texts := st.texts - Freed(st.entries[vp]), index := st.index - {name});
    OthersStay(st, st', vp);
    OwnersStay(st, st', spare, spare);
  }

  /** The flags of an entry change, but not whether it owns its text. */
  lemma FlagsOwned(st: Store, vp: VarId, flags: Flags)
    requires AllOwned(st, {}) && vp in st.entries && Owns(flags) == Owns(st.entries[vp].flags)
    ensures AllOwned(st.(entries := st.entries[vp := Entry(flags, st.entries[vp].text)]), {})
  {
    hide Owns;
    var st' := st.(entries := st.entries[vp := Entry(flags, st.entries[vp].text)]);
    forall u | u in st'.texts && u in Freed(st.entries[vp])
      ensures HasOwner(st', u)
    {
      assert EntryHas(st', u, vp);
    }
    OthersStay(st, st', vp);
    OwnersStay(st, st', {}, {});
  }

  /** The record of a variable takes over its text. */
  lemma PushOwned(st: Store, vp: VarId)
    requires AllOwned(st, {}) && vp in st.entries && st.entries[vp].flags != {VUNSET}
    ensures var e := st.entries[vp];
            AllOwned(st.(entries := st.entries[vp := Entry(e.flags + {VSTRFIXED, VTEXTFIXED}, e.text)],
                         locals := st.locals + [Local(vp, e.flags, e.text)]), {})
  {
    var e := st.entries[vp];
    var l := Local(vp, e.flags, e.text);
    var st' := st.(entries := st.entries[vp := Entry(e.flags + {VSTRFIXED, VTEXTFIXED}, e.text)],
                   locals := st.locals + [l]);
    forall u, v | EntryHas(st, u, v)
      ensures HasOwner(st', u)
    {
      if v == vp {
        assert st'.locals[|st.locals|] == l;
        assert RecordHas(st', u, |st.locals|);
      } else {
        assert EntryHas(st', u, v);
      }
    }
    forall u, i | RecordHas(st, u, i)
      ensures HasOwner(st', u)
    {
      assert st'.locals[i] == st.locals[i];
      assert RecordHas(st', u, i);
    }
    OwnersStay(st, st', {}, {});
  }

  /** A record of no entry owns nothing, so it may come and go. */
  lemma NewRecordOwned(st: Store, l: Local)
    requires IsNew(l)
    ensures AllOwned(st.(locals := st.locals + [l]), {}) <==> AllOwned(st, {})
  {
    var st' := st.(locals := st.locals + [l]);
    forall t
      ensures HasOwner(st', t) <==> HasOwner(st, t)
    {
      assert forall vp :: EntryHas(st, t, vp) <==> EntryHas(st', t, vp);
      forall i
        ensures RecordHas(st, t, i) <==> RecordHas(st', t, i)
      {
        if 0 <= i < |st.locals| {
          assert st'.locals[i] == st.locals[i];
        } else if i == |st.locals| {
          assert st'.locals[i] == l;
        }
      }
    }
    hide HasOwner;
  }

  /** The last record is put back, and the text that the entry owned is freed. */
  lemma PopOwned(st: Store)
    requires AllOwned(st, {}) && st.locals != [] && !IsNew(st.locals[|st.locals| - 1])
    requires st.locals[|st.locals| - 1].vp in st.entries
    ensures var l := st.locals[|st.locals| - 1];
            AllOwned(st.(entries := st.entries[l.vp := Entry(l.flags, l.text)],
                         texts := st.texts - Freed(st.entries[l.vp]), locals := st.locals[..|st.locals| - 1]), {})
  {
    hide Owns, IsNew;
    var k := |st.locals| - 1;
    var l := st.locals[k];
    var st' := st.(entries := st.entries[l.vp := Entry(l.flags, l.text)],
                   texts := st.texts - Freed(st.entries[l.vp]), locals := st.locals[..k]);
    forall u, v | u in st'.texts && EntryHas(st, u, v)
      ensures HasOwner(st', u)
    {
      if v != l.vp {
        assert EntryHas(st', u, v);
      }
    }
    forall u, i | u in st'.texts && RecordHas(st, u, i)
      ensures HasOwner(st', u)
    {
      if i == k {
        assert EntryHas(st', u, l.vp);
      } else {
        assert st'.locals[i] == st.locals[i];
        assert RecordHas(st', u, i);
      }
    }
    OwnersStay(st, st', {}, {});
  }

  /** A record that is forgotten loses its text just when it owned it. */
  lemma DropOwned(st: Store)
    requires AllOwned(st, {}) && Sound(st) && st.locals != [] && !IsNew(st.locals[|st.locals| - 1])
    requires VTEXTFIXED in st.entries[st.locals[|st.locals| - 1].vp].flags
    ensures var k := |st.locals| - 1;
            AllOwned(st.(locals := st.locals[..k]), {}) <==> !Owns(st.locals[k].flags)
  {
    var k := |st.locals| - 1;
    var l := st.locals[k];
    var st' := st.(locals := st.locals[..k]);
    assert forall i :: 0 <= i < k ==> st'.locals[i] == st.locals[i];
    if Owns(l.flags) {
      assert l.text in st.texts && l.text !in st.fixed;
      assert !HasOwner(st', l.text);
    } else {
      forall u, v | EntryHas(st, u, v)
        ensures HasOwner(st', u)
      {
        assert EntryHas(st', u, v);
      }
      forall u, i | RecordHas(st, u, i)
        ensures HasOwner(st', u)
      {
        assert RecordHas(st', u, i);
      }
      OwnersStay(st, st', {}, {});
    }
  }

  /** A static entry has a static text. */
  lemma StaticOwned(st: Store, vp: VarId, flags: Flags, t: TextId, text: string, name: string)
    requires AllOwned(st, {}) && vp !in st.entries
    ensures AllOwned(Store(st.entries[vp := Entry(flags, t)], st.texts[t := text], st.index[name := vp],
                           st.fixed + {t}, st.statics + {vp}, st.locals), {})
  {
    var st' := Store(st.entries[vp := Entry(flags, t)], st.texts[t := text], st.index[name := vp],
                     st.fixed + {t}, st.statics + {vp}, st.locals);
    forall u, v | EntryHas(st, u, v)
      ensures HasOwner(st', u)
    {
      assert EntryHas(st', u, v);
    }
    forall u, i | RecordHas(st, u, i)
      ensures HasOwner(st', u)
    {
      assert RecordHas(st', u, i);
    }
    OwnersStay(st, st', {}, {});
  }
}
