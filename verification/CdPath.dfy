/** The logical current directory (updatepwd in src/cd.c). */
module CdPath {
  import opened Option

  // ---------- paths ----------

  /** Up to the first slash. */
  function FirstSlash(s: string): (n: nat)
    ensures n <= |s| && '/' !in s[..n] && (n < |s| ==> s[n] == '/')
  {
    if s == "" || s[0] == '/' then 0
    else
      var n := FirstSlash(s[1..]);
      assert s[..n + 1] == [s[0]] + s[1..][..n];
      n + 1
  }

  predicate Parts(cs: seq<string>) {
    forall i :: 0 <= i < |cs| ==> cs[i] != "" && '/' !in cs[i]
  }

  predicate NoSlashes(cs: seq<string>) {
    forall i :: 0 <= i < |cs| ==> '/' !in cs[i]
  }

  /** The parts of a path between slashes, without empty ones. */
  function Components(s: string): (cs: seq<string>)
    ensures Parts(cs)
    decreases |s|
  {
    if s == "" then []
    else if s[0] == '/' then Components(s[1..])
    else
      var n := FirstSlash(s);
      [s[..n]] + Components(s[n..])
  }

  /** A component of a normal path: a name. */
  predicate IsName(c: string) {
    c != "" && '/' !in c && c != "." && c != ".."
  }

  predicate Names(cs: seq<string>) {
    forall i :: 0 <= i < |cs| ==> IsName(cs[i])
  }

  /** The components with a slash after each. */
  function Slashed(cs: seq<string>): string
    decreases |cs|
  {
    if cs == [] then "" else Slashed(cs[..|cs| - 1]) + cs[|cs| - 1] + "/"
  }

  function Root(twice: bool): string {
    if twice then "//" else "/"
  }

  /** An absolute path: a slash, or two, and components with slashes between them. */
  function Path(twice: bool, cs: seq<string>): string {
    var s := Root(twice) + Slashed(cs);
    if cs == [] then s else s[..|s| - 1]
  }

  // ---------- what changing the directory means ----------

  /** From left to right: a dot stays, two dots go up but not above the root, and a name goes down. */
  function Walk(cs: seq<string>, steps: seq<string>): seq<string>
    decreases |steps|
  {
    if steps == [] then cs
    else if steps[0] == "." then Walk(cs, steps[1..])
    else if steps[0] == ".." then Walk(if cs == [] then [] else cs[..|cs| - 1], steps[1..])
    else Walk(cs + [steps[0]], steps[1..])
  }

  /** Two slashes at the front are kept, but not three. */
  predicate StartsTwice(s: string) {
    |s| >= 2 && s[0] == '/' && s[1] == '/' && !(|s| >= 3 && s[2] == '/')
  }

  /** Where dir leads from the directory with the components cs. */
  function Resolve(twice: bool, cs: seq<string>, dir: string): string {
    if dir != "" && dir[0] == '/' then Path(StartsTwice(dir), Walk([], Components(dir)))
    else Path(twice, Walk(cs, Components(dir)))
  }

  /** How many of k parts are left after the steps, when there are e names after them. */
  function Left(k: nat, e: nat, steps: seq<string>): (n: nat)
    ensures n <= k
    decreases |steps|
  {
    if steps == [] then k
    else if steps[0] == "." then Left(k, e, steps[1..])
    else if steps[0] == ".." then
      if e > 0 then Left(k, e - 1, steps[1..]) else Left(if k > 0 then k - 1 else 0, 0, steps[1..])
    else Left(k, e + 1, steps[1..])
  }

  /**
   * The result has no dots, no empty components, and no slash at its end but the root's, just when what is left of
   * the directory it started from has none.
   */
  lemma {:induction false} WalkNames(cs: seq<string>, k: nat, names: seq<string>, steps: seq<string>)
    requires k <= |cs| && Names(names) && Parts(steps)
    ensures Names(Walk(cs[..k] + names, steps)) <==> Names(cs[..Left(k, |names|, steps)])
    decreases |steps|
  {
    if steps == [] {
      NamesBoth(cs[..k], names);
    } else if steps[0] == "." {
      WalkNames(cs, k, names, steps[1..]);
    } else if steps[0] == ".." {
      Shorter(cs, k, names);
      if names != [] {
        WalkNames(cs, k, names[..|names| - 1], steps[1..]);
      } else {
        assert cs[..k] + [] == cs[..k];
        WalkNames(cs, if k > 0 then k - 1 else 0, [], steps[1..]);
      }
    } else {
      assert cs[..k] + names + [steps[0]] == cs[..k] + (names + [steps[0]]);
      WalkNames(cs, k, names + [steps[0]], steps[1..]);
    }
  }

  lemma NamesBoth(cs: seq<string>, names: seq<string>)
    requires Names(names)
    ensures Names(cs + names) <==> Names(cs)
  {
    hide IsName;
    assert forall i :: 0 <= i < |cs| ==> (cs + names)[i] == cs[i];
  }

  lemma Shorter(cs: seq<string>, k: nat, names: seq<string>)
    requires k <= |cs|
    ensures var all := cs[..k] + names;
            (if all == [] then [] else all[..|all| - 1])
            == if names != [] then cs[..k] + names[..|names| - 1]
               else cs[..if k > 0 then k - 1 else 0] + []
  {}

  /** Names lead down. */
  lemma {:induction false} WalkDown(cs: seq<string>, steps: seq<string>)
    requires Names(steps)
    ensures Walk(cs, steps) == cs + steps
    decreases |steps|
  {
    if steps == [] {
      assert cs + steps == cs;
    } else {
      assert IsName(steps[0]);
      WalkDown(cs + [steps[0]], steps[1..]);
      assert cs + [steps[0]] + steps[1..] == cs + steps;
    }
  }

  lemma {:induction false} FirstSlashAt(c: string, s: string)
    requires '/' !in c && (s == "" || s[0] == '/')
    ensures FirstSlash(c + s) == |c|
  {
    if c == "" {
      assert c + s == s;
    } else {
      assert (c + s)[1..] == c[1..] + s;
      FirstSlashAt(c[1..], s);
    }
  }

  lemma ComponentsFirst(c: string, s: string)
    requires c != "" && '/' !in c && (s == "" || s[0] == '/')
    ensures Components(c + s) == [c] + Components(s)
  {
    FirstSlashAt(c, s);
    assert (c + s)[..|c|] == c && (c + s)[|c|..] == s;
  }

  lemma {:induction false} SlashedFront(cs: seq<string>)
    requires cs != []
    ensures Slashed(cs) == cs[0] + "/" + Slashed(cs[1..])
    decreases |cs|
  {
    if |cs| > 1 {
      SlashedFront(cs[..|cs| - 1]);
      assert cs[..|cs| - 1][1..] == cs[1..][..|cs| - 2];
      assert cs[1..][|cs| - 2] == cs[|cs| - 1];
    } else {
      assert cs[..0] == [] && cs[1..] == [];
    }
  }

  lemma ComponentsOne(c: string, rest: string)
    requires c != "" && '/' !in c
    ensures Components(c + ("/" + rest)) == [c] + Components(rest)
  {
    ComponentsFirst(c, "/" + rest);
    assert ("/" + rest)[1..] == rest;
  }

  lemma SlashedNone(s: string)
    ensures Slashed([]) + s == s && [] + Components(s) == Components(s)
  {
  }

  lemma SlashedApart(cs: seq<string>, s: string)
    requires cs != []
    ensures Slashed(cs) + s == cs[0] + ("/" + (Slashed(cs[1..]) + s))
  {
    SlashedFront(cs);
    hide Slashed;
  }

  /** The components of a path are those it was made of. */
  lemma {:induction false} ComponentsAfter(cs: seq<string>, s: string)
    requires Parts(cs)
    ensures Components(Slashed(cs) + s) == cs + Components(s)
    decreases |cs|
  {
    hide Slashed, Components;
    if cs == [] {
      SlashedNone(s);
    } else {
      ComponentsAfter(cs[1..], s);
      SlashedApart(cs, s);
      ComponentsOne(cs[0], Slashed(cs[1..]) + s);
      assert [cs[0]] + (cs[1..] + Components(s)) == cs + Components(s);
    }
  }

  /** A path without the slash at its end. */
  lemma PathText(twice: bool, cs: seq<string>)
    requires Parts(cs)
    ensures var body := if cs == [] then "" else Slashed(cs[..|cs| - 1]) + cs[|cs| - 1];
            Path(twice, cs) == Root(twice) + body && Components(body) == cs
    ensures cs != [] ==>
              var body := Slashed(cs[..|cs| - 1]) + cs[|cs| - 1]; body != "" && body[0] == cs[0][0]
  {
    if cs != [] {
      var front, last := cs[..|cs| - 1], cs[|cs| - 1];
      ComponentsAfter(front, last);
      ComponentsFirst(last, "");
      assert last + "" == last && front + [last] == cs;
      if front != [] {
        SlashedFront(front);
      }
    }
  }

  /** What a normal path reads as. */
  lemma PathReads(twice: bool, cs: seq<string>)
    requires Names(cs)
    ensures var p := Path(twice, cs);
            p[0] == '/' && StartsTwice(p) == twice && Components(p) == cs
  {
    PathText(twice, cs);
    var body := if cs == [] then "" else Slashed(cs[..|cs| - 1]) + cs[|cs| - 1];
    assert cs != [] ==> IsName(cs[0]) && cs[0][0] != '/';
    hide Slashed, Path, FirstSlash;
    if twice {
      assert (Root(twice) + body)[1..] == "/" + body;
      assert ("/" + body)[1..] == body;
    } else {
      assert (Root(twice) + body)[1..] == body;
    }
  }

  /** Changing to a normal absolute path changes to just that. */
  lemma ResolveNormal(twice: bool, cs: seq<string>, twice0: bool, cs0: seq<string>)
    requires Names(cs)
    ensures Resolve(twice0, cs0, Path(twice, cs)) == Path(twice, cs)
  {
    PathReads(twice, cs);
    WalkDown([], cs);
    assert [] + cs == cs;
    hide Components, Walk, StartsTwice, Path;
  }

  // ---------- src/cd.c ----------

  lemma SkipSlash(s: string, p: nat)
    requires p < |s| && s[p] == '/'
    ensures Components(s[p..]) == Components(s[p + 1..])
  {
    assert s[p..][1..] == s[p + 1..];
  }

  lemma NoComponents(s: string)
    requires s == ""
    ensures Components(s) == []
  {
  }

  /** The next component from pos on, and where to go on (strtok with a slash); None at the end. */
  method StrTok(s: string, pos: nat) returns (c: Option<string>, pos': nat)
    requires pos <= |s|
    ensures pos <= pos' <= |s|
    ensures c == None ==> Components(s[pos..]) == []
    ensures c.Some? ==>
              && Components(s[pos..]) == [c.value] + Components(s[pos'..]) && c.value != "" && '/' !in c.value
              && pos + |c.value| <= pos' && (pos' < |s| ==> pos + |c.value| < pos')
  {
    hide Components;
    var p := pos;
    while p < |s| && s[p] == '/'
      invariant pos <= p <= |s| && Components(s[pos..]) == Components(s[p..])
    {
      SkipSlash(s, p);
      p := p + 1;
    }
    if p == |s| {
      NoComponents(s[p..]);
      return None, p;
    }
    var e := p;
    while e < |s| && s[e] != '/'
      invariant p <= e <= |s| && '/' !in s[p..e]
    {
      assert s[p..e + 1] == s[p..e] + [s[e]];
      e := e + 1;
    }
    assert s[p..] == s[p..e] + s[e..];
    ComponentsFirst(s[p..e], s[e..]);
    c := Some(s[p..e]);
    if e < |s| {
      SkipSlash(s, e);
      e := e + 1;
    }
    pos' := e;
  }

  /** A buffer holds a path with a slash after each component. */
  ghost predicate Holds(block: seq<char>, end: nat, twice: bool, cs: seq<string>) {
    end <= |block| && block[..end] == Root(twice) + Slashed(cs)
  }

  /** The end of the text before the last component, and what is there. */
  ghost function KeepTo(twice: bool, cs: seq<string>): nat {
    |Root(twice) + Slashed(if cs == [] then [] else cs[..|cs| - 1])|
  }

  lemma LastComponent(block: seq<char>, end0: nat, twice: bool, cs: seq<string>)
    requires Holds(block, end0, twice, cs) && NoSlashes(cs)
    ensures var k := KeepTo(twice, cs);
            && |Root(twice)| <= k <= end0 && block[k - 1] == '/'
            && (if cs == [] then k == end0 == |Root(twice)| else k < end0)
            && (forall i :: k <= i < end0 - 1 ==> block[i] != '/')
            && Holds(block, k, twice, if cs == [] then [] else cs[..|cs| - 1])
  {
    if cs != [] {
      var front, last := Root(twice) + Slashed(cs[..|cs| - 1]), cs[|cs| - 1];
      assert block[..end0] == front + last + "/";
      assert '/' !in last;
      assert forall i :: |front| <= i < end0 - 1 ==> block[..end0][i] == last[i - |front|];
      assert block[..|front|] == front;
      SlashAtEnd(cs[..|cs| - 1]);
      assert block[|front| - 1] == front[|front| - 1];
    } else {
      assert block[..end0] == Root(twice);
      assert block[end0 - 1] == block[..end0][end0 - 1];
    }
  }

  lemma SlashAtEnd(cs: seq<string>)
    ensures cs != [] ==> Slashed(cs) != "" && Slashed(cs)[|Slashed(cs)| - 1] == '/'
  {
  }

  /** Takes the last component off; above the root there is nothing. */
  method Up(block: array<char>, end0: nat, lim: nat, ghost twice: bool, ghost cs: seq<string>) returns (end: nat)
    requires Holds(block[..], end0, twice, cs) && lim == |Root(twice)| && NoSlashes(cs)
    ensures Holds(block[..], end, twice, if cs == [] then [] else cs[..|cs| - 1])
    ensures lim <= end <= end0
  {
    hide Holds, KeepTo;
    LastComponent(block[..], end0, twice, cs);
    ghost var k := KeepTo(twice, cs);
    InBlock(block[..], end0, twice, cs);
    assert block[k - 1] == '/';
    forall i | k <= i < end0 - 1
      ensures block[i] != '/'
    {
      assert block[..][i] != '/';
    }
    end := end0;
    while end > lim
      invariant k <= end <= end0 && (end < end0 ==> k < end)
      decreases end
    {
      end := end - 1;
      if block[end - 1] == '/' {
        break;
      }
    }
  }

  lemma InBlock(block: seq<char>, end: nat, twice: bool, cs: seq<string>)
    requires Holds(block, end, twice, cs)
    ensures |Root(twice)| <= end <= |block|
  {
  }

  /** Appends to the buffer, where there is room. */
  method Put(block: array<char>, end0: nat, s: string) returns (end: nat)
    requires end0 + |s| <= block.Length
    modifies block
    ensures end == end0 + |s| && block[..end] == old(block[..end0]) + s
  {
    for i := 0 to |s|
      invariant block[..end0 + i] == old(block[..end0]) + s[..i]
    {
      block[end0 + i] := s[i];
    }
    assert s[..|s|] == s;
    end := end0 + |s|;
  }

  // ---------- the current directory ----------

  /** The current directory is not known, or an absolute path. */
  predicate IsCurdir(curdir: string) {
    curdir == "" || curdir[0] == '/'
  }

  /** With a slash at its end. */
  function Opened(curdir: string): string {
    if curdir != "" && curdir[|curdir| - 1] == '/' then curdir else curdir + "/"
  }

  predicate OpensTwice(curdir: string) {
    |Opened(curdir)| > 1 && Opened(curdir)[1] == '/'
  }

  /** What is between the slashes of a text that ends with one, empty parts and all. */
  function Between(text: string): (cs: seq<string>)
    ensures NoSlashes(cs)
    decreases |text|
  {
    if text == "" then []
    else
      var n := FirstSlash(text);
      [text[..n]] + if n < |text| then Between(text[n + 1..]) else []
  }

  /** The parts of the current directory. */
  function CurParts(curdir: string): (cs: seq<string>)
    requires IsCurdir(curdir)
    ensures NoSlashes(cs)
  {
    if curdir == "" then [] else Between(Opened(curdir)[|Root(OpensTwice(curdir))|..])
  }

  lemma SlashAt(text: string, i: nat)
    requires i < |text| && text[i] == '/'
    ensures FirstSlash(text) <= i
  {}

  lemma SplitAt(text: string, n: nat)
    requires n < |text| && text[n] == '/'
    ensures text == text[..n] + "/" + text[n + 1..]
  {}

  lemma BetweenStep(c: string, rest: string)
    requires '/' !in c
    ensures Between(c + "/" + rest) == [c] + Between(rest)
  {
    var text := c + ("/" + rest);
    assert c + "/" + rest == text;
    FirstSlashAt(c, "/" + rest);
    assert text[..|c|] == c && text[|c| + 1..] == rest;
  }

  lemma {:induction false} SlashedBetween(text: string)
    requires text == "" || text[|text| - 1] == '/'
    ensures Slashed(Between(text)) == text
    decreases |text|
  {
    hide Slashed, Between, FirstSlash;
    if text == "" {
      NoParts();
      NoneBetween();
    } else {
      var n := FirstSlash(text);
      SlashAt(text, |text| - 1);
      var c, rest := text[..n], text[n + 1..];
      SlashedBetween(rest);
      SplitAt(text, n);
      BetweenStep(c, rest);
      SlashedFront([c] + Between(rest));
      assert ([c] + Between(rest))[1..] == Between(rest);
    }
  }

  /** The text of the current directory with a slash at its end is made of its parts. */
  lemma CurText(curdir: string)
    requires IsCurdir(curdir) && curdir != ""
    ensures var twice := OpensTwice(curdir); Opened(curdir) == Root(twice) + Slashed(CurParts(curdir))
  {
    hide Slashed, Between;
    var text, root := Opened(curdir), Root(OpensTwice(curdir));
    assert text[..|root|] == root;
    SlashedBetween(text[|root|..]);
  }

  /** The parts of a normal path are its components. */
  lemma CurOfPath(twice: bool, cs: seq<string>)
    requires Names(cs)
    ensures var p := Path(twice, cs);
            p != "" && IsCurdir(p) && OpensTwice(p) == twice && CurParts(p) == cs
  {
    hide Between, Slashed;
    PathReads(twice, cs);
    PathOpen(twice, cs);
    BetweenSlashed(cs);
    assert (Root(twice) + Slashed(cs))[|Root(twice)|..] == Slashed(cs);
  }

  lemma {:induction false} BetweenSlashed(cs: seq<string>)
    requires NoSlashes(cs)
    ensures Between(Slashed(cs)) == cs
    decreases |cs|
  {
    hide Slashed, Between;
    if cs == [] {
      NoParts();
      NoneBetween();
    } else {
      SlashedFront(cs);
      BetweenSlashed(cs[1..]);
      BetweenStep(cs[0], Slashed(cs[1..]));
    }
  }

  lemma NoneBetween()
    ensures Between("") == []
  {}

  /** A normal path with a slash at its end. */
  lemma PathOpen(twice: bool, cs: seq<string>)
    requires Names(cs)
    ensures NoSlashes(cs) && Opened(Path(twice, cs)) == Root(twice) + Slashed(cs)
    ensures OpensTwice(Path(twice, cs)) == twice
  {
    if cs != [] {
      assert IsName(cs[|cs| - 1]) && IsName(cs[0]);
      PathText(twice, cs);
      NamePath(twice, cs, cs[|cs| - 1]);
    }
  }

  lemma NamePath(twice: bool, cs: seq<string>, last: string)
    requires cs != [] && cs[|cs| - 1] == last && last != "" && '/' !in last
    requires cs[0] != "" && '/' !in cs[0]
    requires var body := Slashed(cs[..|cs| - 1]) + last;
             Path(twice, cs) == Root(twice) + body && body != "" && body[0] == cs[0][0]
    ensures var t := Path(twice, cs);
            t != "" && t[|t| - 1] != '/' && t + "/" == Root(twice) + Slashed(cs) && (t[1] == '/' <==> twice)
  {
    var front := Slashed(cs[..|cs| - 1]);
    assert Slashed(cs) == front + last + "/";
    hide Path, Slashed;
    var t := Root(twice) + (front + last);
    assert t[|t| - 1] == last[|last| - 1] != '/';
    assert t + "/" == Root(twice) + (front + last + "/");
  }

  /** What is left of the argument fits. */
  predicate Room(end: int, left: int, length: int) {
    if left > 0 then end + left + 1 <= length else end <= length
  }

  lemma RootLength(twice: bool)
    ensures |Root(twice)| == if twice then 2 else 1
  {}

  /** The start for a relative name: the current directory, with a slash at its end. */
  method BeginRelative(curdir: string, room: nat) returns (block: array<char>, end: nat, lim: nat)
    requires IsCurdir(curdir) && curdir != ""
    ensures fresh(block) && block.Length == |curdir| + room + 2 && end <= |curdir| + 1
    ensures lim == |Root(OpensTwice(curdir))| && Holds(block[..], end, OpensTwice(curdir), CurParts(curdir))
  {
    hide Slashed, CurParts, Root;
    CurText(curdir);
    RootLength(OpensTwice(curdir));
    block := new char[|curdir| + room + 2];
    end := Put(block, 0, curdir);
    assert block[..end] == curdir;
    assert block[end - 1] == block[..end][end - 1];
    lim := 1;
    if block[end - 1] != '/' {
      end := Put(block, end, "/");
    }
    assert block[..end] == Opened(curdir);
    assert end > 1 ==> block[1] == block[..end][1];
    if end > lim && block[lim] == '/' {
      lim := lim + 1;
    }
  }

  /** The start for an absolute name: one slash or two, and where the rest of the name starts. */
  method BeginAbsolute(dir: string) returns (block: array<char>, end: nat, lim: nat, pos: nat)
    requires dir != "" && dir[0] == '/'
    ensures fresh(block) && block.Length == |dir| + 2
    ensures Holds(block[..], end, StartsTwice(dir), []) && lim == |Root(StartsTwice(dir))|
    ensures pos <= |dir| && end == pos && Components(dir[pos..]) == Components(dir)
  {
    hide Components, Slashed;
    NoParts();
    block := new char[|dir| + 2];
    end := Put(block, 0, "/");
    pos, lim := 1, 1;
    SkipSlash(dir, 0);
    assert dir[0..] == dir;
    if |dir| > 1 && dir[1] == '/' && !(|dir| > 2 && dir[2] == '/') {
      end := Put(block, end, "/");
      SkipSlash(dir, 1);
      pos := 2;
      lim := 2;
    }
  }

  /** The end: no slash after the last component. */
  method Close(block: array<char>, end0: nat, lim: nat, ghost twice: bool, ghost cs: seq<string>) returns (r: string)
    requires Holds(block[..], end0, twice, cs) && lim == |Root(twice)|
    requires end0 <= block.Length && (end0 > lim || end0 < block.Length)
    modifies block
    ensures r == Path(twice, cs)
  {
    hide Slashed;
    PathClosed(twice, cs);
    ghost var text := block[..end0];
    var end := end0;
    if end > lim {
      end := end - 1;
    }
    block[end] := '\0';
    r := block[..end];
    assert r == text[..end];
  }

  /**
   * The name of the directory that dir leads to. All that is written fits in the room that is reserved before lim is
   * taken, so the buffer does not move.
   */
  method UpdatePwd(curdir: string, dir: string) returns (r: Option<string>)
    requires IsCurdir(curdir)
    ensures r == if curdir == "" && (dir == "" || dir[0] != '/') then None
                 else Some(Resolve(OpensTwice(curdir), CurParts(curdir), dir))
  {
    hide Path, Walk, Components, Slashed, NoSlashes, Holds, StartsTwice, CurParts, OpensTwice;
    if dir == "" || dir[0] != '/' {
      if curdir == "" {
        return None;
      }
      var block, end, lim := BeginRelative(curdir, |dir|);
      assert dir[0..] == dir;
      ghost var cs;
      end, cs := Follow(block, end, lim, dir, 0, OpensTwice(curdir), CurParts(curdir));
      var path := Close(block, end, lim, OpensTwice(curdir), cs);
      return Some(path);
    }
    var block, end, lim, pos := BeginAbsolute(dir);
    NoParts();
    ghost var cs;
    end, cs := Follow(block, end, lim, dir, pos, StartsTwice(dir), []);
    var path := Close(block, end, lim, StartsTwice(dir), cs);
    return Some(path);
  }

  /** From a normal path it is the normalisation from left to right. */
  lemma FromNormal(twice: bool, cs: seq<string>, dir: string)
    requires Names(cs)
    ensures var p := Path(twice, cs);
            Resolve(OpensTwice(p), CurParts(p), dir) == Resolve(twice, cs, dir)
  {
    hide Resolve, CurParts, OpensTwice, Path;
    CurOfPath(twice, cs);
  }

  /** An instance: from "/a/.", which PWD may say at the start, two dots take the dot away. */
  lemma DotTakenAway()
    ensures CurParts("/a/.") == ["a", "."]
    ensures Resolve(OpensTwice("/a/."), CurParts("/a/."), "..") == "/a"
  {
    var cs := ["a", "."];
    assert cs == ["a"] + ["."] && Slashed(["a"]) == "a/" && Slashed(cs) == "a/./" by {
      assert cs[..1] == ["a"] && ["a"][..0] == [];
    }
    BetweenSlashed(cs);
    assert Opened("/a/.") == "/a/./" && "/a/./"[1..] == "a/./";
    ComponentsFirst("..", "");
    assert ".." + "" == "..";
    assert cs[..1] == ["a"] && Walk(["a"], []) == ["a"];
  }

  lemma NoParts()
    ensures NoSlashes([]) && Slashed([]) == ""
  {
  }

  lemma PathClosed(twice: bool, cs: seq<string>)
    ensures var s := Root(twice) + Slashed(cs);
            Path(twice, cs) == (if |s| > |Root(twice)| then s[..|s| - 1] else s)
  {
  }

  /** The loop of updatepwd over the components that are left. */
  method Follow(block: array<char>, end0: nat, lim: nat, dir: string, pos0: nat, ghost twice: bool,
      ghost cs0: seq<string>)
    returns (end: nat, ghost cs: seq<string>)
    requires Holds(block[..], end0, twice, cs0) && NoSlashes(cs0) && lim == |Root(twice)| < block.Length
    requires pos0 <= |dir| && Room(end0, |dir| - pos0, block.Length)
    modifies block
    ensures Holds(block[..], end, twice, cs) && cs == Walk(cs0, Components(dir[pos0..]))
    ensures end <= block.Length && (end > lim || end < block.Length)
  {
    hide Components, Slashed, Holds, NoSlashes, Walk;
    InBlock(block[..], end0, twice, cs0);
    end, cs := end0, cs0;
    var pos := pos0;
    while true
      invariant Holds(block[..], end, twice, cs) && NoSlashes(cs) && lim <= end
      invariant pos <= |dir| && Room(end, |dir| - pos, block.Length)
      invariant Walk(cs, Components(dir[pos..])) == Walk(cs0, Components(dir[pos0..]))
      decreases |dir| - pos, block.Length
    {
      var c, pos' := StrTok(dir, pos);
      if c == None {
        WalkNone(cs);
        break;
      }
      WalkStep(cs, c.value, Components(dir[pos'..]));
      if c.value == ".." {
        end := Up(block, end, lim, twice, cs);
        cs := if cs == [] then [] else cs[..|cs| - 1];
      } else if c.value != "." {
        end := PutComponent(block, end, c.value, twice, cs);
        cs := cs + [c.value];
      }
      pos := pos';
    }
  }

  lemma WalkNone(cs: seq<string>)
    ensures Walk(cs, []) == cs
  {
  }

  lemma WalkStep(cs: seq<string>, c: string, steps: seq<string>)
    requires NoSlashes(cs) && c != "" && '/' !in c
    ensures var cs' := if c == "." then cs else if c == ".." then if cs == [] then [] else cs[..|cs| - 1] else cs + [c];
            Walk(cs, [c] + steps) == Walk(cs', steps) && NoSlashes(cs')
  {
    assert ([c] + steps)[1..] == steps;
  }

  method PutComponent(block: array<char>, end0: nat, c: string, ghost twice: bool, ghost cs: seq<string>)
      returns (end: nat)
    requires Holds(block[..], end0, twice, cs) && end0 + |c| + 1 <= block.Length
    modifies block
    ensures end == end0 + |c| + 1 && Holds(block[..], end, twice, cs + [c])
  {
    end := Put(block, end0, c);
    end := Put(block, end, "/");
    assert (cs + [c])[..|cs|] == cs;
  }
}
