/** Laws of the logical current directory: where cd leads, in terms of the text of its argument. */
module CdLaws {
  import opened CdPath

  // ---------- the steps of an argument ----------

  /** Steps are taken one after the other. */
  lemma {:induction false} WalkOn(cs: seq<string>, a: seq<string>, b: seq<string>)
    ensures Walk(cs, a + b) == Walk(Walk(cs, a), b)
    decreases |a|
  {
    if a == [] {
      assert a + b == b;
    } else {
      assert (a + b)[0] == a[0] && (a + b)[1..] == a[1..] + b;
      WalkOn(if a[0] == "." then cs else if a[0] == ".." then if cs == [] then [] else cs[..|cs| - 1]
             else cs + [a[0]], a[1..], b);
    }
  }

  lemma WalkLast(cs: seq<string>, steps: seq<string>, c: string)
    ensures var at := Walk(cs, steps);
            Walk(cs, steps + [c]) ==
              if c == "." then at else if c == ".." then if at == [] then [] else at[..|at| - 1] else at + [c]
  {
    WalkOn(cs, steps, [c]);
    var at := Walk(cs, steps);
    assert [c][1..] == [];
    var at' := if c == "." then at else if c == ".." then if at == [] then [] else at[..|at| - 1] else at + [c];
    assert Walk(at', []) == at';
  }

  lemma {:induction false} WalkParts(cs: seq<string>, steps: seq<string>)
    requires Parts(cs) && Parts(steps)
    ensures Parts(Walk(cs, steps))
    decreases |steps|
  {
    if steps != [] {
      WalkParts(if steps[0] == "." then cs else if steps[0] == ".." then if cs == [] then [] else cs[..|cs| - 1]
                else cs + [steps[0]], steps[1..]);
    }
  }

  /** One more component, or only a slash, at the end of a text. */
  lemma {:induction false} ComponentsLast(s: string, c: string)
    requires '/' !in c
    ensures Components(s + "/" + c) == Components(s) + if c == "" then [] else [c]
    decreases |s|
  {
    hide FirstSlash;
    if s == "" {
      assert (s + "/" + c)[1..] == c && (s + "/" + c)[0] == '/';
      if c != "" {
        ComponentsFirst(c, "");
        assert c + "" == c;
      }
    } else if s[0] == '/' {
      assert (s + "/" + c)[1..] == s[1..] + "/" + c;
      ComponentsLast(s[1..], c);
    } else {
      var n := FirstSlash(s);
      var rest := s[n..];
      FirstPart(s);
      ComponentsFirst(s[..n], rest);
      ComponentsFirst(s[..n], rest + "/" + c);
      assert s[..n] + rest == s && s[..n] + (rest + "/" + c) == s + "/" + c;
      ComponentsLast(rest, c);
    }
  }

  lemma FirstPart(s: string)
    requires s != "" && s[0] != '/'
    ensures var n := FirstSlash(s); n > 0 && (n < |s| ==> s[n] == '/')
  {
  }

  // ---------- where the argument leads ----------

  /** An argument that more can be put after: of slashes alone, one is the root and two are another. */
  predicate Open(dir: string) {
    dir != "" && dir != "/" && dir != "//"
  }

  /** The root it starts from, and the components it reaches. */
  function Reached(twice: bool, cs: seq<string>, dir: string): (r: (bool, seq<string>)) {
    if dir != "" && dir[0] == '/' then (StartsTwice(dir), Walk([], Components(dir)))
    else (twice, Walk(cs, Components(dir)))
  }

  lemma StartsAlike(dir: string, more: string)
    requires Open(dir)
    ensures (dir + more)[0] == dir[0] && (dir[0] == '/' ==> StartsTwice(dir + more) == StartsTwice(dir))
  {
  }

  lemma OneMore(twice: bool, cs: seq<string>, dir: string, c: string)
    requires Parts(cs) && Open(dir) && '/' !in c
    ensures var (top, at) := Reached(twice, cs, dir);
            && Parts(at) && Resolve(twice, cs, dir) == Path(top, at)
            && Resolve(twice, cs, dir + "/" + c) == Path(top,
                 if c == "." || c == "" then at
                 else if c == ".." then if at == [] then [] else at[..|at| - 1] else at + [c])
  {
    var from := if dir[0] == '/' then [] else cs;
    ComponentsLast(dir, c);
    WalkParts(from, Components(dir));
    hide Components, Path, Walk, StartsTwice;
    StartsAlike(dir, "/" + c);
    assert dir + ("/" + c) == dir + "/" + c;
    if c == "" {
      assert Components(dir) + [] == Components(dir);
    } else {
      WalkLast(from, Components(dir), c);
    }
  }

  lemma Chop<T>(a: seq<T>, b: seq<T>, c: seq<T>, last: T)
    ensures var all := a + (b + c + [last]); all[..|all| - 1] == (a + b) + c
  {
  }

  lemma Ends<T>(a: seq<T>, b: seq<T>)
    requires b != []
    ensures (a + b)[|a + b| - 1] == b[|b| - 1]
  {
  }

  lemma PathPlus(twice: bool, cs: seq<string>, c: string)
    ensures Path(twice, cs + [c]) == (Root(twice) + Slashed(cs)) + c
  {
    assert (cs + [c])[..|cs|] == cs;
    assert Slashed(cs + [c]) == Slashed(cs) + c + "/";
    hide Slashed;
    Chop(Root(twice), Slashed(cs), c, '/');
  }

  lemma PathMore(twice: bool, cs: seq<string>, c: string)
    requires Parts(cs)
    ensures var p := Path(twice, cs);
            && p != "" && (p[|p| - 1] == '/' <==> cs == [])
            && Path(twice, cs + [c]) == if cs == [] then p + c else p + "/" + c
    ensures Path(twice, []) == if twice then "//" else "/"
  {
    PathPlus(twice, cs, c);
    if cs != [] {
      var front, last := cs[..|cs| - 1], cs[|cs| - 1];
      assert front + [last] == cs;
      PathPlus(twice, front, last);
      Ends(Root(twice) + Slashed(front), last);
      assert Slashed(cs) == Slashed(front) + last + "/";
      hide Slashed, Path;
      Grouped(Root(twice), Slashed(front), last, "/");
    }
  }

  lemma Grouped<T>(a: seq<T>, b: seq<T>, c: seq<T>, d: seq<T>)
    ensures (a + b) + c + d == a + (b + c + d)
  {
  }

  /** A slash or a dot at the end changes nothing. */
  lemma Stays(twice: bool, cs: seq<string>, dir: string)
    requires Parts(cs) && Open(dir)
    ensures Resolve(twice, cs, dir + "/") == Resolve(twice, cs, dir + "/.") == Resolve(twice, cs, dir)
  {
    hide Resolve, Reached;
    OneMore(twice, cs, dir, "");
    OneMore(twice, cs, dir, ".");
    assert dir + "/" + "" == dir + "/" && dir + "/" + "." == dir + "/.";
  }

  /** A name at the end is put after a slash, unless there is one. */
  lemma GoesDown(twice: bool, cs: seq<string>, dir: string, name: string)
    requires Parts(cs) && Open(dir) && IsName(name)
    ensures var p := Resolve(twice, cs, dir);
            p != "" && Resolve(twice, cs, dir + "/" + name) == if p[|p| - 1] == '/' then p + name else p + "/" + name
  {
    hide Resolve, Reached, Path;
    OneMore(twice, cs, dir, name);
    PathMore(Reached(twice, cs, dir).0, Reached(twice, cs, dir).1, name);
  }

  /** Two dots after a name take it away; at the root they stay. */
  lemma GoesUp(twice: bool, cs: seq<string>, dir: string, name: string)
    requires Parts(cs) && Open(dir) && IsName(name)
    ensures Resolve(twice, cs, dir + "/" + name + "/..") == Resolve(twice, cs, dir)
    ensures var p := Resolve(twice, cs, dir);
            p != "" && (p[|p| - 1] == '/' ==> Resolve(twice, cs, dir + "/..") == p)
  {
    hide Resolve, Path, Walk, Components;
    var (top, at) := Reached(twice, cs, dir);
    OneMore(twice, cs, dir, name);
    OneMore(twice, cs, dir, "..");
    OneMore(twice, cs, dir + "/" + name, "..");
    assert dir + "/" + name + "/" + ".." == dir + "/" + name + "/.." && dir + "/" + ".." == dir + "/..";
    PathMore(top, at, name);
    ReachedName(twice, cs, dir, name);
    assert (at + [name])[..|at|] == at;
  }

  lemma ReachedName(twice: bool, cs: seq<string>, dir: string, name: string)
    requires Open(dir) && IsName(name)
    ensures var (top, at) := Reached(twice, cs, dir);
            Reached(twice, cs, dir + "/" + name) == (top, at + [name])
  {
    hide Walk, Components;
    ComponentsLast(dir, name);
    assert (dir + "/" + name)[0] == dir[0];
    WalkLast(if dir[0] == '/' then [] else cs, Components(dir), name);
  }

  lemma OneComponent(c: string)
    requires c != "" && '/' !in c
    ensures Components(c) == [c]
  {
    ComponentsFirst(c, "");
    assert c + "" == c;
  }

  /** An argument of one component leads from the current directory. */
  lemma FromHere(twice: bool, cs: seq<string>, name: string)
    requires Parts(cs) && IsName(name)
    ensures Resolve(twice, cs, "") == Resolve(twice, cs, ".") == Path(twice, cs)
    ensures Resolve(twice, cs, name) == Path(twice, cs) + if cs == [] then name else "/" + name
    ensures Resolve(twice, cs + [name], "..") == Path(twice, cs) && Resolve(twice, [], "..") == Path(twice, [])
  {
    hide Path;
    OneComponent(".");
    OneComponent("..");
    OneComponent(name);
    WalkOne(cs, ".");
    WalkOne(cs, name);
    WalkOne(cs + [name], "..");
    WalkOne([], "..");
    assert (cs + [name])[..|cs|] == cs;
    PathMore(twice, cs, name);
    hide Components, Walk;
    assert Path(twice, cs) + "/" + name == Path(twice, cs) + ("/" + name);
  }

  lemma WalkOne(cs: seq<string>, c: string)
    ensures Walk(cs, []) == cs
    ensures Walk(cs, [c]) ==
              if c == "." then cs else if c == ".." then if cs == [] then [] else cs[..|cs| - 1] else cs + [c]
  {
    WalkLast(cs, [], c);
    assert [] + [c] == [c];
  }

  /** An absolute argument starts at the root, of one slash unless there are just two. */
  lemma FromRoot(twice: bool, cs: seq<string>, name: string, more: string)
    requires IsName(name)
    ensures Resolve(twice, cs, "/" + name) == "/" + name && Resolve(twice, cs, "//" + name) == "//" + name
    ensures Resolve(twice, cs, "/" + more) == Resolve(false, [], "/" + more)
    ensures Resolve(twice, cs, "///" + more) == Path(false, Walk([], Components(more)))
  {
    Slashes(more);
    Slashes(name);
    OneComponent(name);
    WalkOne([], name);
    PathMore(false, [], name);
    PathMore(true, [], name);
    hide Components, Walk, Path;
    assert [] + [name] == [name];
    assert ("/" + name)[1] == name[0] && ("//" + name)[2] == name[0];
  }

  lemma Roots(twice: bool, cs: seq<string>)
    ensures Resolve(twice, cs, "/") == "/" && Resolve(twice, cs, "//") == "//"
  {
    Slashes("");
    assert "/" + "" == "/" && "//" + "" == "//" && Components("") == [];
    PathMore(false, [], "");
    PathMore(true, [], "");
    hide Components, Path;
  }

  lemma Slashes(s: string)
    ensures Components("/" + s) == Components("//" + s) == Components("///" + s) == Components(s)
  {
    assert ("/" + s)[1..] == s && ("//" + s)[1..] == "/" + s && ("///" + s)[1..] == "//" + s;
  }
}
