/** Facts about the structured meaning: it does not depend on fuel, and what it says of return and break. */
module EvalProperties {
  import opened Option
  import opened EvalSemantics

  /** More fuel never changes a run that ended. */
  lemma {:induction false} MoreFuel(w: World, n: Node, depth: nat, s: State, f: nat, g: nat)
    requires Sem(w, n, depth, s, f).Some? && f <= g
    ensures Sem(w, n, depth, s, g) == Sem(w, n, depth, s, f)
    decreases f, n, 1
  {
    match n
    case EvalCmd(cmds) => MoreFuelString(w, cmds, depth, s, 0, f, g);
    case Call(_) => MoreFuelCall(w, n, s, f, g);
    case Not(a) => MoreFuel(w, a, depth, s, f, g);
    case And(l, r) =>
      MoreFuel(w, l, depth, s, f, g);
      MoreFuelNext(w, l, r, depth, s, f, g);
    case Or(l, r) =>
      MoreFuel(w, l, depth, s, f, g);
      MoreFuelNext(w, l, r, depth, s, f, g);
    case Semi(l, r) =>
      MoreFuel(w, l, depth, s, f, g);
      MoreFuelNext(w, l, r, depth, s, f, g);
    case If(c, t, e) =>
      MoreFuel(w, c, depth, s, f, g);
      MoreFuelNext(w, c, t, depth, s, f, g);
      MoreFuelNext(w, c, e, depth, s, f, g);
    case While(_, _, _) => MoreFuelWhile(w, n, depth, s, 0, f, g);
    case For(_, _, _) => MoreFuelFor(w, n, 0, depth, s, 0, f, g);
    case Case(word, arms) =>
      var i := FirstMatch(w, word, arms);
      if i < |arms| && arms[i].body != Nothing {
        MoreFuel(w, arms[i].body, depth, s, f, g);
      }
    case Redir(id, body) =>
      var s1 := Run(w, id, s);
      if s1.status == 0 {
        MoreFuel(w, body, depth, With(s1, s.status), f, g);
      }
    case _ =>
  }

  /** The command that runs after a, from where a stopped. */
  lemma {:induction false} MoreFuelNext(w: World, a: Node, b: Node, depth: nat, s: State, f: nat, g: nat)
    requires Sem(w, a, depth, s, f).Some? && f <= g
    ensures var s1 := Sem(w, a, depth, s, f).value.s;
            Sem(w, b, depth, s1, f).Some? ==> Sem(w, b, depth, s1, g) == Sem(w, b, depth, s1, f)
    decreases f, b, 2
  {
    hide Sem;
    var s1 := Sem(w, a, depth, s, f).value.s;
    if Sem(w, b, depth, s1, f).Some? {
      MoreFuel(w, b, depth, s1, f, g);
    }
  }

  lemma {:induction false} MoreFuelString(w: World, cmds: seq<Node>, depth: nat, s: State, last: int, f: nat, g: nat)
    requires SemString(w, cmds, depth, s, last, f).Some? && f <= g
    ensures SemString(w, cmds, depth, s, last, g) == SemString(w, cmds, depth, s, last, f)
    decreases f, cmds, 0
  {
    hide Sem;
    if cmds != [] {
      MoreFuel(w, cmds[0], depth, s, f, g);
      var a := Sem(w, cmds[0], depth, s, f).value;
      if a.c == Normal {
        MoreFuelString(w, cmds[1..], depth, a.s, if cmds[0] == Nothing then last else a.s.status, f, g);
      }
    }
  }

  lemma {:induction false} MoreFuelCall(w: World, n: Node, s: State, f: nat, g: nat)
    requires n.Call? && SemCall(w, n, s, f).Some? && f <= g
    ensures SemCall(w, n, s, g) == SemCall(w, n, s, f)
    decreases f, n, 0
  {
    hide Sem;
    if n.f in s.funcs {
      MoreFuel(w, s.funcs[n.f], 0, s, f - 1, g - 1);
    }
  }

  lemma {:induction false} MoreFuelWhile(w: World, n: Node, depth: nat, s: State, last: int, f: nat, g: nat)
    requires n.While? && SemWhile(w, n, depth, s, last, f).Some? && f <= g
    ensures SemWhile(w, n, depth, s, last, g) == SemWhile(w, n, depth, s, last, f)
    decreases f, n, 0
  {
    hide Sem;
    MoreFuel(w, n.c, depth + 1, s, f - 1, g - 1);
    var a := Sem(w, n.c, depth + 1, s, f - 1).value;
    if a.c == Normal {
      if (a.s.status != 0) == n.until {
        MoreFuel(w, n.body, depth + 1, a.s, f - 1, g - 1);
        var b := Sem(w, n.body, depth + 1, a.s, f - 1).value;
        if GoesOn(b.c) {
          MoreFuelWhile(w, n, depth, b.s, b.s.status, f - 1, g - 1);
        }
      }
    } else if GoesOn(a.c) {
      MoreFuelWhile(w, n, depth, a.s, last, f - 1, g - 1);
    }
  }

  lemma {:induction false} MoreFuelFor(w: World, n: Node, i: nat, depth: nat, s: State, last: int, f: nat, g: nat)
    requires n.For? && i <= |n.words| && SemFor(w, n, i, depth, s, last, f).Some? && f <= g
    ensures SemFor(w, n, i, depth, s, last, g) == SemFor(w, n, i, depth, s, last, f)
    decreases f, n, 0, |n.words| - i
  {
    hide Sem;
    if i < |n.words| {
      var s1 := s.(trace := s.trace + [SetVar(n.x, n.words[i])]);
      MoreFuel(w, n.body, depth + 1, s1, f, g);
      var b := Sem(w, n.body, depth + 1, s1, f).value;
      if GoesOn(b.c) {
        MoreFuelFor(w, n, i + 1, depth, b.s, b.s.status, f, g);
      }
    }
  }

  /** So a run that ends, ends in one way. */
  lemma OneEnd(w: World, n: Node, depth: nat, s: State, f: nat, g: nat)
    requires Sem(w, n, depth, s, f).Some? && Sem(w, n, depth, s, g).Some?
    ensures Sem(w, n, depth, s, f) == Sem(w, n, depth, s, g)
  {
    if f <= g {
      MoreFuel(w, n, depth, s, f, g);
    } else {
      MoreFuel(w, n, depth, s, g, f);
    }
  }

  /**
   * A loop whose test is a return ends with that return. Its status is kept if and only if the return has an
   * argument, or the command before it ended with 0.
   */
  lemma ReturnFromTest(w: World, until: bool, arg: Option<nat>, body: Node, depth: nat, s: State, fuel: nat)
    ensures var r := Sem(w, While(until, ReturnCmd(arg), body), depth, s, fuel + 1);
            && r == Some(Done(Return(arg.Some?), With(s, if arg.Some? then arg.value else 0)))
            && (r.value.s == Sem(w, ReturnCmd(arg), depth, s, fuel).value.s <==> arg.Some? || s.status == 0)
  {
    var n := While(until, ReturnCmd(arg), body);
    assert Sem(w, n, depth, s, fuel + 1) == SemWhile(w, n, depth, s, 0, fuel + 1);
    assert Sem(w, n.c, depth + 1, s, fuel)
        == Some(Done(Return(arg.Some?), if arg.Some? then With(s, arg.value) else s));
  }

  /** For instance: `while return; do :; done` as the first command after one that failed ends with 0. */
  lemma ReturnLosesStatus(w: World, body: Node, s: State)
    requires s.status == 1
    ensures Sem(w, ReturnCmd(None), 0, s, 1) == Some(Done(Return(false), s))
    ensures Sem(w, While(false, ReturnCmd(None), body), 0, s, 1) == Some(Done(Return(false), With(s, 0)))
  {
    var n := While(false, ReturnCmd(None), body);
    assert SemWhile(w, n, 0, s, 0, 1) == Some(Done(Return(false), With(s, 0))) by {
      assert Sem(w, n.c, 1, s, 0) == Some(Done(Return(false), s));
    }
  }
}
