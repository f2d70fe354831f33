/**
 * Laws of the structured meaning: which commands run and in which order, by equations between commands and by the
 * traces they leave.
 */
module EvalLaws {
  import opened Option
  import opened EvalSemantics

  /** A command leaves its mark on the trace, and ends as the world says. */
  lemma Runs(w: World, id: string, depth: nat, s: State, fuel: nat)
    ensures var r := Sem(w, Ext(id), depth, s, fuel);
            && r == Some(Done(Normal, State(w.status(id, s.trace), s.funcs, s.trace + [Ran(id)])))
            && Sem(w, Nothing, depth, s, fuel) == Some(Done(Normal, s))
  {}

  // ---------- sequences, junctions and choices ----------

  /** In a sequence the second command runs from where the first ended, if that ended normally. */
  lemma Sequences(w: World, l: Node, r: Node, depth: nat, s: State, fuel: nat, s1: State)
    ensures Sem(w, l, depth, s, fuel) == Some(Done(Normal, s1)) ==>
              Sem(w, Semi(l, r), depth, s, fuel) == Sem(w, r, depth, s1, fuel)
    ensures Jumps(Sem(w, l, depth, s, fuel)) ==> Sem(w, Semi(l, r), depth, s, fuel) == Sem(w, l, depth, s, fuel)
  {}

  predicate Jumps(r: Option<Done>) {
    r.None? || r.value.c != Normal
  }

  predicate Succeeds(r: Option<Done>) {
    r.Some? && r.value.c == Normal && r.value.s.status == 0
  }

  /** The second command of `&&` runs just when the first succeeds, that of `||` just when it fails. */
  lemma Junctions(w: World, l: Node, r: Node, depth: nat, s: State, fuel: nat)
    ensures var a := Sem(w, l, depth, s, fuel);
            && Sem(w, And(l, r), depth, s, fuel) == (if Succeeds(a) then Sem(w, Semi(l, r), depth, s, fuel) else a)
            && Sem(w, Or(l, r), depth, s, fuel)
               == (if Succeeds(a) || Jumps(a) then a else Sem(w, Semi(l, r), depth, s, fuel))
  {}

  /** `!` turns success into status 1 and failure into success, and leaves everything else. */
  lemma Negations(w: World, n: Node, depth: nat, s: State, fuel: nat)
    ensures var a, r := Sem(w, n, depth, s, fuel), Sem(w, Not(n), depth, s, fuel);
            if Jumps(a) then r == a
            else
              var negated := if a.value.s.status == 0 then 1 else 0;
              r == Some(Done(Normal, State(negated, a.value.s.funcs, a.value.s.trace)))
  {}

  /**
   * `if c; then t; else e` is `c && t` where c succeeds and `c || e` where it fails; without e a failure is no failure.
   */
  lemma Choices(w: World, c: Node, t: Node, e: Node, depth: nat, s: State, fuel: nat)
    ensures var a, r := Sem(w, c, depth, s, fuel), Sem(w, If(c, t, e), depth, s, fuel);
            && (Succeeds(a) ==> r == Sem(w, And(c, t), depth, s, fuel))
            && (!Succeeds(a) && !Jumps(a) ==>
                  r == if e != Nothing then Sem(w, Or(c, e), depth, s, fuel)
                       else Some(Done(Normal, State(0, a.value.s.funcs, a.value.s.trace))))
            && (Jumps(a) ==> r == a)
  {}

  /** With its test negated it runs the other part. */
  lemma NegatedChoices(w: World, c: Node, t: Node, e: Node, depth: nat, s: State, fuel: nat)
    requires t != Nothing && e != Nothing && !Jumps(Sem(w, c, depth, s, fuel))
    ensures var part := if Succeeds(Sem(w, c, depth, s, fuel)) then e else t;
            && Sem(w, If(c, e, t), depth, s, fuel) == Sem(w, Semi(c, part), depth, s, fuel)
            && Sem(w, If(Not(c), t, e), depth, s, fuel) == Sem(w, Semi(Not(c), part), depth, s, fuel)
  {
    Choices(w, c, e, t, depth, s, fuel);
    Choices(w, Not(c), t, e, depth, s, fuel);
    Junctions(w, c, e, depth, s, fuel);
    Junctions(w, c, t, depth, s, fuel);
    Junctions(w, Not(c), t, depth, s, fuel);
    Junctions(w, Not(c), e, depth, s, fuel);
    Negations(w, c, depth, s, fuel);
    hide Sem;
  }

  /** The two are not the same all the same, as the part can see the status of the test. */
  lemma NegationShows(w: World, s: State, fuel: nat)
    requires w.status("test", s.trace) == 5
    ensures var a := Sem(w, If(Ext("test"), Ext("x"), ReturnCmd(None)), 0, s, fuel);
            a.Some? && a.value.s.status == 5
    ensures var b := Sem(w, If(Not(Ext("test")), ReturnCmd(None), Ext("x")), 0, s, fuel);
            b.Some? && b.value.s.status == 0
  {
    assert Sem(w, Ext("test"), 0, s, fuel) == Some(Done(Normal, EvalSemantics.Run(w, "test", s)));
    assert Sem(w, Not(Ext("test")), 0, s, fuel) == Some(Done(Normal, With(EvalSemantics.Run(w, "test", s), 0)));
  }

  // ---------- case ----------

  predicate Matches(w: World, arm: Arm, word: string) {
    exists j :: 0 <= j < |arm.pats| && w.matches(arm.pats[j], word)
  }

  /** The arm that is picked matches, and none before it does; if none is picked none matches. */
  lemma {:induction false} FirstMatches(w: World, word: string, arms: seq<Arm>)
    ensures var i := FirstMatch(w, word, arms);
            (i < |arms| ==> Matches(w, arms[i], word)) && forall k :: 0 <= k < i ==> !Matches(w, arms[k], word)
  {
    if arms != [] && !Matches(w, arms[0], word) {
      FirstMatches(w, word, arms[1..]);
      assert forall k :: 0 < k < |arms| ==> arms[k] == arms[1..][k - 1];
    }
  }

  /** The body of the first arm that matches is what runs; otherwise the status is 0 and nothing runs. */
  lemma Cases(w: World, word: string, arms: seq<Arm>, i: nat, depth: nat, s: State, fuel: nat)
    requires i <= |arms| && (i < |arms| ==> Matches(w, arms[i], word))
    requires forall k :: 0 <= k < i ==> !Matches(w, arms[k], word)
    ensures Sem(w, Case(word, arms), depth, s, fuel)
            == if i < |arms| && arms[i].body != Nothing then Sem(w, arms[i].body, depth, s, fuel)
               else Some(Done(Normal, State(0, s.funcs, s.trace)))
  {
    FirstMatches(w, word, arms);
  }

  // ---------- loops ----------

  /** A test that fails ends a while loop, one that succeeds an until loop: nothing more runs, and the status is 0. */
  lemma LoopEnds(w: World, until: bool, c: Node, body: Node, depth: nat, s: State, fuel: nat)
    requires !Jumps(Sem(w, c, depth + 1, s, fuel)) && Succeeds(Sem(w, c, depth + 1, s, fuel)) == until
    ensures var s1 := Sem(w, c, depth + 1, s, fuel).value.s;
            Sem(w, While(until, c, body), depth, s, fuel + 1) == Some(Done(Normal, State(0, s1.funcs, s1.trace)))
  {
    assert Sem(w, While(until, c, body), depth, s, fuel + 1)
        == SemWhile(w, While(until, c, body), depth, s, 0, fuel + 1);
  }

  /** Otherwise the body runs after the test. A break or continue of more than one loop goes on to the next loop. */
  lemma LoopRound(w: World, until: bool, c: Node, body: Node, depth: nat, s: State, fuel: nat)
    requires !Jumps(Sem(w, c, depth + 1, s, fuel)) && Succeeds(Sem(w, c, depth + 1, s, fuel)) != until
    ensures var loop := While(until, c, body);
            var b, r := Sem(w, Semi(c, body), depth + 1, s, fuel), Sem(w, loop, depth, s, fuel + 1);
            if b.None? then r == None
            else match b.value.c
                 case Break(k) => r == Some(Done(if k == 1 then Normal else Break(k - 1), b.value.s))
                 case Continue(k) =>
                   if k == 1 then r == SemWhile(w, loop, depth, b.value.s, b.value.s.status, fuel)
                   else r == Some(Done(Continue(k - 1), b.value.s))
                 case Normal => r == SemWhile(w, loop, depth, b.value.s, b.value.s.status, fuel)
                 case _ => r == b
  {
    var loop := While(until, c, body);
    assert Sem(w, loop, depth, s, fuel + 1) == SemWhile(w, loop, depth, s, 0, fuel + 1);
    Sequences(w, c, body, depth + 1, s, fuel, Sem(w, c, depth + 1, s, fuel).value.s);
    hide Sem;
  }

  /** After the first round the loop goes on as from the start, but if the test ends it the body's status stays. */
  lemma LoopGoesOn(w: World, until: bool, c: Node, body: Node, depth: nat, s: State, last: int, fuel: nat)
    ensures var loop := While(until, c, body);
            var r, r0 := SemWhile(w, loop, depth, s, last, fuel), Sem(w, loop, depth, s, fuel);
            if fuel == 0 then r == None
            else
              var a := Sem(w, c, depth + 1, s, fuel - 1);
              !Jumps(a) ==>
                r == if Succeeds(a) != until then r0
                     else Some(Done(Normal, State(last, a.value.s.funcs, a.value.s.trace)))
  {
    var loop := While(until, c, body);
    assert Sem(w, loop, depth, s, fuel) == SemWhile(w, loop, depth, s, 0, fuel);
    hide Sem;
  }

  /** The words in order. */
  function Sets(x: string, words: seq<string>): (es: seq<Event>)
    ensures |es| == |words| && forall i :: 0 <= i < |es| ==> es[i] == SetVar(x, words[i])
  {
    seq(|words|, i requires 0 <= i < |words| => SetVar(x, words[i]))
  }

  /** A for loop gives the variable its words from the first to the last. */
  lemma ForSets(w: World, x: string, words: seq<string>, depth: nat, s: State, fuel: nat)
    requires words != []
    ensures Sem(w, For(x, words, Nothing), depth, s, fuel)
            == Some(Done(Normal, State(s.status, s.funcs, s.trace + Sets(x, words))))
    ensures Sem(w, For(x, [], Nothing), depth, s, fuel) == Some(Done(Normal, State(0, s.funcs, s.trace)))
  {
    var n := For(x, words, Nothing);
    ForSetsFrom(w, n, 0, depth, s, 0, fuel);
    assert words[0..] == words;
    assert Sem(w, n, depth, s, fuel) == SemFor(w, n, 0, depth, s, 0, fuel);
    var none := For(x, [], Nothing);
    assert Sem(w, none, depth, s, fuel) == SemFor(w, none, 0, depth, s, 0, fuel);
  }

  lemma {:induction false} ForSetsFrom(w: World, n: Node, i: nat, depth: nat, s: State, last: int, fuel: nat)
    requires n.For? && n.body == Nothing && i <= |n.words|
    ensures SemFor(w, n, i, depth, s, last, fuel)
            == Some(Done(Normal, State(if i == |n.words| then last else s.status, s.funcs,
                                       s.trace + Sets(n.x, n.words[i..]))))
    decreases |n.words| - i
  {
    if i < |n.words| {
      var s1 := s.(trace := s.trace + [SetVar(n.x, n.words[i])]);
      assert Sem(w, n.body, depth + 1, s1, fuel) == Some(Done(Normal, s1));
      ForSetsFrom(w, n, i + 1, depth, s1, s1.status, fuel);
      hide Sem;
      SetsStep(s.trace, n.x, n.words, i);
    } else {
      hide Sem;
      assert n.words[i..] == [] && s.trace + Sets(n.x, []) == s.trace;
    }
  }

  lemma SetsStep(trace: seq<Event>, x: string, words: seq<string>, i: nat)
    requires i < |words|
    ensures trace + [SetVar(x, words[i])] + Sets(x, words[i + 1..]) == trace + Sets(x, words[i..])
  {
    assert Sets(x, words[i..]) == [SetVar(x, words[i])] + Sets(x, words[i + 1..]);
  }

  /** For the first word the variable is set and the body runs; what is left is a loop over the other words. */
  lemma ForRound(w: World, x: string, words: seq<string>, body: Node, depth: nat, s: State, fuel: nat)
    requires words != []
    ensures var s1 := State(s.status, s.funcs, s.trace + [SetVar(x, words[0])]);
            var b, r := Sem(w, body, depth + 1, s1, fuel), Sem(w, For(x, words, body), depth, s, fuel);
            if b.None? then r == None
            else match b.value.c
                 case Break(k) => r == Some(Done(if k == 1 then Normal else Break(k - 1), b.value.s))
                 case Continue(k) =>
                   if k == 1 then r == ForRest(w, x, words[1..], body, depth, b.value.s, fuel)
                   else r == Some(Done(Continue(k - 1), b.value.s))
                 case Normal => r == ForRest(w, x, words[1..], body, depth, b.value.s, fuel)
                 case _ => r == b
  {
    var n := For(x, words, body);
    assert Sem(w, n, depth, s, fuel) == SemFor(w, n, 0, depth, s, 0, fuel);
    var s1 := State(s.status, s.funcs, s.trace + [SetVar(x, words[0])]);
    var b := Sem(w, body, depth + 1, s1, fuel);
    if b.Some? {
      ForShift(w, x, words, body, 1, depth, b.value.s, b.value.s.status, fuel);
      if |words| > 1 {
        ForLast(w, For(x, words[1..], body), 0, depth, b.value.s, b.value.s.status, 0, fuel);
        assert Sem(w, For(x, words[1..], body), depth, b.value.s, fuel)
            == SemFor(w, For(x, words[1..], body), 0, depth, b.value.s, 0, fuel);
      }
    }
    hide Sem;
  }

  /** A loop that has run for some words: when there are no more it has the status of the last round. */
  function ForRest(w: World, x: string, words: seq<string>, body: Node, depth: nat, s: State, fuel: nat): Option<Done> {
    if words == [] then Some(Done(Normal, s)) else Sem(w, For(x, words, body), depth, s, fuel)
  }

  lemma {:induction false} ForShift(w: World, x: string, words: seq<string>, body: Node, i: nat, depth: nat, s: State,
                                    last: int, fuel: nat)
    requires 1 <= i <= |words|
    ensures SemFor(w, For(x, words, body), i, depth, s, last, fuel)
            == SemFor(w, For(x, words[1..], body), i - 1, depth, s, last, fuel)
    decreases |words| - i
  {
    hide Sem;
    if i < |words| {
      var s1 := s.(trace := s.trace + [SetVar(x, words[i])]);
      var b := Sem(w, body, depth + 1, s1, fuel);
      assert words[1..][i - 1] == words[i];
      if b.Some? {
        ForShift(w, x, words, body, i + 1, depth, b.value.s, b.value.s.status, fuel);
      }
    }
  }

  lemma ForLast(w: World, n: Node, i: nat, depth: nat, s: State, last: int, last': int, fuel: nat)
    requires n.For? && i < |n.words|
    ensures SemFor(w, n, i, depth, s, last, fuel) == SemFor(w, n, i, depth, s, last', fuel)
  {
    hide Sem;
  }

  // ---------- jumps ----------

  /** A break or continue of more loops than there are is one of all; outside of loops it does nothing. */
  lemma JumpsCut(w: World, k: int, depth: nat, s: State, fuel: nat)
    ensures var s0 := State(0, s.funcs, s.trace);
            var b, c := Sem(w, BreakCmd(k), depth, s, fuel), Sem(w, ContinueCmd(k), depth, s, fuel);
            && (k <= 0 ==> b == c == Some(Done(Raised, State(2, s.funcs, s.trace))))
            && (k > 0 && depth == 0 ==> b == c == Some(Done(Normal, s0)))
            && (0 < k <= depth ==> b == Some(Done(Break(k), s0)) && c == Some(Done(Continue(k), s0)))
            && (k > depth > 0 ==>
                  && b == Sem(w, BreakCmd(depth), depth, s, fuel) && c == Sem(w, ContinueCmd(depth), depth, s, fuel))
  {}

  /** A return leaves every loop, with its argument as the status if it has one. */
  lemma Returns(w: World, arg: Option<nat>, x: string, words: seq<string>, depth: nat, s: State, fuel: nat)
    requires words != []
    ensures var r := Sem(w, For(x, words, ReturnCmd(arg)), depth, s, fuel);
            && r.Some? && r.value.c.Return? && r.value.s.trace == s.trace + [SetVar(x, words[0])]
            && r.value.s.status == if arg.Some? then arg.value else s.status
  {
    ForRound(w, x, words, ReturnCmd(arg), depth, s, fuel);
  }

  // ---------- functions, strings and redirections ----------

  /** A function that was defined runs when it is called, outside of the caller's loops; a return ends in it. */
  lemma Calls(w: World, f: string, body: Node, depth: nat, s: State, fuel: nat)
    ensures var s1 := State(0, s.funcs[f := body], s.trace);
            var b, r := Sem(w, body, 0, s1, fuel), Sem(w, Semi(Defun(f, body), Call(f)), depth, s, fuel + 1);
            if b.None? || b.value.c == Raised then r == b else r == Some(Done(Normal, b.value.s))
    ensures f !in s.funcs ==> Sem(w, Call(f), depth, s, fuel) == Some(Done(Normal, State(127, s.funcs, s.trace)))
  {
    var s1 := State(0, s.funcs[f := body], s.trace);
    assert Sem(w, Defun(f, body), depth, s, fuel + 1) == Some(Done(Normal, s1));
    assert Sem(w, Call(f), depth, s1, fuel + 1) == SemCall(w, Call(f), s1, fuel + 1);
    assert Sem(w, Call(f), depth, s, fuel) == SemCall(w, Call(f), s, fuel);
  }

  /** The commands of a string run like a sequence, and empty ones do not count. */
  lemma Strings(w: World, a: Node, b: Node, cmds: seq<Node>, depth: nat, s: State, fuel: nat)
    requires a != Nothing && b != Nothing
    ensures Sem(w, EvalCmd([a, b]), depth, s, fuel) == Sem(w, Semi(a, b), depth, s, fuel)
    ensures Sem(w, EvalCmd([a]), depth, s, fuel) == Sem(w, a, depth, s, fuel)
    ensures Sem(w, EvalCmd([Nothing] + cmds), depth, s, fuel) == Sem(w, EvalCmd(cmds), depth, s, fuel)
    ensures Sem(w, EvalCmd([]), depth, s, fuel) == Some(Done(Normal, State(0, s.funcs, s.trace)))
  {
    assert Sem(w, EvalCmd([a, b]), depth, s, fuel) == SemString(w, [a, b], depth, s, 0, fuel);
    assert Sem(w, EvalCmd([a]), depth, s, fuel) == SemString(w, [a], depth, s, 0, fuel);
    assert Sem(w, EvalCmd([Nothing] + cmds), depth, s, fuel) == SemString(w, [Nothing] + cmds, depth, s, 0, fuel);
    assert Sem(w, EvalCmd(cmds), depth, s, fuel) == SemString(w, cmds, depth, s, 0, fuel);
    assert Sem(w, EvalCmd([]), depth, s, fuel) == SemString(w, [], depth, s, 0, fuel);
    assert Sem(w, Nothing, depth, s, fuel) == Some(Done(Normal, s));
    var first := Sem(w, a, depth, s, fuel);
    if first.Some? {
      OneString(w, b, depth, first.value.s, first.value.s.status, fuel);
    }
    OneString(w, a, depth, s, 0, fuel);
    assert [a, b][1..] == [b] && ([Nothing] + cmds)[1..] == cmds;
    Sequences(w, a, b, depth, s, fuel, if first.Some? then first.value.s else s);
    hide Sem;
  }

  lemma OneString(w: World, a: Node, depth: nat, s: State, last: int, fuel: nat)
    requires a != Nothing
    ensures SemString(w, [a], depth, s, last, fuel) == Sem(w, a, depth, s, fuel)
  {
    hide Sem;
    var r := Sem(w, a, depth, s, fuel);
    if r.Some? {
      assert SemString(w, [], depth, r.value.s, r.value.s.status, fuel) == Some(Done(Normal, r.value.s));
    }
  }

  lemma {:induction false} LastNotUsed(w: World, cmds: seq<Node>, depth: nat, s: State, i: int, j: int, fuel: nat)
    requires exists k :: 0 <= k < |cmds| && cmds[k] != Nothing
    ensures SemString(w, cmds, depth, s, i, fuel) == SemString(w, cmds, depth, s, j, fuel)
    decreases |cmds|
  {
    if cmds[0] == Nothing {
      assert Sem(w, Nothing, depth, s, fuel) == Some(Done(Normal, s));
      var k :| 0 <= k < |cmds| && cmds[k] != Nothing;
      assert cmds[1..][k - 1] != Nothing;
      LastNotUsed(w, cmds[1..], depth, s, i, j, fuel);
    }
    hide Sem;
  }

  /** However many they are: the first, and then a string of the others, as long as one of those is not empty. */
  lemma LongStrings(w: World, a: Node, cmds: seq<Node>, depth: nat, s: State, fuel: nat)
    requires a != Nothing && exists k :: 0 <= k < |cmds| && cmds[k] != Nothing
    ensures Sem(w, EvalCmd([a] + cmds), depth, s, fuel) == Sem(w, Semi(a, EvalCmd(cmds)), depth, s, fuel)
  {
    var first := Sem(w, a, depth, s, fuel);
    assert Sem(w, EvalCmd([a] + cmds), depth, s, fuel) == SemString(w, [a] + cmds, depth, s, 0, fuel);
    assert ([a] + cmds)[1..] == cmds;
    if first.Some? {
      var s1 := first.value.s;
      LastNotUsed(w, cmds, depth, s1, 0, s1.status, fuel);
      assert Sem(w, EvalCmd(cmds), depth, s1, fuel) == SemString(w, cmds, depth, s1, 0, fuel);
    }
    Sequences(w, a, EvalCmd(cmds), depth, s, fuel, if first.Some? then first.value.s else s);
    hide Sem;
  }

  /** If its redirections fail a command does not run. */
  lemma Redirections(w: World, id: string, body: Node, depth: nat, s: State, fuel: nat)
    ensures var st, trace := w.status(id, s.trace), s.trace + [Ran(id)];
            Sem(w, Redir(id, body), depth, s, fuel)
            == if st != 0 then Some(Done(Normal, State(st, s.funcs, trace)))
               else Sem(w, body, depth, State(s.status, s.funcs, trace), fuel)
  {}
}
