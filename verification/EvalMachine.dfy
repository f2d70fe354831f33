/**
 * The evaluator of src/eval.c: break, continue and return are a global flag and a count, which every
 * construct checks after what it runs. It is proved to do what the structured meaning says, and never to
 * start a command while a skip is pending.
 */
module EvalMachine {
  import opened Option
  import opened EvalSemantics

  const SKIPBREAK: bv8 := 1
  const SKIPCONT: bv8 := 2
  const SKIPFUNC: bv8 := 4
  const SKIPFUNCDEF: bv8 := 8

  /** A function of the evaluator returns a status, jumps to a handler, or runs out of fuel. */
  datatype Outcome = Status(st: int) | Longjmp | NoFuel {
    predicate IsFailure() { !Status? }

    function PropagateFailure(): Outcome
      requires IsFailure()
    {
      this
    }

    function Extract(): int
      requires Status?
    {
      st
    }
  }

  /** Whether a loop ends: a continue of this loop does not end it. */
  predicate Stops(skip: bv8) {
    skip & !SKIPCONT != 0
  }

  /** One round of a loop. */
  lemma WhileStep(w: World, n: Node, depth: nat, s: State, last: int, fuel: nat)
    requires n.While?
    ensures fuel == 0 ==> SemWhile(w, n, depth, s, last, fuel) == None
    ensures fuel > 0 ==>
              var a := Sem(w, n.c, depth + 1, s, fuel - 1);
              && (a.None? ==> SemWhile(w, n, depth, s, last, fuel) == None)
              && (a.Some? ==> AfterTest(w, n, depth, a.value, last, fuel) == SemWhile(w, n, depth, s, last, fuel))
  {
    hide Sem;
  }

  /** What follows the test. */
  ghost function AfterTest(w: World, n: Node, depth: nat, a: Done, last: int, fuel: nat): Option<Done>
    requires n.While? && fuel > 0
  {
    if a.c == Raised then Some(a)
    else if a.c == Normal then
      if (a.s.status != 0) != n.until then Some(Done(Normal, With(a.s, last))) else
      var b :- Sem(w, n.body, depth + 1, a.s, fuel - 1);
      if GoesOn(b.c) then SemWhile(w, n, depth, b.s, b.s.status, fuel - 1)
      else Some(Done(Outward(b.c), b.s))
    else if GoesOn(a.c) then SemWhile(w, n, depth, a.s, last, fuel - 1)
    else Some(Done(Outward(a.c), if a.c == Return(true) then a.s else With(a.s, last)))
  }

  /** What and, or and a sequence have in common. */
  lemma BinaryMeaning(w: World, n: Node, a: Node, b: Node, isor: int, depth: nat, s: State, fuel: nat)
    requires (isor == 0 && n == And(a, b)) || (isor == 1 && n == Or(a, b)) || (isor == 2 && n == Semi(a, b))
    ensures var d := Sem(w, a, depth, s, fuel);
            Sem(w, n, depth, s, fuel) ==
              if d.None? || d.value.c != Normal || Negate(d.value.s.status) == isor then d
              else Sem(w, b, depth, d.value.s, fuel)
  {
  }

  class Evaluator {
    const w: World
    var evalskip: bv8
    var skipcount: int
    var loopnest: nat
    var exitstatus: int
    var funcs: map<string, Node>
    var trace: seq<Event>

    constructor (world: World)
      ensures w == world && evalskip == 0 && loopnest == 0
      ensures Abs() == State(0, map[], [])
    {
      w, evalskip, skipcount, loopnest, exitstatus, funcs, trace := world, 0, 0, 0, 0, map[], [];
    }

    ghost function Abs(): State
      reads this
    {
      State(exitstatus, funcs, trace)
    }

    /** The flags that stand for a completion. */
    ghost predicate Encodes(c: Completion)
      reads this
    {
      match c
      case Normal => evalskip == 0
      case Break(k) => evalskip == SKIPBREAK && skipcount == k
      case Continue(k) => evalskip == SKIPCONT && skipcount == k
      case Return(explicit) => evalskip == if explicit then SKIPFUNC else SKIPFUNCDEF
      case Raised => true
    }

    /** The run ended as the meaning says, with this status as its result; exitstatus is set by the caller. */
    ghost predicate Ended(d: Option<Done>, r: Outcome, nest: nat)
      reads this
    {
      match d
      case None => r == NoFuel
      case Some(Done(c, s)) =>
        if c == Raised then r == Longjmp && Abs() == s
        else r == Status(s.status) && With(Abs(), s.status) == s && loopnest == nest && Encodes(c)
    }

    method EvalTree(n: Node, fuel: nat) returns (r: Outcome)
      requires evalskip == 0
      modifies this
      ensures Ended(Sem(w, n, old(loopnest), old(Abs()), fuel), r, old(loopnest))
      ensures r.Status? ==> exitstatus == r.st
      decreases fuel, n, 2
    {
      hide SemWhile, SemFor, SemString, SemCall, FirstMatch, Jump, Within;
      var status := 0;
      match n {
        case Nothing =>
          return Status(exitstatus);
        case Ext(_) | BreakCmd(_) | ContinueCmd(_) | ReturnCmd(_) | EvalCmd(_) | Call(_) =>
          status :- EvalCommand(n, fuel);
        case Not(a) =>
          status :- EvalTree(a, fuel);
          if evalskip == 0 {
            status := Negate(status);
          }
        case And(_, _) =>
          status :- EvalBinary(n, n.l, n.r, 0, fuel);
        case Or(_, _) =>
          status :- EvalBinary(n, n.l, n.r, 1, fuel);
        case Semi(_, _) =>
          status :- EvalBinary(n, n.l, n.r, 2, fuel);
        case If(_, _, _) =>
          status :- EvalIf(n, fuel);
        case While(_, _, _) =>
          status :- EvalLoop(n, fuel);
        case For(_, _, _) =>
          status :- EvalFor(n, fuel);
        case Case(_, _) =>
          status :- EvalCase(n, fuel);
        case Defun(f, body) =>
          funcs := funcs[f := body];
        case Redir(id, body) =>
          status := w.status(id, trace);
          trace := trace + [Ran(id)];
          if status == 0 {
            status :- EvalTree(body, fuel);
          }
      }
      exitstatus := status;
      return Status(status);
    }

    /** A simple command: an external one, a builtin that changes the flow of control, or a function. */
    method EvalCommand(n: Node, fuel: nat) returns (r: Outcome)
      requires n.Ext? || n.BreakCmd? || n.ContinueCmd? || n.ReturnCmd? || n.EvalCmd? || n.Call?
      requires evalskip == 0
      modifies this
      ensures Ended(Sem(w, n, old(loopnest), old(Abs()), fuel), r, old(loopnest))
      decreases fuel, n, 1
    {
      hide SemWhile, SemFor, SemString, SemCall, FirstMatch, Jump, Within;
      var status := 0;
      match n {
        case Ext(id) =>
          status := w.status(id, trace);
          trace := trace + [Ran(id)];
        case BreakCmd(k) =>
          status :- JumpCmd(k, SKIPBREAK);
        case ContinueCmd(k) =>
          status :- JumpCmd(k, SKIPCONT);
        case ReturnCmd(arg) =>
          if arg.Some? {
            evalskip, status := SKIPFUNC, arg.value;
          } else {
            evalskip, status := SKIPFUNCDEF, exitstatus;
          }
        case EvalCmd(cmds) =>
          status :- EvalString(cmds, fuel);
        case Call(_) =>
          status :- EvalFun(n, fuel);
      }
      return Status(status);
    }

    /** The case that and, or and a sequence share; isor says which of them it is. */
    method EvalBinary(n: Node, a: Node, b: Node, isor: int, fuel: nat) returns (r: Outcome)
      requires evalskip == 0
      requires (isor == 0 && n == And(a, b)) || (isor == 1 && n == Or(a, b)) || (isor == 2 && n == Semi(a, b))
      modifies this
      ensures Ended(Sem(w, n, old(loopnest), old(Abs()), fuel), r, old(loopnest))
      decreases fuel, n, 1
    {
      hide Sem, Within;
      BinaryMeaning(w, n, a, b, isor, loopnest, Abs(), fuel);
      var status :- EvalTree(a, fuel);
      if Negate(status) == isor || evalskip != 0 {
        return Status(status);
      }
      status :- EvalTree(b, fuel);
      return Status(status);
    }

    method EvalIf(n: Node, fuel: nat) returns (r: Outcome)
      requires n.If? && evalskip == 0
      modifies this
      ensures Ended(Sem(w, n, old(loopnest), old(Abs()), fuel), r, old(loopnest))
      decreases fuel, n, 1
    {
      hide SemWhile, SemFor, SemString, SemCall, FirstMatch, Jump, Within;
      var If(c, t, e) := n;
      var status :- EvalTree(c, fuel);
      if evalskip == 0 {
        if status == 0 {
          status :- EvalTree(t, fuel);
        } else if e != Nothing {
          status :- EvalTree(e, fuel);
        } else {
          status := 0;
        }
      }
      return Status(status);
    }

    /** The break and continue commands. */
    method JumpCmd(k: int, kind: bv8) returns (r: Outcome)
      requires evalskip == 0 && (kind == SKIPBREAK || kind == SKIPCONT)
      modifies this
      ensures Ended(Some(Jump(k, old(loopnest), old(Abs()), kind == SKIPBREAK)), r, old(loopnest))
    {
      var n := k;
      if n <= 0 {
        exitstatus := 2;
        return Longjmp;
      }
      if n > loopnest {
        n := loopnest;
      }
      if n > 0 {
        evalskip, skipcount := kind, n;
      }
      return Status(0);
    }

    /** Called by a loop after each thing it runs: takes one level off a pending break or continue. */
    method SkipLoop(ghost c: Completion, ghost nest: nat) returns (skip: bv8)
      requires Encodes(c) && Within(c, nest) && c != Raised
      modifies this`evalskip, this`skipcount
      ensures Encodes(Outward(c))
      ensures skip == 0 <==> c == Normal
      ensures Stops(skip) <==> !GoesOn(c)
      ensures skip == SKIPFUNC <==> c == Return(true)
    {
      skip := evalskip;
      if skip == SKIPBREAK || skip == SKIPCONT {
        skipcount := skipcount - 1;
        if skipcount <= 0 {
          evalskip := 0;
        } else {
          skip := SKIPBREAK;
        }
      }
    }

    method EvalLoop(n: Node, fuel: nat) returns (r: Outcome)
      requires n.While? && evalskip == 0
      modifies this
      ensures Ended(SemWhile(w, n, old(loopnest), old(Abs()), 0, fuel), r, old(loopnest))
      decreases fuel, n, 0
    {
      hide Sem, SemWhile, Stops, Within;
      loopnest := loopnest + 1;
      var status := 0;
      var f: nat := fuel;
      while true
        invariant evalskip == 0 && loopnest == old(loopnest) + 1 && f <= fuel
        invariant SemWhile(w, n, old(loopnest), old(Abs()), 0, fuel)
                  == SemWhile(w, n, old(loopnest), Abs(), status, f)
        decreases f
      {
        WhileStep(w, n, loopnest - 1, Abs(), status, f);
        if f == 0 {
          return NoFuel;
        }
        f := f - 1;
        ghost var a := Sem(w, n.c, loopnest, Abs(), f);
        var i :- EvalTree(n.c, f);
        var skip := SkipLoop(a.value.c, loopnest);
        if skip == SKIPFUNC {
          status := i;
        }
        if skip == 0 {
          if n.until {
            i := Negate(i);
          }
          if i != 0 {
            break;
          }
          ghost var b := Sem(w, n.body, loopnest, Abs(), f);
          status :- EvalTree(n.body, f);
          skip := SkipLoop(b.value.c, loopnest);
        }
        if Stops(skip) {
          break;
        }
      }
      loopnest := loopnest - 1;
      return Status(status);
    }

    method EvalFor(n: Node, fuel: nat) returns (r: Outcome)
      requires n.For? && evalskip == 0
      modifies this
      ensures Ended(SemFor(w, n, 0, old(loopnest), old(Abs()), 0, fuel), r, old(loopnest))
      decreases fuel, n, 0
    {
      hide Sem;
      var status := 0;
      loopnest := loopnest + 1;
      var i := 0;
      while i < |n.words|
        invariant i <= |n.words| && evalskip == 0 && loopnest == old(loopnest) + 1
        invariant SemFor(w, n, 0, old(loopnest), old(Abs()), 0, fuel)
                  == SemFor(w, n, i, old(loopnest), Abs(), status, fuel)
      {
        trace := trace + [SetVar(n.x, n.words[i])];
        ghost var b := Sem(w, n.body, loopnest, Abs(), fuel);
        status :- EvalTree(n.body, fuel);
        var skip := SkipLoop(b.value.c, loopnest);
        if Stops(skip) {
          break;
        }
        i := i + 1;
      }
      loopnest := loopnest - 1;
      return Status(status);
    }

    method EvalCase(n: Node, fuel: nat) returns (r: Outcome)
      requires n.Case? && evalskip == 0
      modifies this
      ensures Ended(Sem(w, n, old(loopnest), old(Abs()), fuel), r, old(loopnest))
      decreases fuel, n, 1
    {
      var status := 0;
      var i := 0;
      while i < |n.arms| && evalskip == 0
        invariant i <= |n.arms| && evalskip == 0
        invariant FirstMatch(w, n.word, n.arms) == i + FirstMatch(w, n.word, n.arms[i..])
      {
        var j := 0;
        while j < |n.arms[i].pats|
          invariant j <= |n.arms[i].pats|
          invariant forall k :: 0 <= k < j ==> !w.matches(n.arms[i].pats[k], n.word)
        {
          if w.matches(n.arms[i].pats[j], n.word) {
            if evalskip == 0 && n.arms[i].body != Nothing {
              status :- EvalTree(n.arms[i].body, fuel);
            }
            return Status(status);
          }
          j := j + 1;
        }
        i := i + 1;
      }
      return Status(status);
    }

    /** The eval command. */
    method EvalString(cmds: seq<Node>, fuel: nat) returns (r: Outcome)
      requires evalskip == 0
      modifies this
      ensures Ended(SemString(w, cmds, old(loopnest), old(Abs()), 0, fuel), r, old(loopnest))
      decreases fuel, cmds, 0
    {
      hide Sem;
      var status := 0;
      var i := 0;
      while i < |cmds|
        invariant i <= |cmds| && evalskip == 0 && loopnest == old(loopnest)
        invariant SemString(w, cmds, loopnest, old(Abs()), 0, fuel)
                  == SemString(w, cmds[i..], loopnest, Abs(), status, fuel)
      {
        assert cmds[i..][1..] == cmds[i + 1..];
        var st :- EvalTree(cmds[i], fuel);
        if cmds[i] != Nothing {
          status := st;
        }
        if evalskip != 0 {
          break;
        }
        i := i + 1;
      }
      exitstatus := status;
      return Status(status);
    }

    /** A function call; the loops around the call are not visible inside, and a return stops here. */
    method EvalFun(n: Node, fuel: nat) returns (r: Outcome)
      requires n.Call? && evalskip == 0
      modifies this
      ensures Ended(SemCall(w, n, old(Abs()), fuel), r, old(loopnest))
      decreases fuel, n, 0
    {
      hide Sem;
      if n.f !in funcs {
        return Status(127);
      }
      if fuel == 0 {
        return NoFuel;
      }
      var saveloopnest := loopnest;
      loopnest := 0;
      var e := EvalTree(funcs[n.f], fuel - 1);
      loopnest := saveloopnest;
      evalskip := evalskip & !(SKIPFUNC | SKIPFUNCDEF);
      if !e.Status? {
        return e;
      }
      return Status(exitstatus);
    }
  }

  /** A break or a continue that is still pending is for one of the loops around. */
  lemma PendingWithinLoops(e: Evaluator, n: Node, depth: nat, s: State, fuel: nat, r: Outcome)
    requires e.Ended(Sem(e.w, n, depth, s, fuel), r, depth) && r.Status?
    ensures e.evalskip == SKIPBREAK || e.evalskip == SKIPCONT ==> 1 <= e.skipcount <= e.loopnest
  {
  }
}
