/**
 * A structured meaning of shell commands: running one ends with a completion that says whether a break,
 * continue or return is on its way out, and how far. Nothing here is a flag. What the commands
 * themselves do is left to a world that answers with exit statuses.
 */
module EvalSemantics {
  import opened Option

  datatype Event = Ran(id: string) | SetVar(x: string, value: string)

  datatype Arm = Arm(pats: seq<string>, body: Node)

  /**
   * Nothing is a null node. Ext is a command that cannot touch the evaluator: an external program, a
   * builtin other than the ones below, a subshell, a pipeline or a background command.
   */
  datatype Node =
    | Nothing
    | Ext(id: string)
    | BreakCmd(n: int)
    | ContinueCmd(n: int)
    | ReturnCmd(arg: Option<nat>)
    | EvalCmd(cmds: seq<Node>)
    | Call(f: string)
    | Not(a: Node)
    | And(l: Node, r: Node)
    | Or(l: Node, r: Node)
    | Semi(l: Node, r: Node)
    | If(c: Node, t: Node, e: Node)
    | While(until: bool, c: Node, body: Node)
    | For(x: string, words: seq<string>, body: Node)
    | Case(word: string, arms: seq<Arm>)
    | Defun(f: string, body: Node)
    | Redir(id: string, body: Node)

  /** How commands and redirections turn out, given what ran before; and which patterns match. */
  datatype World = World(status: (string, seq<Event>) -> int, matches: (string, string) -> bool)

  datatype State = State(status: int, funcs: map<string, Node>, trace: seq<Event>)

  datatype Completion =
    | Normal
    | Break(k: nat)
    | Continue(k: nat)
    | Return(explicit: bool)
    | Raised

  datatype Done = Done(c: Completion, s: State)

  function Negate(status: int): int { if status == 0 then 1 else 0 }

  function With(s: State, status: int): State { s.(status := status) }

  function Run(w: World, id: string, s: State): State {
    s.(status := w.status(id, s.trace), trace := s.trace + [Ran(id)])
  }

  /** What is left of a break or continue once it has got out of one loop. */
  function Outward(c: Completion): Completion {
    match c
    case Break(k) => if k <= 1 then Normal else Break(k - 1)
    case Continue(k) => if k <= 1 then Normal else Continue(k - 1)
    case _ => c
  }

  /** Whether a loop goes on after its body or test ended with c. */
  predicate GoesOn(c: Completion) {
    c == Normal || (c.Continue? && c.k <= 1)
  }

  /** A break or continue never names more loops than there are around it. */
  predicate Within(c: Completion, depth: nat) {
    (c.Break? || c.Continue? ==> 1 <= c.k <= depth)
  }

  /** The arm of a case whose patterns match first. */
  function FirstMatch(w: World, word: string, arms: seq<Arm>): (i: nat)
    ensures i <= |arms|
  {
    if arms == [] then 0
    else if exists j :: 0 <= j < |arms[0].pats| && w.matches(arms[0].pats[j], word) then 0
    else 1 + FirstMatch(w, word, arms[1..])
  }

  /** depth counts the loops around n; None is a run that needs more fuel. */
  function Sem(w: World, n: Node, depth: nat, s: State, fuel: nat): (r: Option<Done>)
    ensures r.Some? ==> Within(r.value.c, depth)
    decreases fuel, n, 1
  {
    match n
    case Nothing => Some(Done(Normal, s))
    case Ext(id) => Some(Done(Normal, Run(w, id, s)))
    case BreakCmd(k) => Some(Jump(k, depth, s, true))
    case ContinueCmd(k) => Some(Jump(k, depth, s, false))
    case ReturnCmd(arg) =>
      Some(Done(Return(arg.Some?), if arg.Some? then With(s, arg.value) else s))
    case EvalCmd(cmds) => SemString(w, cmds, depth, s, 0, fuel)
    case Call(_) => SemCall(w, n, s, fuel)
    case Not(a) =>
      var r :- Sem(w, a, depth, s, fuel);
      Some(if r.c == Normal then Done(Normal, With(r.s, Negate(r.s.status))) else r)
    case And(l, r) =>
      var a :- Sem(w, l, depth, s, fuel);
      if a.c == Normal && a.s.status == 0 then Sem(w, r, depth, a.s, fuel) else Some(a)
    case Or(l, r) =>
      var a :- Sem(w, l, depth, s, fuel);
      if a.c == Normal && a.s.status != 0 then Sem(w, r, depth, a.s, fuel) else Some(a)
    case Semi(l, r) =>
      var a :- Sem(w, l, depth, s, fuel);
      if a.c == Normal then Sem(w, r, depth, a.s, fuel) else Some(a)
    case If(c, t, e) =>
      var a :- Sem(w, c, depth, s, fuel);
      if a.c != Normal then Some(a)
      else if a.s.status == 0 then Sem(w, t, depth, a.s, fuel)
      else if e == Nothing then Some(Done(Normal, With(a.s, 0)))
      else Sem(w, e, depth, a.s, fuel)
    case While(_, _, _) => SemWhile(w, n, depth, s, 0, fuel)
    case For(_, _, _) => SemFor(w, n, 0, depth, s, 0, fuel)
    case Case(word, arms) =>
      var i := FirstMatch(w, word, arms);
      if i == |arms| || arms[i].body == Nothing then Some(Done(Normal, With(s, 0)))
      else Sem(w, arms[i].body, depth, s, fuel)
    case Defun(f, body) => Some(Done(Normal, With(s.(funcs := s.funcs[f := body]), 0)))
    case Redir(id, body) =>
      var s1 := Run(w, id, s);
      if s1.status != 0 then Some(Done(Normal, s1)) else Sem(w, body, depth, With(s1, s.status), fuel)
  }

  /**
   * A count that is not positive is an error, which unwinds everything. A count above the loops there are is cut
   * down; outside every loop nothing happens.
   */
  function Jump(k: int, depth: nat, s: State, isBreak: bool): (r: Done)
    ensures Within(r.c, depth)
  {
    if k <= 0 then Done(Raised, With(s, 2))
    else
      var k' := if k > depth then depth else k;
      var s1 := With(s, 0);
      if k' == 0 then Done(Normal, s1) else Done(if isBreak then Break(k') else Continue(k'), s1)
  }

  /** The commands of a string, one after the other; last is the status of the last one that was not empty. */
  function SemString(w: World, cmds: seq<Node>, depth: nat, s: State, last: int, fuel: nat): (r: Option<Done>)
    ensures r.Some? ==> Within(r.value.c, depth)
    decreases fuel, cmds, 0
  {
    if cmds == [] then Some(Done(Normal, With(s, last))) else
    var a :- Sem(w, cmds[0], depth, s, fuel);
    var last' := if cmds[0] == Nothing then last else a.s.status;
    if a.c == Normal then SemString(w, cmds[1..], depth, a.s, last', fuel)
    else if a.c == Raised then Some(a)
    else Some(Done(a.c, With(a.s, last')))
  }

  /** A function starts outside every loop, and a return ends here. */
  function SemCall(w: World, n: Node, s: State, fuel: nat): (r: Option<Done>)
    requires n.Call?
    ensures r.Some? ==> r.value.c == Normal || r.value.c == Raised
    decreases fuel, n, 0
  {
    if n.f !in s.funcs then Some(Done(Normal, With(s, 127)))
    else if fuel == 0 then None
    else
      var a :- Sem(w, s.funcs[n.f], 0, s, fuel - 1);
      Some(if a.c == Raised then a else Done(Normal, a.s))
  }

  /** last is the status of the body's last run, or 0. */
  function SemWhile(w: World, n: Node, depth: nat, s: State, last: int, fuel: nat): (r: Option<Done>)
    requires n.While?
    ensures r.Some? ==> Within(r.value.c, depth)
    decreases fuel, n, 0
  {
    if fuel == 0 then None else
    var a :- Sem(w, n.c, depth + 1, s, fuel - 1);
    if a.c == Raised then Some(a)
    else if a.c == Normal then
      if (a.s.status != 0) != n.until then Some(Done(Normal, With(a.s, last))) else
      var b :- Sem(w, n.body, depth + 1, a.s, fuel - 1);
      if GoesOn(b.c) then SemWhile(w, n, depth, b.s, b.s.status, fuel - 1)
      else Some(Done(Outward(b.c), b.s))
    else if GoesOn(a.c) then SemWhile(w, n, depth, a.s, last, fuel - 1)
    else Some(Done(Outward(a.c), if a.c == Return(true) then a.s else With(a.s, last)))
  }

  function SemFor(w: World, n: Node, i: nat, depth: nat, s: State, last: int, fuel: nat): (r: Option<Done>)
    requires n.For? && i <= |n.words|
    ensures r.Some? ==> Within(r.value.c, depth)
    decreases fuel, n, 0, |n.words| - i
  {
    if i == |n.words| then Some(Done(Normal, With(s, last))) else
    var s1 := s.(trace := s.trace + [SetVar(n.x, n.words[i])]);
    var b :- Sem(w, n.body, depth + 1, s1, fuel);
    if GoesOn(b.c) then SemFor(w, n, i + 1, depth, b.s, b.s.status, fuel)
    else Some(Done(Outward(b.c), b.s))
  }
}
