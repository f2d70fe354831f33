/**
 * Words: the tree of a word, its text with control codes (src/TOUR), and the decoder that reads the text back
 * (parse_arg in ocaml/ast.ml).
 */
module WordTree {
  import opened Option

  /** A byte, 0 to 255. */
  type Byte = int

  /** The tree of a command; nothing here depends on what is in it. */
  type Command = int

  type Text = seq<Byte>

  const SLASH: Byte := 47
  const COLON: Byte := 58
  const EQUALS: Byte := 61
  const TILDE: Byte := 126
  const CTLESC: Byte := 129
  const CTLVAR: Byte := 130
  const CTLENDVAR: Byte := 131
  const CTLBACKQ: Byte := 132
  const CTLMBCHAR: Byte := 133
  const CTLARI: Byte := 134
  const CTLENDARI: Byte := 135
  const CTLQUOTEMARK: Byte := 136

  predicate IsControl(c: Byte) {
    CTLESC <= c <= CTLQUOTEMARK
  }

  datatype VarType = Normal | Minus | Plus | Question | Assign | TrimR | TrimRMax | TrimL | TrimLMax | Length

  datatype ArgChar =
    | C(c: Byte)
    | E(c: Byte)
    | T(user: Option<Text>)
    | A(arg: Arg)
    | V(vt: VarType, nul: bool, name: Text, arg: Arg)
    | Q(arg: Arg)
    | B(cmd: Command)

  datatype Arg = Nil | Cons(head: ArgChar, tail: Arg)

  // ---------- the decoder ----------

  /** What the decoder is inside of. */
  datatype Within = InVar | InAri | InQuo

  /** What has been read, and what is left of the text, of the commands and of the stack. */
  datatype Parsed = Parsed(arg: Arg, text: Text, cmds: seq<Command>, stack: seq<Within>)

  function CodeType(code: int): Option<VarType> {
    match code
    case 0 => Some(Normal)
    case 2 => Some(Minus)
    case 3 => Some(Plus)
    case 4 => Some(Question)
    case 5 => Some(Assign)
    case 6 => Some(TrimR)
    case 7 => Some(TrimRMax)
    case 8 => Some(TrimL)
    case 9 => Some(TrimLMax)
    case 10 => Some(Length)
    case _ => None
  }

  /** The bytes before the first equals sign. */
  function NameOf(s: Text): (n: Text)
    ensures |n| <= |s| && n == s[..|n|]
  {
    if s == [] || s[0] == EQUALS then [] else [s[0]] + NameOf(s[1..])
  }

  /** The user name after a tilde, and the rest; a control code loses what was read. */
  function ParseTilde(acc: Text, s: Text): (r: (Option<Text>, Text))
    ensures |r.1| <= |s|
    decreases s
  {
    if s != [] && s[0] in [CTLESC, CTLVAR, CTLBACKQ, CTLARI, CTLQUOTEMARK] then (None, s)
    else if s == [] || s[0] in [CTLENDVAR, CTLENDARI, COLON, SLASH] then (if acc == [] then None else Some(acc), s)
    else ParseTilde(acc + [s[0]], s[1..])
  }

  /** The bytes of a multibyte character after its CTLMBCHAR, whether escaped, and the rest. */
  function ParseMulti(s: Text): (r: Option<(bool, Text, Text)>)
    ensures r.Some? ==> |r.value.2| <= |s|
  {
    var escaped := |s| >= 2 && s[0] == CTLESC;
    var s := if escaped then s[1..] else s;
    if s == [] then None
    else
      var ml, s := s[0], s[1..];
      if !(1 <= ml <= 4) || |s| < ml + 2 || s[ml] != ml || s[ml + 1] != CTLMBCHAR then None
      else Some((escaped, s[..ml], s[ml + 2..]))
  }

  function Chars(escaped: bool, bytes: Text, tail: Arg): Arg {
    if bytes == [] then tail
    else Cons(if escaped then E(bytes[0]) else C(bytes[0]), Chars(escaped, bytes[1..], tail))
  }

  /** Puts an item before what is parsed next. */
  function Before(c: ArgChar, r: Option<Parsed>): Option<Parsed> {
    var p :- r;
    Some(p.(arg := Cons(c, p.arg)))
  }

  /** One level of the stack is gone when the text of that level has been read. */
  function ParseArg(s: Text, cmds: seq<Command>, stack: seq<Within>): (r: Option<Parsed>)
    ensures r.Some? ==> |r.value.text| <= |s|
    ensures r.Some? ==> r.value.stack == if stack == [] then [] else stack[1..]
    decreases |s|
  {
    if s == [] then
      if stack == [] then Some(Parsed(Nil, [], cmds, [])) else None
    else
      var c := s[0];
      if c == CTLESC && |s| >= 2 then Before(E(s[1]), ParseArg(s[2..], cmds, stack))
      else if c == CTLVAR then ParseVar(s, cmds, stack)
      else if c == CTLENDVAR then
        if stack != [] && stack[0] == InVar then Some(Parsed(Nil, s[1..], cmds, stack[1..])) else None
      else if c == CTLBACKQ then
        if cmds == [] then None else Before(B(cmds[0]), ParseArg(s[1..], cmds[1..], stack))
      else if c == CTLMBCHAR then
        var (escaped, bytes, s1) :- ParseMulti(s[1..]);
        var p :- ParseArg(s1, cmds, stack);
        Some(p.(arg := Chars(escaped, bytes, p.arg)))
      else if c == CTLARI then
        var p :- ParseArg(s[1..], cmds, [InAri] + stack);
        assert p.stack == stack;
        Before(A(p.arg), ParseArg(p.text, p.cmds, p.stack))
      else if c == CTLENDARI then
        if stack != [] && stack[0] == InAri then Some(Parsed(Nil, s[1..], cmds, stack[1..])) else None
      else if c == CTLQUOTEMARK then
        if stack != [] && stack[0] == InQuo then Some(Parsed(Nil, s[1..], cmds, stack[1..]))
        else
          var p :- ParseArg(s[1..], cmds, [InQuo] + stack);
          assert p.stack == stack;
          Before(Q(p.arg), ParseArg(p.text, p.cmds, p.stack))
      else if c == TILDE && InQuo !in stack && InAri !in stack then
        var (user, s1) := ParseTilde([], s[1..]);
        Before(T(user), ParseArg(s1, cmds, stack))
      else Before(C(c), ParseArg(s[1..], cmds, stack))
  }

  /** After CTLVAR: a type byte, a name, an equals sign, and unless the type is VSNORMAL more up to CTLENDVAR. */
  function ParseVar(s: Text, cmds: seq<Command>, stack: seq<Within>): (r: Option<Parsed>)
    requires s != [] && s[0] == CTLVAR
    ensures r.Some? ==> |r.value.text| <= |s|
    ensures r.Some? ==> r.value.stack == if stack == [] then [] else stack[1..]
    decreases |s|, 0
  {
    if |s| == 1 then Before(C(194), Before(C(130), ParseArg([], cmds, stack)))
    else
      var t := s[1];
      var name := NameOf(s[2..]);
      var s1 := s[2 + |name|..];
      if s1 == [] then None
      else if t % 16 == 1 then Before(V(Normal, false, name, Nil), ParseArg(s1[1..], cmds, stack))
      else if t % 16 == 10 then
        if |s1| >= 2 && s1[1] == CTLENDVAR then Before(V(Length, false, name, Nil), ParseArg(s1[2..], cmds, stack))
        else None
      else
        var p :- ParseArg(s1[1..], cmds, [InVar] + stack);
        var vt :- CodeType(t % 16);
        Before(V(vt, t / 16 % 2 == 1, name, p.arg), ParseArg(p.text, p.cmds, p.stack))
  }

  /** All the text and all the commands have to be used, which leaves the stack empty. */
  function ToArg(s: Text, cmds: seq<Command>): Option<Arg> {
    var p :- ParseArg(s, cmds, []);
    if p.text == [] && p.cmds == [] && p.stack == [] then Some(p.arg) else None
  }
}
