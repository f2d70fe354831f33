# A verified model of the hard parts of dash and libdash

The project models the parts of the dash shell, and of the libdash syntax tree libraries around it, whose logic is in
small hand-written machines over global state, and proves what each machine is for:

- **Arithmetic** (`Arith*.dfy`, `IntMax.dfy`, `CharClass.dfy`, `NameLaws.dfy`): the one-pass evaluator of `$((...))`,
  with its one token of lookahead and its `noeval` mode, computes the value of the syntax tree it never builds. The
  parser behind it accepts exactly the spellings of the grammar's trees, and each spelling has one tree.
- **Shell grammar** (`Shell*.dfy`): printing a command tree to tokens and parsing them back gives the same tree, and the
  recursive descent parser with its pushed-back token does what the grammar says. Among all trees with printable parts,
  just the printable ones come back, and so does the empty tree where the input ends (`PrintableIsExact`).
- **Control flow** (`Eval*.dfy`): `break`, `continue` and `return` as the flags `evalskip`, `skipcount` and `loopnest`
  refine a structured meaning with completions.
- **Redirections** (`Redir*.dfy`): popping the frames of saved descriptors gives back the descriptor table exactly,
  however commands with redirections are nested and whichever of them fail part-way.
- **Stack allocator** (`Stack*.dfy`): a mark's block is never moved or freed, popping a mark restores the registers and
  every byte before the mark, and a string that grows keeps its bytes.
- **Patterns and trims** (`Glob*.dfy`, `Trim*.dfy`, `CBytes.dfy`): the matcher that skips ahead after a star accepts
  just the language of the pattern, and the four trims cut the shortest or longest prefix or suffix.
- **Words** (`Word*.dfy`): a word encoded with control codes is decoded to the same tree.
- **Field splitting and copying** (`Ifs*.dfy`, `Copy*.dfy`, `Unescape.dfy`): the paths that take eight bytes at a time
  do what the byte by byte ones do; the fields are those of section 2.6.5 of the POSIX.1-2017 Shell Command Language,
  and what is copied out with escapes is the same again when they are removed in place.
- **Commands, variables, jobs, directories** (`Exec*.dfy`, `Var*.dfy`, `Job*.dfy`, `Cd*.dfy`): the command cache never
  changes what a name means, local variables are put back exactly and no text is freed twice or lost, the chain through
  the relocatable job table visits each used slot once, and `cd` normalises paths in the room it reserved.

The modules named `...Laws`, and `ArithMeaning`, say what the meanings that the code is proved against are in turn,
without naming their own definitions: what each operator computes and how tightly it binds, which command of an `if`, a
`&&` or a loop runs, what `>f 2>&1` does, which file a search finds, what `for x do` loops over, what a pattern matches
by its first bytes, what a field is by its delimiters, that quoted text matches just itself, what a variable expands to
after each command, when a job is done, and where `cd` leads by the text of its argument.

Code that changes state in place is a class with the globals as fields, or a method over an array; each method is proved
against functions whose own properties are lemmas. Errors that dash raises with a jump are result values. Callees that
are system calls or library calls are parameters: the descriptor table, the files that can be executed, the addresses
that `malloc` and `realloc` return, the result of each external command.

Where the code differs from what it looks to be for, the model follows the code and says when it does what it should:

- Trees that are not printable are printed all the same, and do not come back. `RedirBack`, `BackgroundBack` and
  `SubshellBack` give what the printed tokens parse to, for every printable tree inside; `SequenceRedirected`,
  `SequenceInBackground`, `PipeInBackground` and `SubshellRedirected` are families of them.
- A cached builtin that is not regular is refused when only regular builtins are asked for, though a search without the
  cache would find it; `FindCommand` states exactly when, and `EchoRefused` is an instance. A simple command asks twice,
  and always gets what a search without the cache gives (`LocatedResolves`).
- A tilde prefix whose name runs into one of five control codes loses the name (`TildeNameLost`), and a multibyte
  character after it becomes part of the name (`TildeNameSwallows`); `TildeNameExact` says when the name is read back.
- `while return; do ...` without an argument ends with status 0 whatever the status was (`ReturnFromTest` says when that
  shows, `ReturnLosesStatus` is an instance).
- `local x=v` for a read only `x` raises an error after it has marked the entry, and the mark stays (`LocalRefused` says
  when, `ReadonlyMarked` is an instance); if the entry owned its text, nothing frees that text any more (`MkLocal` says
  when).
- A limited split drops a last field that is empty (`LimitedAgrees` says when it is the standard's, `LimitDropsEmpty` is
  an instance), and loses text that follows the recorded region if the last field has ended by then (`StoppedFields`
  says when, `TextLost` is an instance).
- A mark at the start of a block other than the base can be popped only once: after that a string that grows may move
  the block, and a second pop has nothing to stop at (`PoppedTwice`; `PoppedAtStart` is an instance). A mark that had no
  need to grab a byte, or is in the base block, may be popped again (`PopStackMark`).
- A job that has no process yet is scanned all the same. If its memory happens to hold the pid that is waited for, the
  job gets a state that it must not have, and only then (`WaitOne`).
- What `PWD` says at the start need not be a normal path, and `cd` keeps what is left of it (`WalkNames` says when the
  result is normal, `DotTakenAway` is an instance).

## Model

| member | source | states |
|---|---|---|
| ArithSyntax.ParseIsGrammar | src/arith_yacc.c:137-290 | the token parser accepts a stream as tree e if and only if e fits the precedence grammar (left-associative binary operators, right-associative assignment and conditional) and is spelled by the stream |
| ArithSyntax.Unambiguous | src/arith_yacc.c:57-74 | two grammatical trees with the same spelling are the same tree |
| ArithSyntax.ClimbSound | src/arith_yacc.c:174-202 | what precedence climbing consumes after a left operand is the spelling of the tree it returns, and that tree fits the precedence it was called with |
| ArithSyntax.BinComplete | src/arith_yacc.c:174-213 | parsing the spelling of a grammatical tree at any precedence, whatever follows, is climbing on from that tree |
| ArithSpell.LexSpelled | src/arith_yylex.c:53-240 | a spelled lexeme followed by a blank is lexed as itself, with its whole length |
| ArithSpell.LexText | src/arith_yylex.c:53-240 | the text of a list of lexemes is lexed to that list |
| ArithSpell.TextRoundTrip | src/arith_yylex.c:53-240 | a grammatical tree written as text is lexed and parsed back to the tree |
| ArithYacc.Evaluator.Yylex | src/arith_yylex.c:53-240 | the scanner returns the first token of the specified token stream with its value, leaves the rest in arith_buf, and longest match holds for operators |
| ArithYacc.Evaluator.ScanOperator | src/arith_yylex.c:141-232 | the character switch finds the longest operator in the table of spellings |
| ArithYacc.Evaluator.Primary | src/arith_yacc.c:137-172 | value, store and stopping token are those of the tree's evaluation; in noeval mode the same tokens are consumed, the store is unchanged and no evaluation error is raised |
| ArithYacc.Evaluator.Operand | src/arith_yacc.c:174-186 | the same for the operand that follows a binary operator |
| ArithYacc.Evaluator.Binop2 | src/arith_yacc.c:174-202 | given the value of the left operand, the chain has the value of the left-associative tree, operands evaluated left to right |
| ArithYacc.Evaluator.Binop | src/arith_yacc.c:204-213 | the same for a whole binary expression |
| ArithYacc.Evaluator.And | src/arith_yacc.c:215-230 | the value of the short-circuit conjunction; a right operand that is skipped is parsed but has no effect |
| ArithYacc.Evaluator.Or | src/arith_yacc.c:232-247 | the value of the short-circuit disjunction, likewise |
| ArithYacc.Evaluator.Cond | src/arith_yacc.c:249-269 | the value of the chosen branch only; both are parsed |
| ArithYacc.Evaluator.Assignment | src/arith_yacc.c:271-290 | the variable gets the value of the right side, combined with its old value for a compound operator, and nothing is stored in noeval mode |
| ArithYacc.Evaluator.Arith | src/arith_yacc.c:292-304 | for every text: an error if it is not an expression, else the value and the variables of its tree, or that evaluation's error |
| ArithLaws.Sums | src/arith_yacc.c:106-107 | adding to a number in range counts on from it, around the end of the range; Op and the number tell which operator by its spelling |
| ArithLaws.Differences | src/arith_yacc.c:108-109 | what subtraction takes away addition gives back, and nothing taken away leaves the number |
| ArithLaws.Products | src/arith_yacc.c:110-111 | multiplying by one more adds the number once more, modulo 2^64 |
| ArithLaws.Divides | src/arith_yacc.c:97-105 | division and remainder fail just for a zero divisor and for the one quotient out of range |
| ArithLaws.Remainders | src/arith_yacc.c:97-105 | quotient times divisor plus remainder is the dividend, the remainder is less than the divisor and has the sign of the dividend |
| ArithLaws.LeftShifts | src/arith_yacc.c:112-113 | each place to the left adds the number to itself |
| ArithLaws.RightShifts | src/arith_yacc.c:114-115 | each place to the right halves the number and rounds down |
| ArithLaws.Comparisons | src/arith_yacc.c:116-127 | exactly one of <, == and > is 1, the order is that of counting, and <=, >= and != follow |
| ArithLaws.Bits | src/arith_yacc.c:128-133 | each bit of &, | and ^ is that of the operands, and all results are in range |
| ArithLaws.BitsDecide | src/arith_yacc.c:128-133 | two numbers in range with the same bits are equal, so the bits say all |
| ArithLaws.Unary | src/arith_yacc.c:137-172 | a number and its negation add up to 0, ! compares with 0, ~ turns every bit, + does nothing |
| ArithMeaning.Choices | src/arith_yacc.c:249-269 | the condition picks the part, its negation picks the other, and only that part is evaluated |
| ArithMeaning.Junctions | src/arith_yacc.c:215-247 | && and || are conditions whose other part is 0 or 1 |
| ArithMeaning.Assigns | src/arith_yacc.c:271-290 | an assignment has the value of the right side, the variable has it afterwards and no other variable has changed |
| ArithMeaning.Compounds | src/arith_yacc.c:271-290 | x op= e is x = x op v where v is the value of e, found first |
| ArithMeaning.LeftFirst | src/arith_yacc.c:174-202 | the right operand sees what the left one did, and the first error is the result |
| ArithMeaning.Binding | src/arith_yacc.c:57-74 | for all pairs of binary operators, given by their spellings in ten levels: the tighter one takes the operand between them, at one level the left one does |
| ArithMeaning.JunctionBinding | src/arith_yacc.c:215-247 | && binds looser than every binary operator, and || looser than && |
| ArithMeaning.OuterBinding | src/arith_yacc.c:271-290 | assignment binds looser than ||, and a sign tighter than any operator |
| ArithMeaning.ConditionLeans | src/arith_yacc.c:249-269 | a condition in the last part of another belongs to that part |
| ArithMeaning.AssignmentLeans | src/arith_yacc.c:271-290 | an assignment to the right of another is its value, and one may stand in the middle of a condition |
| ArithMeaning.Hexadecimal | src/arith_yylex.c:68-80 | digits after 0x are worth what they say in base 16, up to the largest value |
| ArithMeaning.Octal | src/arith_yylex.c:68-80 | digits after a 0 are worth what they say in base 8 |
| ArithMeaning.DecimalNumber | src/arith_yylex.c:68-80 | other digits are worth what they say in base 10 |
| NameLaws.Classes | src/mksyntax.c:201-207 | a letter or underscore starts a name, digits may follow; blanks are space, tab and newline |
| NameLaws.LongestName | src/parser.c:1695-1707 | the name at the front of a text goes up to the first character that cannot be in one |
| ShellParseBack.RoundTrip | libdash/printer.py:142-261 | for every printable tree, parsing its printed tokens with list(0) and converting the node gives back the tree, and leaves what follows the list unread: the end of the input, a parenthesis or `;;`, or after a semicolon or newline one of these or a keyword that ends lists |
| ShellRoundTrip.NodeRoundTrip | ocaml/ast.ml:103-222 | converting the node of a printable tree gives the tree |
| ShellParseBack.BackgroundPipeOf | libdash/printer.py:163-170 | a background pipeline printed in braces is parsed back as one command |
| ShellParseBack.IfPartOf | libdash/printer.py:240-261 | a chain of if and elif is parsed back to the nested tree |
| ShellMisprints.SequenceRedirected | libdash/printer.py:171-174 | every redirected sequence comes back as a sequence with the redirections on its second half, so not as itself |
| ShellMisprints.SequenceInBackground | libdash/printer.py:175-178 | every sequence in the background comes back with its first half in the foreground, so not as itself |
| ShellMisprints.PipeInBackground | libdash/printer.py:175-178 | every pipeline in a background node comes back as a background pipeline, with the redirections on its last command |
| ShellMisprints.SubshellRedirected | libdash/printer.py:179-182 | the redirections of a subshell come back on what is last inside it, whatever that is |
| ShellMisprints.PrintableIsExact | libdash/printer.py:142-261 | a tree whose parts are printable comes back if and only if it is printable itself, or is nothing where the input ends; for every constructor, and whatever of these follows the list: the end of the input, a closing parenthesis or `;;`, or a semicolon or newline and then one of them or a keyword that ends lists |
| ShellMisprints.CommandBack | libdash/printer.py:153-162 | a simple command comes back if and only if its names are names, its first word is neither an assignment nor, if it comes first, a keyword, it is not empty, and no quoted descriptor is duplicated |
| ShellMisprints.PipeBack | libdash/printer.py:163-170 | a pipeline comes back if and only if it has two or more items and none is printed as an and-or list, a negation, a sequence or a pipeline of its own |
| ShellMisprints.RedirBack | libdash/printer.py:171-174 | a redirected tree comes back if and only if there is a redirection and the tree is printed as a compound command that takes it, and it parses to the node given |
| ShellMisprints.BackgroundBack | libdash/printer.py:175-178 | when a background node comes back, and the node it parses to for every printable body and all redirections |
| ShellMisprints.SubshellBack | libdash/printer.py:179-182 | a subshell comes back if and only if it has no redirections, and the node it parses to |
| ShellMisprints.ForBack | libdash/printer.py:213-217 | a for loop comes back if and only if its variable is a name |
| ShellMisprints.CaseBack | libdash/printer.py:218-223 | a case comes back if and only if every arm has a pattern and none starts with an unquoted esac |
| ShellMisprints.DefunBack | libdash/printer.py:224-227 | a function comes back if and only if its name is a name that is neither empty, a keyword nor a special builtin |
| ShellAfter.ListOfPrinted | src/parser.c:196-544 | what every printable tree with any redirections after it parses to: they go to its last command or group |
| ShellChains.ListOfChain | src/parser.c:196-339 | what the parser makes of any chain of commands and brace groups joined by pipes, and-or operators and newlines, with any of them negated or redirected; none if a command after a pipe is negated |
| ShellMade.ListMade | src/parser.c:196-696 | what the top of any node that the parser returns can look like, and that a simple command takes a token for each word and two for each redirection |
| ShellParser.Parser.ReadToken | src/parser.c:731-798 | pushed-back token, newline skipping and keyword recognition: the token and the rest are those of the specified read |
| ShellParser.Parser.List | src/parser.c:196-267 | the loop over items with its nlflag returns the node of the grammar's list and stops at the same token |
| ShellParser.Parser.Andor | src/parser.c:272-295 | left-associative chain of and and or, as in the grammar |
| ShellParser.Parser.Pipeline | src/parser.c:300-339 | negation and pipe, as in the grammar |
| ShellParser.Parser.PipeRest | src/parser.c:314-330 | the linked list of a pipe's commands has them in order |
| ShellParser.Parser.Command | src/parser.c:344-544 | a compound or simple command with the redirections after it, as in the grammar |
| ShellParser.Parser.Compound | src/parser.c:359-519 | each keyword starts its construct, as in the grammar |
| ShellParser.Parser.IfChain | src/parser.c:363-387 | the loop over elif nests the later conditions in the else parts |
| ShellParser.Parser.For | src/parser.c:402-443 | the words of a for loop, or the positional parameters if there is no in |
| ShellParser.Parser.CaseClauses | src/parser.c:459-496 | the clauses up to esac, each with its patterns and its body |
| ShellParser.Parser.Redirections | src/parser.c:521-532 | the redirections after a command in order |
| ShellParser.Parser.ParseFname | src/parser.c:645-696 | the target of a redirection; a digit or a minus after a duplication is resolved |
| ShellParser.Parser.Simplecmd | src/parser.c:548-630 | assignments, words and redirections in order, or a function definition |
| ShellLaws.ForAll | src/parser.c:423-437 | for x do parses like for x in "$@"; do for every name and whatever follows, with or without a semicolon or newlines before do, with the same tokens left |
| ShellLaws.PatternParen | src/parser.c:459-483 | a parenthesis before the patterns of an arm changes neither the node nor what is left, for every arm that does not begin with esac |
| ShellLaws.CaseParen | src/parser.c:444-496 | so it does not in the first arm of a whole case command |
| ShellLaws.EsacInParens | src/parser.c:459-483 | after the parenthesis esac is a pattern like any other |
| ShellLaws.Semicolon | src/parser.c:251-259 | inside of a list a semicolon after a command is as good as a newline |
| ShellLaws.NewlineFirst | src/parser.c:203-224 | newlines before a command of a list are skipped |
| ShellLaws.TwoCommands | src/parser.c:226-250 | two commands with a semicolon or & between them are a sequence, the first in the background for & |
| ShellLaws.NewlineAfter | src/parser.c:272-330 | newlines are skipped after &&, || and | |
| ShellLaws.RedirectionFirst | src/parser.c:565-586 | a redirection may stand before an assignment or an argument as well as after it |
| ShellLaws.Targets | src/parser.c:645-662 | a digit or a minus as the target of a duplication is resolved at once, any other word is left for later |
| ShellLaws.SubshellThenRedirections | src/parser.c:521-541 | redirections after a subshell are the subshell's own |
| ShellLaws.FunctionBody | src/parser.c:587-611 | the body of a function is any command, on the same line or after newlines |
| ShellLaws.Lines | src/parser.c:196-267 | at the top a command ends with its line, and the next line is left |
| ShellLaws.Keywords | src/parser.c:763-774 | the words that are keywords, by their spelling |
| EvalMachine.Evaluator.EvalTree | src/eval.c:212-341 | from evalskip 0 the same commands run in the same order as in the structured meaning, the status is the same, and the flags encode its completion; it is never called while a skip is pending |
| EvalMachine.Evaluator.EvalBinary | src/eval.c:287-304 | the one branch for and, or and sequences runs its second command just when the structured meaning of each does |
| EvalMachine.Evaluator.EvalIf | src/eval.c:305-318 | only the chosen part runs, an if without else ends with 0, and nothing runs while a skip is pending |
| EvalMachine.Evaluator.SkipLoop | src/eval.c:358-378 | a pending break or continue loses one level, and the result says whether the loop ends |
| EvalMachine.Evaluator.EvalLoop | src/eval.c:382-409 | while and until do what the structured loop means for every test and body |
| EvalMachine.Evaluator.EvalFor | src/eval.c:414-443 | a for loop over its words does what the structured loop means |
| EvalMachine.Evaluator.EvalCase | src/eval.c:448-479 | the body of the first clause that matches is run |
| EvalMachine.Evaluator.EvalString | src/eval.c:176-202 | the commands of a string run until a skip is pending |
| EvalMachine.Evaluator.EvalFun | src/eval.c:990-1029 | a function runs outside every loop of its caller, and a return ends in it |
| EvalMachine.Evaluator.JumpCmd | src/eval.c:1084-1097 | the count is cut down to the loops there are, and a count that is not positive is an error |
| EvalMachine.PendingWithinLoops | src/eval.c:212-479 | after every run a break or continue that is pending has 1 <= skipcount <= loopnest |
| EvalLaws.Sequences | src/eval.c:287-306 | the second command runs from where the first ended if that ended normally, else not at all |
| EvalLaws.Junctions | src/eval.c:287-306 | the second command of && runs just when the first ends with status 0, that of || just when it ends with another |
| EvalLaws.Negations | src/eval.c:246-250 | ! turns 0 into 1 and any other status into 0, and leaves a jump alone |
| EvalLaws.Choices | src/eval.c:307-319 | an if runs what && runs where the test ends with 0, and what || runs where it ends with another status; without an else part that is status 0 |
| EvalLaws.NegatedChoices | src/eval.c:307-319 | with the test negated the other part runs, and it sees the negated status |
| EvalLaws.NegationShows | src/eval.c:307-319 | an instance: a part that returns without an argument returns the negated status |
| EvalLaws.FirstMatches | src/eval.c:462-476 | the arm that is picked has a pattern that matches and none before it has; no arm is picked just when none matches |
| EvalLaws.Cases | src/eval.c:448-479 | a case runs the body of that arm; without one, or with an empty body, the status is 0 and nothing runs |
| EvalLaws.LoopEnds | src/eval.c:382-409 | a test that fails ends a while loop, one that succeeds an until loop, with status 0 in the first round |
| EvalLaws.LoopRound | src/eval.c:382-409 | otherwise the body runs; a break or continue of more than one loop goes on to the next loop with one level less |
| EvalLaws.LoopGoesOn | src/eval.c:382-409 | after a round the loop goes on as from the start, but when the test ends it the status is that of the body |
| EvalLaws.ForSets | src/eval.c:414-443 | the variable gets the words from the first to the last, and no words are no rounds and status 0 |
| EvalLaws.ForRound | src/eval.c:434-439 | for the first word the variable is set and the body runs, and what is left is a loop over the other words |
| EvalLaws.JumpsCut | src/eval.c:1084-1097 | a break or continue of more loops than there are is one of all, and does nothing outside of loops |
| EvalLaws.Returns | src/eval.c:1105-1124 | a return leaves every loop around it, with its argument as the status if it has one |
| EvalLaws.Calls | src/eval.c:990-1029 | a function runs when it is called, outside of the loops of its caller, and a return ends in it |
| EvalLaws.Strings | src/eval.c:176-204 | the commands of a string run one after the other, and empty ones do not count |
| EvalLaws.LongStrings | src/eval.c:176-204 | however many there are, they run like the first in a sequence with a string of the others |
| EvalProperties.MoreFuel | src/eval.c:212-479 | the structured meaning does not depend on how many loop rounds are allowed, once they are enough |
| EvalProperties.OneEnd | src/eval.c:212-479 | a run that ends has one end |
| EvalProperties.ReturnFromTest | src/eval.c:382-409 | a loop whose test is a return ends with that return, and its status is kept if and only if the return has an argument or the status before it was 0 |
| EvalProperties.ReturnLosesStatus | src/eval.c:382-409 | an instance where the status of return is replaced by 0 |
| RedirTable.UndoKept | src/redir.c:149-166 | noting the old file of a descriptor before changing it keeps what undoing the frame gives |
| RedirTable.UndoStep | src/redir.c:407-429 | one round of the pop is one more descriptor undone |
| RedirMachine.Placed | src/redir.c:140-176 | opening, noting and moving one redirection keep what undoing gives, and do to descriptors 0 to 9 what the redirection means |
| RedirMachine.Shell.UpdateClosedRedirs | src/redir.c:95-106 | the bitmap records that a descriptor is closed, and says whether it was |
| RedirMachine.Shell.SaveFd | src/redir.c:484-505 | an open descriptor moves to 10 or above, a closed one is left |
| RedirMachine.Shell.DupRedirect | src/redir.c:288-329 | the target becomes a copy or is closed, and a descriptor opened for it is closed again, also on failure |
| RedirMachine.Shell.RedirectOne | src/redir.c:140-176 | one redirection succeeds just when its meaning is defined, has that meaning on 0 to 9, and keeps the undo chain and the closed-bit invariant either way |
| RedirMachine.Shell.Redirect | src/redir.c:118-186 | a list succeeds and acts as applying it from left to right; on failure the chain still undoes |
| RedirMachine.Shell.PushRedir | src/redir.c:534-552 | a new frame remembers the table, and the old top is returned |
| RedirMachine.Shell.PopRedir | src/redir.c:400-433 | the whole table is what it was when the frame was pushed, or with drop only what the frame held is closed |
| RedirMachine.Shell.UnwindRedir | src/redir.c:527-531 | the table is what it was when the first undone frame was pushed |
| RedirMachine.ResnapChain | src/redir.c:400-433 | frames below a dropped one stay undoable |
| RedirNesting.Perform | src/eval.c:251-264 | for every nesting of redirected commands, failures and raised errors: a run that ends leaves the whole table and the frames as they were, and one that raises leaves the frames that get back there |
| RedirLaws.Opens | src/redir.c:224-286 | a file that can be opened is on the descriptor afterwards, no other descriptor has changed, and one that cannot is an error |
| RedirLaws.Duplicates | src/redir.c:288-329 | two descriptors have the file that the source had; a source that is not open is an error |
| RedirLaws.Closes | src/redir.c:315-326 | closing leaves the descriptor closed and always succeeds |
| RedirLaws.FirstThen | src/redir.c:139-176 | a list followed by another fails where the first does, and otherwise is the second on what the first left |
| RedirLaws.BothToFile | src/redir.c:139-176 | >f 2>&1 puts both descriptors on the file, for every table and file |
| RedirLaws.FirstToFile | src/redir.c:139-176 | 2>&1 >f leaves the second on what the first was |
| RedirLaws.OnlyNamed | src/redir.c:139-176 | descriptors that no redirection names are as they were |
| StackModel.SafeReplaced | src/memalloc.c:218-233 | while a block may be moved no mark is in it |
| StackModel.SafePopped | src/memalloc.c:179-193 | going back to a mark leaves all earlier marks safe, and the mark itself if it had no need to grab a byte |
| StackModel.SafeWritten | src/memalloc.h:71-76 | bytes written after the last mark change nothing before any mark |
| StackAlloc.Stack.StAlloc | src/memalloc.c:116-146 | the memory is aligned and in the top block, a fresh one just if the rest of the old is too small; registers stay consistent and marks safe |
| StackAlloc.Stack.StUnalloc | src/memalloc.c:149-159 | the next byte goes back, and sstrend stays the end of the block |
| StackAlloc.Stack.PushStackMark | src/memalloc.c:163-170 | a new mark with the registers and every byte before it; it pins its block |
| StackAlloc.Stack.SetStackMark | src/memalloc.c:172-175 | the byte it may grab is all that is needed to pin the block, in every state |
| StackAlloc.Stack.PopStackMark | src/memalloc.c:179-193 | the unwinding loop ends, and the chain, the three registers and every byte before the mark are as they were at the mark |
| StackAlloc.Stack.GrowByRealloc | src/memalloc.c:218-233 | the block that may move holds only the string, whose bytes are kept; if it moves the old address is free |
| StackAlloc.Stack.GrowByCopy | src/memalloc.c:234-243 | the copy goes to a block that is new, so source and target do not overlap |
| StackAlloc.Stack.GrowStackBlock | src/memalloc.c:206-246 | at least one byte more and at least the minimum, with all bytes kept |
| StackAlloc.Stack.MakeStrSpace | src/memalloc.c:285-290 | the pointer keeps its offset and the string its bytes, and there is the room that was asked for |
| StackAlloc.Stack.StPutC | src/memalloc.h:71-76 | the string is one byte longer, whether it had to grow or not |
| StackAlloc.Stack.StNPuts | src/memalloc.c:292-297 | the string is longer by the given bytes |
| StackRuns.BuildString | src/memalloc.c:266-297 | a string built in any pieces holds them in order |
| StackRuns.Kept | src/memalloc.c:116-159 | bytes that were allocated stay where and as they are whatever is done after, and while their block is on top they can be given back |
| StackRuns.Frame | src/memalloc.c:172-193 | for every run of allocations, writes, releases, strings and nested marks between a mark and its pop, blocks, registers and every byte before the mark are back |
| StackRuns.PoppedTwice | src/memalloc.c:179-193 | after a mark at the start of a block other than the base is popped, growing a string may move the block, and then no block is left at which the loop of a second pop could stop |
| StackRuns.PoppedAtStart | src/memalloc.c:172-193 | an instance of such a mark |
| GlobPattern.AcceptsByte | src/expand.c:1885-2035 | an element that is not a star takes exactly one byte |
| GlobPattern.AcceptsStar | src/expand.c:1910-1938 | a star takes any part of the string |
| GlobMatch.BracketMatch | src/expand.c:1939-2007 | the scan of a bracket expression agrees with its items: ranges, escapes, negation, and no match of any kind if it is never closed |
| GlobMatch.StarMatch | src/expand.c:1910-1938 | trying only where the next byte occurs loses no match |
| GlobMatch.PMatch | src/expand.c:1885-2035 | the result is 1 if and only if the string is in the language of the pattern |
| GlobLaws.Itself | src/expand.c:1896-1909 | a byte that is not special, or is escaped, matches itself at the front of a string and leaves the rest to the rest of the pattern |
| GlobLaws.AnyByte | src/expand.c:1896-1909 | a question mark matches any byte |
| GlobLaws.AnyBytes | src/expand.c:1910-1938 | a star matches any front of the string |
| GlobLaws.OneOf | src/expand.c:1939-2007 | a bracket expression of bytes matches one of them, and after ! or ^ any other byte |
| GlobLaws.Range | src/expand.c:1939-2007 | a range matches the bytes from one to another, and after ! or ^ those outside |
| GlobLaws.ClosingFirst | src/expand.c:1939-2007 | a closing bracket that comes first is a member and does not close |
| GlobLaws.NotClosed | src/expand.c:1939-2007 | an opening bracket that is never closed stands for itself |
| Trim.TryAt | src/expand.c:612-620 | a prefix is tried with a NUL written at its end, and the value is the same afterwards |
| Trim.ScanLeft | src/expand.c:597-631 | the first place from the left, or none if there is none; the value is unchanged |
| Trim.ScanRight | src/expand.c:634-674 | the first place from the right, or none |
| Trim.SubEvalVarTrim | src/expand.c:710-771 | each of the four trims leaves the value without the shortest or longest prefix or suffix that the pattern accepts, or all of it |
| TrimLaws.FrontCut | src/expand.c:710-771 | what # leaves is the rest after the shortest front that the pattern matches, and what ## leaves that after the longest |
| TrimLaws.BackCut | src/expand.c:710-771 | likewise for the ends that % and %% cut off |
| TrimLaws.NothingCut | src/expand.c:710-771 | a value of which no front, or no end, is matched stays as it is |
| WordRoundTrip.Decoded | ocaml/ast.ml:231-364 | at any nesting the text of a word is decoded to its tree, leaving the text and commands after it, one level of the stack lower |
| WordRoundTrip.WordRoundTrip | ocaml/ast.ml:222-364 | an encoded word, multibyte characters included, decodes to its tree, with all text and all commands used in order and the stack empty |
| WordRoundTrip.TreeRoundTrip | ocaml/ast.ml:222-364 | the same for every tree that can be encoded |
| WordLaws.Expansion | ocaml/ast.ml:240-263 | for each operator of ${name-word}, in the order of their codes, with or without a colon: the tree has that operator, the name and the tree of the word |
| WordLaws.Variable | ocaml/ast.ml:222-263 | the codes of $name and ${#name} |
| WordLaws.Nested | ocaml/ast.ml:315-342 | the codes around quoted words and arithmetic, and that of a command |
| WordLaws.Bytes | ocaml/ast.ml:354-364 | a byte that is no code stands for itself, and any byte does after the escape |
| WordLaws.HomeDirectory | ocaml/ast.ml:343-353 | a tilde, alone or with the name of a user before a slash |
| WordLaws.Multibyte | ocaml/ast.ml:281-314 | a multibyte character between its lengths, escaped or not |
| WordLaws.CommandsInOrder | ocaml/ast.ml:276-280 | the first command belongs to the first code and so on, and none may be missing or left |
| WordLaws.OtherTypes | ocaml/ast.ml:51-62 | the type byte 0 counts as no operator, with a word, and those above the last are errors |
| WordLaws.Malformed | ocaml/ast.ml:264-314 | a variable code at the end is read as two bytes, and a length that is not 1 to 4 is an error |
| WordLaws.Unbalanced | ocaml/ast.ml:271-342 | a closing code that closes nothing, and an opening one that is not closed, are errors |
| WordRoundTrip.TildeNameLost | ocaml/ast.ml:343-353 | every user name that runs into one of five control codes is lost |
| WordRoundTrip.TildeNameExact | ocaml/ast.ml:343-353 | a user name after a tilde is read back if and only if a slash, a colon, a closing code or the end follows it |
| WordRoundTrip.BareTildeExact | ocaml/ast.ml:343-353 | a tilde without a name is read back if and only if one of those or one of the five codes follows |
| WordRoundTrip.TildeNameSwallows | ocaml/ast.ml:343-353 | a multibyte character after a user name becomes a part of the name, with its codes and lengths |
| WordRoundTrip.TildeNameLostInMulti | ocaml/ast.ml:343-353 | an escaped one loses the name and the code in front of the character |
| WordRoundTrip.TildeSwallowed | ocaml/ast.ml:222-364 | an instance: a word whose decoded tree has the character in the user name |
| WordRoundTrip.DecodeMulti | ocaml/ast.ml:281-314 | a multibyte group decodes to its bytes |
| IfsSplit.UnlimitedIsSplit | src/expand.c:1207-1296 | the byte by byte splitter without a limit gives the fields of the standard |
| IfsLaws.LeadingWhite | src/expand.c:1207-1296 | white space at the front of a text makes no field |
| IfsLaws.OneWord | src/expand.c:1207-1296 | a text without IFS characters is one field, and the empty text none |
| IfsLaws.Delimited | src/expand.c:1207-1296 | a delimiter, white space or one other IFS character with white space around it, ends the field in front of it, and what follows is split as if it was alone |
| IfsLaws.LastTakesRest | src/expand.c:1231-1283 | with more fields than the limit the last one is all of the rest of the text but white space at its end |
| IfsLaws.Classified | src/expand.c:1207-1230 | bytes of IFS that are white space are IFS white space, the others are marks, and bytes that are not in IFS are neither |
| IfsLaws.Region | src/expand.c:1306-1385 | nothing around the region is split, and the region is classified as if it was alone |
| IfsLaws.ReadBack | src/expand.c:1306-1385 | each pointer of a list that a text can be read with is at the start of its field, and reads as that field |
| IfsSplit.LimitIsLimited | src/expand.c:1231-1283 | with a limit the last field follows the rule for the last argument |
| IfsSplit.LimitedAgrees | src/expand.c:1231-1283 | the fields before the last are the standard's; all are if and only if there are fewer than the limit, or as many and the last is not empty |
| IfsSplit.LimitDropsEmpty | src/expand.c:1231-1283 | an instance: a last field that is empty is dropped |
| IfsSplit.RunNoted | src/expand.c:1231-1283 | the end of the last field is noted just when its delimiter is in the text, and then nothing follows or the text ends with white space |
| IfsBreakup.ChangeIfs | src/expand.c:1408-1431 | the map has just the bytes of IFS and NUL |
| IfsBreakup.IfsState.Slow | src/expand.c:1207-1296 | one byte changes the state and the buffer as specified |
| IfsBreakup.IfsState.SkipEights | src/expand.c:1334-1362 | only bytes that are not in IFS are skipped |
| IfsBreakup.FieldsOfRun | src/expand.c:1306-1385 | running the splitter byte by byte over the whole text gives the specified fields |
| IfsBreakup.StoppedFields | src/expand.c:1364-1375 | stopping at the end of the region gives the specified fields if and only if no text follows, or by the bytes of the region the last field that the limit allows does not end in it |
| IfsBreakup.EndNoted | src/expand.c:1231-1283 | what the splitter knows at the end of the region of the end of the last field, by the bytes of the region |
| IfsBreakup.TextLost | src/expand.c:1364-1375 | an instance where it is lost |
| IfsBreakup.IfsBreakup | src/expand.c:1306-1385 | with the eight-byte path the list and the NULs in the buffer give exactly the fields of the byte by byte splitter, for every text, region and limit; they are the specified fields if there is no limit or the region goes to the end of the text |
| CopyOut.WordTestZero | src/expand.c:966-970 | the word test is zero if and only if all eight bytes are in 1 to 127 |
| CopyOut.WrittenPlain | src/expand.c:893-900 | outside quotes bytes from 1 to 127 at the front of a string are written and counted as they are, whatever follows |
| CopyOut.CopyEights | src/expand.c:965-979 | only bytes from 1 to 127 are copied eight at a time, and it stops just when another is among the next eight |
| CopyOut.MbToDest | src/expand.c:907-938 | a multibyte character is written with its length on both sides where control codes are escaped, and a byte that starts none as a byte |
| CopyOut.MemToDest | src/expand.c:944-1010 | for every byte string, flag set and locale what is written and the count are those of the characters one by one, within the room reserved |
| CopyLaws.QuotedIsItself | src/mksyntax.c:182-189 | text that is copied as quoted, as part of a pattern, matches itself and no other string, whatever its bytes |
| CopyLaws.QuotedBetween | src/mksyntax.c:182-189 | between brackets it stands for its bytes: a quoted minus is no range, a quoted ! does not invert, a quoted ] does not close |
| CopyLaws.SpecialInQuotes | src/mksyntax.c:182-189 | which bytes of ASCII are escaped in quotes, by their characters |
| CopyLaws.BothEnds | src/expand.c:907-938 | an escaped multibyte character has its length on both sides, so it can be read from either end |
| CopyLaws.ReadAsChars | src/expand.c:944-1010 | the string is cut into characters as the locale says, and a NUL is dropped unless it is to be kept |
| CopyLaws.NotEscaped | src/expand.c:944-1010 | without flags that ask for escapes nothing is escaped |
| CopyLaws.QuoteMarksGone | src/expand.c:2044-2146 | quote marks around escaped text go with the escapes |
| Unescape.WrittenBack | src/expand.c:2044-2146 | characters that were written with escapes are the same again without them |
| Unescape.CopiedBack | src/expand.c:944-1010 | a string without NUL that memtodest copied with escapes is the same string after rmescapes |
| Unescape.RmEscapes | src/expand.c:2044-2146 | removing escapes in place, with the moved groups overlapping or not, leaves the text without escapes and a NUL after it |
| ExecSearch.SearchFound | src/exec.c:436-506 | what a search finds, that nothing before it would have done, and that a search that fails had nothing to find |
| ExecLaws.FileIn | src/exec.c:253-257 | the file in a directory has the name after its last slash and the directory before it; an empty directory gives the name itself |
| ExecLaws.OneFile | src/exec.c:253-257 | for a name without slashes and a directory there is one such file at most |
| ExecLaws.FirstHas | src/exec.c:427-506 | for every PATH the first element that has the command decides: an executable file of that name in it, or the built-in command |
| ExecLaws.FoundFile | src/exec.c:427-506 | what a search finds is an executable whose last component is the name and whose directory is that element, and nothing before it has the command |
| ExecLaws.Slashed | src/exec.c:363-376 | a name with a slash is the file itself, whatever PATH is |
| ExecLaws.FunctionFirst | src/exec.c:378-400 | a function comes before everything else, unless functions are not wanted |
| ExecLaws.BuiltinPlace | src/exec.c:402-424 | where a built-in command stands among the elements of PATH |
| ExecLaws.LsInBin | src/exec.c:253-257 | an instance: with PATH=/bin and an executable /bin/ls, ls is that file |
| ExecLaws.Remembers | src/exec.c:508-523 | a lookup along PATH leaves what it found in the table, or nothing of a name that it did not find, and other names as they were |
| ExecLaws.NotRemembered | src/exec.c:383-385 | a lookup along another path, of a name with a slash or of a function leaves the table as it was |
| ExecLaws.Forgets | src/exec.c:578-631 | after a change of PATH files are forgotten, and so are built-in commands that are not regular if %builtin comes after a directory |
| ExecLaws.RunsFunction | src/eval.c:792-896 | a simple command runs the function with its name if there is one, unless functions are passed over |
| ExecLaws.Defining | src/exec.c:720-764 | so it does after the definition, and not after the function was unset |
| ExecLaws.InOrder | src/exec.c:351-764 | the answers of a run are in the order of its lookups |
| ExecCache.RehashPrior | src/exec.c:428-463 | an entry from another directory still tells about the absolute names before its index, and about the one there |
| ExecCache.Commands.FindCommand | src/exec.c:351-523 | the result is that of a search without the cache, if and only if the lookup is not refused, whatever the table has; and what the table has afterwards |
| ExecCache.Commands.SearchPath | src/exec.c:427-523 | a rehash that skips absolute entries finds what a whole search finds |
| ExecCache.Commands.Cd | src/exec.c:551-566 | each entry is what a search finds from some directory, and one that is not marked from the present one |
| ExecCache.Commands.ChangePath | src/exec.c:578-631 | every entry that is left is true of the new PATH, which entries those are, and that the index of %builtin is the one in it |
| ExecCache.Commands.Defun | src/exec.c:720-749 | a function replaces whatever the name was |
| ExecCache.Commands.UnsetFunc | src/exec.c:756-764 | only a function is removed |
| ExecCache.Replay | src/exec.c:351-764 | for any sequence of lookups with any flags, simple commands, changes of directory and PATH, and function definitions and removals, what is found is what a search without a cache gives, or nothing where a lookup is refused; if no lookup for regular builtins is made by itself with a name that is none, it is what the search gives throughout |
| ExecCache.Locate | src/eval.c:792-896 | the two lookups of a simple command, the first for regular builtins only, with PATH assigned between them or not: together they find what a search without the cache gives |
| ExecCache.LocatedResolves | src/eval.c:792-896 | whatever is in the table, refused or not |
| ExecCache.AnswersUncached | src/exec.c:351-523 | the answers of a run do not depend on the table unless a lookup for regular builtins is made by itself with a name that is not one |
| ExecCache.EchoRefused | src/exec.c:402-409 | an instance of a refused lookup |
| VarTable.VarCmp | src/var.c:637-653 | zero if and only if the names are equal, whatever the values |
| VarTable.HashVal | src/var.h:156-168 | the hash of a text depends on its name only |
| VarTable.FindVar | src/var.c:662-672 | the chain has the entry of the name, or ends |
| VarStore.Replaced | src/var.c:270-299 | giving an entry another text keeps every entry and saved record referring to live texts of their own |
| VarStore.Removed | src/var.c:277-284 | an entry that is freed has no saved record and is not static |
| VarStore.RecordPushed | src/var.c:488-498 | a record of a variable takes over its text and keeps the entry |
| VarStore.RecordPopped | src/var.c:533-539 | putting a record back gives the entry its text again, which nothing else refers to |
| VarView.UndoRestores | src/var.c:509-544 | a name made local gets back what its oldest record says |
| VarView.UndoKeepsOthers | src/var.c:509-544 | other names keep their assignments |
| VarMachine.Vars.SetVarEq | src/var.c:250-306 | the table as a map from names changes as an assignment, export or unset means; only a text that its entry owns is freed |
| VarMachine.Vars.SetVar | src/var.c:193-223 | the same for a name and a value; a bad name is an error |
| VarMachine.Vars.ExportCmd | src/var.c:409-435 | an existing variable gets the flag in place, another is created |
| VarMachine.Vars.InitVar | src/var.c:168-186 | a built-in variable is added that is never freed |
| VarMachine.Vars.MkLocal | src/var.c:465-500 | a record of the variable's binding, or that there was none, and the new value; it fails if and only if a value is given to a read only variable, and then there is no record and the mark stays; every text keeps an owner, unless it fails and the variable owned its text |
| VarMachine.LocalRefused | src/var.c:488-494 | exactly when that is, and that nothing is changed then if and only if both marks were there |
| VarMachine.ReadonlyMarked | src/var.c:488-494 | an instance where the mark is left |
| VarMachine.Vars.PopLocalVars | src/var.c:509-544 | the records of the scope are undone, the newest first |
| VarMachine.Vars.UnwindLocalVars | src/var.c:571-575 | the records of all scopes down to stop are undone |
| VarRuns.Perform | src/var.c:193-575 | any run of sets, exports, locals and nested scopes does to the variables what the structured meaning says, and fails just when that does; a run that ends without an error loses no text |
| VarRuns.ScopeRestores | src/var.c:465-575 | after a scope each name it made local is bound as just before, value, state and flags, and all other assignments stay |
| VarOwned.RewriteOwned | src/var.c:270-299 | a variable that gets another text frees the one it owned, and every text on the heap is still owned by an entry or a saved record |
| VarOwned.PushOwned | src/var.c:488-498 | so it is when a record takes over the text of a variable |
| VarOwned.PopOwned | src/var.c:533-539 | and when a record is put back |
| VarOwned.DropOwned | src/var.c:488-494 | a record that is forgotten after an error loses its text if and only if it owned it |
| VarLaws.Setting | src/var.c:193-223 | after a set the variable expands to the value, what was exported stays exported, no other name has changed; it fails just for a read only variable |
| VarLaws.Unsetting | src/var.c:250-306 | after an unset it has no value and is not exported, and only what must keep its entry has one |
| VarLaws.Marking | src/var.c:409-435 | exporting or making read only keeps the value |
| VarLaws.MarkingValue | src/var.c:409-435 | with a value both are done, unless it is read only |
| VarLaws.LocalKeeps | src/var.c:465-500 | a name made local without a value keeps the value that it has |
| VarLaws.LocalSets | src/var.c:465-500 | with a value it has that one, unless it is read only |
| VarLaws.LocalInFunction | src/var.c:465-575 | whatever a function does after it made a name local, nested scopes included, its caller has the name as it was |
| VarLaws.NothingLocal | src/var.c:465-575 | a function without local variables changes the variables as its body does |
| JobTable.LinkRemoved | src/jobs.c:138-146 | taking a job out of the chain leaves the others in order |
| JobTable.LinkInserted | src/jobs.c:148-175 | putting a job in at a place puts it there and nowhere else |
| JobMachine.Jobs.SetCurjob | src/jobs.c:133-176 | the chain is the old one with the job taken out and put at the front, after the stopped jobs, or nowhere; nothing but links changes |
| JobMachine.Jobs.MoveJob | src/jobs.c:133-176 | moving a job keeps the table valid and what every slot holds, and gives the chain the order meant |
| JobMachine.Jobs.FreeJob | src/jobs.c:590-605 | the slot is unused and out of the chain, and all other jobs are as they were; the array of its processes is freed |
| JobMachine.RelocatedOk | src/jobs.c:814-834 | after a move the chain has the same order and each job the same processes, wherever they are kept |
| JobMachine.Jobs.GrowJobTab | src/jobs.c:804-844 | four unused slots more, at an address that may be another, with nothing else changed |
| JobMachine.Jobs.MakeJob | src/jobs.c:766-801 | a new job at the front of the chain, in a slot that was unused or of a finished job that was waited for; one array is allocated for it if it can have several processes, and no other |
| JobWait.AddProc | src/jobs.c:963-970 | the new process is the job's last, and the job runs |
| JobWait.ForkParent | src/jobs.c:959-970 | the same for a job in the background, which comes after the stopped ones |
| JobWait.ScanProcs | src/jobs.c:1094-1113 | the status goes to the processes with the pid, and if there is one the state summed up on the way is the summary of all; the first place is read and written even if no process is there yet |
| JobWait.WaitOne | src/jobs.c:1089-1132 | the first unfinished job in the chain that has the process is brought up to date, its state is the summary of its processes, and it becomes the current job if it has just stopped; no other job changes; the table stays valid if and only if the first job that is taken to have the process is not one without processes |
| JobWait.RestartJob | src/jobs.c:399-421 | stopped processes run again, and the state is the summary of the processes |
| JobLaws.StatusWords | src/jobs.c:1094-1113 | exit codes and signals end a process, stop codes stop it, and a running one does neither |
| JobLaws.SummaryOf | src/jobs.c:1094-1113 | a job is done when all its processes have ended, and stopped when none runs and one has not ended |
| JobLaws.AllReaped | src/jobs.c:1089-1132 | in any order of reaping a job is done once each of its processes was reaped and none was only stopped |
| JobLaws.OneNotReaped | src/jobs.c:1089-1132 | it runs as long as one that runs was not reaped |
| JobLaws.LastStatus | src/jobs.c:1094-1113 | each process has the last status reaped for its pid, and what it had if there is none |
| JobLaws.ResumeUndoesStop | src/jobs.c:399-421 | continuing a job undoes stops |
| JobLaws.FirstOf | src/jobs.c:1089-1093 | the job that is brought up to date is the first that is not done and has the process |
| JobLaws.PutWhere | src/jobs.c:133-176 | a stopped job goes to the front, one in the background after the stopped ones, and the others keep their order |
| JobWait.StillRunning | src/jobs.c:1119-1125 | a job that still runs was running, so its state need not be written |
| JobRuns.ChainVisits | src/jobs.c:132-176 | following prev_job from curjob visits each used slot, no other slot, and none twice, and comes to an end |
| JobRuns.Run | src/jobs.c:132-1132 | so it does after any sequence of jobs made, started, moved, reaped, restarted and freed, as long as memory that was never written does not hold a pid that is reaped |
| CdPath.WalkNames | src/cd.c:236-255 | the components of the result have no dots and are not empty if and only if those that are left of the directory it started from have none and are not |
| CdPath.ResolveNormal | src/cd.c:194-260 | changing to a normal absolute path gives just that path |
| CdPath.ComponentsAfter | src/cd.c:236-255 | the components of a path are those it was built from |
| CdPath.Up | src/cd.c:239-246 | the loop over bytes takes off one component, and never climbs above the root |
| CdPath.UpdatePwd | src/cd.c:194-260 | for every absolute current directory and every argument the name is that of walking from left to right from the parts of the one along the components of the other, and all writes are inside the room that is reserved first |
| CdPath.FromNormal | src/cd.c:194-260 | from a normal path that is the left to right normalisation of the current directory and the argument |
| CdLaws.GoesDown | src/cd.c:236-255 | a name at the end of the argument is put after what the rest of it leads to |
| CdLaws.GoesUp | src/cd.c:236-255 | a name and two dots after it lead nowhere, and two dots at the root stay there |
| CdLaws.Stays | src/cd.c:236-255 | a slash or a dot at the end of the argument changes nothing |
| CdLaws.FromHere | src/cd.c:194-235 | an argument of one component leads from the current directory: a name down, a dot nowhere, two dots up |
| CdLaws.FromRoot | src/cd.c:219-234 | an absolute argument leads from the root, which has two slashes just when the argument begins with two and no more |
| CdPath.DotTakenAway | src/cd.c:194-260 | an instance: two dots take a dot of the current directory away |

## Left out

- System calls, processes, signals, terminals, history, prompts, aliases, mail and printf are not modelled.
- Multibyte characters and locales in patterns and splitting are not modelled; strings there have no control bytes, and character classes in patterns are excluded.
- ArithYacc.Evaluator.Arith: after an error the store may be partly changed; reading a variable and writing a number as text are abstracted, and shifts and signed overflow are total functions on 64 bits.
- ArithYacc.Evaluator.Primary: `goto again` after a unary plus is a tail call, and the union that is passed by pointer is a value.
- ShellParseBack.RoundTrip: only printable trees, and here-documents and top-level sequences are excluded; line numbers are dropped, words are atoms.
- ShellPrinter.Print: gives tokens and not their text; a descriptor may be any number and a word empty, though as text `10>x` and an empty word would be read as other tokens.
- ShellMisprints.PrintableIsExact: is about trees whose parts are printable, and leaves open whether one with a part that is not can come back.
- ShellParser.Parser.Command: linked lists built through tail pointers are sequences; aliases and here-documents are not read.
- EvalMachine.Evaluator.EvalTree: traps, forks, `set -e` and the exit flag are excluded; a run is given as many loop rounds as it may take.
- RedirMachine.Shell.RedirectOne: here-documents, descriptors that run out, and redirections that are not to be undone are excluded; nothing else changes descriptors.
- StackAlloc.Stack.StAlloc: running out of memory and sizes that overflow are excluded; nothing writes to memory that was allocated before the last mark.
- Trim.SubEvalVarTrim: only values and patterns without control bytes, where the two forms of the value agree.
- CopyOut.MemToDest: how long a character is (mbrlen) is a parameter.
- Unescape.RmEscapes: without the flags for patterns and for a copy.
- IfsBreakup.IfsBreakup: one recorded region, text without NUL, IFS of single bytes.
- ExecCache.Commands.FindCommand: the hash chains of the command table are a map; %func entries and error messages are left out, and %builtin is only a whole PATH entry.
- VarMachine.Vars.MkLocal: the options saved by `local -`, and names that are not valid, are left out.
- VarMachine.Vars.SetVarEq: the functions called when a variable changes, and allexport, are left out.
- JobWait.WaitOne: messages and process groups are left out.
- CdPath.UpdatePwd: a current directory that does not start with a slash is excluded.
- Code generators, the Python decoder of words, and `test`, `ulimit`, `umask` and other builtins would only add easy members.
