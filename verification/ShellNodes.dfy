/** The nodes the parser builds (src/nodetypes), without line numbers and here-documents. */
module ShellNodes {
  import opened ShellTokens

  datatype RedirNode =
    | NFILE(ftype: FileType, ffd: int, fname: Word)
    | NDUPFD(dtype: DupType, dfd: int, dupfd: int)
    | NDUPNAME(dtype: DupType, dfd: int, vname: Word)

  datatype Clause = NCLIST(pattern: seq<Word>, body: Node)

  /** NULL is the null pointer, NEOF the value that stands for end of input. */
  datatype Node =
    | NULL
    | NEOF
    | NCMD(assign: seq<Word>, args: seq<Word>, redirect: seq<RedirNode>)
    | NPIPE(backgnd: bool, cmdlist: seq<Node>)
    | NREDIR(n: Node, redirect: seq<RedirNode>)
    | NBACKGND(n: Node, redirect: seq<RedirNode>)
    | NSUBSHELL(n: Node, redirect: seq<RedirNode>)
    | NAND(ch1: Node, ch2: Node)
    | NOR(ch1: Node, ch2: Node)
    | NSEMI(ch1: Node, ch2: Node)
    | NIF(test: Node, ifpart: Node, elsepart: Node)
    | NWHILE(ch1: Node, ch2: Node)
    | NUNTIL(ch1: Node, ch2: Node)
    | NFOR(fargs: seq<Word>, fbody: Node, fvar: string)
    | NCASE(expr: Word, cases: seq<Clause>)
    | NDEFUN(name: string, dbody: Node)
    | NNOT(com: Node)
}
