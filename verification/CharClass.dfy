/** Character classes and names (src/mksyntax.c, src/parser.c). The text read past its end is NUL. */
module CharClass {
  function Peek(s: string, i: nat): char {
    if i < |s| then s[i] else '\0'
  }

  predicate IsBlank(c: char) { c == ' ' || c == '\t' || c == '\n' }
  predicate IsDigit(c: char) { '0' <= c <= '9' }
  predicate IsNameStart(c: char) { 'A' <= c <= 'Z' || 'a' <= c <= 'z' || c == '_' }
  predicate IsInName(c: char) { IsNameStart(c) || IsDigit(c) }

  /** How many characters at the front may occur in a name. */
  function NameLength(s: string): (n: nat)
    ensures n <= |s|
    ensures n < |s| ==> !IsInName(s[n])
  {
    if s == "" || !IsInName(s[0]) then 0 else 1 + NameLength(s[1..])
  }

  /** Where the name at the front of s ends; 0 if s does not start with one. */
  function EndOfName(s: string): (n: nat)
    ensures n <= |s|
  {
    if s == "" || !IsNameStart(s[0]) then 0 else NameLength(s)
  }

  predicate GoodName(s: string) { EndOfName(s) == |s| }

  predicate IsAssignment(s: string) {
    EndOfName(s) != 0 && Peek(s, EndOfName(s)) == '='
  }

  /** The end of a name does not depend on what comes after a character that ends it. */
  lemma {:induction false} NameLengthAppend(x: string, s: string)
    requires NameLength(x) == |x|
    requires s == "" || !IsInName(s[0])
    ensures NameLength(x + s) == |x|
  {
    if x == "" {
      assert x + s == s;
    } else {
      assert (x + s)[1..] == x[1..] + s;
      NameLengthAppend(x[1..], s);
    }
  }

  lemma {:induction false} NameLengthPrefix(s: string)
    ensures NameLength(s[..NameLength(s)]) == NameLength(s)
  {
    if s != "" && IsInName(s[0]) {
      NameLengthPrefix(s[1..]);
      assert s[..NameLength(s)][1..] == s[1..][..NameLength(s[1..])];
    }
  }
}
