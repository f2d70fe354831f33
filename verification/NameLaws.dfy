/** Which characters make a name, a number and a blank, by their letters; and which name a text begins with. */
module NameLaws {
  import opened CharClass

  const UPPER := "ABCDEFGHIJKLMNOPQRSTUVWXYZ"
  const LOWER := "abcdefghijklmnopqrstuvwxyz"
  const DIGITS := "0123456789"

  lemma Upper(c: char)
    ensures c in UPPER <==> 'A' <= c <= 'Z'
  {
    if 'A' <= c <= 'Z' {
      assert UPPER[c as int - 'A' as int] == c;
    }
  }

  lemma Lower(c: char)
    ensures c in LOWER <==> 'a' <= c <= 'z'
  {
    if 'a' <= c <= 'z' {
      assert LOWER[c as int - 'a' as int] == c;
    }
  }

  lemma Digits(c: char)
    ensures c in DIGITS <==> '0' <= c <= '9'
  {
    if '0' <= c <= '9' {
      assert DIGITS[c as int - '0' as int] == c;
    }
  }

  /** A letter or an underscore starts a name, and digits may follow. */
  lemma Classes(c: char)
    ensures IsNameStart(c) <==> c in UPPER || c in LOWER || c == '_'
    ensures IsInName(c) <==> IsNameStart(c) || c in DIGITS
    ensures IsDigit(c) <==> c in DIGITS
    ensures IsBlank(c) <==> c in " \t\n"
  {
    Upper(c);
    Lower(c);
    Digits(c);
  }

  /** The name at the front of a text is as long as it can be. */
  lemma {:induction false} LongestName(x: string, rest: string)
    requires x != "" && IsNameStart(x[0]) && (forall c :: c in x ==> IsInName(c))
    requires rest != "" ==> !IsInName(rest[0])
    ensures EndOfName(x + rest) == |x|
  {
    AllInName(x);
    NameLengthAppend(x, rest);
  }

  lemma {:induction false} AllInName(x: string)
    requires forall c :: c in x ==> IsInName(c)
    ensures NameLength(x) == |x|
  {
    if x != "" {
      assert x[0] in x;
      AllInName(x[1..]);
    }
  }

  /** A text that begins with anything else has none. */
  lemma NoName(s: string)
    requires s != "" ==> !IsNameStart(s[0])
    ensures EndOfName(s) == 0 && !IsAssignment(s)
  {
  }
}
