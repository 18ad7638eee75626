/** The little of string handling the validators use. */
module Text {
  /** Unicode White_Space, which `str::trim` removes. */
  predicate IsWhitespace(c: char)
  {
    var u := c as int;
    || 0x9 <= u <= 0xD || u == 0x20 || u == 0x85 || u == 0xA0 || u == 0x1680 || 0x2000 <= u <= 0x200A
    || u == 0x2028 || u == 0x2029 || u == 0x202F || u == 0x205F || u == 0x3000
  }

  function TrimStart(s: string): string
  {
    if s != [] && IsWhitespace(s[0]) then TrimStart(s[1..]) else s
  }

  function TrimEnd(s: string): string
  {
    if s != [] && IsWhitespace(s[|s| - 1]) then TrimEnd(s[..|s| - 1]) else s
  }

  function Trim(s: string): string { TrimEnd(TrimStart(s)) }

  ghost predicate StartsWith(s: string, prefix: string) { exists rest :: s == prefix + rest }

  lemma StartsWithMeans(s: string, prefix: string)
    ensures prefix <= s <==> StartsWith(s, prefix)
  {
    if prefix <= s { assert s == prefix + s[|prefix|..]; }
  }

  /** The 25 code points of the Unicode property White_Space. */
  lemma WhitespaceMeans(c: char)
    ensures IsWhitespace(c) <==>
            c as int in {0x9, 0xA, 0xB, 0xC, 0xD, 0x20, 0x85, 0xA0, 0x1680, 0x2000, 0x2001, 0x2002, 0x2003, 0x2004,
                         0x2005, 0x2006, 0x2007, 0x2008, 0x2009, 0x200A, 0x2028, 0x2029, 0x202F, 0x205F, 0x3000}
  {
  }

  ghost predicate Blank(s: string) { forall c :: c in s ==> IsWhitespace(c) }

  lemma {:induction false} TrimStartMeans(s: string) returns (a: string)
    ensures s == a + TrimStart(s) && Blank(a) && (TrimStart(s) != [] ==> !IsWhitespace(TrimStart(s)[0]))
  {
    if s == [] || !IsWhitespace(s[0]) {
      a := [];
    } else {
      var rest := TrimStartMeans(s[1..]);
      a := [s[0]] + rest;
    }
  }

  lemma {:induction false} TrimEndMeans(s: string) returns (b: string)
    ensures s == TrimEnd(s) + b && Blank(b) && (TrimEnd(s) != [] ==> !IsWhitespace(TrimEnd(s)[|TrimEnd(s)| - 1]))
  {
    if s == [] || !IsWhitespace(s[|s| - 1]) {
      b := [];
    } else {
      var rest := TrimEndMeans(s[..|s| - 1]);
      b := rest + [s[|s| - 1]];
    }
  }

  /** Trimming takes whitespace off both ends and stops at the first and last character that is none. */
  lemma TrimMeans(s: string) returns (a: string, b: string)
    ensures s == a + Trim(s) + b && Blank(a) && Blank(b)
    ensures Trim(s) != [] ==> !IsWhitespace(Trim(s)[0]) && !IsWhitespace(Trim(s)[|Trim(s)| - 1])
  {
    a := TrimStartMeans(s);
    b := TrimEndMeans(TrimStart(s));
    assert Trim(s) != [] ==> Trim(s)[0] == TrimStart(s)[0];
  }
}
