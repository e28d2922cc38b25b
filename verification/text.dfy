/** String normalisation used on roll numbers: `toUpperCase` and `trim`.

    Case mapping covers the ASCII letters only; trimming strips exactly the
    characters ECMAScript's `String.prototype.trim` strips (the WhiteSpace and
    LineTerminator code points of ECMA-262, section 22.1.3.32).
 */
module Text {

  /** A character that `trim` removes: TAB, VT, FF, SPACE, NBSP, ZWNBSP, the
      other space separators (Unicode category Zs), LF, CR, LS and PS. */
  predicate IsSpace(c: char)
  {
    || c == '\t' || c == '\U{000B}' || c == '\U{000C}' || c == ' '
    || c == '\U{00A0}' || c == '\U{FEFF}' || c == '\U{1680}'
    || ('\U{2000}' <= c <= '\U{200A}')
    || c == '\U{202F}' || c == '\U{205F}' || c == '\U{3000}'
    || c == '\n' || c == '\r' || c == '\U{2028}' || c == '\U{2029}'
  }

  predicate IsLower(c: char)
  {
    'a' <= c <= 'z'
  }

  function UpperChar(c: char): (u: char)
    ensures IsLower(c) ==> u as int == c as int - 32
    ensures !IsLower(c) ==> u == c
    ensures !IsLower(u)
  {
    if IsLower(c) then (c as int - 32) as char else c
  }

  /** `s.toUpperCase()`, restricted to ASCII letters. */
  function Upper(s: string): (r: string)
    ensures |r| == |s|
  {
    if |s| == 0 then [] else Upper(s[..|s| - 1]) + [UpperChar(s[|s| - 1])]
  }

  /** `Upper` maps each character through `UpperChar`, position by position. */
  lemma {:induction false} UpperAt(s: string)
    ensures forall i :: 0 <= i < |s| ==> Upper(s)[i] == UpperChar(s[i])
  {
    if |s| > 0 {
      UpperAt(s[..|s| - 1]);
    }
  }

  /** A string that `Upper` leaves alone. */
  predicate IsUpper(s: string)
  {
    forall i :: 0 <= i < |s| ==> !IsLower(s[i])
  }

  /** Removes leading `IsSpace` characters. */
  function TrimStart(s: string): (r: string)
    ensures |r| <= |s|
  {
    if |s| > 0 && IsSpace(s[0]) then TrimStart(s[1..]) else s
  }

  /** `TrimStart` drops a prefix made only of spaces, and what is left does
      not start with a space. */
  lemma {:induction false} TrimStartSpec(s: string)
    ensures TrimStart(s) == s[|s| - |TrimStart(s)|..]
    ensures forall i :: 0 <= i < |s| - |TrimStart(s)| ==> IsSpace(s[i])
    ensures TrimStart(s) == [] || !IsSpace(TrimStart(s)[0])
  {
    if |s| > 0 && IsSpace(s[0]) {
      TrimStartSpec(s[1..]);
      forall i | 1 <= i < |s| - |TrimStart(s)|
        ensures IsSpace(s[i])
      {
        assert s[i] == s[1..][i - 1];
      }
    }
  }

  /** Removes trailing `IsSpace` characters. */
  function TrimEnd(s: string): (r: string)
    ensures |r| <= |s|
  {
    if |s| > 0 && IsSpace(s[|s| - 1]) then TrimEnd(s[..|s| - 1]) else s
  }

  /** `TrimEnd` drops a suffix made only of spaces, and what is left does
      not end with a space. */
  lemma {:induction false} TrimEndSpec(s: string)
    ensures TrimEnd(s) == s[..|TrimEnd(s)|]
    ensures forall i :: |TrimEnd(s)| <= i < |s| ==> IsSpace(s[i])
    ensures TrimEnd(s) == [] || !IsSpace(TrimEnd(s)[|TrimEnd(s)| - 1])
  {
    if |s| > 0 && IsSpace(s[|s| - 1]) {
      TrimEndSpec(s[..|s| - 1]);
      forall i | |TrimEnd(s)| <= i < |s| - 1
        ensures IsSpace(s[i])
      {
        assert s[i] == s[..|s| - 1][i];
      }
    }
  }

  /** `s.trim()`. */
  function Trim(s: string): (r: string)
    ensures |r| <= |s|
  {
    TrimEnd(TrimStart(s))
  }

  /** Number of leading spaces `trim` drops. */
  function Leading(s: string): (n: nat)
    ensures n <= |s|
  {
    |s| - |TrimStart(s)|
  }

  /** `Trim` keeps a contiguous slice of `s` that neither starts nor ends with
      a space, and everything it drops on either side is a space. */
  lemma TrimSpec(s: string)
    ensures Leading(s) + |Trim(s)| <= |s|
    ensures Trim(s) == s[Leading(s)..Leading(s) + |Trim(s)|]
    ensures forall i :: 0 <= i < Leading(s) ==> IsSpace(s[i])
    ensures forall i :: Leading(s) + |Trim(s)| <= i < |s| ==> IsSpace(s[i])
    ensures Trim(s) == [] || (!IsSpace(Trim(s)[0]) && !IsSpace(Trim(s)[|Trim(s)| - 1]))
  {
    var t := TrimStart(s);
    var r := TrimEnd(t);
    var n := Leading(s);
    TrimStartSpec(s);
    TrimEndSpec(t);
    assert t == s[n..];
    assert r == s[n..n + |r|] by {
      assert r == t[..|r|];
    }
    forall i | n + |r| <= i < |s|
      ensures IsSpace(s[i])
    {
      assert s[i] == t[i - n];
    }
    if r != [] {
      assert r[0] == t[0];
    }
  }

  /** Upper-casing twice is upper-casing once. */
  lemma {:induction false} UpperIdempotent(s: string)
    ensures Upper(Upper(s)) == Upper(s)
  {
    UpperIsUpper(s);
    UpperOfUpper(Upper(s));
  }

  /** `Upper` leaves no lower-case letter. */
  lemma {:induction false} UpperIsUpper(s: string)
    ensures IsUpper(Upper(s))
  {
    UpperAt(s);
  }

  /** A string with no lower-case letter is its own upper-case form. */
  lemma {:induction false} UpperOfUpper(s: string)
    requires IsUpper(s)
    ensures Upper(s) == s
  {
    UpperAt(s);
  }

  /** `Upper` never introduces or removes a space. */
  lemma {:induction false} UpperKeepsSpaces(s: string, i: int)
    requires 0 <= i < |s|
    ensures IsSpace(Upper(s)[i]) <==> IsSpace(s[i])
  {
    UpperAt(s);
  }

  /** Trimming an upper-case string keeps it upper-case. */
  lemma TrimKeepsUpper(s: string)
    requires IsUpper(s)
    ensures IsUpper(Trim(s))
  {
    var r := Trim(s);
    TrimSpec(s);
    forall i | 0 <= i < |r|
      ensures !IsLower(r[i])
    {
      assert r[i] == s[Leading(s) + i];
    }
  }

  /** A string that neither starts nor ends with a space is already trimmed. */
  lemma TrimOfTrimmed(s: string)
    requires s == [] || (!IsSpace(s[0]) && !IsSpace(s[|s| - 1]))
    ensures Trim(s) == s
  {
  }

  /** A roll in normal form (upper-cased, then trimmed) is upper-case, does
      not start or end with a space, and is left alone by both steps. */
  lemma NormalFormIsFixed(s: string)
    ensures var k := Trim(Upper(s));
      && IsUpper(k) && Upper(k) == k && Trim(k) == k
      && (k == [] || (!IsSpace(k[0]) && !IsSpace(k[|k| - 1])))
  {
    var k := Trim(Upper(s));
    UpperIsUpper(s);
    TrimKeepsUpper(Upper(s));
    UpperOfUpper(k);
    TrimSpec(Upper(s));
    TrimOfTrimmed(k);
  }

  /** Case and surrounding spaces do not matter to the normal form. */
  lemma NormalFormExample()
    ensures Trim(Upper("cs101")) == "CS101"
    ensures Trim(Upper(" Cs101 ")) == "CS101"
  {
    UpperAt("cs101");
    assert Upper("cs101") == "CS101";
    TrimOfTrimmed("CS101");
    UpperAt(" Cs101 ");
    assert Upper(" Cs101 ") == " CS101 ";
    assert " CS101 "[1..] == "CS101 ";
    assert TrimStart(" CS101 ") == "CS101 ";
    assert "CS101 "[..5] == "CS101";
    assert TrimEnd("CS101 ") == "CS101";
  }
}
