/** The string operations scripts/armv6_shortvec.py reads assembly text with, over ASCII. */
module ShortVecText {

  predicate IsSpace(c: char) { c == ' ' || '\t' <= c <= '\r' || 0x1c <= c as int <= 0x1f }

  predicate IsDigit(c: char) { '0' <= c <= '9' }

  predicate IsLower(c: char) { 'a' <= c <= 'z' }

  predicate IsWord(c: char) { IsDigit(c) || IsLower(c) || 'A' <= c <= 'Z' || c == '_' }

  predicate AllWord(s: string) { forall i :: 0 <= i < |s| ==> IsWord(s[i]) }

  predicate AllDigits(s: string) { forall i :: 0 <= i < |s| ==> IsDigit(s[i]) }

  predicate StartsWith(s: string, p: string) { p <= s }

  predicate Contains(s: string, p: string) { exists i :: 0 <= i <= |s| && p <= s[i..] }

  function StripLeft(s: string): (r: string)
    ensures |r| <= |s|
  {
    if s == "" || !IsSpace(s[0]) then s else StripLeft(s[1..])
  }

  function StripRight(s: string): string
  {
    if s == "" || !IsSpace(s[|s| - 1]) then s else StripRight(s[..|s| - 1])
  }

  function Strip(s: string): string { StripRight(StripLeft(s)) }

  /** The text before the first c. */
  function Before(s: string, c: char): (r: string)
    ensures r <= s && c !in r && (r == s || s[|r|] == c)
  {
    if s == "" || s[0] == c then "" else [s[0]] + Before(s[1..], c)
  }

  /** The text after the first c, empty when there is none. */
  function After(s: string, c: char): string
  {
    var h := Before(s, c);
    if |h| == |s| then "" else s[|h| + 1..]
  }

  /** Python's split on one character: one piece more than there are separators. */
  function Split(s: string, c: char): (r: seq<string>)
    ensures |r| >= 1
    decreases |s|
  {
    var h := Before(s, c);
    if |h| == |s| then [s] else [h] + Split(s[|h| + 1..], c)
  }

  /** The text up to the first white space. */
  function FirstWord(s: string): (r: string)
    ensures r <= s
  {
    if s == "" || IsSpace(s[0]) then "" else [s[0]] + FirstWord(s[1..])
  }

  function LowerChar(c: char): char { if 'A' <= c <= 'Z' then (c as int + 32) as char else c }

  function Lower(s: string): string
  {
    if s == "" then "" else [LowerChar(s[0])] + Lower(s[1..])
  }

  function DigitValue(c: char): nat
    requires IsDigit(c)
  {
    c as int - '0' as int
  }

  function Value(s: string): nat
    requires AllDigits(s)
  {
    if s == "" then 0 else Value(s[..|s| - 1]) * 10 + DigitValue(s[|s| - 1])
  }

  function Decimal(n: nat): (s: string)
    ensures |s| >= 1 && AllDigits(s) && Value(s) == n
  {
    var d := ('0' as int + n % 10) as char;
    if n < 10 then
      assert Value([d]) == Value([d][..0]) * 10 + DigitValue([d][0]);
      [d]
    else
      var h := Decimal(n / 10);
      assert (h + [d])[..|h|] == h;
      h + [d]
  }

  /** The white space of str.split and str.strip. */
  lemma Spaces(c: char)
    ensures IsSpace(c) <==>
      c == ' ' || c == '\t' || c == '\n' || c == '\U{000b}' || c == '\U{000c}' || c == '\r' || c == '\U{001c}'
      || c == '\U{001d}' || c == '\U{001e}' || c == '\U{001f}'
  {
  }

  /** str.lower changes the letters from A to Z, each to its own, and the characters of a word are letters and more. */
  lemma Letters(c: char)
    ensures
      if 'A' <= c <= 'Z' then LowerChar(c) as int - 'a' as int == c as int - 'A' as int else LowerChar(c) == c
    ensures IsWord(c) <==> '0' <= c <= '9' || c == '_' || 'a' <= LowerChar(c) <= 'z'
  {
  }

  // --- facts about text without the characters in question ---

  /** What a tidy text has none of: white space at either end. */
  predicate Tidy(s: string) { s == "" || (!IsSpace(s[0]) && !IsSpace(s[|s| - 1])) }

  predicate AllSpace(s: string) { forall i :: 0 <= i < |s| ==> IsSpace(s[i]) }

  lemma {:induction false} StripLeftOf(a: string, s: string)
    requires AllSpace(a)
    ensures StripLeft(a + s) == StripLeft(s)
  {
    if a == "" {
      assert a + s == s;
    } else {
      assert (a + s)[1..] == a[1..] + s;
      StripLeftOf(a[1..], s);
    }
  }

  /** What stripping takes off the left is white space. */
  lemma {:induction false} StripLeftSplit(s: string) returns (a: string)
    ensures s == a + StripLeft(s) && AllSpace(a) && (StripLeft(s) == "" || !IsSpace(StripLeft(s)[0]))
  {
    if s == "" || !IsSpace(s[0]) {
      a := "";
    } else {
      var b := StripLeftSplit(s[1..]);
      a := [s[0]] + b;
    }
  }

  lemma {:induction false} StripRightOf(u: string, c: char, v: string)
    requires !IsSpace(c)
    ensures u + [c] <= StripRight(u + [c] + v)
  {
    var s := u + [c] + v;
    if v != "" && IsSpace(v[|v| - 1]) {
      assert s[..|s| - 1] == u + [c] + v[..|v| - 1];
      StripRightOf(u, c, v[..|v| - 1]);
    }
  }

  lemma {:induction false} StripRightPrefix(s: string)
    ensures StripRight(s) <= s
  {
    if s != "" && IsSpace(s[|s| - 1]) { StripRightPrefix(s[..|s| - 1]); }
  }

  lemma {:induction false} BeforeOf(u: string, c: char, v: string)
    requires c !in u
    ensures u <= Before(u + v, c)
  {
    if u != "" {
      assert (u + v)[1..] == u[1..] + v;
      BeforeOf(u[1..], c, v);
    }
  }

  lemma StripTidy(s: string)
    requires Tidy(s)
    ensures Strip(s) == s
  {
  }

  lemma IndentStrips(s: string)
    ensures StripLeft("    " + s) == StripLeft(s)
  {
    assert ("    " + s)[1..] == "   " + s;
    assert ("   " + s)[1..] == "  " + s;
    assert ("  " + s)[1..] == " " + s;
    assert (" " + s)[1..] == s;
    assert StripLeft(" " + s) == StripLeft(s);
    assert StripLeft("  " + s) == StripLeft(s);
    assert StripLeft("   " + s) == StripLeft(s);
  }

  /** Four spaces of indentation go. */
  lemma StripIndent(s: string)
    requires Tidy(s) && s != ""
    ensures Strip("    " + s) == s
  {
    IndentStrips(s);
    StripTidy(s);
  }

  lemma {:induction false} BeforeAppend(s: string, c: char, t: string)
    requires c !in s
    ensures Before(s + [c] + t, c) == s && After(s + [c] + t, c) == t
  {
    if s == "" {
      assert s + [c] + t == [c] + t;
    } else {
      assert s[0] == (s + [c] + t)[0] && s[0] != c;
      assert (s + [c] + t)[1..] == s[1..] + [c] + t;
      BeforeAppend(s[1..], c, t);
    }
    assert (s + [c] + t)[|s| + 1..] == t;
  }

  lemma BeforeNone(s: string, c: char)
    requires c !in s
    ensures Before(s, c) == s && After(s, c) == "" && Split(s, c) == [s]
  {
    if Before(s, c) != s { assert false; }
  }

  lemma SplitAppend(s: string, c: char, t: string)
    requires c !in s
    ensures Split(s + [c] + t, c) == [s] + Split(t, c)
  {
    BeforeAppend(s, c, t);
    assert (s + [c] + t)[|s| + 1..] == t;
  }

  lemma {:induction false} FirstWordAppend(s: string, t: string)
    requires forall i :: 0 <= i < |s| ==> !IsSpace(s[i])
    ensures FirstWord(s + " " + t) == s
  {
    if s == "" {
      assert (s + " " + t)[0] == ' ';
    } else {
      assert (s + " " + t)[1..] == s[1..] + " " + t;
      FirstWordAppend(s[1..], t);
    }
  }

  lemma {:induction false} LowerSame(s: string)
    requires forall i :: 0 <= i < |s| ==> !('A' <= s[i] <= 'Z')
    ensures Lower(s) == s
  {
    if s != "" {
      LowerSame(s[1..]);
    }
  }
}
