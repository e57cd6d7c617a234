/**
 An operand text as the assembler reads it, words and punctuation with the spacing gone, and how the checker's string
 tests see it.
 */
module ShortVecTokens {
  import opened ShortVecText
  import opened ShortVec

  /** The longest run of word characters at the start. */
  function Word(s: string): (w: string)
    ensures w <= s && AllWord(w) && (|w| == |s| || !IsWord(s[|w|]))
  {
    if s == "" || !IsWord(s[0]) then "" else [s[0]] + Word(s[1..])
  }

  function Tokens(s: string): seq<string>
    decreases |s|
  {
    if s == "" then []
    else if IsSpace(s[0]) then Tokens(s[1..])
    else if IsWord(s[0]) then [Word(s)] + Tokens(s[|Word(s)|..])
    else [[s[0]]] + Tokens(s[1..])
  }

  /** A token is a word, or one character that is neither a space nor in a word. */
  predicate IsToken(t: string) { t != "" && (AllWord(t) || (|t| == 1 && !IsSpace(t[0]) && t[0] != '@')) }

  predicate AllTokens(t: seq<string>) { forall i :: 0 <= i < |t| ==> IsToken(t[i]) }

  lemma {:induction false} WordOf(a: string, x: char, b: string)
    requires !IsWord(x)
    ensures Word(a + [x] + b) == Word(a)
  {
    var s := a + [x] + b;
    if a != "" && IsWord(a[0]) {
      assert s[1..] == a[1..] + [x] + b;
      WordOf(a[1..], x, b);
    }
  }

  lemma OneChar(x: char, b: string)
    requires !IsWord(x)
    ensures Tokens([x] + b) == (if IsSpace(x) then [] else [[x]]) + Tokens(b)
  {
    assert ([x] + b)[1..] == b;
  }

  lemma WordStep(s: string)
    requires s != "" && IsWord(s[0])
    ensures Word(s) != "" && Tokens(s) == [Word(s)] + Tokens(s[|Word(s)|..])
  {
  }

  lemma SpaceStep(s: string)
    requires s != "" && !IsWord(s[0])
    ensures Tokens(s) == (if IsSpace(s[0]) then [] else [[s[0]]]) + Tokens(s[1..])
  {
    assert s == [s[0]] + s[1..];
    OneChar(s[0], s[1..]);
  }

  /** The first token, if any, and what is left, with or without text appended. */
  lemma HeadStep(a: string, x: char, b: string) returns (t: seq<string>, r: string)
    requires a != "" && !IsWord(x)
    ensures |r| < |a| && Tokens(a) == t + Tokens(r) && Tokens(a + [x] + b) == t + Tokens(r + [x] + b)
  {
    hide Word;
    hide IsWord;
    hide IsSpace;
    hide AllWord;
    hide Tokens;
    var s := a + [x] + b;
    if IsWord(a[0]) {
      WordOf(a, x, b);
      WordStep(a);
      WordStep(s);
      t, r := [Word(a)], a[|Word(a)|..];
      assert s[|Word(a)|..] == r + [x] + b;
    } else {
      SpaceStep(a);
      SpaceStep(s);
      t, r := if IsSpace(a[0]) then [] else [[a[0]]], a[1..];
      assert s[1..] == r + [x] + b;
    }
  }

  lemma EmptyTokens()
    ensures Tokens("") == []
  {
  }

  /** A character outside words separates tokens. */
  lemma {:induction false} TokensSplit(a: string, x: char, b: string)
    requires !IsWord(x)
    ensures Tokens(a + [x] + b) == Tokens(a) + (if IsSpace(x) then [] else [[x]]) + Tokens(b)
    decreases |a|
  {
    hide IsWord;
    hide IsSpace;
    hide Tokens;
    if a == "" {
      assert a + [x] + b == [x] + b;
      OneChar(x, b);
      EmptyTokens();
    } else {
      var t, r := HeadStep(a, x, b);
      TokensSplit(r, x, b);
    }
  }

  lemma {:induction false} TokensOfWord(w: string)
    requires AllWord(w) && w != ""
    ensures Tokens(w) == [w]
  {
    assert Word(w) == w;
    assert w[|w|..] == "";
  }

  lemma {:induction false} NoTokens(s: string)
    requires Tokens(s) == []
    ensures forall i :: 0 <= i < |s| ==> IsSpace(s[i])
  {
    if s != "" { NoTokens(s[1..]); }
  }

  // --- stripping ---

  lemma {:induction false} StripLeftTokens(s: string)
    ensures Tokens(StripLeft(s)) == Tokens(s)
    ensures StripLeft(s) == "" || !IsSpace(StripLeft(s)[0])
  {
    if s != "" && IsSpace(s[0]) { StripLeftTokens(s[1..]); }
  }

  lemma {:induction false} StripRightTokens(s: string)
    ensures Tokens(StripRight(s)) == Tokens(s) && StripRight(s) <= s
    ensures StripRight(s) == "" || !IsSpace(StripRight(s)[|StripRight(s)| - 1])
  {
    if s != "" && IsSpace(s[|s| - 1]) {
      var q := s[..|s| - 1];
      StripRightTokens(q);
      assert s == q + [s[|s| - 1]] + "";
      TokensSplit(q, s[|s| - 1], "");
    }
  }

  lemma StripTokens(s: string)
    ensures Tokens(Strip(s)) == Tokens(s) && Tidy(Strip(s))
  {
    StripLeftTokens(s);
    StripRightTokens(StripLeft(s));
  }

  /** A tidy text of a single token is that token. */
  lemma SingleToken(p: string, w: string)
    requires Tidy(p) && Tokens(p) == [w]
    ensures p == w
  {
    hide Tokens;
    assert p != "" by { if p == "" { EmptyTokens(); } }
    if IsWord(p[0]) { WordStep(p); } else { SpaceStep(p); }
    var n := if IsWord(p[0]) then |Word(p)| else 1;
    var rest := p[n..];
    var h := if IsWord(p[0]) then Word(p) else [p[0]];
    assert !IsSpace(p[0]) && Tokens(p) == [h] + Tokens(rest);
    assert Tokens(p)[0] == h && |Tokens(rest)| == 0;
    assert w == h == p[..n];
    assert |rest| > 0 ==> rest[|rest| - 1] == p[|p| - 1];
    NoTokens(rest);
  }

  lemma TidyTokens(p: string)
    requires Tidy(p)
    ensures Tokens(p) == [] <==> p == ""
    ensures p != "" ==> Tokens(p)[0] != "" && Tokens(p)[0][0] == p[0]
  {
  }

  // --- the pieces between commas ---

  function Segments(t: seq<string>): seq<seq<string>>
  {
    if "," !in t then [t] else var k := FirstComma(t); [t[..k]] + Segments(t[k + 1..])
  }

  function FirstComma(t: seq<string>): (k: nat)
    requires "," in t
    ensures k < |t| && t[k] == "," && forall j :: 0 <= j < k ==> t[j] != ","
  {
    if t[0] == "," then 0 else FirstComma(t[1..]) + 1
  }

  function NonEmptySegments(s: seq<seq<string>>): seq<seq<string>>
  {
    if s == [] then [] else (if s[0] == [] then [] else [s[0]]) + NonEmptySegments(s[1..])
  }

  function OperandTokens(t: seq<string>): seq<seq<string>> { NonEmptySegments(Segments(t)) }

  function TokensOfAll(pieces: seq<string>): (t: seq<seq<string>>)
    ensures |t| == |pieces| && forall i :: 0 <= i < |t| ==> t[i] == Tokens(pieces[i])
  {
    seq(|pieces|, i requires 0 <= i < |pieces| => Tokens(pieces[i]))
  }

  lemma SegmentsSplit(a: seq<string>, b: seq<string>)
    requires "," !in a
    ensures Segments(a + [","] + b) == [a] + Segments(b)
  {
    var t := a + [","] + b;
    assert t[|a|] == ",";
    var k := FirstComma(t);
    assert forall j :: 0 <= j < |a| ==> t[j] == a[j];
    assert t[..k] == a && t[k + 1..] == b;
  }

  lemma {:induction false} NoCommaToken(s: string)
    requires ',' !in s
    ensures "," !in Tokens(s)
    decreases |s|
  {
    if s != "" {
      if !IsSpace(s[0]) && IsWord(s[0]) {
        NoCommaToken(s[|Word(s)|..]);
        assert IsWord(Word(s)[0]);
      } else {
        NoCommaToken(s[1..]);
      }
    }
  }

  lemma {:induction false} SplitTokens(s: string)
    ensures TokensOfAll(Split(s, ',')) == Segments(Tokens(s))
    decreases |s|
  {
    hide Segments;
    hide Tokens;
    var h := Before(s, ',');
    NoCommaToken(h);
    if |h| == |s| {
      assert h == s;
      NoCommaSegments(Tokens(s));
    } else {
      var r := s[|h| + 1..];
      assert s == h + [','] + r;
      TokensSplit(h, ',', r);
      SplitTokens(r);
      SegmentsSplit(Tokens(h), Tokens(r));
      assert Split(s, ',') == [h] + Split(r, ',');
      assert TokensOfAll([h] + Split(r, ',')) == [Tokens(h)] + TokensOfAll(Split(r, ','));
      assert [[',']] == [","];
    }
  }

  lemma NoCommaSegments(t: seq<string>)
    requires "," !in t
    ensures Segments(t) == [t]
  {
  }

  lemma {:induction false} NonEmptyTokens(pieces: seq<string>)
    ensures TokensOfAll(NonEmpty(pieces)) == NonEmptySegments(TokensOfAll(pieces))
    ensures forall i :: 0 <= i < |NonEmpty(pieces)| ==> Tidy(NonEmpty(pieces)[i])
  {
    hide Strip;
    hide Tokens;
    hide Tidy;
    if pieces != [] {
      var p, q := Strip(pieces[0]), pieces[1..];
      StripTokens(pieces[0]);
      TidyTokens(p);
      NonEmptyTokens(q);
      assert TokensOfAll(pieces)[1..] == TokensOfAll(q);
      var front := if p == "" then [] else [p];
      assert NonEmpty(pieces) == front + NonEmpty(q);
      assert TokensOfAll(front + NonEmpty(q)) == TokensOfAll(front) + TokensOfAll(NonEmpty(q));
    }
  }

  /** The checker's operands, token by token, are the segments between the commas. */
  lemma OperandsTokens(rest: string)
    ensures TokensOfAll(Operands(rest)) == OperandTokens(Tokens(rest))
    ensures forall i :: 0 <= i < |Operands(rest)| ==> Tidy(Operands(rest)[i])
  {
    hide Split;
    hide NonEmpty;
    hide Segments;
    hide NonEmptySegments;
    SplitTokens(rest);
    NonEmptyTokens(Split(rest, ','));
  }

  /** The first operand, from the tokens before the first comma. */
  lemma FirstOperandTokens(rest: string, a: seq<string>, b: seq<string>)
    requires a != [] && "," !in a && (Tokens(rest) == a || Tokens(rest) == a + [","] + b)
    ensures var ops := Operands(rest); ops != [] && Tokens(ops[0]) == a && (ops[0] == "pc" <==> a == ["pc"])
  {
    hide Tokens;
    hide Operands;
    OperandsTokens(rest);
    var ops := Operands(rest);
    if Tokens(rest) == a { NoCommaSegments(a); } else { SegmentsSplit(a, b); }
    var s := Segments(Tokens(rest));
    assert s[0] == a;
    assert OperandTokens(Tokens(rest)) == [a] + NonEmptySegments(s[1..]);
    assert TokensOfAll(ops)[0] == a;
    TokensOfWord("pc");
    if a == ["pc"] { SingleToken(ops[0], "pc"); }
  }

  // --- tokens written out ---

  function Spaced(t: seq<string>): string
  {
    if t == [] then "" else if |t| == 1 then t[0] else t[0] + [' '] + Spaced(t[1..])
  }

  lemma WordChar(c: char)
    requires IsWord(c)
    ensures !IsSpace(c) && c != '@' && c != ':' && c != ','
  {
  }

  lemma TokenIsItself(t: string)
    requires IsToken(t)
    ensures t != "" && Tokens(t) == [t] && !IsSpace(t[0]) && !IsSpace(t[|t| - 1]) && '@' !in t
  {
    hide IsWord;
    hide IsSpace;
    hide Tokens;
    if AllWord(t) {
      TokensOfWord(t);
      forall i | 0 <= i < |t| ensures !IsSpace(t[i]) && t[i] != '@' { WordChar(t[i]); }
    } else {
      assert t == [t[0]] == [t[0]] + "";
      assert AllWord(t) <==> IsWord(t[0]);
      OneChar(t[0], "");
      EmptyTokens();
    }
  }

  /** Tokens with spaces between them are read as those tokens. */
  lemma {:induction false} SpacedTokens(t: seq<string>)
    requires AllTokens(t)
    ensures Tokens(Spaced(t)) == t && '@' !in Spaced(t)
    ensures t != [] ==> Spaced(t) != "" && Tidy(Spaced(t)) && Spaced(t)[|Spaced(t)| - 1] == t[|t| - 1][|t[|t| - 1]| - 1]
  {
    hide Tokens;
    hide IsToken;
    if t == [] {
      EmptyTokens();
    } else if |t| == 1 {
      TokenIsItself(t[0]);
      assert t == [t[0]];
    } else {
      TokenIsItself(t[0]);
      var u := t[1..];
      SpacedTokens(u);
      TokensSplit(t[0], ' ', Spaced(u));
      assert t == [t[0]] + u;
      assert Spaced(t)[0] == t[0][0];
    }
  }

  // --- a list of single tokens ---

  function CommaJoin(names: seq<string>): seq<string>
  {
    if names == [] then [] else if |names| == 1 then names else [names[0], ","] + CommaJoin(names[1..])
  }

  function Singles(names: seq<string>): (t: seq<seq<string>>)
    ensures |t| == |names| && forall i :: 0 <= i < |t| ==> t[i] == [names[i]]
  {
    seq(|names|, i requires 0 <= i < |names| => [names[i]])
  }

  lemma {:induction false} JoinSegments(names: seq<string>)
    requires "," !in names && names != []
    ensures OperandTokens(CommaJoin(names)) == Singles(names)
  {
    var t := CommaJoin(names);
    if |names| == 1 {
      NoCommaSegments(names);
      assert NonEmptySegments([names]) == [names] + NonEmptySegments([]);
      assert names == [names[0]] && Singles(names) == [[names[0]]];
    } else {
      var u := names[1..];
      JoinSegments(u);
      assert t == [names[0]] + [","] + CommaJoin(u);
      SegmentsSplit([names[0]], CommaJoin(u));
      assert ([[names[0]]] + Segments(CommaJoin(u)))[1..] == Segments(CommaJoin(u));
      assert Singles(names) == [[names[0]]] + Singles(u);
    }
  }

  /** Operands that are single tokens are read as those tokens. */
  lemma SingleOperands(rest: string, names: seq<string>)
    requires names != [] && "," !in names && Tokens(rest) == CommaJoin(names)
    ensures Operands(rest) == names
  {
    hide Tokens;
    hide Operands;
    hide OperandTokens;
    OperandsTokens(rest);
    JoinSegments(names);
    var ops := Operands(rest);
    forall i | 0 <= i < |ops| ensures ops[i] == names[i] {
      assert TokensOfAll(ops)[i] == Singles(names)[i];
      SingleToken(ops[i], names[i]);
    }
  }

  // --- pc as a word ---

  lemma MentionsSplit(a: string, x: char, b: string)
    requires !IsWord(x)
    ensures MentionsPc(a + [x] + b) <==> MentionsPc(a) || MentionsPc(b)
  {
    var s := a + [x] + b;
    if MentionsPc(a) {
      var i :| 0 <= i < |a| && PcAt(a, i);
      assert s[i..i + 2] == a[i..i + 2];
      assert PcAt(s, i);
    }
    if MentionsPc(b) {
      var i :| 0 <= i < |b| && PcAt(b, i);
      var k := |a| + 1 + i;
      assert s[k..k + 2] == b[i..i + 2];
      assert PcAt(s, k);
    }
    if MentionsPc(s) {
      var i :| 0 <= i < |s| && PcAt(s, i);
      SplitBack(a, x, b, i);
    }
  }

  lemma SplitBack(a: string, x: char, b: string, i: nat)
    requires !IsWord(x) && i < |a + [x] + b| && PcAt(a + [x] + b, i)
    ensures MentionsPc(a) || MentionsPc(b)
  {
    var s := a + [x] + b;
    assert s[i..i + 2][0] == s[i] && s[i..i + 2][1] == s[i + 1];
    assert IsWord(s[i]) && IsWord(s[i + 1]);
    assert s[|a|] == x;
    if i < |a| {
      assert i + 1 < |a|;
      assert s[i..i + 2] == a[i..i + 2];
      assert PcAt(a, i);
    } else {
      var k := i - |a| - 1;
      assert s[i..i + 2] == b[k..k + 2];
      assert PcAt(b, k);
    }
  }

  lemma MentionsWord(w: string)
    requires AllWord(w)
    ensures MentionsPc(w) <==> w == "pc"
  {
    if w == "pc" { assert w[0..2] == "pc"; assert PcAt(w, 0); }
  }

  /** The checker's word search finds pc if and only if it is one of the tokens. */
  lemma {:induction false} MentionsToken(s: string)
    ensures MentionsPc(s) <==> "pc" in Tokens(s)
    decreases |s|
  {
    hide MentionsPc;
    if s == "" {
      MentionsWord("");
    } else if !IsWord(s[0]) {
      MentionsSplit("", s[0], s[1..]);
      assert s == "" + [s[0]] + s[1..];
      MentionsWord("");
      MentionsToken(s[1..]);
    } else {
      assert !IsSpace(s[0]);
      var w := Word(s);
      var r := s[|w|..];
      MentionsWord(w);
      MentionsToken(r);
      if r == "" {
        assert w == s;
      } else {
        assert s == w + [r[0]] + r[1..] && r == "" + [r[0]] + r[1..];
        MentionsSplit(w, r[0], r[1..]);
        MentionsSplit("", r[0], r[1..]);
        MentionsWord("");
      }
    }
  }
}
