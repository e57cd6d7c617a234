/**
 What an accepted listing does on the machine: VFP register banks (ARM Architecture Reference Manual, DDI 0100I,
 chapter C5), the FPSCR's LEN and STRIDE fields, and the straight-line execution of a generator's output.
 */
module ShortVecMode {
  import opened ShortVecText
  import opened ShortVec

  // --- vectors and banks ---

  /** Register i of the vector of four that starts at s<r>, stride 1: it stays in r's bank of eight. */
  function VectorReg(r: nat, i: nat): nat { r / 8 * 8 + (r % 8 + i) % 8 }

  /** The vector at r is the next four registers. */
  predicate Consecutive(r: nat) { forall i :: 0 <= i < LEN ==> VectorReg(r, i) == r + i }

  lemma ConsecutiveIff(r: nat)
    ensures Consecutive(r) <==> r % 8 + LEN <= 8
  {
    assert r == r / 8 * 8 + r % 8;
    if Consecutive(r) {
      assert VectorReg(r, 3) == r + 3;
    }
  }

  /** At LEN 4 the vector at s14 is s14, s15, s8, s9. */
  lemma VectorAt14()
    ensures LEN == 4
    ensures VectorReg(14, 0) == 14 && VectorReg(14, 1) == 15 && VectorReg(14, 2) == 8 && VectorReg(14, 3) == 9
  {
    assert 14 / 8 * 8 == 8 && 14 % 8 == 6;
    assert (6 + 0) % 8 == 6 && (6 + 1) % 8 == 7 && (6 + 2) % 8 == 0 && (6 + 3) % 8 == 1;
  }

  /**
   Operand k of an op with operands n is a scalar: everything with a bank-0 destination, otherwise a bank-0 last
   source.
   */
  predicate IsScalar(n: seq<nat>, k: nat)
    requires k < |n|
  {
    n[0] < 8 || (k == |n| - 1 && n[k] < 8)
  }

  /** No vector operand wraps around its bank, the Sn of an op marked as a ring excepted. */
  predicate OperandsSafe(n: seq<nat>, ring: bool)
  {
    forall k :: 0 <= k < |n| ==> IsScalar(n, k) || Consecutive(n[k]) || (ring && k == 1)
  }

  /** The checker's test is the architecture's: it accepts exactly the operand lists whose vectors stay consecutive. */
  lemma NumbersFaultIff(n: seq<nat>, ring: bool)
    requires n != [] && (ring ==> |n| == 3)
    ensures NumbersFault(n, ring) == None <==> OperandsSafe(n, ring)
  {
    hide Consecutive;
    if n[0] >= 8 {
      var v := Vectors(n);
      forall k | 0 <= k < |v| ensures n[k] == v[k] && (Consecutive(n[k]) <==> v[k] % 8 + LEN <= 8) {
        ConsecutiveIff(n[k]);
      }
      assert FirstWrap(v, ring, 0) == None <==> forall k :: 0 <= k < |v| && !(ring && k == 1) ==> Consecutive(n[k]);
      if OperandsSafe(n, ring) {
        forall k | 0 <= k < |v| && !(ring && k == 1) ensures Consecutive(n[k]) {
          assert IsScalar(n, k) || Consecutive(n[k]) || (ring && k == 1);
        }
      }
    }
  }

  // --- an instruction line, as text ---

  function Tail(ring: bool): string { if ring then " " + WRAP_MARK else "" }

  function InsnLine(mn: string, ops: string, ring: bool): string { "    " + (mn + " " + ops) + Tail(ring) }

  /** A mnemonic in lower case, its suffixes included. */
  predicate Mnemonic(m: string)
  {
    m != "" && IsLower(m[0]) && forall i :: 0 <= i < |m| ==> IsLower(m[i]) || IsDigit(m[i]) || m[i] == '.'
  }

  predicate OperandText(t: string) { t != "" && Tidy(t) && '@' !in t && t[|t| - 1] != ':' }

  lemma {:induction false} LowerChars(s: string)
    ensures |Lower(s)| == |s| && forall i :: 0 <= i < |s| ==> Lower(s)[i] == LowerChar(s[i])
  {
    if s != "" {
      LowerChars(s[1..]);
      assert forall i :: 0 < i < |s| ==> Lower(s)[i] == Lower(s[1..])[i - 1] && s[i] == s[1..][i - 1];
    }
  }

  lemma CaseOnly(c: char)
    ensures IsLower(LowerChar(c)) ==> IsWord(c)
    ensures !IsLower(LowerChar(c)) ==> LowerChar(c) == c
  {
  }

  /** Whatever its case, a mnemonic is one word that starts with a letter. */
  lemma SpelledMnemonic(mn: string)
    requires Mnemonic(Lower(mn))
    ensures mn != "" && IsWord(mn[0]) && mn[0] != '@'
    ensures forall i :: 0 <= i < |mn| ==> !IsSpace(mn[i]) && mn[i] != '@'
  {
    hide Lower;
    hide LowerChar;
    LowerChars(mn);
    CaseOnly(mn[0]);
    assert Lower(mn)[0] == LowerChar(mn[0]);
    forall i | 0 <= i < |mn| ensures !IsSpace(mn[i]) && mn[i] != '@' {
      CaseOnly(mn[i]);
      assert Lower(mn)[i] == LowerChar(mn[i]);
    }
  }

  lemma Trailing(c: string)
    requires Tidy(c) && c != "" && '@' !in c
    ensures
      var line := c + " " + WRAP_MARK;
      Strip(Before(line, '@')) == c && Contains(line, WRAP_MARK) && Tidy(line)
  {
    var line := c + " " + WRAP_MARK;
    assert line == (c + " ") + ['@'] + " shortvec: ring";
    assert '@' !in c + " ";
    BeforeAppend(c + " ", '@', " shortvec: ring");
    assert (c + " ")[..|c|] == c;
    assert StripRight(c + " ") == StripRight(c);
    assert line[|c| + 1..] == WRAP_MARK;
  }

  lemma NoMark(c: string)
    requires '@' !in c
    ensures !Contains(c, WRAP_MARK) && Before(c, '@') == c
  {
    BeforeNone(c, '@');
    if Contains(c, WRAP_MARK) { ContainsFirst(c, WRAP_MARK); assert false; }
  }

  lemma ContainsFirst(s: string, p: string)
    requires Contains(s, p) && p != ""
    ensures p[0] in s
  {
    var i :| 0 <= i <= |s| && p <= s[i..];
    assert s[i..][0] == p[0];
  }

  /** The text of the line, stripped: the code, and the ring mark after it. */
  lemma LineStrips(c: string, ring: bool)
    requires Tidy(c) && c != "" && '@' !in c
    ensures var line := Strip("    " + c + Tail(ring));
      line == c + Tail(ring) && Strip(Before(line, '@')) == c && Contains(line, WRAP_MARK) == ring
  {
    var line := c + Tail(ring);
    assert "    " + c + Tail(ring) == "    " + line;
    if ring {
      assert line == c + " " + WRAP_MARK;
      Trailing(c);
    } else {
      assert line == c;
      NoMark(c);
      StripTidy(c);
    }
    StripIndent(line);
  }

  /** Text that starts with a letter and does not end with a colon is no marker, no directive and no label. */
  lemma ClassifiedAsInstr(c: string, ring: bool)
    requires Tidy(c) && c != "" && IsWord(c[0]) && c[|c| - 1] != ':' && '@' !in c
    ensures Classify("    " + c + Tail(ring)) == Instr(Lower(FirstWord(c)), StripLeft(c[|FirstWord(c)|..]), ring)
  {
    hide Strip;
    hide Before;
    hide Contains;
    hide StripLeft;
    hide FirstWord;
    hide Lower;
    hide Tail;
    hide IsSize;
    hide IsLabel;
    hide StartsWith;
    LineStrips(c, ring);
    NoDirective(c, c + Tail(ring));
  }

  lemma NoDirective(c: string, line: string)
    requires c != "" && c <= line && IsWord(c[0]) && c[|c| - 1] != ':'
    ensures !StartsWith(line, ENTER_MARK) && !StartsWith(line, LEAVE_MARK) && !IsSize(c) && !IsLabel(c)
  {
    assert line[0] == c[0] && ENTER_MARK[0] == '@' && LEAVE_MARK[0] == '@' && ".size"[0] == '.';
  }

  lemma CodeText(mn: string, ops: string)
    requires Mnemonic(Lower(mn)) && OperandText(ops)
    ensures var c := mn + " " + ops; Tidy(c) && c != "" && IsWord(c[0]) && c[|c| - 1] != ':' && '@' !in c
    ensures var c := mn + " " + ops; FirstWord(c) == mn && StripLeft(c[|mn|..]) == ops
  {
    SpelledMnemonic(mn);
    var c := mn + " " + ops;
    assert c[0] == mn[0] && c[|c| - 1] == ops[|ops| - 1];
    assert '@' !in mn && '@' !in " ";
    FirstWordAppend(mn, ops);
    assert c[|mn|..] == " " + ops;
    assert (" " + ops)[1..] == ops;
  }

  /** A line of a mnemonic in any case and its operands reads back as the mnemonic in lower case and the operands. */
  lemma LineReads(mn: string, ops: string, ring: bool)
    requires Mnemonic(Lower(mn)) && OperandText(ops)
    ensures Classify(InsnLine(mn, ops, ring)) == Instr(Lower(mn), ops, ring)
  {
    hide Classify;
    hide OperandText;
    hide Mnemonic;
    hide Lower;
    hide Tail;
    CodeText(mn, ops);
    ClassifiedAsInstr(mn + " " + ops, ring);
  }

  // --- operand lists ---

  predicate Operand(t: string)
  {
    t != "" && forall i :: 0 <= i < |t| ==> !IsSpace(t[i]) && t[i] != ',' && t[i] != '@' && t[i] != ':'
  }

  predicate AllOperands(names: seq<string>) { forall i :: 0 <= i < |names| ==> Operand(names[i]) }

  /** The names with a comma and a space between them. */
  function JoinNames(names: seq<string>): string
  {
    if names == [] then ""
    else if |names| == 1 then names[0]
    else names[0] + [','] + (" " + JoinNames(names[1..]))
  }

  lemma {:induction false} JoinedText(names: seq<string>)
    requires AllOperands(names) && names != []
    ensures OperandText(JoinNames(names)) && JoinNames(names)[0] == names[0][0]
  {
    assert Operand(names[0]);
    if |names| > 1 {
      JoinedText(names[1..]);
      var t := JoinNames(names[1..]);
      assert JoinNames(names) == names[0] + [','] + (" " + t);
    }
  }

  lemma FirstPiece(s: string, r: string, rest: string)
    requires ',' !in s && Strip(s) == r && r != ""
    ensures NonEmpty(Split(s, ',')) == [r]
    ensures NonEmpty(Split(s + [','] + rest, ',')) == [r] + NonEmpty(Split(rest, ','))
  {
    hide Strip;
    hide Split;
    BeforeNone(s, ',');
    SplitAppend(s, ',', rest);
    assert NonEmpty([s]) == [r] + NonEmpty([]);
    assert ([s] + Split(rest, ','))[1..] == Split(rest, ',');
  }

  lemma SpaceStrips(b: string)
    requires Tidy(b) && b != ""
    ensures Strip(b) == b && Strip(" " + b) == b
  {
    StripTidy(b);
    assert (" " + b)[1..] == b;
    assert StripLeft(" " + b) == StripLeft(b);
  }

  lemma NamedPiece(name: string, lead: string, rest: string)
    requires Operand(name) && (lead == "" || lead == " ")
    ensures NonEmpty(Split(lead + name, ',')) == [name]
    ensures NonEmpty(Split(lead + (name + [','] + rest), ',')) == [name] + NonEmpty(Split(rest, ','))
  {
    hide Strip;
    hide Split;
    hide NonEmpty;
    SpaceStrips(name);
    var s := lead + name;
    assert s == name || s == " " + name;
    assert ',' !in s;
    FirstPiece(s, name, rest);
    assert lead + (name + [','] + rest) == s + [','] + rest;
  }

  lemma {:induction false} PiecesRead(names: seq<string>, lead: string)
    requires AllOperands(names) && names != [] && (lead == "" || lead == " ")
    ensures NonEmpty(Split(lead + JoinNames(names), ',')) == names
  {
    hide Strip;
    hide Split;
    hide NonEmpty;
    hide Operand;
    assert Operand(names[0]);
    if |names| == 1 {
      NamedPiece(names[0], lead, "");
    } else {
      NamedPiece(names[0], lead, " " + JoinNames(names[1..]));
      PiecesRead(names[1..], " ");
      assert names == [names[0]] + names[1..];
    }
  }

  /** The operands of a joined list are its names. */
  lemma OperandsRead(names: seq<string>)
    requires AllOperands(names) && names != []
    ensures Operands(JoinNames(names)) == names
  {
    PiecesRead(names, "");
    assert "" + JoinNames(names) == JoinNames(names);
  }

  // --- a generator's vector line ---

  function RegName(r: nat): string { "s" + Decimal(r) }

  function RegTexts(n: seq<nat>): (t: seq<string>)
    ensures |t| == |n| && forall i :: 0 <= i < |n| ==> t[i] == RegName(n[i])
  {
    seq(|n|, i requires 0 <= i < |n| => RegName(n[i]))
  }

  function Joined(n: seq<nat>): string { JoinNames(RegTexts(n)) }

  function VectorLine(base: string, n: seq<nat>, ring: bool): string { InsnLine(base + ".f32", Joined(n), ring) }

  lemma RegText(r: nat)
    ensures var s := RegName(r); IsSReg(s) && SReg(s) == r && Operand(s)
  {
    var s := RegName(r);
    assert s[1..] == Decimal(r);
  }

  lemma RegTextsRead(n: seq<nat>)
    ensures AllSRegs(RegTexts(n)) && Numbers(RegTexts(n)) == n && AllOperands(RegTexts(n))
  {
    var t := RegTexts(n);
    forall i | 0 <= i < |t| ensures IsSReg(t[i]) && SReg(t[i]) == n[i] && Operand(t[i]) {
      RegText(n[i]);
    }
  }

  lemma VectorOpsPlain(base: string)
    requires base in VECTOR_OPS
    ensures 4 <= |base| <= 5 && base[0] == 'v' && base != "vmsr" && '.' !in base
    ensures forall i :: 0 <= i < |base| ==> IsLower(base[i])
  {
  }

  /** A vector line as the generators write it reads back as its op and its operands. */
  lemma VectorLineReads(base: string, n: seq<nat>, ring: bool)
    requires base in VECTOR_OPS && n != []
    ensures Classify(VectorLine(base, n, ring)) == Instr(base + ".f32", Joined(n), ring)
  {
    hide Classify;
    hide JoinNames;
    VectorOpsPlain(base);
    RegTextsRead(n);
    JoinedText(RegTexts(n));
    LowerSame(base + ".f32");
    LineReads(base + ".f32", Joined(n), ring);
  }

  lemma NotExit(op: string, rest: string)
    requires op != "" && (op[0] == 'v' || op[0] == 'f') && Operands(rest) != [] && Operands(rest)[0] != "pc"
    ensures !Exits(op) && !PcWritten(op, rest)
  {
    hide Operands;
  }

  lemma VectorOpFault(base: string, n: seq<nat>, ring: bool)
    requires base in VECTOR_OPS && n != []
    ensures InstrFault(base + ".f32", Joined(n), ring) == NumbersFault(n, ring)
  {
    hide NumbersFault;
    hide JoinNames;
    hide Operands;
    hide Exits;
    hide PcWritten;
    var op := base + ".f32";
    VectorOpsPlain(base);
    BeforeAppend(base, '.', "f32");
    assert base + ['.'] + "f32" == op;
    RegTextsRead(n);
    OperandsRead(RegTexts(n));
    assert RegTexts(n)[0][0] == 's';
    NotExit(op, Joined(n));
    assert op[|base|] == '.';
    assert '.' !in "vmsr";
  }

  /** The checker's verdict on a vector line of generated text: accepted if and only if its vectors stay consecutive. */
  lemma VectorLineChecked(base: string, n: seq<nat>, ring: bool)
    requires base in VECTOR_OPS && n != [] && (ring ==> |n| == 3)
    ensures
      match Classify(VectorLine(base, n, ring))
      case Instr(op, rest, r) => InstrFault(op, rest, r) == None <==> OperandsSafe(n, ring)
      case _ => false
  {
    hide InstrFault;
    hide NumbersFault;
    hide OperandsSafe;
    VectorLineReads(base, n, ring);
    VectorOpFault(base, n, ring);
    NumbersFaultIff(n, ring);
  }
}
