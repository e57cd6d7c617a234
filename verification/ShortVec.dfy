/**
 scripts/armv6_shortvec.py: the checker for VFP short-vector regions. A region runs from the line that marks LEN = 4 as
 set to the line that marks it about to be cleared; `Lint` accepts a listing only if nothing inside a region can leave
 it, change the mode, or wrap a vector around its bank.
 */
module ShortVec {
  import opened ShortVecText

  const LEN: nat := 4

  const ENTER_MARK: string := "@ shortvec: enter"
  const LEAVE_MARK: string := "@ shortvec: leave"
  const WRAP_MARK: string := "@ shortvec: ring"

  const VECTOR_OPS: set<string> := {"vadd", "vsub", "vmul", "vnmul", "vmla", "vmls", "vnmla", "vnmls", "vdiv", "vmov",
   "vabs", "vneg", "vsqrt"}

  datatype Option<T> = None | Some(value: T)

  // --- one line ---

  /** What the checker makes of a line. */
  datatype Line = Enter | Leave | FunctionEnd | Label(name: string) | Skipped
    | Instr(op: string, rest: string, ring: bool)

  /** `.size` and a name. */
  predicate IsSize(code: string)
  {
    StartsWith(code, ".size") && |code| > 5 && IsSpace(code[5]) && var t := StripLeft(code[5..]);
    t != "" && IsWord(t[0])
  }

  /** A name and a colon; a number and a colon is a local label. */
  predicate IsLabel(code: string)
  {
    |code| > 1 && code[|code| - 1] == ':' && AllWord(code[..|code| - 1]) && !AllDigits(code[..|code| - 1])
  }

  function Classify(raw: string): Line
  {
    var line := Strip(raw);
    if StartsWith(line, ENTER_MARK) then Enter
    else if StartsWith(line, LEAVE_MARK) then Leave
    else
      var code := Strip(Before(line, '@'));
      if code == "" then Skipped
      else if IsSize(code) then FunctionEnd
      else if IsLabel(code) then Label(code[..|code| - 1])
      else if code[0] == '.' || code[|code| - 1] == ':' then Skipped
      else
        var first := FirstWord(code);
        Instr(Lower(first), StripLeft(code[|first|..]), Contains(line, WRAP_MARK))
  }

  // --- which lines end a function ---

  /** White space, `.size`, white space, and a name, with anything after it. */
  predicate SizeParts(text: string, a: string, g: string, t: string)
  {
    text == a + ".size" + g + t && AllSpace(a) && AllSpace(g) && g != "" && t != "" && IsWord(t[0])
  }

  ghost predicate SizeLine(text: string) { exists a, g, t :: SizeParts(text, a, g, t) }

  /** Text that starts like `.size name`. */
  predicate SizeHead(s: string, g: string, x: char) { AllSpace(g) && g != "" && IsWord(x) && ".size" + g + [x] <= s }

  lemma SizeHeadIs(code: string, g: string, x: char)
    requires SizeHead(code, g, x)
    ensures IsSize(code)
  {
    var h := ".size" + g + [x];
    var r := code[|h|..];
    assert code == h + r;
    assert code[5..] == g + ([x] + r);
    assert code[5] == g[0];
    StripLeftOf(g, [x] + r);
  }

  lemma SizeIsHead(code: string) returns (g: string, x: char)
    requires IsSize(code)
    ensures SizeHead(code, g, x)
  {
    g := StripLeftSplit(code[5..]);
    var t := StripLeft(code[5..]);
    x := t[0];
    assert code == ".size" + (g + t);
    assert code[5] == (g + t)[0];
    assert t == [x] + t[1..];
    assert code == ".size" + g + [x] + t[1..];
  }

  /** The head of the text survives stripping and the cutting of comments. */
  lemma HeadStays(h: string, x: char, v: string)
    requires h != "" && !IsSpace(h[0]) && '@' !in h && !IsSpace(x) && x != '@'
    ensures h + [x] <= Strip(h + [x] + v) && h + [x] <= Before(h + [x] + v, '@')
  {
    assert (h + [x] + v)[0] == h[0];
    StripRightOf(h, x, v);
    BeforeOf(h + [x], '@', v);
  }

  lemma SizeLineEnds(a: string, g: string, t: string)
    requires SizeParts(a + ".size" + g + t, a, g, t)
    ensures Classify(a + ".size" + g + t) == FunctionEnd
  {
    hide IsSize;
    hide Strip;
    hide Before;
    hide Contains;
    var h, x := ".size" + g, t[0];
    var s := h + [x] + t[1..];
    assert a + ".size" + g + t == a + s;
    StripOf(a, s);
    assert '@' !in h && !IsSpace(x) && x != '@';
    HeadStays(h, x, t[1..]);
    var line := Strip(s);
    assert line == h + [x] + line[|h| + 1..];
    HeadStays(h, x, line[|h| + 1..]);
    var b := Before(line, '@');
    assert b == h + [x] + b[|h| + 1..];
    HeadStays(h, x, b[|h| + 1..]);
    SizeHeadIs(Strip(b), g, x);
    assert line[0] == '.' && ENTER_MARK[0] == '@' && LEAVE_MARK[0] == '@';
  }

  lemma StripOf(a: string, s: string)
    requires AllSpace(a)
    ensures Strip(a + s) == Strip(s)
  {
    StripLeftOf(a, s);
  }

  /** What is left of a line after stripping, cutting comments and stripping again stands in it after white space. */
  lemma CodeWithin(text: string) returns (a: string, rest: string)
    ensures var code := Strip(Before(Strip(text), '@')); code != "" ==> AllSpace(a) && text == a + code + rest
  {
    hide StripLeft;
    hide StripRight;
    hide AllSpace;
    hide IsSpace;
    hide Before;
    a := StripLeftSplit(text);
    var s := StripLeft(text);
    StripRightPrefix(s);
    var line := StripRight(s);
    var b := Before(line, '@');
    rest := "";
    if b != "" {
      assert b[0] == line[0] == s[0];
      Unindented(b);
      StripRightPrefix(b);
      var code := StripRight(b);
      Prefixes(code, b, line, s);
      rest := s[|code|..];
      assert text == a + code + rest;
    } else {
      EmptyStrips();
    }
  }

  lemma Unindented(b: string)
    requires b != "" && !IsSpace(b[0])
    ensures StripLeft(b) == b
  {
  }

  lemma EmptyStrips()
    ensures Strip("") == ""
  {
  }

  lemma Prefixes(a: string, b: string, c: string, d: string)
    requires a <= b <= c <= d
    ensures |a| <= |d| && d == a + d[|a|..]
  {
  }

  /** A line ends a function for the checker if and only if it reads `.size` and a name, indented or not. */
  lemma SizeLineIff(text: string)
    ensures Classify(text) == FunctionEnd <==> SizeLine(text)
  {
    hide Classify;
    hide Strip;
    hide Before;
    hide SizeParts;
    hide SizeHead;
    hide IsSize;
    if SizeLine(text) {
      var a, g, t :| SizeParts(text, a, g, t);
      PartsText(text, a, g, t);
      SizeLineEnds(a, g, t);
    }
    if Classify(text) == FunctionEnd {
      var code := EndCode(text);
      var g, x := SizeIsHead(code);
      var a, rest := CodeWithin(text);
      HeadIsLine(text, a, code, rest, g, x);
    }
  }

  lemma PartsText(text: string, a: string, g: string, t: string)
    requires SizeParts(text, a, g, t)
    ensures text == a + ".size" + g + t
  {
  }

  lemma HeadIsLine(text: string, a: string, code: string, rest: string, g: string, x: char)
    requires SizeHead(code, g, x) && AllSpace(a) && text == a + code + rest
    ensures SizeLine(text)
  {
    hide AllSpace;
    var h := ".size" + g;
    var v := code[|h|..];
    assert code == h + v;
    assert v[0] == (".size" + g + [x])[|h|] == x;
    assert text == a + ".size" + g + (v + rest);
    assert SizeParts(text, a, g, v + rest);
  }

  lemma EndCode(text: string) returns (code: string)
    requires Classify(text) == FunctionEnd
    ensures code == Strip(Before(Strip(text), '@')) && code != "" && IsSize(code)
  {
    code := Strip(Before(Strip(text), '@'));
  }

  /** Which lines are checked as instructions: not the marks, nothing, directives, or what ends with a colon. */
  lemma CheckedIff(raw: string)
    ensures
      var line, code := Strip(raw), Strip(Before(Strip(raw), '@'));
      Classify(raw).Instr? <==>
        !("@ shortvec: enter" <= line) && !("@ shortvec: leave" <= line) && code != "" && code[0] != '.'
        && code[|code| - 1] != ':'
  {
    hide Strip;
    hide Before;
    hide Contains;
    hide FirstWord;
    hide AllWord;
    hide AllDigits;
    hide StripLeft;
    var code := Strip(Before(Strip(raw), '@'));
    assert IsSize(code) ==> code[0] == '.';
  }

  /** A name and a colon, indented or not, is a label; a number and a colon is passed over. */
  lemma LabelLine(a: string, name: string)
    requires AllSpace(a) && AllWord(name) && name != ""
    ensures Classify(a + (name + ":")) == if AllDigits(name) then Skipped else Label(name)
  {
    hide AllDigits;
    var code := name + ":";
    assert !IsSpace(name[0]) && !IsSpace(':') && '@' !in code && name[0] != '.' && name[0] != '@';
    hide IsWord;
    hide IsSpace;
    StripOf(a, code);
    StripTidy(code);
    BeforeNone(code, '@');
    assert code[..|code| - 1] == name;
    assert ENTER_MARK[0] == '@' && LEAVE_MARK[0] == '@' && ".size"[0] == '.';
  }

  datatype Fault =
    | EnterInside
    | LeaveOutside
    | EndsInside
    | LeavesFunction
    | WritesPc
    | WritesFpscr
    | DoublePrecision
    | RingNeedsThree
    | WrapsBank(register: nat)
    | NoOperands                    // an IndexError, not a ValueError
    | EndOfFileInside

  predicate SuffixOk(t: string) { t == "" || (|t| > 1 && t[0] == '.' && AllWord(t[1..])) }

  /** An optional two-letter condition, an optional dotted suffix. */
  predicate ExitTail(t: string) { SuffixOk(t) || (|t| >= 2 && IsWord(t[0]) && IsWord(t[1]) && SuffixOk(t[2..])) }

  predicate ExitAs(op: string, head: string) { StartsWith(op, head) && ExitTail(op[|head|..]) }

  predicate Exits(op: string)
  {
    ExitAs(op, "bl") || ExitAs(op, "blx") || ExitAs(op, "bx") || ExitAs(op, "svc") || ExitAs(op, "swi")
  }

  /** `.` and a word, or nothing. */
  predicate Dotted(s: string) { s == "" || (s[0] == '.' && s[1..] != "" && AllWord(s[1..])) }

  predicate TwoWordChars(s: string) { |s| == 2 && IsWord(s[0]) && IsWord(s[1]) }

  ghost predicate ExitForm(op: string, head: string, cc: string, suffix: string)
  {
    op == head + cc + suffix && (cc == "" || TwoWordChars(cc)) && Dotted(suffix)
  }

  lemma ExitAsIff(op: string, head: string)
    ensures ExitAs(op, head) <==> exists cc, suffix :: ExitForm(op, head, cc, suffix)
  {
    if ExitAs(op, head) {
      var t := op[|head|..];
      assert op == head + t;
      if SuffixOk(t) {
        assert ExitForm(op, head, "", t);
      } else {
        assert t == t[..2] + t[2..];
        assert ExitForm(op, head, t[..2], t[2..]);
      }
    }
    if exists cc, suffix :: ExitForm(op, head, cc, suffix) {
      var cc, suffix :| ExitForm(op, head, cc, suffix);
      var t := op[|head|..];
      assert t == cc + suffix;
      if cc == "" { assert t == suffix; } else { assert t[2..] == suffix && t[0] == cc[0] && t[1] == cc[1]; }
    }
  }

  /** The ways out the checker knows: one of five words, two more word characters or none, a dotted suffix or none. */
  lemma ExitsIff(op: string)
    ensures Exits(op) <==>
      exists head, cc, suffix :: head in {"bl", "blx", "bx", "svc", "swi"} && ExitForm(op, head, cc, suffix)
  {
    hide ExitAs;
    hide ExitForm;
    ExitAsIff(op, "bl");
    ExitAsIff(op, "blx");
    ExitAsIff(op, "bx");
    ExitAsIff(op, "svc");
    ExitAsIff(op, "swi");
  }

  /** The pieces between the commas, stripped, the empty ones dropped. */
  function NonEmpty(pieces: seq<string>): seq<string>
  {
    if pieces == [] then []
    else (if Strip(pieces[0]) == "" then [] else [Strip(pieces[0])]) + NonEmpty(pieces[1..])
  }

  function Operands(rest: string): seq<string> { NonEmpty(Split(rest, ',')) }

  /** `pc` as a word of its own. */
  predicate PcAt(s: string, i: nat)
  {
    && i + 2 <= |s| && s[i..i + 2] == "pc"
    && (i == 0 || !IsWord(s[i - 1])) && (i + 2 == |s| || !IsWord(s[i + 2]))
  }

  predicate MentionsPc(s: string) { exists i :: 0 <= i < |s| && PcAt(s, i) }

  predicate PcWritten(op: string, rest: string)
  {
    || ((StartsWith(op, "pop") || StartsWith(op, "ldm")) && MentionsPc(rest))
    || var ops := Operands(rest); ops != [] && ops[0] == "pc"
  }

  predicate IsSReg(r: string) { |r| > 1 && r[0] == 's' && AllDigits(r[1..]) }

  function SReg(r: string): nat
    requires IsSReg(r)
  {
    Value(r[1..])
  }

  predicate AllSRegs(regs: seq<string>) { forall i :: 0 <= i < |regs| ==> IsSReg(regs[i]) }

  function Numbers(regs: seq<string>): (n: seq<nat>)
    requires AllSRegs(regs)
    ensures |n| == |regs| && forall i :: 0 <= i < |n| ==> n[i] == SReg(regs[i])
  {
    seq(|regs|, i requires 0 <= i < |regs| => SReg(regs[i]))
  }

  /** The first vector operand from i on that wraps, a ring's Sn excepted. */
  function FirstWrap(vecs: seq<nat>, ring: bool, i: nat): (f: Option<Fault>)
    ensures f == None <==> forall k :: i <= k < |vecs| && !(ring && k == 1) ==> vecs[k] % 8 + LEN <= 8
    decreases |vecs| - i
  {
    if i >= |vecs| then None
    else if !(ring && i == 1) && vecs[i] % 8 + LEN > 8 then Some(WrapsBank(vecs[i]))
    else FirstWrap(vecs, ring, i + 1)
  }

  /** The operands that are vectors of LEN: all but a last source in bank 0. */
  function Vectors(n: seq<nat>): seq<nat>
    requires n != []
  {
    if n[|n| - 1] < 8 then n[..|n| - 1] else n
  }

  function NumbersFault(n: seq<nat>, ring: bool): Option<Fault>
  {
    if n == [] then Some(NoOperands)
    else if n[0] < 8 then None
    else if ring && |n| != 3 then Some(RingNeedsThree)
    else FirstWrap(Vectors(n), ring, 0)
  }

  function CheckVector(regs: seq<string>, ring: bool): Option<Fault>
  {
    if !AllSRegs(regs) then None else NumbersFault(Numbers(regs), ring)
  }

  /** What an instruction may not be inside a region. */
  function InstrFault(op: string, rest: string, ring: bool): Option<Fault>
  {
    var base, dt := Before(op, '.'), After(op, '.');
    if Exits(op) then Some(LeavesFunction)
    else if PcWritten(op, rest) then Some(WritesPc)
    else if op == "vmsr" then Some(WritesFpscr)
    else if base !in VECTOR_OPS then None
    else if dt == "f64" then Some(DoublePrecision)
    else if dt == "f32" || (dt == "" && StartsWith(rest, "s")) then CheckVector(Operands(rest), ring)
    else None
  }

  // --- the scan ---

  function Classified(lines: seq<string>): (L: seq<Line>)
    ensures |L| == |lines| && forall i :: 0 <= i < |L| ==> L[i] == Classify(lines[i])
  {
    seq(|lines|, i requires 0 <= i < |lines| => Classify(lines[i]))
  }

  /** Position i is inside a region: an enter before it with no leave since. */
  ghost predicate Inside(L: seq<Line>, i: nat)
    requires i <= |L|
  {
    exists j :: 0 <= j < i && L[j] == Enter && forall k :: j < k < i ==> L[k] != Leave
  }

  ghost function FaultAt(L: seq<Line>, i: nat): Option<Fault>
    requires i < |L|
  {
    match L[i]
    case Enter => if Inside(L, i) then Some(EnterInside) else None
    case Leave => if Inside(L, i) then None else Some(LeaveOutside)
    case FunctionEnd => if Inside(L, i) then Some(EndsInside) else None
    case Instr(op, rest, ring) => if Inside(L, i) then InstrFault(op, rest, ring) else None
    case _ => None
  }

  lemma InsideStart(L: seq<Line>)
    ensures !Inside(L, 0)
  {
  }

  lemma InsideStep(L: seq<Line>, i: nat)
    requires i < |L|
    ensures Inside(L, i + 1) <==> L[i] == Enter || (Inside(L, i) && L[i] != Leave)
  {
    if Inside(L, i + 1) && L[i] != Enter {
      var j :| 0 <= j < i + 1 && L[j] == Enter && forall k :: j < k < i + 1 ==> L[k] != Leave;
      assert j < i;
    }
    if Inside(L, i) && L[i] != Leave {
      var j :| 0 <= j < i && L[j] == Enter && forall k :: j < k < i ==> L[k] != Leave;
      assert 0 <= j < i + 1 && L[j] == Enter && forall k :: j < k < i + 1 ==> L[k] != Leave;
    }
  }

  /** The lines of a listing given in chunks. */
  function Flatten(chunks: seq<string>): seq<string>
  {
    if chunks == [] then [] else Split(chunks[0], '\n') + Flatten(chunks[1..])
  }

  /** What an accepted listing satisfies. */
  ghost predicate Clean(L: seq<Line>)
  {
    (forall i :: 0 <= i < |L| ==> FaultAt(L, i) == None) && !Inside(L, |L|)
  }

  datatype Verdict = Accepted | Rejected(line: nat, fault: Fault)

  /** `lint`: the first line with a fault, or the end of the file inside a region. */
  method Lint(chunks: seq<string>) returns (v: Verdict)
    ensures
      var L := Classified(Flatten(chunks));
      match v
      case Accepted => Clean(L)
      case Rejected(i, f) =>
        && i <= |L| && (forall k :: 0 <= k < i ==> FaultAt(L, k) == None)
        && (if i < |L| then FaultAt(L, i) == Some(f) else f == EndOfFileInside && Inside(L, |L|))
  {
    hide Inside;
    hide Classify;
    hide InstrFault;
    var lines := Flatten(chunks);
    InsideStart(Classified(lines));
    ghost var L := Classified(lines);
    var inside := false;
    for i := 0 to |lines|
      invariant inside == Inside(L, i)
      invariant forall k :: 0 <= k < i ==> FaultAt(L, k) == None
    {
      InsideStep(L, i);
      var line := Classify(lines[i]);
      match line
      case Enter =>
        if inside { return Rejected(i, EnterInside); }
        inside := true;
      case Leave =>
        if !inside { return Rejected(i, LeaveOutside); }
        inside := false;
      case FunctionEnd =>
        if inside { return Rejected(i, EndsInside); }
      case Instr(op, rest, ring) =>
        if inside {
          var fault := InstrFault(op, rest, ring);
          if fault != None { return Rejected(i, fault.value); }
        }
      case _ =>
    }
    if inside { return Rejected(|lines|, EndOfFileInside); }
    return Accepted;
  }

  /** Between an enter and the end there is a leave before the next enter and before the function ends. */
  lemma RegionsAlternate(L: seq<Line>, j: nat) returns (k: nat)
    requires Clean(L) && j < |L| && L[j] == Enter
    ensures j < k < |L| && L[k] == Leave
    ensures forall m :: j < m < k ==> L[m] != Enter && L[m] != Leave && L[m] != FunctionEnd
    ensures forall m :: j < m <= k ==> Inside(L, m)
    ensures !Inside(L, j) && !Inside(L, k + 1)
  {
    k := j + 1;
    InsideStep(L, j);
    while k < |L| && L[k] != Leave
      invariant j < k <= |L| && Inside(L, k)
      invariant forall m :: j < m < k ==> L[m] != Enter && L[m] != Leave && L[m] != FunctionEnd
      invariant forall m :: j < m <= k ==> Inside(L, m)
    {
      assert FaultAt(L, k) == None;
      InsideStep(L, k);
      k := k + 1;
    }
    InsideStep(L, k);
    assert FaultAt(L, j) == None;
  }

  /** No leave without its enter: every leave closes a region that a unique enter opened. */
  lemma LeavesMatch(L: seq<Line>, k: nat) returns (j: nat)
    requires Clean(L) && k < |L| && L[k] == Leave
    ensures j < k && L[j] == Enter && forall m :: j < m < k ==> L[m] != Leave && L[m] != Enter && L[m] != FunctionEnd
  {
    assert FaultAt(L, k) == None;
    j :| 0 <= j < k && L[j] == Enter && forall m :: j < m < k ==> L[m] != Leave;
    var e := RegionsAlternate(L, j);
  }

  /** A function that ends between the marks is reported, at the line that ends it. */
  lemma EndInside(text: string)
    requires SizeLine(text)
    ensures
      var L := Classified(["    @ shortvec: enter", text, "    @ shortvec: leave"]);
      FaultAt(L, 0) == None && FaultAt(L, 1) == Some(EndsInside) && !Clean(L)
  {
    hide Classify;
    SizeLineIff(text);
    EnterMarked();
    var L := Classified(["    @ shortvec: enter", text, "    @ shortvec: leave"]);
    hide Inside;
    InsideStart(L);
    InsideStep(L, 0);
  }

  lemma EnterMarked()
    ensures Classify("    @ shortvec: enter") == Enter
  {
    var m := "@ shortvec: enter";
    assert "    @ shortvec: enter" == "    " + m;
    StripIndent(m);
    assert Strip("    @ shortvec: enter") == ENTER_MARK;
  }

  /** As the generators write it. */
  lemma SizeOfF()
    ensures SizeLine("    .size f, .-f")
  {
    var g := " ";
    assert AllSpace("    ") && AllSpace(g) && IsWord('f');
    hide AllSpace;
    hide IsWord;
    assert "    .size f, .-f" == "    " + ".size" + g + "f, .-f";
    assert SizeParts("    .size f, .-f", "    ", g, "f, .-f");
  }
}
