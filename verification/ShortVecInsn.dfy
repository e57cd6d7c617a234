/**
 The instructions a short-vector region must not hold, defined by what they do (ARM Architecture Reference Manual, DDI
 0100I), and the spellings of them that the checker recognises. Meaning and text are given apart: `Unsafe` never looks
 at a spelling.
 */
module ShortVecInsn {
  import opened ShortVecText
  import opened ShortVec
  import opened ShortVecTokens
  import opened ShortVecMode

  /** The condition suffixes an instruction may carry. */
  const CONDITIONS: set<string> :=
    {"", "eq", "ne", "cs", "hs", "cc", "lo", "mi", "pl", "vs", "vc", "hi", "ls", "ge", "lt", "gt", "le", "al"}

  const WIDTHS: set<string> := {"", ".n", ".w"}

  const EXIT_STEMS: set<string> := {"bl", "blx", "bx", "bxj", "svc", "swi"}

  const DEST_STEMS: set<string> :=
    {"mov", "mvn", "add", "adc", "sub", "sbc", "rsb", "rsc", "and", "orr", "eor", "bic", "ldr", "lsl", "lsr", "asr",
     "ror", "rrx", "cpy", "neg", "adr"}

  /** The core registers by number and by role. */
  const CORE_NAMES: set<string> :=
    {"r0", "r1", "r2", "r3", "r4", "r5", "r6", "r7", "r8", "r9", "r10", "r11", "r12", "r13", "r14", "r15", "a1", "a2",
     "a3", "a4", "v1", "v2", "v3", "v4", "v5", "v6", "v7", "v8", "sb", "sl", "fp", "ip", "sp", "lr", "pc"}

  const LDM_MODES: set<string> := {"", "ia", "ib", "da", "db", "fd", "fa", "ed", "ea"}

  /** The vector operations' names before the unified syntax. */
  const OLD_STEMS: map<string, string> :=
    map["vadd" := "fadd", "vsub" := "fsub", "vmul" := "fmul", "vnmul" := "fnmul", "vmla" := "fmac", "vmls" := "fnmac",
        "vnmla" := "fnmsc", "vnmls" := "fmsc", "vdiv" := "fdiv", "vmov" := "fcpy", "vabs" := "fabs", "vneg" := "fneg",
        "vsqrt" := "fsqrt"]

  /** A member of a register list: one register, or all from lo up to hi. */
  datatype Elem = One(name: string) | Range(lo: string, hi: string)

  /** A VFP register and the case it is written in. */
  datatype Reg = Reg(number: nat, upper: bool)

  /** The three ways to write the FPSCR: vmsr, its older name fmxr, and the coprocessor move both stand for. */
  datatype Form = ByVmsr | ByFmxr | ByMcr

  /** Operands the meaning does not look into are kept as tokens. */
  datatype Insn =
    | Exit(stem: string, cc: string, width: string, target: seq<string>)
    | Jump(cc: string, width: string, target: seq<string>)
    | Dest(stem: string, tail: string, rd: string, more: seq<string>)
    | LoadList(pop: bool, tail: string, base: string, writeback: bool, elems: seq<Elem>)
    | SetFpscr(form: Form, cc: string, name: string, rest: seq<string>)
    | Vector(op: string, cc: string, prior: bool, double: bool, typed: bool, regs: seq<Reg>, ring: bool)

  // --- what an instruction does ---

  /** r15, by either of its names and in either case. */
  predicate IsPc(name: string) { Lower(name) == "pc" || Lower(name) == "r15" }

  /** A numbered label and a direction: a loop of the kernel's own. */
  predicate IsLocalLabel(t: string)
  {
    |t| > 1 && AllDigits(t[..|t| - 1]) && (t[|t| - 1] == 'b' || t[|t| - 1] == 'f')
  }

  /** Calls, returns, supervisor calls, and branches to a name. */
  predicate LeavesFunction(c: Insn) { c.Exit? || (c.Jump? && !(|c.target| == 1 && IsLocalLabel(c.target[0]))) }

  /** r15 is the highest register, so a range loads it if and only if it ends there. */
  predicate LoadsPc(e: Elem)
  {
    match e
    case One(name) => IsPc(name)
    case Range(lo, hi) => IsPc(hi)
  }

  predicate WritesPcRegister(c: Insn)
  {
    || (c.Dest? && IsPc(c.rd))
    || (c.LoadList? && exists i :: 0 <= i < |c.elems| && LoadsPc(c.elems[i]))
  }

  function RegNumbers(regs: seq<Reg>): (n: seq<nat>)
    ensures |n| == |regs| && forall i :: 0 <= i < |n| ==> n[i] == regs[i].number
  {
    seq(|regs|, i requires 0 <= i < |regs| => regs[i].number)
  }

  /** A double-precision operation, or a vector that is not four consecutive registers where no ring is meant. */
  predicate MisusesVectors(c: Insn) { c.Vector? && (c.double || !OperandsSafe(RegNumbers(c.regs), c.ring)) }

  /** What may not happen while LEN is not 1. */
  predicate Unsafe(c: Insn) { LeavesFunction(c) || WritesPcRegister(c) || c.SetFpscr? || MisusesVectors(c) }

  /** A list loads pc if and only if one of its names is pc or r15: a range that starts there is no list. */
  lemma {:induction false} ListLoads(elems: seq<Elem>)
    requires forall i :: 0 <= i < |elems| ==> ElemOk(elems[i])
    ensures (exists i :: 0 <= i < |elems| && LoadsPc(elems[i])) <==>
      exists t :: t in ListTokens(elems) && (Lower(t) == "pc" || Lower(t) == "r15")
  {
    hide ElemOk;
    hide LoadsPc;
    hide ElemTokens;
    hide Lower;
    if elems != [] {
      var rest := elems[1..];
      ListLoads(rest);
      ElemLoads(elems[0]);
      assert forall i :: 0 < i < |elems| ==> elems[i] == rest[i - 1];
      if exists i :: 0 <= i < |elems| && LoadsPc(elems[i]) {
        var i :| 0 <= i < |elems| && LoadsPc(elems[i]);
        assert i > 0 ==> LoadsPc(rest[i - 1]);
      }
      CommaName();
    }
  }

  lemma CommaName()
    ensures Lower(",") != "pc" && Lower(",") != "r15" && Lower("-") != "pc" && Lower("-") != "r15"
  {
    LowerSame(",");
    LowerSame("-");
    assert ","[0] != 'p' && ","[0] != 'r' && "-"[0] != 'p' && "-"[0] != 'r';
  }

  lemma ElemLoads(e: Elem)
    requires ElemOk(e)
    ensures LoadsPc(e) <==> exists t :: t in ElemTokens(e) && (Lower(t) == "pc" || Lower(t) == "r15")
  {
    hide CORE_NAMES;
    CommaName();
    match e
    case One(name) => assert name in ElemTokens(e);
    case Range(lo, hi) => assert hi in ElemTokens(e);
  }

  /** A branch to a numbered label is a loop of the kernel's own; one to a name is not. */
  lemma LocalBranch(n: nat, back: bool, cc: string, width: string, name: string)
    requires IsName(name) && (!IsDigit(name[0]) || (name[|name| - 1] != 'b' && name[|name| - 1] != 'f'))
    ensures !Unsafe(Jump(cc, width, [Decimal(n) + if back then "b" else "f"])) && Unsafe(Jump(cc, width, [name]))
  {
    if |name| > 1 && !IsDigit(name[0]) { assert name[..|name| - 1][0] == name[0]; }
    var t := Decimal(n) + if back then "b" else "f";
    assert t[..|t| - 1] == Decimal(n);
    assert [name][0] == name;
  }

  // --- how it is written ---

  predicate IsName(t: string) { t != "" && AllWord(t) }

  predicate DestTail(t: string)
  {
    || t in CONDITIONS
    || (t != "" && t[0] == 's' && t[1..] in CONDITIONS)
    || (t != "" && t[|t| - 1] == 's' && t[..|t| - 1] in CONDITIONS)
  }

  predicate ListTail(t: string)
  {
    exists i :: 0 <= i <= |t| &&
      ((t[..i] in LDM_MODES && t[i..] in CONDITIONS) || (t[..i] in CONDITIONS && t[i..] in LDM_MODES))
  }

  /** A core register by its own name, in any case; names that a listing defines itself are no part of this. */
  predicate CoreName(t: string) { Lower(t) in CORE_NAMES }

  /** What ends a statement, makes a label, or starts a string or a comment. */
  const BREAKS: set<string> := {";", ":", "/", "\"", "'"}

  predicate TokenOk(t: string) { IsToken(t) && t !in BREAKS }

  /** A block load carries its mode and its condition in either order. */
  lemma ModeAndCondition(mode: string, cc: string)
    requires mode in LDM_MODES && cc in CONDITIONS
    ensures ListTail(mode + cc) && ListTail(cc + mode)
  {
    hide LDM_MODES;
    hide CONDITIONS;
    var t, u := mode + cc, cc + mode;
    assert t[..|mode|] == mode && t[|mode|..] == cc && u[..|cc|] == cc && u[|cc|..] == mode;
  }

  predicate OperandsOk(t: seq<string>) { forall i :: 0 <= i < |t| ==> TokenOk(t[i]) }

  predicate TargetOk(t: seq<string>) { t != [] && "," !in t && OperandsOk(t) }

  predicate ElemOk(e: Elem)
  {
    match e
    case One(name) => CoreName(name)
    case Range(lo, hi) => CoreName(lo) && CoreName(hi) && !IsPc(lo)
  }

  function Unhashed(t: seq<string>): seq<string> { if t != [] && t[0] == "#" then t[1..] else t }

  /** `7, <source>, c1, c0` and optionally `, 0`: the coprocessor move to the FPSCR after its `p10,`. */
  predicate McrRest(t: seq<string>)
  {
    var u := Unhashed(t);
    && |u| >= 7 && u[0] == "7" && u[1] == "," && IsName(u[2]) && u[3] == "," && Lower(u[4]) in {"c1", "cr1"}
    && u[5] == "," && Lower(u[6]) in {"c0", "cr0"}
    && (u[7..] == [] || u[7..] == [",", "0"] || u[7..] == [",", "#", "0"])
  }

  predicate WellFormed(c: Insn)
  {
    match c
    case Exit(stem, cc, width, target) => stem in EXIT_STEMS && cc in CONDITIONS && width in WIDTHS && TargetOk(target)
    case Jump(cc, width, target) => cc in CONDITIONS && width in WIDTHS && TargetOk(target) && target != ["pc"]
    case Dest(stem, tail, rd, more) => stem in DEST_STEMS && DestTail(tail) && CoreName(rd) && OperandsOk(more)
    case LoadList(pop, tail, base, writeback, elems) =>
      && (if pop then tail in CONDITIONS else ListTail(tail) && CoreName(base) && !IsPc(base))
      && elems != [] && forall i :: 0 <= i < |elems| ==> ElemOk(elems[i])
    case SetFpscr(form, cc, name, rest) =>
      && cc in CONDITIONS
      && if form == ByMcr then Lower(name) == "p10" && McrRest(rest)
         else Lower(name) == "fpscr" && |rest| == 1 && IsName(rest[0])
    case Vector(op, cc, prior, double, typed, regs, ring) =>
      && op in OLD_STEMS && cc in CONDITIONS && regs != [] && (ring && !double ==> |regs| == 3)
  }

  /** The mnemonic in lower case. */
  function MnemonicOf(c: Insn): string
    requires WellFormed(c)
  {
    match c
    case Exit(stem, cc, width, target) => stem + cc + width
    case Jump(cc, width, target) => "b" + cc + width
    case Dest(stem, tail, rd, more) => stem + tail
    case LoadList(pop, tail, base, writeback, elems) => (if pop then "pop" else "ldm") + tail
    case SetFpscr(form, cc, name, rest) =>
      (match form case ByVmsr => "vmsr" case ByFmxr => "fmxr" case ByMcr => "mcr") + cc
    case Vector(op, cc, prior, double, typed, regs, ring) =>
      if prior then OLD_STEMS[op] + (if double then "d" else "s") + cc
      else op + cc + (if !typed then "" else if double then ".f64" else ".f32")
  }

  function ElemTokens(e: Elem): seq<string>
  {
    match e
    case One(name) => [name]
    case Range(lo, hi) => [lo, "-", hi]
  }

  function ListTokens(elems: seq<Elem>): seq<string>
  {
    if elems == [] then []
    else ElemTokens(elems[0]) + (if |elems| == 1 then [] else [","]) + ListTokens(elems[1..])
  }

  function RegSpelled(r: Reg, double: bool): string
  {
    (if double then if r.upper then "D" else "d" else if r.upper then "S" else "s") + Decimal(r.number)
  }

  function RegsSpelled(regs: seq<Reg>, double: bool): (t: seq<string>)
    ensures |t| == |regs| && forall i :: 0 <= i < |t| ==> t[i] == RegSpelled(regs[i], double)
  {
    seq(|regs|, i requires 0 <= i < |regs| => RegSpelled(regs[i], double))
  }

  function Braced(elems: seq<Elem>): seq<string> { ["{"] + ListTokens(elems) + ["}"] }

  /** The operands as tokens. */
  function OperandsOf(c: Insn): seq<string>
  {
    match c
    case Exit(stem, cc, width, target) => target
    case Jump(cc, width, target) => target
    case Dest(stem, tail, rd, more) => if more == [] then [rd] else [rd] + [","] + more
    case LoadList(pop, tail, base, writeback, elems) =>
      if pop then Braced(elems) else ([base] + if writeback then ["!"] else []) + [","] + Braced(elems)
    case SetFpscr(form, cc, name, rest) => [name] + [","] + rest
    case Vector(op, cc, prior, double, typed, regs, ring) => CommaJoin(RegsSpelled(regs, double))
  }

  /** A line without its comment. */
  function CodeOf(text: string): string { Strip(Before(Strip(text), '@')) }

  /** The line is marked as a ring, in its comment. */
  predicate Ring(text: string) { Contains(Strip(text), WRAP_MARK) }

  predicate IsSym(c: char) { IsWord(c) || c == '.' || c == '$' }

  /** The longest run of symbol characters at the start. */
  function Symbol(s: string): (w: string)
    ensures w <= s
  {
    if s == "" || !IsSym(s[0]) then "" else [s[0]] + Symbol(s[1..])
  }

  /** A statement after its labels: names or numbers, each with a colon. */
  function DropLabels(s: string): string
    decreases |s|
  {
    var w := Symbol(s);
    var r := StripLeft(s[|w|..]);
    if w != "" && r != "" && r[0] == ':' then DropLabels(StripLeft(r[1..])) else s
  }

  function Unlabelled(pieces: seq<string>): (t: seq<string>)
    ensures |t| == |pieces| && forall i :: 0 <= i < |t| ==> t[i] == DropLabels(Strip(pieces[i]))
  {
    seq(|pieces|, i requires 0 <= i < |pieces| => DropLabels(Strip(pieces[i])))
  }

  /** Code without strings and without comments of the other kinds, so that `;` and `@` in it are what they seem. */
  predicate Readable(code: string)
  {
    '"' !in code && '\'' !in code && '/' !in code && (code != "" ==> code[0] != '#')
  }

  /** The statements of a line; one that is not readable is taken as a whole. */
  function Statements(text: string): (t: seq<string>)
    ensures |t| >= 1
  {
    var code := CodeOf(text);
    if Readable(code) then Unlabelled(Split(code, ';')) else [Strip(text)]
  }

  /** The statement is the instruction: its mnemonic in any mixture of cases, its operands with any spacing. */
  ghost predicate Says(s: string, ring: bool, c: Insn)
  {
    var mn := FirstWord(s);
    && WellFormed(c) && Lower(mn) == MnemonicOf(c) && Tokens(s[|mn|..]) == OperandsOf(c)
    && (c.Vector? ==> c.ring == ring)
  }

  /** The line is one statement with no label before it. */
  predicate Plain(text: string)
  {
    var code := CodeOf(text);
    Statements(text) == [code] && code != "" && code[|code| - 1] != ':'
  }

  /** The line is the instruction and nothing else. */
  ghost predicate Spells(text: string, c: Insn) { Plain(text) && Says(CodeOf(text), Ring(text), c) }

  // --- statements of other instructions ---

  /** What the statements that are none of these instructions do. */
  datatype Other = Other(unsafe: string -> bool, writes: string -> bool)

  ghost predicate Modelled(s: string, ring: bool) { exists c :: Says(s, ring, c) }

  /** A statement outside the model that leaves the function, writes pc, misuses vectors, or writes the FPSCR. */
  ghost predicate OtherUnsafe(o: Other, s: string, ring: bool)
  {
    s != "" && !Modelled(s, ring) && (o.unsafe(s) || o.writes(s))
  }

  ghost predicate UnsafeBy(o: Other, s: string, ring: bool)
  {
    (exists c :: Says(s, ring, c) && Unsafe(c)) || OtherUnsafe(o, s, ring)
  }

  /** The statement writes the FPSCR, by whatever name and on whatever condition. */
  ghost predicate WritesBy(o: Other, s: string, ring: bool)
  {
    (exists c :: Says(s, ring, c) && c.SetFpscr?) || (s != "" && !Modelled(s, ring) && o.writes(s))
  }

  lemma WriteIsUnsafe(o: Other, s: string, ring: bool)
    requires WritesBy(o, s, ring)
    ensures UnsafeBy(o, s, ring)
  {
    hide Says;
    if exists c :: Says(s, ring, c) && c.SetFpscr? {
      var c :| Says(s, ring, c) && c.SetFpscr?;
      assert Unsafe(c);
    }
  }

  // --- which spellings the checker knows ---

  predicate Seen(c: Insn)
  {
    match c
    case Exit(stem, cc, width, target) => stem != "bxj" || target == ["pc"]
    case Jump(cc, width, target) => false
    case Dest(stem, tail, rd, more) => rd == "pc"
    case LoadList(pop, tail, base, writeback, elems) =>
      exists i :: 0 <= i < |elems| && (elems[i] == One("pc") || (elems[i].Range? && elems[i].hi == "pc"))
    case SetFpscr(form, cc, name, rest) => form == ByVmsr && cc == ""
    case Vector(op, cc, prior, double, typed, regs, ring) =>
      !prior && cc == "" && if double then typed else forall i :: 0 <= i < |regs| ==> !regs[i].upper
  }

  /** The checker reports the instruction, its operands being rest. */
  predicate Reported(c: Insn, rest: string, ring: bool)
    requires WellFormed(c)
  {
    InstrFault(MnemonicOf(c), rest, ring) != None
  }

  /** An operand text the instruction may have. */
  predicate Fits(c: Insn, rest: string, ring: bool)
  {
    Tokens(rest) == OperandsOf(c) && Tidy(rest) && (c.Vector? ==> c.ring == ring)
  }

  lemma ConditionShape(cc: string)
    requires cc in CONDITIONS
    ensures cc == "" || (|cc| == 2 && IsLower(cc[0]) && IsLower(cc[1]))
  {
  }

  lemma NotVector(op: string)
    requires op != "" && op[0] != 'v' && op[0] != '.'
    ensures Before(op, '.') !in VECTOR_OPS
  {
    hide VECTOR_OPS;
    var b := Before(op, '.');
    if b in VECTOR_OPS { VectorOpsPlain(b); assert false; }
  }

  /** An instruction of the core, or of the old names: only the two textual tests can report it. */
  lemma CoreFault(op: string, rest: string, ring: bool)
    requires op != "" && op[0] != 'v' && op[0] != '.'
    ensures InstrFault(op, rest, ring) != None <==> Exits(op) || PcWritten(op, rest)
  {
    hide Exits;
    hide PcWritten;
    hide VECTOR_OPS;
    NotVector(op);
  }

  lemma ExitTailForms(cc: string, width: string)
    requires cc in CONDITIONS && width in WIDTHS
    ensures ExitTail(cc + width) && !ExitTail("j" + cc + width)
  {
    hide CONDITIONS;
    ConditionShape(cc);
    var t, u := cc + width, "j" + cc + width;
    assert width == "" || (|width| == 2 && width[0] == '.' && IsLower(width[1]));
    if cc == "" {
      assert t == width;
      assert u[1..] == width;
    } else {
      assert t[2..] == width;
      assert u[2..] == [cc[1]] + width;
    }
  }

  /** The first two letters tell the exits apart from everything else. */
  lemma OtherHeads(op: string)
    requires op != "" && op[0] != 's'
    ensures |op| > 1 && op[1] != 'l' ==> !ExitAs(op, "bl") && !ExitAs(op, "blx")
    ensures |op| > 1 && op[1] != 'x' ==> !ExitAs(op, "bx")
    ensures |op| == 1 ==> !Exits(op)
    ensures !ExitAs(op, "svc") && !ExitAs(op, "swi")
  {
    hide ExitTail;
    assert "bl"[1] == 'l' && "blx"[1] == 'l' && "bx"[1] == 'x' && "svc"[0] == 's' && "swi"[0] == 's';
  }

  lemma ExitStem(stem: string, cc: string, width: string)
    requires stem in EXIT_STEMS && cc in CONDITIONS && width in WIDTHS
    ensures Exits(stem + cc + width) <==> stem != "bxj"
  {
    hide ExitTail;
    hide CONDITIONS;
    hide WIDTHS;
    var op := stem + cc + width;
    ExitTailForms(cc, width);
    assert op == stem + (cc + width);
    if stem == "bxj" {
      assert op[2..] == "j" + cc + width;
      assert op[0] == 'b' && op[1] == 'x';
      OtherHeads(op);
    } else {
      assert op[|stem|..] == cc + width;
      assert ExitAs(op, stem);
    }
  }

  lemma ExitReported(c: Insn, rest: string, ring: bool)
    requires c.Exit? && WellFormed(c) && Fits(c, rest, ring)
    ensures Reported(c, rest, ring) <==> Seen(c)
  {
    hide Exits;
    hide CONDITIONS;
    hide WIDTHS;
    hide Operands;
    hide InstrFault;
    hide Tokens;
    var op := MnemonicOf(c);
    ExitStem(c.stem, c.cc, c.width);
    assert op[0] == c.stem[0] && (c.stem[0] == 'b' || c.stem[0] == 's');
    CoreFault(op, rest, ring);
    FirstOperandTokens(rest, c.target, []);
    assert c.stem == "bxj" ==> !StartsWith(op, "pop") && !StartsWith(op, "ldm");
  }

  lemma JumpTails(cc: string, width: string)
    requires cc in CONDITIONS && width in WIDTHS
    ensures !Exits("b" + cc + width)
  {
    hide CONDITIONS;
    ConditionShapeL(cc);
    var op := "b" + cc + width;
    assert width == "" || (|width| == 2 && width[0] == '.' && IsLower(width[1]));
    OtherHeads(op);
    if cc == "" {
      assert op == "b" + width;
    } else {
      assert op[1] == cc[0] && op[2] == cc[1] && op[3..] == width;
      var t := op[2..];
      assert t == [cc[1]] + width;
      assert "blx"[2] == 'x';
    }
  }

  lemma ConditionShapeL(cc: string)
    requires cc in CONDITIONS
    ensures cc == ""
      || (|cc| == 2 && IsLower(cc[0]) && IsLower(cc[1]) && cc[0] != 'x' && (cc[0] == 'l' ==> cc[1] != 'x'))
  {
  }

  lemma JumpReported(c: Insn, rest: string, ring: bool)
    requires c.Jump? && WellFormed(c) && Fits(c, rest, ring)
    ensures !Reported(c, rest, ring)
  {
    hide Exits;
    hide CONDITIONS;
    hide WIDTHS;
    hide Operands;
    hide InstrFault;
    var op := MnemonicOf(c);
    JumpTails(c.cc, c.width);
    CoreFault(op, rest, ring);
    FirstOperandTokens(rest, c.target, []);
    assert op[0] == 'b' && !StartsWith(op, "pop") && !StartsWith(op, "ldm");
  }

  lemma DestStem(stem: string, tail: string)
    requires stem in DEST_STEMS
    ensures var op := stem + tail;
      op != "" && op[0] != 'v' && op[0] != '.' && !Exits(op) && !StartsWith(op, "pop") && !StartsWith(op, "ldm")
  {
    var op := stem + tail;
    assert |stem| == 3 && op[0] == stem[0] && op[1] == stem[1] && op[2] == stem[2];
    assert stem[0] == 's' ==> stem[1] == 'u' || stem[1] == 'b';
    assert stem[0] == 'b' ==> stem[1] == 'i';
    assert stem[0] == 'l' ==> stem[1] != 'd' || stem[2] == 'r';
    assert stem[0] != 'p';
  }

  lemma DestReported(c: Insn, rest: string, ring: bool)
    requires c.Dest? && WellFormed(c) && Fits(c, rest, ring)
    ensures Reported(c, rest, ring) <==> c.rd == "pc"
  {
    hide Exits;
    hide DEST_STEMS;
    hide DestTail;
    hide CORE_NAMES;
    hide Operands;
    hide InstrFault;
    hide Tokens;
    var op := MnemonicOf(c);
    DestStem(c.stem, c.tail);
    CoreIsName(c.rd);
    CoreFault(op, rest, ring);
    assert !IsWord(","[0]) && c.rd != ",";
    FirstOperandTokens(rest, [c.rd], c.more);
    assert [c.rd][0] == c.rd && ["pc"][0] == "pc";
  }

  // --- pc in a register list ---

  predicate LoadsSpelledPc(e: Elem) { e == One("pc") || (e.Range? && e.hi == "pc") }

  lemma ElemPc(e: Elem)
    requires ElemOk(e)
    ensures "pc" in ElemTokens(e) <==> LoadsSpelledPc(e)
  {
    LowerSame("pc");
  }

  lemma {:induction false} ListPc(elems: seq<Elem>)
    requires forall i :: 0 <= i < |elems| ==> ElemOk(elems[i])
    ensures "pc" in ListTokens(elems) <==> exists i :: 0 <= i < |elems| && LoadsSpelledPc(elems[i])
  {
    hide ElemOk;
    hide ElemTokens;
    hide LoadsSpelledPc;
    if elems != [] {
      ElemPc(elems[0]);
      ListPc(elems[1..]);
      assert forall i :: 0 < i < |elems| ==> elems[i] == elems[1..][i - 1];
      if exists i :: 0 <= i < |elems| && LoadsSpelledPc(elems[i]) {
        var i :| 0 <= i < |elems| && LoadsSpelledPc(elems[i]);
        assert i > 0 ==> LoadsSpelledPc(elems[1..][i - 1]);
      }
    }
  }

  lemma BracedPc(elems: seq<Elem>)
    requires forall i :: 0 <= i < |elems| ==> ElemOk(elems[i])
    ensures "pc" in Braced(elems) <==> exists i :: 0 <= i < |elems| && LoadsSpelledPc(elems[i])
  {
    ListPc(elems);
  }

  lemma ListStem(c: Insn)
    requires c.LoadList? && WellFormed(c)
    ensures var op := MnemonicOf(c);
      op != "" && op[0] != 'v' && op[0] != '.' && !Exits(op) && (StartsWith(op, "pop") || StartsWith(op, "ldm"))
  {
    hide CONDITIONS;
    hide ListTail;
    hide ElemOk;
    var op := MnemonicOf(c);
    assert op[0] == (if c.pop then 'p' else 'l') && op[1] == if c.pop then 'o' else 'd';
    assert StartsWith(op, if c.pop then "pop" else "ldm");
    hide StartsWith;
    NoListExit(op);
  }

  lemma NoListExit(op: string)
    requires op != "" && (op[0] == 'p' || op[0] == 'l')
    ensures !Exits(op)
  {
  }

  lemma FirstOfBraces(elems: seq<Elem>, rest: string)
    requires Tokens(rest) == Braced(elems)
    ensures Operands(rest) == [] || Operands(rest)[0] != "pc"
  {
    hide Tokens;
    hide Operands;
    hide ListTokens;
    var t := Braced(elems);
    if "," in t {
      var k := FirstComma(t);
      assert t == t[..k] + [","] + t[k + 1..] && t[..k][0] == "{";
      FirstOperandTokens(rest, t[..k], t[k + 1..]);
    } else {
      FirstOperandTokens(rest, t, []);
    }
  }

  lemma FirstOfBase(base: string, writeback: bool, list: seq<string>, rest: string)
    requires CoreName(base) && !IsPc(base)
    requires Tokens(rest) == ([base] + if writeback then ["!"] else []) + [","] + list
    ensures Operands(rest) == [] || Operands(rest)[0] != "pc"
  {
    hide Tokens;
    hide Operands;
    hide CORE_NAMES;
    CoreIsName(base);
    var a := [base] + if writeback then ["!"] else [];
    NameIsToken(base);
    FirstOperandTokens(rest, a, list);
    assert a[0] == base;
    LowerSame("pc");
  }

  lemma ListReported(c: Insn, rest: string, ring: bool)
    requires c.LoadList? && WellFormed(c) && Fits(c, rest, ring)
    ensures Reported(c, rest, ring) <==> exists i :: 0 <= i < |c.elems| && LoadsSpelledPc(c.elems[i])
  {
    hide MentionsPc;
    hide Operands;
    hide InstrFault;
    hide CONDITIONS;
    hide ListTail;
    hide ElemOk;
    hide Braced;
    hide Exits;
    hide Tokens;
    hide LoadsSpelledPc;
    ListStem(c);
    CoreFault(MnemonicOf(c), rest, ring);
    if c.pop { FirstOfBraces(c.elems, rest); } else { FirstOfBase(c.base, c.writeback, Braced(c.elems), rest); }
    MentionsToken(rest);
    BracedPc(c.elems);
    LowerSame("pc");
    assert ["!"][0] != "pc";
  }

  // --- the FPSCR ---

  lemma LowerNotPc(name: string)
    requires Lower(name) == "fpscr" || Lower(name) == "p10"
    ensures name != "pc" && name != ","
  {
    LowerChars(name);
  }

  lemma WriteReported(c: Insn, rest: string, ring: bool)
    requires c.SetFpscr? && WellFormed(c) && Fits(c, rest, ring)
    ensures Reported(c, rest, ring) <==> Seen(c)
  {
    hide Operands;
    hide Exits;
    hide CONDITIONS;
    hide Tokens;
    var op := MnemonicOf(c);
    ConditionShape(c.cc);
    LowerNotPc(c.name);
    assert [c.name][0] == c.name && ["pc"][0] == "pc";
    FirstOperandTokens(rest, [c.name], c.rest);
    if c.form == ByVmsr {
      assert op == "vmsr" + c.cc;
      VmsrReported(c.cc, rest, ring);
    } else {
      assert op[0] == (if c.form == ByFmxr then 'f' else 'm');
      NoWriteExit(op);
      CoreFault(op, rest, ring);
    }
  }

  lemma NoWriteExit(op: string)
    requires op != "" && (op[0] == 'f' || op[0] == 'm')
    ensures !Exits(op) && !StartsWith(op, "pop") && !StartsWith(op, "ldm")
  {
  }

  lemma VmsrReported(cc: string, rest: string, ring: bool)
    requires (cc == "" || (|cc| == 2 && IsLower(cc[0]) && IsLower(cc[1])))
    requires Operands(rest) != [] && Operands(rest)[0] != "pc"
    ensures InstrFault("vmsr" + cc, rest, ring) != None <==> cc == ""
  {
    hide CheckVector;
    hide Operands;
    hide Exits;
    hide PcWritten;
    hide VECTOR_OPS;
    var op := "vmsr" + cc;
    assert op[0] == 'v' && op[1] == 'm' && op[2] == 's';
    assert '.' !in op;
    BeforeNone(op, '.');
    NotAVectorOp(op);
    NotExit(op, rest);
    if cc != "" { assert op[4] == cc[0]; }
  }

  lemma NotAVectorOp(op: string)
    requires |op| >= 4 && op[1] == 'm' && op[2] == 's'
    ensures op !in VECTOR_OPS
  {
  }

  // --- vector operations ---

  lemma RegToken(r: Reg, double: bool)
    ensures var t := RegSpelled(r, double); t != "," && t != "pc" && t != ""
    ensures RegSpelled(r, double)[0] == 's' <==> !double && !r.upper
    ensures !double && !r.upper ==> RegSpelled(r, double) == RegName(r.number)
  {
    assert RegSpelled(r, double)[0] != 'p' && RegSpelled(r, double)[0] != ',';
  }

  lemma RegsRead(regs: seq<Reg>, double: bool, rest: string)
    requires regs != [] && Tidy(rest) && Tokens(rest) == CommaJoin(RegsSpelled(regs, double))
    ensures var t := RegsSpelled(regs, double);
      Operands(rest) == t && t[0] != "pc" && rest != "" && rest[0] == t[0][0]
  {
    hide Operands;
    hide Tokens;
    hide RegSpelled;
    var t := RegsSpelled(regs, double);
    forall i | 0 <= i < |t| ensures t[i] != "," {
      RegToken(regs[i], double);
    }
    SingleOperands(rest, t);
    RegToken(regs[0], double);
    TidyTokens(rest);
    assert CommaJoin(t)[0] == t[0];
  }

  /** All in lower case and single precision, or not all read as single-precision registers. */
  lemma RegsAreS(regs: seq<Reg>, double: bool)
    requires regs != []
    ensures var t := RegsSpelled(regs, double); var low := !double && forall i :: 0 <= i < |regs| ==> !regs[i].upper;
      && AllSRegs(t) == low && (low ==> Numbers(t) == RegNumbers(regs))
  {
    var t, n := RegsSpelled(regs, double), RegNumbers(regs);
    var low := !double && forall i :: 0 <= i < |regs| ==> !regs[i].upper;
    if low {
      RegTextsRead(n);
      forall i | 0 <= i < |t| ensures t[i] == RegTexts(n)[i] { RegToken(regs[i], double); }
      assert t == RegTexts(n);
    } else {
      var k :| 0 <= k < |regs| && (double || regs[k].upper);
      RegToken(regs[k], double);
      assert !IsSReg(t[k]);
    }
  }

  lemma VectorBase(op: string, cc: string, typed: bool, double: bool)
    requires op in VECTOR_OPS && (cc == "" || (|cc| == 2 && IsLower(cc[0]) && IsLower(cc[1])))
    ensures var m := op + cc + (if !typed then "" else if double then ".f64" else ".f32");
      && m != "" && m[0] == 'v' && m != "vmsr" && Before(m, '.') == op + cc
      && After(m, '.') == if !typed then "" else if double then "f64" else "f32"
    ensures op + cc in VECTOR_OPS <==> cc == ""
  {
    VectorOpsPlain(op);
    if cc != "" { LongerThanAny(op, cc); } else { assert op + cc == op; }
    hide VECTOR_OPS;
    var b := op + cc;
    var m := b + (if !typed then "" else if double then ".f64" else ".f32");
    assert '.' !in b;
    if typed {
      var dt := if double then "f64" else "f32";
      assert m == b + ['.'] + dt;
      BeforeAppend(b, '.', dt);
      assert m[|b|] == '.' && '.' !in "vmsr";
    } else {
      assert m == b;
      BeforeNone(b, '.');
      assert b != "vmsr" by { if cc == "" { assert b == op; } else { assert |b| > 4; } }
    }
  }

  lemma LongerThanAny(op: string, cc: string)
    requires op in VECTOR_OPS && |cc| == 2
    ensures op + cc !in VECTOR_OPS
  {
    assert 4 <= |op| <= 5;
    assert forall v :: v in VECTOR_OPS ==> |v| <= 5;
  }

  /** What the checker makes of the operands of an operation it knows. */
  lemma OperandsReported(regs: seq<Reg>, double: bool, rest: string, ring: bool)
    requires regs != [] && (ring && !double ==> |regs| == 3)
    requires Tidy(rest) && Tokens(rest) == CommaJoin(RegsSpelled(regs, double))
    ensures var low := !double && forall i :: 0 <= i < |regs| ==> !regs[i].upper;
      && (low ==> StartsWith(rest, "s")) && (double ==> !StartsWith(rest, "s"))
      && (CheckVector(Operands(rest), ring) != None <==> low && !OperandsSafe(RegNumbers(regs), ring))
  {
    hide Operands;
    hide Tokens;
    hide NumbersFault;
    hide OperandsSafe;
    hide RegSpelled;
    hide IsSReg;
    RegsRead(regs, double, rest);
    RegsAreS(regs, double);
    RegToken(regs[0], double);
    assert StartsWith(rest, "s") <==> rest[0] == 's';
    if !double { NumbersFaultIff(RegNumbers(regs), ring); }
  }

  lemma VectorReported(c: Insn, rest: string, ring: bool)
    requires c.Vector? && WellFormed(c) && Fits(c, rest, ring)
    ensures Reported(c, rest, ring) <==> MisusesVectors(c) && Seen(c)
  {
    hide Operands;
    hide Exits;
    hide PcWritten;
    hide CONDITIONS;
    hide VECTOR_OPS;
    hide Tokens;
    hide CheckVector;
    hide OperandsSafe;
    hide OLD_STEMS;
    hide StartsWith;
    hide CommaJoin;
    var op := MnemonicOf(c);
    ConditionShape(c.cc);
    RegsRead(c.regs, c.double, rest);
    if c.prior {
      OldNames(c.op);
      assert op[0] == 'f';
      NotExit(op, rest);
      CoreFault(op, rest, ring);
    } else {
      OldNames(c.op);
      VectorBase(c.op, c.cc, c.typed, c.double);
      NotExit(op, rest);
      OperandsReported(c.regs, c.double, rest, ring);
    }
  }

  lemma OldNames(op: string)
    requires op in OLD_STEMS
    ensures OLD_STEMS[op] != "" && OLD_STEMS[op][0] == 'f' && op in VECTOR_OPS
  {
  }

  // --- the lines ---

  lemma ReportedIff(c: Insn, rest: string, ring: bool)
    requires WellFormed(c) && Fits(c, rest, ring)
    ensures Reported(c, rest, ring) <==> Unsafe(c) && Seen(c)
  {
    hide Reported;
    hide Fits;
    hide WellFormed;
    match c
    case Exit(_, _, _, _) => ExitReported(c, rest, ring);
    case Jump(_, _, _) => JumpReported(c, rest, ring);
    case Dest(_, _, _, _) =>
      DestReported(c, rest, ring);
      LowerSame("pc");
    case LoadList(_, _, _, _, elems) =>
      ListReported(c, rest, ring);
      LowerSame("pc");
    case SetFpscr(_, _, _, _) => WriteReported(c, rest, ring);
    case Vector(_, _, _, _, _, _, _) => VectorReported(c, rest, ring);
  }

  lemma MnemonicLetter(c: Insn)
    requires WellFormed(c)
    ensures MnemonicOf(c) != "" && IsLower(MnemonicOf(c)[0])
  {
    hide CONDITIONS;
    hide ListTail;
    hide DestTail;
    hide Lower;
    var m := MnemonicOf(c);
    match c
    case Exit(stem, cc, width, target) => assert m[0] == stem[0] && (stem[0] == 'b' || stem[0] == 's');
    case Jump(cc, width, target) => assert m[0] == 'b';
    case Dest(stem, tail, rd, more) => DestLetter(stem); assert m[0] == stem[0];
    case LoadList(pop, tail, base, writeback, elems) => assert m[0] == 'p' || m[0] == 'l';
    case SetFpscr(form, cc, name, rest) => assert m[0] == 'v' || m[0] == 'f' || m[0] == 'm';
    case Vector(op, cc, prior, double, typed, regs, ring) =>
      OldNames(op);
      VectorOpsPlain(op);
      assert m[0] == if prior then OLD_STEMS[op][0] else op[0];
  }

  lemma DestLetter(stem: string)
    requires stem in DEST_STEMS
    ensures stem != "" && IsLower(stem[0])
  {
  }

  /** How the checker reads a line that is an instruction. */
  lemma SpelledReads(text: string, c: Insn) returns (rest: string, ring: bool)
    requires Spells(text, c)
    ensures Classify(text) == Instr(MnemonicOf(c), rest, ring) && Fits(c, rest, ring)
  {
    hide Statements;
    hide Strip;
    hide Tokens;
    hide Contains;
    hide WellFormed;
    hide Lower;
    hide MnemonicOf;
    hide OperandsOf;
    var line, code := Strip(text), CodeOf(text);
    var mn := FirstWord(code);
    rest, ring := StripLeft(code[|mn|..]), Ring(text);
    MnemonicLetter(c);
    LowerChars(mn);
    CaseOnly(mn[0]);
    assert Lower(mn)[0] == LowerChar(mn[0]);
    assert code[0] == mn[0];
    LineShape(line, code);
    NoDirective(code, code);
    StripLeftTokens(code[|mn|..]);
    RestTidy(text, mn);
  }

  lemma LineShape(line: string, code: string)
    requires code == Strip(Before(line, '@')) && code != ""
    ensures !StartsWith(line, ENTER_MARK) && !StartsWith(line, LEAVE_MARK)
  {
    assert Before(line, '@') != "";
    assert ENTER_MARK[0] == '@' && LEAVE_MARK[0] == '@';
  }

  lemma RestTidy(text: string, mn: string)
    requires mn == FirstWord(CodeOf(text))
    ensures Tidy(StripLeft(CodeOf(text)[|mn|..])) && Tidy(Strip(text))
  {
    hide Strip;
    hide Tokens;
    StripTokens(text);
    StripTokens(Before(Strip(text), '@'));
    SuffixTidy(CodeOf(text), |mn|);
  }

  lemma SuffixTidy(code: string, k: nat)
    requires Tidy(code) && k <= |code|
    ensures Tidy(StripLeft(code[k..]))
  {
    hide Tokens;
    StripLeftTokens(code[k..]);
    SuffixOf(code[k..]);
  }

  lemma {:induction false} SuffixOf(s: string)
    ensures StripLeft(s) == "" || (s != "" && StripLeft(s)[|StripLeft(s)| - 1] == s[|s| - 1])
  {
    if s != "" && IsSpace(s[0]) { SuffixOf(s[1..]); }
  }

  /**
   The checker inside a region, line by line: it rejects a line that is an instruction if and only if the instruction
   is unsafe there and its spelling is one of those the checker knows.
   */
  lemma RejectedIff(text: string, c: Insn)
    requires Spells(text, c)
    ensures
      match Classify(text)
      case Instr(op, rest, ring) => InstrFault(op, rest, ring) != None <==> Unsafe(c) && Seen(c)
      case _ => false
  {
    hide Classify;
    hide InstrFault;
    hide Spells;
    hide Fits;
    hide Unsafe;
    hide Seen;
    hide MnemonicOf;
    var rest, ring := SpelledReads(text, c);
    assert WellFormed(c) by { SpelledOk(text, c); }
    hide WellFormed;
    ReportedIff(c, rest, ring);
  }

  lemma SpelledOk(text: string, c: Insn)
    requires Spells(text, c)
    ensures WellFormed(c)
  {
    hide WellFormed;
    hide Plain;
  }

  // --- every instruction can be written ---

  lemma {:induction false} ListIsTokens(elems: seq<Elem>)
    requires forall i :: 0 <= i < |elems| ==> ElemOk(elems[i])
    ensures OperandsOk(ListTokens(elems))
  {
    hide ElemOk;
    hide ElemTokens;
    hide TokenOk;
    if elems != [] {
      ListIsTokens(elems[1..]);
      ElemIsTokens(elems[0]);
      Punctuation();
    }
  }

  lemma ElemIsTokens(e: Elem)
    requires ElemOk(e)
    ensures OperandsOk(ElemTokens(e))
  {
    hide TokenOk;
    hide CoreName;
    Punctuation();
    match e
    case One(name) =>
      CoreIsName(name);
      NameIsToken(name);
    case Range(lo, hi) =>
      CoreIsName(lo);
      NameIsToken(lo);
      CoreIsName(hi);
      NameIsToken(hi);
  }

  lemma {:induction false} JoinIsTokens(names: seq<string>)
    requires OperandsOk(names)
    ensures OperandsOk(CommaJoin(names)) && (names != [] ==> CommaJoin(names) != [])
  {
    hide TokenOk;
    if |names| > 1 {
      JoinIsTokens(names[1..]);
      Punctuation();
    }
  }

  lemma RegIsToken(r: Reg, double: bool)
    ensures TokenOk(RegSpelled(r, double))
  {
    var t := RegSpelled(r, double);
    assert AllWord(t);
    NameIsToken(t);
  }

  lemma NameIsToken(t: string)
    requires IsName(t)
    ensures IsToken(t) && TokenOk(t) && t != ":" && t != ","
  {
    assert !IsWord(":"[0]) && !IsWord(","[0]) && !IsWord(";"[0]) && !IsWord("/"[0]) && !IsWord("\""[0])
        && !IsWord("'"[0]);
    assert IsWord(t[0]);
  }

  /** A name in any case that is letters and digits in lower case. */
  lemma LowerIsName(name: string)
    requires name != "" && forall i :: 0 <= i < |Lower(name)| ==> IsLower(Lower(name)[i]) || IsDigit(Lower(name)[i])
    ensures IsName(name)
  {
    LowerChars(name);
    forall i | 0 <= i < |name| ensures IsWord(name[i]) {
      CaseOnly(name[i]);
      assert Lower(name)[i] == LowerChar(name[i]);
    }
  }

  lemma CoreChars(t: string)
    requires t in CORE_NAMES
    ensures t != "" && forall i :: 0 <= i < |t| ==> IsLower(t[i]) || IsDigit(t[i])
  {
  }

  lemma CoreIsName(t: string)
    requires CoreName(t)
    ensures IsName(t)
  {
    hide CORE_NAMES;
    CoreChars(Lower(t));
    LowerIsName(t);
  }

  lemma NameOf(name: string)
    requires Lower(name) in {"fpscr", "p10", "c0", "c1", "cr0", "cr1"}
    ensures IsName(name) && TokenOk(name)
  {
    hide Lower;
    hide TokenOk;
    LowerIsName(name) by { assert Lower(name) != ""; LowerChars(name); }
    NameIsToken(name);
  }

  lemma ListOperands(c: Insn)
    requires WellFormed(c) && c.LoadList?
    ensures OperandsOf(c) != [] && OperandsOk(OperandsOf(c))
  {
    hide Lower;
    hide IsName;
    hide TokenOk;
    hide CoreName;
    hide ElemOk;
    hide ListTail;
    hide CONDITIONS;
    hide ListTokens;
    Punctuation();
    ListIsTokens(c.elems);
    if !c.pop {
      CoreIsName(c.base);
      NameIsToken(c.base);
    }
  }

  lemma VectorOperands(c: Insn)
    requires WellFormed(c) && c.Vector?
    ensures OperandsOf(c) != [] && OperandsOk(OperandsOf(c))
  {
    hide TokenOk;
    hide CommaJoin;
    var t := RegsSpelled(c.regs, c.double);
    forall i | 0 <= i < |t| ensures TokenOk(t[i]) { RegIsToken(c.regs[i], c.double); }
    JoinIsTokens(t);
  }

  lemma McrOperands(t: seq<string>)
    requires McrRest(t)
    ensures OperandsOk(t)
  {
    hide IsName;
    hide TokenOk;
    hide Lower;
    Punctuation();
    var u := Unhashed(t);
    NameIsToken(u[2]);
    NameOf(u[4]);
    NameOf(u[6]);
    assert u == u[..7] + u[7..];
    assert t == u || t == ["#"] + u;
  }

  lemma WriteOperands(c: Insn)
    requires WellFormed(c) && c.SetFpscr?
    ensures OperandsOf(c) != [] && OperandsOk(OperandsOf(c))
  {
    hide IsName;
    hide TokenOk;
    hide Lower;
    hide CONDITIONS;
    hide McrRest;
    Punctuation();
    NameOf(c.name);
    if c.form == ByMcr { McrOperands(c.rest); } else { NameIsToken(c.rest[0]); }
  }

  lemma OperandsAreTokens(c: Insn)
    requires WellFormed(c)
    ensures OperandsOf(c) != [] && OperandsOk(OperandsOf(c))
  {
    hide Lower;
    hide IsName;
    hide TokenOk;
    hide CoreName;
    hide CONDITIONS;
    match c
    case LoadList(_, _, _, _, _) => ListOperands(c);
    case Vector(_, _, _, _, _, _, _) => VectorOperands(c);
    case SetFpscr(_, _, _, _) => WriteOperands(c);
    case Exit(_, _, _, _) =>
    case Jump(_, _, _) =>
    case Dest(stem, tail, rd, more) =>
      CoreIsName(rd);
      NameIsToken(rd);
      Punctuation();
  }

  lemma Punctuation()
    ensures TokenOk(",") && TokenOk("{") && TokenOk("}") && TokenOk("!") && TokenOk("#") && TokenOk("-")
      && TokenOk("7") && TokenOk("0")
  {
    assert ","[0] == ',' && "{"[0] == '{' && "}"[0] == '}' && "!"[0] == '!' && "#"[0] == '#' && "-"[0] == '-'
        && "7"[0] == '7' && "0"[0] == '0' && ";"[0] == ';' && ":"[0] == ':' && "/"[0] == '/' && "\""[0] == '"'
        && "'"[0] == '\'';
  }

  /** The instruction as a line: its mnemonic in lower case and its operand tokens, spaces between them. */
  function Rendered(c: Insn): string
    requires WellFormed(c)
  {
    InsnLine(MnemonicOf(c), Spaced(OperandsOf(c)), c.Vector? && c.ring)
  }

  predicate LowerWord(t: string) { forall i :: 0 <= i < |t| ==> IsLower(t[i]) }

  lemma ConditionLower(cc: string)
    requires cc in CONDITIONS
    ensures LowerWord(cc)
  {
  }

  lemma TailLower(t: string)
    requires DestTail(t) || ListTail(t)
    ensures LowerWord(t)
  {
    hide CONDITIONS;
    hide LDM_MODES;
    if t in CONDITIONS {
      ConditionLower(t);
    } else if t != "" && t[0] == 's' && t[1..] in CONDITIONS {
      ConditionLower(t[1..]);
      assert t == [t[0]] + t[1..];
    } else if t != "" && t[|t| - 1] == 's' && t[..|t| - 1] in CONDITIONS {
      ConditionLower(t[..|t| - 1]);
    } else {
      var i :| 0 <= i <= |t| &&
        ((t[..i] in LDM_MODES && t[i..] in CONDITIONS) || (t[..i] in CONDITIONS && t[i..] in LDM_MODES));
      assert t == t[..i] + t[i..];
      PartsLower(t[..i], t[i..]);
    }
  }

  lemma PartsLower(a: string, b: string)
    requires (a in LDM_MODES && b in CONDITIONS) || (a in CONDITIONS && b in LDM_MODES)
    ensures LowerWord(a) && LowerWord(b)
  {
  }

  lemma ExitLower(stem: string)
    requires stem in EXIT_STEMS
    ensures LowerWord(stem)
  {
  }

  lemma DestLower(stem: string)
    requires stem in DEST_STEMS
    ensures LowerWord(stem)
  {
  }

  lemma OldLower(op: string)
    requires op in OLD_STEMS
    ensures LowerWord(OLD_STEMS[op])
  {
  }

  predicate MnemonicText(t: string) { forall i :: 0 <= i < |t| ==> IsLower(t[i]) || IsDigit(t[i]) || t[i] == '.' }

  lemma JoinedMnemonic(a: string, b: string)
    requires MnemonicText(a) && MnemonicText(b)
    ensures MnemonicText(a + b)
  {
  }

  lemma LowerIsMnemonic(a: string)
    requires LowerWord(a)
    ensures MnemonicText(a)
  {
  }

  lemma MnemonicLiterals()
    ensures MnemonicText("b") && MnemonicText("pop") && MnemonicText("ldm") && MnemonicText("vmsr")
      && MnemonicText("fmxr")
    ensures MnemonicText("mcr") && MnemonicText("d") && MnemonicText("s") && MnemonicText("") && MnemonicText(".f64")
    ensures MnemonicText(".f32") && MnemonicText(".n") && MnemonicText(".w")
  {
  }

  lemma MnemonicChars(c: Insn)
    requires WellFormed(c)
    ensures MnemonicText(MnemonicOf(c))
  {
    hide MnemonicText;
    hide LowerWord;
    hide CONDITIONS;
    hide ListTail;
    hide DestTail;
    hide Lower;
    hide EXIT_STEMS;
    hide DEST_STEMS;
    hide OLD_STEMS;
    hide VECTOR_OPS;
    MnemonicLiterals();
    match c {
      case Exit(stem, cc, width, _) =>
        ExitLower(stem);
        LowerIsMnemonic(stem);
        ConditionLower(cc);
        LowerIsMnemonic(cc);
        JoinedMnemonic(stem, cc);
        JoinedMnemonic(stem + cc, width);
      case Jump(cc, width, _) =>
        ConditionLower(cc);
        LowerIsMnemonic(cc);
        JoinedMnemonic("b", cc);
        JoinedMnemonic("b" + cc, width);
      case Dest(stem, tail, _, _) =>
        DestLower(stem);
        LowerIsMnemonic(stem);
        TailLower(tail);
        LowerIsMnemonic(tail);
        JoinedMnemonic(stem, tail);
      case LoadList(pop, tail, _, _, _) =>
        if pop { ConditionLower(tail); } else { TailLower(tail); }
        LowerIsMnemonic(tail);
        JoinedMnemonic(if pop then "pop" else "ldm", tail);
      case SetFpscr(form, cc, _, _) =>
        ConditionLower(cc);
        LowerIsMnemonic(cc);
        JoinedMnemonic(match form case ByVmsr => "vmsr" case ByFmxr => "fmxr" case ByMcr => "mcr", cc);
      case Vector(op, cc, prior, double, typed, _, _) =>
        ConditionLower(cc);
        LowerIsMnemonic(cc);
        if prior {
          OldLower(op);
          LowerIsMnemonic(OLD_STEMS[op]);
          var p := if double then "d" else "s";
          JoinedMnemonic(OLD_STEMS[op], p);
          JoinedMnemonic(OLD_STEMS[op] + p, cc);
        } else {
          OldNames(op);
          OpLower(op);
          LowerIsMnemonic(op);
          JoinedMnemonic(op, cc);
          JoinedMnemonic(op + cc, if !typed then "" else if double then ".f64" else ".f32");
        }
    }
  }

  lemma OpLower(op: string)
    requires op in VECTOR_OPS
    ensures LowerWord(op)
  {
    VectorOpsPlain(op);
    hide VECTOR_OPS;
  }

  lemma MnemonicShape(c: Insn)
    requires WellFormed(c)
    ensures Mnemonic(MnemonicOf(c)) && Lower(MnemonicOf(c)) == MnemonicOf(c)
  {
    MnemonicLetter(c);
    MnemonicChars(c);
    hide MnemonicOf;
    hide WellFormed;
    LowerSame(MnemonicOf(c));
  }

  lemma LineCode(mn: string, ops: string, ring: bool)
    requires Mnemonic(Lower(mn)) && OperandText(ops)
    ensures var line := InsnLine(mn, ops, ring); var code := mn + " " + ops;
      CodeOf(line) == code && code[|code| - 1] != ':' && FirstWord(code) == mn
        && Contains(Strip(line), WRAP_MARK) == ring
  {
    hide Strip;
    hide Before;
    hide Contains;
    hide FirstWord;
    hide Lower;
    hide Mnemonic;
    CodeText(mn, ops);
    LineStrips(mn + " " + ops, ring);
  }

  /** The instruction as a mnemonic in any case and an operand text. */
  ghost predicate Written(mn: string, ops: string, c: Insn)
  {
    WellFormed(c) && Lower(mn) == MnemonicOf(c) && OperandText(ops) && Tokens(ops) == OperandsOf(c)
  }

  /** A character that stands by itself shows as a token. */
  lemma TokensClear(s: string, x: char)
    requires !IsWord(x) && !IsSpace(x)
    ensures x in s ==> [x] in Tokens(s)
  {
    hide Tokens;
    if x in s {
      var h := Before(s, x);
      assert h != s;
      var r := s[|h| + 1..];
      assert s == h + [x] + r;
      TokensSplit(h, x, r);
    }
  }

  predicate NoBreaks(s: string) { ';' !in s && ':' !in s && '/' !in s && '"' !in s && '\'' !in s }

  lemma OperandsNoBreaks(ops: string)
    requires OperandsOk(Tokens(ops))
    ensures NoBreaks(ops)
  {
    hide Tokens;
    forall x | x in {';', ':', '/', '"', '\''} ensures x !in ops {
      TokensClear(ops, x);
      assert [x] in BREAKS;
    }
  }

  lemma {:induction false} SymbolOf(w: string, r: string)
    requires (forall i :: 0 <= i < |w| ==> IsSym(w[i])) && (r != "" ==> !IsSym(r[0]))
    ensures Symbol(w + r) == w
  {
    if w == "" {
      assert w + r == r;
    } else {
      assert (w + r)[1..] == w[1..] + r;
      SymbolOf(w[1..], r);
    }
  }

  lemma MnemonicSymbols(mn: string)
    requires Mnemonic(Lower(mn))
    ensures NoBreaks(mn) && mn != "" && mn[0] != '#' && forall i :: 0 <= i < |mn| ==> IsSym(mn[i])
  {
    hide Lower;
    hide LowerChar;
    LowerChars(mn);
    forall i | 0 <= i < |mn| ensures IsSym(mn[i]) {
      CaseOnly(mn[i]);
      assert Lower(mn)[i] == LowerChar(mn[i]);
    }
    assert |Lower(mn)| > 0;
  }

  /** A mnemonic followed by operands is no label. */
  lemma NoLabel(mn: string, ops: string)
    requires Mnemonic(Lower(mn)) && OperandText(ops) && NoBreaks(ops)
    ensures DropLabels(mn + " " + ops) == mn + " " + ops
  {
    hide Mnemonic;
    hide Lower;
    MnemonicSymbols(mn);
    var s := mn + " " + ops;
    assert s == mn + (" " + ops);
    SymbolOf(mn, " " + ops);
    assert s[|mn|..] == " " + ops;
    assert (" " + ops)[1..] == ops;
    assert StripLeft(" " + ops) == ops;
    assert ops[0] in ops;
  }

  lemma OneStatement(mn: string, ops: string)
    requires Mnemonic(Lower(mn)) && OperandText(ops) && NoBreaks(ops)
    ensures var code := mn + " " + ops;
      NoBreaks(code) && Readable(code) && Tidy(code) && Unlabelled(Split(code, ';')) == [code]
  {
    hide Mnemonic;
    hide Lower;
    hide DropLabels;
    hide OperandText;
    MnemonicSymbols(mn);
    CodeText(mn, ops);
    NoLabel(mn, ops);
    var code := mn + " " + ops;
    assert NoBreaks(" ");
    BeforeNone(code, ';');
    StripTidy(code);
  }

  lemma PlainLine(mn: string, ops: string, ring: bool)
    requires Mnemonic(Lower(mn)) && OperandText(ops) && NoBreaks(ops)
    ensures var line := InsnLine(mn, ops, ring); var code := mn + " " + ops;
      Plain(line) && CodeOf(line) == code && Ring(line) == ring && FirstWord(code) == mn
  {
    hide Mnemonic;
    hide Lower;
    hide Unlabelled;
    hide Split;
    hide Readable;
    hide NoBreaks;
    hide OperandText;
    hide InsnLine;
    hide CodeOf;
    hide Strip;
    hide Contains;
    LineCode(mn, ops, ring);
    OneStatement(mn, ops);
  }

  lemma WrittenSays(mn: string, ops: string, c: Insn)
    requires Written(mn, ops, c)
    ensures Mnemonic(Lower(mn)) && OperandText(ops) && NoBreaks(ops)
    ensures Says(mn + " " + ops, c.Vector? && c.ring, c)
  {
    hide WellFormed;
    hide MnemonicOf;
    hide OperandsOf;
    hide Tokens;
    hide FirstWord;
    hide Mnemonic;
    hide Lower;
    hide OperandText;
    MnemonicShape(c);
    OperandsAreTokens(c);
    OperandsNoBreaks(ops);
    CodeText(mn, ops);
    assert (mn + " " + ops)[|mn|..] == [' '] + ops;
    OneChar(' ', ops);
  }

  lemma LineSpells(mn: string, ops: string, c: Insn)
    requires Written(mn, ops, c)
    ensures Spells(InsnLine(mn, ops, c.Vector? && c.ring), c)
  {
    hide Written;
    hide Plain;
    hide Says;
    hide Ring;
    hide CodeOf;
    hide FirstWord;
    hide InsnLine;
    hide Mnemonic;
    hide Lower;
    hide OperandText;
    WrittenSays(mn, ops, c);
    PlainLine(mn, ops, c.Vector? && c.ring);
  }

  lemma RenderedSpells(c: Insn)
    requires WellFormed(c)
    ensures Spells(Rendered(c), c)
  {
    hide Spells;
    hide WellFormed;
    hide MnemonicOf;
    hide OperandsOf;
    hide Tokens;
    hide Spaced;
    var t := OperandsOf(c);
    MnemonicShape(c);
    OperandsAreTokens(c);
    SpacedTokens(t);
    LastOfToken(t[|t| - 1]);
    LineSpells(MnemonicOf(c), Spaced(t), c);
  }

  lemma LastOfToken(t: string)
    requires TokenOk(t)
    ensures t[|t| - 1] != ':'
  {
    assert ":" in BREAKS;
    if AllWord(t) { WordChar(t[|t| - 1]); } else { assert t == [t[0]]; }
  }

  // --- instances, as text ---

  lemma CoreOf(name: string)
    requires name in CORE_NAMES && forall i :: 0 <= i < |name| ==> !('A' <= name[i] <= 'Z')
    ensures CoreName(name) && Lower(name) == name
  {
    hide CORE_NAMES;
    LowerSame(name);
  }

  lemma SpacedStep(t: seq<string>, rest: string)
    requires |t| > 1 && Spaced(t[1..]) == rest
    ensures Spaced(t) == t[0] + [' '] + rest
  {
  }

  lemma SpacedOne(t: string)
    ensures Spaced([t]) == t
  {
  }

  lemma RenderedIs(c: Insn, mn: string, t: seq<string>, ops: string, text: string)
    requires WellFormed(c) && MnemonicOf(c) == mn && OperandsOf(c) == t && Spaced(t) == ops
    requires InsnLine(mn, ops, c.Vector? && c.ring) == text
    ensures Spells(text, c)
  {
    hide Spells;
    hide WellFormed;
    hide MnemonicOf;
    hide OperandsOf;
    hide Spaced;
    hide InsnLine;
    RenderedSpells(c);
  }

  lemma PopInsn()
    ensures var c := LoadList(true, "", "", false, [Range("r4", "r6"), One("pc")]);
      WellFormed(c) && Unsafe(c) && Seen(c)
  {
    hide CoreName;
    hide ListTail;
    CoreOf("r4");
    CoreOf("r6");
    CoreOf("pc");
    hide Lower;
    hide CORE_NAMES;
    var l := [Range("r4", "r6"), One("pc")];
    assert l[1] == One("pc") && LoadsPc(l[1]);
  }

  lemma PopTokens()
    ensures var l := [Range("r4", "r6"), One("pc")]; Braced(l) == ["{", "r4", "-", "r6", ",", "pc", "}"]
  {
    var l := [Range("r4", "r6"), One("pc")];
    assert l[1..] == [One("pc")] && l[1..][1..] == [];
    assert ListTokens([One("pc")]) == ["pc"];
  }

  lemma PopOperands()
    ensures Spaced(["{", "r4", "-", "r6", ",", "pc", "}"]) == "{ r4 - r6 , pc }"
  {
    hide Spaced;
    var t := ["{", "r4", "-", "r6", ",", "pc", "}"];
    SpacedOne("}");
    assert t[6..] == ["}"] && t[5..][1..] == t[6..] && t[4..][1..] == t[5..] && t[3..][1..] == t[4..]
        && t[2..][1..] == t[3..] && t[1..][1..] == t[2..];
    SpacedStep(t[5..], "}");
    SpacedStep(t[4..], "pc }");
    SpacedStep(t[3..], ", pc }");
    SpacedStep(t[2..], "r6 , pc }");
    SpacedStep(t[1..], "- r6 , pc }");
    SpacedStep(t, "r4 - r6 , pc }");
  }

  lemma PopOf(c: Insn)
    requires c == LoadList(true, "", "", false, [Range("r4", "r6"), One("pc")]) && WellFormed(c)
    ensures MnemonicOf(c) == "pop" && OperandsOf(c) == ["{", "r4", "-", "r6", ",", "pc", "}"]
  {
    hide WellFormed;
    hide Braced;
    PopTokens();
    assert "pop" + "" == "pop";
  }

  lemma PopLine()
    ensures InsnLine("pop", "{ r4 - r6 , pc }", false) == "    pop { r4 - r6 , pc }"
  {
  }

  /** A pop of r4 to r6 and pc. */
  lemma PopText()
    ensures var c := LoadList(true, "", "", false, [Range("r4", "r6"), One("pc")]);
      WellFormed(c) && Spells("    pop { r4 - r6 , pc }", c) && Unsafe(c) && Seen(c)
  {
    hide Spells;
    hide WellFormed;
    hide Unsafe;
    hide Seen;
    hide Spaced;
    hide Braced;
    var c := LoadList(true, "", "", false, [Range("r4", "r6"), One("pc")]);
    PopInsn();
    PopTokens();
    PopOperands();
    hide OperandsOf;
    PopOf(c);
    PopLine();
    hide InsnLine;
    hide MnemonicOf;
    RenderedIs(c, "pop", ["{", "r4", "-", "r6", ",", "pc", "}"], "{ r4 - r6 , pc }", "    pop { r4 - r6 , pc }");
  }

  lemma OneDigit(n: nat)
    requires n < 10
    ensures Decimal(n) == [('0' as int + n) as char]
  {
  }

  lemma RegText(n: nat, upper: bool, double: bool)
    requires n < 10
    ensures RegSpelled(Reg(n, upper), double) ==
      [if double then if upper then 'D' else 'd' else if upper then 'S' else 's', ('0' as int + n) as char]
  {
    OneDigit(n);
  }

  const MOVE: Insn := Vector("vmov", "", false, true, false, [Reg(8, false), Reg(9, true)], false)

  lemma MoveOf()
    ensures WellFormed(MOVE) && MnemonicOf(MOVE) == "vmov" && OperandsOf(MOVE) == ["d8", ",", "D9"] && Unsafe(MOVE)
  {
    hide RegSpelled;
    RegText(8, false, true);
    RegText(9, true, true);
    assert RegsSpelled(MOVE.regs, true) == ["d8", "D9"];
    assert ["d8", "D9"][1..] == ["D9"] && CommaJoin(["D9"]) == ["D9"];
  }

  lemma MoveOperands()
    ensures Spaced(["d8", ",", "D9"]) == "d8 , D9"
  {
    hide Spaced;
    var t := ["d8", ",", "D9"];
    SpacedOne("D9");
    assert t[2..] == ["D9"] && t[1..][1..] == t[2..];
    SpacedStep(t[1..], "D9");
    SpacedStep(t, ", D9");
  }

  lemma MoveLine()
    ensures InsnLine("vmov", "d8 , D9", false) == "    vmov d8 , D9"
  {
  }

  /** A double-precision move with no type, its registers in either case. */
  lemma MoveText()
    ensures WellFormed(MOVE) && Spells("    vmov d8 , D9", MOVE) && Unsafe(MOVE)
  {
    hide Spells;
    hide Spaced;
    hide WellFormed;
    hide MnemonicOf;
    hide OperandsOf;
    hide Unsafe;
    hide InsnLine;
    MoveOf();
    MoveOperands();
    MoveLine();
    RenderedIs(MOVE, "vmov", ["d8", ",", "D9"], "d8 , D9", "    vmov d8 , D9");
  }
}
