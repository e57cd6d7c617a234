/**
 A generator at work: the list of lines it appends to, the mode sequences it emits, and the check before it writes the
 file.
 */
module ShortVecListing {
  import opened ShortVecText
  import opened ShortVec
  import opened ShortVecTokens
  import opened ShortVecInsn
  import opened ShortVecRuns

  // --- a listing in chunks ---

  function Codes(lines: seq<string>): (c: seq<Item>)
    ensures |c| == |lines| && forall i :: 0 <= i < |c| ==> c[i] == Code(lines[i])
  {
    seq(|lines|, i requires 0 <= i < |lines| => Code(lines[i]))
  }

  lemma {:induction false} FlattenAppend(a: seq<string>, b: seq<string>)
    ensures Flatten(a + b) == Flatten(a) + Flatten(b)
  {
    hide Split;
    if a == [] {
      assert a + b == b;
    } else {
      FlattenAppend(a[1..], b);
      assert (a + b)[1..] == a[1..] + b;
    }
  }

  lemma FlattenChunk(chunk: string)
    ensures Flatten([chunk]) == Split(chunk, '\n')
  {
    assert Flatten([chunk]) == Split(chunk, '\n') + Flatten([]);
  }

  lemma {:induction false} PiecesAreLines(s: string)
    ensures forall i :: 0 <= i < |Split(s, '\n')| ==> OneLine(Split(s, '\n')[i])
    decreases |s|
  {
    var h := Before(s, '\n');
    if |h| < |s| {
      var r := s[|h| + 1..];
      PiecesAreLines(r);
      assert Split(s, '\n') == [h] + Split(r, '\n');
    }
  }

  lemma ListedOne(items: seq<Item>, it: Item)
    ensures Listed(items + [it]) == Listed(items) + ItemText(it)
  {
    var all := items + [it];
    assert all[..|all| - 1] == items;
  }

  lemma OneCode(items: seq<Item>, text: string)
    ensures Listed(items + [Code(text)]) == Listed(items) + [text]
  {
    ListedOne(items, Code(text));
  }

  lemma {:induction false} ListedCodes(items: seq<Item>, lines: seq<string>)
    ensures Listed(items + Codes(lines)) == Listed(items) + lines
  {
    hide Listed;
    if lines == [] {
      assert items + Codes(lines) == items;
    } else {
      var q, z := lines[..|lines| - 1], lines[|lines| - 1];
      ListedCodes(items, q);
      assert lines == q + [z];
      assert Codes(lines) == Codes(q) + [Code(z)];
      assert items + Codes(lines) == (items + Codes(q)) + [Code(z)];
      OneCode(items + Codes(q), z);
    }
  }

  // --- what emitted text does ---

  function HexDigit(c: char): bv32
  {
    if '0' <= c <= '9' then (c as int - '0' as int) as bv32
    else if 'a' <= c <= 'f' then (c as int - 'a' as int + 10) as bv32
    else 0
  }

  /** The value of a hexadecimal text. */
  function Hex(s: string): bv32 { if s == "" then 0 else (Hex(s[..|s| - 1]) << 4) | HexDigit(s[|s| - 1]) }

  /** `0x` and digits. */
  function Immediate(t: string): bv32 { if "0x" <= t then Hex(t[2..]) else 0 }

  /** A line on the machine, as its tokens read before a comment: the four instructions on tmp, and anything else. */
  function ExecLine(line: string, tmp: string, c: Cpu): Cpu
  {
    var t := Tokens(Before(line, '@'));
    if t == ["vmrs", tmp, ",", "fpscr"] then c.(tmp := c.fpscr)
    else if |t| == 7 && t[..6] == ["bic", tmp, ",", tmp, ",", "#"] then c.(tmp := c.tmp & !Immediate(t[6]))
    else if |t| == 7 && t[..6] == ["orr", tmp, ",", tmp, ",", "#"] then c.(tmp := c.tmp | Immediate(t[6]))
    else if t == ["vmsr", "fpscr", ",", tmp] then c.(fpscr := c.tmp)
    else c
  }

  function ExecLines(lines: seq<string>, tmp: string, c: Cpu): Cpu
  {
    if lines == [] then c else ExecLines(lines[1..], tmp, ExecLine(lines[0], tmp, c))
  }

  /**
   After these lines the mode is as given and nothing else of the FPSCR has changed, whatever it and the register held.
   */
  ghost predicate SetsMode(lines: seq<string>, tmp: string, on: bool)
  {
    forall c: Cpu :: OnlyMode(c.fpscr, ExecLines(lines, tmp, c).fpscr, on)
  }

  lemma HexStep(s: string, h: string, v: bv32)
    requires s != "" && s[..|s| - 1] == h && Hex(h) == v
    ensures Hex(s) == (v << 4) | HexDigit(s[|s| - 1])
  {
  }

  lemma HexMask()
    ensures Immediate("0x370000") == FIELD_MASK
  {
    hide Hex;
    assert "0x370000"[2..] == "370000";
    HexNone();
    HexStep("3", "", 0);
    HexStep("37", "3", 3);
    HexStep("370", "37", 0x37);
    HexStep("3700", "370", 0x370);
    HexStep("37000", "3700", 0x3700);
    HexStep("370000", "37000", 0x37000);
  }

  lemma HexSet()
    ensures Immediate("0x30000") == FIELD_SET
  {
    hide Hex;
    assert "0x30000"[2..] == "30000";
    HexNone();
    HexStep("3", "", 0);
    HexStep("30", "3", 3);
    HexStep("300", "30", 0x30);
    HexStep("3000", "300", 0x300);
    HexStep("30000", "3000", 0x3000);
  }

  lemma HexNone()
    ensures Hex("") == 0
  {
  }

  lemma ConstantNames()
    ensures IsName("vmrs") && IsName("bic") && IsName("orr") && IsName("vmsr") && IsName("fpscr") && IsName("0x370000")
      && IsName("0x30000")
  {
  }

  /** A name and what follows it after a character outside words. */
  lemma NameThen(a: string, x: char, b: string)
    requires IsName(a) && !IsWord(x)
    ensures Tokens(a + [x] + b) == [a] + (if IsSpace(x) then [] else [[x]]) + Tokens(b)
  {
    hide Tokens;
    TokensSplit(a, x, b);
    TokensOfWord(a);
  }

  lemma SpaceThen(b: string)
    ensures Tokens(" " + b) == Tokens(b)
  {
    hide Tokens;
    OneChar(' ', b);
  }

  /** `tmp, rest` after a mnemonic. */
  lemma TwoOperands(mn: string, a: string, rest: string)
    requires IsName(mn) && IsName(a)
    ensures Tokens(mn + " " + a + ", " + rest) == [mn, a, ","] + Tokens(rest)
  {
    hide Tokens;
    hide IsName;
    NameThen(a, ',', " " + rest);
    SpaceThen(rest);
    NameThen(mn, ' ', a + [','] + (" " + rest));
    assert mn + " " + a + ", " + rest == mn + [' '] + (a + [','] + (" " + rest));
    assert [[',']] == [","];
  }

  /** `tmp, #value` after a mnemonic and a register. */
  lemma Hashed(a: string, v: string)
    requires IsName(a) && IsName(v)
    ensures Tokens(a + ", #" + v) == [a, ",", "#", v]
  {
    hide Tokens;
    hide IsName;
    NameThen(a, ',', " #" + v);
    SpaceThen("#" + v);
    assert " #" + v == " " + ("#" + v);
    OneChar('#', v);
    NameAlone(v);
    assert a + ", #" + v == a + [','] + (" #" + v);
    assert [[',']] == [","] && [['#']] == ["#"] && "#" + v == ['#'] + v;
  }

  lemma NameAlone(v: string)
    requires IsName(v)
    ensures Tokens(v) == [v]
  {
    hide Tokens;
    TokensOfWord(v);
  }

  function ModeTokens(m: ModeInstr, tmp: string): seq<string>
  {
    match m
    case Vmrs => ["vmrs", tmp, ",", "fpscr"]
    case BicMask => ["bic", tmp, ",", tmp, ",", "#", "0x370000"]
    case OrrSet => ["orr", tmp, ",", tmp, ",", "#", "0x30000"]
    case Vmsr => ["vmsr", "fpscr", ",", tmp]
  }

  lemma ModeReads(m: ModeInstr, tmp: string)
    requires IsName(tmp)
    ensures Tokens(ModeText(m, tmp)) == ModeTokens(m, tmp)
  {
    hide Tokens;
    hide IsName;
    ConstantNames();
    NameAlone(tmp);
    NameAlone("fpscr");
    IndentTokens(ModeCode(m, tmp));
    match m {
      case Vmrs =>
        TwoOperands("vmrs", tmp, "fpscr");
        assert ModeCode(m, tmp) == "vmrs" + " " + tmp + ", " + "fpscr";
      case BicMask =>
        Hashed(tmp, "0x370000");
        TwoOperands("bic", tmp, tmp + ", #" + "0x370000");
        assert ModeCode(m, tmp) == "bic" + " " + tmp + ", " + (tmp + ", #" + "0x370000");
      case OrrSet =>
        Hashed(tmp, "0x30000");
        TwoOperands("orr", tmp, tmp + ", #" + "0x30000");
        assert ModeCode(m, tmp) == "orr" + " " + tmp + ", " + (tmp + ", #" + "0x30000");
      case Vmsr =>
        TwoOperands("vmsr", "fpscr", tmp);
        assert ModeCode(m, tmp) == "vmsr" + " " + "fpscr" + ", " + tmp;
    }
  }

  lemma IndentTokens(s: string)
    ensures Tokens("    " + s) == Tokens(s)
  {
    hide Tokens;
    SpaceThen(s);
    SpaceThen(" " + s);
    SpaceThen("  " + s);
    SpaceThen("   " + s);
    assert "  " + s == " " + (" " + s) && "   " + s == " " + ("  " + s) && "    " + s == " " + ("   " + s);
  }

  lemma NoAt(tmp: string)
    requires IsName(tmp)
    ensures '@' !in tmp
  {
    forall i | 0 <= i < |tmp| ensures tmp[i] != '@' { WordChar(tmp[i]); }
  }

  predicate NoComment(s: string) { '@' !in s }

  lemma JoinedNoComment(a: string, b: string)
    requires NoComment(a) && NoComment(b)
    ensures NoComment(a + b)
  {
  }

  lemma NoCommentLiterals()
    ensures NoComment("    ") && NoComment("vmrs ") && NoComment(", fpscr") && NoComment("bic ") && NoComment(", ")
    ensures NoComment(", #0x370000") && NoComment("orr ") && NoComment(", #0x30000") && NoComment("vmsr fpscr, ")
  {
  }

  lemma ModeNoComment(m: ModeInstr, tmp: string)
    requires IsName(tmp)
    ensures Before(ModeText(m, tmp), '@') == ModeText(m, tmp)
  {
    NoAt(tmp);
    assert NoComment(tmp);
    hide NoComment;
    NoCommentLiterals();
    match m {
      case Vmrs =>
        JoinedNoComment("vmrs ", tmp);
        JoinedNoComment("vmrs " + tmp, ", fpscr");
      case BicMask =>
        JoinedNoComment("bic ", tmp);
        JoinedNoComment("bic " + tmp, ", ");
        JoinedNoComment("bic " + tmp + ", ", tmp);
        JoinedNoComment("bic " + tmp + ", " + tmp, ", #0x370000");
      case OrrSet =>
        JoinedNoComment("orr ", tmp);
        JoinedNoComment("orr " + tmp, ", ");
        JoinedNoComment("orr " + tmp + ", ", tmp);
        JoinedNoComment("orr " + tmp + ", " + tmp, ", #0x30000");
      case Vmsr => JoinedNoComment("vmsr fpscr, ", tmp);
    }
    JoinedNoComment("    ", ModeCode(m, tmp));
    NoCommentBefore(ModeText(m, tmp));
  }

  lemma NoCommentBefore(s: string)
    requires NoComment(s)
    ensures Before(s, '@') == s
  {
    BeforeNone(s, '@');
  }

  lemma TokensDiffer(tmp: string)
    ensures "vmrs" != "bic" && "vmrs" != "orr" && "vmrs" != "vmsr" && "bic" != "orr" && "bic" != "vmsr"
      && "orr" != "vmsr"
  {
    assert "vmrs"[2] == 'r' && "vmsr"[2] == 's' && "bic"[0] == 'b' && "orr"[0] == 'o' && "vmrs"[0] == 'v' == "vmsr"[0];
  }

  /** What a line of a mode sequence does, read from its text. */
  lemma ExecMode(m: ModeInstr, tmp: string, c: Cpu)
    requires IsName(tmp)
    ensures ExecLine(ModeText(m, tmp), tmp, c) == Exec(m, c)
  {
    hide Tokens;
    hide ModeText;
    hide IsName;
    hide Immediate;
    ModeReads(m, tmp);
    ModeNoComment(m, tmp);
    TokensDiffer(tmp);
    HexMask();
    HexSet();
    var t := ModeTokens(m, tmp);
    assert t[0] == (match m case Vmrs => "vmrs" case BicMask => "bic" case OrrSet => "orr" case Vmsr => "vmsr");
    if m == BicMask { assert t[..6] == ["bic", tmp, ",", tmp, ",", "#"]; }
    if m == OrrSet { assert t[..6] == ["orr", tmp, ",", tmp, ",", "#"]; }
  }

  lemma ExecMark(line: string, tmp: string, c: Cpu)
    requires "    @" <= line
    ensures ExecLine(line, tmp, c) == c
  {
    var h := "    ";
    assert line == h + ['@'] + line[5..];
    BeforeAppend(h, '@', line[5..]);
    IndentTokens("");
    assert h + "" == h;
  }

  lemma ExecFirst(line: string, rest: seq<string>, tmp: string, c: Cpu)
    ensures ExecLines([line] + rest, tmp, c) == ExecLines(rest, tmp, ExecLine(line, tmp, c))
  {
    assert ([line] + rest)[1..] == rest;
  }

  lemma EnterSets(tmp: string)
    requires IsName(tmp)
    ensures SetsMode(EnterText(tmp), tmp, true)
  {
    hide ModeText;
    hide ExecLine;
    hide OnlyMode;
    hide Exec;
    forall c: Cpu ensures OnlyMode(c.fpscr, ExecLines(EnterText(tmp), tmp, c).fpscr, true) {
      var c1 := Exec(Vmrs, c);
      var c2 := Exec(BicMask, c1);
      var c3 := Exec(OrrSet, c2);
      var c4 := Exec(Vmsr, c3);
      ExecMode(Vmrs, tmp, c);
      ExecMode(BicMask, tmp, c1);
      ExecMode(OrrSet, tmp, c2);
      ExecMode(Vmsr, tmp, c3);
      EnterMarkLine(tmp, c4);
      var t := EnterText(tmp);
      assert t == [t[0]] + t[1..] && t[1..] == [t[1]] + t[2..] && t[2..] == [t[2]] + t[3..] && t[3..] == [t[3]] + t[4..]
          && t[4..] == [t[4]] + [];
      ExecFirst(t[0], t[1..], tmp, c);
      ExecFirst(t[1], t[2..], tmp, c1);
      ExecFirst(t[2], t[3..], tmp, c2);
      ExecFirst(t[3], t[4..], tmp, c3);
      ExecFirst(t[4], [], tmp, c4);
      EnterValue(c);
    }
  }

  lemma EnterMarkLine(tmp: string, c: Cpu)
    ensures ExecLine(ENTER_LINE, tmp, c) == c && ExecLine(LEAVE_LINE, tmp, c) == c
  {
    assert "    @" <= ENTER_LINE && "    @" <= LEAVE_LINE;
    ExecMark(ENTER_LINE, tmp, c);
    ExecMark(LEAVE_LINE, tmp, c);
  }

  /** Reading the FPSCR overwrites the register, so what the register held does not matter. */
  lemma RegisterIsFree(c: Cpu)
    ensures Exec(Vmrs, c) == Exec(Vmrs, Cpu(c.fpscr, 0))
  {
  }

  lemma EnterValue(c: Cpu)
    ensures OnlyMode(c.fpscr, Exec(Vmsr, Exec(OrrSet, Exec(BicMask, Exec(Vmrs, c)))).fpscr, true)
  {
    hide Exec;
    hide OnlyMode;
    RegisterIsFree(c);
    ModeBits(c.fpscr);
  }

  lemma LeaveValue(c: Cpu)
    ensures OnlyMode(c.fpscr, Exec(Vmsr, Exec(BicMask, Exec(Vmrs, c))).fpscr, false)
  {
    hide Exec;
    hide OnlyMode;
    RegisterIsFree(c);
    ModeBits(c.fpscr);
  }

  lemma LeaveSets(tmp: string)
    requires IsName(tmp)
    ensures SetsMode(LeaveText(tmp), tmp, false)
  {
    hide ModeText;
    hide ExecLine;
    hide OnlyMode;
    hide Exec;
    forall c: Cpu ensures OnlyMode(c.fpscr, ExecLines(LeaveText(tmp), tmp, c).fpscr, false) {
      var c1 := Exec(Vmrs, c);
      var c2 := Exec(BicMask, c1);
      EnterMarkLine(tmp, c);
      ExecMode(Vmrs, tmp, c);
      ExecMode(BicMask, tmp, c1);
      ExecMode(Vmsr, tmp, c2);
      var t := LeaveText(tmp);
      assert t == [t[0]] + t[1..] && t[1..] == [t[1]] + t[2..] && t[2..] == [t[2]] + t[3..] && t[3..] == [t[3]] + [];
      ExecFirst(t[0], t[1..], tmp, c);
      ExecFirst(t[1], t[2..], tmp, c);
      ExecFirst(t[2], t[3..], tmp, c1);
      ExecFirst(t[3], [], tmp, c2);
      LeaveValue(c);
    }
  }

  /** The checker's region flag after the last item. */
  lemma FlagAfter(items: seq<Item>, it: Item)
    requires NoMarks(items + [it]) && !it.Code?
    ensures var L := Classified(Listed(items + [it])); Inside(L, |L|) <==> it.EnterItem?
  {
    hide Classify;
    hide Inside;
    var all := items + [it];
    WithinAtEnd(all);
  }

  /** The output of a generator; `items` records what was asked for. */
  class Listing {
    var lines: seq<string>
    ghost var items: seq<Item>

    ghost predicate Valid()
      reads this
    {
      Flatten(lines) == Listed(items) && OneLiners(items)
    }

    /** The checker is inside a region after what has been emitted. */
    ghost predicate Open()
      reads this
    {
      var L := Classified(Flatten(lines));
      Inside(L, |L|)
    }

    constructor ()
      ensures Valid() && lines == [] && items == []
    {
      lines, items := [], [];
    }

    /** One call of the generator's `e`: a chunk of one line or more. */
    method Emit(chunk: string)
      requires Valid()
      modifies this
      ensures Valid() && lines == old(lines) + [chunk] && items == old(items) + Codes(Split(chunk, '\n'))
    {
      hide Split;
      hide Flatten;
      hide Listed;
      lines := lines + [chunk];
      items := items + Codes(Split(chunk, '\n'));
      FlattenAppend(old(lines), [chunk]);
      FlattenChunk(chunk);
      PiecesAreLines(chunk);
      ListedCodes(old(items), Split(chunk, '\n'));
    }

    method Put(line: string)
      modifies this`lines
      ensures lines == old(lines) + [line]
    {
      lines := lines + [line];
    }

    /** `enter`: what it appends turns the mode on and nothing else in the FPSCR, and opens a region for the checker. */
    method Enter(tmp: string)
      requires Valid() && OneLine(tmp)
      modifies this
      ensures Valid() && items == old(items) + [EnterItem(tmp)]
      ensures old(lines) <= lines && (IsName(tmp) ==> SetsMode(lines[|old(lines)|..], tmp, true))
      ensures NoMarks(items) ==> Open()
    {
      hide Inside;
      hide Classify;
      hide ModeText;
      hide SetsMode;
      hide NoMarks;
      Put(ModeText(Vmrs, tmp));
      Put(ModeText(BicMask, tmp));
      Put(ModeText(OrrSet, tmp));
      Put(ModeText(Vmsr, tmp));
      Put(ENTER_LINE);
      items := items + [EnterItem(tmp)];
      assert lines == old(lines) + EnterText(tmp);
      Appended(old(lines), old(items), EnterItem(tmp));
      if IsName(tmp) { EnterSets(tmp); }
      if NoMarks(items) { FlagAfter(old(items), EnterItem(tmp)); }
    }

    /** `leave`: what it appends turns the mode off and nothing else in the FPSCR, and closes the region. */
    method Leave(tmp: string)
      requires Valid() && OneLine(tmp)
      modifies this
      ensures Valid() && items == old(items) + [LeaveItem(tmp)]
      ensures old(lines) <= lines && (IsName(tmp) ==> SetsMode(lines[|old(lines)|..], tmp, false))
      ensures NoMarks(items) ==> !Open()
    {
      hide Inside;
      hide Classify;
      hide ModeText;
      hide SetsMode;
      hide NoMarks;
      Put(LEAVE_LINE);
      Put(ModeText(Vmrs, tmp));
      Put(ModeText(BicMask, tmp));
      Put(ModeText(Vmsr, tmp));
      items := items + [LeaveItem(tmp)];
      assert lines == old(lines) + LeaveText(tmp);
      Appended(old(lines), old(items), LeaveItem(tmp));
      if IsName(tmp) { LeaveSets(tmp); }
      if NoMarks(items) { FlagAfter(old(items), LeaveItem(tmp)); }
    }

    /**
     The check before the file is written: an accepted listing runs safely exactly when its unsafe instructions are of
     known spellings and the statements outside the model are harmless.
     */
    method Check() returns (v: Verdict)
      requires Valid()
      ensures v.Accepted? <==> Accepts(items)
      ensures v.Accepted? && NoMarks(items) ==>
        forall f, o :: ModeIs(f, false) ==>
          (RunsSafely(items, o, f) <==> KnownSpellings(items) && OthersHarmless(items, o))
    {
      hide Inside;
      hide Classify;
      hide ModeIs;
      hide NoMarks;
      hide RunsSafely;
      hide KnownSpellings;
      hide OthersHarmless;
      hide Clean;
      hide FaultAt;
      v := Lint(lines);
      FaultIsUnclean(Classified(Flatten(lines)));
      if v.Accepted? && NoMarks(items) {
        forall f, o | ModeIs(f, false)
          ensures RunsSafely(items, o, f) <==> KnownSpellings(items) && OthersHarmless(items, o)
        {
          AcceptedSafeIff(items, o, f);
        }
      }
    }
  }

  /** A fault, or an open region at the end, is what a clean listing does not have. */
  lemma FaultIsUnclean(L: seq<Line>)
    ensures (exists i :: 0 <= i < |L| && FaultAt(L, i) != None) || Inside(L, |L|) <==> !Clean(L)
  {
    hide FaultAt;
    hide Inside;
  }

  lemma ItemLines(it: Item)
    requires !it.Code? && OneLine(it.tmp)
    ensures Flatten(ItemText(it)) == ItemText(it)
  {
    hide ModeText;
    hide OneLine;
    ModeLines(it.tmp);
    FlattenLines(ItemText(it));
  }

  /** Appending an item's lines keeps the listing in step with its record. */
  lemma Appended(lines: seq<string>, items: seq<Item>, it: Item)
    requires Flatten(lines) == Listed(items) && OneLiners(items) && !it.Code? && OneLine(it.tmp)
    ensures Flatten(lines + ItemText(it)) == Listed(items + [it]) && OneLiners(items + [it])
  {
    hide ItemText;
    hide OneLine;
    hide Flatten;
    hide Listed;
    FlattenAppend(lines, ItemText(it));
    ItemLines(it);
    ListedOne(items, it);
  }
}
