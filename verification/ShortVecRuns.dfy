/**
 Runs of a generator's listing: where the FPSCR's short-vector mode is on, and what an accepted listing runs under it.
 */
module ShortVecRuns {
  import opened ShortVecText
  import opened ShortVec
  import opened ShortVecTokens
  import opened ShortVecMode
  import opened ShortVecInsn

  // --- the mode bits ---

  const FIELD_MASK: bv32 := 0x370000
  const FIELD_SET: bv32 := 0x30000

  /** The cumulative exception flags: IDC and IXC down to IOC. */
  const FLAGS: bv32 := 0x9F

  function LenField(f: bv32): bv32 { (f >> 16) & 7 }

  function StrideField(f: bv32): bv32 { (f >> 20) & 3 }

  /** The instructions `enter` and `leave` emit, on one core register. */
  datatype ModeInstr = Vmrs | BicMask | OrrSet | Vmsr

  function ModeCode(m: ModeInstr, tmp: string): (r: string)
    ensures r != "" && IsLower(r[0])
  {
    match m
    case Vmrs => "vmrs " + tmp + ", fpscr"
    case BicMask => "bic " + tmp + ", " + tmp + ", #0x370000"
    case OrrSet => "orr " + tmp + ", " + tmp + ", #0x30000"
    case Vmsr => "vmsr fpscr, " + tmp
  }

  function ModeText(m: ModeInstr, tmp: string): string { "    " + ModeCode(m, tmp) }

  const ENTER_LINE: string := "    " + (ENTER_MARK + " (LEN 4, STRIDE 1)")
  const LEAVE_LINE: string := "    " + LEAVE_MARK

  function EnterText(tmp: string): seq<string>
  {
    [ModeText(Vmrs, tmp), ModeText(BicMask, tmp), ModeText(OrrSet, tmp), ModeText(Vmsr, tmp), ENTER_LINE]
  }

  function LeaveText(tmp: string): seq<string>
  {
    [LEAVE_LINE, ModeText(Vmrs, tmp), ModeText(BicMask, tmp), ModeText(Vmsr, tmp)]
  }

  /** The FPSCR and the core register. */
  datatype Cpu = Cpu(fpscr: bv32, tmp: bv32)

  function Exec(m: ModeInstr, c: Cpu): Cpu
  {
    match m
    case Vmrs => c.(tmp := c.fpscr)
    case BicMask => c.(tmp := c.tmp & !FIELD_MASK)
    case OrrSet => c.(tmp := c.tmp | FIELD_SET)
    case Vmsr => c.(fpscr := c.tmp)
  }

  function EnterMode(f: bv32): bv32 { Exec(Vmsr, Exec(OrrSet, Exec(BicMask, Exec(Vmrs, Cpu(f, 0))))).fpscr }

  function LeaveMode(f: bv32): bv32 { Exec(Vmsr, Exec(BicMask, Exec(Vmrs, Cpu(f, 0)))).fpscr }

  predicate ModeIs(f: bv32, inside: bool) { StrideField(f) == 0 && LenField(f) == if inside then 3 else 0 }

  lemma ModeValues(f: bv32)
    ensures EnterMode(f) == (f & 0xFFC8_FFFF) | 0x30000 && LeaveMode(f) == f & 0xFFC8_FFFF
  {
    assert !FIELD_MASK == 0xFFC8_FFFF;
  }

  /** The mode is as given, and the FPSCR is otherwise what it was. */
  predicate OnlyMode(f: bv32, g: bv32, on: bool) { ModeIs(g, on) && g & 0xFFC8_FFFF == f & 0xFFC8_FFFF }

  lemma EnterBits(f: bv32, g: bv32)
    requires g == (f & 0xFFC8_FFFF) | 0x30000
    ensures OnlyMode(f, g, true)
  {
  }

  lemma LeaveBits(f: bv32, g: bv32)
    requires g == f & 0xFFC8_FFFF
    ensures OnlyMode(f, g, false)
  {
  }

  /**
   Entering sets LEN 4 and STRIDE 1 (fields 3 and 0) and no other bit; leaving clears both fields and no other bit.
   */
  lemma ModeBits(f: bv32)
    ensures OnlyMode(f, EnterMode(f), true) && OnlyMode(f, LeaveMode(f), false)
  {
    hide EnterMode;
    hide LeaveMode;
    hide OnlyMode;
    ModeValues(f);
    EnterBits(f, EnterMode(f));
    LeaveBits(f, LeaveMode(f));
  }

  /** Exception flags raised inside a region survive its end; everything else is as it was before the region. */
  lemma FlagsSurvive(f: bv32, raised: bv32)
    requires ModeIs(f, false)
    ensures LeaveMode(EnterMode(f) | (raised & FLAGS)) == f | (raised & FLAGS)
  {
    hide EnterMode;
    hide LeaveMode;
    ModeValues(f);
    ModeValues(EnterMode(f) | (raised & FLAGS));
    FlagBits(f, raised);
  }

  lemma FlagBits(f: bv32, raised: bv32)
    requires (f >> 20) & 3 == 0 && (f >> 16) & 7 == 0
    ensures ((f & 0xFFC8_FFFF) | 0x30000 | (raised & 0x9F)) & 0xFFC8_FFFF == f | (raised & 0x9F)
  {
  }

  lemma FlagsKeepMode(f: bv32, raised: bv32, inside: bool)
    requires ModeIs(f, inside)
    ensures ModeIs(f | (raised & FLAGS), inside)
  {
  }

  // --- programs ---

  /** What a generator emits: the two mode sequences, and single lines of its own. */
  datatype Item = EnterItem(tmp: string) | LeaveItem(tmp: string) | Code(text: string)

  function ItemText(it: Item): seq<string>
  {
    match it
    case EnterItem(tmp) => EnterText(tmp)
    case LeaveItem(tmp) => LeaveText(tmp)
    case Code(text) => [text]
  }

  /** The listing of the first items. */
  function Listed(items: seq<Item>): seq<string>
  {
    if items == [] then [] else Listed(items[..|items| - 1]) + ItemText(items[|items| - 1])
  }

  predicate OneLine(s: string) { '\n' !in s }

  predicate OneLiners(items: seq<Item>)
  {
    forall i :: 0 <= i < |items| ==>
      match items[i]
      case EnterItem(tmp) => OneLine(tmp)
      case LeaveItem(tmp) => OneLine(tmp)
      case Code(text) => OneLine(text)
  }

  lemma JoinedLine(a: string, b: string)
    requires OneLine(a) && OneLine(b)
    ensures OneLine(a + b)
  {
  }

  lemma ModeLiterals()
    ensures OneLine("    ") && OneLine("vmrs ") && OneLine(", fpscr") && OneLine("bic ") && OneLine(", ")
    ensures OneLine(", #0x370000") && OneLine("orr ") && OneLine(", #0x30000") && OneLine("vmsr fpscr, ")
  {
  }

  lemma ModeLine(m: ModeInstr, tmp: string)
    requires OneLine(tmp)
    ensures OneLine(ModeText(m, tmp))
  {
    hide OneLine;
    ModeLiterals();
    match m {
      case Vmrs =>
        JoinedLine("vmrs ", tmp);
        JoinedLine("vmrs " + tmp, ", fpscr");
      case BicMask =>
        JoinedLine("bic ", tmp);
        JoinedLine("bic " + tmp, ", ");
        JoinedLine("bic " + tmp + ", ", tmp);
        JoinedLine("bic " + tmp + ", " + tmp, ", #0x370000");
      case OrrSet =>
        JoinedLine("orr ", tmp);
        JoinedLine("orr " + tmp, ", ");
        JoinedLine("orr " + tmp + ", ", tmp);
        JoinedLine("orr " + tmp + ", " + tmp, ", #0x30000");
      case Vmsr => JoinedLine("vmsr fpscr, ", tmp);
    }
    JoinedLine("    ", ModeCode(m, tmp));
  }

  lemma ModeLines(tmp: string)
    requires OneLine(tmp)
    ensures forall m :: OneLine(ModeText(m, tmp))
    ensures OneLine(ENTER_LINE) && OneLine(LEAVE_LINE)
  {
    hide ModeText;
    forall m ensures OneLine(ModeText(m, tmp)) { ModeLine(m, tmp); }
  }

  /** What the checker is given, line by line, is what was emitted. */
  lemma {:induction false} ListedLines(items: seq<Item>)
    requires OneLiners(items)
    ensures forall i :: 0 <= i < |Listed(items)| ==> OneLine(Listed(items)[i])
    ensures Flatten(Listed(items)) == Listed(items)
    decreases |items|
  {
    hide OneLine;
    hide ModeText;
    if items != [] {
      var it := items[|items| - 1];
      ListedLines(items[..|items| - 1]);
      match it
      case EnterItem(tmp) => ModeLines(tmp);
      case LeaveItem(tmp) => ModeLines(tmp);
      case Code(text) =>
    }
    FlattenLines(Listed(items));
  }

  lemma {:induction false} FlattenLines(lines: seq<string>)
    requires forall i :: 0 <= i < |lines| ==> OneLine(lines[i])
    ensures Flatten(lines) == lines
  {
    if lines != [] {
      BeforeNone(lines[0], '\n');
      FlattenLines(lines[1..]);
    }
  }

  /** A generator's own lines carry no region marks. */
  predicate NoMarks(items: seq<Item>)
  {
    forall i :: 0 <= i < |items| && items[i].Code? ==>
      Classify(items[i].text) != Enter && Classify(items[i].text) != Leave
  }

  /** Item i stands inside a region. */
  predicate Within(items: seq<Item>, i: nat)
    requires i <= |items|
  {
    i > 0 && (items[i - 1].EnterItem? || (items[i - 1].Code? && Within(items, i - 1)))
  }

  lemma IndentedNoMark(s: string)
    requires s != "" && !IsSpace(s[0]) && s[0] != '@'
    ensures Classify("    " + s) != Enter && Classify("    " + s) != Leave
  {
    IndentStrips(s);
    StripRightFirst(s);
    assert Strip("    " + s)[0] == s[0];
    NotAMark("    " + s);
  }

  lemma NotAMark(raw: string)
    requires Strip(raw) != "" && Strip(raw)[0] != '@'
    ensures Classify(raw) != Enter && Classify(raw) != Leave
  {
    hide Strip;
    hide Before;
    hide IsSize;
    hide IsLabel;
    hide Contains;
    hide FirstWord;
    assert ENTER_MARK[0] == '@' && LEAVE_MARK[0] == '@';
  }

  lemma {:induction false} StripRightFirst(s: string)
    requires s != "" && !IsSpace(s[0])
    ensures StripRight(s) != "" && StripRight(s)[0] == s[0]
  {
    if IsSpace(s[|s| - 1]) {
      StripRightFirst(s[..|s| - 1]);
    }
  }

  lemma EnterLine()
    ensures Classify(ENTER_LINE) == Enter
  {
    var e := ENTER_MARK + " (LEN 4, STRIDE 1)";
    StripIndent(e);
    assert ENTER_MARK <= e;
    assert StartsWith(Strip(ENTER_LINE), ENTER_MARK);
    hide ENTER_MARK;
  }

  lemma LeaveLine()
    ensures Classify(LEAVE_LINE) == Leave
  {
    StripIndent(LEAVE_MARK);
    MarksDiffer();
    assert Strip(LEAVE_LINE) == LEAVE_MARK;
  }

  lemma MarksDiffer()
    ensures !StartsWith(LEAVE_MARK, ENTER_MARK)
  {
    assert LEAVE_MARK[12] == 'l' && ENTER_MARK[12] == 'e';
  }

  lemma ModeTextNoMark(m: ModeInstr, tmp: string)
    ensures Classify(ModeText(m, tmp)) != Enter && Classify(ModeText(m, tmp)) != Leave
  {
    hide Classify;
    hide ModeCode;
    IndentedNoMark(ModeCode(m, tmp));
  }

  lemma InsidePrefix(L: seq<Line>, M: seq<Line>, i: nat)
    requires i <= |L| <= |M| && L == M[..|L|]
    ensures Inside(L, i) == Inside(M, i)
  {
    assert forall k :: 0 <= k < |L| ==> L[k] == M[k];
    if Inside(L, i) {
      var j :| 0 <= j < i && L[j] == Enter && forall k :: j < k < i ==> L[k] != Leave;
      assert M[j] == Enter && forall k :: j < k < i ==> M[k] != Leave;
    }
    if Inside(M, i) {
      var j :| 0 <= j < i && M[j] == Enter && forall k :: j < k < i ==> M[k] != Leave;
      assert L[j] == Enter && forall k :: j < k < i ==> L[k] != Leave;
    }
  }

  lemma {:induction false} ListedPrefix(items: seq<Item>, i: nat)
    requires i <= |items|
    ensures Listed(items[..i]) <= Listed(items)
    decreases |items|
  {
    if i < |items| {
      var q := items[..|items| - 1];
      ListedPrefix(q, i);
      assert q[..i] == items[..i];
    } else {
      assert items[..i] == items;
    }
  }

  /** Appending one item's lines moves the region flag as the item says. */
  lemma ItemStep(L: seq<Line>, m: nat, it: Item)
    requires |L| == m + |ItemText(it)| && L[m..] == Classified(ItemText(it))
    requires it.Code? ==> Classify(it.text) != Enter && Classify(it.text) != Leave
    ensures Inside(L, |L|) <==> it.EnterItem? || (it.Code? && Inside(L, m))
  {
    hide Classify;
    hide Inside;
    hide ModeText;
    var C := Classified(ItemText(it));
    assert forall k :: 0 <= k < |C| ==> L[m + k] == C[k];
    match it
    case EnterItem(tmp) =>
      EnterLine();
      assert L[m + 4] == C[4] == Enter;
      InsideStep(L, m + 4);
    case LeaveItem(tmp) =>
      LeaveLine();
      ModeTextNoMark(Vmrs, tmp);
      ModeTextNoMark(BicMask, tmp);
      ModeTextNoMark(Vmsr, tmp);
      assert L[m] == C[0] && L[m + 1] == C[1] && L[m + 2] == C[2] && L[m + 3] == C[3];
      InsideStep(L, m);
      InsideStep(L, m + 1);
      InsideStep(L, m + 2);
      InsideStep(L, m + 3);
    case Code(text) =>
      assert L[m] == C[0];
      InsideStep(L, m);
  }

  lemma {:induction false} WithinAtEnd(items: seq<Item>)
    requires NoMarks(items)
    ensures Within(items, |items|) == Inside(Classified(Listed(items)), |Listed(items)|)
    decreases |items|
  {
    hide Classify;
    hide Inside;
    hide ItemText;
    if items == [] {
      InsideStart([]);
      assert Classified([]) == [];
    } else {
      var q, it := items[..|items| - 1], items[|items| - 1];
      WithinAtEnd(q);
      WithinPrefix(q, items, |q|);
      var L, Lq := Classified(Listed(items)), Classified(Listed(q));
      var m := |Listed(q)|;
      assert L[..m] == Lq;
      assert L[m..] == Classified(ItemText(it));
      InsidePrefix(Lq, L, m);
      ItemStep(L, m, it);
    }
  }

  lemma {:induction false} WithinPrefix(q: seq<Item>, items: seq<Item>, i: nat)
    requires i <= |q| && q <= items
    ensures Within(q, i) == Within(items, i)
  {
    if i > 0 {
      WithinPrefix(q, items, i - 1);
      assert q[i - 1] == items[i - 1];
    }
  }

  /** An item stands within a region if and only if its first line does. */
  lemma WithinIsInside(items: seq<Item>, i: nat)
    requires NoMarks(items) && i <= |items|
    ensures var m := |Listed(items[..i])|;
      m <= |Listed(items)| && Within(items, i) == Inside(Classified(Listed(items)), m)
  {
    hide Classify;
    hide Inside;
    var q := items[..i];
    ListedPrefix(items, i);
    WithinAtEnd(q);
    WithinPrefix(q, items, i);
    var L, Lq := Classified(Listed(items)), Classified(Listed(q));
    assert L[..|Lq|] == Lq;
    InsidePrefix(Lq, L, |Lq|);
  }

  /** Where a generator's own line stands in the listing. */
  lemma CodeLine(items: seq<Item>, i: nat)
    requires i < |items| && items[i].Code?
    ensures var m := |Listed(items[..i])|;
      m < |Listed(items)| && Classified(Listed(items))[m] == Classify(items[i].text)
  {
    hide Classify;
    ListedPrefix(items, i + 1);
    var r := items[..i + 1];
    assert r[..|r| - 1] == items[..i] && r[|r| - 1] == items[i];
    assert Listed(r) == Listed(items[..i]) + [items[i].text];
    assert Listed(r)[|Listed(items[..i])|] == items[i].text;
  }

  // --- execution ---

  /** Statement stmt of item item; a mode sequence is one place, and so is the end. */
  datatype Place = Place(item: nat, stmt: nat)

  predicate PlaceIn(items: seq<Item>, p: Place)
  {
    && p.item <= |items|
    && (p.stmt == 0
        || (p.item < |items| && items[p.item].Code? && p.stmt < |Statements(items[p.item].text)|))
  }

  /** What the machine makes of a statement: exception flags, and a value where the FPSCR is written. */
  datatype Effect = Effect(written: bv32, flags: bv32)

  ghost predicate WritesIn(o: Other, text: string, k: nat)
  {
    k < |Statements(text)| && WritesBy(o, Statements(text)[k], Ring(text))
  }

  ghost predicate UnsafeIn(o: Other, text: string, k: nat)
  {
    k < |Statements(text)| && UnsafeBy(o, Statements(text)[k], Ring(text))
  }

  ghost function Step(o: Other, it: Item, k: nat, f: bv32, e: Effect): bv32
  {
    match it
    case EnterItem(tmp) => EnterMode(f)
    case LeaveItem(tmp) => LeaveMode(f)
    case Code(text) => if WritesIn(o, text, k) then e.written else f | (e.flags & FLAGS)
  }

  /**
   Control goes on to the next item, or from a statement of the generator's own to any in the same region (or outside
   all): the next of its line, or a label anywhere, in the middle of a line too.
   */
  predicate Follows(items: seq<Item>, p: Place, q: Place)
    requires p.item < |items|
  {
    && PlaceIn(items, q)
    && (q == Place(p.item + 1, 0) || (items[p.item].Code? && Within(items, p.item) == Within(items, q.item)))
  }

  predicate Reached(items: seq<Item>, path: seq<Place>, k: nat)
    requires 1 <= k < |path|
  {
    path[k - 1].item < |items| && Follows(items, path[k - 1], path[k])
  }

  /** The places a run passes, from the start. */
  ghost predicate Path(items: seq<Item>, path: seq<Place>)
  {
    path != [] && path[0] == Place(0, 0) && forall k :: 1 <= k < |path| ==> Reached(items, path, k)
  }

  /** The FPSCR where the run has made k steps. */
  ghost function Fpscr(o: Other, items: seq<Item>, path: seq<Place>, k: nat, f: bv32, eff: int -> Effect): bv32
    requires Path(items, path) && k < |path|
  {
    if k == 0 then f
    else
      assert Reached(items, path, k);
      Step(o, items[path[k - 1].item], path[k - 1].stmt, Fpscr(o, items, path, k - 1, f, eff), eff(k - 1))
  }

  lemma StepKeeps(o: Other, it: Item, k: nat, g: bv32, e: Effect, inside: bool)
    requires ModeIs(g, inside) && (it.Code? && WritesIn(o, it.text, k) ==> ModeIs(e.written, inside))
    ensures ModeIs(Step(o, it, k, g, e), it.EnterItem? || (it.Code? && inside))
  {
    hide ModeIs;
    hide EnterMode;
    hide LeaveMode;
    hide WritesIn;
    match it
    case EnterItem(tmp) => ModeBits(g);
    case LeaveItem(tmp) => ModeBits(g);
    case Code(text) => FlagsKeepMode(g, e.flags, inside);
  }

  /** The statement at p writes the FPSCR's mode only with the value it has. */
  ghost predicate KeepsMode(o: Other, items: seq<Item>, p: Place, e: Effect)
  {
    p.item < |items| && items[p.item].Code? && WritesIn(o, items[p.item].text, p.stmt) ==>
      ModeIs(e.written, Within(items, p.item))
  }

  /** The mode follows the regions as long as every FPSCR write of the generator's own keeps it. */
  lemma {:induction false} ModeTracks(
      o: Other, items: seq<Item>, path: seq<Place>, k: nat, f: bv32, eff: int -> Effect)
    requires Path(items, path) && k < |path| && ModeIs(f, false)
    requires forall m :: 0 <= m < k ==> KeepsMode(o, items, path[m], eff(m))
    ensures path[k].item <= |items| && ModeIs(Fpscr(o, items, path, k, f, eff), Within(items, path[k].item))
  {
    hide ModeIs;
    hide Step;
    hide WritesIn;
    if k > 0 {
      ModeTracks(o, items, path, k - 1, f, eff);
      var p := path[k - 1];
      assert Reached(items, path, k) && KeepsMode(o, items, p, eff(k - 1));
      StepKeeps(o, items[p.item], p.stmt, Fpscr(o, items, path, k - 1, f, eff), eff(k - 1), Within(items, p.item));
    }
  }

  /** The run that takes the items in order as far as statement k of item i. */
  function Straight(i: nat, k: nat): (path: seq<Place>)
    ensures path != [] && path[|path| - 1] == Place(i, k) && path[0] == Place(0, if i == 0 && |path| == 1 then k else 0)
    ensures forall m :: 0 <= m < |path| ==> path[m].item == if m <= i then m else i
  {
    seq(i + 1, m requires 0 <= m => Place(m, 0)) + if k == 0 then [] else [Place(i, k)]
  }

  lemma StraightPath(items: seq<Item>, i: nat, k: nat)
    requires PlaceIn(items, Place(i, k))
    ensures Path(items, Straight(i, k))
  {
    hide Statements;
  }

  lemma PathOn(items: seq<Item>, path: seq<Place>, q: Place)
    requires Path(items, path) && path[|path| - 1].item < |items| && Follows(items, path[|path| - 1], q)
    ensures Path(items, path + [q])
  {
    hide Follows;
    var more := path + [q];
    forall k | 1 <= k < |more| ensures Reached(items, more, k) {
      assert k < |path| ==> Reached(items, path, k);
    }
  }

  lemma WrongMode(inside: bool) returns (g: bv32)
    ensures !ModeIs(g, inside)
  {
    g := if inside then 0 else 0x30000;
  }

  /** No statement of the generator's own writes the FPSCR. */
  ghost predicate NoModeWrites(items: seq<Item>, o: Other)
  {
    forall i, k :: 0 <= i < |items| && 0 <= k && items[i].Code? ==> !WritesIn(o, items[i].text, k)
  }

  ghost predicate ModeRight(items: seq<Item>, o: Other, path: seq<Place>, k: nat, f: bv32, eff: int -> Effect)
    requires Path(items, path) && k < |path|
  {
    path[k].item <= |items| && ModeIs(Fpscr(o, items, path, k, f, eff), Within(items, path[k].item))
  }

  /** The mode is LEN 4, STRIDE 1 exactly within the regions, on every run and every machine behaviour. */
  ghost predicate ModeFollows(items: seq<Item>, o: Other, f: bv32)
  {
    forall path: seq<Place>, k: nat, eff: int -> Effect :: Path(items, path) && k < |path| ==>
      ModeRight(items, o, path, k, f, eff)
  }

  /** The mode follows the regions if and only if no statement of the generator's own writes the FPSCR. */
  lemma ModeTracksIff(items: seq<Item>, o: Other, f: bv32)
    requires ModeIs(f, false)
    ensures ModeFollows(items, o, f) <==> NoModeWrites(items, o)
  {
    hide ModeIs;
    hide WritesIn;
    hide Path;
    hide PlaceIn;
    if NoModeWrites(items, o) {
      forall path: seq<Place>, k: nat, eff: int -> Effect | Path(items, path) && k < |path|
        ensures ModeRight(items, o, path, k, f, eff)
      {
        ModeTracks(o, items, path, k, f, eff);
      }
    } else {
      var i, k :| 0 <= i < |items| && 0 <= k && items[i].Code? && WritesIn(o, items[i].text, k);
      WriteShows(items, o, f, i, k);
    }
  }

  lemma WriteShows(items: seq<Item>, o: Other, f: bv32, i: nat, k: nat)
    requires i < |items| && items[i].Code? && WritesIn(o, items[i].text, k)
    ensures !ModeFollows(items, o, f)
  {
    hide ModeIs;
    hide EnterMode;
    hide LeaveMode;
    hide WritesBy;
    hide Statements;
    hide Straight;
    var g := WrongMode(Within(items, i));
    var eff: int -> Effect := m => Effect(g, 0);
    var path := Straight(i, k);
    StraightPath(items, i, k);
    PathOn(items, path, Place(i + 1, 0));
    hide Path;
    var more, n := path + [Place(i + 1, 0)], |path|;
    assert more[n - 1] == Place(i, k) && more[n] == Place(i + 1, 0);
    assert Fpscr(o, items, more, n, f, eff) == g;
    assert Within(items, i + 1) == Within(items, i);
    assert !ModeRight(items, o, more, n, f, eff);
  }

  // --- safety ---

  /** What a place may do with the FPSCR as it is: unsafe statements and ends need LEN 1, STRIDE 1. */
  ghost predicate SafePlace(items: seq<Item>, o: Other, p: Place, g: bv32)
    requires p.item <= |items|
  {
    && (p.item == |items| ==> ModeIs(g, false))
    && (p.item < |items| && items[p.item].Code? ==>
          && (UnsafeIn(o, items[p.item].text, p.stmt) ==> ModeIs(g, false))
          && (SizeLine(items[p.item].text) ==> ModeIs(g, false)))
  }

  ghost predicate SafeStep(items: seq<Item>, o: Other, path: seq<Place>, k: nat, f: bv32, eff: int -> Effect)
    requires Path(items, path) && k < |path|
  {
    path[k].item <= |items| && SafePlace(items, o, path[k], Fpscr(o, items, path, k, f, eff))
  }

  /** Outside the regions a generator's own writes of the FPSCR leave LEN and STRIDE as they are. */
  ghost predicate HonestAt(items: seq<Item>, o: Other, p: Place, e: Effect)
  {
    p.item <= |items| && !Within(items, p.item) ==> KeepsMode(o, items, p, e)
  }

  ghost predicate Honest(items: seq<Item>, o: Other, path: seq<Place>, k: nat, eff: int -> Effect)
    requires k <= |path|
  {
    forall m :: 0 <= m < k ==> HonestAt(items, o, path[m], eff(m))
  }

  ghost predicate RunsSafely(items: seq<Item>, o: Other, f: bv32)
  {
    forall path: seq<Place>, k: nat, eff: int -> Effect ::
      Path(items, path) && k < |path| && Honest(items, o, path, k, eff) ==> SafeStep(items, o, path, k, f, eff)
  }

  /** Every unsafe instruction of the line is the whole of it, and written in one of the ways the checker knows. */
  ghost predicate KnownLine(text: string)
  {
    forall k, c :: 0 <= k < |Statements(text)| && Says(Statements(text)[k], Ring(text), c) && Unsafe(c) ==>
      Plain(text) && Seen(c)
  }

  ghost predicate KnownSpellings(items: seq<Item>)
  {
    forall i :: 0 <= i < |items| && items[i].Code? && Within(items, i) ==> KnownLine(items[i].text)
  }

  ghost predicate HarmlessLine(o: Other, text: string)
  {
    forall k :: 0 <= k < |Statements(text)| ==> !OtherUnsafe(o, Statements(text)[k], Ring(text))
  }

  /** No statement within a region that is outside the model is unsafe there. */
  ghost predicate OthersHarmless(items: seq<Item>, o: Other)
  {
    forall i :: 0 <= i < |items| && items[i].Code? && Within(items, i) ==> HarmlessLine(o, items[i].text)
  }

  ghost predicate Accepts(items: seq<Item>) { Clean(Classified(Listed(items))) }

  /** A line accepted within a region is no unsafe instruction of a known spelling, and no end of a function. */
  lemma AcceptedLine(items: seq<Item>, i: nat)
    requires NoMarks(items) && Accepts(items) && i < |items| && items[i].Code? && Within(items, i)
    ensures !SizeLine(items[i].text)
    ensures forall c :: Spells(items[i].text, c) ==> !(Unsafe(c) && Seen(c))
  {
    hide Classify;
    hide Inside;
    hide InstrFault;
    hide Spells;
    hide Unsafe;
    hide Seen;
    hide Within;
    hide Listed;
    hide SizeLine;
    WithinIsInside(items, i);
    CodeLine(items, i);
    SizeLineIff(items[i].text);
    var m := |Listed(items[..i])|;
    assert FaultAt(Classified(Listed(items)), m) == None;
    forall c | Spells(items[i].text, c) ensures !(Unsafe(c) && Seen(c)) {
      RejectedIff(items[i].text, c);
    }
  }

  /** An accepted line of known spellings and harmless others has no unsafe statement. */
  lemma KnownLineSafe(o: Other, text: string, k: nat)
    requires KnownLine(text) && HarmlessLine(o, text)
    requires forall c :: Spells(text, c) ==> !(Unsafe(c) && Seen(c))
    ensures !UnsafeIn(o, text, k)
  {
    hide Statements;
    hide Says;
    hide Unsafe;
    hide Seen;
    hide OtherUnsafe;
    hide CodeOf;
    if k < |Statements(text)| {
      var s := Statements(text)[k];
      assert !OtherUnsafe(o, s, Ring(text));
      forall c ensures !(Says(s, Ring(text), c) && Unsafe(c)) {
        if Plain(text) { assert s == CodeOf(text); }
        assert Spells(text, c) ==> !(Unsafe(c) && Seen(c));
      }
    }
  }

  lemma UnsafeLine(o: Other, text: string) returns (k: nat)
    requires !(KnownLine(text) && HarmlessLine(o, text))
    ensures k < |Statements(text)| && UnsafeIn(o, text, k)
  {
    hide Statements;
    hide Says;
    hide Unsafe;
    hide Seen;
    hide Plain;
    hide Ring;
    hide OtherUnsafe;
    if !HarmlessLine(o, text) {
      k :| 0 <= k < |Statements(text)| && OtherUnsafe(o, Statements(text)[k], Ring(text));
    } else {
      ghost var c;
      k, c :| 0 <= k < |Statements(text)| && Says(Statements(text)[k], Ring(text), c) && Unsafe(c)
        && !(Plain(text) && Seen(c));
    }
  }

  /** A place within a region of an accepted listing is safe in any mode, and keeps the mode. */
  lemma RegionPlace(items: seq<Item>, o: Other, p: Place)
    requires NoMarks(items) && Accepts(items) && KnownSpellings(items) && OthersHarmless(items, o)
    requires p.item < |items| && items[p.item].Code? && Within(items, p.item)
    ensures !UnsafeIn(o, items[p.item].text, p.stmt) && !WritesIn(o, items[p.item].text, p.stmt)
    ensures !SizeLine(items[p.item].text)
  {
    hide Classify;
    hide Within;
    hide NoMarks;
    hide Accepts;
    hide KnownLine;
    hide HarmlessLine;
    hide UnsafeBy;
    hide WritesBy;
    hide Statements;
    hide Spells;
    var text := items[p.item].text;
    AcceptedLine(items, p.item);
    KnownLineSafe(o, text, p.stmt);
    if WritesIn(o, text, p.stmt) { WriteIsUnsafe(o, Statements(text)[p.stmt], Ring(text)); }
  }

  lemma EndIsOutside(items: seq<Item>)
    requires NoMarks(items) && Accepts(items)
    ensures !Within(items, |items|)
  {
    hide NoMarks;
    hide Classify;
    hide Inside;
    WithinIsInside(items, |items|);
    assert items[..|items|] == items;
  }

  lemma KnownIsSafe(items: seq<Item>, o: Other, f: bv32, path: seq<Place>, k: nat, eff: int -> Effect)
    requires NoMarks(items) && Accepts(items) && KnownSpellings(items) && OthersHarmless(items, o) && ModeIs(f, false)
    requires Path(items, path) && k < |path| && Honest(items, o, path, k, eff)
    ensures SafeStep(items, o, path, k, f, eff)
  {
    hide ModeIs;
    hide WritesIn;
    hide UnsafeIn;
    hide NoMarks;
    hide Within;
    hide Accepts;
    hide Classify;
    hide KnownSpellings;
    hide OthersHarmless;
    hide Fpscr;
    forall m | 0 <= m < k ensures KeepsMode(o, items, path[m], eff(m)) {
      var p := path[m];
      assert HonestAt(items, o, p, eff(m));
      if p.item < |items| && items[p.item].Code? && Within(items, p.item) { RegionPlace(items, o, p); }
    }
    ModeTracks(o, items, path, k, f, eff);
    EndIsOutside(items);
    var p := path[k];
    if p.item < |items| && items[p.item].Code? && Within(items, p.item) { RegionPlace(items, o, p); }
  }

  /** The machine behaviour in which every write repeats the mode of the place it stands at, on a straight run. */
  ghost function Repeating(items: seq<Item>): int -> Effect
  {
    m => Effect(if 0 <= m <= |items| && Within(items, m) then 0x30000 else 0, 0)
  }

  lemma RepeatingKeeps(items: seq<Item>, o: Other, i: nat, k: nat, m: nat)
    requires m < |Straight(i, k)| - 1
    ensures KeepsMode(o, items, Straight(i, k)[m], Repeating(items)(m))
  {
    hide WritesIn;
    hide Within;
    assert ModeIs(0x30000, true) && ModeIs(0, false);
    hide ModeIs;
    assert Straight(i, k)[m].item == m;
  }

  lemma BothModes(g: bv32)
    ensures !(ModeIs(g, true) && ModeIs(g, false))
  {
  }

  /** An unsafe statement within a region is reached with the mode on. */
  lemma UnsafeInRegion(items: seq<Item>, o: Other, f: bv32, i: nat, k: nat)
    requires ModeIs(f, false) && i < |items| && items[i].Code? && Within(items, i) && UnsafeIn(o, items[i].text, k)
    ensures !RunsSafely(items, o, f)
  {
    hide ModeIs;
    hide Within;
    hide UnsafeBy;
    hide Statements;
    hide Straight;
    hide Path;
    hide Fpscr;
    hide KeepsMode;
    hide Repeating;
    StraightPath(items, i, k);
    var path, eff, n := Straight(i, k), Repeating(items), |Straight(i, k)| - 1;
    forall m | 0 <= m < n ensures KeepsMode(o, items, path[m], eff(m)) { RepeatingKeeps(items, o, i, k, m); }
    ModeTracks(o, items, path, n, f, eff);
    assert path[n] == Place(i, k);
    BothModes(Fpscr(o, items, path, n, f, eff));
    assert Honest(items, o, path, n, eff);
    assert !SafeStep(items, o, path, n, f, eff);
  }

  /**
   The safety of an accepted listing, run from LEN 1 with branches anywhere inside a region or outside all of them,
   FPSCR writes outside the regions keeping LEN and STRIDE. On every run and every machine behaviour each call, return,
   branch to a name, pc write, FPSCR write, double-precision operation and wrapping vector, in whichever statement of
   its line and after whatever label, happens with the mode off, as do the ends of functions and of the listing, if and
   only if each such instruction within a region is alone on its line and written in a way the checker knows, and no
   statement there outside the model does any such thing.
   */
  lemma AcceptedSafeIff(items: seq<Item>, o: Other, f: bv32)
    requires NoMarks(items) && Accepts(items) && ModeIs(f, false)
    ensures RunsSafely(items, o, f) <==> KnownSpellings(items) && OthersHarmless(items, o)
  {
    hide ModeIs;
    hide NoMarks;
    hide Accepts;
    hide SafeStep;
    hide Honest;
    hide Path;
    hide Within;
    hide KnownLine;
    hide HarmlessLine;
    hide UnsafeIn;
    if KnownSpellings(items) && OthersHarmless(items, o) {
      forall path: seq<Place>, k: nat, eff: int -> Effect
        | Path(items, path) && k < |path| && Honest(items, o, path, k, eff)
        ensures SafeStep(items, o, path, k, f, eff)
      {
        KnownIsSafe(items, o, f, path, k, eff);
      }
    } else {
      var i :| 0 <= i < |items| && items[i].Code? && Within(items, i)
        && !(KnownLine(items[i].text) && HarmlessLine(o, items[i].text));
      var k := UnsafeLine(o, items[i].text);
      UnsafeInRegion(items, o, f, i, k);
    }
  }

  // --- what the checker does not see ---

  predicate NeitherMark(L: seq<Line>, a: nat, b: nat)
    requires a <= b <= |L|
  {
    forall k :: a <= k < b ==> L[k] != Enter && L[k] != Leave
  }

  lemma {:induction false} InsideStays(L: seq<Line>, a: nat, b: nat)
    requires a <= b <= |L| && NeitherMark(L, a, b)
    ensures Inside(L, b) == Inside(L, a)
    decreases b
  {
    hide Inside;
    if a < b {
      InsideStays(L, a, b - 1);
      InsideStep(L, b - 1);
    }
  }

  /** One region of one instruction the checker has nothing against. */
  lemma OneLineRegion(L: seq<Line>, p: nat)
    requires p + 3 <= |L| && NeitherMark(L, 0, p) && L[p] == Enter && L[p + 2] == Leave && NeitherMark(L, p + 3, |L|)
    requires L[p + 1].Instr? && InstrFault(L[p + 1].op, L[p + 1].rest, L[p + 1].ring) == None
    ensures Clean(L) && Inside(L, p + 1)
  {
    hide Inside;
    hide InstrFault;
    InsideStart(L);
    InsideStays(L, 0, p);
    InsideStep(L, p);
    InsideStep(L, p + 1);
    InsideStep(L, p + 2);
    InsideStays(L, p + 3, |L|);
    forall i | 0 <= i < |L| ensures FaultAt(L, i) == None {
      if i < p { InsideStays(L, 0, i); }
      if i >= p + 3 { InsideStays(L, p + 3, i); }
    }
  }

  /** The text of a region of one line. */
  function Region(tmp: string, text: string): seq<Item> { [EnterItem(tmp), Code(text), LeaveItem(tmp)] }

  lemma RegionLines(tmp: string, text: string)
    ensures Listed(Region(tmp, text)) == EnterText(tmp) + [text] + LeaveText(tmp)
  {
    var r := Region(tmp, text);
    assert r[..2] == [EnterItem(tmp), Code(text)] && r[..2][..1] == [EnterItem(tmp)] && r[..1][..0] == [];
    assert Listed([]) == [];
    assert Listed([EnterItem(tmp)]) == Listed([]) + EnterText(tmp);
    assert Listed(r[..2]) == Listed([EnterItem(tmp)]) + [text];
  }

  /** A line the checker has nothing against is accepted as the one line of a region. */
  lemma RegionAccepted(tmp: string, text: string)
    requires Classify(text).Instr?
    requires var l := Classify(text); InstrFault(l.op, l.rest, l.ring) == None
    ensures NoMarks(Region(tmp, text)) && Accepts(Region(tmp, text)) && Within(Region(tmp, text), 1)
  {
    hide Classify;
    hide InstrFault;
    hide ModeText;
    EnterLine();
    LeaveLine();
    forall m
      ensures Classify(ModeText(m, tmp)) != Enter && Classify(ModeText(m, tmp)) != Leave
    {
      ModeTextNoMark(m, tmp);
    }
    RegionLines(tmp, text);
    var lines := EnterText(tmp) + [text] + LeaveText(tmp);
    assert lines[4] == ENTER_LINE && lines[5] == text && lines[6] == LEAVE_LINE;
    OneLineRegion(Classified(lines), 4);
    assert Region(tmp, text)[0].EnterItem?;
  }

  /** As the one line of a region the text is accepted, and unsafe there whatever other statements do. */
  ghost predicate PassesUnsafely(tmp: string, text: string)
  {
    var r := Region(tmp, text);
    NoMarks(r) && Accepts(r) && forall o, f :: ModeIs(f, false) ==> !RunsSafely(r, o, f)
  }

  lemma AcceptedIsUnsafe(tmp: string, text: string, k: nat, c: Insn)
    requires Classify(text).Instr?
    requires var l := Classify(text); InstrFault(l.op, l.rest, l.ring) == None
    requires k < |Statements(text)| && Says(Statements(text)[k], Ring(text), c) && Unsafe(c)
    ensures PassesUnsafely(tmp, text)
  {
    hide Classify;
    hide InstrFault;
    hide Statements;
    hide Says;
    hide Unsafe;
    hide ModeIs;
    hide NoMarks;
    hide Accepts;
    hide Within;
    hide RunsSafely;
    hide Ring;
    RegionAccepted(tmp, text);
    var r := Region(tmp, text);
    assert r[1].Code? && r[1].text == text;
    forall o, f | ModeIs(f, false) ensures !RunsSafely(r, o, f) { UnsafeInRegion(r, o, f, 1, k); }
  }

  /** Every unsafe instruction in a spelling the checker does not know is accepted where it runs with the mode on. */
  lemma UnseenIsAccepted(tmp: string, text: string, c: Insn)
    requires Spells(text, c) && Unsafe(c) && !Seen(c)
    ensures PassesUnsafely(tmp, text)
  {
    hide Classify;
    hide InstrFault;
    hide Statements;
    hide Says;
    hide Unsafe;
    hide Seen;
    hide CodeOf;
    hide Ring;
    hide PassesUnsafely;
    RejectedIff(text, c);
    AcceptedIsUnsafe(tmp, text, 0, c);
  }

  // --- labels and second statements ---

  lemma FirstNotComma(c: Insn)
    requires WellFormed(c)
    ensures OperandsOf(c) != [] && OperandsOf(c)[0] != ","
  {
    hide CONDITIONS;
    hide IsName;
    hide IsPc;
    hide CoreName;
    OperandsAreTokens(c);
    match c
    case Exit(_, _, _, _) =>
    case Jump(_, _, _) =>
    case Dest(_, _, rd, _) =>
      CoreIsName(rd);
      NameIsToken(rd);
    case LoadList(pop, _, base, _, _) =>
      if !pop {
        CoreIsName(base);
        NameIsToken(base);
      }
      assert "{"[0] != ',';
    case SetFpscr(_, _, name, _) =>
      NameOf(name);
      assert IsName(name);
      NameIsToken(name);
    case Vector(_, _, _, double, _, regs, _) => RegToken(regs[0], double);
  }

  /** A mnemonic and its operands taken as operands: the first of them is not pc. */
  lemma StatementNotPc(mn: string, ops: string, c: Insn)
    requires Written(mn, ops, c)
    ensures var l := Operands(mn + " " + ops); l == [] || l[0] != "pc"
  {
    hide WellFormed;
    hide MnemonicOf;
    hide OperandsOf;
    hide Tokens;
    hide Operands;
    hide Lower;
    hide OperandText;
    WrittenSays(mn, ops, c);
    FirstNotComma(c);
    MnemonicTokens(mn);
    TokensSplit(mn, ' ', ops);
    assert mn + [' '] + ops == mn + " " + ops;
    var m, t := Tokens(mn), Tokens(mn) + OperandsOf(c);
    assert t[|m|] == OperandsOf(c)[0];
    if "," in t {
      var k := FirstComma(t);
      assert k > |m| by { assert forall j :: 0 <= j < |m| ==> t[j] == m[j]; }
      assert t == t[..k] + [","] + t[k + 1..];
      FirstOperandTokens(mn + " " + ops, t[..k], t[k + 1..]);
    } else {
      FirstOperandTokens(mn + " " + ops, t, []);
    }
  }

  lemma MnemonicTokens(mn: string)
    requires Mnemonic(Lower(mn))
    ensures Tokens(mn) != [] && "," !in Tokens(mn)
  {
    hide Mnemonic;
    hide Lower;
    hide Tokens;
    SpelledMnemonic(mn);
    WordStep(mn);
    MnemonicSymbols(mn);
    forall i | 0 <= i < |mn| ensures mn[i] != ',' { assert IsSym(mn[i]); }
    NoCommaToken(mn);
  }

  /** What a label may be: a name or a number. */
  predicate LabelName(l: string) { l != "" && AllWord(l) }

  /** The label before a statement is what the checker takes for the mnemonic. */
  lemma LabelOp(l: string)
    requires LabelName(l)
    ensures var op := Lower(l + ":");
      op == Lower(l) + ":" && !Exits(op) && op != "vmsr" && Before(op, '.') !in VECTOR_OPS
  {
    LowerChars(l + ":");
    LowerChars(l);
    var op := Lower(l + ":");
    assert op == Lower(l) + ":";
    assert op[|op| - 1] == ':';
    forall i | 0 <= i < |op| ensures op[i] != '.' {
      assert op[i] == LowerChar((l + ":")[i]);
      assert i < |l| ==> IsWord(l[i]);
    }
    assert Before(op, '.') == op by { BeforeNone(op, '.'); }
    ColonNoExit(op);
    ColonNoVector(op);
  }

  lemma ColonNoVector(op: string)
    requires op != "" && op[|op| - 1] == ':'
    ensures op !in VECTOR_OPS && op != "vmsr"
  {
    hide VECTOR_OPS;
    assert !IsLower(op[|op| - 1]);
    if op in VECTOR_OPS { VectorOpsPlain(op); assert false; }
    assert "vmsr"[3] == 'r';
  }

  lemma ColonNoExit(op: string)
    requires op != "" && op[|op| - 1] == ':'
    ensures !Exits(op)
  {
    forall h | h in {"bl", "blx", "bx", "svc", "swi"} ensures !ExitAs(op, h) {
      if StartsWith(op, h) {
        var t := op[|h|..];
        assert h[|h| - 1] != ':';
        assert t != "" && t[|t| - 1] == ':';
        ColonNoTail(t);
      }
    }
  }

  lemma ColonNoTail(t: string)
    requires t != "" && t[|t| - 1] == ':'
    ensures !ExitTail(t)
  {
    assert !IsWord(':');
    assert |t| > 1 ==> t[1..][|t| - 2] == ':';
    assert |t| > 2 ==> t[2..][|t| - 3] == ':' && (|t| > 3 ==> t[2..][1..][|t| - 4] == ':');
  }

  /** A labelled instruction as a line. */
  function LabelledLine(l: string, mn: string, ops: string, ring: bool): string
  {
    InsnLine(l + ":", mn + " " + ops, ring)
  }

  lemma LabelDropped(l: string, s: string)
    requires LabelName(l) && Tidy(s) && s != ""
    ensures DropLabels(l + ":" + " " + s) == DropLabels(s)
  {
    var line := l + ":" + " " + s;
    var r := ": " + s;
    assert line == l + r;
    SymbolOf(l, r);
    assert line[|l|..] == r && StripLeft(r) == r;
    assert r[1..] == " " + s && (" " + s)[1..] == s;
    assert StripLeft(" " + s) == StripLeft(s) == s;
  }

  lemma OutsideWords()
    ensures !IsSpace(':') && !IsWord('@') && !IsWord(';') && !IsWord('"') && !IsWord('\'') && !IsWord('/')
      && !IsWord('#')
  {
  }

  lemma LabelText(l: string, s: string)
    requires LabelName(l) && Tidy(s) && s != "" && NoBreaks(s) && '@' !in s
    ensures var code := l + ":" + " " + s;
      Tidy(code) && code != "" && IsWord(code[0]) && code[|code| - 1] != ':' && '@' !in code && Readable(code)
        && ';' !in code
  {
    hide IsWord;
    hide IsSpace;
    OutsideWords();
    var code := l + ":" + " " + s;
    WordChar(l[0]);
    assert code[0] == l[0] && code[|code| - 1] == s[|s| - 1] && s[|s| - 1] in s;
  }

  lemma LabelWords(l: string, s: string)
    requires LabelName(l) && Tidy(s) && s != ""
    ensures var code := l + ":" + " " + s; FirstWord(code) == l + ":" && StripLeft(code[|l| + 1..]) == s
  {
    hide IsWord;
    OutsideWords();
    var code := l + ":" + " " + s;
    forall i | 0 <= i < |l + ":"| ensures !IsSpace((l + ":")[i]) {
      if i < |l| { WordChar(l[i]); }
    }
    FirstWordAppend(l + ":", s);
    assert code[|l| + 1..] == " " + s && (" " + s)[1..] == s;
  }

  lemma LabelledClassified(l: string, s: string, ring: bool)
    requires LabelName(l) && Tidy(s) && s != "" && NoBreaks(s) && '@' !in s
    ensures Classify("    " + (l + ":" + " " + s) + Tail(ring)) == Instr(Lower(l) + ":", s, ring)
  {
    hide Classify;
    hide Lower;
    hide FirstWord;
    hide StripLeft;
    hide Tidy;
    hide NoBreaks;
    hide LabelName;
    hide Readable;
    LabelText(l, s);
    LabelWords(l, s);
    LabelOp(l);
    ClassifiedAsInstr(l + ":" + " " + s, ring);
  }

  lemma LabelledStatements(l: string, s: string, ring: bool)
    requires LabelName(l) && Tidy(s) && s != "" && NoBreaks(s) && '@' !in s && DropLabels(s) == s
    ensures var text := "    " + (l + ":" + " " + s) + Tail(ring); Statements(text) == [s] && Ring(text) == ring
  {
    hide Tidy;
    hide NoBreaks;
    hide LabelName;
    hide Readable;
    hide Strip;
    hide Before;
    hide Contains;
    hide Split;
    hide DropLabels;
    hide Tail;
    var code := l + ":" + " " + s;
    LabelText(l, s);
    LabelDropped(l, s);
    LineStrips(code, ring);
    BeforeNone(code, ';');
    StripTidy(code);
  }

  lemma LabelledReads(l: string, mn: string, ops: string, c: Insn)
    requires LabelName(l) && Written(mn, ops, c)
    ensures var ring := c.Vector? && c.ring; var text := LabelledLine(l, mn, ops, ring);
      && Classify(text) == Instr(Lower(l) + ":", mn + " " + ops, ring)
      && Statements(text) == [mn + " " + ops] && Ring(text) == ring
  {
    hide Classify;
    hide Statements;
    hide Ring;
    hide Written;
    hide Mnemonic;
    hide OperandText;
    hide Lower;
    hide FirstWord;
    hide StripLeft;
    hide DropLabels;
    hide Tidy;
    hide NoBreaks;
    hide LabelName;
    hide Tail;
    var s, ring := mn + " " + ops, c.Vector? && c.ring;
    WrittenSays(mn, ops, c);
    OneStatement(mn, ops);
    CodeText(mn, ops);
    NoLabel(mn, ops);
    LabelledClassified(l, s, ring);
    LabelledStatements(l, s, ring);
  }

  /**
   A label before an instruction hides it: what follows is accepted whatever it is, unless the label begins like a load
   of a list.
   */
  lemma LabelledIsAccepted(tmp: string, l: string, mn: string, ops: string, c: Insn)
    requires LabelName(l) && !StartsWith(Lower(l), "pop") && !StartsWith(Lower(l), "ldm")
    requires Written(mn, ops, c) && Unsafe(c)
    ensures PassesUnsafely(tmp, LabelledLine(l, mn, ops, c.Vector? && c.ring))
  {
    hide Classify;
    hide Written;
    hide Says;
    hide Unsafe;
    hide Statements;
    hide Operands;
    hide Exits;
    hide VECTOR_OPS;
    hide Ring;
    hide LabelledLine;
    hide PassesUnsafely;
    hide Lower;
    var ring := c.Vector? && c.ring;
    WrittenSays(mn, ops, c);
    LabelledReads(l, mn, ops, c);
    LabelOp(l);
    StatementNotPc(mn, ops, c);
    LowerLength(l);
    NotListOp(Lower(l));
    AcceptedIsUnsafe(tmp, LabelledLine(l, mn, ops, ring), 0, c);
  }

  lemma LowerLength(s: string)
    ensures |Lower(s)| == |s|
  {
    LowerChars(s);
  }

  lemma NotListOp(l: string)
    requires l != "" && !StartsWith(l, "pop") && !StartsWith(l, "ldm")
    ensures !StartsWith(l + ":", "pop") && !StartsWith(l + ":", "ldm")
  {
    forall h | h in {"pop", "ldm"} ensures !StartsWith(l + ":", h) {
      assert h[2] != ':' && h[1] != ':' && h[0] != ':';
      if |l| >= 3 { assert (l + ":")[..3] == l[..3]; } else { assert (l + ":")[|l|] == ':'; }
    }
  }

  // Each family of spellings the checker misses, with an instance.

  lemma Unconditional()
    ensures "" in CONDITIONS && "mov" in DEST_STEMS && TokenOk("lr")
  {
    NameIsToken("lr");
  }

  /** r15 for pc, and pc in capitals. */
  lemma UnseenPc(rd: string)
    requires rd == "r15" || rd == "PC"
    ensures var c := Dest("mov", "", rd, ["lr"]); WellFormed(c) && Unsafe(c) && !Seen(c)
  {
    hide CONDITIONS;
    hide DEST_STEMS;
    Unconditional();
    LowerSame("r15");
    assert Lower("PC") == [LowerChar('P')] + Lower("C") == "pc";
    assert CoreName(rd);
  }

  lemma CoreNames()
    ensures IsPc("r15") && !IsPc("r4") && CoreName("r15") && CoreName("r4") && CoreName("r0")
  {
    LowerSame("r15");
    LowerSame("r4");
    LowerSame("r0");
  }

  /** r15 in a register list, by itself or as the end of a range. */
  lemma UnseenList(range: bool)
    ensures var e := if range then Range("r4", "r15") else One("r15");
      var c := LoadList(true, "", "", false, [One("r0"), e]); WellFormed(c) && Unsafe(c) && !Seen(c)
  {
    hide CONDITIONS;
    hide IsPc;
    hide CoreName;
    hide ListTail;
    Unconditional();
    CoreNames();
    var e := if range then Range("r4", "r15") else One("r15");
    var l := [One("r0"), e];
    assert LoadsPc(l[1]);
  }

  lemma McrMove(crn: string, crm: string)
    requires crn in {"c1", "cr1"} && crm in {"c0", "cr0"}
    ensures McrRest(["7", ",", "r0", ",", crn, ",", crm]) && McrRest(["7", ",", "r0", ",", crn, ",", crm, ",", "0"])
  {
    LowerSame(crn);
    LowerSame(crm);
    hide Lower;
    var t := ["7", ",", "r0", ",", crn, ",", crm, ",", "0"];
    assert t[7..] == [",", "0"];
    assert t[0] != "#" by { assert "7"[0] != "#"[0]; }
    var u := ["7", ",", "r0", ",", crn, ",", crm];
    assert u[7..] == [] && u[0] == t[0];
  }

  /** The FPSCR by fmxr or mcr, and by vmsr on a condition. */
  lemma UnseenWrites(form: Form, cc: string, crn: string, crm: string, last: bool)
    requires cc in CONDITIONS && (form == ByVmsr ==> cc != "") && crn in {"c1", "cr1"} && crm in {"c0", "cr0"}
    ensures
      var move := ["7", ",", "r0", ",", crn, ",", crm] + if last then [",", "0"] else [];
      var c := if form == ByMcr then SetFpscr(form, cc, "p10", move) else SetFpscr(form, cc, "fpscr", ["r0"]);
      WellFormed(c) && Unsafe(c) && !Seen(c)
  {
    hide CONDITIONS;
    hide McrRest;
    hide Lower;
    LowerSame("fpscr");
    LowerSame("p10");
    McrMove(crn, crm);
    var t := ["7", ",", "r0", ",", crn, ",", crm];
    assert t + [",", "0"] == ["7", ",", "r0", ",", crn, ",", crm, ",", "0"] && t + [] == t;
  }

  /**
   The vector at s14, which wraps: in capitals, on a condition, by its old name, or in double precision with no type.
   */
  lemma UnseenVectors(cc: string, prior: bool, upper: bool)
    requires cc in CONDITIONS && (cc != "" || prior || upper)
    ensures
      var c := Vector("vadd", cc, prior, false, true, [Reg(14, upper), Reg(8, false), Reg(16, false)], false);
      WellFormed(c) && Unsafe(c) && !Seen(c)
  {
    hide CONDITIONS;
    var regs := [Reg(14, upper), Reg(8, false), Reg(16, false)];
    var n := RegNumbers(regs);
    assert n[0] == 14 && regs[0].upper == upper;
    ConsecutiveIff(14);
    assert !IsScalar(n, 0) && !Consecutive(n[0]);
  }

  lemma UnseenDouble()
    ensures var c := Vector("vmov", "", false, true, false, [Reg(8, false), Reg(9, false)], false);
      WellFormed(c) && Unsafe(c) && !Seen(c)
  {
  }

  /** A change to Java state, and a plain branch to a name. */
  lemma UnseenExits()
    ensures var c := Exit("bxj", "", "", ["lr"]); WellFormed(c) && Unsafe(c) && !Seen(c)
    ensures var c := Jump("", "", ["elsewhere"]); WellFormed(c) && Unsafe(c) && !Seen(c)
  {
    NameIsToken("lr");
    NameIsToken("elsewhere");
    assert ["lr"][0] != "pc" && ["elsewhere"][0] != "pc";
  }

  lemma CommaSpace(a: string, b: string)
    requires IsName(a) && IsName(b)
    ensures Tokens(a + [','] + ([' '] + b)) == [a, ",", b]
  {
    hide Tokens;
    TokensSplit(a, ',', [' '] + b);
    OneChar(' ', b);
    TokensOfWord(a);
    TokensOfWord(b);
    assert [[',']] == [","];
  }

  lemma CommaSpaceText(a: string, b: string)
    requires IsName(a) && IsName(b)
    ensures OperandText(a + [','] + ([' '] + b))
  {
    hide Tokens;
    hide IsName;
    NameIsToken(a);
    NameIsToken(b);
    TokenIsItself(a);
    TokenIsItself(b);
    LastOfToken(b);
  }

  lemma ReturnWellFormed()
    ensures var c := Dest("mov", "", "r15", ["r14"]); WellFormed(c) && Unsafe(c) && !Seen(c)
  {
    hide CONDITIONS;
    hide DEST_STEMS;
    Unconditional();
    LowerSame("r15");
    NameIsToken("r14");
  }

  lemma ReturnParts()
    requires WellFormed(Dest("mov", "", "r15", ["r14"]))
    ensures var c := Dest("mov", "", "r15", ["r14"]); MnemonicOf(c) == "mov" && OperandsOf(c) == ["r15", ",", "r14"]
  {
    hide WellFormed;
  }

  lemma ReturnLine()
    ensures InsnLine("mov", "r15" + [','] + ([' '] + "r14"), false) == "    mov r15, r14"
  {
  }

  lemma ReturnSpelled()
    ensures Spells("    mov r15, r14", Dest("mov", "", "r15", ["r14"]))
  {
    hide Spells;
    hide Tokens;
    hide OperandText;
    hide WellFormed;
    hide MnemonicOf;
    hide OperandsOf;
    hide InsnLine;
    ReturnWellFormed();
    ReturnParts();
    CommaSpace("r15", "r14");
    CommaSpaceText("r15", "r14");
    LowerSame("mov");
    hide Lower;
    LineSpells("mov", "r15" + [','] + ([' '] + "r14"), Dest("mov", "", "r15", ["r14"]));
    ReturnLine();
  }

  /** As text: a return by `mov r15, r14` inside a region passes the checker. */
  lemma UnseenReturn()
    ensures var c := Dest("mov", "", "r15", ["r14"]); Spells("    mov r15, r14", c) && Unsafe(c) && !Seen(c)
    ensures PassesUnsafely("r12", "    mov r15, r14")
  {
    hide Spells;
    hide PassesUnsafely;
    hide WellFormed;
    var c := Dest("mov", "", "r15", ["r14"]);
    ReturnWellFormed();
    ReturnSpelled();
    UnseenIsAccepted("r12", "    mov r15, r14", c);
  }

  lemma FirstNotPc(more: string)
    ensures var ops := Operands("r0" + [','] + more); ops == [] || ops[0] != "pc"
  {
    TokensSplit("r0", ',', more);
    TokensOfWord("r0");
    assert [[',']] == [","];
    hide Tokens;
    hide Operands;
    FirstOperandTokens("r0" + [','] + more, ["r0"], Tokens(more));
    assert ["r0"][0] != ["pc"][0];
  }

  /** Nothing after the first operand is looked at, so neither is a second statement: more may be ` r0, r1; bx lr`. */
  lemma SecondStatement(more: string, ring: bool)
    requires OperandText("r0" + [','] + more)
    ensures var ops := "r0" + [','] + more;
      Classify(InsnLine("add", ops, ring)) == Instr("add", ops, ring) && InstrFault("add", ops, ring) == None
  {
    hide Classify;
    hide InstrFault;
    hide Operands;
    hide OperandText;
    hide InsnLine;
    var ops := "r0" + [','] + more;
    FirstNotPc(more);
    LowerSame("add");
    hide Lower;
    LineReads("add", ops, ring);
    CoreFault("add", ops, ring);
    AddStem();
  }

  lemma AddStem()
    ensures !Exits("add") && !StartsWith("add", "pop") && !StartsWith("add", "ldm")
  {
    DestStem("add", "");
    assert "add" + "" == "add";
  }

  /** An addition, and the statement after it. */
  function AddThen(s: string): string { "r0" + [','] + (" r1; " + s) }

  lemma AddThenText(s: string)
    requires Tidy(s) && s != "" && NoBreaks(s) && '@' !in s
    ensures OperandText(AddThen(s)) && Readable("add " + AddThen(s))
    ensures "add " + AddThen(s) == "add r0, r1" + [';'] + (" " + s)
  {
    var t := AddThen(s);
    assert t[|t| - 1] == s[|s| - 1] && s[|s| - 1] in s;
    assert NoBreaks(" r1") && NoBreaks("add r0,");
  }

  lemma AddStatements(s: string)
    requires Tidy(s) && s != "" && NoBreaks(s) && '@' !in s && DropLabels(s) == s
    ensures Unlabelled(Split("add " + AddThen(s), ';')) == ["add r0, r1", s]
  {
    hide DropLabels;
    hide Strip;
    hide Tidy;
    hide AddThen;
    AddThenText(s);
    AddAlone();
    var a := "add r0, r1";
    SplitAppend(a, ';', " " + s);
    BeforeNone(" " + s, ';');
    SpaceStrips(s);
  }

  lemma AddAlone()
    ensures var a := "add r0, r1"; ';' !in a && Strip(a) == a && DropLabels(a) == a
  {
    hide DropLabels;
    hide Strip;
    assert OperandText("r0, r1") && NoBreaks("r0, r1");
    LowerSame("add");
    hide Lower;
    NoLabel("add", "r0, r1");
    StripTidy("add r0, r1");
    assert "add r0, r1" == "add" + " " + "r0, r1";
  }

  /** A second statement is never looked at: after an addition any instruction is accepted. */
  lemma SecondIsAccepted(tmp: string, mn: string, ops: string, c: Insn)
    requires Written(mn, ops, c) && Unsafe(c)
    ensures PassesUnsafely(tmp, InsnLine("add", AddThen(mn + " " + ops), c.Vector? && c.ring))
  {
    hide Classify;
    hide InstrFault;
    hide Written;
    hide Says;
    hide Unsafe;
    hide OperandText;
    hide Unlabelled;
    hide Split;
    hide Readable;
    hide Strip;
    hide Contains;
    hide InsnLine;
    hide PassesUnsafely;
    hide Tidy;
    hide NoBreaks;
    hide FirstWord;
    hide Mnemonic;
    var s, ring := mn + " " + ops, c.Vector? && c.ring;
    WrittenSays(mn, ops, c);
    OneStatement(mn, ops);
    CodeText(mn, ops);
    NoLabel(mn, ops);
    hide DropLabels;
    AddThenText(s);
    AddStatements(s);
    SecondStatement(" r1; " + s, ring);
    AddLine(AddThen(s), ring);
    var text := InsnLine("add", AddThen(s), ring);
    assert Statements(text) == ["add r0, r1", s];
    AcceptedIsUnsafe(tmp, text, 1, c);
  }

  lemma AddLine(ops: string, ring: bool)
    requires OperandText(ops)
    ensures CodeOf(InsnLine("add", ops, ring)) == "add " + ops && Ring(InsnLine("add", ops, ring)) == ring
  {
    hide OperandText;
    hide Strip;
    hide Contains;
    hide InsnLine;
    LowerSame("add");
    hide Lower;
    LineCode("add", ops, ring);
    assert "add" + " " + ops == "add " + ops;
  }

  // The two families as text.

  lemma CallWritten()
    ensures Written("bl", "f", Exit("bl", "", "", ["f"])) && Unsafe(Exit("bl", "", "", ["f"]))
  {
    hide CONDITIONS;
    Unconditional();
    LowerSame("bl");
    NameIsToken("f");
    TokensOfWord("f");
    assert "bl" + "" + "" == "bl";
    assert "f"[0] != ',';
  }

  /** A call after a numbered label, and a call after an addition, pass the checker inside a region. */
  lemma HiddenCalls()
    ensures PassesUnsafely("r12", "    1: bl f") && PassesUnsafely("r12", "    add r0, r1; bl f")
  {
    hide PassesUnsafely;
    hide Written;
    hide Unsafe;
    var c := Exit("bl", "", "", ["f"]);
    CallWritten();
    LowerSame("1");
    assert "1"[0] != 'p' && "1"[0] != 'l';
    LabelledIsAccepted("r12", "1", "bl", "f", c);
    SecondIsAccepted("r12", "bl", "f", c);
    assert LabelledLine("1", "bl", "f", false) == "    1: bl f";
    assert InsnLine("add", AddThen("bl" + " " + "f"), false) == "    add r0, r1; bl f";
  }
}
