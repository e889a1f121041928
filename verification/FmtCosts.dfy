/** What the base costs of fmt make of the marks of words: how each mark moves the cost, and what
    that means for the breaks that are chosen. */
module FmtCosts {
  import opened FmtSpec

  // The word with none of the marks of its end.
  function Unmarked(w: Word): Word { w.(period := false, punct := false) }

  // What a break before word i costs because word i - 1 is a widow, the end of a sentence being before it.
  function Widow(ws: seq<Word>, i: nat): int
    requires 0 < i < |ws|
  {
    if i > 1 && ws[i - 2].ends then 40_000 / (ws[i - 1].length + 2) else 0
  }

  /** A line of words without marks costs 4900 before its length is considered. */
  lemma PlainCost(ws: seq<Word>, i: nat)
    requires i < |ws| && !ws[i].paren && !ws[i].ends
    requires i > 0 ==> !ws[i - 1].period && !ws[i - 1].punct && (i > 1 ==> !ws[i - 2].ends)
    ensures BaseCost(ws, i) == 4900
  {
  }

  /** What the end of the line before costs: a sentence end lowers the cost by 2500, an inner
      period raises it by 360000, other punctuation lowers it by 1600; a word without any of these
      is charged as a widow if a sentence ends before it, the more the shorter it is. */
  lemma EndCosts(ws: seq<Word>, i: nat, w: Word)
    requires 0 < i < |ws| && w.length == ws[i - 1].length
    ensures BaseCost(ws[i - 1 := w], i) - (BaseCost(ws[i - 1 := Unmarked(w)], i) - Widow(ws, i))
            == if w.period && w.ends then -2500 else if w.period then 360_000 else if w.punct then -1600 else Widow(ws, i)
  {
  }

  /** The end of a sentence one word further back costs 40000, divided by the length of the widow
      and two, unless that word bears a mark of its own; the end of one anywhere else nothing. */
  lemma WidowCosts(ws: seq<Word>, i: nat)
    requires 1 < i < |ws|
    ensures BaseCost(ws[i - 2 := ws[i - 2].(ends := true)], i) - BaseCost(ws[i - 2 := ws[i - 2].(ends := false)], i)
            == if ws[i - 1].period || ws[i - 1].punct then 0 else 40_000 / (ws[i - 1].length + 2)
  {
  }

  /** What the start of a line costs: an opening parenthesis lowers the cost by 1600, and without
      one the end of a sentence adds 22500, divided by the length of the orphan and two. */
  lemma StartCosts(ws: seq<Word>, i: nat, w: Word)
    requires i < |ws|
    ensures BaseCost(ws[i := w], i) - BaseCost(ws[i := w.(paren := false, ends := false)], i)
            == if w.paren then -1600 else if w.ends then 22_500 / (w.length + 2) else 0
  {
  }

  // Nothing but the marks and lengths of these three words matters.
  lemma CostFrame(ws: seq<Word>, vs: seq<Word>, i: nat)
    requires i < |ws| == |vs|
    requires forall k :: i - 2 <= k <= i && 0 <= k ==> ws[k] == vs[k]
    ensures BaseCost(ws, i) == BaseCost(vs, i)
  {
  }

  function Square(n: int): int { n * n }

  /** What the lengths cost: 100 for every column, squared, by which the line misses the goal, and
      half of that for the columns by which it differs from the following line, unless that is the
      last one; and for those by which the first line differs from what was printed before it. */
  lemma ShapeCosts(ws: seq<Word>, cs: seq<Choice>, m: Margins, i: nat, j: nat)
    requires i < j < |ws| < |cs|
    ensures var len := LineLength(ws, m, i, j);
            BreakCost(ws, cs, m, i, j) - cs[j].bestCost
            == 100 * Square(m.goalWidth - len)
               + (if cs[j].nextBreak == |ws| then 0 else 50 * Square(len - cs[j].lineLength))
               + (if i == 0 && m.lastLineLength > 0 then 50 * Square(len - m.lastLineLength) else 0)
  {
    var len := LineLength(ws, m, i, j);
    assert ShortCost(m.goalWidth - len) == 100 * Square(m.goalWidth - len);
    Half(len - cs[j].lineLength);
    Half(len - m.lastLineLength);
  }

  lemma Half(n: int)
    ensures RaggedCost(n) == 50 * Square(n)
  {
    assert ShortCost(n) == 2 * (50 * Square(n));
  }

  // ---------- what that means for the choice ----------

  // The line ends behind a period that ends no sentence.
  predicate Inner(ws: seq<Word>, j: nat) { 0 < j < |ws| && ws[j - 1].period && !ws[j - 1].ends }

  // The paragraph without the mark of word j - 1.
  function Plain(ws: seq<Word>, j: nat): (r: seq<Word>)
    requires 0 < j <= |ws|
    ensures |r| == |ws|
  {
    ws[j - 1 := Unmarked(ws[j - 1])]
  }

  /** A line that is recorded as ending behind an inner period: reckoned without the charge for
      that, every other break costs 360000 more at least (a widow takes its charge instead). */
  lemma InnerIsLastResort(ws: seq<Word>, cs: seq<Choice>, m: Margins, i: nat, k: nat)
    requires AllBest(ws, cs, m) && i < |ws| && Admissible(ws, m, i, k)
    requires Inner(ws, cs[i].nextBreak)
    ensures i < cs[i].nextBreak <= |ws|
    ensures var j := cs[i].nextBreak;
            BreakCost(ws, cs, m, i, k)
            >= BreakCost(ws, cs, m, i, j) - BaseCost(ws, j) + BaseCost(Plain(ws, j), j) + 360_000 - Widow(ws, j)
  {
    var j := cs[i].nextBreak;
    assert Best(ws, cs, m, i);
    EndCosts(ws, j, ws[j - 1]);
    assert ws[j - 1 := ws[j - 1]] == ws;
    hide BaseCost, BreakCost;
    if k < j {
      assert BreakCost(ws, cs, m, i, k) > BreakCost(ws, cs, m, i, j);
    } else if k > j {
      assert BreakCost(ws, cs, m, i, k) >= BreakCost(ws, cs, m, i, j);
    }
  }

  // What a break costs apart from the marks around it: the shape of the lines, and what comes
  // behind the line that starts at it.
  function ShapeCost(ws: seq<Word>, cs: seq<Choice>, m: Margins, i: nat, j: nat): int
    requires i < j <= |ws| < |cs|
  {
    BreakCost(ws, cs, m, i, j) - (if j < |ws| then BaseCost(ws, j) else 0)
  }

  /** So no break is made behind an inner period if there is another that costs no more than
      327149 more by the shape of the lines. */
  lemma InnerIsAvoided(ws: seq<Word>, cs: seq<Choice>, m: Margins, i: nat, k: nat)
    requires AllBest(ws, cs, m) && i < |ws| && Admissible(ws, m, i, k) && !Inner(ws, k)
    requires i < cs[i].nextBreak <= |ws|
    requires Inner(ws, cs[i].nextBreak)
    ensures ShapeCost(ws, cs, m, i, k) >= ShapeCost(ws, cs, m, i, cs[i].nextBreak) + 327_150
  {
    var j := cs[i].nextBreak;
    assert Best(ws, cs, m, i);
    hide BreakCost;
    if k < j {
      assert BreakCost(ws, cs, m, i, k) > BreakCost(ws, cs, m, i, j);
    } else {
      assert BreakCost(ws, cs, m, i, k) >= BreakCost(ws, cs, m, i, j);
    }
    InnerCost(ws, j);
    if k < |ws| {
      OtherCost(ws, k);
    }
    hide BaseCost;
  }

  lemma InnerCost(ws: seq<Word>, j: nat)
    requires Inner(ws, j)
    ensures BaseCost(ws, j) >= 363_300
  {
  }

  lemma OtherCost(ws: seq<Word>, k: nat)
    requires k < |ws| && !Inner(ws, k)
    ensures BaseCost(ws, k) <= 36_150
  {
  }

  // ---------- an example ----------

  // "John Mr. Abcd"
  function Names(): seq<Word> {
    [Word(0, 4, 1, false, false, false, false), Word(4, 3, 1, false, true, false, false),
     Word(7, 4, 1, false, false, false, false)]
  }

  /** With a width of 9 and a goal of 8, "John Mr." would have exactly the length to aim for; but
      the line is broken before "Mr.", whose period ends no sentence. */
  lemma NamesStayTogether(cs: seq<Choice>)
    requires AllBest(Names(), cs, Margins(9, 8, 0, 0, 0))
    ensures cs[0].nextBreak == 1 && cs[1].nextBreak == 3
  {
    var ws, m := Names(), Margins(9, 8, 0, 0, 0);
    assert LineLength(ws, m, 0, 1) == 4 && LineLength(ws, m, 0, 2) == 8 && LineLength(ws, m, 0, 3) == 13;
    assert LineLength(ws, m, 1, 2) == 3 && LineLength(ws, m, 1, 3) == 8 && LineLength(ws, m, 2, 3) == 4;
    assert Best(ws, cs, m, 2) && Best(ws, cs, m, 1) && Best(ws, cs, m, 0);
    assert cs[2].nextBreak == 3 && cs[2].bestCost == 364_900;
    assert Admissible(ws, m, 1, 3) && BreakCost(ws, cs, m, 1, 3) == 0;
    assert BreakCost(ws, cs, m, 1, 2) >= 364_900;
    assert cs[1].nextBreak == 3 && cs[1].bestCost == 4900;
    assert Admissible(ws, m, 0, 1) && BreakCost(ws, cs, m, 0, 1) == 6500;
    assert BreakCost(ws, cs, m, 0, 2) >= 364_900;
  }
}
