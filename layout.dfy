/**
 * Drawing a judgement: every level becomes one row whose labels are spread
 * over a common width, consecutive levels are separated by a rule of dashes,
 * and the rule name is written once, in the gutter of the middle row.
 */
module Layout {
  import opened Text
  import opened Levels

  /** Total length of the labels of one level: no label is longer than the total. */
  function SumLen(vc: seq<string>): (r: nat)
    ensures forall i :: 0 <= i < |vc| ==> |vc[i]| <= r
    decreases |vc|
  {
    if vc == [] then 0 else SumLen(vc[..|vc| - 1]) + |vc[|vc| - 1]|
  }

  /**
   * `SumLen` adds the labels from the last one back; `fold(0, |sum, s| sum + s.len())`
   * adds them from the first one on. Both give the same total.
   */
  lemma {:induction false} SumLenFold(vc: seq<string>)
    requires |vc| >= 1
    ensures SumLen(vc) == |vc[0]| + SumLen(vc[1..])
    decreases |vc|
  {
    if |vc| > 1 {
      var init := vc[..|vc| - 1];
      SumLenFold(init);
      assert init[1..] == vc[1..][..|vc| - 2];
    } else {
      assert vc[..0] == [] && vc[1..] == [];
    }
  }

  /** Narrowest a level can be drawn: its labels, one space between neighbours. */
  function MinWidth(vc: seq<string>): nat
    requires |vc| >= 1
  {
    SumLen(vc) + (|vc| - 1)
  }

  /** Sum of a sequence of widths. */
  function Sum(s: seq<nat>): nat
    decreases |s|
  {
    if s == [] then 0 else Sum(s[..|s| - 1]) + s[|s| - 1]
  }

  /** Levels `0..i-1` exist and are not empty. */
  ghost predicate HasLevels(levels: LevelMap, i: nat) {
    forall j :: 0 <= j < i ==> j in levels && |levels[j]| >= 1
  }

  /** The widest of levels `0..i-1`, or 0 when there are none. */
  function MaxWidth(levels: LevelMap, i: nat): nat
    requires HasLevels(levels, i)
    decreases i
  {
    if i == 0 then 0
    else
      var w0 := MaxWidth(levels, i - 1);
      var here := MinWidth(levels[i - 1]);
      if w0 < here then here else w0
  }

  /** `MaxWidth` is the width of the widest level: no level is wider, and some level is that wide. */
  lemma {:induction false} MaxWidthIsMax(levels: LevelMap, i: nat)
    requires HasLevels(levels, i)
    ensures forall j :: 0 <= j < i ==> MinWidth(levels[j]) <= MaxWidth(levels, i)
    ensures i == 0 ==> MaxWidth(levels, i) == 0
    ensures i > 0 ==> exists j :: 0 <= j < i && MinWidth(levels[j]) == MaxWidth(levels, i)
    decreases i
  {
    if i > 0 {
      MaxWidthIsMax(levels, i - 1);
      if i - 1 > 0 {
        var j :| 0 <= j < i - 1 && MinWidth(levels[j]) == MaxWidth(levels, i - 1);
        assert MaxWidth(levels, i) == MinWidth(levels[j]) || MaxWidth(levels, i) == MinWidth(levels[i - 1]);
      } else {
        assert MaxWidth(levels, i) == MinWidth(levels[i - 1]);
      }
    }
  }

  /** A level map that can be drawn: levels `0..n-1`, each with two labels or more. */
  ghost predicate Drawable(levels: LevelMap) {
    |levels| >= 1 && Contiguous(levels) && forall k :: k in levels ==> |levels[k]| >= 2
  }

  lemma {:induction false} DrawableLevels(levels: LevelMap)
    requires Drawable(levels)
    ensures HasLevels(levels, |levels|)
    ensures forall j :: 0 <= j < |levels| ==> j in levels && |levels[j]| >= 2
  {
    forall j | 0 <= j < |levels| ensures j in levels && |levels[j]| >= 2 {
      assert j in Range(|levels|);
    }
  }

  /** Width shared by every drawn row, gutter and outer spaces aside: the widest level. */
  ghost function Total(levels: LevelMap): nat
    requires Drawable(levels)
  {
    DrawableLevels(levels);
    MaxWidth(levels, |levels|)
  }

  /** Level `level` exists, has two labels or more, and fits in the common width. */
  lemma {:induction false} LevelFits(levels: LevelMap, level: nat)
    requires Drawable(levels) && level < |levels|
    ensures level in levels && |levels[level]| >= 2 && Total(levels) >= MinWidth(levels[level])
  {
    DrawableLevels(levels);
    MaxWidthIsMax(levels, |levels|);
  }

  /**
   * Widths of the runs of spaces between neighbouring labels of `vc` when it
   * is drawn `total` wide: the spare width split evenly, the remainder of the
   * division going to the first gap. Neighbouring labels never touch, and the
   * gaps are as even as can be: the first is widened by less than the number
   * of gaps.
   */
  function Gaps(vc: seq<string>, total: nat): (g: seq<nat>)
    requires |vc| >= 2 && total >= MinWidth(vc)
    ensures |g| == |vc| - 1
    ensures forall t :: 0 <= t < |g| ==> g[t] >= 1
    ensures forall t :: 0 < t < |g| ==> g[t] <= g[0] < g[t] + |g|
  {
    var spaces := total - SumLen(vc);
    var quo, rem := spaces / (|vc| - 1), spaces % (|vc| - 1);
    assert quo >= 1 by {
      assert spaces >= |vc| - 1 && spaces == (|vc| - 1) * quo + rem && rem < |vc| - 1;
    }
    seq(|vc| - 1, t => if t == 0 then quo + rem else quo)
  }

  /** The first `j` labels of `vc`, each followed by its gap. */
  function Lead(vc: seq<string>, gaps: seq<nat>, j: nat): string
    requires j <= |gaps| && j <= |vc|
    decreases j
  {
    if j == 0 then [] else Lead(vc, gaps, j - 1) + vc[j - 1] + Spaces(gaps[j - 1])
  }

  /** Proof step: regroups a concatenation, used where the rows are built piece by piece. */
  lemma {:induction false} Assoc(a: string, b: string, c: string)
    ensures a + (b + c) == a + b + c
  {
  }

  /** The first label is followed by the common gap and the remainder, as two runs of blanks. */
  lemma {:induction false} LeadOne(vc: seq<string>, total: nat, quo: nat, rem: nat)
    requires |vc| >= 2 && total >= MinWidth(vc)
    requires quo == (total - SumLen(vc)) / (|vc| - 1) && rem == (total - SumLen(vc)) % (|vc| - 1)
    ensures Lead(vc, Gaps(vc, total), 1) == vc[0] + (Spaces(quo) + Spaces(rem))
  {
    var gaps := Gaps(vc, total);
    assert gaps[0] == quo + rem;
    assert [] + vc[0] == vc[0];
    SpacesAdd(quo, rem);
  }

  /** Printing the first label and its gap after `head` leaves `head` and the lead of one label. */
  lemma {:induction false} FirstPiece(head: string, vc: seq<string>, total: nat, quo: nat, rem: nat)
    requires |vc| >= 2 && total >= MinWidth(vc)
    requires quo == (total - SumLen(vc)) / (|vc| - 1) && rem == (total - SumLen(vc)) % (|vc| - 1)
    ensures head + vc[0] + Spaces(quo) + Spaces(rem) == head + Lead(vc, Gaps(vc, total), 1)
  {
    LeadOne(vc, total, quo, rem);
    var a, b, c := vc[0], Spaces(quo), Spaces(rem);
    Assoc(a, b, c);
    Assoc(head, a + b, c);
    Assoc(head, a, b);
  }

  /** Printing a middle label and the common gap extends the lead by one label. */
  lemma {:induction false} MiddlePiece(head: string, vc: seq<string>, total: nat, quo: nat, j: nat)
    requires |vc| >= 2 && total >= MinWidth(vc) && 0 < j < |vc| - 1
    requires quo == (total - SumLen(vc)) / (|vc| - 1)
    ensures head + Lead(vc, Gaps(vc, total), j) + vc[j] + Spaces(quo) == head + Lead(vc, Gaps(vc, total), j + 1)
  {
    var gaps := Gaps(vc, total);
    var lead := Lead(vc, gaps, j);
    assert gaps[j] == quo;
    Assoc(head, lead + vc[j], Spaces(quo));
    Assoc(head, lead, vc[j]);
  }

  /** Printing the last label and a blank completes the row. */
  lemma {:induction false} LastPiece(gutter: string, vc: seq<string>, total: nat)
    requires |vc| >= 2 && total >= MinWidth(vc)
    ensures gutter + " " + Lead(vc, Gaps(vc, total), |vc| - 1) + vc[|vc| - 1] + " " == gutter + Content(vc, total)
  {
    var lead := Lead(vc, Gaps(vc, total), |vc| - 1);
    var last := vc[|vc| - 1];
    Assoc(gutter, " " + lead + last, " ");
    Assoc(gutter, " " + lead, last);
    Assoc(gutter, " ", lead);
  }

  /** The three kinds of print step that draw a level, each in terms of the lead it extends. */
  lemma {:induction false} Pieces(gutter: string, vc: seq<string>, total: nat, quo: nat, rem: nat)
    requires |vc| >= 2 && total >= MinWidth(vc)
    requires quo == (total - SumLen(vc)) / (|vc| - 1) && rem == (total - SumLen(vc)) % (|vc| - 1)
    ensures gutter + " " + vc[0] + Spaces(quo) + Spaces(rem) == gutter + " " + Lead(vc, Gaps(vc, total), 1)
    ensures forall j :: 0 < j < |vc| - 1 ==>
      gutter + " " + Lead(vc, Gaps(vc, total), j) + vc[j] + Spaces(quo) == gutter + " " + Lead(vc, Gaps(vc, total), j + 1)
    ensures gutter + " " + Lead(vc, Gaps(vc, total), |vc| - 1) + vc[|vc| - 1] + " " == gutter + Content(vc, total)
  {
    FirstPiece(gutter + " ", vc, total, quo, rem);
    forall j | 0 < j < |vc| - 1
      ensures gutter + " " + Lead(vc, Gaps(vc, total), j) + vc[j] + Spaces(quo) == gutter + " " + Lead(vc, Gaps(vc, total), j + 1)
    {
      MiddlePiece(gutter + " ", vc, total, quo, j);
    }
    LastPiece(gutter, vc, total);
  }

  /** One level drawn `total` wide, between a leading and a trailing space. */
  function Content(vc: seq<string>, total: nat): string
    requires |vc| >= 2 && total >= MinWidth(vc)
  {
    " " + Lead(vc, Gaps(vc, total), |vc| - 1) + vc[|vc| - 1] + " "
  }

  /** The rule drawn between two levels. */
  function Rule(total: nat): string {
    Repeat('-', total + 2)
  }

  /** The left margin of a row: the rule name and a colon, or as many spaces. */
  function Gutter(name: string, named: bool): (g: string)
    ensures |g| == |name| + 1
    ensures g == name + ":" <==> named
  {
    if named then name + ":"
    else
      assert Spaces(|name| + 1)[|name|] != (name + ":")[|name|];
      Spaces(|name| + 1)
  }

  /** Row `r` of the drawing: even rows hold level `r / 2`, odd rows are rules. */
  ghost function Row(name: string, levels: LevelMap, r: nat): string
    requires Drawable(levels) && r < 2 * |levels| - 1
  {
    LevelFits(levels, r / 2);
    if r % 2 == 1 then Gutter(name, r == |levels| - 1) + Rule(Total(levels))
    else Gutter(name, r == |levels| - 1) + Content(levels[r / 2], Total(levels))
  }

  lemma {:induction false} SumPrefix(s: seq<nat>, j: nat)
    requires j < |s|
    ensures Sum(s[..j + 1]) == Sum(s[..j]) + s[j]
  {
    assert s[..j + 1][..j] == s[..j];
  }

  lemma {:induction false} SumLenPrefix(vc: seq<string>, j: nat)
    requires j < |vc|
    ensures SumLen(vc[..j + 1]) == SumLen(vc[..j]) + |vc[j]|
  {
    assert vc[..j + 1][..j] == vc[..j];
  }

  /** The gaps of a level fill exactly the width its labels leave free. */
  lemma {:induction false} GapsPrefixSum(vc: seq<string>, total: nat, j: nat)
    requires |vc| >= 2 && total >= MinWidth(vc) && 1 <= j <= |vc| - 1
    ensures Sum(Gaps(vc, total)[..j]) == j * ((total - SumLen(vc)) / (|vc| - 1)) + (total - SumLen(vc)) % (|vc| - 1)
    decreases j
  {
    var g := Gaps(vc, total);
    var spaces := total - SumLen(vc);
    var quo, rem := spaces / (|vc| - 1), spaces % (|vc| - 1);
    SumPrefix(g, j - 1);
    if j == 1 {
      assert g[..0] == [] && g[0] == quo + rem;
    } else {
      GapsPrefixSum(vc, total, j - 1);
      assert g[j - 1] == quo;
      assert j * quo == (j - 1) * quo + quo;
    }
  }

  lemma {:induction false} GapsSum(vc: seq<string>, total: nat)
    requires |vc| >= 2 && total >= MinWidth(vc)
    ensures Sum(Gaps(vc, total)) + SumLen(vc) == total
  {
    var g, k := Gaps(vc, total), |vc| - 1;
    var spaces := total - SumLen(vc);
    GapsPrefixSum(vc, total, k);
    assert g[..k] == g;
    DivMod(spaces, k);
  }

  /** Proof step: division with remainder puts the parts back together. */
  lemma {:induction false} DivMod(a: nat, k: nat)
    requires k > 0
    ensures k * (a / k) + a % k == a
  {
  }

  /** The first `j` labels and their gaps take up exactly their combined widths. */
  lemma {:induction false} LeadLength(vc: seq<string>, gaps: seq<nat>, j: nat)
    requires j <= |gaps| && j <= |vc|
    ensures |Lead(vc, gaps, j)| == SumLen(vc[..j]) + Sum(gaps[..j])
    decreases j
  {
    if j > 0 {
      LeadLength(vc, gaps, j - 1);
      SumPrefix(gaps, j - 1);
      SumLenPrefix(vc, j - 1);
    } else {
      assert vc[..0] == [] && gaps[..0] == [];
    }
  }

  /** Once a label is laid out, the lead starts with the first label. */
  lemma {:induction false} LeadStartsWithFirst(vc: seq<string>, gaps: seq<nat>, j: nat)
    requires 1 <= j <= |gaps| && j <= |vc|
    ensures |Lead(vc, gaps, j)| >= |vc[0]| && Lead(vc, gaps, j)[..|vc[0]|] == vc[0]
    decreases j
  {
    if j > 1 {
      LeadStartsWithFirst(vc, gaps, j - 1);
    } else {
      assert Lead(vc, gaps, 1) == [] + vc[0] + Spaces(gaps[0]);
    }
  }

  /** Every level is drawn exactly as wide as `total`. */
  lemma {:induction false} ContentWidth(vc: seq<string>, total: nat)
    requires |vc| >= 2 && total >= MinWidth(vc)
    ensures |Content(vc, total)| == total + 2
  {
    var g := Gaps(vc, total);
    LeadLength(vc, g, |vc| - 1);
    GapsSum(vc, total);
    assert g[..|vc| - 1] == g;
    assert vc[..|vc| - 1 + 1] == vc;
    SumLenPrefix(vc, |vc| - 1);
  }

  /**
   * Every level is justified: its first label starts right after the leading
   * space and its last label ends right before the trailing space.
   */
  lemma {:induction false} Justified(vc: seq<string>, total: nat)
    requires |vc| >= 2 && total >= MinWidth(vc)
    ensures var c := Content(vc, total);
      |c| == total + 2 && |c| >= |vc[0]| + |vc[|vc| - 1]| + 2 &&
      c[0] == ' ' && c[1..1 + |vc[0]|] == vc[0] &&
      c[|c| - 1 - |vc[|vc| - 1]|..|c| - 1] == vc[|vc| - 1] && c[|c| - 1] == ' '
  {
    ContentWidth(vc, total);
    var g := Gaps(vc, total);
    var lead := Lead(vc, g, |vc| - 1);
    var last := vc[|vc| - 1];
    var c := Content(vc, total);
    LeadStartsWithFirst(vc, g, |vc| - 1);
    assert c == " " + (lead + last + " ");
    assert c[1..1 + |vc[0]|] == lead[..|vc[0]|];
    assert c[|c| - 1 - |last|..|c| - 1] == last;
  }

  /** The widest level is drawn with single spaces between its labels. */
  lemma {:induction false} WidestSingleSpaced(vc: seq<string>)
    requires |vc| >= 2
    ensures forall t :: 0 <= t < |vc| - 1 ==> Gaps(vc, MinWidth(vc))[t] == 1
  {
    var spaces := MinWidth(vc) - SumLen(vc);
    assert spaces / (|vc| - 1) == 1 && spaces % (|vc| - 1) == 0;
  }

  /**
   * The common width is that of the widest level: every level fits in it, and
   * some level fills it with single spaces between its labels.
   */
  lemma {:induction false} TotalIsWidest(levels: LevelMap)
    requires Drawable(levels)
    ensures forall j :: j in levels ==> MinWidth(levels[j]) <= Total(levels)
    ensures exists j :: j in levels && MinWidth(levels[j]) == Total(levels)
  {
    DrawableLevels(levels);
    MaxWidthIsMax(levels, |levels|);
    forall j | j in levels ensures MinWidth(levels[j]) <= Total(levels) {
      assert j in Range(|levels|);
    }
  }

  lemma {:induction false} SpacesAdd(a: nat, b: nat)
    ensures Spaces(a) + Spaces(b) == Spaces(a + b)
  {
    assert |Spaces(a) + Spaces(b)| == a + b;
    forall i | 0 <= i < a + b ensures (Spaces(a) + Spaces(b))[i] == Spaces(a + b)[i] {
      if i < a {
        assert (Spaces(a) + Spaces(b))[i] == Spaces(a)[i];
      } else {
        assert (Spaces(a) + Spaces(b))[i] == Spaces(b)[i - a];
      }
    }
  }

  lemma {:induction false} RuleRowIs(name: string, levels: LevelMap, level: nat)
    requires Drawable(levels) && 1 <= level < |levels|
    ensures Row(name, levels, 2 * level - 1) == Gutter(name, 2 * level - 1 == |levels| - 1) + Rule(Total(levels))
  {
    assert (2 * level - 1) % 2 == 1;
  }

  lemma {:induction false} LevelRowIs(name: string, levels: LevelMap, level: nat)
    requires Drawable(levels) && level < |levels|
    ensures level in levels && |levels[level]| >= 2 && Total(levels) >= MinWidth(levels[level])
    ensures Row(name, levels, 2 * level) == Gutter(name, 2 * level == |levels| - 1) + Content(levels[level], Total(levels))
  {
    LevelFits(levels, level);
    assert 2 * level / 2 == level;
  }

  /** `lines` are the first rows of the drawing. */
  ghost predicate RowsSoFar(name: string, levels: LevelMap, lines: seq<string>)
    requires Drawable(levels)
  {
    |lines| <= 2 * |levels| - 1 && forall r :: 0 <= r < |lines| ==> lines[r] == Row(name, levels, r)
  }

  lemma {:induction false} RowsExtend(name: string, levels: LevelMap, lines: seq<string>, next: string)
    requires Drawable(levels) && RowsSoFar(name, levels, lines) && |lines| < 2 * |levels| - 1
    requires next == Row(name, levels, |lines|)
    ensures RowsSoFar(name, levels, lines + [next])
  {
    forall r | 0 <= r < |lines| + 1 ensures (lines + [next])[r] == Row(name, levels, r) {
      if r < |lines| {
        assert (lines + [next])[r] == lines[r];
      }
    }
  }

  /** Appending the rule drawn before level `level` continues the drawing. */
  lemma {:induction false} RuleStep(name: string, levels: LevelMap, lines: seq<string>, level: nat, rule: string)
    requires Drawable(levels) && 1 <= level < |levels|
    requires RowsSoFar(name, levels, lines) && |lines| == 2 * level - 1
    requires rule == Gutter(name, |lines| == |levels| - 1) + Rule(Total(levels))
    ensures RowsSoFar(name, levels, lines + [rule])
  {
    RuleRowIs(name, levels, level);
    RowsExtend(name, levels, lines, rule);
  }

  /** Appending the row of level `level` continues the drawing. */
  lemma {:induction false} LevelStep(name: string, levels: LevelMap, lines: seq<string>, level: nat, text: string)
    requires Drawable(levels) && level < |levels|
    requires level in levels && |levels[level]| >= 2 && Total(levels) >= MinWidth(levels[level])
    requires RowsSoFar(name, levels, lines) && |lines| == 2 * level
    requires text == Gutter(name, |lines| == |levels| - 1) + Content(levels[level], Total(levels))
    ensures RowsSoFar(name, levels, lines + [text])
  {
    LevelRowIs(name, levels, level);
    RowsExtend(name, levels, lines, text);
  }

  /** All rows of the drawing are equally wide, rules included. */
  lemma {:induction false} RowWidth(name: string, levels: LevelMap, r: nat)
    requires Drawable(levels) && r < 2 * |levels| - 1
    ensures |Row(name, levels, r)| == |name| + 1 + Total(levels) + 2
  {
    LevelFits(levels, r / 2);
    if r % 2 == 0 {
      ContentWidth(levels[r / 2], Total(levels));
    }
  }

  /** The rule name appears in the gutter of the middle row and of no other row. */
  lemma {:induction false} NamedRow(name: string, levels: LevelMap, r: nat)
    requires Drawable(levels) && r < 2 * |levels| - 1
    ensures |Row(name, levels, r)| > |name|
    ensures Row(name, levels, r)[..|name| + 1] == name + ":" <==> r == |levels| - 1
  {
    RowWidth(name, levels, r);
    var gutter := Gutter(name, r == |levels| - 1);
    LevelFits(levels, r / 2);
    assert Row(name, levels, r)[..|name| + 1] == gutter;
  }

  /** `(n + (n - 1)) / 2`, the index of the middle row, is `n - 1`: even exactly when `n` is odd. */
  lemma {:induction false} MiddleRow(n: nat)
    requires n >= 1
    ensures (n - 1) % 2 == 0 <==> n % 2 == 1
    ensures (n + (n - 1)) / 2 == n - 1
  {
  }

  /**
   * The named row shows the middle level when there is an odd number of
   * levels, and the rule above the upper middle level otherwise.
   */
  lemma {:induction false} MiddleRowKind(name: string, levels: LevelMap)
    requires Drawable(levels)
    ensures var n := |levels|; n % 2 == 1 ==>
      var mid := (n - 1) / 2;
      mid in levels && |levels[mid]| >= 2 && Total(levels) >= MinWidth(levels[mid]) &&
      Row(name, levels, n - 1) == name + ":" + Content(levels[mid], Total(levels))
    ensures var n := |levels|; n % 2 == 0 ==>
      Row(name, levels, n - 1) == name + ":" + Rule(Total(levels))
  {
    var n := |levels|;
    MiddleRow(n);
    LevelFits(levels, (n - 1) / 2);
  }

  /** Lengths of the labels of every level, and the width of the widest level. */
  method LevelWidths(levels: LevelMap) returns (levLengths: seq<nat>, minTotal: nat)
    requires HasLevels(levels, |levels|)
    ensures |levLengths| == |levels|
    ensures forall j :: 0 <= j < |levels| ==> levLengths[j] == SumLen(levels[j])
    ensures minTotal == MaxWidth(levels, |levels|)
  {
    levLengths := [];
    minTotal := 0;
    var i := 0;
    while i < |levels|
      invariant 0 <= i <= |levels| && |levLengths| == i
      invariant forall j :: 0 <= j < i ==> levLengths[j] == SumLen(levels[j])
      invariant minTotal == MaxWidth(levels, i)
    {
      var vc := levels[i];
      var length := SumLen(vc);
      if minTotal < length + (|vc| - 1) {
        minTotal := length + (|vc| - 1);
      }
      levLengths := levLengths + [length];
      i := i + 1;
    }
  }

  /**
   * One level's row, label by label: the gutter and a space, the first label
   * with the widened first gap, the middle labels each with the common gap,
   * then the last label and a space.
   */
  method DrawLevel(gutter: string, vc: seq<string>, total: nat, length: nat) returns (line: string)
    requires |vc| >= 2 && total >= MinWidth(vc) && length == SumLen(vc)
    ensures line == gutter + Content(vc, total)
  {
    var spaces := total - length;
    var quo := spaces / (|vc| - 1);
    var rem := spaces % (|vc| - 1);
    var seg := Spaces(quo);
    ghost var gaps := Gaps(vc, total);
    Pieces(gutter, vc, total, quo, rem);
    var cur: string := [];
    line := [];
    var i := 0;
    while i < |vc|
      invariant 0 <= i <= |vc|
      invariant 0 < i < |vc| ==> cur == gutter + " " + Lead(vc, gaps, i)
      invariant i == |vc| ==> line == gutter + Content(vc, total)
    {
      var s := vc[i];
      if i == 0 {
        cur := gutter + " " + s + seg + Spaces(rem);
      } else if i != |vc| - 1 {
        cur := cur + s + seg;
      } else {
        line := cur + s + " ";
      }
      i := i + 1;
    }
  }

  /**
   * The drawing of rule `name` with premises and conclusion `levels`: level
   * rows in ascending order with a rule before every level but the first.
   */
  method Render(name: string, levels: LevelMap) returns (lines: seq<string>)
    requires Drawable(levels)
    ensures |lines| == 2 * |levels| - 1 && RowsSoFar(name, levels, lines)
  {
    var n := |levels|;
    DrawableLevels(levels);
    var levLengths, minTotal := LevelWidths(levels);
    var line := Repeat('-', minTotal + 2);
    var padding := Spaces(|name| + 1);
    var middleRow := (n + (n - 1)) / 2;
    MiddleRow(n);
    assert line == Rule(Total(levels)) && padding == Gutter(name, false) && name + ":" == Gutter(name, true);
    var row := 0;
    lines := [];
    var level := 0;
    while level < n
      invariant 0 <= level <= n
      invariant row == |lines| && (level == 0 ==> row == 0) && (level > 0 ==> row == 2 * level - 1)
      invariant RowsSoFar(name, levels, lines)
    {
      LevelFits(levels, level);
      var vc := levels[level];
      if level != 0 {
        var rule := if row == middleRow then name + ":" + line else padding + line;
        assert rule == Gutter(name, row == middleRow) + line;
        RuleStep(name, levels, lines, level, rule);
        lines := lines + [rule];
        row := row + 1;
      }
      var gutter := if row == middleRow then name + ":" else padding;
      assert gutter == Gutter(name, row == middleRow);
      var text := DrawLevel(gutter, vc, minTotal, levLengths[level]);
      LevelStep(name, levels, lines, level, text);
      lines := lines + [text];
      row := row + 1;
      level := level + 1;
    }
  }
}
