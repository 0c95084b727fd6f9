/**
 * The command-line parser: `parse_level`, `parse_args` and `validate_map`.
 *
 * The Rust functions share a `&mut BTreeMap` and a `&mut Peekable` iterator;
 * here the map is a `LevelMap` value and the iterator an index into the token
 * sequence, both passed in and handed back by each method.
 *
 * The methods are proved against `Parse`, a definition that first splits the
 * tokens into groups (one `-l` marker and the labels after it) and then
 * merges the groups into a map; the lemmas below state what `Parse` promises.
 */
module ArgParse {
  import opened Wrappers
  import opened Text
  import opened Decimal
  import opened Levels

  /** The `anyhow` errors of the parser, one variant per message. */
  datatype ArgError =
    | NotLevelMarker   // "level doesn't start with -l"
    | BadLevelIndex    // the `?` on `parse::<i32>()`
    | MissingArgs      // "missing args": a marker with no label after it
    | EmptyArgs        // "empty args": no level at all
    | MissingLevel     // "missing arguments": an index below the level count is absent

  /** The level index a marker names: "-l" prefixes stripped, the rest parsed as an i32. */
  function LevelIndex(marker: string): (r: Option<int>)
    ensures r.Some? ==> I32_MIN <= r.value <= I32_MAX
  {
    ParseI32(TrimMarkers(marker))
  }

  /** The labels stored for `k`, or none yet. */
  function Get(m: LevelMap, k: int): seq<string> {
    if k in m then m[k] else []
  }

  /** `levels.entry(k).or_insert(Vec::new())` followed by a push of each label. */
  function Append(m: LevelMap, k: int, labels: seq<string>): (r: LevelMap)
    ensures k in r && Get(r, k) == Get(m, k) + labels
  {
    m[k := Get(m, k) + labels]
  }

  /** Appending to level `k` adds `k` if it was absent and leaves every other level as it was. */
  lemma {:induction false} AppendOthers(m: LevelMap, k: int, labels: seq<string>, j: int)
    requires j != k
    ensures j in Append(m, k, labels) <==> j in m
    ensures Get(Append(m, k, labels), j) == Get(m, j)
  {
  }

  /** The first position at or after `i` holding a marker, or the end of the tokens. */
  function RunEnd(ts: seq<string>, i: nat): (j: nat)
    requires i <= |ts|
    ensures i <= j <= |ts|
    ensures forall p :: i <= p < j ==> !IsMarker(ts[p])
    ensures j == |ts| || IsMarker(ts[j])
    decreases |ts| - i
  {
    if i == |ts| || IsMarker(ts[i]) then i else RunEnd(ts, i + 1)
  }

  /**
   * `parse_level`: appends the tokens from `pos` up to the next marker (or the
   * end) to the labels of `level`, leaving the marker unconsumed; fails with
   * `MissingArgs`, appending nothing, when there is no such token.
   */
  method ParseLevel(levels: LevelMap, level: int, args: seq<string>, pos: nat)
    returns (levels': LevelMap, next: nat, status: Outcome<ArgError>)
    requires pos <= |args|
    ensures next == RunEnd(args, pos)
    ensures pos <= next <= |args|
    ensures forall p :: pos <= p < next ==> !IsMarker(args[p])
    ensures next == |args| || IsMarker(args[next])
    ensures status == Pass <==> next > pos
    ensures status.Fail? ==> status.error == MissingArgs && levels' == levels
    ensures status.Pass? ==> levels' == Append(levels, level, args[pos..next])
  {
    var atLeastOne := false;
    levels', next := levels, pos;
    while next < |args| && !IsMarker(args[next])
      invariant pos <= next <= |args|
      invariant forall p :: pos <= p < next ==> !IsMarker(args[p])
      invariant atLeastOne <==> next > pos
      invariant levels' == if atLeastOne then Append(levels, level, args[pos..next]) else levels
      decreases |args| - next
    {
      ghost var appended := if atLeastOne then args[pos..next] else [];
      assert Get(levels', level) == Get(levels, level) + appended;
      assert appended + [args[next]] == args[pos..next + 1];
      var labels := Get(levels', level) + [args[next]];
      assert labels == Get(levels, level) + args[pos..next + 1];
      assert levels'[level := labels] == levels[level := labels];
      atLeastOne := true;
      levels' := levels'[level := labels];
      next := next + 1;
    }
    status := if atLeastOne then Pass else Fail(MissingArgs);
  }

  /** One marker and the labels that follow it. */
  datatype Group = Group(index: int, labels: seq<string>)

  /**
   * The group opened by the token at `pos`, or the error `parse_args` meets
   * there: the token is not a marker, its index does not parse, or no label
   * follows it.
   */
  function NextGroup(ts: seq<string>, pos: nat): (r: Result<Group, ArgError>)
    requires pos < |ts|
    ensures r == Err(NotLevelMarker) <==> !IsMarker(ts[pos])
    ensures r == Err(BadLevelIndex) <==> IsMarker(ts[pos]) && LevelIndex(ts[pos]).None?
    ensures r == Err(MissingArgs) <==>
      IsMarker(ts[pos]) && LevelIndex(ts[pos]).Some? && (pos + 1 == |ts| || IsMarker(ts[pos + 1]))
    ensures r.Ok? ==>
      LevelIndex(ts[pos]) == Some(r.value.index) && LabelsOk(r.value.labels) &&
      pos + 1 + |r.value.labels| <= |ts| && ts[pos + 1..pos + 1 + |r.value.labels|] == r.value.labels &&
      (pos + 1 + |r.value.labels| == |ts| || IsMarker(ts[pos + 1 + |r.value.labels|]))
  {
    if !IsMarker(ts[pos]) then Err(NotLevelMarker)
    else match LevelIndex(ts[pos])
      case None => Err(BadLevelIndex)
      case Some(k) =>
        var end := RunEnd(ts, pos + 1);
        if end == pos + 1 then Err(MissingArgs) else Ok(Group(k, ts[pos + 1..end]))
  }

  /** A group followed by the groups after it; the first error wins. */
  function Prepend(head: Result<Group, ArgError>, rest: Result<seq<Group>, ArgError>): Result<seq<Group>, ArgError> {
    match head
    case Err(e) => Err(e)
    case Ok(g) =>
      match rest
      case Err(e) => Err(e)
      case Ok(gs) => Ok([g] + gs)
  }

  /** The tokens from `pos` on, split into groups, or the first error met left to right. */
  function Scan(ts: seq<string>, pos: nat): Result<seq<Group>, ArgError>
    requires pos <= |ts|
    decreases |ts| - pos
  {
    if pos == |ts| then Ok([])
    else Prepend(NextGroup(ts, pos), Scan(ts, RunEnd(ts, pos + 1)))
  }

  /** The groups' labels added to `m` in order, later groups extending earlier ones. */
  function Merge(m: LevelMap, gs: seq<Group>): LevelMap
    decreases |gs|
  {
    if gs == [] then m else Merge(Append(m, gs[0].index, gs[0].labels), gs[1..])
  }

  /** What `validate_map` decides about a finished map. */
  ghost function Checked(m: LevelMap): Result<LevelMap, ArgError> {
    if m == map[] then Err(EmptyArgs)
    else if !Contiguous(m) then Err(MissingLevel)
    else Ok(m)
  }

  /** The outcome of parsing the tokens from `pos` on into the partial map `m`. */
  ghost function Resume(ts: seq<string>, pos: nat, m: LevelMap): Result<LevelMap, ArgError>
    requires pos <= |ts|
  {
    match Scan(ts, pos)
    case Err(e) => Err(e)
    case Ok(gs) => Checked(Merge(m, gs))
  }

  /** The outcome of parsing a whole command line (after `--name name`) into a fresh map. */
  ghost function Parse(ts: seq<string>): Result<LevelMap, ArgError> {
    Resume(ts, 0, map[])
  }

  /**
   * `validate_map`: fails with `EmptyArgs` on an empty map, with
   * `MissingLevel` when some index in `0..len` is absent, and passes exactly
   * when the keys are `0, ..., len - 1`.
   */
  method ValidateMap(levels: LevelMap) returns (status: Outcome<ArgError>)
    ensures status == Fail(EmptyArgs) <==> levels == map[]
    ensures status == Fail(MissingLevel) <==> levels != map[] && !Contiguous(levels)
    ensures status == Pass <==> levels != map[] && Contiguous(levels)
  {
    if |levels| == 0 {
      return Fail(EmptyArgs);
    }
    for i := 0 to |levels|
      invariant forall j :: 0 <= j < i ==> j in levels
    {
      if i !in levels {
        assert i in Range(|levels|);
        return Fail(MissingLevel);
      }
    }
    CoveredMeansContiguous(levels);
    return Pass;
  }

  /** `parse_args`, run by `main` on a fresh map and the tokens after `--name name`. */
  method ParseArgs(tokens: seq<string>) returns (res: Result<LevelMap, ArgError>)
    ensures res == Parse(tokens)
  {
    var levels: LevelMap := map[];
    var pos: nat := 0;
    while pos < |tokens|
      invariant pos <= |tokens|
      invariant Resume(tokens, pos, levels) == Parse(tokens)
      decreases |tokens| - pos
    {
      if !IsMarker(tokens[pos]) {
        return Err(NotLevelMarker);
      }
      var level := LevelIndex(tokens[pos]);
      if level.None? {
        return Err(BadLevelIndex);
      }
      var status;
      ghost var start, before := pos, levels;
      levels, pos, status := ParseLevel(levels, level.value, tokens, pos + 1);
      if status.Fail? {
        return Err(status.error);
      }
      ResumeAfterGroup(tokens, start, before);
    }
    var status := ValidateMap(levels);
    res := if status.Pass? then Ok(levels) else Err(status.error);
  }

  /** Parsing one well-formed group and resuming after it is the same as resuming before it. */
  lemma {:induction false} ResumeAfterGroup(ts: seq<string>, pos: nat, m: LevelMap)
    requires pos < |ts| && IsMarker(ts[pos]) && LevelIndex(ts[pos]).Some?
    requires RunEnd(ts, pos + 1) > pos + 1
    ensures Resume(ts, pos, m)
         == Resume(ts, RunEnd(ts, pos + 1), Append(m, LevelIndex(ts[pos]).value, ts[pos + 1..RunEnd(ts, pos + 1)]))
  {
    var end := RunEnd(ts, pos + 1);
    var g := Group(LevelIndex(ts[pos]).value, ts[pos + 1..end]);
    match Scan(ts, end)
    case Err(e) =>
    case Ok(gs) =>
      assert ([g] + gs)[1..] == gs;
  }

  /** A label list as the parser leaves it: non-empty, and no label is a marker. */
  ghost predicate LabelsOk(labels: seq<string>) {
    |labels| >= 1 && forall i :: 0 <= i < |labels| ==> !IsMarker(labels[i])
  }

  lemma {:induction false} ScanGroupsOk(ts: seq<string>, pos: nat, gs: seq<Group>)
    requires pos <= |ts| && Scan(ts, pos) == Ok(gs)
    ensures forall i :: 0 <= i < |gs| ==> LabelsOk(gs[i].labels)
    decreases |ts| - pos
  {
    if pos < |ts| {
      var end := RunEnd(ts, pos + 1);
      var rest :| Scan(ts, end) == Ok(rest) && gs == [gs[0]] + rest;
      ScanGroupsOk(ts, end, rest);
    }
  }

  lemma {:induction false} MergeLabelsOk(m: LevelMap, gs: seq<Group>)
    requires forall k :: k in m ==> LabelsOk(m[k])
    requires forall i :: 0 <= i < |gs| ==> LabelsOk(gs[i].labels)
    ensures forall k :: k in Merge(m, gs) ==> LabelsOk(Merge(m, gs)[k])
    decreases |gs|
  {
    if gs != [] {
      var m' := Append(m, gs[0].index, gs[0].labels);
      forall k | k in m' ensures LabelsOk(m'[k]) {
        if k == gs[0].index {
          assert m'[k] == Get(m, k) + gs[0].labels;
        }
      }
      MergeLabelsOk(m', gs[1..]);
    }
  }

  /**
   * A successful parse yields a non-empty map whose keys are exactly
   * `0, ..., n-1` and whose every level holds at least one label, none of
   * them a marker.
   */
  lemma {:induction false} ParseOkShape(ts: seq<string>, m: LevelMap)
    requires Parse(ts) == Ok(m)
    ensures |m| >= 1 && Contiguous(m)
    ensures forall k :: k in m ==> LabelsOk(m[k])
  {
    var gs :| Scan(ts, 0) == Ok(gs) && Checked(Merge(map[], gs)) == Ok(m);
    ScanGroupsOk(ts, 0, gs);
    MergeLabelsOk(map[], gs);
  }

  /** The scan's errors come first; validation can only add `EmptyArgs` or `MissingLevel`. */
  lemma {:induction false} ParseError(ts: seq<string>)
    ensures Scan(ts, 0).Err? ==> Parse(ts) == Err(Scan(ts, 0).error)
    ensures Scan(ts, 0).Ok? ==> Parse(ts).Ok? || Parse(ts) == Err(EmptyArgs) || Parse(ts) == Err(MissingLevel)
  {
  }

  lemma {:induction false} ScanAtMarkerNotMisplaced(ts: seq<string>, pos: nat)
    requires pos <= |ts| && (pos == |ts| || IsMarker(ts[pos]))
    ensures Scan(ts, pos) != Err(NotLevelMarker)
    decreases |ts| - pos
  {
    if pos < |ts| && LevelIndex(ts[pos]).Some? && RunEnd(ts, pos + 1) > pos + 1 {
      ScanAtMarkerNotMisplaced(ts, RunEnd(ts, pos + 1));
    }
  }

  /**
   * "level doesn't start with -l" can only be reported for the first token:
   * every later token in marker position is a marker, because a level's
   * labels run up to the next marker.
   */
  lemma {:induction false} ParseNotMarkerIff(ts: seq<string>)
    ensures Parse(ts) == Err(NotLevelMarker) <==> |ts| > 0 && !IsMarker(ts[0])
  {
    ParseError(ts);
    if |ts| == 0 || IsMarker(ts[0]) {
      ScanAtMarkerNotMisplaced(ts, 0);
    }
  }

  /** A marker directly followed by another marker or by the end of the tokens. */
  ghost predicate EmptyLevelAt(ts: seq<string>, p: int) {
    0 <= p < |ts| && IsMarker(ts[p]) && (p + 1 == |ts| || IsMarker(ts[p + 1]))
  }

  /** Every marker among the tokens `lo..hi` names a valid i32 index. */
  ghost predicate IndicesParseIn(ts: seq<string>, lo: int, hi: int) {
    forall q :: lo <= q <= hi && 0 <= q < |ts| && IsMarker(ts[q]) ==> LevelIndex(ts[q]).Some?
  }

  /**
   * Scanning from a marker reaches a marker with no label after it, provided
   * every marker on the way names a valid index; what follows is never read.
   */
  lemma {:induction false} ScanMissingArgs(ts: seq<string>, pos: nat, p: nat)
    requires pos <= p < |ts| && IsMarker(ts[pos]) && IndicesParseIn(ts, pos, p)
    requires EmptyLevelAt(ts, p)
    ensures Scan(ts, pos) == Err(MissingArgs)
    decreases |ts| - pos
  {
    var end := RunEnd(ts, pos + 1);
    if end > pos + 1 {
      assert p != pos;
      ScanMissingArgs(ts, end, p);
    }
  }

  /** A `MissingArgs` failure of a scan names the empty level, and every marker before it parsed. */
  lemma {:induction false} ScanMissingArgsWitness(ts: seq<string>, pos: nat)
    requires pos <= |ts| && Scan(ts, pos) == Err(MissingArgs)
    ensures exists p :: pos <= p && EmptyLevelAt(ts, p) && IndicesParseIn(ts, pos, p)
    decreases |ts| - pos
  {
    var end := RunEnd(ts, pos + 1);
    if end == pos + 1 {
      assert EmptyLevelAt(ts, pos) && IndicesParseIn(ts, pos, pos);
    } else {
      ScanMissingArgsWitness(ts, end);
      var p :| end <= p && EmptyLevelAt(ts, p) && IndicesParseIn(ts, end, p);
      assert IndicesParseIn(ts, pos, p);
    }
  }

  /**
   * "missing args": once the first token is a marker, parsing fails with
   * `MissingArgs` exactly when some marker is followed directly by another
   * marker or by the end, and every marker up to it names a valid index.
   * Markers after the empty level are never parsed.
   */
  lemma {:induction false} ParseMissingArgsIff(ts: seq<string>)
    requires |ts| > 0 && IsMarker(ts[0])
    ensures Parse(ts) == Err(MissingArgs) <==>
      exists p :: EmptyLevelAt(ts, p) && IndicesParseIn(ts, 0, p)
  {
    ParseError(ts);
    if exists p :: EmptyLevelAt(ts, p) && IndicesParseIn(ts, 0, p) {
      var p :| EmptyLevelAt(ts, p) && IndicesParseIn(ts, 0, p);
      ScanMissingArgs(ts, 0, p);
    }
    if Scan(ts, 0) == Err(MissingArgs) {
      ScanMissingArgsWitness(ts, 0);
    }
  }

  /**
   * Whatever the tokens, a `MissingArgs` failure points at a marker with no
   * label after it, and every marker up to it named a valid index.
   */
  lemma {:induction false} ParseMissingArgsWitness(ts: seq<string>)
    requires Parse(ts) == Err(MissingArgs)
    ensures exists p :: EmptyLevelAt(ts, p) && IndicesParseIn(ts, 0, p)
  {
    ParseError(ts);
    ScanMissingArgsWitness(ts, 0);
  }

  /** The labels of every group with index `k`, in order. */
  function LabelsFor(gs: seq<Group>, k: int): seq<string>
    decreases |gs|
  {
    if gs == [] then []
    else (if gs[0].index == k then gs[0].labels else []) + LabelsFor(gs[1..], k)
  }

  /** The indices the groups name. */
  function Indices(gs: seq<Group>): set<int>
    decreases |gs|
  {
    if gs == [] then {} else {gs[0].index} + Indices(gs[1..])
  }

  /**
   * Merging keeps input order and extends rather than replaces: level `k`
   * ends with its previous labels followed by the labels of every group
   * naming `k`, in the order the groups occur.
   */
  lemma {:induction false} MergeLabels(m: LevelMap, gs: seq<Group>, k: int)
    ensures Get(Merge(m, gs), k) == Get(m, k) + LabelsFor(gs, k)
    decreases |gs|
  {
    if gs != [] {
      var m' := Append(m, gs[0].index, gs[0].labels);
      MergeLabels(m', gs[1..], k);
      if gs[0].index != k {
        AppendOthers(m, gs[0].index, gs[0].labels, k);
      }
    }
  }

  /** A group's index is among the indices, and only those are. */
  lemma {:induction false} IndicesOf(gs: seq<Group>, k: int)
    ensures k in Indices(gs) <==> exists i :: 0 <= i < |gs| && gs[i].index == k
    decreases |gs|
  {
    if gs != [] {
      IndicesOf(gs[1..], k);
      if exists i :: 0 <= i < |gs[1..]| && gs[1..][i].index == k {
        var i :| 0 <= i < |gs[1..]| && gs[1..][i].index == k;
        assert gs[i + 1].index == k;
      }
      if exists i :: 0 <= i < |gs| && gs[i].index == k {
        var i :| 0 <= i < |gs| && gs[i].index == k;
        if i > 0 {
          assert gs[1..][i - 1].index == k;
        }
      }
    }
  }

  /**
   * The levels after merging are those present before and those some group
   * names: a level exists afterwards exactly when it did before or some
   * group names it.
   */
  lemma {:induction false} MergeKeys(m: LevelMap, gs: seq<Group>)
    ensures Merge(m, gs).Keys == m.Keys + Indices(gs)
    ensures forall k :: k in Merge(m, gs) <==> k in m || exists i :: 0 <= i < |gs| && gs[i].index == k
    decreases |gs|
  {
    if gs != [] {
      var m' := Append(m, gs[0].index, gs[0].labels);
      MergeKeys(m', gs[1..]);
      assert m'.Keys == m.Keys + {gs[0].index};
    }
    forall k ensures k in Indices(gs) <==> exists i :: 0 <= i < |gs| && gs[i].index == k {
      IndicesOf(gs, k);
    }
  }

  /** The marker that opens level `k`: "-l" and the index in decimal. */
  function Marker(k: nat): string {
    "-l" + FormatNat(k)
  }

  lemma {:induction false} MarkerIndex(k: nat)
    requires k <= I32_MAX
    ensures IsMarker(Marker(k)) && LevelIndex(Marker(k)) == Some(k)
  {
    var digits := FormatNat(k);
    assert Marker(k)[2..] == digits;
    assert !IsMarker(digits);
    ParseFormatInt(k);
  }

  /** The markers of levels `0..n-1`, in order. */
  function Markers(n: nat): seq<string> {
    seq(n, (k: int) requires 0 <= k => Marker(k))
  }

  /** `marks[k]` is a marker naming level `k`, for every level below `n`. */
  ghost predicate NamesLevels(marks: seq<string>, n: nat) {
    |marks| >= n && forall k :: 0 <= k < n ==> IsMarker(marks[k]) && LevelIndex(marks[k]) == Some(k)
  }

  /** Levels `i..n-1` of a map written out with the given markers: each marker, then its labels. */
  function Join(m: LevelMap, marks: seq<string>, i: nat, n: nat): seq<string>
    requires |marks| >= n
    decreases n - i
  {
    if i >= n then [] else [marks[i]] + Get(m, i) + Join(m, marks, i + 1, n)
  }

  /** A level map written back as a command line: "-l0 labels... -l1 labels ..." */
  function Unparse(m: LevelMap): seq<string> {
    Join(m, Markers(|m|), 0, |m|)
  }

  /** The groups `Join` writes, one per level in ascending order. */
  function GroupsOf(m: LevelMap, i: nat, n: nat): seq<Group>
    decreases n - i
  {
    if i >= n then [] else [Group(i, Get(m, i))] + GroupsOf(m, i + 1, n)
  }

  /** Levels `i..n-1` are present and hold labels as a parse leaves them. */
  ghost predicate LevelsOk(m: LevelMap, i: nat, n: nat)
    decreases n - i
  {
    i >= n || (i in m && LabelsOk(m[i]) && LevelsOk(m, i + 1, n))
  }

  lemma {:induction false} AllLevelsOk(m: LevelMap, i: nat, n: nat)
    requires forall j :: i <= j < n ==> j in m && LabelsOk(m[j])
    ensures LevelsOk(m, i, n)
    decreases n - i
  {
    if i < n {
      AllLevelsOk(m, i + 1, n);
    }
  }

  /** `RunEnd` is the only position with its two properties. */
  lemma {:induction false} RunEndAt(ts: seq<string>, i: nat, j: nat)
    requires i <= j <= |ts|
    requires forall p :: i <= p < j ==> !IsMarker(ts[p])
    requires j == |ts| || IsMarker(ts[j])
    ensures RunEnd(ts, i) == j
  {
  }

  /** Proof step, unfolding `Scan` once: a group, then the groups after it. */
  lemma {:induction false} ScanStep(ts: seq<string>, pos: nat, g: Group, end: nat)
    requires pos < |ts| && NextGroup(ts, pos) == Ok(g) && RunEnd(ts, pos + 1) == end
    ensures Scan(ts, pos) == Prepend(Ok(g), Scan(ts, end))
  {
  }

  /** Proof step, unfolding `NextGroup`: a marker whose index parses, followed by at least one label, opens a group. */
  lemma {:induction false} NextGroupOf(ts: seq<string>, pos: nat, k: int, end: nat)
    requires pos < |ts| && IsMarker(ts[pos]) && LevelIndex(ts[pos]) == Some(k)
    requires pos + 1 < end <= |ts| && RunEnd(ts, pos + 1) == end
    ensures NextGroup(ts, pos) == Ok(Group(k, ts[pos + 1..end]))
  {
  }

  /** A marker for `k` followed by its labels and then a marker or the end opens one group. */
  lemma {:induction false} NextGroupAt(ts: seq<string>, pos: nat, k: int, labels: seq<string>)
    requires LabelsOk(labels) && pos + 1 + |labels| <= |ts|
    requires IsMarker(ts[pos]) && LevelIndex(ts[pos]) == Some(k)
    requires ts[pos + 1..pos + 1 + |labels|] == labels
    requires pos + 1 + |labels| == |ts| || IsMarker(ts[pos + 1 + |labels|])
    ensures NextGroup(ts, pos) == Ok(Group(k, labels))
    ensures RunEnd(ts, pos + 1) == pos + 1 + |labels|
  {
    var end := pos + 1 + |labels|;
    forall p | pos + 1 <= p < end ensures !IsMarker(ts[p]) {
      assert ts[p] == ts[pos + 1..end][p - pos - 1];
    }
    RunEndAt(ts, pos + 1, end);
    NextGroupOf(ts, pos, k, end);
  }

  /** Proof step, unfolding `Scan` at the end of the tokens. */
  lemma {:induction false} ScanAtEnd(ts: seq<string>)
    ensures Scan(ts, |ts|) == Ok([])
  {
  }

  /** Where a token, a run of tokens and the rest sit once they are laid out from `pos`. */
  lemma {:induction false} SplitAt(ts: seq<string>, pos: nat, a: string, b: seq<string>, c: seq<string>)
    requires pos <= |ts| && ts[pos..] == [a] + b + c
    ensures pos + 1 + |b| <= |ts| && ts[pos] == a && ts[pos + 1..pos + 1 + |b|] == b
    ensures ts[pos + 1 + |b|..] == c
  {
    var s := [a] + b + c;
    assert ts[pos] == s[0];
    assert ts[pos + 1..pos + 1 + |b|] == s[1..1 + |b|];
    assert ts[pos + 1 + |b|..] == s[1 + |b|..];
  }

  /** From `pos` on, `ts` holds levels `i..n-1` of `m` written out with `marks`. */
  ghost predicate Written(ts: seq<string>, pos: nat, m: LevelMap, marks: seq<string>, i: nat, n: nat) {
    |marks| >= n && pos <= |ts| && ts[pos..] == Join(m, marks, i, n)
  }

  /** Level `i` of the written-out levels: its marker, then its labels, then the other levels. */
  lemma {:induction false} UnparseHead(ts: seq<string>, m: LevelMap, marks: seq<string>, i: nat, n: nat, pos: nat) returns (next: nat)
    requires i < n && i in m && Written(ts, pos, m, marks, i, n)
    ensures next == pos + 1 + |m[i]| && Written(ts, next, m, marks, i + 1, n) && LevelAt(ts, pos, m, marks, i)
  {
    var rest := Join(m, marks, i + 1, n);
    next := pos + 1 + |m[i]|;
    assert Join(m, marks, i, n) == [marks[i]] + m[i] + rest;
    SplitAt(ts, pos, marks[i], m[i], rest);
  }

  /** A marker for `k` followed by its labels and then a marker or the end: one scanning step. */
  lemma {:induction false} ScanGroupAt(ts: seq<string>, pos: nat, k: int, labels: seq<string>, end: nat, gs: seq<Group>)
    requires LabelsOk(labels) && end == pos + 1 + |labels| && end <= |ts|
    requires IsMarker(ts[pos]) && LevelIndex(ts[pos]) == Some(k) && ts[pos + 1..end] == labels
    requires end == |ts| || IsMarker(ts[end])
    requires Scan(ts, end) == Ok(gs)
    ensures Scan(ts, pos) == Ok([Group(k, labels)] + gs)
  {
    NextGroupAt(ts, pos, k, labels);
    ScanStep(ts, pos, Group(k, labels), end);
  }

  /** A token equal to the marker of level `k` names level `k`. */
  lemma {:induction false} MarkerNamed(t: string, marks: seq<string>, n: nat, k: nat)
    requires NamesLevels(marks, n) && k < n && t == marks[k]
    ensures IsMarker(t) && LevelIndex(t) == Some(k)
  {
  }

  /** At `pos`, `ts` holds level `i` of `m`: its marker, then its labels. */
  ghost predicate LevelAt(ts: seq<string>, pos: nat, m: LevelMap, marks: seq<string>, i: nat) {
    i in m && i < |marks| && pos + 1 + |m[i]| <= |ts| && ts[pos] == marks[i] &&
    ts[pos + 1..pos + 1 + |m[i]|] == m[i]
  }

  /** From `pos` on, `ts` holds levels `i..n-1` of `m` one after the other. */
  ghost predicate Laid(ts: seq<string>, pos: nat, m: LevelMap, marks: seq<string>, i: nat, n: nat)
    decreases n - i
  {
    if i >= n then pos == |ts|
    else LevelAt(ts, pos, m, marks, i) && Laid(ts, pos + 1 + |m[i]|, m, marks, i + 1, n)
  }

  /** The written-out levels, at the end of any tokens, are laid out level by level. */
  lemma {:induction false} UnparseLaid(ts: seq<string>, m: LevelMap, marks: seq<string>, i: nat, n: nat, pos: nat)
    requires LevelsOk(m, i, n) && Written(ts, pos, m, marks, i, n)
    ensures Laid(ts, pos, m, marks, i, n)
    decreases n - i
  {
    if i < n {
      var next := UnparseHead(ts, m, marks, i, n, pos);
      UnparseLaid(ts, m, marks, i + 1, n, next);
      assert LevelAt(ts, pos, m, marks, i) && Laid(ts, next, m, marks, i + 1, n);
    } else {
      assert Join(m, marks, i, n) == [];
      assert |ts[pos..]| == 0;
    }
  }

  /** Scanning levels laid out from `pos` recovers their groups. */
  lemma {:induction false} ScanLaid(ts: seq<string>, m: LevelMap, marks: seq<string>, i: nat, n: nat, pos: nat)
    requires LevelsOk(m, i, n) && NamesLevels(marks, n) && Laid(ts, pos, m, marks, i, n)
    ensures Scan(ts, pos) == Ok(GroupsOf(m, i, n))
    decreases n - i
  {
    if i < n {
      var next := pos + 1 + |m[i]|;
      assert LevelAt(ts, pos, m, marks, i) && Laid(ts, next, m, marks, i + 1, n) && LabelsOk(m[i]);
      MarkerNamed(ts[pos], marks, n, i);
      if i + 1 < n {
        assert LevelAt(ts, next, m, marks, i + 1);
        MarkerNamed(ts[next], marks, n, i + 1);
      }
      ScanLaid(ts, m, marks, i + 1, n, next);
      ScanGroupAt(ts, pos, i, m[i], next, GroupsOf(m, i + 1, n));
      assert GroupsOf(m, i, n) == [Group(i, m[i])] + GroupsOf(m, i + 1, n);
    } else {
      ScanAtEnd(ts);
    }
  }

  /** Merging the groups of levels `i..n-1` starts with a fresh entry for level `i`. */
  lemma {:induction false} MergeGroupsStep(acc: LevelMap, m: LevelMap, i: nat, n: nat)
    requires i < n && i in m && i !in acc
    ensures Merge(acc, GroupsOf(m, i, n)) == Merge(acc[i := m[i]], GroupsOf(m, i + 1, n))
  {
    var gs := GroupsOf(m, i, n);
    assert gs[0] == Group(i, m[i]) && gs[1..] == GroupsOf(m, i + 1, n);
    assert Append(acc, i, m[i]) == acc[i := m[i]] by {
      assert Get(acc, i) + m[i] == m[i];
    }
  }

  /** The levels of `m` below `i`. */
  ghost function Below(m: LevelMap, i: int): LevelMap {
    map k | k in m && k < i :: m[k]
  }

  /** Proof step, unfolding `Below`: the levels below `i + 1` are those below `i` and level `i`. */
  lemma {:induction false} BelowNext(m: LevelMap, i: int)
    requires i in m
    ensures i !in Below(m, i) && Below(m, i)[i := m[i]] == Below(m, i + 1)
  {
  }

  /** Every level of a map with keys `0..|m|-1` lies below `|m|`. */
  lemma {:induction false} BelowAll(m: LevelMap)
    requires Contiguous(m)
    ensures Below(m, |m|) == m
  {
    forall k | k in m ensures k < |m| {
      assert k in Range(|m|);
    }
  }

  lemma {:induction false} MergeGroupsOf(m: LevelMap, i: nat, n: nat)
    requires i <= n && Contiguous(m) && |m| == n
    ensures Merge(Below(m, i), GroupsOf(m, i, n)) == m
    decreases n - i
  {
    if i < n {
      assert i in m by {
        assert i in Range(n);
      }
      BelowNext(m, i);
      MergeGroupsStep(Below(m, i), m, i, n);
      MergeGroupsOf(m, i + 1, n);
    } else {
      assert GroupsOf(m, i, n) == [];
      BelowAll(m);
    }
  }

  /**
   * Round trip: a level map of the shape a successful parse produces, written
   * out as "-l0 labels... -l1 labels ...", parses back to itself.
   */
  lemma {:induction false} ParseUnparse(m: LevelMap)
    requires |m| >= 1 && Contiguous(m) && |m| <= I32_MAX + 1
    requires forall k :: k in m ==> LabelsOk(m[k])
    ensures Parse(Unparse(m)) == Ok(m)
  {
    var n, marks := |m|, Markers(|m|);
    forall k | 0 <= k < n ensures IsMarker(marks[k]) && LevelIndex(marks[k]) == Some(k) {
      MarkerIndex(k);
    }
    forall k | 0 <= k < n ensures k in m && LabelsOk(m[k]) {
      assert k in Range(n);
    }
    AllLevelsOk(m, 0, n);
    UnparseLaid(Unparse(m), m, marks, 0, n, 0);
    ScanLaid(Unparse(m), m, marks, 0, n, 0);
    MergeGroupsOf(m, 0, n);
    assert Below(m, 0) == map[];
  }

}
