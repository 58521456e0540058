// Column resolution in the BPI dataset exports, whose headers carry numeric prefixes
// ("012_lidar_pc_lat"): a column is found by its suffix, ties are broken by the
// smallest prefix, and a time column is chosen among the relative-time columns.
module BpiColumns {
  import opened Common
  import NumText

  /** The rank of a header without a numeric prefix. */
  const NoPrefix: nat := 1000000000

  /** The number matched by `^(\d+)_`, or 10^9 when the name has no such prefix. */
  function PrefNum(c: string): (r: nat)
    ensures (|c| > 0 && IsDigit(c[0]) && NumText.RunEnd(c, 0) < |c| && c[NumText.RunEnd(c, 0)] == '_')
            ==> r == DigitsValue(c[..NumText.RunEnd(c, 0)])
    ensures !(|c| > 0 && IsDigit(c[0]) && NumText.RunEnd(c, 0) < |c| && c[NumText.RunEnd(c, 0)] == '_')
            ==> r == NoPrefix
  {
    var e := NumText.RunEnd(c, 0);
    if e > 0 && e < |c| && c[e] == '_' then DigitsValue(c[..e]) else NoPrefix
  }

  /** The columns ending with `suffix`, in header order. */
  function Hits(cols: seq<string>, suffix: string): (r: seq<string>)
    ensures |r| <= |cols|
    ensures forall k | 0 <= k < |r| :: EndsWith(r[k], suffix) && r[k] in cols
    ensures forall k | 0 <= k < |cols| :: EndsWith(cols[k], suffix) ==> cols[k] in r
  {
    if cols == [] then []
    else
      var init := Hits(cols[..|cols| - 1], suffix);
      var c := cols[|cols| - 1];
      assert forall k | 0 <= k < |cols| - 1 :: cols[k] == cols[..|cols| - 1][k];
      if EndsWith(c, suffix) then init + [c] else init
  }

  function Ending(suffix: string): string -> Option<string>
  {
    (c: string) => if EndsWith(c, suffix) then Some(c) else None
  }

  lemma {:induction false} HitsAreFiltered(cols: seq<string>, suffix: string)
    ensures Hits(cols, suffix) == FilterMap(cols, Ending(suffix))
  {
    if cols != [] {
      HitsAreFiltered(cols[..|cols| - 1], suffix);
    }
  }

  /** The hits are a subsequence of the header: filtering keeps the header's order. */
  lemma HitsKeepOrder(a: seq<string>, b: seq<string>, c: string, suffix: string)
    ensures Hits(a + b, suffix) == Hits(a, suffix) + Hits(b, suffix)
    ensures Hits([c], suffix) == if EndsWith(c, suffix) then [c] else []
  {
    HitsAreFiltered(a + b, suffix);
    HitsAreFiltered(a, suffix);
    HitsAreFiltered(b, suffix);
    HitsAreFiltered([c], suffix);
    FilterMapConcat(a, b, Ending(suffix));
    FilterMapOne(c, Ending(suffix));
  }

  /** The head of a stable sort by prefix number: the first element whose prefix is smallest. */
  function FirstMinPrefix(s: seq<string>): (r: nat)
    requires |s| > 0
    ensures r < |s|
    ensures forall k | 0 <= k < |s| :: PrefNum(s[r]) <= PrefNum(s[k])
    ensures forall k | 0 <= k < r :: PrefNum(s[r]) < PrefNum(s[k])
  {
    if |s| == 1 then 0
    else
      var j := FirstMinPrefix(s[..|s| - 1]);
      assert forall k | 0 <= k < |s| - 1 :: s[k] == s[..|s| - 1][k];
      if PrefNum(s[|s| - 1]) < PrefNum(s[j]) then |s| - 1 else j
  }

  /** A hit in the header before the chosen one has a strictly larger prefix. */
  lemma EarlierHitsHaveLargerPrefix(cols: seq<string>, suffix: string, i: nat, j: nat)
    requires Hits(cols, suffix) != [] && j == FirstMinPrefix(Hits(cols, suffix))
    requires i < |cols| && cols[i] == Hits(cols, suffix)[j]
    requires Hits(cols[..i], suffix) == Hits(cols, suffix)[..j]
    ensures forall k | 0 <= k < i :: EndsWith(cols[k], suffix) ==> PrefNum(cols[i]) < PrefNum(cols[k])
  {
    var hits := Hits(cols, suffix);
    forall k | 0 <= k < i && EndsWith(cols[k], suffix)
      ensures PrefNum(cols[i]) < PrefNum(cols[k])
    {
      assert cols[..i][k] == cols[k];
      assert cols[k] in hits[..j];
      var q :| 0 <= q < j && hits[..j][q] == cols[k];
      assert hits[q] == cols[k];
    }
  }

  /** The head of the sorted hits sits in the header after hits of strictly larger prefix only. */
  lemma ChosenHitIsEarliest(cols: seq<string>, suffix: string)
    requires Hits(cols, suffix) != []
    ensures exists i | 0 <= i < |cols| :: cols[i] == Hits(cols, suffix)[FirstMinPrefix(Hits(cols, suffix))]
              && forall k | 0 <= k < i :: EndsWith(cols[k], suffix) ==> PrefNum(cols[i]) < PrefNum(cols[k])
  {
    var j := FirstMinPrefix(Hits(cols, suffix));
    HitsAreFiltered(cols, suffix);
    var i := FilterMapPosition(cols, Ending(suffix), j);
    HitsAreFiltered(cols[..i], suffix);
    EarlierHitsHaveLargerPrefix(cols, suffix, i, j);
  }

  function MissingSuffix(suffix: string): string
  {
    "KeyError: Colonne se terminant par '" + suffix + "' introuvable."
  }

  /**
   * find_col: the exact name if present; otherwise, among the columns ending with the
   * suffix, the one with the smallest numeric prefix (earliest on ties).
   */
  function FindCol(cols: seq<string>, suffix: string): (r: Result<string>)
    ensures r.Err? <==> forall k | 0 <= k < |cols| :: !EndsWith(cols[k], suffix)
    ensures r.Err? ==> r.error == MissingSuffix(suffix)
    ensures suffix in cols ==> r == Ok(suffix)
    ensures r.Ok? ==> r.value in cols && EndsWith(r.value, suffix)
    ensures r.Ok? && suffix !in cols ==>
              forall k | 0 <= k < |cols| :: EndsWith(cols[k], suffix) ==> PrefNum(r.value) <= PrefNum(cols[k])
    ensures r.Ok? && suffix !in cols ==>
              exists i | 0 <= i < |cols| :: cols[i] == r.value
                && forall k | 0 <= k < i :: EndsWith(cols[k], suffix) ==> PrefNum(r.value) < PrefNum(cols[k])
  {
    if suffix in cols then
      assert EndsWith(suffix, suffix);
      Ok(suffix)
    else
      var hits := Hits(cols, suffix);
      if hits == [] then Err(MissingSuffix(suffix))
      else
        var j := FirstMinPrefix(hits);
        assert forall k | 0 <= k < |cols| :: EndsWith(cols[k], suffix) ==> exists i | 0 <= i < |hits| :: hits[i] == cols[k];
        ChosenHitIsEarliest(cols, suffix);
        Ok(hits[j])
  }

  lemma PrefixTwelve()
    ensures PrefNum("012_speed") == 12
  {
    var c := "012_speed";
    NumText.RunEndOverDigits(c, 0, 3);
    assert c[..3] == "012";
    assert "012"[..2] == "01" && "01"[..1] == "0";
    assert DigitsValue("012") == 12;
  }

  lemma PrefixZero()
    ensures PrefNum("000_speed") == 0
  {
    var c := "000_speed";
    NumText.RunEndOverDigits(c, 0, 3);
    assert c[..3] == "000";
    assert "000"[..2] == "00" && "00"[..1] == "0";
    assert DigitsValue("000") == 0;
  }

  lemma BothSpeedColumnsHit()
    ensures Hits(["012_speed", "000_speed"], "speed") == ["012_speed", "000_speed"]
  {
    var cols := ["012_speed", "000_speed"];
    assert EndsWith(cols[0], "speed") && EndsWith(cols[1], "speed");
    assert cols[..1] == ["012_speed"];
    assert cols[..1][..0] == [];
  }

  /** The prefix rule picks "000_x_speed" over "012_x_speed" whatever their order. */
  lemma FindColPrefersSmallerPrefix()
    ensures FindCol(["012_speed", "000_speed"], "speed") == Ok("000_speed")
  {
    var cols := ["012_speed", "000_speed"];
    PrefixTwelve();
    PrefixZero();
    BothSpeedColumnsHit();
    assert "speed" != cols[0] && "speed" != cols[1];
    assert "speed" !in cols;
    assert FirstMinPrefix(cols) == 1;
  }

  /** The simpler lookup of the height and GUI scripts: the first column ending with the suffix. */
  function FirstColEndingWith(cols: seq<string>, suffix: string): (r: Result<string>)
    ensures r.Err? <==> forall k | 0 <= k < |cols| :: !EndsWith(cols[k], suffix)
    ensures r.Err? ==> r.error == MissingSuffix(suffix)
    ensures r.Ok? ==> exists k | 0 <= k < |cols| :: cols[k] == r.value && EndsWith(cols[k], suffix)
                                  && forall j | 0 <= j < k :: !EndsWith(cols[j], suffix)
  {
    if cols == [] then Err(MissingSuffix(suffix))
    else if EndsWith(cols[0], suffix) then Ok(cols[0])
    else
      match FirstColEndingWith(cols[1..], suffix)
      case Err(e) => Err(e)
      case Ok(c) =>
        ghost var k :| 0 <= k < |cols[1..]| && cols[1..][k] == c && EndsWith(cols[1..][k], suffix)
                       && forall j | 0 <= j < k :: !EndsWith(cols[1..][j], suffix);
        assert cols[k + 1] == c;
        Ok(c)
  }

  /** Without a numeric prefix rule the two lookups can disagree. */
  lemma LookupsDisagreeOnPrefixOrder()
    ensures FirstColEndingWith(["012_speed", "000_speed"], "speed") == Ok("012_speed")
    ensures FindCol(["012_speed", "000_speed"], "speed") == Ok("000_speed")
  {
    assert EndsWith("012_speed", "speed");
    FindColPrefersSmallerPrefix();
  }

  // ---------------------------------------------------------------------------
  // Time column choice.
  // ---------------------------------------------------------------------------

  const TimePriorities: seq<string> := ["001_rel_time", "rel_time", "lidar_rel_time", "can_rel_time", "imu_rel_time"]

  /** The image clock is never used to order LiDAR frames. */
  predicate TimeCandidate(c: string, name: string)
  {
    EndsWith(c, name) && !Contains(c, "image_rel_time")
  }

  /** The columns, in header order, that end with `name` and are not the image clock. */
  function Candidates(cols: seq<string>, name: string): (r: seq<string>)
    ensures |r| <= |cols|
    ensures forall k | 0 <= k < |r| :: TimeCandidate(r[k], name) && r[k] in cols
    ensures forall k | 0 <= k < |cols| :: TimeCandidate(cols[k], name) ==> cols[k] in r
  {
    if cols == [] then []
    else
      var init := Candidates(cols[..|cols| - 1], name);
      var c := cols[|cols| - 1];
      assert forall k | 0 <= k < |cols| - 1 :: cols[k] == cols[..|cols| - 1][k];
      if TimeCandidate(c, name) then init + [c] else init
  }

  function CandidateOf(name: string): string -> Option<string>
  {
    (c: string) => if TimeCandidate(c, name) then Some(c) else None
  }

  lemma {:induction false} CandidatesAreFiltered(cols: seq<string>, name: string)
    ensures Candidates(cols, name) == FilterMap(cols, CandidateOf(name))
  {
    if cols != [] {
      CandidatesAreFiltered(cols[..|cols| - 1], name);
    }
  }

  /** The candidates keep the header's order. */
  lemma CandidatesKeepOrder(a: seq<string>, b: seq<string>, c: string, name: string)
    ensures Candidates(a + b, name) == Candidates(a, name) + Candidates(b, name)
    ensures Candidates([c], name) == if TimeCandidate(c, name) then [c] else []
  {
    CandidatesAreFiltered(a + b, name);
    CandidatesAreFiltered(a, name);
    CandidatesAreFiltered(b, name);
    CandidatesAreFiltered([c], name);
    FilterMapConcat(a, b, CandidateOf(name));
    FilterMapOne(c, CandidateOf(name));
  }

  /** The chosen time column, and the header afterwards (`_idx` is added by the fallback). */
  datatype TimeChoice = TimeChoice(column: string, columns: seq<string>)

  /** The fallback: an `_idx` column numbering the rows. */
  function IndexFallback(cols: seq<string>): (r: TimeChoice)
    ensures r.column == "_idx" && "_idx" in r.columns
  {
    TimeChoice("_idx", if "_idx" in cols then cols else cols + ["_idx"])
  }

  /** The priority scan from position `i` on, then the generic rel_time and index fallbacks. */
  function PickFrom(cols: seq<string>, i: nat): (r: TimeChoice)
    requires i <= |TimePriorities|
    ensures r.column in r.columns && cols <= r.columns
    ensures r.column == "_idx" || (r.columns == cols && r.column in cols && !Contains(r.column, "image_rel_time"))
    decreases |TimePriorities| - i
  {
    if i == |TimePriorities| then
      var rels := Candidates(cols, "rel_time");
      if rels != [] then TimeChoice(rels[FirstMinPrefix(rels)], cols) else IndexFallback(cols)
    else
      var cands := Candidates(cols, TimePriorities[i]);
      if |cands| == 1 then TimeChoice(cands[0], cols)
      else if |cands| > 1 && TimePriorities[i] == "rel_time" then TimeChoice(cands[FirstMinPrefix(cands)], cols)
      else PickFrom(cols, i + 1)
  }

  /** pick_time_col: the loop over the priorities with its early returns. */
  method PickTimeCol(cols: seq<string>) returns (r: TimeChoice)
    ensures r == PickFrom(cols, 0)
  {
    var i := 0;
    while i < |TimePriorities|
      invariant 0 <= i <= |TimePriorities|
      invariant PickFrom(cols, 0) == PickFrom(cols, i)
    {
      var name := TimePriorities[i];
      var cands := Candidates(cols, name);
      if |cands| == 1 {
        return TimeChoice(cands[0], cols);
      }
      if |cands| > 1 && name == "rel_time" {
        return TimeChoice(cands[FirstMinPrefix(cands)], cols);
      }
      i := i + 1;
    }
    var rels := Candidates(cols, "rel_time");
    if rels != [] {
      return TimeChoice(rels[FirstMinPrefix(rels)], cols);
    }
    r := IndexFallback(cols);
  }

  lemma EndsWithTransitive(c: string, longer: string, shorter: string)
    requires EndsWith(c, longer) && EndsWith(longer, shorter)
    ensures EndsWith(c, shorter)
  {
    assert c[|c| - |shorter|..] == longer[|longer| - |shorter|..];
  }

  /** A candidate for a longer rel_time name is a candidate for "rel_time" too. */
  lemma {:induction false} LongerNameCandidates(cols: seq<string>, name: string)
    requires EndsWith(name, "rel_time")
    ensures |Candidates(cols, name)| <= |Candidates(cols, "rel_time")|
  {
    if cols != [] {
      LongerNameCandidates(cols[..|cols| - 1], name);
      var c := cols[|cols| - 1];
      if TimeCandidate(c, name) {
        EndsWithTransitive(c, name, "rel_time");
      }
    }
  }

  /**
   * Only the first two priorities matter: every later name also ends with "rel_time",
   * so once "rel_time" has no candidate neither have they, and the generic rel_time
   * fallback is never reached with a candidate either.
   */
  lemma PickTimeColDecidedByFirstTwo(cols: seq<string>)
    ensures var c1, c2 := Candidates(cols, "001_rel_time"), Candidates(cols, "rel_time");
            PickFrom(cols, 0) ==
              if |c1| == 1 then TimeChoice(c1[0], cols)
              else if |c2| >= 1 then TimeChoice(if |c2| == 1 then c2[0] else c2[FirstMinPrefix(c2)], cols)
              else IndexFallback(cols)
  {
    var c1, c2 := Candidates(cols, "001_rel_time"), Candidates(cols, "rel_time");
    assert TimePriorities[0] == "001_rel_time" && TimePriorities[1] == "rel_time";
    if |c1| != 1 {
      assert PickFrom(cols, 0) == PickFrom(cols, 1);
      if |c2| == 0 {
        assert PickFrom(cols, 1) == PickFrom(cols, 2);
        LaterPrioritiesHaveNoCandidate(cols);
      }
    }
  }

  /** A priority name ending in rel_time is skipped when no column ends in rel_time. */
  lemma SkipPriority(cols: seq<string>, i: nat)
    requires 2 <= i < |TimePriorities| && EndsWith(TimePriorities[i], "rel_time")
    requires Candidates(cols, "rel_time") == []
    ensures PickFrom(cols, i) == PickFrom(cols, i + 1)
  {
    LongerNameCandidates(cols, TimePriorities[i]);
  }

  /** The priority names after rel_time are all specific rel_time clocks. */
  lemma LaterPriorityEndsInRelTime(i: nat)
    requires 2 <= i < |TimePriorities|
    ensures EndsWith(TimePriorities[i], "rel_time")
  {
    if i == 2 {
      assert TimePriorities[2] == "lidar_rel_time";
    } else if i == 3 {
      assert TimePriorities[3] == "can_rel_time";
    } else {
      assert TimePriorities[4] == "imu_rel_time";
    }
  }

  lemma LaterPrioritiesHaveNoCandidate(cols: seq<string>)
    requires Candidates(cols, "rel_time") == []
    ensures PickFrom(cols, 2) == IndexFallback(cols)
  {
    LaterPriorityEndsInRelTime(2);
    LaterPriorityEndsInRelTime(3);
    LaterPriorityEndsInRelTime(4);
    SkipPriority(cols, 2);
    SkipPriority(cols, 3);
    SkipPriority(cols, 4);
  }

  /** The chosen column is never an image clock, and a rel_time column wins over the index. */
  lemma PickTimeColAvoidsImageClock(cols: seq<string>)
    ensures !Contains(PickFrom(cols, 0).column, "image_rel_time")
    ensures PickFrom(cols, 0).column == "_idx" <==> Candidates(cols, "rel_time") == []
    ensures PickFrom(cols, 0).column != "_idx" ==> PickFrom(cols, 0).columns == cols
  {
    PickTimeColDecidedByFirstTwo(cols);
    var c1, c2 := Candidates(cols, "001_rel_time"), Candidates(cols, "rel_time");
    assert EndsWith("001_rel_time", "rel_time");
    LongerNameCandidates(cols, "001_rel_time");
    assert !Contains("_idx", "image_rel_time");
    if |c2| >= 1 {
      assert !EndsWith("_idx", "rel_time");
      if |c1| == 1 {
        assert TimeCandidate(c1[0], "001_rel_time");
        EndsWithTransitive(c1[0], "001_rel_time", "rel_time");
      } else {
        var j := if |c2| == 1 then 0 else FirstMinPrefix(c2);
        assert TimeCandidate(c2[j], "rel_time");
      }
    }
  }
}
