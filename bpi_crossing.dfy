// The pc_lat sign-change detector of the BPI crossing viewer, and the image-name
// candidates derived from a LiDAR time stamp.
module BpiCrossing {
  import opened Common

  /** -1, 0 or +1 as the value is negative, zero or positive. */
  function Sign(v: real): (r: int)
    ensures r == -1 <==> v < 0.0
    ensures r == 1 <==> v > 0.0
    ensures r == 0 <==> v == 0.0
  {
    if v < 0.0 then -1 else if v > 0.0 then 1 else 0
  }

  /** One counted frame: its row index and the sign of its lateral offset. */
  datatype Sample = Sample(idx: nat, sign: int)

  /** One detected change, as the viewer records it. */
  datatype Event = Event(idxPrev: nat, idxCurr: nat, signPrev: int, signCurr: int)

  predicate Counts(pcLat: seq<Option<real>>, valid: seq<bool>, i: nat)
    requires i < |pcLat| && i < |valid|
  {
    valid[i] && pcLat[i].Some? && Sign(pcLat[i].value) != 0
  }

  predicate Signed(c: seq<Sample>)
  {
    forall k | 0 <= k < |c| :: c[k].sign == -1 || c[k].sign == 1
  }

  /**
   * The frames the scan looks at: those of `order` (the sort order) whose LiDAR flag is
   * set and whose pc_lat is finite and nonzero, kept in sort order.
   */
  function Counted(pcLat: seq<Option<real>>, valid: seq<bool>, order: seq<nat>): (r: seq<Sample>)
    requires |valid| == |pcLat|
    requires forall k | 0 <= k < |order| :: order[k] < |pcLat|
    ensures |r| <= |order| && Signed(r)
    ensures forall k | 0 <= k < |r| :: r[k].idx < |pcLat| && Counts(pcLat, valid, r[k].idx)
                                        && r[k].sign == Sign(pcLat[r[k].idx].value)
    ensures forall k | 0 <= k < |order| :: Counts(pcLat, valid, order[k]) ==>
                                             exists j | 0 <= j < |r| :: r[j].idx == order[k]
  {
    if order == [] then []
    else
      var init := Counted(pcLat, valid, order[..|order| - 1]);
      var i := order[|order| - 1];
      assert forall k | 0 <= k < |order| - 1 :: order[..|order| - 1][k] == order[k];
      if Counts(pcLat, valid, i) then
        var r := init + [Sample(i, Sign(pcLat[i].value))];
        assert r[|r| - 1].idx == i;
        assert forall j | 0 <= j < |init| :: r[j] == init[j];
        r
      else init
  }

  /** The scan state: the baseline sign (0 before the first counted frame), its frame, the events. */
  datatype Scan = Scan(lastSign: int, lastIdx: nat, events: seq<Event>)

  /** One iteration of the loop body on a counted frame. */
  function Step(st: Scan, x: Sample): Scan
  {
    if st.lastSign == 0 then Scan(x.sign, x.idx, st.events)
    else if x.sign != st.lastSign then
      Scan(x.sign, x.idx, st.events + [Event(st.lastIdx, x.idx, st.lastSign, x.sign)])
    else st
  }

  /** An independent count: the adjacent pairs of counted frames whose signs differ. */
  function NumChanges(c: seq<Sample>): nat
  {
    if |c| <= 1 then 0
    else NumChanges(c[..|c| - 1]) + if c[|c| - 1].sign != c[|c| - 2].sign then 1 else 0
  }

  /** Every event is a real change between the two signs, and the events form one chain. */
  predicate Chained(e: seq<Event>)
  {
    (forall k | 0 <= k < |e| :: e[k].signPrev in {-1, 1} && e[k].signCurr in {-1, 1}
                                 && e[k].signPrev != e[k].signCurr)
    && (forall k | 0 <= k < |e| - 1 :: e[k + 1].idxPrev == e[k].idxCurr
                                       && e[k + 1].signPrev == e[k].signCurr)
  }

  /** What the scan state says about the frames it has seen. */
  predicate ScanInv(c: seq<Sample>, st: Scan)
  {
    (c == [] <==> st.lastSign == 0)
    && (c == [] ==> st.events == [])
    && (c != [] ==> st.lastSign == c[|c| - 1].sign && |st.events| <= |c| - 1
                    && (st.events == [] ==> st.lastIdx == c[0].idx)
                    && (st.events != [] ==> st.events[0].idxPrev == c[0].idx))
    && (st.events != [] ==>
          st.events[|st.events| - 1].idxCurr == st.lastIdx && st.events[|st.events| - 1].signCurr == st.lastSign)
    && |st.events| == NumChanges(c)
    && Chained(st.events)
  }

  /** The loop run over the counted frames, from the initial state. */
  function ScanAll(c: seq<Sample>): (st: Scan)
    requires Signed(c)
    ensures ScanInv(c, st)
  {
    if c == [] then Scan(0, 0, [])
    else
      var p := c[..|c| - 1];
      assert Signed(p) by {
        assert forall k | 0 <= k < |p| :: p[k] == c[k];
      }
      var prev := ScanAll(p);
      assert c == p + [c[|c| - 1]];
      StepKeepsInv(p, prev, c[|c| - 1]);
      Step(prev, c[|c| - 1])
  }

  /** One loop step on a further counted frame keeps the scan invariant. */
  lemma StepKeepsInv(p: seq<Sample>, st: Scan, x: Sample)
    requires Signed(p) && (x.sign == -1 || x.sign == 1)
    requires ScanInv(p, st)
    ensures ScanInv(p + [x], Step(st, x))
  {
    var c := p + [x];
    assert c[..|c| - 1] == p;
    assert c[|c| - 1] == x;
    assert p != [] ==> c[0] == p[0] && c[|c| - 2] == p[|p| - 1];
  }

  /** Looking at one more frame of the sort order is one loop step, or none. */
  lemma ScanOneMore(pcLat: seq<Option<real>>, valid: seq<bool>, order: seq<nat>, i: nat)
    requires |valid| == |pcLat|
    requires forall k | 0 <= k < |order| :: order[k] < |pcLat|
    requires i < |order|
    ensures ScanAll(Counted(pcLat, valid, order[..i + 1])) ==
            var st := ScanAll(Counted(pcLat, valid, order[..i]));
            if Counts(pcLat, valid, order[i]) then Step(st, Sample(order[i], Sign(pcLat[order[i]].value)))
            else st
  {
    assert order[..i + 1][..i] == order[..i];
    var c := Counted(pcLat, valid, order[..i]);
    if Counts(pcLat, valid, order[i]) {
      var x := Sample(order[i], Sign(pcLat[order[i]].value));
      assert Counted(pcLat, valid, order[..i + 1]) == c + [x];
      assert (c + [x])[..|c|] == c;
    }
  }

  /**
   * detect_sign_changes: the loop over the sorted indices, skipping invalid, non-finite
   * and zero samples, updating the baseline only when the sign changes.
   */
  method DetectSignChanges(pcLat: seq<Option<real>>, valid: seq<bool>, order: seq<nat>)
    returns (events: seq<Event>)
    requires |valid| == |pcLat|
    requires forall k | 0 <= k < |order| :: order[k] < |pcLat|
    ensures events == ScanAll(Counted(pcLat, valid, order)).events
  {
    events := [];
    var lastSign := 0;
    var lastIdx := 0;
    var i := 0;
    while i < |order|
      invariant 0 <= i <= |order|
      invariant Scan(lastSign, lastIdx, events) == ScanAll(Counted(pcLat, valid, order[..i]))
    {
      ScanOneMore(pcLat, valid, order, i);
      ghost var st := Scan(lastSign, lastIdx, events);
      var idx := order[i];
      if valid[idx] && pcLat[idx].Some? {
        var s := Sign(pcLat[idx].value);
        if s != 0 {
          if lastSign == 0 {
            lastSign, lastIdx := s, idx;
          } else if s != lastSign {
            events := events + [Event(lastIdx, idx, lastSign, s)];
            lastSign, lastIdx := s, idx;
          }
          assert Scan(lastSign, lastIdx, events) == Step(st, Sample(idx, s));
        }
      }
      i := i + 1;
    }
    assert order[..i] == order;
  }

  /**
   * The baseline stays on the first frame of a run: after -, +, + the next change is
   * recorded from the first positive frame, not the latest.
   */
  lemma RunStartIsTheBaseline()
    ensures ScanAll([Sample(0, -1), Sample(2, 1), Sample(4, 1), Sample(5, -1)]).events
            == [Event(0, 2, -1, 1), Event(2, 5, 1, -1)]
  {
    var c := [Sample(0, -1), Sample(2, 1), Sample(4, 1), Sample(5, -1)];
    assert c[..3] == [Sample(0, -1), Sample(2, 1), Sample(4, 1)];
    assert c[..3][..2] == [Sample(0, -1), Sample(2, 1)];
    assert c[..3][..2][..1] == [Sample(0, -1)];
    assert c[..3][..2][..1][..0] == [];
  }

  /** Consecutive events go in opposite directions. */
  lemma {:induction false} EventsAlternate(c: seq<Sample>, k: nat)
    requires Signed(c)
    requires k + 1 < |ScanAll(c).events|
    ensures ScanAll(c).events[k + 1].signCurr == -ScanAll(c).events[k].signCurr
  {
    var e := ScanAll(c).events;
    assert e[k + 1].signPrev == e[k].signCurr;
    assert e[k + 1].signPrev != e[k + 1].signCurr;
  }

  /** A run of one sign, however long, holds no event. */
  lemma {:induction false} SameSignNoEvent(c: seq<Sample>)
    requires Signed(c) && c != []
    requires forall k | 0 <= k < |c| :: c[k].sign == c[0].sign
    ensures ScanAll(c).events == []
    decreases |c|
  {
    if |c| > 1 {
      var p := c[..|c| - 1];
      assert forall k | 0 <= k < |p| :: p[k] == c[k];
      SameSignNoEvent(p);
    }
  }

  // ---------------------------------------------------------------------------
  // Image names from a time stamp.
  // ---------------------------------------------------------------------------

  predicate Dropped(c: char)
  {
    c == ' ' || c == '\'' || c == '"'
  }

  /** s.replace(" ", "").replace("'", "").replace('"', ""). */
  function RemoveQuotesSpaces(s: string): (r: string)
    ensures |r| <= |s|
    ensures forall k | 0 <= k < |r| :: !Dropped(r[k])
    ensures (forall k | 0 <= k < |s| :: !Dropped(s[k])) ==> r == s
    ensures forall k | 0 <= k < |s| && !Dropped(s[k]) :: s[k] in r
  {
    if s == [] then []
    else
      var p := s[..|s| - 1];
      assert forall k | 0 <= k < |p| :: p[k] == s[k];
      var init := RemoveQuotesSpaces(p);
      if Dropped(s[|s| - 1]) then init else init + [s[|s| - 1]]
  }

  function KeptChar(): char -> Option<char>
  {
    (c: char) => if Dropped(c) then None else Some(c)
  }

  lemma {:induction false} RemoveQuotesSpacesIsFiltered(s: string)
    ensures RemoveQuotesSpaces(s) == FilterMap(s, KeptChar())
  {
    if s != [] {
      RemoveQuotesSpacesIsFiltered(s[..|s| - 1]);
    }
  }

  /** The three replacements act character by character: on a concatenation they act on each part. */
  lemma RemoveQuotesSpacesByParts(a: string, b: string, c: char)
    ensures RemoveQuotesSpaces(a + b) == RemoveQuotesSpaces(a) + RemoveQuotesSpaces(b)
    ensures RemoveQuotesSpaces([c]) == if Dropped(c) then [] else [c]
  {
    RemoveQuotesSpacesIsFiltered(a + b);
    RemoveQuotesSpacesIsFiltered(a);
    RemoveQuotesSpacesIsFiltered(b);
    RemoveQuotesSpacesIsFiltered([c]);
    FilterMapConcat(a, b, KeptChar());
    FilterMapOne(c, KeptChar());
  }

  /** Removing spaces and quotes twice is removing them once. */
  lemma RemoveQuotesSpacesIdempotent(s: string)
    ensures RemoveQuotesSpaces(RemoveQuotesSpaces(s)) == RemoveQuotesSpaces(s)
  {
  }

  /**
   * _png_candidates_from_ts: the stripped text, the text without spaces and quotes, then
   * str(int(float(text))) when it is new. `parseFloat` plays float(): None when it raises
   * (as float("") does) or gives an infinity or NaN (where int() raises).
   */
  method PngCandidates(ts: Option<string>, parseFloat: string -> Option<real>) returns (out: seq<string>)
    requires parseFloat("") == None
    ensures ts.None? ==> out == []
    ensures ts.Some? && Strip(ts.value) == [] ==> out == []
    ensures ts.Some? ==>
              var s := Strip(ts.value);
              var texts := if s != [] then [s, RemoveQuotesSpaces(s)] else [];
              var f := parseFloat(s);
              out == texts + if f.Some? && IntToString(Trunc(f.value)) !in texts then [IntToString(Trunc(f.value))] else []
    ensures ts.Some? && Strip(ts.value) != [] ==>
              |out| >= 2 && out[0] == Strip(ts.value) && out[1] == RemoveQuotesSpaces(out[0])
    ensures ts.Some? && Strip(ts.value) == [] ==> |out| <= 1
    ensures ts.Some? && parseFloat(Strip(ts.value)).Some? ==>
              IntToString(Trunc(parseFloat(Strip(ts.value)).value)) in out
    ensures ts.Some? && parseFloat(Strip(ts.value)).None? ==>
              |out| == if Strip(ts.value) != [] then 2 else 0
    ensures |out| == 3 ==> out[2] != out[0] && out[2] != out[1]
  {
    out := [];
    if ts.Some? {
      var s := Strip(ts.value);
      // an empty text gives no candidate at all: float("") raises
      if s != [] {
        out := out + [s];
        out := out + [RemoveQuotesSpaces(s)];
        var f := parseFloat(s);
        if f.Some? {
          var asInt := IntToString(Trunc(f.value));
          if asInt !in out {
            out := out + [asInt];
          }
        }
        CandidatesShape(s, f, out);
      }
    }
  }

  /** What the exact candidate list implies: the two texts first, then at most one new number. */
  lemma CandidatesShape(s: string, f: Option<real>, out: seq<string>)
    requires var texts := [s, RemoveQuotesSpaces(s)];
             out == texts + if f.Some? && IntToString(Trunc(f.value)) !in texts then [IntToString(Trunc(f.value))] else []
    ensures |out| >= 2 && out[0] == s && out[1] == RemoveQuotesSpaces(out[0])
    ensures f.Some? ==> IntToString(Trunc(f.value)) in out
    ensures f.None? ==> |out| == 2
    ensures |out| == 3 ==> out[2] != out[0] && out[2] != out[1]
  {
  }
}
