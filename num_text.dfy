// Reading a number out of free text, as both experiment analyses do for their
// Excel cells: the first match of an optional sign, digits, an optional decimal
// point or comma and more digits, with the comma read as a decimal point.
module NumText {
  import opened Common

  predicate IsSign(c: char)
  {
    c == '-' || c == '+'
  }

  predicate IsDecimalMark(c: char)
  {
    c == '.' || c == ','
  }

  /** A match of the number pattern can begin at `i`. */
  predicate MatchStartsAt(s: string, i: nat)
  {
    i < |s| && (IsDigit(s[i]) || (IsSign(s[i]) && i + 1 < |s| && IsDigit(s[i + 1])))
  }

  /** The end of the maximal run of digits starting at `i`. */
  function RunEnd(s: string, i: nat): (r: nat)
    requires i <= |s|
    ensures i <= r <= |s|
    ensures forall k | i <= k < r :: IsDigit(s[k])
    ensures r == |s| || !IsDigit(s[r])
    decreases |s| - i
  {
    if i < |s| && IsDigit(s[i]) then RunEnd(s, i + 1) else i
  }

  /** The leftmost position from `i` on where a match begins. */
  function FirstMatch(s: string, i: nat): (r: Option<nat>)
    requires i <= |s|
    ensures r.Some? ==> i <= r.value < |s| && MatchStartsAt(s, r.value)
                        && forall k | i <= k < r.value :: !MatchStartsAt(s, k)
    ensures r.None? ==> forall k | i <= k < |s| :: !MatchStartsAt(s, k)
    decreases |s| - i
  {
    if i == |s| then None
    else if MatchStartsAt(s, i) then Some(i)
    else FirstMatch(s, i + 1)
  }

  function Pow10(n: nat): (r: nat)
    ensures r > 0
  {
    if n == 0 then 1 else 10 * Pow10(n - 1)
  }

  /** The numeric value of the match that begins at `i`. */
  function MatchValue(s: string, i: nat): real
    requires MatchStartsAt(s, i)
  {
    var j := if IsSign(s[i]) then i + 1 else i;
    var e1 := RunEnd(s, j);
    var whole := DigitsValue(s[j..e1]) as real;
    var frac :=
      if e1 < |s| && IsDecimalMark(s[e1]) then
        var e2 := RunEnd(s, e1 + 1);
        DigitsValue(s[e1 + 1..e2]) as real / Pow10(e2 - e1 - 1) as real
      else 0.0;
    if s[i] == '-' then -(whole + frac) else whole + frac
  }

  /** The number in a cell's text, or None (NaN) when the text holds no digit. */
  function NumFromAny(s: string): (r: Option<real>)
    ensures r.None? <==> forall k | 0 <= k < |s| :: !IsDigit(s[k])
  {
    match FirstMatch(s, 0)
    case None =>
      assert forall k | 0 <= k < |s| :: !IsDigit(s[k]) by {
        forall k | 0 <= k < |s| ensures !IsDigit(s[k]) {
          assert !MatchStartsAt(s, k);
        }
      }
      None
    case Some(i) => Some(MatchValue(s, i))
  }

  lemma {:induction false} RunEndOverDigits(s: string, i: nat, n: nat)
    requires i <= n <= |s|
    requires forall k | i <= k < n :: IsDigit(s[k])
    requires n == |s| || !IsDigit(s[n])
    ensures RunEnd(s, i) == n
    decreases n - i
  {
    if i < n {
      RunEndOverDigits(s, i + 1, n);
    }
  }

  /** A number at the start of the text, followed by a unit or nothing, is read back exactly. */
  lemma NumFromAnyReadsLeadingNumber(n: nat, rest: string)
    requires rest == [] || (!IsDigit(rest[0]) && !IsDecimalMark(rest[0]))
    ensures NumFromAny(NatToString(n) + rest) == Some(n as real)
  {
    var d := NatToString(n);
    var s := d + rest;
    assert MatchStartsAt(s, 0);
    assert FirstMatch(s, 0) == Some(0);
    RunEndOverDigits(s, 0, |d|);
    assert s[0..|d|] == d;
    NatToStringRoundTrip(n);
  }

  /** A negative number written with its minus sign is read back with its sign. */
  lemma NumFromAnyReadsNegative(n: nat)
    ensures NumFromAny("-" + NatToString(n)) == Some(-(n as real))
  {
    var d := NatToString(n);
    var s := "-" + d;
    assert MatchStartsAt(s, 0);
    assert FirstMatch(s, 0) == Some(0);
    RunEndOverDigits(s, 1, |s|);
    assert s[1..|s|] == d;
    NatToStringRoundTrip(n);
  }

  /** The decimal comma example: "60,5" reads as 60.5. */
  lemma NumFromAnyDecimalComma()
    ensures NumFromAny("60,5") == Some(60.5)
  {
    var s := "60,5";
    assert FirstMatch(s, 0) == Some(0);
    RunEndOverDigits(s, 0, 2);
    RunEndOverDigits(s, 3, 4);
    assert s[0..2] == "60" && s[3..4] == "5";
    assert DigitsValue("60") == 60;
    assert DigitsValue("5") == 5;
  }
}
