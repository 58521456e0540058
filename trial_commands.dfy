// What the two trial-plan generators share: the weather table and its CARLA flags, the
// command-line words of run_trial.py, and random.shuffle with its draws made explicit.
module TrialCommands {
  import opened Common

  /** The two speed (and, in experiment 1, distance) groups. */
  const Group1: seq<nat> := [20, 40, 60]
  const Group2: seq<nat> := [30, 50, 70]

  /** The weather dictionary's keys, in its order. */
  const Weathers: seq<string> := ["clear", "night", "rain"]

  /** The rain, cloud and light flags of a weather. */
  datatype Flags = Flags(rain: bool, cloud: bool, light: bool)

  /** The weather table: clear sets nothing, night the light, rain both rain and cloud. */
  function WeatherFlags(w: nat): (f: Flags)
    requires w < 3
    ensures Weathers[w] == "clear" ==> f == Flags(false, false, false)
    ensures Weathers[w] == "night" ==> f == Flags(false, false, true)
    ensures Weathers[w] == "rain" ==> f == Flags(true, true, false)
  {
    [Flags(false, false, false), Flags(false, false, true), Flags(true, true, false)][w]
  }

  /** The two words a set flag adds to the command line, or none. */
  function FlagPair(on: bool, name: string): seq<string>
  {
    if on then [name, "True"] else []
  }

  /** The flag words appended to a command, in the order -r, -c, -l. */
  function FlagWords(f: Flags): seq<string>
  {
    FlagPair(f.rain, "-r") + FlagPair(f.cloud, "-c") + FlagPair(f.light, "-l")
  }

  /** The three weathers have distinct flag words. */
  lemma FlagWordsNameTheWeather(w1: nat, w2: nat)
    requires w1 < 3 && w2 < 3 && FlagWords(WeatherFlags(w1)) == FlagWords(WeatherFlags(w2))
    ensures w1 == w2
  {
    assert FlagWords(WeatherFlags(0)) == [];
    assert FlagWords(WeatherFlags(1)) == ["-l", "True"];
    assert FlagWords(WeatherFlags(2)) == ["-r", "True", "-c", "True"];
  }

  /** The weathers are named distinctly. */
  lemma WeathersDistinct(w1: nat, w2: nat)
    requires w1 < 3 && w2 < 3 && Weathers[w1] == Weathers[w2]
    ensures w1 == w2
  {
  }

  /** In a list without repetitions, equal entries sit at the same position. */
  lemma NoDupIndex<T>(s: seq<T>, i: nat, j: nat)
    requires NoDup(s) && i < |s| && j < |s| && s[i] == s[j]
    ensures i == j
  {
  }

  /** A trial index below 27 is determined by its three loop indices. */
  lemma IndexFromParts(k1: nat, k2: nat)
    requires k1 < 27 && k2 < 27
    requires k1 / 9 == k2 / 9 && (k1 / 3) % 3 == (k2 / 3) % 3 && k1 % 3 == k2 % 3
    ensures k1 == k2
  {
    assert k1 == 9 * (k1 / 9) + 3 * ((k1 / 3) % 3) + k1 % 3;
    assert k2 == 9 * (k2 / 9) + 3 * ((k2 / 3) % 3) + k2 % 3;
  }

  /** "VRAI" if the flag is set, else "FAUX". */
  function YesNo(b: bool): (r: string)
    ensures r == "VRAI" <==> b
    ensures r == "FAUX" <==> !b
  {
    if b then "VRAI" else "FAUX"
  }

  // ---------------------------------------------------------------------------
  // Command-line words.
  // ---------------------------------------------------------------------------

  predicate NoSpace(s: string)
  {
    forall k | 0 <= k < |s| :: s[k] != ' '
  }

  /** str.split(" "): the pieces between single spaces. */
  function Words(s: string): (r: seq<string>)
    ensures |r| >= 1
  {
    if s == [] then [[]]
    else if s[0] == ' ' then [[]] + Words(s[1..])
    else
      var w := Words(s[1..]);
      [[s[0]] + w[0]] + w[1..]
  }

  /** " ".join(words). */
  function JoinWords(ws: seq<string>): string
  {
    if ws == [] then []
    else if |ws| == 1 then ws[0]
    else JoinWords(ws[..|ws| - 1]) + " " + ws[|ws| - 1]
  }

  /** Appending `" " + w` to a joined command line appends the word `w`. */
  lemma JoinSnoc(ws: seq<string>, w: string)
    requires ws != []
    ensures JoinWords(ws + [w]) == JoinWords(ws) + " " + w
  {
    assert (ws + [w])[..|ws|] == ws;
  }

  /** " ".join of six words. */
  lemma JoinSix(a: string, b: string, c: string, d: string, e: string, f: string)
    ensures JoinWords([a, b, c, d, e, f]) == a + " " + b + " " + c + " " + d + " " + e + " " + f
  {
    JoinSnoc([a], b);
    assert [a] + [b] == [a, b];
    JoinSnoc([a, b], c);
    assert [a, b] + [c] == [a, b, c];
    JoinSnoc([a, b, c], d);
    assert [a, b, c] + [d] == [a, b, c, d];
    JoinSnoc([a, b, c, d], e);
    assert [a, b, c, d] + [e] == [a, b, c, d, e];
    JoinSnoc([a, b, c, d, e], f);
    assert [a, b, c, d, e] + [f] == [a, b, c, d, e, f];
  }

  /** " ".join of eight words. */
  lemma JoinEight(a: string, b: string, c: string, d: string, e: string, f: string, g: string, h: string)
    ensures JoinWords([a, b, c, d, e, f, g, h]) == a + " " + b + " " + c + " " + d + " " + e + " " + f + " " + g + " " + h
  {
    JoinSix(a, b, c, d, e, f);
    JoinSnoc([a, b, c, d, e, f], g);
    assert [a, b, c, d, e, f] + [g] == [a, b, c, d, e, f, g];
    JoinSnoc([a, b, c, d, e, f, g], h);
    assert [a, b, c, d, e, f, g] + [h] == [a, b, c, d, e, f, g, h];
  }

  /** Splitting at a space splits the two sides independently. */
  lemma {:induction false} WordsOfJoin(a: string, b: string)
    ensures Words(a + " " + b) == Words(a) + Words(b)
  {
    if a == [] {
      assert a + " " + b == [' '] + b;
      assert (a + " " + b)[1..] == b;
    } else {
      assert (a + " " + b)[1..] == a[1..] + " " + b;
      WordsOfJoin(a[1..], b);
    }
  }

  lemma {:induction false} WordsOfWord(a: string)
    requires NoSpace(a)
    ensures Words(a) == [a]
  {
    if a != [] {
      WordsOfWord(a[1..]);
      assert [a[0]] + a[1..] == a;
    }
  }

  /** Splitting joined words gives them back, when no word holds a space. */
  lemma {:induction false} SplitJoinRoundTrip(ws: seq<string>)
    requires |ws| > 0
    requires forall k | 0 <= k < |ws| :: NoSpace(ws[k])
    ensures Words(JoinWords(ws)) == ws
  {
    var last := ws[|ws| - 1];
    WordsOfWord(last);
    if |ws| > 1 {
      var init := ws[..|ws| - 1];
      SplitJoinRoundTrip(init);
      WordsOfJoin(JoinWords(init), last);
      assert init + [last] == ws;
    }
  }

  /** One flag's `+=` step appends its two words when the flag is set. */
  lemma AppendFlagPair(ws: seq<string>, on: bool, name: string, text: string)
    requires ws != [] && text == " " + name + " True"
    ensures JoinWords(ws + FlagPair(on, name)) == JoinWords(ws) + (if on then text else "")
  {
    if on {
      JoinSnoc(ws, name);
      JoinSnoc(ws + [name], "True");
      assert ws + [name] + ["True"] == ws + FlagPair(on, name);
    } else {
      assert ws + FlagPair(on, name) == ws;
    }
  }

  /** The three `+=` steps append exactly the flag words. */
  lemma AppendFlags(ws: seq<string>, f: Flags)
    requires ws != []
    ensures JoinWords(ws + FlagWords(f))
            == JoinWords(ws) + (if f.rain then " -r True" else "") + (if f.cloud then " -c True" else "")
               + (if f.light then " -l True" else "")
  {
    var r, c, l := FlagPair(f.rain, "-r"), FlagPair(f.cloud, "-c"), FlagPair(f.light, "-l");
    AppendFlagPair(ws, f.rain, "-r", " -r True");
    AppendFlagPair(ws + r, f.cloud, "-c", " -c True");
    AppendFlagPair(ws + r + c, f.light, "-l", " -l True");
    AppendThree(ws, r, c, l, if f.rain then " -r True" else "", if f.cloud then " -c True" else "",
                if f.light then " -l True" else "");
  }

  /** Three appending steps, each adding its text to the joined line, add the three texts in order. */
  lemma AppendThree(ws: seq<string>, r: seq<string>, c: seq<string>, l: seq<string>, tr: string, tc: string, tl: string)
    requires JoinWords(ws + r) == JoinWords(ws) + tr
    requires JoinWords(ws + r + c) == JoinWords(ws + r) + tc
    requires JoinWords(ws + r + c + l) == JoinWords(ws + r + c) + tl
    ensures JoinWords(ws + (r + c + l)) == JoinWords(ws) + tr + tc + tl
  {
    var left, right := ws + r + c + l, ws + (r + c + l);
    forall i | 0 <= i < |left|
      ensures left[i] == right[i]
    {
      if i < |ws| {
      } else if i < |ws| + |r| {
        assert left[i] == r[i - |ws|] == right[i];
      } else if i < |ws| + |r| + |c| {
        assert left[i] == c[i - |ws| - |r|] == right[i];
      } else {
        assert left[i] == l[i - |ws| - |r| - |c|] == right[i];
      }
    }
    assert left == right;
  }

  /** No command-line word holds a space. */
  lemma FlagWordsHaveNoSpace(f: Flags)
    ensures forall k | 0 <= k < |FlagWords(f)| :: NoSpace(FlagWords(f)[k])
  {
    var all := FlagWords(f);
    forall k | 0 <= k < |all|
      ensures NoSpace(all[k])
    {
      var r, c, l := FlagPair(f.rain, "-r"), FlagPair(f.cloud, "-c"), FlagPair(f.light, "-l");
      assert all == r + c + l;
      assert all[k] in ["-r", "-c", "-l", "True"];
    }
  }

  lemma NumberHasNoSpace(n: nat)
    ensures NoSpace(NatToString(n)) && NatToString(n) != []
  {
  }

  // ---------------------------------------------------------------------------
  // random.shuffle.
  // ---------------------------------------------------------------------------

  /** Fisher-Yates draws: for each index i, the index j <= i it is swapped with. */
  predicate ValidDraws(draws: seq<nat>, n: nat)
  {
    |draws| == n && forall i | 0 <= i < n :: draws[i] <= i
  }

  function Swap<T>(s: seq<T>, i: nat, j: nat): (r: seq<T>)
    requires i < |s| && j < |s|
    ensures |r| == |s|
  {
    s[i := s[j]][j := s[i]]
  }

  /** Exchanging two entries keeps the multiset of entries. */
  lemma SwapPermutes<T>(s: seq<T>, i: nat, j: nat)
    requires i < |s| && j < |s|
    ensures multiset(Swap(s, i, j)) == multiset(s)
  {
  }

  /** The swaps random.shuffle makes for the indices i-1 down to 1. */
  function ShuffleDown<T>(s: seq<T>, draws: seq<nat>, i: nat): (r: seq<T>)
    requires i <= |s| && ValidDraws(draws, |s|)
    ensures |r| == |s|
    decreases i
  {
    if i <= 1 then s else ShuffleDown(Swap(s, i - 1, draws[i - 1]), draws, i - 1)
  }

  /** A shuffle is a permutation of its input. */
  lemma {:induction false} ShufflePermutes<T>(s: seq<T>, draws: seq<nat>, i: nat)
    requires i <= |s| && ValidDraws(draws, |s|)
    ensures multiset(ShuffleDown(s, draws, i)) == multiset(s)
    decreases i
  {
    if i > 1 {
      ShufflePermutes(Swap(s, i - 1, draws[i - 1]), draws, i - 1);
      SwapPermutes(s, i - 1, draws[i - 1]);
    }
  }

  /** random.shuffle(x), in place. */
  method Shuffle<T>(a: array<T>, draws: seq<nat>)
    requires ValidDraws(draws, a.Length)
    modifies a
    ensures a[..] == ShuffleDown(old(a[..]), draws, a.Length)
  {
    var i := a.Length;
    while i > 1
      invariant 0 <= i <= a.Length
      invariant ShuffleDown(a[..], draws, i) == ShuffleDown(old(a[..]), draws, a.Length)
    {
      var j := draws[i - 1];
      ghost var before := a[..];
      a[i - 1], a[j] := a[j], a[i - 1];
      assert a[..] == Swap(before, i - 1, j);
      i := i - 1;
    }
  }
}
