// The experiment 1 plan generator: the four (speed group, distance group) combinations,
// the 27 trials of one participant with their run_trial.py command lines, and the
// balanced allocation of combinations to participants.
module PlanExp1 {
  import opened Common
  import opened TrialCommands

  /** A participant's speed group and distance group. */
  datatype Combination = Combination(velocities: seq<nat>, distances: seq<nat>)

  /** Every ordered pair of the two groups, speed group first, in loop order. */
  function Combinations(): seq<Combination>
  {
    [Combination(Group1, Group1), Combination(Group1, Group2), Combination(Group2, Group1), Combination(Group2, Group2)]
  }

  /** The combinations are the four distinct pairs over {group1, group2}. */
  lemma CombinationsAreTheOrderedPairs(c: Combination)
    ensures |Combinations()| == 4 && NoDup(Combinations())
    ensures c in Combinations() <==> (c.velocities == Group1 || c.velocities == Group2)
                                     && (c.distances == Group1 || c.distances == Group2)
  {
    assert Group1 != Group2 by {
      assert Group1[0] != Group2[0];
    }
  }

  /** generate_all_combinations: the two nested loops over [group1, group2]. */
  method AllCombinations() returns (combos: seq<Combination>)
    ensures combos == Combinations()
  {
    var groups := [Group1, Group2];
    combos := [];
    var i := 0;
    while i < 2
      invariant 0 <= i <= 2
      invariant combos == Combinations()[..2 * i]
    {
      var j := 0;
      while j < 2
        invariant 0 <= j <= 2
        invariant combos == Combinations()[..2 * i + j]
      {
        assert Combinations()[2 * i + j] == Combination(groups[i], groups[j]);
        combos := combos + [Combination(groups[i], groups[j])];
        assert Combinations()[..2 * i + j + 1] == Combinations()[..2 * i + j] + [Combinations()[2 * i + j]];
        j := j + 1;
      }
      i := i + 1;
    }
  }

  // ---------------------------------------------------------------------------
  // One participant's trials.
  // ---------------------------------------------------------------------------

  /** One row of a participant's sheet. */
  datatype Trial = Trial(participant: nat, position: nat, velocity: nat, distance: nat,
                         weather: string, flags: Flags, command: string)

  /** The words of `py .\run_trial.py -v V -d D -pos P` and its weather flags. */
  function CommandWords(v: nat, d: nat, p: nat, f: Flags): seq<string>
  {
    ["py", ".\\run_trial.py", "-v", NatToString(v), "-d", NatToString(d), "-pos", NatToString(p)] + FlagWords(f)
  }

  function TrialOf(pid: nat, position: nat, v: nat, d: nat, w: nat): Trial
    requires w < 3
  {
    Trial(pid, position, v, d, Weathers[w], WeatherFlags(w), JoinWords(CommandWords(v, d, position, WeatherFlags(w))))
  }

  predicate Shaped(c: Combination)
  {
    |c.velocities| == 3 && |c.distances| == 3
  }

  /** The 27 trials in loop order: speed, then distance, then weather. */
  function Trials(pid: nat, c: Combination, position: nat): (r: seq<Trial>)
    requires Shaped(c)
    ensures |r| == 27
  {
    seq(27, k requires 0 <= k < 27 => TrialOf(pid, position, c.velocities[k / 9], c.distances[(k / 3) % 3], k % 3))
  }

  lemma IndexParts(i: nat, j: nat, w: nat)
    requires i < 3 && j < 3 && w < 3
    ensures (9 * i + 3 * j + w) / 9 == i && ((9 * i + 3 * j + w) / 3) % 3 == j && (9 * i + 3 * j + w) % 3 == w
  {
  }

  lemma HeadText(v: string, d: string, p: string)
    ensures "py" + " " + ".\\run_trial.py" + " " + "-v" + " " + v + " " + "-d" + " " + d + " " + "-pos" + " " + p
            == "py .\\run_trial.py -v " + v + " -d " + d + " -pos " + p
  {
    assert "py" + " " + ".\\run_trial.py" + " " + "-v" + " " == "py .\\run_trial.py -v ";
    assert " " + "-d" + " " == " -d ";
    assert " " + "-pos" + " " == " -pos ";
  }

  /** The f-string head of a command line is " ".join of its first eight words. */
  lemma CommandHead(v: nat, d: nat, p: nat)
    ensures JoinWords(["py", ".\\run_trial.py", "-v", NatToString(v), "-d", NatToString(d), "-pos", NatToString(p)])
            == "py .\\run_trial.py -v " + NatToString(v) + " -d " + NatToString(d) + " -pos " + NatToString(p)
  {
    var vs, ds, ps := NatToString(v), NatToString(d), NatToString(p);
    JoinEight("py", ".\\run_trial.py", "-v", vs, "-d", ds, "-pos", ps);
    HeadText(vs, ds, ps);
  }

  /** The body of the innermost loop: one trial's command line and row. */
  method BuildTrial(pid: nat, position: nat, velocity: nat, distance: nat, w: nat) returns (t: Trial)
    requires w < 3
    ensures t == TrialOf(pid, position, velocity, distance, w)
  {
    var f := WeatherFlags(w);
    var command := "py .\\run_trial.py -v " + NatToString(velocity) + " -d " + NatToString(distance)
                   + " -pos " + NatToString(position);
    if f.rain {
      command := command + " -r True";
    }
    if f.cloud {
      command := command + " -c True";
    }
    if f.light {
      command := command + " -l True";
    }
    CommandHead(velocity, distance, position);
    AppendFlags(["py", ".\\run_trial.py", "-v", NatToString(velocity), "-d", NatToString(distance), "-pos", NatToString(position)], f);
    t := Trial(pid, position, velocity, distance, Weathers[w], f, command);
  }

  /** Appending trial (i, j, w) to the first 9i + 3j + w trials gives the next prefix. */
  lemma TrialStep(pid: nat, c: Combination, position: nat, i: nat, j: nat, w: nat, done: seq<Trial>)
    requires Shaped(c) && i < 3 && j < 3 && w < 3
    requires done == Trials(pid, c, position)[..9 * i + 3 * j + w]
    ensures done + [TrialOf(pid, position, c.velocities[i], c.distances[j], w)]
            == Trials(pid, c, position)[..9 * i + 3 * j + w + 1]
  {
    var all := Trials(pid, c, position);
    var k := 9 * i + 3 * j + w;
    IndexParts(i, j, w);
    assert k / 9 == i && (k / 3) % 3 == j && k % 3 == w;
    assert all[k] == TrialOf(pid, position, c.velocities[k / 9], c.distances[(k / 3) % 3], k % 3);
    PrefixStep(all, k);
  }

  /**
   * generate_commands_for_participant: the three nested loops over speeds, distances
   * and weathers. The random position is the parameter `position`.
   */
  method CommandsForParticipant(pid: nat, c: Combination, position: nat) returns (commands: seq<Trial>)
    requires Shaped(c)
    ensures commands == Trials(pid, c, position)
  {
    commands := [];
    var i := 0;
    while i < 3
      invariant 0 <= i <= 3
      invariant commands == Trials(pid, c, position)[..9 * i]
    {
      var velocity := c.velocities[i];
      var j := 0;
      while j < 3
        invariant 0 <= j <= 3
        invariant commands == Trials(pid, c, position)[..9 * i + 3 * j]
      {
        var distance := c.distances[j];
        var w := 0;
        while w < 3
          invariant 0 <= w <= 3
          invariant commands == Trials(pid, c, position)[..9 * i + 3 * j + w]
        {
          var t := BuildTrial(pid, position, velocity, distance, w);
          TrialStep(pid, c, position, i, j, w, commands);
          commands := commands + [t];
          w := w + 1;
        }
        j := j + 1;
      }
      i := i + 1;
    }
  }

  /** Every trial of a participant shares the participant's position. */
  lemma TrialsShareOnePosition(pid: nat, c: Combination, position: nat)
    requires Shaped(c)
    ensures forall k | 0 <= k < 27 :: Trials(pid, c, position)[k].position == position
                                     && Trials(pid, c, position)[k].participant == pid
  {
  }

  /** Trial 9a + 3b + w is speed a, distance b, weather w: every triple has its row. */
  lemma EveryTripleHasItsRow(pid: nat, c: Combination, position: nat, a: nat, b: nat, w: nat)
    requires Shaped(c) && a < 3 && b < 3 && w < 3
    ensures var t := Trials(pid, c, position)[9 * a + 3 * b + w];
            t.velocity == c.velocities[a] && t.distance == c.distances[b] && t.weather == Weathers[w]
            && t.flags == WeatherFlags(w)
  {
    IndexParts(a, b, w);
  }

  /** With distinct speeds and distances, no (speed, distance, weather) triple occurs twice. */
  lemma NoTripleTwice(pid: nat, c: Combination, position: nat, k1: nat, k2: nat)
    requires Shaped(c) && NoDup(c.velocities) && NoDup(c.distances)
    requires k1 < 27 && k2 < 27
    requires Trials(pid, c, position)[k1].velocity == Trials(pid, c, position)[k2].velocity
    requires Trials(pid, c, position)[k1].distance == Trials(pid, c, position)[k2].distance
    requires Trials(pid, c, position)[k1].weather == Trials(pid, c, position)[k2].weather
    ensures k1 == k2
  {
    var all := Trials(pid, c, position);
    assert all[k1].velocity == c.velocities[k1 / 9] && all[k2].velocity == c.velocities[k2 / 9];
    assert all[k1].distance == c.distances[(k1 / 3) % 3] && all[k2].distance == c.distances[(k2 / 3) % 3];
    assert all[k1].weather == Weathers[k1 % 3] && all[k2].weather == Weathers[k2 % 3];
    NoDupIndex(c.velocities, k1 / 9, k2 / 9);
    NoDupIndex(c.distances, (k1 / 3) % 3, (k2 / 3) % 3);
    WeathersDistinct(k1 % 3, k2 % 3);
    IndexFromParts(k1, k2);
  }

  /** The command line run_trial.py receives splits back into the trial's parameters. */
  lemma CommandReadsBack(pid: nat, c: Combination, position: nat, k: nat)
    requires Shaped(c) && k < 27
    ensures var t := Trials(pid, c, position)[k];
            Words(t.command) == CommandWords(t.velocity, t.distance, position, t.flags)
  {
    var t := Trials(pid, c, position)[k];
    var ws := CommandWords(t.velocity, t.distance, position, t.flags);
    FlagWordsHaveNoSpace(t.flags);
    forall i | 0 <= i < |ws|
      ensures NoSpace(ws[i])
    {
      if i >= 8 {
        assert ws[i] == FlagWords(t.flags)[i - 8];
      }
    }
    SplitJoinRoundTrip(ws);
  }

  // ---------------------------------------------------------------------------
  // Allocation across participants.
  // ---------------------------------------------------------------------------

  /** all_combinations * q. */
  function Repeat(cs: seq<Combination>, q: nat): (r: seq<Combination>)
    ensures |r| == q * |cs|
  {
    if q == 0 then [] else Repeat(cs, q - 1) + cs
  }

  /** The combinations random.sample picked, by index. */
  function Pick(cs: seq<Combination>, idx: seq<nat>): (r: seq<Combination>)
    requires forall i | 0 <= i < |idx| :: idx[i] < |cs|
    ensures |r| == |idx| && forall i | 0 <= i < |idx| :: r[i] == cs[idx[i]]
  {
    seq(|idx|, i requires 0 <= i < |idx| => cs[idx[i]])
  }

  /** random.sample(all_combinations, r): r distinct indices. */
  predicate ValidSample(sample: seq<nat>, r: nat)
  {
    |sample| == r && NoDup(sample) && forall i | 0 <= i < |sample| :: sample[i] < 4
  }

  /** The combinations in the order before the shuffle. */
  function Selected(n: nat, sample: seq<nat>): seq<Combination>
    requires ValidSample(sample, n % 4)
  {
    Repeat(Combinations(), n / 4) + Pick(Combinations(), sample)
  }

  /**
   * The allocation in generate_files_for_participants: each combination num // 4 times,
   * the remaining num % 4 drawn without repetition, then shuffled in place.
   */
  method Allocate(n: nat, sample: seq<nat>, draws: seq<nat>) returns (selected: seq<Combination>)
    requires ValidSample(sample, n % 4) && ValidDraws(draws, n)
    ensures selected == ShuffleDown(Selected(n, sample), draws, n)
  {
    var all := AllCombinations();
    var per := n / |all|;
    var sel := Repeat(all, per);
    var remaining := n - |sel|;
    if remaining > 0 {
      sel := sel + Pick(all, sample);
    } else {
      assert sample == [];
      assert sel + Pick(all, sample) == sel;
    }
    var a := new Combination[|sel|](i requires 0 <= i < |sel| => sel[i]);
    assert a[..] == sel;
    Shuffle(a, draws);
    selected := a[..];
  }

  lemma {:induction false} NoDupCountsOnce(cs: seq<Combination>, x: nat)
    requires NoDup(cs) && x < |cs|
    ensures multiset(cs)[cs[x]] == 1
  {
    var init := cs[..|cs| - 1];
    assert cs == init + [cs[|cs| - 1]];
    if x < |cs| - 1 {
      NoDupCountsOnce(init, x);
      assert cs[x] != cs[|cs| - 1];
    } else {
      assert cs[x] !in init;
      assert multiset(init)[cs[x]] == 0;
    }
  }

  lemma {:induction false} RepeatCount(cs: seq<Combination>, q: nat, x: nat)
    requires NoDup(cs) && x < |cs|
    ensures multiset(Repeat(cs, q))[cs[x]] == q
  {
    if q > 0 {
      RepeatCount(cs, q - 1, x);
      NoDupCountsOnce(cs, x);
    }
  }

  lemma {:induction false} PickCount(cs: seq<Combination>, idx: seq<nat>, x: nat)
    requires NoDup(cs) && x < |cs| && NoDup(idx)
    requires forall i | 0 <= i < |idx| :: idx[i] < |cs|
    ensures multiset(Pick(cs, idx))[cs[x]] == if x in idx then 1 else 0
  {
    if idx != [] {
      var init := idx[..|idx| - 1];
      PickCount(cs, init, x);
      assert Pick(cs, idx) == Pick(cs, init) + [cs[idx[|idx| - 1]]];
      assert x in idx <==> x in init || x == idx[|idx| - 1];
      if x == idx[|idx| - 1] {
        assert x !in init;
      } else {
        assert cs[idx[|idx| - 1]] != cs[x];
      }
    }
  }

  /** Each combination goes to num // 4 or num // 4 + 1 participants, whatever the draws. */
  lemma AllocationIsBalanced(n: nat, sample: seq<nat>, draws: seq<nat>, x: nat)
    requires ValidSample(sample, n % 4) && ValidDraws(draws, n) && x < 4
    ensures var selected := ShuffleDown(Selected(n, sample), draws, n);
            |selected| == n
            && multiset(selected)[Combinations()[x]] == n / 4 + (if x in sample then 1 else 0)
  {
    var cs := Combinations();
    CombinationsAreTheOrderedPairs(cs[0]);
    ShufflePermutes(Selected(n, sample), draws, n);
    RepeatCount(cs, n / 4, x);
    PickCount(cs, sample, x);
  }

  /** Every trial of the list belongs to participant pid and is run at one position. */
  predicate AtPosition(ts: seq<Trial>, pid: nat, position: nat)
  {
    forall j | 0 <= j < |ts| :: ts[j].position == position && ts[j].participant == pid
  }

  /** Reordering a list of trials keeps them at one position. */
  lemma ReorderedAtPosition(a: seq<Trial>, b: seq<Trial>, pid: nat, position: nat)
    requires multiset(a) == multiset(b) && AtPosition(a, pid, position)
    ensures AtPosition(b, pid, position)
  {
    forall j | 0 <= j < |b|
      ensures b[j].position == position && b[j].participant == pid
    {
      assert b[j] in multiset(a);
    }
  }

  /** The trials a participant's sheet lists: df.sample(frac=1) reorders them by `order`. */
  function Sheet(pid: nat, c: Combination, position: nat, order: seq<nat>): (r: seq<Trial>)
    requires Shaped(c) && ValidDraws(order, 27)
    ensures |r| == 27 && multiset(r) == multiset(Trials(pid, c, position))
    ensures AtPosition(r, pid, position)
  {
    var rows := Trials(pid, c, position);
    ShufflePermutes(rows, order, |rows|);
    TrialsShareOnePosition(pid, c, position);
    ReorderedAtPosition(rows, ShuffleDown(rows, order, |rows|), pid, position);
    ShuffleDown(rows, order, |rows|)
  }

  /**
   * The per-participant loop: participant k + 1 gets combination k of the shuffled list,
   * the trials of that combination at their random position, reordered at random. The
   * positions are the draws of random.randint(0, 2).
   */
  method PlansForParticipants(selected: seq<Combination>, positions: seq<nat>, orders: seq<seq<nat>>)
    returns (plans: seq<seq<Trial>>)
    requires |positions| == |selected| && |orders| == |selected|
    requires forall k | 0 <= k < |positions| :: positions[k] <= 2
    requires forall k | 0 <= k < |selected| :: Shaped(selected[k]) && ValidDraws(orders[k], 27)
    ensures |plans| == |selected|
    ensures forall k | 0 <= k < |selected| :: plans[k] == Sheet(k + 1, selected[k], positions[k], orders[k])
    ensures forall k | 0 <= k < |plans| :: AtPosition(plans[k], k + 1, positions[k])
  {
    plans := [];
    var pid := 1;
    while pid <= |selected|
      invariant 1 <= pid <= |selected| + 1
      invariant |plans| == pid - 1
      invariant forall k | 0 <= k < pid - 1 :: plans[k] == Sheet(k + 1, selected[k], positions[k], orders[k])
    {
      var commands := CommandsForParticipant(pid, selected[pid - 1], positions[pid - 1]);
      var sheet := SampleRows(commands, orders[pid - 1]);
      ghost var before := plans;
      plans := plans + [sheet];
      forall k | 0 <= k < pid
        ensures plans[k] == Sheet(k + 1, selected[k], positions[k], orders[k])
      {
        if k < pid - 1 {
          assert plans[k] == before[k];
        }
      }
      pid := pid + 1;
    }
  }

  /** df.sample(frac=1): the rows in the order the draws give. */
  method SampleRows(rows: seq<Trial>, order: seq<nat>) returns (r: seq<Trial>)
    requires ValidDraws(order, |rows|)
    ensures r == ShuffleDown(rows, order, |rows|)
  {
    var a := new Trial[|rows|](i requires 0 <= i < |rows| => rows[i]);
    assert a[..] == rows;
    Shuffle(a, order);
    r := a[..];
  }

  lemma {:induction false} RepeatMembers(cs: seq<Combination>, q: nat, x: Combination)
    requires x in Repeat(cs, q)
    ensures x in cs
  {
    if q > 0 {
      assert Repeat(cs, q) == Repeat(cs, q - 1) + cs;
      if x !in cs {
        RepeatMembers(cs, q - 1, x);
      }
    }
  }

  /** Before the shuffle, only the four combinations are selected. */
  lemma SelectedAreCombinations(n: nat, sample: seq<nat>, x: Combination)
    requires ValidSample(sample, n % 4) && x in Selected(n, sample)
    ensures x in Combinations()
  {
    if x in Repeat(Combinations(), n / 4) {
      RepeatMembers(Combinations(), n / 4, x);
    } else {
      var pk := Pick(Combinations(), sample);
      assert x in pk;
      var i :| 0 <= i < |pk| && pk[i] == x;
    }
  }

  /** Each combination has three speeds and three distances. */
  lemma CombinationsAreShaped(c: Combination)
    requires c in Combinations()
    ensures Shaped(c)
  {
  }

  /** Only the four combinations are ever allocated, so each has three speeds and distances. */
  lemma AllocatedAreCombinations(n: nat, sample: seq<nat>, draws: seq<nat>, k: nat)
    requires ValidSample(sample, n % 4) && ValidDraws(draws, n) && k < n
    ensures ShuffleDown(Selected(n, sample), draws, n)[k] in Combinations()
    ensures Shaped(ShuffleDown(Selected(n, sample), draws, n)[k])
  {
    var sel := Selected(n, sample);
    var x := ShuffleDown(sel, draws, n)[k];
    ShufflePermutes(sel, draws, n);
    assert x in multiset(ShuffleDown(sel, draws, n));
    assert x in sel;
    SelectedAreCombinations(n, sample, x);
    CombinationsAreShaped(x);
  }
}
