// The experiment 2 plan generator: one randomly chosen speed group per participant,
// tallied in a counter, and the participant's 27 trials (speed x weather x position)
// with their run_trial.py command lines, shuffled in place.
module PlanExp2 {
  import opened Common
  import opened TrialCommands

  /** The two speed groups, in the order random.choice draws from. */
  const Groups: seq<seq<nat>> := [Group1, Group2]

  /** The scene positions of the player. */
  const Positions: seq<nat> := [0, 1, 2]

  /** Participants 1 to 10. */
  const ParticipantCount: nat := 10

  /** One row of a participant's sheet; the flag columns hold "VRAI" or "FAUX". */
  datatype Row = Row(participant: nat, position: nat, velocity: nat, weather: string,
                     rain: string, cloud: string, light: string, command: string)

  /** The words of `py .\run_trial.py -v V -pos P` and its weather flags. */
  function CommandWords(v: nat, p: nat, f: Flags): seq<string>
  {
    ["py", ".\\run_trial.py", "-v", NatToString(v), "-pos", NatToString(p)] + FlagWords(f)
  }

  function RowOf(pid: nat, v: nat, w: nat, p: nat): Row
    requires w < 3
  {
    var f := WeatherFlags(w);
    Row(pid, p, v, Weathers[w], YesNo(f.rain), YesNo(f.cloud), YesNo(f.light), JoinWords(CommandWords(v, p, f)))
  }

  /** The 27 rows in loop order: speed, then weather, then position (position p is Positions[p]). */
  function Rows(pid: nat, group: seq<nat>): (r: seq<Row>)
    requires |group| == 3
    ensures |r| == 27
  {
    seq(27, k requires 0 <= k < 27 => RowOf(pid, group[k / 9], (k / 3) % 3, k % 3))
  }

  lemma IndexParts(i: nat, j: nat, w: nat)
    requires i < 3 && j < 3 && w < 3
    ensures (9 * i + 3 * j + w) / 9 == i && ((9 * i + 3 * j + w) / 3) % 3 == j && (9 * i + 3 * j + w) % 3 == w
  {
  }

  lemma HeadText(v: string, p: string)
    ensures "py" + " " + ".\\run_trial.py" + " " + "-v" + " " + v + " " + "-pos" + " " + p
            == "py .\\run_trial.py -v " + v + " -pos " + p
  {
    assert "py" + " " + ".\\run_trial.py" + " " + "-v" + " " == "py .\\run_trial.py -v ";
    assert " " + "-pos" + " " == " -pos ";
  }

  /** The f-string head of a command line is " ".join of its first six words. */
  lemma CommandHead(v: nat, p: nat)
    ensures JoinWords(["py", ".\\run_trial.py", "-v", NatToString(v), "-pos", NatToString(p)])
            == "py .\\run_trial.py -v " + NatToString(v) + " -pos " + NatToString(p)
  {
    var vs, ps := NatToString(v), NatToString(p);
    JoinSix("py", ".\\run_trial.py", "-v", vs, "-pos", ps);
    HeadText(vs, ps);
  }

  /** The body of the innermost loop: one command line and its row. */
  method BuildRow(pid: nat, velocity: nat, w: nat, position: nat) returns (row: Row)
    requires w < 3
    ensures row == RowOf(pid, velocity, w, position)
  {
    var f := WeatherFlags(w);
    ghost var head := ["py", ".\\run_trial.py", "-v", NatToString(velocity), "-pos", NatToString(position)];
    CommandHead(velocity, position);
    AppendFlags(head, f);
    var command := "py .\\run_trial.py -v " + NatToString(velocity) + " -pos " + NatToString(position);
    assert command == JoinWords(head);
    if f.rain {
      command := command + " -r True";
    }
    assert command == JoinWords(head) + (if f.rain then " -r True" else "");
    if f.cloud {
      command := command + " -c True";
    }
    assert command == JoinWords(head) + (if f.rain then " -r True" else "") + (if f.cloud then " -c True" else "");
    if f.light {
      command := command + " -l True";
    }
    assert command == JoinWords(CommandWords(velocity, position, f));
    row := Row(pid, position, velocity, Weathers[w],
               if f.rain then "VRAI" else "FAUX", if f.cloud then "VRAI" else "FAUX",
               if f.light then "VRAI" else "FAUX", command);
  }

  /** Appending row (i, j, w) to the first 9i + 3j + w rows gives the next prefix. */
  lemma RowStep(pid: nat, group: seq<nat>, i: nat, j: nat, p: nat, done: seq<Row>)
    requires |group| == 3 && i < 3 && j < 3 && p < 3
    requires done == Rows(pid, group)[..9 * i + 3 * j + p]
    ensures done + [RowOf(pid, group[i], j, p)] == Rows(pid, group)[..9 * i + 3 * j + p + 1]
  {
    IndexParts(i, j, p);
    var all := Rows(pid, group);
    var k := 9 * i + 3 * j + p;
    assert all[k] == RowOf(pid, group[i], j, p);
    assert all[..k + 1] == all[..k] + [all[k]];
  }

  /** The three nested loops of generate_commands_for_participant, before the shuffle. */
  method BuildRows(pid: nat, group: seq<nat>) returns (commands: seq<Row>)
    requires |group| == 3
    ensures commands == Rows(pid, group)
  {
    commands := [];
    var i := 0;
    while i < 3
      invariant 0 <= i <= 3
      invariant commands == Rows(pid, group)[..9 * i]
    {
      var velocity := group[i];
      var w := 0;
      while w < 3
        invariant 0 <= w <= 3
        invariant commands == Rows(pid, group)[..9 * i + 3 * w]
      {
        var p := 0;
        while p < 3
          invariant 0 <= p <= 3
          invariant commands == Rows(pid, group)[..9 * i + 3 * w + p]
        {
          var position := Positions[p];
          assert position == p;
          var row := BuildRow(pid, velocity, w, position);
          RowStep(pid, group, i, w, p, commands);
          commands := commands + [row];
          p := p + 1;
        }
        w := w + 1;
      }
      i := i + 1;
    }
  }

  /** Every (speed, weather, position) of the group has its row. */
  lemma EveryTripleHasItsRow(pid: nat, group: seq<nat>, a: nat, w: nat, p: nat)
    requires |group| == 3 && a < 3 && w < 3 && p < 3
    ensures var r := Rows(pid, group)[9 * a + 3 * w + p];
            r.participant == pid && r.velocity == group[a] && r.weather == Weathers[w] && r.position == Positions[p]
  {
    IndexParts(a, w, p);
  }

  /** With distinct speeds, no (speed, weather, position) triple occurs twice. */
  lemma NoTripleTwice(pid: nat, group: seq<nat>, k1: nat, k2: nat)
    requires |group| == 3 && NoDup(group) && k1 < 27 && k2 < 27
    requires Rows(pid, group)[k1].velocity == Rows(pid, group)[k2].velocity
    requires Rows(pid, group)[k1].weather == Rows(pid, group)[k2].weather
    requires Rows(pid, group)[k1].position == Rows(pid, group)[k2].position
    ensures k1 == k2
  {
    var all := Rows(pid, group);
    assert all[k1].velocity == group[k1 / 9] && all[k2].velocity == group[k2 / 9];
    assert all[k1].weather == Weathers[(k1 / 3) % 3] && all[k2].weather == Weathers[(k2 / 3) % 3];
    assert all[k1].position == k1 % 3 && all[k2].position == k2 % 3;
    NoDupIndex(group, k1 / 9, k2 / 9);
    WeathersDistinct((k1 / 3) % 3, (k2 / 3) % 3);
    IndexFromParts(k1, k2);
  }

  /** The flag columns say "VRAI" exactly when the weather sets the flag. */
  lemma FlagColumnsFollowTheTable(pid: nat, group: seq<nat>, k: nat)
    requires |group| == 3 && k < 27
    ensures var r := Rows(pid, group)[k];
            var f := WeatherFlags((k / 3) % 3);
            (r.rain == "VRAI" <==> f.rain) && (r.cloud == "VRAI" <==> f.cloud) && (r.light == "VRAI" <==> f.light)
            && (r.rain == "FAUX" <==> !f.rain) && (r.cloud == "FAUX" <==> !f.cloud) && (r.light == "FAUX" <==> !f.light)
  {
  }

  /** The command line splits back into speed, position and the weather's flags. */
  lemma CommandReadsBack(pid: nat, group: seq<nat>, k: nat)
    requires |group| == 3 && k < 27
    ensures var r := Rows(pid, group)[k];
            Words(r.command) == CommandWords(r.velocity, r.position, WeatherFlags((k / 3) % 3))
  {
    var r := Rows(pid, group)[k];
    var f := WeatherFlags((k / 3) % 3);
    var ws := CommandWords(r.velocity, r.position, f);
    FlagWordsHaveNoSpace(f);
    forall i | 0 <= i < |ws|
      ensures NoSpace(ws[i])
    {
      if i >= 6 {
        assert ws[i] == FlagWords(f)[i - 6];
      }
    }
    SplitJoinRoundTrip(ws);
  }

  /** What a participant's sheet lists: the rows, shuffled by `order`. */
  function Sheet(pid: nat, group: seq<nat>, order: seq<nat>): (r: seq<Row>)
    requires |group| == 3 && ValidDraws(order, 27)
  {
    var rows := Rows(pid, group);
    ShuffleDown(rows, order, |rows|)
  }

  /** random.shuffle only reorders: the sheet holds every generated row, as often. */
  lemma SheetIsAPermutation(pid: nat, group: seq<nat>, order: seq<nat>)
    requires |group| == 3 && ValidDraws(order, 27)
    ensures |Sheet(pid, group, order)| == 27
    ensures multiset(Sheet(pid, group, order)) == multiset(Rows(pid, group))
  {
    ShufflePermutes(Rows(pid, group), order, 27);
  }

  /**
   * The script's state: the group_counts tally. Its dictionary is keyed by str(group);
   * here entry g counts group Groups[g].
   */
  class Planner {
    var groupCounts: seq<nat>

    ghost predicate Valid()
      reads this
    {
      |groupCounts| == |Groups|
    }

    /** The number of choices tallied so far. */
    function Total(): nat
      reads this
      requires Valid()
    {
      groupCounts[0] + groupCounts[1]
    }

    constructor ()
      ensures Valid() && groupCounts == [0, 0]
    {
      groupCounts := [0, 0];
    }

    /**
     * generate_commands_for_participant: random.choice picks group `choice`, its
     * counter goes up by one, and the 27 rows are built and shuffled in place by `order`.
     */
    method GenerateCommands(pid: nat, choice: nat, order: seq<nat>) returns (commands: seq<Row>)
      requires Valid() && choice < 2 && ValidDraws(order, 27)
      modifies this
      ensures Valid()
      ensures groupCounts == old(groupCounts)[choice := old(groupCounts)[choice] + 1]
      ensures commands == Sheet(pid, Groups[choice], order)
    {
      var group := Groups[choice];
      groupCounts := groupCounts[choice := groupCounts[choice] + 1];
      assert |group| == 3;
      commands := ParticipantSheet(pid, group, order);
    }

    /** One iteration of the participant loop: participant `pid` makes its choice and gets its sheet. */
    method Serve(choices: seq<nat>, orders: seq<seq<nat>>, pid: nat, ghost start0: nat, ghost start1: nat,
                 sheets: seq<seq<Row>>) returns (next: seq<seq<Row>>)
      requires Valid() && ValidPlanInputs(choices, orders) && 1 <= pid <= |choices|
      requires groupCounts[0] == start0 + CountChoices(choices[..pid - 1], 0)
      requires groupCounts[1] == start1 + CountChoices(choices[..pid - 1], 1)
      requires sheets == Sheets(choices, orders)[..pid - 1]
      modifies this
      ensures Valid()
      ensures groupCounts[0] == start0 + CountChoices(choices[..pid], 0)
      ensures groupCounts[1] == start1 + CountChoices(choices[..pid], 1)
      ensures next == Sheets(choices, orders)[..pid]
    {
      ValidPlanInputsAt(choices, orders, pid - 1);
      var commands := GenerateCommands(pid, choices[pid - 1], orders[pid - 1]);
      CountStep(choices, pid, 0);
      CountStep(choices, pid, 1);
      SheetsStep(choices, orders, sheets, commands, pid);
      next := sheets + [commands];
    }

    /** The participant loop: participant k + 1 makes choice k and gets sheet k. */
    method GenerateAll(choices: seq<nat>, orders: seq<seq<nat>>) returns (sheets: seq<seq<Row>>)
      requires Valid() && |choices| == ParticipantCount && |orders| == ParticipantCount
      requires ValidPlanInputs(choices, orders)
      modifies this
      ensures Valid() && Total() == old(Total()) + ParticipantCount
      ensures groupCounts[0] == old(groupCounts[0]) + CountChoices(choices, 0)
      ensures groupCounts[1] == old(groupCounts[1]) + CountChoices(choices, 1)
      ensures sheets == Sheets(choices, orders)
    {
      ghost var all := Sheets(choices, orders);
      ghost var start0, start1 := groupCounts[0], groupCounts[1];
      sheets := [];
      var pid := 1;
      assert choices[..0] == [];
      while pid <= ParticipantCount
        invariant 1 <= pid <= ParticipantCount + 1
        invariant Valid()
        invariant groupCounts[0] == start0 + CountChoices(choices[..pid - 1], 0)
        invariant groupCounts[1] == start1 + CountChoices(choices[..pid - 1], 1)
        invariant sheets == all[..pid - 1]
      {
        sheets := Serve(choices, orders, pid, start0, start1, sheets);
        pid := pid + 1;
      }
      assert choices[..ParticipantCount] == choices;
      assert all[..ParticipantCount] == all;
      ValidPlanInputsChoices(choices, orders);
      CountsAddUp(choices);
    }
  }

  /** Every choice names one of the two groups and every shuffle has valid draws for 27 rows. */
  predicate ValidPlanInputs(choices: seq<nat>, orders: seq<seq<nat>>)
  {
    |orders| == |choices| && forall k | 0 <= k < |choices| :: choices[k] < 2 && ValidDraws(orders[k], 27)
  }

  lemma ValidPlanInputsAt(choices: seq<nat>, orders: seq<seq<nat>>, k: nat)
    requires ValidPlanInputs(choices, orders) && k < |choices|
    ensures choices[k] < 2 && ValidDraws(orders[k], 27)
  {
  }

  lemma ValidPlanInputsChoices(choices: seq<nat>, orders: seq<seq<nat>>)
    requires ValidPlanInputs(choices, orders)
    ensures forall k | 0 <= k < |choices| :: choices[k] < 2
  {
  }

  /** Every participant's sheet: participant k + 1 makes choice k and shuffles by order k. */
  function Sheets(choices: seq<nat>, orders: seq<seq<nat>>): (r: seq<seq<Row>>)
    requires ValidPlanInputs(choices, orders)
    ensures |r| == |choices|
  {
    seq(|choices|, k requires 0 <= k < |choices| => Sheet(k + 1, Groups[choices[k]], orders[k]))
  }

  /** The rows of one participant, built by the loops and then shuffled. */
  method ParticipantSheet(pid: nat, group: seq<nat>, order: seq<nat>) returns (commands: seq<Row>)
    requires |group| == 3 && ValidDraws(order, 27)
    ensures commands == Sheet(pid, group, order)
  {
    var rows := BuildRows(pid, group);
    commands := ShuffleRows(rows, order);
  }

  /** random.shuffle(commands), in place on the list. */
  method ShuffleRows(rows: seq<Row>, order: seq<nat>) returns (r: seq<Row>)
    requires ValidDraws(order, |rows|)
    ensures r == ShuffleDown(rows, order, |rows|)
  {
    var a := new Row[|rows|](i requires 0 <= i < |rows| => rows[i]);
    assert a[..] == rows;
    Shuffle(a, order);
    r := a[..];
  }

  /** The number of the first n choices that picked group `g`. */
  function CountChoices(choices: seq<nat>, g: nat): (r: nat)
    ensures r <= |choices|
  {
    if choices == [] then 0
    else CountChoices(choices[..|choices| - 1], g) + (if choices[|choices| - 1] == g then 1 else 0)
  }

  lemma SheetsStep(choices: seq<nat>, orders: seq<seq<nat>>, done: seq<seq<Row>>, next: seq<Row>, pid: nat)
    requires ValidPlanInputs(choices, orders)
    requires 0 < pid <= |choices|
    requires done == Sheets(choices, orders)[..pid - 1]
    requires next == Sheet(pid, Groups[choices[pid - 1]], orders[pid - 1])
    ensures done + [next] == Sheets(choices, orders)[..pid]
  {
    var all := Sheets(choices, orders);
    assert all[pid - 1] == next;
    PrefixSnoc(all, done, next, pid);
  }

  lemma PrefixSnoc<T>(all: seq<T>, done: seq<T>, next: T, n: nat)
    requires 0 < n <= |all| && done == all[..n - 1] && next == all[n - 1]
    ensures done + [next] == all[..n]
  {
  }

  lemma CountStep(choices: seq<nat>, n: nat, g: nat)
    requires 0 < n <= |choices|
    ensures CountChoices(choices[..n], g) == CountChoices(choices[..n - 1], g) + (if choices[n - 1] == g then 1 else 0)
  {
    assert choices[..n][..n - 1] == choices[..n - 1];
  }

  /** Every choice is of one of the two groups, so the two counts add up to the participants. */
  lemma {:induction false} CountsAddUp(choices: seq<nat>)
    requires forall k | 0 <= k < |choices| :: choices[k] < 2
    ensures CountChoices(choices, 0) + CountChoices(choices, 1) == |choices|
  {
    if choices != [] {
      CountsAddUp(choices[..|choices| - 1]);
    }
  }
}
