// The manual weather-annotation tool: the image index keyed by frame number, the
// output path rule, and the annotator's cursor over the CSV rows with its periodic
// autosave.
module WeatherGui {
  import opened Common
  import Paths
  import BpiColumns

  // ---------------------------------------------------------------------------
  // Image index.
  // ---------------------------------------------------------------------------

  const ImageExts: seq<string> := [".jpg", ".jpeg", ".png", ".bmp"]

  /** The file name ends, ignoring case, in one of the image extensions. */
  predicate IsImage(p: string)
  {
    EndsWithAny(Lower(p), ImageExts)
  }

  /** The digits at the very end of `s`, as many as there are. */
  function TrailingDigits(s: string): (r: string)
    ensures EndsWith(s, r)
    ensures forall k | 0 <= k < |r| :: IsDigit(r[k])
    ensures |r| < |s| ==> !IsDigit(s[|s| - |r| - 1])
  {
    if s == [] || !IsDigit(s[|s| - 1]) then []
    else TrailingDigits(s[..|s| - 1]) + [s[|s| - 1]]
  }

  /** int() of the last run of digits in the name, as re.finditer(r"(\d+)") finds it. */
  function LastDigitRun(s: string): (r: Option<nat>)
    ensures r.None? <==> forall k | 0 <= k < |s| :: !IsDigit(s[k])
  {
    if s == [] then None
    else if IsDigit(s[|s| - 1]) then Some(DigitsValue(TrailingDigits(s)))
    else
      var p := s[..|s| - 1];
      assert forall k | 0 <= k < |p| :: p[k] == s[k];
      LastDigitRun(p)
  }

  lemma {:induction false} TrailingDigitsOfRun(a: string, d: string)
    requires forall k | 0 <= k < |d| :: IsDigit(d[k])
    requires a == [] || !IsDigit(a[|a| - 1])
    ensures TrailingDigits(a + d) == d
  {
    if d == [] {
      assert a + d == a;
    } else {
      var p := d[..|d| - 1];
      TrailingDigitsOfRun(a, p);
      DropLast(a, d);
    }
  }

  /**
   * Whatever comes before a digit run, and however many digits stand earlier in the
   * name, the key is the value of the last run when only non-digits follow it.
   */
  lemma {:induction false} LastRunIsTheKey(a: string, d: string, b: string)
    requires d != [] && forall k | 0 <= k < |d| :: IsDigit(d[k])
    requires a == [] || !IsDigit(a[|a| - 1])
    requires forall k | 0 <= k < |b| :: !IsDigit(b[k])
    ensures LastDigitRun(a + d + b) == Some(DigitsValue(d))
  {
    if b == [] {
      assert a + d + b == a + d;
      TrailingDigitsOfRun(a, d);
    } else {
      var p := b[..|b| - 1];
      LastRunIsTheKey(a, d, p);
      assert (a + d + b)[..|a + d + b| - 1] == a + d + p;
    }
  }

  /** The frame key of a listed path: None when it is not an image or has no digits. */
  function FrameKey(p: string): (r: Option<nat>)
    ensures r.Some? ==> IsImage(p)
  {
    if IsImage(p) then LastDigitRun(Paths.Basename(p)) else None
  }

  function NameLen(p: string): nat
  {
    |Paths.Basename(p)|
  }

  /**
   * One iteration of the scan, for any key and name-length function: keep the new path
   * when its key is new or its name is shorter than the kept one's.
   */
  function AddBy(idx: map<nat, string>, p: string, key: string -> Option<nat>, len: string -> nat): map<nat, string>
  {
    match key(p)
    case None => idx
    case Some(f) => if f !in idx || len(p) < len(idx[f]) then idx[f := p] else idx
  }

  /** The index built from the listed paths in order. */
  function IndexBy(ps: seq<string>, key: string -> Option<nat>, len: string -> nat): map<nat, string>
  {
    if ps == [] then map[] else AddBy(IndexBy(ps[..|ps| - 1], key, len), ps[|ps| - 1], key, len)
  }

  /** scan_images_make_index's index: image files keyed by their last digit run. */
  function IndexOf(ps: seq<string>): map<nat, string>
  {
    IndexBy(ps, FrameKey, NameLen)
  }

  /** Position `j` holds the path an index keeps for frame `f`: shortest name, first among equals. */
  predicate Best(ps: seq<string>, f: nat, j: int, key: string -> Option<nat>, len: string -> nat)
  {
    0 <= j < |ps| && key(ps[j]) == Some(f)
    && (forall i | 0 <= i < |ps| && key(ps[i]) == Some(f) :: len(ps[j]) <= len(ps[i]))
    && (forall i | 0 <= i < j && key(ps[i]) == Some(f) :: len(ps[j]) < len(ps[i]))
  }

  /** The keys of the index are exactly the keys of the listed paths. */
  lemma {:induction false} IndexKeys(ps: seq<string>, key: string -> Option<nat>, len: string -> nat)
    ensures forall f :: f in IndexBy(ps, key, len) <==> exists j | 0 <= j < |ps| :: key(ps[j]) == Some(f)
  {
    if ps != [] {
      var p := ps[..|ps| - 1];
      IndexKeys(p, key, len);
      forall f
        ensures f in IndexBy(ps, key, len) <==> exists j | 0 <= j < |ps| :: key(ps[j]) == Some(f)
      {
        if exists j | 0 <= j < |ps| :: key(ps[j]) == Some(f) {
          var j :| 0 <= j < |ps| && key(ps[j]) == Some(f);
          if j < |p| {
            assert key(p[j]) == Some(f);
          }
        }
        if exists j | 0 <= j < |p| :: key(p[j]) == Some(f) {
          var j :| 0 <= j < |p| && key(p[j]) == Some(f);
          assert key(ps[j]) == Some(f);
        }
      }
    }
  }

  /** A new path strictly shorter than every earlier path of its key is the best one. */
  lemma BestNew(p: seq<string>, x: string, f: nat, key: string -> Option<nat>, len: string -> nat)
    requires key(x) == Some(f)
    requires forall i | 0 <= i < |p| && key(p[i]) == Some(f) :: len(x) < len(p[i])
    ensures Best(p + [x], f, |p|, key, len)
  {
    var ps := p + [x];
    assert forall i | 0 <= i < |p| :: ps[i] == p[i];
  }

  /** The best path so far stays the best when the new path is not strictly shorter. */
  lemma BestKept(p: seq<string>, x: string, f: nat, j: int, key: string -> Option<nat>, len: string -> nat)
    requires Best(p, f, j, key, len)
    requires key(x) == Some(f) ==> len(p[j]) <= len(x)
    ensures Best(p + [x], f, j, key, len) && (p + [x])[j] == p[j]
  {
    var ps := p + [x];
    assert forall i | 0 <= i < |p| :: ps[i] == p[i];
  }

  /** One scan step keeps the chosen path the best one listed so far. */
  lemma BestStep(p: seq<string>, x: string, f: nat, key: string -> Option<nat>, len: string -> nat)
    requires f in AddBy(IndexBy(p, key, len), x, key, len)
    requires f in IndexBy(p, key, len) ==> exists j :: Best(p, f, j, key, len) && p[j] == IndexBy(p, key, len)[f]
    requires f !in IndexBy(p, key, len) ==> forall i | 0 <= i < |p| :: key(p[i]) != Some(f)
    ensures exists j :: Best(p + [x], f, j, key, len) && (p + [x])[j] == AddBy(IndexBy(p, key, len), x, key, len)[f]
  {
    var before := IndexBy(p, key, len);
    var after := AddBy(before, x, key, len);
    if key(x) == Some(f) && (f !in before || len(x) < len(before[f])) {
      if f in before {
        var j :| Best(p, f, j, key, len) && p[j] == before[f];
      }
      BestNew(p, x, f, key, len);
      assert after[f] == x;
      assert (p + [x])[|p|] == x;
    } else {
      var j :| Best(p, f, j, key, len) && p[j] == before[f];
      BestKept(p, x, f, j, key, len);
      assert after[f] == before[f];
    }
  }

  /**
   * For each key the index keeps the listed path with the shortest name, the first one
   * on equal lengths.
   */
  lemma {:induction false} IndexKeepsShortestFirst(ps: seq<string>, key: string -> Option<nat>, len: string -> nat)
    ensures forall f | f in IndexBy(ps, key, len) :: exists j :: Best(ps, f, j, key, len) && ps[j] == IndexBy(ps, key, len)[f]
  {
    if ps != [] {
      var p := ps[..|ps| - 1];
      var x := ps[|ps| - 1];
      assert ps == p + [x];
      IndexKeepsShortestFirst(p, key, len);
      IndexKeys(p, key, len);
      forall f | f in IndexBy(ps, key, len)
        ensures exists j :: Best(ps, f, j, key, len) && ps[j] == IndexBy(ps, key, len)[f]
      {
        BestStep(p, x, f, key, len);
      }
    }
  }

  /**
   * The image index has exactly the frame keys of the listed images, and for each keeps
   * the image with the shortest file name, the first listed on equal lengths.
   */
  lemma ImageIndexIsShortestFirst(ps: seq<string>)
    ensures forall f :: f in IndexOf(ps) <==> exists j | 0 <= j < |ps| :: FrameKey(ps[j]) == Some(f)
    ensures forall f | f in IndexOf(ps) :: exists j :: Best(ps, f, j, FrameKey, NameLen) && ps[j] == IndexOf(ps)[f]
  {
    IndexKeys(ps, FrameKey, NameLen);
    IndexKeepsShortestFirst(ps, FrameKey, NameLen);
  }

  /** The paths the scan visits: each existing directory's listing, in order. */
  function AllFiles(dirs: seq<string>, isDir: string -> bool, listing: string -> seq<string>): seq<string>
  {
    if dirs == [] then []
    else
      var last := dirs[|dirs| - 1];
      AllFiles(dirs[..|dirs| - 1], isDir, listing) + if isDir(last) then listing(last) else []
  }

  /** Listing one more path applies one scan step to the index. */
  lemma IndexByAppend(ps: seq<string>, x: string, key: string -> Option<nat>, len: string -> nat)
    ensures IndexBy(ps + [x], key, len) == AddBy(IndexBy(ps, key, len), x, key, len)
  {
    assert (ps + [x])[..|ps|] == ps;
  }

  /** The inner loop: one directory's listing added to the index, for any key and name length. */
  method AddListing(ghost before: seq<string>, idx0: map<nat, string>, files: seq<string>,
                    key: string -> Option<nat>, len: string -> nat)
    returns (idx: map<nat, string>)
    requires idx0 == IndexBy(before, key, len)
    ensures idx == IndexBy(before + files, key, len)
  {
    idx := idx0;
    var j := 0;
    assert before + files[..0] == before;
    while j < |files|
      invariant 0 <= j <= |files|
      invariant idx == IndexBy(before + files[..j], key, len)
    {
      assert before + files[..j + 1] == (before + files[..j]) + [files[j]];
      IndexByAppend(before + files[..j], files[j], key, len);
      idx := AddBy(idx, files[j], key, len);
      j := j + 1;
    }
    assert files[..j] == files;
  }

  /**
   * scan_images_make_index: `isDir` plays os.path.isdir and `listing` the recursive glob
   * of a directory.
   */
  method ScanImages(dirs: seq<string>, isDir: string -> bool, listing: string -> seq<string>)
    returns (idx: map<nat, string>)
    ensures idx == IndexOf(AllFiles(dirs, isDir, listing))
  {
    idx := map[];
    var d := 0;
    while d < |dirs|
      invariant 0 <= d <= |dirs|
      invariant idx == IndexBy(AllFiles(dirs[..d], isDir, listing), FrameKey, NameLen)
    {
      ghost var seen := AllFiles(dirs[..d], isDir, listing);
      AllFilesStep(dirs, d, isDir, listing);
      if isDir(dirs[d]) {
        idx := AddListing(seen, idx, listing(dirs[d]), FrameKey, NameLen);
      } else {
        assert seen + [] == seen;
      }
      d := d + 1;
    }
    assert dirs[..d] == dirs;
  }

  /** Scanning one more directory appends its listing, if it exists. */
  lemma AllFilesStep(dirs: seq<string>, d: nat, isDir: string -> bool, listing: string -> seq<string>)
    requires d < |dirs|
    ensures AllFiles(dirs[..d + 1], isDir, listing)
            == AllFiles(dirs[..d], isDir, listing) + if isDir(dirs[d]) then listing(dirs[d]) else []
  {
    assert dirs[..d + 1][..d] == dirs[..d];
  }

  // ---------------------------------------------------------------------------
  // Output path.
  // ---------------------------------------------------------------------------

  /** The directory part of a path with its trailing separator ("" when there is none). */
  function Parent(p: string): (r: string)
    ensures r + Paths.Basename(p) == p
    ensures r == [] || Paths.IsSep(r[|r| - 1])
  {
    var name := Paths.Basename(p);
    assert p[|p| - |name|..] == name;
    assert p == p[..|p| - |name|] + name;
    p[..|p| - |name|]
  }

  lemma BasenameAfterParent(dir: string, name: string)
    requires dir == [] || Paths.IsSep(dir[|dir| - 1])
    requires forall k | 0 <= k < |name| :: !Paths.IsSep(name[k])
    ensures Paths.Basename(dir + name) == name
  {
    SeparatorFreeSuffix(dir, name, Paths.Basename(dir + name));
  }

  /** A separator-free suffix of `dir + name` that stops at a separator is `name`. */
  lemma SeparatorFreeSuffix(dir: string, name: string, r: string)
    requires dir == [] || Paths.IsSep(dir[|dir| - 1])
    requires forall k | 0 <= k < |name| :: !Paths.IsSep(name[k])
    requires EndsWith(dir + name, r) && forall k | 0 <= k < |r| :: !Paths.IsSep(r[k])
    requires |r| < |dir + name| ==> Paths.IsSep((dir + name)[|dir + name| - |r| - 1])
    ensures r == name
  {
    var s := dir + name;
    assert |r| <= |name| by {
      assert forall k | |s| - |r| <= k < |s| :: s[k] == r[k - (|s| - |r|)];
      assert dir != [] ==> s[|dir| - 1] == dir[|dir| - 1];
    }
    assert |r| >= |name| by {
      assert forall k | |dir| <= k < |s| :: s[k] == name[k - |dir|];
    }
    assert s[|dir|..] == name;
  }

  /** The renamed file: `<stem>_weather<suffix>`. */
  function WeatherName(name: string): (r: string)
    ensures |r| == |name| + 8
    ensures NoSep(name) ==> NoSep(r)
  {
    var stem, suffix := Paths.PathStem(name), Paths.PathSuffix(name);
    var r := stem + "_weather" + suffix;
    if NoSep(name) then
      NoSepParts(stem, suffix);
      WeatherTagHasNoSep();
      NoSepConcat(stem, "_weather", suffix);
      r
    else r
  }

  predicate NoSep(s: string)
  {
    forall k | 0 <= k < |s| :: !Paths.IsSep(s[k])
  }

  lemma WeatherTagHasNoSep()
    ensures NoSep("_weather")
  {
  }

  /** The two parts of a separator-free name are separator-free. */
  lemma NoSepParts(a: string, b: string)
    requires NoSep(a + b)
    ensures NoSep(a) && NoSep(b)
  {
    assert forall k | 0 <= k < |a| :: a[k] == (a + b)[k];
    assert forall k | 0 <= k < |b| :: b[k] == (a + b)[|a| + k];
  }

  /** Joining three separator-free parts gives a separator-free name. */
  lemma NoSepConcat(a: string, b: string, c: string)
    requires NoSep(a) && NoSep(b) && NoSep(c)
    ensures NoSep(a + b + c)
  {
    var s := a + b + c;
    forall k | 0 <= k < |s|
      ensures !Paths.IsSep(s[k])
    {
      if k < |a| {
        assert s[k] == a[k];
      } else if k < |a| + |b| {
        assert s[k] == b[k - |a|];
      } else {
        assert s[k] == c[k - |a| - |b|];
      }
    }
  }

  /**
   * make_output_path: the input itself in place, otherwise the renamed file in the same
   * directory. pathlib refuses to rename a path whose name is empty.
   */
  function MakeOutputPath(csvPath: string, inplace: bool): (r: Result<string>)
    ensures inplace ==> r == Ok(csvPath)
    ensures !inplace ==> (r.Err? <==> Paths.Basename(csvPath) == [])
    ensures !inplace && r.Ok? ==> |r.value| == |csvPath| + 8
  {
    if inplace then Ok(csvPath)
    else
      var name := Paths.Basename(csvPath);
      if name == [] then Err("ValueError: has an empty name")
      else Ok(Parent(csvPath) + WeatherName(name))
  }

  /** The copy sits in the input's directory under the renamed file name. */
  lemma OutputIsTheRenamedSibling(csvPath: string)
    requires Paths.Basename(csvPath) != []
    ensures var r := MakeOutputPath(csvPath, false).value;
            StartsWith(r, Parent(csvPath)) && Paths.Basename(r) == WeatherName(Paths.Basename(csvPath))
  {
    var name := Paths.Basename(csvPath);
    var dir, file := Parent(csvPath), WeatherName(name);
    assert MakeOutputPath(csvPath, false).value == dir + file;
    BasenameAfterParent(dir, file);
    assert (dir + file)[..|dir|] == dir;
  }

  /** Unless asked to write in place, the annotated CSV never overwrites its input. */
  lemma OutputNeverOverwritesInput(csvPath: string, inplace: bool)
    requires MakeOutputPath(csvPath, inplace).Ok?
    ensures MakeOutputPath(csvPath, inplace).value == csvPath <==> inplace
  {
  }

  // ---------------------------------------------------------------------------
  // The annotator.
  // ---------------------------------------------------------------------------

  /** The first row whose weather is still missing, or 0 when every row has one. */
  function ResumeRow(weather: seq<Option<string>>): (r: nat)
    ensures (exists k | 0 <= k < |weather| :: weather[k].None?) ==>
              r < |weather| && weather[r].None? && forall k | 0 <= k < r :: weather[k].Some?
    ensures (forall k | 0 <= k < |weather| :: weather[k].Some?) ==> r == 0
  {
    if weather == [] then 0
    else if weather[0].None? then 0
    else
      var rest := ResumeRow(weather[1..]);
      if exists k | 0 <= k < |weather| - 1 :: weather[1..][k].None? then rest + 1 else 0
  }

  /** max(0, min(n - 1, x)) for a non-empty table. */
  function Clamp(x: int, n: nat): (r: nat)
    requires n > 0
    ensures r < n
    ensures 0 <= x < n ==> r == x
    ensures x < 0 ==> r == 0
    ensures x >= n ==> r == n - 1
  {
    Max(0, Min(n - 1, x))
  }

  /** What a key press asks for. */
  datatype Action = Label(text: string) | Go(delta: int) | SaveProgress | SaveAndQuit | NoAction

  /** The keys on_key reacts to; every other key does nothing. */
  const Shortcuts: seq<string> := ["c", "r", "n", "right", "pagedown", "left", "pageup", "s", "q", "escape"]

  /**
   * on_key's dispatch on an already lower-cased key: each weather is labelled by its
   * initial, right/pagedown and left/pageup step one row, s saves, q/escape save and quit.
   */
  function ActionOf(k: string): (a: Action)
    ensures a.Label? <==> k in ["c", "r", "n"]
    ensures a.Label? ==> a.text in ["clear", "rain", "night"] && k == a.text[..1]
    ensures a == Go(1) <==> k in ["right", "pagedown"]
    ensures a == Go(-1) <==> k in ["left", "pageup"]
    ensures a.Go? ==> a.delta in {-1, 1}
    ensures a == SaveProgress <==> k == "s"
    ensures a == SaveAndQuit <==> k in ["q", "escape"]
    ensures a == NoAction <==> k !in Shortcuts
  {
    if k == "c" then Label("clear")
    else if k == "r" then Label("rain")
    else if k == "n" then Label("night")
    else if k in ["right", "pagedown"] then Go(1)
    else if k in ["left", "pageup"] then Go(-1)
    else if k == "s" then SaveProgress
    else if k in ["q", "escape"] then SaveAndQuit
    else NoAction
  }

  /** on_key's dispatch on the lower-cased key (no key reads as ""). */
  function KeyAction(key: Option<string>): (a: Action)
    ensures a.Label? <==> (key.Some? && Lower(key.value) in ["c", "r", "n"])
    ensures a.Label? ==> a.text in ["clear", "rain", "night"] && Lower(key.value) == a.text[..1]
    ensures a == Go(1) <==> (key.Some? && Lower(key.value) in ["right", "pagedown"])
    ensures a == Go(-1) <==> (key.Some? && Lower(key.value) in ["left", "pageup"])
    ensures a.Go? ==> a.delta in {-1, 1}
    ensures a == SaveProgress <==> (key.Some? && Lower(key.value) == "s")
    ensures a == SaveAndQuit <==> (key.Some? && Lower(key.value) in ["q", "escape"])
    ensures a == NoAction <==> (key.None? || Lower(key.value) !in Shortcuts)
  {
    ActionOf(if key.Some? then Lower(key.value) else "")
  }

  /** A key does what its lower-case form does. */
  lemma ShortcutsIgnoreCase(key: string)
    ensures KeyAction(Some(key)) == KeyAction(Some(Lower(key)))
  {
    LowerIdempotent(key);
    assert KeyAction(Some(Lower(key))) == ActionOf(Lower(Lower(key)));
  }

  /** Upper-case label shortcuts: "C" labels clear and "R" labels rain. */
  lemma UpperCaseShortcuts()
    ensures KeyAction(Some("C")) == Label("clear")
    ensures KeyAction(Some("R")) == Label("rain")
  {
    assert KeyAction(Some("C")) == Label("clear") by {
      assert Lower("C") == "c";
    }
    assert KeyAction(Some("R")) == Label("rain") by {
      assert Lower("R") == "r";
    }
  }

  /**
   * The Annotator's state: the CSV's weather column, the cursor, the autosave period,
   * and every table the tool has written so far (the output file's successive contents).
   */
  class Annotator {
    var weather: seq<Option<string>>
    var i: int
    const autosaveEvery: nat
    const outPath: Result<string>
    var written: seq<seq<Option<string>>>
    var closed: bool

    ghost predicate Valid()
      reads this
    {
      0 <= i < |weather|
    }

    /**
     * __init__ after the two column lookups: a missing weather column is added as NaN,
     * the cursor resumes at the first row without weather.
     */
    constructor (csvPath: string, weatherCol: Option<seq<Option<string>>>, n: nat, inplace: bool, autosave: int)
      requires n > 0
      requires weatherCol.Some? ==> |weatherCol.value| == n
      ensures Valid()
      ensures weather == if weatherCol.Some? then weatherCol.value else seq(n, _ => None)
      ensures i == ResumeRow(weather)
      ensures autosaveEvery == Max(0, autosave) && outPath == MakeOutputPath(csvPath, inplace)
      ensures written == [] && !closed
    {
      var w := if weatherCol.Some? then weatherCol.value else seq(n, _ => None);
      weather := w;
      autosaveEvery := Max(0, autosave);
      outPath := MakeOutputPath(csvPath, inplace);
      i := ResumeRow(w);
      written := [];
      closed := false;
    }

    /** move: the cursor moves by delta, clamped to the rows. */
    method Move(delta: int)
      requires Valid()
      modifies this
      ensures Valid()
      ensures i == Clamp(old(i) + delta, |weather|)
      ensures weather == old(weather) && written == old(written) && closed == old(closed)
    {
      i := Clamp(i + delta, |weather|);
    }

    /** skip: on to the next row without a label. */
    method Skip()
      requires Valid()
      modifies this
      ensures Valid()
      ensures i == Clamp(old(i) + 1, |weather|)
      ensures weather == old(weather) && written == old(written) && closed == old(closed)
    {
      Move(1);
    }

    /** save: the whole table goes to the output file. */
    method Save()
      requires Valid()
      modifies this
      ensures Valid()
      ensures written == old(written) + [weather]
      ensures weather == old(weather) && i == old(i) && closed == old(closed)
    {
      written := written + [weather];
    }

    /**
     * set_weather_and_next: the label goes into the current row only; the table is saved
     * when the period divides the row number, before the cursor advances.
     */
    method SetWeatherAndNext(text: string)
      requires Valid()
      modifies this
      ensures Valid()
      ensures weather == old(weather)[old(i) := Some(text)]
      ensures written == old(written) + if autosaveEvery > 0 && old(i) % autosaveEvery == 0 then [weather] else []
      ensures i == Clamp(old(i) + 1, |weather|) && closed == old(closed)
    {
      weather := weather[i := Some(text)];
      if autosaveEvery > 0 && i % autosaveEvery == 0 {
        Save();
      }
      Move(1);
    }

    /** on_key: the dispatch of KeyAction. */
    method OnKey(key: Option<string>)
      requires Valid()
      modifies this
      ensures Valid()
      ensures match KeyAction(key)
              case Label(l) =>
                weather == old(weather)[old(i) := Some(l)] && i == Clamp(old(i) + 1, |weather|)
                && written == old(written) + (if autosaveEvery > 0 && old(i) % autosaveEvery == 0 then [weather] else [])
                && closed == old(closed)
              case Go(d) =>
                i == Clamp(old(i) + d, |weather|)
                && weather == old(weather) && written == old(written) && closed == old(closed)
              case SaveProgress =>
                written == old(written) + [weather] && weather == old(weather) && i == old(i) && closed == old(closed)
              case SaveAndQuit =>
                written == old(written) + [weather] && weather == old(weather) && i == old(i) && closed
              case NoAction =>
                weather == old(weather) && i == old(i) && written == old(written) && closed == old(closed)
    {
      match KeyAction(key)
      case Label(l) => SetWeatherAndNext(l);
      case Go(d) => Move(d);
      case SaveProgress => Save();
      case SaveAndQuit =>
        Save();
        closed := true;
      case NoAction =>
    }
  }

  /**
   * Opening a CSV: both column lookups raise KeyError on failure, and an empty table
   * fails when the first row is shown.
   */
  method Open(csvPath: string, cols: seq<string>, weatherCol: Option<seq<Option<string>>>, n: nat,
              inplace: bool, autosave: int) returns (r: Result<Annotator>)
    requires weatherCol.Some? ==> |weatherCol.value| == n
    ensures BpiColumns.FirstColEndingWith(cols, "image_frame").Err? ==>
              r == Err(BpiColumns.FirstColEndingWith(cols, "image_frame").error)
    ensures BpiColumns.FirstColEndingWith(cols, "image_frame").Ok? && BpiColumns.FirstColEndingWith(cols, "number").Err? ==>
              r == Err(BpiColumns.FirstColEndingWith(cols, "number").error)
    ensures r.Ok? <==> BpiColumns.FirstColEndingWith(cols, "image_frame").Ok?
                       && BpiColumns.FirstColEndingWith(cols, "number").Ok? && n > 0
    ensures r.Ok? ==> fresh(r.value) && r.value.Valid() && r.value.i == ResumeRow(r.value.weather)
                      && |r.value.weather| == n && r.value.written == []
  {
    var frameCol := BpiColumns.FirstColEndingWith(cols, "image_frame");
    if frameCol.Err? {
      return Err(frameCol.error);
    }
    var numberCol := BpiColumns.FirstColEndingWith(cols, "number");
    if numberCol.Err? {
      return Err(numberCol.error);
    }
    if n == 0 {
      return Err("IndexError: list index out of range");
    }
    var a := new Annotator(csvPath, weatherCol, n, inplace, autosave);
    return Ok(a);
  }
}
