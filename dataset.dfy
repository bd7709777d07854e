/**
 * The data preparation of example.py: one label per recording taken from its file
 * name (`load_csv_data`) and sliding windows of 25 rows, each transposed into the
 * (3, 25, 1) input layout of the classifier (`create_windows`).
 *
 * The sensor readings are an abstract element type `T`: nothing here depends on
 * their values, only on where they go.
 */
module Dataset {
  import opened Wrappers
  import opened Labels

  /** One CSV row restricted to its X, Y and Z columns (`df[["X", "Y", "Z"]]`). */
  datatype Row<T> = Row(x: T, y: T, z: T)

  /** Column `c` of a row: 0 is X, 1 is Y, 2 is Z. */
  function Column<T>(r: Row<T>, c: nat): T
    requires c < Channels
  {
    if c == 0 then r.x else if c == 1 then r.y else r.z
  }

  /** The number of axis columns, the first dimension of every model input. */
  const Channels: nat := 3

  /** The `window_size` the script passes to `create_windows`. */
  const WindowSize: nat := 25

  /** A recording as `load_csv_data` meets it: the path `glob` returned and the rows `pd.read_csv` parsed. */
  datatype CsvFile<T> = CsvFile(path: string, rows: seq<Row<T>>)

  /** The first position of `ch` in `s`, if any. */
  function FirstIndexOf(s: string, ch: char): Option<nat>
  {
    if s == [] then None
    else if s[0] == ch then Some(0)
    else
      match FirstIndexOf(s[1..], ch)
      case None => None
      case Some(k) => Some(k + 1)
  }

  /** `FirstIndexOf` finds nothing exactly when `ch` is absent, and otherwise a `ch` with none before it. */
  lemma {:induction false} FirstIndexOfSpec(s: string, ch: char)
    ensures FirstIndexOf(s, ch).None? <==> ch !in s
    ensures FirstIndexOf(s, ch).Some? ==>
              FirstIndexOf(s, ch).value < |s| && s[FirstIndexOf(s, ch).value] == ch &&
              ch !in s[..FirstIndexOf(s, ch).value]
  {
    if s != [] && s[0] != ch {
      FirstIndexOfSpec(s[1..], ch);
      assert s == [s[0]] + s[1..];
      match FirstIndexOf(s[1..], ch)
      case None =>
      case Some(k) =>
        assert s[..k + 1] == [s[0]] + s[1..][..k];
    }
  }

  /** The last position of `ch` in `s`, if any. */
  function LastIndexOf(s: string, ch: char): Option<nat>
  {
    if s == [] then None
    else if s[|s| - 1] == ch then Some(|s| - 1)
    else LastIndexOf(s[..|s| - 1], ch)
  }

  /** `LastIndexOf` finds nothing exactly when `ch` is absent, and otherwise a `ch` with none after it. */
  lemma {:induction false} LastIndexOfSpec(s: string, ch: char)
    ensures LastIndexOf(s, ch).None? <==> ch !in s
    ensures LastIndexOf(s, ch).Some? ==>
              LastIndexOf(s, ch).value < |s| && s[LastIndexOf(s, ch).value] == ch &&
              ch !in s[LastIndexOf(s, ch).value + 1..]
  {
    if s != [] && s[|s| - 1] != ch {
      var init := s[..|s| - 1];
      LastIndexOfSpec(init, ch);
      assert s == init + [s[|s| - 1]];
      match LastIndexOf(init, ch)
      case None =>
      case Some(k) =>
        assert s[k + 1..] == init[k + 1..] + [s[|s| - 1]];
    }
  }

  /** `Path(p).name`: the text after the last `/`. */
  function FileName(p: string): string
  {
    LastIndexOfSpec(p, '/');
    match LastIndexOf(p, '/')
    case None => p
    case Some(k) => p[k + 1..]
  }

  /** `Path(p).stem`: the file name without its last suffix; a leading or trailing dot does not start a suffix. */
  function Stem(p: string): string
  {
    var name := FileName(p);
    LastIndexOfSpec(name, '.');
    match LastIndexOf(name, '.')
    case Some(i) => if 0 < i < |name| - 1 then name[..i] else name
    case None => name
  }

  /** The label of a recording: the text after the first `_` of the stem, or the whole stem. */
  function LabelFromStem(stem: string): string
  {
    FirstIndexOfSpec(stem, '_');
    match FirstIndexOf(stem, '_')
    case None => stem
    case Some(k) => stem[k + 1..]
  }

  /** The label `load_csv_data` gives the recording at `path`. */
  function LabelOf(path: string): Label
  {
    LabelFromStem(Stem(path))
  }

  /** The first `ch` of `a + [ch] + b` is the one after `a` when `a` has none. */
  lemma {:induction false} FirstIndexAfter(a: string, ch: char, b: string)
    requires ch !in a
    ensures FirstIndexOf(a + [ch] + b, ch) == Some(|a|)
  {
    if a != [] {
      FirstIndexAfter(a[1..], ch, b);
      assert (a + [ch] + b)[1..] == a[1..] + [ch] + b;
    }
  }

  /** The last `ch` of `a + [ch] + b` is the one before `b` when `b` has none. */
  lemma {:induction false} LastIndexBefore(a: string, ch: char, b: string)
    requires ch !in b
    ensures LastIndexOf(a + [ch] + b, ch) == Some(|a|)
  {
    var s := a + [ch] + b;
    if b != [] {
      var b' := b[..|b| - 1];
      LastIndexBefore(a, ch, b');
      assert s[..|s| - 1] == a + [ch] + b';
      assert s[|s| - 1] == b[|b| - 1];
    }
  }

  /**
   * A stem written `<person>_<activity>` yields the activity, whatever underscores
   * the activity holds; a stem without `_` is its own label.
   */
  lemma LabelAfterFirstUnderscore(person: string, activity: string)
    requires '_' !in person
    ensures LabelFromStem(person + "_" + activity) == activity
    ensures LabelFromStem(person) == person
  {
    FirstIndexAfter(person, '_', activity);
    FirstIndexOfSpec(person, '_');
    assert (person + "_" + activity)[|person| + 1..] == activity;
  }

  /** `glob` under a directory returns `<dir>/<base>.csv`, whose stem is `base`. */
  lemma StemOfCsvPath(dir: string, base: string)
    requires '/' !in base && base != []
    ensures Stem(dir + "/" + base + ".csv") == base
  {
    var name := base + ".csv";
    assert '/' !in name by {
      assert forall j :: 0 <= j < |name| ==> name[j] == (if j < |base| then base[j] else ".csv"[j - |base|]);
    }
    LastIndexBefore(dir, '/', name);
    assert dir + "/" + base + ".csv" == dir + ['/'] + name;
    assert (dir + ['/'] + name)[|dir| + 1..] == name;
    LastIndexBefore(base, '.', "csv");
    assert name == base + ['.'] + "csv";
  }

  /**
   * The label of a `glob` result `<dir>/<person>_<activity>.csv` is the activity,
   * for instance `./Andres_sitting.csv` is labelled `sitting`.
   */
  lemma LabelOfCsvPath(dir: string, person: string, activity: string)
    requires '_' !in person && '/' !in person && '/' !in activity
    ensures LabelOf(dir + "/" + person + "_" + activity + ".csv") == activity
  {
    var base := person + "_" + activity;
    assert '/' !in base by {
      assert forall j :: 0 <= j < |base| ==> base[j] == (if j < |person| then person[j]
                                                          else if j == |person| then '_'
                                                          else activity[j - |person| - 1]);
    }
    StemOfCsvPath(dir, base);
    assert dir + "/" + person + "_" + activity + ".csv" == dir + "/" + base + ".csv";
    LabelAfterFirstUnderscore(person, activity);
  }

  /** A label may itself hold `_`: only the first one separates the person. */
  lemma LabelKeepsLaterUnderscores()
    ensures LabelFromStem("a_b_c") == "b_c"
  {
    assert "a_b_c" == "a" + "_" + "b_c";
    LabelAfterFirstUnderscore("a", "b_c");
  }

  /**
   * `load_csv_data`: one entry of data and one label per file, in the order the
   * files were listed, so the two lists line up.
   */
  method LoadCsvData<T>(files: seq<CsvFile<T>>) returns (allData: seq<seq<Row<T>>>, allLabels: seq<Label>)
    ensures |allData| == |files| && |allLabels| == |files|
    ensures forall i :: 0 <= i < |files| ==> allData[i] == files[i].rows && allLabels[i] == LabelOf(files[i].path)
  {
    allData, allLabels := [], [];
    for n := 0 to |files|
      invariant |allData| == n && |allLabels| == n
      invariant forall i :: 0 <= i < n ==> allData[i] == files[i].rows
      invariant forall i :: 0 <= i < n ==> allLabels[i] == LabelOf(files[i].path)
    {
      var fileLabel := LabelOf(files[n].path);
      allData := allData + [files[n].rows];
      allLabels := allLabels + [fileLabel];
    }
  }

  /** The windows of `ws` consecutive rows of a series, front to back; none when the series is shorter. */
  function SeriesWindows<T>(data: seq<Row<T>>, ws: nat): (r: seq<seq<Row<T>>>)
    requires ws >= 1
    ensures forall i :: 0 <= i < |r| ==> |r[i]| == ws
    decreases |data|
  {
    if |data| < ws then [] else [data[..ws]] + SeriesWindows(data[1..], ws)
  }

  /** A series of n rows yields n - ws + 1 windows when n >= ws, and window i is rows i .. i + ws - 1. */
  lemma {:induction false} SeriesWindowsAt<T>(data: seq<Row<T>>, ws: nat)
    requires ws >= 1
    ensures |SeriesWindows(data, ws)| == if |data| < ws then 0 else |data| - ws + 1
    ensures forall i :: 0 <= i < |SeriesWindows(data, ws)| ==> SeriesWindows(data, ws)[i] == data[i..i + ws]
    decreases |data|
  {
    if |data| >= ws {
      SeriesWindowsAt(data[1..], ws);
      var r := SeriesWindows(data, ws);
      forall i | 0 <= i < |r| ensures r[i] == data[i..i + ws] {
        if i > 0 {
          assert r[i] == SeriesWindows(data[1..], ws)[i - 1];
          assert data[1..][i - 1..i - 1 + ws] == data[i..i + ws];
        }
      }
    }
  }

  /** The model input of one window, shape (3, 25, 1). */
  type Tensor<T> = seq<seq<seq<T>>>

  /** `window.T.reshape(3, 25, 1)`: channel c, time step t holds column c of row t. */
  function Reshape<T>(window: seq<Row<T>>): Tensor<T>
    requires |window| == WindowSize
  {
    seq(Channels, c requires 0 <= c < Channels =>
      seq(|window|, t requires 0 <= t < |window| => [Column(window[t], c)]))
  }

  /** Whether `t` has the shape (3, n, 1). */
  ghost predicate HasShape<T>(t: Tensor<T>, n: nat)
  {
    |t| == Channels && forall c :: 0 <= c < Channels ==> |t[c]| == n && forall s :: 0 <= s < n ==> |t[c][s]| == 1
  }

  /** Reads the rows back out of a (3, n, 1) tensor: the transpose undone. */
  function Unreshape<T>(t: Tensor<T>, n: nat): seq<Row<T>>
    requires HasShape(t, n)
  {
    seq(n, s requires 0 <= s < n => Row(t[0][s][0], t[1][s][0], t[2][s][0]))
  }

  /** The reshaped window has shape (3, 25, 1), holds the transpose, and loses no row. */
  lemma ReshapeTransposes<T>(window: seq<Row<T>>)
    requires |window| == WindowSize
    ensures HasShape(Reshape(window), WindowSize)
    ensures forall c, s :: 0 <= c < Channels && 0 <= s < WindowSize ==> Reshape(window)[c][s][0] == Column(window[s], c)
    ensures Unreshape(Reshape(window), WindowSize) == window
  {
  }

  /** The pairs `zip(data_list, labels_list)` yields: as many as the shorter list has. */
  function Zip<T>(dataList: seq<seq<Row<T>>>, labelsList: seq<Label>): (z: seq<(seq<Row<T>>, Label)>)
    ensures |z| <= |dataList| && |z| <= |labelsList|
    ensures |z| == |dataList| || |z| == |labelsList|
  {
    var n := if |dataList| < |labelsList| then |dataList| else |labelsList|;
    seq(n, i requires 0 <= i < n => (dataList[i], labelsList[i]))
  }

  /** The inputs `create_windows` produces from the recordings `files`, file by file. */
  function WindowsX<T>(files: seq<(seq<Row<T>>, Label)>): seq<Tensor<T>>
  {
    if files == [] then []
    else
      var ws := SeriesWindows(files[|files| - 1].0, WindowSize);
      WindowsX(files[..|files| - 1]) + seq(|ws|, i requires 0 <= i < |ws| => Reshape(ws[i]))
  }

  /** The labels `create_windows` produces: each file's label once per window of that file. */
  function WindowsY<T>(files: seq<(seq<Row<T>>, Label)>): seq<Label>
  {
    if files == [] then []
    else
      var ws := SeriesWindows(files[|files| - 1].0, WindowSize);
      WindowsY(files[..|files| - 1]) + seq(|ws|, _ => files[|files| - 1].1)
  }

  /** How many windows a series of `n` rows yields. */
  function WindowCount(n: nat): nat
  {
    if n < WindowSize then 0 else n - WindowSize + 1
  }

  /** How many windows the files before position `k` yield: where file k's windows start. */
  function Offset<T>(files: seq<(seq<Row<T>>, Label)>, k: nat): nat
    requires k <= |files|
  {
    if k == 0 then 0 else Offset(files, k - 1) + WindowCount(|files[k - 1].0|)
  }

  /** Offsets depend only on the files before the position. */
  lemma {:induction false} OffsetOfPrefix<T>(files: seq<(seq<Row<T>>, Label)>, m: nat, k: nat)
    requires k <= m <= |files|
    ensures Offset(files[..m], k) == Offset(files, k)
    decreases k
  {
    if k > 0 {
      OffsetOfPrefix(files, m, k - 1);
      assert files[..m][k - 1] == files[k - 1];
    }
  }

  /** Later files start later. */
  lemma {:induction false} OffsetMonotone<T>(files: seq<(seq<Row<T>>, Label)>, j: nat, k: nat)
    requires j <= k <= |files|
    ensures Offset(files, j) <= Offset(files, k)
    decreases k
  {
    if j < k {
      OffsetMonotone(files, j, k - 1);
    }
  }

  /** Both outputs hold one entry per window of every file: their lengths agree. */
  lemma {:induction false} WindowsLength<T>(files: seq<(seq<Row<T>>, Label)>)
    ensures |WindowsX(files)| == Offset(files, |files|) && |WindowsY(files)| == Offset(files, |files|)
  {
    if files != [] {
      var n := |files| - 1;
      WindowsLength(files[..n]);
      SeriesWindowsAt(files[n].0, WindowSize);
      OffsetOfPrefix(files, n, n);
    }
  }

  /**
   * The outputs line up: the windows of file k sit from position Offset(k) on,
   * window i of file k is its rows i .. i + 24 transposed, and its label is file k's.
   */
  lemma {:induction false} WindowOfFile<T>(files: seq<(seq<Row<T>>, Label)>, k: nat, i: nat)
    requires k < |files| && i < WindowCount(|files[k].0|)
    ensures i + WindowSize <= |files[k].0|
    ensures Offset(files, k) + i < |WindowsX(files)| && Offset(files, k) + i < |WindowsY(files)|
    ensures WindowsX(files)[Offset(files, k) + i] == Reshape(files[k].0[i..i + WindowSize])
    ensures WindowsY(files)[Offset(files, k) + i] == files[k].1
  {
    var n := |files| - 1;
    var init := files[..n];
    WindowsLength(files);
    WindowsLength(init);
    OffsetOfPrefix(files, n, n);
    OffsetMonotone(files, k + 1, n + 1);
    if k < n {
      WindowOfFile(init, k, i);
      OffsetOfPrefix(files, n, k);
    } else {
      SeriesWindowsAt(files[n].0, WindowSize);
    }
  }

  /**
   * `create_windows` with `window_size == 25`: for every (series, label) pair of the
   * zip, every window of 25 consecutive rows transposed to (3, 25, 1), with the label
   * repeated once per window; series shorter than 25 rows are skipped.
   */
  method CreateWindows<T>(dataList: seq<seq<Row<T>>>, labelsList: seq<Label>, windowSize: nat)
    returns (xWindows: seq<Tensor<T>>, yWindows: seq<Label>)
    requires windowSize == WindowSize
    ensures xWindows == WindowsX(Zip(dataList, labelsList))
    ensures yWindows == WindowsY(Zip(dataList, labelsList))
    ensures |xWindows| == |yWindows|
  {
    var pairs := Zip(dataList, labelsList);
    xWindows, yWindows := [], [];
    for k := 0 to |pairs|
      invariant xWindows == WindowsX(pairs[..k]) && yWindows == WindowsY(pairs[..k])
    {
      var (data, fileLabel) := pairs[k];
      assert pairs[..k + 1][..k] == pairs[..k];
      ghost var ws := SeriesWindows(data, windowSize);
      SeriesWindowsAt(data, windowSize);
      if |data| < windowSize {
        continue;
      }
      ghost var xBefore, yBefore := xWindows, yWindows;
      for i := 0 to |data| - windowSize + 1
        invariant xWindows == xBefore + seq(i, j requires 0 <= j < i => Reshape(ws[j]))
        invariant yWindows == yBefore + seq(i, _ => fileLabel)
      {
        var window := data[i..i + windowSize];
        var windowReshaped := Reshape(window);
        xWindows := xWindows + [windowReshaped];
        yWindows := yWindows + [fileLabel];
      }
    }
    assert pairs[..|pairs|] == pairs;
    WindowsLength(pairs);
  }
}
