/** The two half-cell loaders (`add_half_cell_data`): list a directory,
    keep the `.txt` files, split each into an x and a y column, turn a
    strictly decreasing x column (and its y column with it) around, and
    file the curve in an insertion-ordered dictionary.

    One loader numbers the files 1, 2, ... in listing order; the other
    keys each curve by its file name without the extension, taken from a
    directory resolved against the working directory.

    Reading the bytes of a file and parsing its numbers is left out: a
    file is given by the numbers of each of its lines. The interpolant the
    source stores next to `x_values` is the spline through the oriented
    samples, so a curve keeps those samples. */
module HalfCells {
  import opened Outcomes
  import opened OrderedDict

  /** A half-cell curve: its x samples (`x_values`) and the y samples its
      interpolant was built from. */
  datatype Curve = Curve(xs: seq<real>, ys: seq<real>)

  /** One loaded dataset: `{'ID_number': ..., 'x_values': ..., 'interpolated_function': ...}`. */
  datatype Dataset<Id> = Dataset(idNumber: Id, curve: Curve)

  /** A directory entry: its name and the numbers on each of its lines. */
  datatype FileEntry = FileEntry(name: string, rows: seq<seq<real>>)

  /** The directories that exist, each with its listing in `os.listdir` order. */
  type FileSystem = map<string, seq<FileEntry>>

  predicate EndsWith(s: string, suffix: string) {
    |suffix| <= |s| && s[|s| - |suffix|..] == suffix
  }

  /** `name.endswith('.txt')`. */
  predicate IsTxt(name: string) {
    EndsWith(name, ".txt")
  }

  /** `[f for f in os.listdir(path) if f.endswith('.txt')]`. */
  function TxtFiles(files: seq<FileEntry>): (r: seq<FileEntry>)
    ensures |r| <= |files|
    ensures forall i :: 0 <= i < |r| ==> IsTxt(r[i].name)
    ensures forall f :: f in r <==> f in files && IsTxt(f.name)
  {
    if |files| == 0 then []
    else (if IsTxt(files[0].name) then [files[0]] else []) + TxtFiles(files[1..])
  }

  /** Filtering a listing split in two filters each part and joins the
      results, so the kept names stay in listing order. */
  lemma {:induction false} TxtFilesConcat(a: seq<FileEntry>, b: seq<FileEntry>)
    ensures TxtFiles(a + b) == TxtFiles(a) + TxtFiles(b)
  {
    if |a| > 0 {
      assert (a + b)[1..] == a[1..] + b;
      TxtFilesConcat(a[1..], b);
    } else {
      assert a + b == b;
    }
  }

  /** The number of tuples `zip(*rows)` yields: the length of the shortest row. */
  function Width(rows: seq<seq<real>>): (w: nat)
    requires |rows| > 0
    ensures forall i :: 0 <= i < |rows| ==> w <= |rows[i]|
    ensures exists i :: 0 <= i < |rows| && |rows[i]| == w
  {
    if |rows| == 1 then |rows[0]|
    else
      var rest := Width(rows[1..]);
      if |rows[0]| <= rest then |rows[0]| else rest
  }

  /** The rows zip into exactly two columns: there is at least one row,
      every row has two numbers or more, and some row has exactly two. */
  predicate TwoColumns(rows: seq<seq<real>>) {
    && |rows| > 0
    && (forall i :: 0 <= i < |rows| ==> 2 <= |rows[i]|)
    && (exists i :: 0 <= i < |rows| && |rows[i]| == 2)
  }

  /** Column `k` of rows that all have more than `k` numbers. */
  function Column(rows: seq<seq<real>>, k: nat): (c: seq<real>)
    requires forall i :: 0 <= i < |rows| ==> k < |rows[i]|
    ensures |c| == |rows|
    ensures forall i :: 0 <= i < |rows| ==> c[i] == rows[i][k]
  {
    seq(|rows|, i requires 0 <= i < |rows| => rows[i][k])
  }

  /** `x_values, y_values = zip(*rows)`: the first and second number of
      every line, or the `ValueError` of an unpacking that does not yield
      exactly two columns. */
  function Columns(file: FileEntry): (r: Result<Curve>)
    ensures r.Ok? <==> TwoColumns(file.rows)
    ensures r.Err? ==> r.error == NotTwoColumns(file.name)
    ensures r.Ok? ==> r.value == Curve(Column(file.rows, 0), Column(file.rows, 1))
  {
    var rows := file.rows;
    if |rows| == 0 || Width(rows) != 2 then Err(NotTwoColumns(file.name))
    else Ok(Curve(Column(rows, 0), Column(rows, 1)))
  }

  /** `all(x > y for x, y in zip(xs, xs[1:]))`; true of every sequence of
      fewer than two samples. */
  predicate StrictlyDecreasing(xs: seq<real>) {
    forall i :: 0 <= i < |xs| - 1 ==> xs[i] > xs[i + 1]
  }

  predicate StrictlyIncreasing(xs: seq<real>) {
    forall i :: 0 <= i < |xs| - 1 ==> xs[i] < xs[i + 1]
  }

  /** `s[::-1]`. */
  function Reverse<T>(s: seq<T>): (r: seq<T>)
    ensures |r| == |s|
    ensures forall i :: 0 <= i < |s| ==> r[i] == s[|s| - 1 - i]
  {
    seq(|s|, i requires 0 <= i < |s| => s[|s| - 1 - i])
  }

  /** The (x, y) sample pairs of a curve. */
  function Pairs(c: Curve): (r: seq<(real, real)>)
    requires |c.xs| == |c.ys|
    ensures |r| == |c.xs|
    ensures forall i :: 0 <= i < |c.xs| ==> r[i] == (c.xs[i], c.ys[i])
  {
    seq(|c.xs|, i requires 0 <= i < |c.xs| => (c.xs[i], c.ys[i]))
  }

  /** Reversing a sequence keeps its elements and their multiplicities. */
  lemma {:induction false} ReversePermutes<T>(s: seq<T>)
    ensures multiset(Reverse(s)) == multiset(s)
  {
    if |s| > 0 {
      ReversePermutes(s[1..]);
      assert Reverse(s) == Reverse(s[1..]) + [s[0]];
      assert s == [s[0]] + s[1..];
    }
  }

  /** Reversing a strictly decreasing sequence makes it strictly increasing. */
  lemma ReverseOfDecreasing(xs: seq<real>)
    requires StrictlyDecreasing(xs)
    ensures StrictlyIncreasing(Reverse(xs))
  {
    var r := Reverse(xs);
    forall i | 0 <= i < |xs| - 1
      ensures r[i] < r[i + 1]
    {
      assert r[i] == xs[|xs| - 1 - i] && r[i + 1] == xs[|xs| - 1 - (i + 1)];
    }
  }

  /** A strictly decreasing x column is reversed together with its y
      column; any other curve is kept as it is. */
  function Orient(c: Curve): (r: Curve)
    requires |c.xs| == |c.ys|
    ensures |r.xs| == |c.xs| && |r.ys| == |c.ys|
    ensures StrictlyDecreasing(c.xs) ==> StrictlyIncreasing(r.xs)
    ensures StrictlyDecreasing(c.xs) ==> forall i :: 0 <= i < |c.xs| ==>
      r.xs[i] == c.xs[|c.xs| - 1 - i] && r.ys[i] == c.ys[|c.xs| - 1 - i]
    ensures !StrictlyDecreasing(c.xs) ==> r == c
  {
    if StrictlyDecreasing(c.xs) then
      ReverseOfDecreasing(c.xs);
      Curve(Reverse(c.xs), Reverse(c.ys))
    else c
  }

  /** Orienting keeps every (x, y) pair intact: the oriented pairs are the
      original pairs, each as often as before. */
  lemma OrientKeepsPairs(c: Curve)
    requires |c.xs| == |c.ys|
    ensures multiset(Pairs(Orient(c))) == multiset(Pairs(c))
  {
    if StrictlyDecreasing(c.xs) {
      assert Pairs(Orient(c)) == Reverse(Pairs(c));
      ReversePermutes(Pairs(c));
    }
  }

  /** Orienting an oriented curve changes nothing more. */
  lemma OrientIdempotent(c: Curve)
    requires |c.xs| == |c.ys|
    ensures Orient(Orient(c)) == Orient(c)
  {
    var r := Orient(c);
    if StrictlyDecreasing(c.xs) {
      if |c.xs| >= 2 {
        assert r.xs[0] < r.xs[1];
      } else {
        assert r.xs == c.xs && r.ys == c.ys;
      }
    }
  }

  /** One `.txt` file turned into an oriented curve. */
  function ReadCurve(file: FileEntry): (r: Result<Curve>)
    ensures r.Ok? <==> TwoColumns(file.rows)
    ensures r.Err? ==> r.error == NotTwoColumns(file.name)
  {
    match Columns(file)
    case Err(e) => Err(e)
    case Ok(c) => Ok(Orient(c))
  }

  /** The stored `x_values` and the samples of the interpolant are the
      file's first and second columns, both read bottom-up when the first
      column strictly decreases and top-down otherwise. */
  lemma ReadCurveColumns(file: FileEntry)
    requires TwoColumns(file.rows)
    ensures var n, r := |file.rows|, ReadCurve(file);
      && r.Ok? && |r.value.xs| == n && |r.value.ys| == n
      && (StrictlyDecreasing(Column(file.rows, 0)) ==> forall i :: 0 <= i < n ==>
            r.value.xs[i] == file.rows[n - 1 - i][0] && r.value.ys[i] == file.rows[n - 1 - i][1])
      && (!StrictlyDecreasing(Column(file.rows, 0)) ==> forall i :: 0 <= i < n ==>
            r.value.xs[i] == file.rows[i][0] && r.value.ys[i] == file.rows[i][1])
  {
    var c := Columns(file).value;
    assert forall i :: 0 <= i < |file.rows| ==> c.xs[i] == file.rows[i][0] && c.ys[i] == file.rows[i][1];
  }

  /** Every listed `.txt` file zips into two columns. */
  predicate AllReadable(txt: seq<FileEntry>) {
    forall i :: 0 <= i < |txt| ==> ReadCurve(txt[i]).Ok?
  }

  /** File `i` is the first one that cannot be read, failing with `e`. */
  predicate FirstFailure(txt: seq<FileEntry>, i: int, e: Error) {
    && 0 <= i < |txt|
    && ReadCurve(txt[i]) == Err(e)
    && forall j :: 0 <= j < i ==> ReadCurve(txt[j]).Ok?
  }

  /** The first unreadable file after a readable prefix is the first failure. */
  lemma FailsAt(txt: seq<FileEntry>, i: int)
    requires 0 <= i < |txt| && AllReadable(txt[..i]) && ReadCurve(txt[i]).Err?
    ensures FirstFailure(txt, i, ReadCurve(txt[i]).error)
  {
    assert forall j :: 0 <= j < i ==> txt[..i][j] == txt[j];
  }

  /** `d` holds the first `i` files numbered 1, 2, ... in listing order. */
  ghost predicate NumberedUpTo(txt: seq<FileEntry>, i: int, d: Dict<int, Dataset<int>>)
    requires 0 <= i <= |txt|
  {
    && AllReadable(txt[..i])
    && |d| == i && DistinctKeys(d)
    && forall j :: 0 <= j < i ==> d[j] == Entry(j + 1, Dataset(j + 1, ReadCurve(txt[j]).value))
  }

  /** Filing one more readable file under the next number. */
  lemma NumberAdvance(txt: seq<FileEntry>, i: int, d: Dict<int, Dataset<int>>)
    requires 0 <= i < |txt| && NumberedUpTo(txt, i, d) && ReadCurve(txt[i]).Ok?
    ensures NumberedUpTo(txt, i + 1, Put(d, i + 1, Dataset(i + 1, ReadCurve(txt[i]).value)))
  {
    assert !HasKey(d, i + 1);
    var d' := Put(d, i + 1, Dataset(i + 1, ReadCurve(txt[i]).value));
    assert d' == d + [Entry(i + 1, Dataset(i + 1, ReadCurve(txt[i]).value))];
    var prefix := txt[..i + 1];
    forall j | 0 <= j < i + 1
      ensures ReadCurve(prefix[j]).Ok?
    {
      if j < i {
        assert prefix[j] == txt[..i][j];
      }
    }
  }

  /** The numbered dictionary built from the listed `.txt` files. */
  method NumberFiles(txt: seq<FileEntry>) returns (r: Result<Dict<int, Dataset<int>>>)
    ensures r.Ok? <==> AllReadable(txt)
    ensures r.Err? ==> exists i :: FirstFailure(txt, i, r.error)
    ensures r.Ok? ==> DistinctKeys(r.value) && |r.value| == |txt|
    ensures r.Ok? ==> forall i :: 0 <= i < |txt| ==>
      r.value[i] == Entry(i + 1, Dataset(i + 1, ReadCurve(txt[i]).value))
  {
    var d: Dict<int, Dataset<int>> := [];
    var i := 0;
    while i < |txt|
      invariant 0 <= i <= |txt|
      invariant NumberedUpTo(txt, i, d)
    {
      var rc := ReadCurve(txt[i]);
      if rc.Err? {
        FailsAt(txt, i);
        return Err(rc.error);
      }
      NumberAdvance(txt, i, d);
      d := Put(d, i + 1, Dataset(i + 1, rc.value));
      i := i + 1;
    }
    assert txt[..i] == txt;
    return Ok(d);
  }

  /** `add_half_cell_data(folder_path)` of the package loader: curves keyed
      1, 2, ... in the order the `.txt` files are listed. */
  method LoadNumbered(fs: FileSystem, folder: string) returns (r: Result<Dict<int, Dataset<int>>>)
    ensures folder !in fs ==> r == Err(FolderNotFound(folder))
    ensures folder in fs ==> (r.Ok? <==> AllReadable(TxtFiles(fs[folder])))
    ensures folder in fs && r.Err? ==>
      exists i :: FirstFailure(TxtFiles(fs[folder]), i, r.error)
    ensures r.Ok? ==> folder in fs && DistinctKeys(r.value)
    ensures r.Ok? ==> |r.value| == |TxtFiles(fs[folder])|
    ensures r.Ok? ==> forall i :: 0 <= i < |r.value| ==>
      r.value[i] == Entry(i + 1, Dataset(i + 1, ReadCurve(TxtFiles(fs[folder])[i]).value))
  {
    if folder !in fs {
      return Err(FolderNotFound(folder));
    }
    r := NumberFiles(TxtFiles(fs[folder]));
  }

  /** The index of the last `'.'` in `s`. */
  function LastDot(s: string): (r: Option<nat>)
    ensures r.None? ==> forall j :: 0 <= j < |s| ==> s[j] != '.'
    ensures r.Some? ==> r.value < |s| && s[r.value] == '.'
    ensures r.Some? ==> forall j :: r.value < j < |s| ==> s[j] != '.'
  {
    if |s| == 0 then None
    else if s[|s| - 1] == '.' then Some(|s| - 1)
    else LastDot(s[..|s| - 1])
  }

  /** `os.path.splitext(name)[0]` for a bare file name: the name up to its
      last dot, unless only dots come before that dot (a leading-dot name
      such as `.txt` has no extension). */
  function Stem(name: string): string {
    match LastDot(name)
    case None => name
    case Some(p) =>
      if exists i :: 0 <= i < p && name[i] != '.' then name[..p] else name
  }

  /** The stem of a `.txt` name drops the `.txt`, unless everything before
      it is dots. */
  lemma TxtStem(name: string)
    requires IsTxt(name)
    ensures (exists i :: 0 <= i < |name| - 4 && name[i] != '.') ==> Stem(name) + ".txt" == name
    ensures (forall i :: 0 <= i < |name| - 4 ==> name[i] == '.') ==> Stem(name) == name
  {
    var p := |name| - 4;
    assert name[p..] == ".txt";
    assert name[p] == '.' && name[p + 1] != '.' && name[p + 2] != '.' && name[p + 3] != '.';
    assert LastDot(name) == Some(p);
    if exists i :: 0 <= i < p && name[i] != '.' {
      assert Stem(name) == name[..p];
      assert name == name[..p] + name[p..];
    }
  }

  /** Two different `.txt` names with something besides dots before the
      extension have different stems, so they become different keys. */
  lemma StemInjective(a: string, b: string)
    requires IsTxt(a) && IsTxt(b) && a != b
    requires exists i :: 0 <= i < |a| - 4 && a[i] != '.'
    requires exists i :: 0 <= i < |b| - 4 && b[i] != '.'
    ensures Stem(a) != Stem(b)
  {
    TxtStem(a);
    TxtStem(b);
  }

  /** `..txt` and `..txt.txt` are both `.txt` files with the stem `..txt`:
      the second overwrites the first, so the name-keyed dictionary can
      hold fewer entries than there are `.txt` files. */
  lemma StemsCanCollide()
    ensures IsTxt("..txt") && IsTxt("..txt.txt")
    ensures Stem("..txt") == Stem("..txt.txt") == "..txt"
  {
    TxtStem("..txt");
    assert "..txt.txt"[2] != '.';
    TxtStem("..txt.txt");
    assert "..txt" + ".txt" == "..txt.txt";
  }

  /** `os.path.join(a, b)` on POSIX paths: an absolute `b` replaces `a`;
      otherwise a separator is inserted unless `a` is empty or ends with one. */
  function Join(a: string, b: string): (r: string)
    ensures |b| > 0 && b[0] == '/' ==> r == b
    ensures !(|b| > 0 && b[0] == '/') ==> EndsWith(r, b) && |r| >= |a| + |b| && r[..|a|] == a
  {
    if |b| > 0 && b[0] == '/' then b
    else if |a| == 0 || a[|a| - 1] == '/' then a + b
    else a + "/" + b
  }

  /** The stem of every listed file, in listing order. */
  function Stems(txt: seq<FileEntry>): (r: seq<string>)
    ensures |r| == |txt|
    ensures forall j :: 0 <= j < |txt| ==> r[j] == Stem(txt[j].name)
  {
    seq(|txt|, j requires 0 <= j < |txt| => Stem(txt[j].name))
  }

  /** The dataset each readable file becomes under its stem. */
  function NamedSets(txt: seq<FileEntry>): (r: seq<Dataset<string>>)
    requires AllReadable(txt)
    ensures |r| == |txt|
    ensures forall j :: 0 <= j < |txt| ==> r[j] == Dataset(Stem(txt[j].name), ReadCurve(txt[j]).value)
  {
    seq(|txt|, j requires 0 <= j < |txt| => Dataset(Stem(txt[j].name), ReadCurve(txt[j]).value))
  }

  /** Reading one more file extends the stems and datasets by that file's. */
  lemma NamedSnoc(txt: seq<FileEntry>, i: int)
    requires 0 <= i < |txt| && AllReadable(txt[..i]) && ReadCurve(txt[i]).Ok?
    ensures AllReadable(txt[..i + 1])
    ensures Stems(txt[..i + 1]) == Stems(txt[..i]) + [Stem(txt[i].name)]
    ensures NamedSets(txt[..i + 1]) == NamedSets(txt[..i]) + [Dataset(Stem(txt[i].name), ReadCurve(txt[i]).value)]
  {
    var p, q := txt[..i], txt[..i + 1];
    assert q == p + [txt[i]];
    forall j | 0 <= j < i + 1
      ensures ReadCurve(q[j]).Ok?
    {
      if j < i {
        assert q[j] == p[j];
      }
    }
    assert Stems(q) == Stems(p) + [Stem(txt[i].name)];
  }

  /** The first `i` files are readable and `d` is what filing them under
      their stems leaves. */
  ghost predicate NamedUpTo(txt: seq<FileEntry>, i: int, d: Dict<string, Dataset<string>>)
    requires 0 <= i <= |txt|
  {
    AllReadable(txt[..i]) && Assigned(Stems(txt[..i]), NamedSets(txt[..i]), d)
  }

  /** Filing one more readable file under its stem keeps the dictionary
      described by the files read so far. */
  lemma NameAdvance(txt: seq<FileEntry>, i: int, d: Dict<string, Dataset<string>>)
    requires 0 <= i < |txt| && NamedUpTo(txt, i, d) && ReadCurve(txt[i]).Ok?
    ensures NamedUpTo(txt, i + 1, Put(d, Stem(txt[i].name), Dataset(Stem(txt[i].name), ReadCurve(txt[i]).value)))
  {
    var key := Stem(txt[i].name);
    NamedSnoc(txt, i);
    AssignStep(Stems(txt[..i]), NamedSets(txt[..i]), d, key, Dataset(key, ReadCurve(txt[i]).value));
  }

  /** The name-keyed dictionary built from the listed `.txt` files. */
  method NameFiles(txt: seq<FileEntry>) returns (r: Result<Dict<string, Dataset<string>>>)
    ensures r.Ok? <==> AllReadable(txt)
    ensures r.Err? ==> exists i :: FirstFailure(txt, i, r.error)
    ensures r.Ok? ==> AllReadable(txt) && Assigned(Stems(txt), NamedSets(txt), r.value)
  {
    var d: Dict<string, Dataset<string>> := [];
    var i := 0;
    AssignedNothing<string, Dataset<string>>();
    while i < |txt|
      invariant 0 <= i <= |txt|
      invariant NamedUpTo(txt, i, d)
    {
      var rc := ReadCurve(txt[i]);
      if rc.Err? {
        FailsAt(txt, i);
        return Err(rc.error);
      }
      NameAdvance(txt, i, d);
      d := Put(d, Stem(txt[i].name), Dataset(Stem(txt[i].name), rc.value));
      i := i + 1;
    }
    assert txt[..i] == txt;
    return Ok(d);
  }

  /** `add_half_cell_data(directory_name)` of the GUI loader: the directory
      is `os.path.join(os.getcwd(), directory_name)` and every curve is
      keyed by its file name without the extension. A later file whose
      stem is already a key overwrites that entry in place, so the result
      is what assigning the files' datasets to their stems in listing
      order leaves, and each dataset's `ID_number` is its key. */
  method LoadNamed(fs: FileSystem, cwd: string, directory: string)
    returns (r: Result<Dict<string, Dataset<string>>>)
    ensures Join(cwd, directory) !in fs ==> r == Err(FolderNotFound(Join(cwd, directory)))
    ensures Join(cwd, directory) in fs ==>
      (r.Ok? <==> AllReadable(TxtFiles(fs[Join(cwd, directory)])))
    ensures Join(cwd, directory) in fs && r.Err? ==>
      exists i :: FirstFailure(TxtFiles(fs[Join(cwd, directory)]), i, r.error)
    ensures r.Ok? ==> Join(cwd, directory) in fs && AllReadable(TxtFiles(fs[Join(cwd, directory)]))
    ensures r.Ok? ==>
      var txt := TxtFiles(fs[Join(cwd, directory)]);
      AllReadable(txt) && Assigned(Stems(txt), NamedSets(txt), r.value)
    ensures r.Ok? ==> forall e :: 0 <= e < |r.value| ==> r.value[e].value.idNumber == r.value[e].key
  {
    var path := Join(cwd, directory);
    if path !in fs {
      return Err(FolderNotFound(path));
    }
    var txt := TxtFiles(fs[path]);
    r := NameFiles(txt);
    if r.Ok? {
      forall e | 0 <= e < |r.value|
        ensures r.value[e].value.idNumber == r.value[e].key
      {
        var j :| 0 <= j < |txt| && r.value[e] == Entry(Stems(txt)[j], NamedSets(txt)[j]);
      }
    }
  }
}
