/**
 * Path-name helpers used by the converter: `os.path.splitext` and
 * `os.path.join` on POSIX (separator '/', extension separator '.'), and the
 * destination name that `Ui.convert` builds from a source entry.
 */
module PathNames {

  /** The pair returned by `os.path.splitext`: `root + ext` is the whole path. */
  datatype Split = Split(root: string, ext: string)

  /** Index of the last occurrence of `c` in `s`, or -1 when there is none (`str.rfind`). */
  function LastIndex(s: string, c: char): (r: int)
    ensures -1 <= r < |s|
    ensures 0 <= r ==> s[r] == c
    ensures forall k :: r < k < |s| ==> s[k] != c
  {
    if s == [] then -1
    else if s[|s| - 1] == c then |s| - 1
    else LastIndex(s[..|s| - 1], c)
  }

  /**
   * `s` has a base name: its last path component (what follows its last '/')
   * holds a character that is not a dot.
   */
  ghost predicate HasBaseName(s: string)
  {
    exists k :: 0 <= k < |s| && s[k] != '.' && s[k] != '/' && NoSlashAfter(s, k)
  }

  ghost predicate NoSlashAfter(s: string, k: int)
  {
    forall j :: k < j < |s| && 0 <= j ==> s[j] != '/'
  }

  /**
   * Position `i` of `p` starts its extension: a dot, followed only by
   * characters that are neither dots nor separators, and preceded by a
   * base name (leading dots of a file name do not start an extension).
   */
  ghost predicate IsExtStart(p: string, i: int)
  {
    && 0 <= i < |p|
    && p[i] == '.'
    && (forall k :: i < k < |p| ==> p[k] != '.' && p[k] != '/')
    && HasBaseName(p[..i])
  }

  /**
   * `os.path.splitext(p)`: split at the last dot when it lies after the last
   * separator and some non-dot character of the file name precedes it;
   * otherwise the extension is empty.
   */
  function SplitExt(p: string): (r: Split)
    ensures r.root + r.ext == p
    ensures r.ext == [] || (r.ext[0] == '.' && forall k :: 0 < k < |r.ext| ==> r.ext[k] != '.' && r.ext[k] != '/')
  {
    var sep := LastIndex(p, '/');
    var dot := LastIndex(p, '.');
    if dot > sep && exists k :: sep + 1 <= k < dot && p[k] != '.' then
      Split(p[..dot], p[dot..])
    else
      Split(p, [])
  }

  /**
   * The split is the only one that Python's definition allows: the extension
   * is non-empty exactly when some position starts an extension, and then it
   * starts at that position (which is unique).
   */
  lemma SplitExtSpec(p: string)
    ensures forall i :: IsExtStart(p, i) <==> (SplitExt(p).ext != [] && i == |SplitExt(p).root|)
  {
    var sep := LastIndex(p, '/');
    var dot := LastIndex(p, '.');
    var r := SplitExt(p);
    forall i | IsExtStart(p, i)
      ensures r.ext != [] && i == |r.root|
    {
      assert i == dot;
      var k :| 0 <= k < |p[..i]| && p[..i][k] != '.' && p[..i][k] != '/' && NoSlashAfter(p[..i], k);
      assert p[k] != '/';
      assert sep < k;
      assert sep + 1 <= k < dot && p[k] != '.';
    }
    if r.ext != [] {
      assert |r.root| == dot;
      var k :| sep + 1 <= k < dot && p[k] != '.';
      assert p[..dot][k] != '/';
      assert NoSlashAfter(p[..dot], k);
      assert HasBaseName(p[..dot]);
      assert IsExtStart(p, dot);
    }
  }

  /**
   * `os.path.join(a, b)` for two components on POSIX: an absolute `b`
   * replaces `a`; otherwise a '/' is put between them unless `a` is empty or
   * already ends in one.
   */
  function Join(a: string, b: string): (r: string)
    ensures |r| >= |b| && r[|r| - |b|..] == b
    ensures |b| > 0 && b[0] == '/' ==> r == b
    ensures !(|b| > 0 && b[0] == '/') ==> |r| >= |a| + |b| && r[..|a|] == a && |r| <= |a| + 1 + |b|
    ensures !(|b| > 0 && b[0] == '/') && a == [] ==> r == b
    ensures !(|b| > 0 && b[0] == '/') && a != [] ==> r[|r| - |b| - 1] == '/'
    ensures !(|b| > 0 && b[0] == '/') && a != [] && a[|a| - 1] == '/' ==> r == a + b
  {
    if |b| > 0 && b[0] == '/' then b
    else if a == [] || a[|a| - 1] == '/' then a + b
    else a + "/" + b
  }

  /** The output file name of `Ui.convert`: the entry's last extension replaced by ".mp3". */
  function DestinationName(entry: string): (r: string)
    ensures |r| >= 4 && r[|r| - 4..] == ".mp3"
    ensures r[..|r| - 4] <= entry
    ensures SplitExt(entry).ext == [] ==> r == entry + ".mp3"
    ensures '/' !in entry ==> '/' !in r
  {
    var root := SplitExt(entry).root;
    var r := root + ".mp3";
    assert r[..|root|] == root && r[|root|..] == ".mp3";
    assert root <= entry;
    r
  }

  /**
   * The output path of `Ui.convert`: the destination name inside the output
   * directory. For an entry without separators (as `os.listdir` returns) and
   * a directory not ending in '/', it is the directory, one '/' and the
   * destination name.
   */
  function OutputPath(outputDir: string, entry: string): (r: string)
    ensures |r| >= 4 && r[|r| - 4..] == ".mp3"
    ensures '/' !in entry && outputDir != [] && outputDir[|outputDir| - 1] != '/' ==>
      r == outputDir + "/" + DestinationName(entry)
    ensures '/' !in entry && outputDir == [] ==> r == DestinationName(entry)
  {
    var name := DestinationName(entry);
    var r := Join(outputDir, name);
    assert r[|r| - 4..] == r[|r| - |name|..][|name| - 4..];
    r
  }

  /**
   * The input path of `Ui.convert`: the entry inside the chosen directory.
   * For an entry without separators and a directory not ending in '/', it is
   * the directory, one '/' and the entry.
   */
  function InputPath(directory: string, entry: string): (r: string)
    ensures |r| >= |entry| && r[|r| - |entry|..] == entry
    ensures '/' !in entry && directory != [] && directory[|directory| - 1] != '/' ==>
      r == directory + "/" + entry
    ensures '/' !in entry && directory == [] ==> r == entry
  {
    Join(directory, entry)
  }

  /** A non-empty extension is always preceded by a base name. */
  lemma ExtensionHasBaseName(p: string)
    requires SplitExt(p).ext != []
    ensures HasBaseName(SplitExt(p).root)
  {
    SplitExtSpec(p);
    assert IsExtStart(p, |SplitExt(p).root|);
    assert p[..|SplitExt(p).root|] == SplitExt(p).root;
  }

  /**
   * Only the last extension is replaced: when the entry's root has a base
   * name, splitting the destination name gives back the entry's root and the
   * extension ".mp3".
   */
  lemma DestinationReplacesExtension(entry: string)
    requires HasBaseName(SplitExt(entry).root)
    ensures SplitExt(DestinationName(entry)) == Split(SplitExt(entry).root, ".mp3")
  {
    var root := SplitExt(entry).root;
    var dest := DestinationName(entry);
    assert dest[..|root|] == root;
    forall k | |root| < k < |dest|
      ensures dest[k] != '.' && dest[k] != '/'
    {
      assert dest[k] == "mp3"[k - |root| - 1];
    }
    assert IsExtStart(dest, |root|);
    SplitExtSpec(dest);
    var r := SplitExt(dest);
    assert |r.root| == |root|;
    assert r.root == dest[..|root|];
    assert r.ext == dest[|root|..];
  }

  /**
   * The base-name condition is needed: for a name made only of dots (such as
   * ".." or "") the destination name gets no extension at all.
   */
  lemma DotOnlyEntryDestination(entry: string)
    requires forall k :: 0 <= k < |entry| ==> entry[k] == '.'
    ensures DestinationName(entry) == entry + ".mp3"
    ensures SplitExt(DestinationName(entry)).ext == []
  {
    SplitExtSpec(entry);
    var dest := DestinationName(entry);
    assert dest[..|entry|] == entry;
    assert dest[|entry|] == '.';
    SplitExtSpec(dest);
    assert !IsExtStart(dest, |entry|);
  }
}
