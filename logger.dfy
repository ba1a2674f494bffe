/**
 * The log store of gmail_attachment_extractor/logger.py: TxtLogger and
 * CsvLogger normalise the path's suffix, append to the file and read it
 * back. The file system is an in-memory map from path to contents plus the
 * set of existing directories.
 */
module Logger {
  import opened Wrappers

  const TxtSuffix := ".txt"
  const CsvSuffix := ".csv"

  // ---------------------------------------------------------------------
  // Path normalisation
  // ---------------------------------------------------------------------

  predicate EndsWith(s: string, suffix: string)
  {
    |suffix| <= |s| && s[|s| - |suffix|..] == suffix
  }

  /** The path with `suffix` added, unless it already ends with it; the path itself is kept as a prefix. */
  function WithSuffix(path: string, suffix: string): (r: string)
    ensures EndsWith(r, suffix)
    ensures |path| <= |r| && r[..|path|] == path
  {
    if EndsWith(path, suffix) then path else path + suffix
  }

  function TxtPath(path: string): string { WithSuffix(path, TxtSuffix) }

  function CsvPath(path: string): string { WithSuffix(path, CsvSuffix) }

  /**
   * A path is left alone exactly when it already ends with the suffix;
   * otherwise the suffix is appended once.
   */
  lemma {:induction false} SuffixAddedOnlyWhenMissing(path: string, suffix: string)
    ensures WithSuffix(path, suffix) == path <==> EndsWith(path, suffix)
    ensures !EndsWith(path, suffix) ==> WithSuffix(path, suffix) == path + suffix
  {
    if !EndsWith(path, suffix) {
      assert |WithSuffix(path, suffix)| == |path| + |suffix|;
    }
  }

  /** Normalising twice is normalising once. */
  lemma {:induction false} WithSuffixIdempotent(path: string, suffix: string)
    ensures WithSuffix(WithSuffix(path, suffix), suffix) == WithSuffix(path, suffix)
  {
  }

  /** A path without the suffix and the same path with it name the same file. */
  lemma {:induction false} SuffixedPathSameFile(path: string, suffix: string)
    requires !EndsWith(path, suffix)
    ensures WithSuffix(path + suffix, suffix) == WithSuffix(path, suffix)
  {
    assert EndsWith(path + suffix, suffix) by {
      assert (path + suffix)[|path + suffix| - |suffix|..] == suffix;
    }
  }

  // ---------------------------------------------------------------------
  // Directory names, as os.path.dirname computes them on POSIX
  // ---------------------------------------------------------------------

  /** The index just after the last `c` in `p`, or 0 when there is none. */
  function AfterLast(p: string, c: char): (i: nat)
    ensures i <= |p|
    ensures forall j :: i <= j < |p| ==> p[j] != c
    ensures i > 0 ==> p[i - 1] == c
  {
    if p == "" then 0
    else if p[|p| - 1] == c then |p|
    else AfterLast(p[..|p| - 1], c)
  }

  predicate AllSlashes(s: string)
  {
    forall i :: 0 <= i < |s| ==> s[i] == '/'
  }

  function TrimTrailingSlashes(s: string): string
  {
    if s != "" && s[|s| - 1] == '/' then TrimTrailingSlashes(s[..|s| - 1]) else s
  }

  /** Everything up to the last '/', with trailing slashes removed unless it is only slashes. */
  function Dirname(p: string): string
  {
    var head := p[..AfterLast(p, '/')];
    if head != "" && !AllSlashes(head) then TrimTrailingSlashes(head) else head
  }

  // ---------------------------------------------------------------------
  // The file system and the append primitive
  // ---------------------------------------------------------------------

  class FileSystem {
    var files: map<string, string>
    var dirs: set<string>

    /** No path is both a file and a directory, and every file sits in an existing directory. */
    ghost predicate Valid()
      reads this
    {
      files.Keys !! dirs &&
      forall p :: p in files ==> ParentExists(dirs, p)
    }

    /** A file system in which no file is a directory and every file sits in an existing directory. */
    constructor (files: map<string, string>, dirs: set<string>)
      requires files.Keys !! dirs
      requires forall p :: p in files ==> ParentExists(dirs, p)
      ensures this.files == files && this.dirs == dirs
      ensures Valid()
    {
      this.files := files;
      this.dirs := dirs;
    }
  }

  /** The parent of `path` exists: it is the current directory ("") or a known directory. */
  predicate ParentExists(dirs: set<string>, path: string)
  {
    Dirname(path) == "" || Dirname(path) in dirs
  }

  /** Opening `path` for appending succeeds: it is not a directory and its parent exists. */
  predicate CanAppend(dirs: set<string>, path: string)
  {
    path !in dirs && ParentExists(dirs, path)
  }

  /** The contents of `path`, or "" when there is no such file. */
  function Contents(files: map<string, string>, path: string): string
  {
    if path in files then files[path] else ""
  }

  /**
   * The shared body of both writers. The directory is only "made" when it
   * already exists, so no directory is ever created, and opening a file in a
   * missing directory fails; `ok` is false when the open fails.
   */
  method AppendToFile(fs: FileSystem, path: string, text: string) returns (ok: bool)
    requires fs.Valid()
    modifies fs`files
    ensures fs.dirs == old(fs.dirs)
    ensures ok <==> CanAppend(fs.dirs, path)
    ensures fs.files == if ok then old(fs.files)[path := Contents(old(fs.files), path) + text] else old(fs.files)
    ensures fs.Valid()
  {
    var dirname := Dirname(path);
    // os.makedirs is reached only for a directory that exists, where it changes nothing
    ok := path !in fs.dirs && (dirname == "" || dirname in fs.dirs);
    if ok {
      fs.files := fs.files[path := Contents(fs.files, path) + text];
    }
  }

  // ---------------------------------------------------------------------
  // Lines
  // ---------------------------------------------------------------------

  /** Text written only by the text logger: empty, or ending with a line break. */
  predicate LogShaped(s: string)
  {
    s == "" || s[|s| - 1] == '\n'
  }

  /** The characters Python's `str.splitlines` breaks lines at. */
  predicate IsLineBoundary(c: char)
  {
    c == '\n' || c == '\r' || c == '\U{000B}' || c == '\U{000C}' || c == '\U{001C}' || c == '\U{001D}' ||
    c == '\U{001E}' || c == '\U{0085}' || c == '\U{2028}' || c == '\U{2029}'
  }

  /** A single line: text without any line boundary. */
  predicate IsLine(s: string)
  {
    forall j :: 0 <= j < |s| ==> !IsLineBoundary(s[j])
  }

  /**
   * Python's `str.splitlines` on text whose only line break is '\n': the
   * lines before the last one, then the last line, which ends at the final
   * '\n' (or at the end of the text) and starts after the '\n' before it.
   */
  function SplitLines(s: string): seq<string>
    decreases |s|
  {
    if s == "" then []
    else
      var end := if s[|s| - 1] == '\n' then |s| - 1 else |s|;
      var start := AfterLast(s[..end], '\n');
      SplitLines(s[..start]) + [s[start..end]]
  }

  /** The text a sequence of writes leaves: each line followed by '\n'. */
  function JoinLines(lines: seq<string>): string
  {
    if lines == [] then "" else JoinLines(lines[..|lines| - 1]) + lines[|lines| - 1] + "\n"
  }

  predicate AllLines(lines: seq<string>)
  {
    forall k :: 0 <= k < |lines| ==> IsLine(lines[k])
  }

  /** After log-shaped text and one more line, the last line starts where that line does. */
  lemma {:induction false} LastLineStart(contents: string, line: string)
    requires LogShaped(contents) && IsLine(line)
    ensures AfterLast(contents + line, '\n') == |contents|
  {
    var text := contents + line;
    var i := AfterLast(text, '\n');  // names the index so that AfterLast's contract applies
    if contents != "" {
      assert text[|contents| - 1] == '\n';
    }
  }

  /** Reading after appending one line gives the earlier lines followed by that line. */
  lemma {:induction false} SplitLinesAppend(contents: string, line: string)
    requires LogShaped(contents) && IsLine(line)
    ensures SplitLines(contents + line + "\n") == SplitLines(contents) + [line]
  {
    var s := contents + line + "\n";
    assert s[|s| - 1] == '\n';
    assert s[..|s| - 1] == contents + line;
    LastLineStart(contents, line);
    assert s[..|contents|] == contents;
    assert s[|contents|..|s| - 1] == line;
  }

  lemma {:induction false} AllLinesSplit(lines: seq<string>)
    requires AllLines(lines) && lines != []
    ensures AllLines(lines[..|lines| - 1]) && IsLine(lines[|lines| - 1])
  {
    var init := lines[..|lines| - 1];
    forall k | 0 <= k < |init| ensures IsLine(init[k]) { assert init[k] == lines[k]; }
  }

  /** Lines without line breaks survive a write-all-then-read round trip. */
  lemma {:induction false} SplitJoin(lines: seq<string>)
    requires AllLines(lines)
    ensures LogShaped(JoinLines(lines))
    ensures SplitLines(JoinLines(lines)) == lines
  {
    if lines != [] {
      var n := |lines|;
      var init := lines[..n - 1];
      AllLinesSplit(lines);
      SplitJoin(init);
      SplitLinesAppend(JoinLines(init), lines[n - 1]);
      assert init + [lines[n - 1]] == lines;
    }
  }

  lemma {:induction false} JoinLinesSnoc(lines: seq<string>, line: string)
    ensures JoinLines(lines + [line]) == JoinLines(lines) + line + "\n"
  {
    assert (lines + [line])[..|lines|] == lines;
  }

  /** Text ending in '\n' is its part before `start`, the rest up to the '\n', and the '\n'. */
  lemma {:induction false} CutBeforeLastBreak(s: string, start: nat)
    requires s != "" && s[|s| - 1] == '\n' && start < |s|
    ensures s[..start] + s[start..|s| - 1] + "\n" == s
  {
    assert s[..start] + s[start..|s| - 1] == s[..|s| - 1];
    assert s[..|s| - 1] + [s[|s| - 1]] == s;
  }

  /** Text the logger wrote is rebuilt exactly from its lines. */
  lemma {:induction false} JoinSplit(s: string)
    requires LogShaped(s)
    ensures JoinLines(SplitLines(s)) == s
    decreases |s|
  {
    if s != "" {
      var end := |s| - 1;
      var start := AfterLast(s[..end], '\n');
      assert LogShaped(s[..start]) by {
        if start > 0 {
          assert s[..end][start - 1] == s[start - 1];
        }
      }
      JoinSplit(s[..start]);
      assert SplitLines(s) == SplitLines(s[..start]) + [s[start..end]];
      JoinLinesSnoc(SplitLines(s[..start]), s[start..end]);
      CutBeforeLastBreak(s, start);
    }
  }

  // ---------------------------------------------------------------------
  // TxtLogger
  // ---------------------------------------------------------------------

  /**
   * TxtLogger.read: the lines of the ".txt"-normalised file, or no lines when
   * there is no such file; None when the path names a directory, which the
   * open then refuses with IsADirectoryError.
   */
  function TxtRead(fs: FileSystem, logFilePath: string): (r: Option<seq<string>>)
    reads fs
    ensures r.None? <==> TxtPath(logFilePath) in fs.dirs
    ensures r.Some? && TxtPath(logFilePath) !in fs.files ==> r.value == []
    ensures r.Some? && TxtPath(logFilePath) in fs.files && LogShaped(fs.files[TxtPath(logFilePath)]) ==>
      JoinLines(r.value) == fs.files[TxtPath(logFilePath)]
  {
    var path := TxtPath(logFilePath);
    if path in fs.dirs then None
    else if path !in fs.files then Some([])
    else if LogShaped(fs.files[path]) then JoinSplit(fs.files[path]); Some(SplitLines(fs.files[path]))
    else Some(SplitLines(fs.files[path]))
  }

  /** A path and the same path with ".txt" added read the same log. */
  lemma {:induction false} TxtReadSameLog(fs: FileSystem, path: string)
    requires !EndsWith(path, TxtSuffix)
    ensures TxtRead(fs, path + TxtSuffix) == TxtRead(fs, path)
  {
    SuffixedPathSameFile(path, TxtSuffix);
  }

  /**
   * TxtLogger.write: appends `data` and a line break to the ".txt"-normalised
   * file, creating it if needed, and fails when its directory is missing or
   * the path is a directory. Earlier contents are kept, no directory is
   * created, and a read afterwards yields the old lines followed by `data`.
   */
  method TxtWrite(fs: FileSystem, logFilePath: string, data: string) returns (ok: bool)
    requires fs.Valid()
    modifies fs`files
    ensures fs.dirs == old(fs.dirs)
    ensures ok <==> CanAppend(fs.dirs, TxtPath(logFilePath))
    ensures fs.files == if ok
      then old(fs.files)[TxtPath(logFilePath) := Contents(old(fs.files), TxtPath(logFilePath)) + (data + "\n")]
      else old(fs.files)
    ensures fs.Valid()
    ensures ok && IsLine(data) && LogShaped(Contents(old(fs.files), TxtPath(logFilePath))) ==>
      old(TxtRead(fs, logFilePath)).Some? && TxtRead(fs, logFilePath) == Some(old(TxtRead(fs, logFilePath)).value + [data])
  {
    var path := TxtPath(logFilePath);
    ghost var before := Contents(fs.files, path);
    ok := AppendToFile(fs, path, data + "\n");
    if ok && IsLine(data) && LogShaped(before) {
      assert before + (data + "\n") == before + data + "\n";
      SplitLinesAppend(before, data);
    }
  }

  // ---------------------------------------------------------------------
  // CsvLogger
  // ---------------------------------------------------------------------

  /**
   * CsvLogger.write: appends one row to the ".csv"-normalised file under the
   * same directory rule as the text logger. `renderedRow` is the row's text
   * as the csv writer renders it, terminator included.
   */
  method CsvWrite(fs: FileSystem, logFilePath: string, renderedRow: string) returns (ok: bool)
    requires fs.Valid()
    modifies fs`files
    ensures fs.dirs == old(fs.dirs)
    ensures ok <==> CanAppend(fs.dirs, CsvPath(logFilePath))
    ensures fs.files == if ok
      then old(fs.files)[CsvPath(logFilePath) := Contents(old(fs.files), CsvPath(logFilePath)) + renderedRow]
      else old(fs.files)
    ensures fs.Valid()
  {
    ok := AppendToFile(fs, CsvPath(logFilePath), renderedRow);
  }

  /**
   * CsvLogger.read: the rows of the ".csv"-normalised file as `parse` (the
   * csv reader) yields them, no rows when there is no such file, and None
   * when the path names a directory.
   */
  function CsvRead(fs: FileSystem, logFilePath: string, parse: string -> seq<seq<string>>): (r: Option<seq<seq<string>>>)
    reads fs
    ensures r.None? <==> CsvPath(logFilePath) in fs.dirs
    ensures CsvPath(logFilePath) !in fs.files && r.Some? ==> r.value == []
  {
    var path := CsvPath(logFilePath);
    if path in fs.dirs then None
    else if path in fs.files then Some(parse(fs.files[path]))
    else Some([])
  }
}
