/**
 * The file-level pieces shared by the asynchronous log service and the
 * synchronous log controller: the filesystem as seen by one export run,
 * line reading, the file-name sanitiser, and writing the result file.
 * The service and the controller each carry a private copy of the same
 * sanitiser and writer; the model defines them once.
 */
module LogFiles {
  import opened Common
  import opened Strings

  /** A file: its directory and its name inside that directory. */
  datatype Path = Path(dir: string, name: string)

  /** The files on disk with their contents. */
  type Disk = map<Path, string>

  /**
   * What one export run observes of the outside world. Every filesystem
   * call the code makes is answered from here.
   */
  datatype Env = Env(
    logExists: bool,           // new File("logs/app.log").exists()
    logText: string,           // the contents of that file
    readOk: bool,              // reading it raises no IOException
    tempDir: string,           // java.io.tmpdir, made absolute and normalised
    tempDirIsDirectory: bool,  // Files.isDirectory(tempDir), which follows links
    tempDirIsSymlink: bool,    // Files.isSymbolicLink(tempDir)
    uniquePart: string,        // the random part Files.createTempFile puts in the name
    createOk: bool,            // Files.createTempFile succeeds
    writeOk: bool,             // writing the lines succeeds
    lineSeparator: string,     // System.lineSeparator()
    interrupted: bool)         // the worker's 20-second Thread.sleep is interrupted

  /** The line terminators `BufferedReader.readLine` recognises. */
  predicate IsLineTerminator(c: char) { c == '\n' || c == '\r' }

  predicate NoTerminator(s: string) {
    forall i :: 0 <= i < |s| ==> !IsLineTerminator(s[i])
  }

  /** Index of the first line terminator in `s`, or `|s|` if there is none. */
  function LineEnd(s: string): (k: nat)
    ensures k <= |s|
    ensures NoTerminator(s[..k])
    ensures k < |s| ==> IsLineTerminator(s[k])
  {
    if |s| == 0 || IsLineTerminator(s[0]) then 0
    else
      var k := 1 + LineEnd(s[1..]);
      assert s[..k] == [s[0]] + s[1..][..k - 1];
      k
  }

  /**
   * The lines `BufferedReader.readLine` returns for `text`: a line ends at
   * "\n", "\r" or "\r\n"; a final line without terminator still counts, and
   * nothing follows the last terminator.
   */
  function ReadLines(text: string): (lines: seq<string>)
    ensures forall i :: 0 <= i < |lines| ==> NoTerminator(lines[i])
    decreases |text|
  {
    if |text| == 0 then []
    else
      var k := LineEnd(text);
      if k == |text| then [text]
      else
        var next := if text[k] == '\r' && k + 1 < |text| && text[k + 1] == '\n' then k + 2 else k + 1;
        [text[..k]] + ReadLines(text[next..])
  }

  /** The characters `[A-Za-z0-9.-]` the sanitiser keeps. */
  predicate IsFileNameChar(c: char) {
    ('a' <= c <= 'z') || ('A' <= c <= 'Z') || ('0' <= c <= '9') || c == '.' || c == '-'
  }

  /** What a sanitised name may contain: the kept characters and the `_` replacement. */
  predicate IsSanitizedChar(c: char) { IsFileNameChar(c) || c == '_' }

  /** `replaceAll("[^a-zA-Z0-9.-]", "_")`: one `_` per rejected code point. */
  function ReplaceDisallowed(s: string): (r: string)
  {
    if |s| == 0 then ""
    else [if IsFileNameChar(s[0]) then s[0] else '_'] + ReplaceDisallowed(s[1..])
  }

  /** `sanitizeFilename`: null becomes "unknown", every other code point outside `[A-Za-z0-9.-]` becomes `_`. */
  function SanitizeFilename(name: Option<string>): (r: string)
    ensures name.None? ==> r == "unknown"
    ensures name.Some? ==> |r| == |name.value|
    ensures name.Some? ==> forall i :: 0 <= i < |r| ==>
              r[i] == (if IsFileNameChar(name.value[i]) then name.value[i] else '_')
    ensures forall i :: 0 <= i < |r| ==> IsSanitizedChar(r[i])
    ensures '/' !in r && '\\' !in r   // so the name cannot leave its directory
  {
    match name
    case None => "unknown"
    case Some(s) => ReplaceDisallowedPointwise(s); ReplaceDisallowed(s)
  }

  /** The pointwise description of ReplaceDisallowed, by induction. */
  lemma {:induction false} ReplaceDisallowedPointwise(s: string)
    ensures |ReplaceDisallowed(s)| == |s|
    ensures forall i :: 0 <= i < |s| ==>
              ReplaceDisallowed(s)[i] == (if IsFileNameChar(s[i]) then s[i] else '_')
  {
    if |s| > 0 {
      ReplaceDisallowedPointwise(s[1..]);
    }
  }

  /** Sanitising a sanitised name changes nothing. */
  lemma SanitizeIdempotent(name: Option<string>)
    ensures SanitizeFilename(Some(SanitizeFilename(name))) == SanitizeFilename(name)
  {
    var r := SanitizeFilename(name);
    var rr := SanitizeFilename(Some(r));
    assert |rr| == |r|;
    assert forall i :: 0 <= i < |r| ==> rr[i] == r[i];
  }

  /** The name `Files.createTempFile(dir, "logs-" + safeDate + "-", ".log")` gives a file. */
  function TempFileName(safeDate: string, uniquePart: string): (name: string)
    ensures IsPrefix("logs-" + safeDate + "-", name)
    ensures |name| >= 4 && name[|name| - 4..] == ".log"
    ensures |name| == |safeDate| + |uniquePart| + 10
  {
    "logs-" + safeDate + "-" + uniquePart + ".log"
  }

  /**
   * With the decimal random part `Files.createTempFile` inserts, the whole
   * file name consists of `[A-Za-z0-9._-]`, whatever the requested date.
   */
  lemma TempFileNameIsSafe(date: Option<string>, uniquePart: string)
    requires AllDigits(uniquePart)
    ensures forall i :: 0 <= i < |TempFileName(SanitizeFilename(date), uniquePart)| ==>
              IsSanitizedChar(TempFileName(SanitizeFilename(date), uniquePart)[i])
  {
    var safe := SanitizeFilename(date);
    var n := TempFileName(safe, uniquePart);
    assert n == "logs-" + safe + "-" + uniquePart + ".log";
    forall i | 0 <= i < |n|
      ensures IsSanitizedChar(n[i])
    {
      if i < 5 {
      } else if i < 5 + |safe| {
        assert n[i] == safe[i - 5];
      } else if i == 5 + |safe| {
      } else if i < 6 + |safe| + |uniquePart| {
        assert n[i] == uniquePart[i - 6 - |safe|];
      } else {
      }
    }
  }

  /** What `writeLogsToFile` writes: every line followed by one separator, in order. */
  function FileContent(lines: seq<string>, sep: string): (text: string)
    ensures |lines| > 0 ==> IsPrefix(lines[0] + sep, text)
    ensures sep != "" ==> (text == "" <==> |lines| == 0)
  {
    if |lines| == 0 then "" else lines[0] + sep + FileContent(lines[1..], sep)
  }

  lemma LineEndAfterLine(line: string, rest: string)
    requires NoTerminator(line)
    requires |rest| > 0 && IsLineTerminator(rest[0])
    ensures LineEnd(line + rest) == |line|
  {
    var s := line + rest;
    assert s[|line|] == rest[0];
    assert s[..|line|] == line;
  }

  /**
   * Reading back a written file gives the written lines, for the Unix and
   * Windows line separators and lines without terminators (which is every
   * line ReadLines produced).
   */
  lemma {:induction false} ReadWrittenLines(lines: seq<string>, sep: string)
    requires sep == "\n" || sep == "\r\n"
    requires forall i :: 0 <= i < |lines| ==> NoTerminator(lines[i])
    ensures ReadLines(FileContent(lines, sep)) == lines
  {
    if |lines| > 0 {
      var rest := FileContent(lines[1..], sep);
      var text := FileContent(lines, sep);
      assert text == lines[0] + (sep + rest);
      LineEndAfterLine(lines[0], sep + rest);
      var k := |lines[0]|;
      assert text[..k] == lines[0];
      assert text[k..] == sep + rest;
      if sep == "\n" {
        assert text[k + 1..] == rest;
      } else {
        assert text[k + 2..] == rest;
      }
      ReadWrittenLines(lines[1..], sep);
    }
  }

  /** The length of a written file: every line plus one separator per line. */
  lemma {:induction false} FileContentLength(lines: seq<string>, sep: string)
    ensures |FileContent(lines, sep)| == TotalLength(lines) + |lines| * |sep|
  {
    if |lines| > 0 {
      FileContentLength(lines[1..], sep);
      assert (|lines| - 1) * |sep| + |sep| == |lines| * |sep|;
    }
  }

  /** Where `createTempFile` puts the result file for `date`. */
  function TempPath(env: Env, date: string): Path {
    Path(env.tempDir, TempFileName(SanitizeFilename(Some(date)), env.uniquePart))
  }

  /**
   * `createSecureTempFile` followed by `writeLogsToFile`, once the temporary
   * directory has been accepted: the file is created empty in `env.tempDir`
   * under a sanitised name, then the lines are written into it. A failed
   * write leaves the empty file behind. `Files.createTempFile` never
   * replaces an existing file: `env.uniquePart` is the random part it
   * settled on, so a name already on disk counts as a failed creation.
   * POSIX permissions and `deleteOnExit` do not change the contents and
   * are not modelled.
   */
  function WriteTempLogFile(env: Env, disk: Disk, lines: seq<string>, date: string): (out: (Result<Path>, Disk))
    ensures out.0.Ok? <==> env.createOk && env.writeOk && TempPath(env, date) !in disk
    ensures out.0.Ok? ==>
              && out.0.value.dir == env.tempDir
              && out.0.value.name == TempFileName(SanitizeFilename(Some(date)), env.uniquePart)
              && out.0.value !in disk
              && out.1 == disk[out.0.value := FileContent(lines, env.lineSeparator)]
    ensures !env.createOk ==> out.1 == disk
    ensures out.1.Keys <= disk.Keys + {TempPath(env, date)}
    ensures Preserves(disk, out.1)
  {
    var p := TempPath(env, date);
    if !env.createOk || p in disk then (Err(IoError), disk)
    else if !env.writeOk then (Err(IoError), disk[p := ""])
    else (Ok(p), disk[p := FileContent(lines, env.lineSeparator)])
  }

  /** Every file of `before` is still in `after` with the same contents: nothing was overwritten or removed. */
  predicate Preserves(before: Disk, after: Disk) {
    forall q :: q in before ==> q in after && after[q] == before[q]
  }
}
