/**
 * The synchronous export of `LogController.getLogsByDate`: the same read,
 * filter and write steps as the asynchronous service, answered directly
 * as an HTTP response. It differs from the service in two places: lines
 * are kept when they contain the date anywhere, and a temporary directory
 * that is a symbolic link is refused.
 */
module LogController {
  import opened Common
  import opened Seqs
  import opened Strings
  import opened LogFiles
  import LogService

  /**
   * The outcomes of `getLogsByDate`: 404 without a body, an exception that
   * the framework turns into a server error, or the written file.
   */
  datatype Response =
    | NotFound404
    | ServerError
    | FileResponse(path: Path, content: string)

  /** The line test of the controller's `filterLogsByDate`: `log.contains(date)`. */
  function ContainsDate(date: string): string -> bool {
    line => Contains(line, date)
  }

  /**
   * The controller's `filterLogsByDate`: the lines containing `date`, in
   * their original order; the result may be empty.
   */
  function FilterLogsByDate(logs: seq<string>, date: string): (r: seq<string>)
    ensures forall x :: x in r <==> x in logs && Contains(x, date)
    ensures forall x :: multiset(r)[x] == if Contains(x, date) then multiset(logs)[x] else 0
    ensures IsSubsequence(r, logs)
    ensures r == [] <==> forall i :: 0 <= i < |logs| ==> !Contains(logs[i], date)
  {
    var r := Filter(logs, ContainsDate(date));
    assert forall i :: 0 <= i < |logs| && Contains(logs[i], date) ==> logs[i] in r;
    r
  }

  /**
   * The check in `createTempLogFile`: the temporary directory must be a
   * directory and must not itself be a symbolic link.
   */
  function SafeTempDir(env: Env): (ok: bool)
    ensures ok ==> env.tempDirIsDirectory
    ensures env.tempDirIsSymlink ==> !ok
  {
    env.tempDirIsDirectory && !env.tempDirIsSymlink
  }

  /**
   * `getLogsByDate`: 404 when the log file is missing or no line contains
   * the date, a server error when reading, the directory check, creating
   * or writing fails, otherwise the written file.
   */
  function GetLogsByDate(env: Env, disk: Disk, date: string): (out: (Response, Disk))
    ensures !env.logExists ==> out == (NotFound404, disk)
    ensures out.0.NotFound404? <==>
              !env.logExists
              || (env.readOk && forall i :: 0 <= i < |ReadLines(env.logText)| ==> !Contains(ReadLines(env.logText)[i], date))
    ensures out.0.NotFound404? ==> out.1 == disk
    ensures out.0.FileResponse? <==>
              && env.logExists && env.readOk
              && (exists i :: 0 <= i < |ReadLines(env.logText)| && Contains(ReadLines(env.logText)[i], date))
              && SafeTempDir(env) && env.createOk && env.writeOk && TempPath(env, date) !in disk
    ensures out.0.FileResponse? ==>
              && out.0.path.dir == env.tempDir
              && out.0.content == FileContent(FilterLogsByDate(ReadLines(env.logText), date), env.lineSeparator)
              && out.1 == disk[out.0.path := out.0.content]
    ensures !SafeTempDir(env) ==> out.1 == disk
  {
    if !env.logExists then (NotFound404, disk)
    else if !env.readOk then (ServerError, disk)
    else
      var lines := ReadLines(env.logText);
      var kept := FilterLogsByDate(lines, date);
      if kept == [] then (NotFound404, disk)
      else if !SafeTempDir(env) then (ServerError, disk)
      else
        var (file, disk1) := WriteTempLogFile(env, disk, kept, date);
        match file
        case Err(_) => (ServerError, disk1)
        case Ok(p) => (FileResponse(p, disk1[p]), disk1)
  }

  /**
   * The service keeps a line when it starts with the date, the controller
   * when it contains it: filtering the controller's result by the
   * service's test gives exactly the service's lines.
   */
  lemma PrefixFilterRefinesContainsFilter(logs: seq<string>, date: string)
    ensures Filter(FilterLogsByDate(logs, date), LogService.StartsWithDate(date))
            == Filter(logs, LogService.StartsWithDate(date))
    ensures IsSubsequence(Filter(logs, LogService.StartsWithDate(date)), FilterLogsByDate(logs, date))
  {
    forall x | LogService.StartsWithDate(date)(x)
      ensures ContainsDate(date)(x)
    {
      PrefixImpliesContains(date, x);
    }
    FilterOfFilter(logs, LogService.StartsWithDate(date), ContainsDate(date));
  }

  /**
   * Whenever the service finds lines for a date, the controller finds
   * lines too: the controller never answers 404 where the service exports.
   */
  lemma ServiceMatchImpliesControllerMatch(logs: seq<string>, date: string)
    requires LogService.FilterLogsByDate(logs, date).Ok?
    ensures FilterLogsByDate(logs, date) != []
  {
    var i :| 0 <= i < |logs| && IsPrefix(date, logs[i]);
    PrefixImpliesContains(date, logs[i]);
  }

  /**
   * A symbolic link to a directory passes the service's check and fails the
   * controller's: with every other step succeeding, the service writes the
   * file and the controller answers with a server error.
   */
  lemma SymlinkedTempDirSeparatesControllerAndService(env: Env, disk: Disk, date: string)
    requires env.tempDirIsDirectory && env.tempDirIsSymlink
    requires env.logExists && env.readOk && env.createOk && env.writeOk && TempPath(env, date) !in disk
    ensures LogService.CreateTempLogFile(env, disk, [], date).0.Ok?
    ensures GetLogsByDate(env, disk, date).0 != NotFound404 ==> GetLogsByDate(env, disk, date) == (ServerError, disk)
  {
  }

  /**
   * The file the controller answers with reads back as exactly the lines
   * that contain the date, in their original order.
   */
  lemma ResponseReadsBackFilteredLines(env: Env, disk: Disk, date: string)
    requires env.lineSeparator == "\n" || env.lineSeparator == "\r\n"
    requires GetLogsByDate(env, disk, date).0.FileResponse?
    ensures ReadLines(GetLogsByDate(env, disk, date).0.content) == FilterLogsByDate(ReadLines(env.logText), date)
  {
    var kept := FilterLogsByDate(ReadLines(env.logText), date);
    assert forall i :: 0 <= i < |kept| ==> kept[i] in ReadLines(env.logText);
    ReadWrittenLines(kept, env.lineSeparator);
  }
}
