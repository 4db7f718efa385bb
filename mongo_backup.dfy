/** mongo_backup: the archive path, the `mongodump` arguments and the
    outcome of one `backup_mongo` run. */
module MongoBackup {
  import opened Base
  import opened Text
  import opened Clock

  /** `format!("{}/{}_dump.gz", dir, ts)` with `ts` in `%Y%m%d%H%M%S`. */
  function ArchivePath(dir: string, now: DateTime): string
    requires Valid(now)
  {
    dir + "/" + Compact(now) + "_dump.gz"
  }

  /** The path is the directory, a slash, 14 digits of time and
      `_dump.gz`, and the time reads back from it. */
  lemma ArchivePathShape(dir: string, now: DateTime)
    requires Valid(now)
    ensures var p := ArchivePath(dir, now);
            |p| == |dir| + 23 && StartsWith(p, dir + "/") && EndsWith(p, "_dump.gz") &&
            ParseCompact(p[|dir| + 1..|dir| + 15]) == Some(now)
  {
    var p := ArchivePath(dir, now);
    var ts := Compact(now);
    assert p == (dir + "/") + ts + "_dump.gz";
    assert p[..|dir| + 1] == dir + "/";
    assert p[|dir| + 1..|dir| + 15] == ts;
    assert p[|p| - 8..] == "_dump.gz";
    CompactRoundTrip(now);
  }

  /** Two runs at different seconds write different archives. */
  lemma DistinctTimesDistinctArchives(dir: string, a: DateTime, b: DateTime)
    requires Valid(a) && Valid(b) && a != b
    ensures ArchivePath(dir, a) != ArchivePath(dir, b)
  {
    ArchivePathShape(dir, a);
    ArchivePathShape(dir, b);
  }

  /** The arguments given to `mongodump`, in order. */
  function DumpArgs(uri: string, path: string): (args: seq<string>)
    ensures |args| == 5
    ensures args[0] == "--uri" && args[1] == uri && args[2] == "--archive" && args[3] == path && args[4] == "--gzip"
  {
    ["--uri", uri, "--archive", path, "--gzip"]
  }

  datatype MongoError = SpawnFailed | DumpFailed(status: ExitStatus)

  /** One run: the arguments used, and the printed message or the error. */
  datatype Run = Run(args: seq<string>, result: Result<string, MongoError>)

  /** `backup_mongo`; `status` is how `mongodump` ends (`None`: it could not
      be started). */
  function BackupMongo(uri: string, dir: string, now: DateTime, status: Option<ExitStatus>): (r: Run)
    requires Valid(now)
    ensures r.args == DumpArgs(uri, ArchivePath(dir, now))
    ensures r.result.Ok? <==> status.Some? && status.value.Success()
    ensures r.result.Ok? ==> r.result.value == "Mongo backup created at " + ArchivePath(dir, now)
    ensures status.None? ==> r.result == Err(SpawnFailed)
    ensures status.Some? && !status.value.Success() ==> r.result == Err(DumpFailed(status.value))
  {
    var path := ArchivePath(dir, now);
    var args := DumpArgs(uri, path);
    match status
    case None => Run(args, Err(SpawnFailed))
    case Some(s) =>
      if s.Success() then Run(args, Ok("Mongo backup created at " + path))
      else Run(args, Err(DumpFailed(s)))
  }
}
