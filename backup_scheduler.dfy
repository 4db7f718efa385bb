/** backup_scheduler: the timestamped dump path, its `.sql.gz` companion,
    and the order of the file effects in one `backup_postgres` run. */
module BackupScheduler {
  import opened Base
  import opened Text
  import opened Clock


  // ---------------------------------------------------------------------
  // paths

  /** The index of the last `c` in `s`, or -1. */
  function LastIndex(s: string, c: char): (r: int)
    ensures -1 <= r < |s|
    ensures r >= 0 ==> s[r] == c
    ensures forall k :: r < k < |s| ==> s[k] != c
  {
    if s == [] then -1
    else if s[|s| - 1] == c then |s| - 1
    else LastIndex(s[..|s| - 1], c)
  }

  lemma {:induction false} LastIndexAfter(a: string, b: string, c: char)
    requires c !in b
    requires a == [] || a[|a| - 1] == c
    ensures LastIndex(a + b, c) == |a| - 1
  {
    var s := a + b;
    if b != [] {
      assert s[..|s| - 1] == a + b[..|b| - 1];
      assert s[|s| - 1] == b[|b| - 1];
      LastIndexAfter(a, b[..|b| - 1], c);
    } else {
      assert s == a;
    }
  }

  /** `PathBuf::from(dir).join(name)` for a relative `name`: a separator is
      added unless `dir` is empty or already ends with one. */
  function JoinPath(dir: string, name: string): (p: string)
    ensures EndsWith(p, name)
    ensures p[..|p| - |name|] == [] || p[|p| - |name| - 1] == '/'
    ensures dir == [] || dir[|dir| - 1] == '/' ==> p == dir + name
    ensures dir != [] && dir[|dir| - 1] != '/' ==> p == dir + "/" + name
  {
    var parent := if dir == [] || dir[|dir| - 1] == '/' then dir else dir + "/";
    assert (parent + name)[..|parent|] == parent;
    parent + name
  }

  /** The file name of a path: everything after its last `/`. */
  function FileName(p: string): (name: string)
    ensures '/' !in name && EndsWith(p, name)
  {
    p[LastIndex(p, '/') + 1..]
  }

  /** `Path::with_extension(ext)` for a path whose file name is not `..`
      and has no trailing separator: the text after the file name's last
      dot (when the dot is not its first character) becomes `ext`. */
  function WithExtension(p: string, ext: string): string {
    var slash := LastIndex(p, '/');
    var name := p[slash + 1..];
    var dot := LastIndex(name, '.');
    var stem := if dot > 0 then name[..dot] else name;
    p[..slash + 1] + stem + "." + ext
  }

  /** `format!("{}_{}.{}", prefix, timestamp, ext)` */
  function BackupFileName(prefix: string, now: DateTime, ext: string): string
    requires Valid(now)
  {
    prefix + "_" + Dashed(now) + "." + ext
  }

  /** `build_backup_path` */
  function BuildBackupPath(dir: string, prefix: string, ext: string, now: DateTime): string
    requires Valid(now)
  {
    JoinPath(dir, BackupFileName(prefix, now, ext))
  }

  /** Joining a separator-free name: the name is the joined path's file name. */
  lemma FileNameOfJoin(dir: string, name: string)
    requires '/' !in name
    ensures FileName(JoinPath(dir, name)) == name
    ensures JoinPath(dir, name)[..LastIndex(JoinPath(dir, name), '/') + 1] + name == JoinPath(dir, name)
  {
    var p := JoinPath(dir, name);
    var parent := p[..|p| - |name|];
    assert p == parent + name;
    LastIndexAfter(parent, name, '/');
  }

  lemma NameParts(prefix: string, ts: string, ext: string)
    requires '/' !in prefix && '/' !in ts && '/' !in ext
    ensures var name := prefix + "_" + ts + "." + ext;
            '/' !in name && StartsWith(name, prefix + "_") && EndsWith(name, "." + ext) &&
            name[|prefix| + 1..|prefix| + 1 + |ts|] == ts
  {
    var name := prefix + "_" + ts + "." + ext;
    assert name == (prefix + "_") + ts + ("." + ext);
    assert name[..|prefix| + 1] == prefix + "_";
    assert name[|prefix| + 1..|prefix| + 1 + |ts|] == ts;
    assert name[|name| - |ext| - 1..] == "." + ext;
  }

  /** The file name holds the prefix, the time and the extension, in that
      order, and the time reads back from it. */
  lemma BackupFileNameShape(dir: string, prefix: string, ext: string, now: DateTime)
    requires Valid(now)
    requires '/' !in prefix && '/' !in ext
    ensures FileName(BuildBackupPath(dir, prefix, ext, now)) == BackupFileName(prefix, now, ext)
    ensures StartsWith(BuildBackupPath(dir, prefix, ext, now), dir)
    ensures var name := BackupFileName(prefix, now, ext);
            StartsWith(name, prefix + "_") && EndsWith(name, "." + ext) &&
            ParseDashed(name[|prefix| + 1..|prefix| + 20]) == Some(now)
  {
    DashedCharacters(now);
    NameParts(prefix, Dashed(now), ext);
    FileNameOfJoin(dir, BackupFileName(prefix, now, ext));
    DashedRoundTrip(now);
    var p := BuildBackupPath(dir, prefix, ext, now);
    var parent := if dir == [] || dir[|dir| - 1] == '/' then dir else dir + "/";
    assert p == parent + BackupFileName(prefix, now, ext);
    assert p[..|dir|] == parent[..|dir|] == dir;
  }

  lemma LastDotBeforeExtension(stem: string, ext: string)
    requires '.' !in stem && '.' !in ext
    ensures LastIndex(stem + "." + ext, '.') == |stem|
  {
    assert stem + "." + ext == (stem + ".") + ext;
    LastIndexAfter(stem + ".", ext, '.');
  }

  /** Replacing the extension `sql` by `sql.gz` appends `.gz`. */
  lemma SqlToSqlGz(dir: string, stem: string)
    requires stem != [] && '.' !in stem && '/' !in stem
    ensures WithExtension(JoinPath(dir, stem + ".sql"), "sql.gz") == JoinPath(dir, stem + ".sql") + ".gz"
  {
    var name := stem + ".sql";
    NotInAppend(stem, ".sql", '/');
    var p := JoinPath(dir, name);
    FileNameOfJoin(dir, name);
    var slash := LastIndex(p, '/');
    var nm := p[slash + 1..];
    assert nm == name;
    LastDotBeforeExtension(stem, "sql");
    assert stem + "." + "sql" == name;
    var dot := LastIndex(nm, '.');
    assert dot == |stem| > 0;
    assert nm[..dot] == stem;
    assert WithExtension(p, "sql.gz") == p[..slash + 1] + stem + "." + "sql.gz";
    GzSuffix(p[..slash + 1], stem);
  }

  lemma NotInAppend(a: string, b: string, c: char)
    requires c !in a && c !in b
    ensures c !in a + b
  {
    forall i | 0 <= i < |a + b|
      ensures (a + b)[i] != c
    {
      if i < |a| {
        assert (a + b)[i] == a[i];
      } else {
        assert (a + b)[i] == b[i - |a|];
      }
    }
  }

  lemma GzSuffix(parent: string, stem: string)
    ensures parent + stem + "." + "sql.gz" == parent + (stem + ".sql") + ".gz"
  {
    assert "." + "sql.gz" == ".sql" + ".gz";
    calc {
      parent + stem + "." + "sql.gz";
      parent + stem + ("." + "sql.gz");
      parent + stem + (".sql" + ".gz");
      parent + (stem + ".sql") + ".gz";
    }
  }

  /** `output_path.with_extension("sql.gz")` is the dump path with `.gz`
      appended. */
  lemma GzPathAppendsGz(dir: string, now: DateTime)
    requires Valid(now)
    ensures WithExtension(BuildBackupPath(dir, "pg_backup", "sql", now), "sql.gz") ==
            BuildBackupPath(dir, "pg_backup", "sql", now) + ".gz"
  {
    var ts := Dashed(now);
    DashedCharacters(now);
    var stem := "pg_backup" + "_" + ts;
    assert '.' !in stem && '/' !in stem by {
      assert stem == "pg_backup_" + ts;
      assert forall i :: 0 <= i < |stem| ==> stem[i] == (if i < 10 then "pg_backup_"[i] else ts[i - 10]);
    }
    assert BackupFileName("pg_backup", now, "sql") == stem + ".sql";
    SqlToSqlGz(dir, stem);
  }

  // ---------------------------------------------------------------------
  // one backup run

  /** How each file effect of a run turns out; `dump` is how `pg_dump` ends
      (`None`: it could not be started). */
  datatype Effects = Effects(
    createDump: bool, dump: Option<ExitStatus>, openDump: bool,
    createGz: bool, copy: bool, finish: bool, remove: bool)

  datatype FsAction =
    | CreateFile(path: string)
    | RunPgDump(output: string)
    | OpenFile(path: string)
    | Copy(from: string, to: string)
    | FinishGzip(path: string)
    | RemoveFile(path: string)

  datatype BackupError = CreateFailed | SpawnFailed | DumpExited(code: Option<int>) | IoFailed

  /** `backup_postgres`: the dump goes to the built path, the compressed
      copy to that path with `.gz` appended. */
  method BackupPostgres(dir: string, now: DateTime, fx: Effects) returns (trace: seq<FsAction>, r: Result<(), BackupError>)
    requires Valid(now)
    ensures var out := BuildBackupPath(dir, "pg_backup", "sql", now);
            DumpAndCompressed(out, out + ".gz", fx, trace, r)
  {
    var out := BuildBackupPath(dir, "pg_backup", "sql", now);
    GzPathAppendsGz(dir, now);
    var gz := WithExtension(out, "sql.gz");
    trace, r := DumpAndCompress(out, gz, fx);
  }

  /** What a run from dump file `out` to compressed file `gz` promises:
      each failure returns at once with the effects so far, a failed or
      unstartable `pg_dump` before any compression; the raw dump is removed
      only right after the gzip stream finished; success runs all seven
      effects in order. */
  ghost predicate DumpAndCompressed(out: string, gz: string, fx: Effects, trace: seq<FsAction>, r: Result<(), BackupError>) {
    && (r.Ok? <==> fx.createDump && fx.dump.Some? && fx.dump.value.Success() && fx.openDump
                   && fx.createGz && fx.copy && fx.finish && fx.remove)
    && (!fx.createDump ==> trace == [CreateFile(out)] && r == Err(CreateFailed))
    && (fx.createDump && fx.dump.None? ==> trace == [CreateFile(out), RunPgDump(out)] && r == Err(SpawnFailed))
    && (fx.createDump && fx.dump.Some? && !fx.dump.value.Success() ==>
          trace == [CreateFile(out), RunPgDump(out)] &&
          r == Err(DumpExited(if fx.dump.value.Exited? then Some(fx.dump.value.code) else None)))
    && (fx.createDump && fx.dump.Some? && fx.dump.value.Success() && !fx.openDump ==>
          trace == [CreateFile(out), RunPgDump(out), OpenFile(out)] && r == Err(IoFailed))
    && (fx.createDump && fx.dump.Some? && fx.dump.value.Success() && fx.openDump && !fx.createGz ==>
          trace == [CreateFile(out), RunPgDump(out), OpenFile(out), CreateFile(gz)] && r == Err(IoFailed))
    && (fx.createDump && fx.dump.Some? && fx.dump.value.Success() && fx.openDump && fx.createGz && !fx.copy ==>
          trace == [CreateFile(out), RunPgDump(out), OpenFile(out), CreateFile(gz), Copy(out, gz)] &&
          r == Err(IoFailed))
    && (fx.createDump && fx.dump.Some? && fx.dump.value.Success() && fx.openDump && fx.createGz && fx.copy
        && !fx.finish ==>
          trace == [CreateFile(out), RunPgDump(out), OpenFile(out), CreateFile(gz), Copy(out, gz),
                    FinishGzip(gz)] && r == Err(IoFailed))
    && (fx.createDump && fx.dump.Some? && fx.dump.value.Success() && fx.openDump && fx.createGz && fx.copy
        && fx.finish && !fx.remove ==>
          trace == [CreateFile(out), RunPgDump(out), OpenFile(out), CreateFile(gz), Copy(out, gz),
                    FinishGzip(gz), RemoveFile(out)] && r == Err(IoFailed))
    && (RemoveFile(out) in trace ==> fx.finish && |trace| >= 2 && trace[|trace| - 2] == FinishGzip(gz))
    && (r.Ok? ==> trace == [CreateFile(out), RunPgDump(out), OpenFile(out), CreateFile(gz),
                            Copy(out, gz), FinishGzip(gz), RemoveFile(out)])
  }

  /** The body of `backup_postgres` after the paths are built, effect by
      effect, returning at the first failure. */
  method DumpAndCompress(out: string, gz: string, fx: Effects) returns (trace: seq<FsAction>, r: Result<(), BackupError>)
    ensures DumpAndCompressed(out, gz, fx, trace, r)
  {
    trace := [CreateFile(out)];
    if !fx.createDump {
      return trace, Err(CreateFailed);
    }
    trace := trace + [RunPgDump(out)];
    if fx.dump.None? {
      return trace, Err(SpawnFailed);
    }
    if !fx.dump.value.Success() {
      return trace, Err(DumpExited(if fx.dump.value.Exited? then Some(fx.dump.value.code) else None));
    }
    trace := trace + [OpenFile(out)];
    if !fx.openDump {
      return trace, Err(IoFailed);
    }
    trace := trace + [CreateFile(gz)];
    if !fx.createGz {
      return trace, Err(IoFailed);
    }
    trace := trace + [Copy(out, gz)];
    if !fx.copy {
      return trace, Err(IoFailed);
    }
    trace := trace + [FinishGzip(gz)];
    if !fx.finish {
      return trace, Err(IoFailed);
    }
    trace := trace + [RemoveFile(out)];
    if !fx.remove {
      return trace, Err(IoFailed);
    }
    r := Ok(());
  }
}
