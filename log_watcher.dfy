/** log_watcher: the configuration read from the environment and the filter
    that decides which appended log lines are reported. Regular expressions
    stay abstract: `compile` stands for `Regex::new` and `isMatch` for
    `Regex::is_match`. */
module LogWatcher {
  import opened Base
  import opened Text
  import opened Seqs

  /** The variables `Config::from_env` reads; `None` when unset. */
  datatype Environment = Environment(
    logFiles: Option<string>,
    logLevels: Option<string>,
    logRegex: Option<string>,
    webhookUrl: Option<string>,
    pollIntervalMs: Option<string>)

  datatype Config<R> = Config(
    files: seq<string>,
    levels: seq<string>,
    patterns: seq<R>,
    webhook: Option<string>,
    intervalMs: nat)

  const DefaultIntervalMs: nat := 1000

  /** `env::var(..).unwrap_or_default().split(',')` */
  function Entries(raw: Option<string>): seq<string> {
    Split(raw.GetOr(""), ',')
  }

  /** LOG_FILES: entries that are blank after trimming are dropped; the
      others are kept as written (untrimmed) and in order. */
  function ParseFiles(raw: Option<string>): (files: seq<string>)
    ensures forall i :: 0 <= i < |files| ==> files[i] in Entries(raw) && Trim(files[i]) != []
    ensures forall i :: 0 <= i < |Entries(raw)| && Trim(Entries(raw)[i]) != [] ==> Entries(raw)[i] in files
  {
    Filter(Entries(raw), (e: string) => Trim(e) != [])
  }

  function LowerTrimmed(entries: seq<string>): (r: seq<string>)
    ensures |r| == |entries|
    ensures forall i :: 0 <= i < |r| ==> r[i] == AsciiLower(Trim(entries[i]))
  {
    seq(|entries|, i requires 0 <= i < |entries| => AsciiLower(Trim(entries[i])))
  }

  /** LOG_LEVELS: each entry trimmed and lower-cased, empty results dropped. */
  function ParseLevels(raw: Option<string>): (levels: seq<string>)
    ensures forall i :: 0 <= i < |levels| ==> levels[i] != [] && levels[i] in LowerTrimmed(Entries(raw))
    ensures forall i :: 0 <= i < |LowerTrimmed(Entries(raw))| && LowerTrimmed(Entries(raw))[i] != [] ==>
              LowerTrimmed(Entries(raw))[i] in levels
  {
    Filter(LowerTrimmed(Entries(raw)), (l: string) => l != [])
  }

  /** Every configured level is already lower-case, so comparing it with the
      lower-cased line is a case-insensitive search. */
  lemma ParsedLevelsAreLowerCase(raw: Option<string>)
    ensures forall i :: 0 <= i < |ParseLevels(raw)| ==> AsciiLower(ParseLevels(raw)[i]) == ParseLevels(raw)[i]
  {
    var lowered := LowerTrimmed(Entries(raw));
    forall j | 0 <= j < |lowered|
      ensures AsciiLower(lowered[j]) == lowered[j]
    {
      LowerTrimmedIsLower(Entries(raw), j);
    }
    LowerFilterIsLower(lowered, (l: string) => l != []);
  }

  lemma LowerFilterIsLower(lowered: seq<string>, keep: string -> bool)
    requires forall j :: 0 <= j < |lowered| ==> AsciiLower(lowered[j]) == lowered[j]
    ensures forall i :: 0 <= i < |Filter(lowered, keep)| ==> AsciiLower(Filter(lowered, keep)[i]) == Filter(lowered, keep)[i]
  {
  }

  lemma LowerTrimmedIsLower(entries: seq<string>, j: int)
    requires 0 <= j < |entries|
    ensures AsciiLower(LowerTrimmed(entries)[j]) == LowerTrimmed(entries)[j]
  {
    AsciiLowerIdempotent(Trim(entries[j]));
  }

  /** LOG_REGEX: each entry trimmed and compiled; entries that do not compile
      are dropped without an error. */
  function ParsePatterns<R>(raw: Option<string>, compile: string -> Option<R>): (patterns: seq<R>)
    ensures forall i :: 0 <= i < |patterns| ==>
              exists j :: 0 <= j < |Entries(raw)| && compile(Trim(Entries(raw)[j])) == Some(patterns[i])
    ensures forall j :: 0 <= j < |Entries(raw)| && compile(Trim(Entries(raw)[j])).Some? ==>
              compile(Trim(Entries(raw)[j])).value in patterns
  {
    FilterMap(Map(Entries(raw), Trim), compile)
  }

  /** POLL_INTERVAL_MS as a `u64`, 1000 when unset or not a number. */
  function ParseInterval(raw: Option<string>): (ms: nat)
    ensures raw.None? ==> ms == DefaultIntervalMs
    ensures raw.Some? && ParseU64(raw.value).None? ==> ms == DefaultIntervalMs
    ensures raw.Some? && ParseU64(raw.value).Some? ==> ms == ParseU64(raw.value).value
  {
    if raw.Some? && ParseU64(raw.value).Some? then ParseU64(raw.value).value else DefaultIntervalMs
  }

  /** `Config::from_env`: never fails; bad entries are skipped or defaulted. */
  function FromEnv<R>(env: Environment, compile: string -> Option<R>): Config<R> {
    Config(ParseFiles(env.logFiles), ParseLevels(env.logLevels),
           ParsePatterns(env.logRegex, compile), env.webhookUrl, ParseInterval(env.pollIntervalMs))
  }

  /** Entries of a comma-joined list are parsed one side at a time, in order. */
  lemma FilesOfJoinedList(a: string, b: string)
    ensures ParseFiles(Some(a + "," + b)) == ParseFiles(Some(a)) + ParseFiles(Some(b))
  {
    SplitConcat(a, b, ',');
    assert a + "," + b == a + [','] + b;
    FilterAppend(Split(a, ','), Split(b, ','), (e: string) => Trim(e) != []);
  }

  lemma PatternsOfJoinedList<R>(a: string, b: string, compile: string -> Option<R>)
    ensures ParsePatterns(Some(a + "," + b), compile) == ParsePatterns(Some(a), compile) + ParsePatterns(Some(b), compile)
  {
    SplitConcat(a, b, ',');
    assert a + "," + b == a + [','] + b;
    var sa, sb := Split(a, ','), Split(b, ',');
    assert Entries(Some(a + "," + b)) == sa + sb;
    MapAppend(sa, sb, Trim);
    FilterMapAppend(Map(sa, Trim), Map(sb, Trim), compile);
  }

  // ---------------------------------------------------------------------
  // the line filter

  function AnyContained(text: string, levels: seq<string>): (r: bool)
    ensures r <==> exists i :: 0 <= i < |levels| && Contains(text, levels[i])
  {
    if levels == [] then false
    else Contains(text, levels[0]) || AnyContained(text, levels[1..])
  }

  function AnyMatch<R>(line: string, patterns: seq<R>, isMatch: (R, string) -> bool): (r: bool)
    ensures r <==> exists i :: 0 <= i < |patterns| && isMatch(patterns[i], line)
  {
    if patterns == [] then false
    else isMatch(patterns[0], line) || AnyMatch(line, patterns[1..], isMatch)
  }

  /** The level check: passes with no levels configured, otherwise when some
      level occurs in the lower-cased line. */
  function LevelMatch(line: string, levels: seq<string>): (r: bool)
    ensures levels == [] ==> r
    ensures levels != [] ==> (r <==> exists i :: 0 <= i < |levels| && Contains(AsciiLower(line), levels[i]))
  {
    if levels == [] then true else AnyContained(AsciiLower(line), levels)
  }

  /** The regex check: passes with no patterns, otherwise when one matches. */
  function PatternMatch<R>(line: string, patterns: seq<R>, isMatch: (R, string) -> bool): (r: bool)
    ensures patterns == [] ==> r
    ensures patterns != [] ==> (r <==> exists i :: 0 <= i < |patterns| && isMatch(patterns[i], line))
  {
    if patterns == [] then true else AnyMatch(line, patterns, isMatch)
  }

  /** `line_matches`: the level check and the regex check together. */
  function LineMatches<R>(line: string, cfg: Config<R>, isMatch: (R, string) -> bool): (r: bool)
    ensures r <==>
      && (cfg.levels == [] || exists i :: 0 <= i < |cfg.levels| && Contains(AsciiLower(line), cfg.levels[i]))
      && (cfg.patterns == [] || exists i :: 0 <= i < |cfg.patterns| && isMatch(cfg.patterns[i], line))
  {
    LevelMatch(line, cfg.levels) && PatternMatch(line, cfg.patterns, isMatch)
  }

  /** Levels are compared with the lower-cased line, and they were lower-cased
      when parsed: a line matches a configured level whatever the case of
      either. */
  lemma LevelMatchIgnoresCase(line: string, raw: Option<string>)
    ensures LevelMatch(line, ParseLevels(raw)) == LevelMatch(AsciiUpper(line), ParseLevels(raw))
  {
    AsciiLowerOfUpper(line);
  }

  /** Unset LOG_REGEX still yields one pattern, the empty one, since the
      empty string splits into one empty entry and compiles; as the empty
      regular expression matches every line, the regex check passes. */
  lemma UnsetRegexPassesEveryLine<R>(line: string, compile: string -> Option<R>, isMatch: (R, string) -> bool)
    requires compile("").Some?
    requires isMatch(compile("").value, line)
    ensures ParsePatterns(None, compile) == [compile("").value]
    ensures PatternMatch(line, ParsePatterns(None, compile), isMatch)
  {
    assert Entries(None) == [""];
    assert Trim("") == "";
  }

  // ---------------------------------------------------------------------
  // start-up

  datatype Plan = NothingToWatch | Watch(files: seq<string>)

  /** `main`: with no files it reports and exits, otherwise one watcher per file. */
  function Startup<R>(cfg: Config<R>): (p: Plan)
    ensures p.NothingToWatch? <==> cfg.files == []
    ensures p.Watch? ==> p.files == cfg.files
  {
    if cfg.files == [] then NothingToWatch else Watch(cfg.files)
  }

  /** An unset or all-blank LOG_FILES watches nothing. */
  lemma BlankFilesWatchNothing<R>(env: Environment, compile: string -> Option<R>)
    requires env.logFiles.None? || forall i :: 0 <= i < |Entries(env.logFiles)| ==> IsBlank(Entries(env.logFiles)[i])
    ensures Startup(FromEnv(env, compile)) == NothingToWatch
  {
    var entries := Entries(env.logFiles);
    if env.logFiles.None? {
      assert entries == [""];
    }
    forall i | 0 <= i < |entries|
      ensures Trim(entries[i]) == []
    {
      TrimEmptyIffBlank(entries[i]);
    }
    FilterNone(entries, (e: string) => Trim(e) != []);
  }
}
