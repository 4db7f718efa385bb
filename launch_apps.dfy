/** launch_apps.py: load every registry document and run `docker compose`
    for each app in turn. A Python exception ends the script; it appears as
    a final `Crash` step. `run` says how a command would end (`None`: it
    could not be started). */
module LaunchApps {
  import opened Base
  import opened Seqs
  import opened AppRecords

  datatype Failure = BadYaml(file: string) | NoName | CommandFailed(command: seq<string>)

  datatype Step =
    | Announce(app: string, action: string)   // print(f"Running '{action}' for {app['name']}")
    | Run(command: seq<string>)              // subprocess.run(cmd, check=True)
    | Crash(failure: Failure)

  /** `sys.argv[1] if len(sys.argv) > 1 else "up"` */
  function Action(argv: seq<string>): (action: string)
    ensures |argv| > 1 ==> action == argv[1]
    ensures |argv| <= 1 ==> action == "up"
  {
    if |argv| > 1 then argv[1] else "up"
  }

  /** `load_registry`: the documents of the `.yaml` files, in listing order;
      the first file that does not parse ends the script. */
  function DocsOf(entries: seq<DirEntry>): (r: Result<seq<Doc>, string>)
    ensures r.Ok? ==> |r.value| <= |entries|
    decreases |entries|
  {
    if entries == [] then Ok([])
    else if !IsYaml(entries[0]) then DocsOf(entries[1..])
    else if entries[0].doc.Unparseable? then Err(entries[0].fileName)
    else
      match DocsOf(entries[1..])
      case Err(f) => Err(f)
      case Ok(rest) => Ok([entries[0].doc] + rest)
  }

  /** Loaded documents are exactly those of the `.yaml` files, in order. */
  lemma {:induction false} DocsOfYamlFiles(entries: seq<DirEntry>)
    requires DocsOf(entries).Ok?
    ensures DocsOf(entries).value == Map(Filter(entries, IsYaml))
    decreases |entries|
  {
    if entries != [] {
      var tail := entries[1..];
      var kept := Filter(entries, IsYaml);
      if IsYaml(entries[0]) {
        assert DocsOf(entries) == Ok([entries[0].doc] + DocsOf(tail).value);
        DocsOfYamlFiles(tail);
        assert kept == [entries[0]] + Filter(tail, IsYaml);
        MapCons(entries[0], Filter(tail, IsYaml));
      } else {
        assert DocsOf(entries) == DocsOf(tail);
        DocsOfYamlFiles(tail);
        assert kept == Filter(tail, IsYaml);
      }
    }
  }

  /** A `.yaml` entry whose text does not parse: `yaml.safe_load` raises on it. */
  predicate Unloadable(e: DirEntry) {
    IsYaml(e) && e.doc.Unparseable?
  }

  /** Loading fails exactly when some `.yaml` file does not parse, and the
      error names the first such file in listing order. */
  lemma {:induction false} DocsOfFailsAtFirstBadFile(entries: seq<DirEntry>)
    ensures DocsOf(entries).Err? <==> exists i :: 0 <= i < |entries| && Unloadable(entries[i])
    ensures DocsOf(entries).Err? ==>
              exists i :: 0 <= i < |entries| && Unloadable(entries[i])
                          && DocsOf(entries).error == entries[i].fileName
                          && forall j :: 0 <= j < i ==> !Unloadable(entries[j])
    decreases |entries|
  {
    if entries != [] {
      var tail := entries[1..];
      DocsOfFailsAtFirstBadFile(tail);
      assert forall k :: 0 <= k < |tail| ==> tail[k] == entries[k + 1];
      if Unloadable(entries[0]) {
        assert DocsOf(entries) == Err(entries[0].fileName);
      } else {
        assert DocsOf(entries).Err? <==> DocsOf(tail).Err?;
        if DocsOf(tail).Err? {
          assert DocsOf(entries).error == DocsOf(tail).error;
          var k :| 0 <= k < |tail| && Unloadable(tail[k]) && DocsOf(tail).error == tail[k].fileName
                   && forall j :: 0 <= j < k ==> !Unloadable(tail[j]);
          assert Unloadable(entries[k + 1]);
          assert forall j :: 0 <= j < k + 1 ==> !Unloadable(entries[j]) by {
            forall j | 0 <= j < k + 1
              ensures !Unloadable(entries[j])
            {
              if j > 0 { assert entries[j] == tail[j - 1]; }
            }
          }
        } else {
          forall i | 0 <= i < |entries|
            ensures !Unloadable(entries[i])
          {
            if i > 0 { assert entries[i] == tail[i - 1]; }
          }
        }
      }
    }
  }

  /** The documents of some directory entries. */
  function Map(entries: seq<DirEntry>): (docs: seq<Doc>)
    ensures |docs| == |entries|
    ensures forall i :: 0 <= i < |entries| ==> docs[i] == entries[i].doc
  {
    seq(|entries|, i requires 0 <= i < |entries| => entries[i].doc)
  }

  lemma MapCons(e: DirEntry, entries: seq<DirEntry>)
    ensures Map([e] + entries) == [e.doc] + Map(entries)
  {
    var l := Map([e] + entries);
    var r := [e.doc] + Map(entries);
    forall i | 0 <= i < |l|
      ensures l[i] == r[i]
    {
      if i > 0 {
        assert ([e] + entries)[i] == entries[i - 1];
      }
    }
  }

  /** `load_registry`, appending one document per `.yaml` file. */
  method LoadRegistry(entries: seq<DirEntry>) returns (r: Result<seq<Doc>, string>)
    ensures r == DocsOf(entries)
  {
    var apps: seq<Doc> := [];
    var i := 0;
    while i < |entries|
      invariant 0 <= i <= |entries|
      invariant DocsOf(entries).Err? ==> DocsOf(entries[i..]) == DocsOf(entries)
      invariant DocsOf(entries).Ok? ==> DocsOf(entries[i..]).Ok? && apps + DocsOf(entries[i..]).value == DocsOf(entries).value
      invariant DocsOf(entries[i..]).Err? ==> DocsOf(entries).Err?
    {
      assert entries[i..][0] == entries[i] && entries[i..][1..] == entries[i + 1..];
      if IsYaml(entries[i]) {
        if entries[i].doc.Unparseable? {
          assert DocsOf(entries[i..]) == Err(entries[i].fileName);
          return Err(entries[i].fileName);
        }
        apps := apps + [entries[i].doc];
      }
      i := i + 1;
    }
    assert DocsOf(entries[i..]) == Ok([]);
    assert apps + [] == apps;
    r := Ok(apps);
  }

  /** `run_compose`'s command for a document, when it has a compose file. */
  function ComposeCommand(file: string, action: string): (cmd: seq<string>)
    ensures |cmd| == 6 && cmd[..3] == ["docker", "compose", "-f"]
    ensures cmd[3] == file && cmd[4] == action && cmd[5] == "-d"
  {
    ["docker", "compose", "-f", file, action, "-d"]
  }

  /** The commands the apps ask for, in registry order. */
  function Commands(docs: seq<Doc>, action: string): (cmds: seq<seq<string>>)
    ensures |cmds| <= |docs|
  {
    if docs == [] then []
    else
      (if HasCompose(docs[0]) then [ComposeCommand(docs[0].composeFile.value, action)] else [])
      + Commands(docs[1..], action)
  }

  /** The `for app in apps` loop: announce, then run the compose command if
      the app has a compose file; any exception ends it. */
  function Steps(docs: seq<Doc>, action: string, run: seq<string> -> Option<ExitStatus>): seq<Step>
    decreases |docs|
  {
    if docs == [] then []
    else
      var doc := docs[0];
      if !doc.Mapping? || doc.name.None? then [Crash(NoName)]
      else
        var rest := Steps(docs[1..], action, run);
        if !HasCompose(doc) then [Announce(doc.name.value, action)] + rest
        else
          var cmd := ComposeCommand(doc.composeFile.value, action);
          var status := run(cmd);
          if status.Some? && status.value.Success() then [Announce(doc.name.value, action), Run(cmd)] + rest
          else [Announce(doc.name.value, action), Run(cmd), Crash(CommandFailed(cmd))]
  }

  /** `main` */
  function Launch(argv: seq<string>, entries: seq<DirEntry>, run: seq<string> -> Option<ExitStatus>): seq<Step> {
    match DocsOf(entries)
    case Err(f) => [Crash(BadYaml(f))]
    case Ok(docs) => Steps(docs, Action(argv), run)
  }

  /** `main`, as the loop it is. */
  method RunApps(argv: seq<string>, entries: seq<DirEntry>, run: seq<string> -> Option<ExitStatus>) returns (steps: seq<Step>)
    ensures steps == Launch(argv, entries, run)
  {
    var action := Action(argv);
    var loaded := LoadRegistry(entries);
    if loaded.Err? {
      return [Crash(BadYaml(loaded.error))];
    }
    var apps := loaded.value;
    steps := [];
    var i := 0;
    while i < |apps|
      invariant 0 <= i <= |apps|
      invariant steps + Steps(apps[i..], action, run) == Launch(argv, entries, run)
    {
      assert apps[i..][0] == apps[i] && apps[i..][1..] == apps[i + 1..];
      var app := apps[i];
      if !app.Mapping? || app.name.None? {
        steps := steps + [Crash(NoName)];
        return;
      }
      steps := steps + [Announce(app.name.value, action)];
      if HasCompose(app) {
        var cmd := ComposeCommand(app.composeFile.value, action);
        steps := steps + [Run(cmd)];
        var status := run(cmd);
        if !(status.Some? && status.value.Success()) {
          steps := steps + [Crash(CommandFailed(cmd))];
          return;
        }
      }
      i := i + 1;
    }
    assert apps[i..] == [];
  }

  /** The commands that ran, in order. */
  function Runs(steps: seq<Step>): (cmds: seq<seq<string>>)
    ensures |cmds| <= |steps|
  {
    if steps == [] then []
    else (if steps[0].Run? then [steps[0].command] else []) + Runs(steps[1..])
  }

  predicate Prefix<T(==)>(a: seq<T>, b: seq<T>) {
    |a| <= |b| && b[..|a|] == a
  }

  lemma {:induction false} RunsAppend(a: seq<Step>, b: seq<Step>)
    ensures Runs(a + b) == Runs(a) + Runs(b)
    decreases |a|
  {
    if a == [] {
      assert a + b == b;
    } else {
      assert (a + b)[0] == a[0] && (a + b)[1..] == a[1..] + b;
      RunsAppend(a[1..], b);
    }
  }

  /** The steps for the first app, before the rest of the registry. */
  lemma StepsUnfold(docs: seq<Doc>, action: string, run: seq<string> -> Option<ExitStatus>)
    requires docs != [] && docs[0].Mapping? && docs[0].name.Some?
    ensures var a := Announce(docs[0].name.value, action);
            var rest := Steps(docs[1..], action, run);
            && (!HasCompose(docs[0]) ==> Steps(docs, action, run) == [a] + rest)
            && (HasCompose(docs[0]) ==>
                  var cmd := ComposeCommand(docs[0].composeFile.value, action);
                  && (run(cmd).Some? && run(cmd).value.Success() ==>
                        Steps(docs, action, run) == [a, Run(cmd)] + rest)
                  && (!(run(cmd).Some? && run(cmd).value.Success()) ==>
                        Steps(docs, action, run) == [a, Run(cmd), Crash(CommandFailed(cmd))]))
  {
  }

  /** Commands run in registry order, at most one per app and none for an
      app without a compose file. */
  lemma {:induction false} RunsFollowRegistry(docs: seq<Doc>, action: string, run: seq<string> -> Option<ExitStatus>)
    ensures Prefix(Runs(Steps(docs, action, run)), Commands(docs, action))
    decreases |docs|
  {
    if docs != [] && docs[0].Mapping? && docs[0].name.Some? {
      RunsFollowRegistry(docs[1..], action, run);
      StepsUnfold(docs, action, run);
      var doc := docs[0];
      var a := Announce(doc.name.value, action);
      var rest := Steps(docs[1..], action, run);
      var later := Commands(docs[1..], action);
      if !HasCompose(doc) {
        RunsAppend([a], rest);
        assert Runs([a]) == [];
        assert Commands(docs, action) == later;
      } else {
        var cmd := ComposeCommand(doc.composeFile.value, action);
        assert Commands(docs, action) == [cmd] + later;
        if run(cmd).Some? && run(cmd).value.Success() {
          RunsAppend([a, Run(cmd)], rest);
          assert Runs([a, Run(cmd)]) == [cmd];
        } else {
          var crash := Crash(CommandFailed(cmd));
          RunsAppend([a, Run(cmd)], [crash]);
          assert [a, Run(cmd)] + [crash] == [a, Run(cmd), crash];
          assert Runs([a, Run(cmd)]) == [cmd];
          assert Runs([crash]) == [];
        }
      }
    }
  }

  /** A failure, when there is one, is the last step. */
  lemma {:induction false} CrashIsLast(docs: seq<Doc>, action: string, run: seq<string> -> Option<ExitStatus>)
    ensures forall i :: 0 <= i < |Steps(docs, action, run)| && Steps(docs, action, run)[i].Crash? ==>
              i == |Steps(docs, action, run)| - 1
    decreases |docs|
  {
    if docs != [] && docs[0].Mapping? && docs[0].name.Some? {
      CrashIsLast(docs[1..], action, run);
      StepsUnfold(docs, action, run);
      var steps := Steps(docs, action, run);
      var rest := Steps(docs[1..], action, run);
      if !HasCompose(docs[0]) {
        assert forall i :: 1 <= i < |steps| ==> steps[i] == rest[i - 1];
      } else {
        var cmd := ComposeCommand(docs[0].composeFile.value, action);
        if run(cmd).Some? && run(cmd).value.Success() {
          assert forall i :: 2 <= i < |steps| ==> steps[i] == rest[i - 2];
        }
      }
    }
  }

  /** No step of a run is a failure. */
  predicate NoCrash(steps: seq<Step>) {
    forall i :: 0 <= i < |steps| ==> !steps[i].Crash?
  }

  /** The steps after a crash-free prefix are crash-free too. */
  lemma NoCrashTail(a: seq<Step>, b: seq<Step>)
    requires NoCrash(a + b)
    ensures NoCrash(b)
  {
    forall i | 0 <= i < |b|
      ensures !b[i].Crash?
    {
      assert b[i] == (a + b)[|a| + i];
    }
  }

  /** Without a failure every app with a compose file had its command run. */
  lemma {:induction false} AllRunWithoutCrash(docs: seq<Doc>, action: string, run: seq<string> -> Option<ExitStatus>)
    ensures NoCrash(Steps(docs, action, run)) ==> Runs(Steps(docs, action, run)) == Commands(docs, action)
    decreases |docs|
  {
    var steps := Steps(docs, action, run);
    if docs == [] {
    } else if !(docs[0].Mapping? && docs[0].name.Some?) {
      assert steps == [Crash(NoName)];
      assert steps[0].Crash?;
    } else {
      StepsUnfold(docs, action, run);
      var doc := docs[0];
      var a := Announce(doc.name.value, action);
      var rest := Steps(docs[1..], action, run);
      var later := Commands(docs[1..], action);
      if !HasCompose(doc) {
        if NoCrash(steps) {
          NoCrashTail([a], rest);
          AllRunWithoutCrash(docs[1..], action, run);
          RunsAppend([a], rest);
          assert Runs([a]) == [];
          assert Commands(docs, action) == later;
        }
      } else {
        var cmd := ComposeCommand(doc.composeFile.value, action);
        if run(cmd).Some? && run(cmd).value.Success() {
          if NoCrash(steps) {
            NoCrashTail([a, Run(cmd)], rest);
            AllRunWithoutCrash(docs[1..], action, run);
            RunsAppend([a, Run(cmd)], rest);
            assert Runs([a, Run(cmd)]) == [cmd];
            assert Commands(docs, action) == [cmd] + later;
          }
        } else {
          assert steps[2].Crash?;
        }
      }
    }
  }
}
