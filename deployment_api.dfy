/** deployment_api: the registry built from the app-registry directory, and
    the `/apps`, `/deploy/{name}` and `/stop/{name}` handlers. */
module DeploymentApi {
  import opened Base
  import opened Seqs
  import opened AppRecords

  /** A Python dict from app name to compose file, in insertion order. */
  type Registry = seq<(string, string)>

  function Names(reg: Registry): (names: seq<string>)
    ensures |names| == |reg|
    ensures forall i :: 0 <= i < |reg| ==> names[i] == reg[i].0
  {
    seq(|reg|, i requires 0 <= i < |reg| => reg[i].0)
  }

  predicate Distinct(names: seq<string>) {
    forall a, b :: 0 <= a < b < |names| ==> names[a] != names[b]
  }

  /** `reg.get(name)` */
  function Get(reg: Registry, name: string): (r: Option<string>)
    ensures r.None? <==> name !in Names(reg)
    ensures r.Some? ==> exists i :: 0 <= i < |reg| && reg[i] == (name, r.value)
  {
    if reg == [] then None
    else if reg[0].0 == name then Some(reg[0].1)
    else Get(reg[1..], name)
  }

  /** `reg[name] = file`: an existing name keeps its place and takes the new
      file; a new name goes at the end. */
  function Put(reg: Registry, name: string, file: string): (r: Registry)
    ensures Names(r) == if name in Names(reg) then Names(reg) else Names(reg) + [name]
  {
    if reg == [] then [(name, file)]
    else if reg[0].0 == name then [(name, file)] + reg[1..]
    else [reg[0]] + Put(reg[1..], name, file)
  }

  /** After `reg[name] = file`, `name` reads `file` and no other name changes. */
  lemma {:induction false} PutGet(reg: Registry, name: string, file: string, other: string)
    ensures Get(Put(reg, name, file), name) == Some(file)
    ensures other != name ==> Get(Put(reg, name, file), other) == Get(reg, other)
  {
    if reg != [] && reg[0].0 != name {
      PutGet(reg[1..], name, file, other);
    }
  }

  lemma PutKeepsDistinct(reg: Registry, name: string, file: string)
    requires Distinct(Names(reg))
    ensures Distinct(Names(Put(reg, name, file)))
  {
    if name !in Names(reg) {
      var names := Names(reg) + [name];
      assert forall a :: 0 <= a < |Names(reg)| ==> names[a] != name;
    }
  }

  datatype LoadError = BadYaml(file: string) | NotAMapping(file: string) | MissingName(file: string)

  /** One pass of the `load_registry` loop. Reading `data["name"]` happens
      only for a record with a compose file. */
  function Register(reg: Registry, e: DirEntry): (r: Result<Registry, LoadError>)
    ensures !IsYaml(e) ==> r == Ok(reg)
    ensures IsYaml(e) && e.doc.Unparseable? ==> r == Err(BadYaml(e.fileName))
    ensures IsYaml(e) && e.doc.NotMapping? ==> r == Err(NotAMapping(e.fileName))
    ensures IsYaml(e) && e.doc.Mapping? && !HasCompose(e.doc) ==> r == Ok(reg)
    ensures IsYaml(e) && HasCompose(e.doc) && e.doc.name.None? ==> r == Err(MissingName(e.fileName))
    ensures IsYaml(e) && HasCompose(e.doc) && e.doc.name.Some? ==>
              r == Ok(Put(reg, e.doc.name.value, e.doc.composeFile.value))
  {
    if !IsYaml(e) then Ok(reg)
    else
      match e.doc
      case Unparseable => Err(BadYaml(e.fileName))
      case NotMapping => Err(NotAMapping(e.fileName))
      case Mapping(name, compose) =>
        if !HasCompose(e.doc) then Ok(reg)
        else if name.None? then Err(MissingName(e.fileName))
        else Ok(Put(reg, name.value, compose.value))
  }

  /** The loop over the rest of the listing, from registry `reg`. */
  function RegisterAll(reg: Registry, entries: seq<DirEntry>): Result<Registry, LoadError>
    decreases |entries|
  {
    if entries == [] then Ok(reg)
    else
      match Register(reg, entries[0])
      case Err(e) => Err(e)
      case Ok(next) => RegisterAll(next, entries[1..])
  }

  /** `load_registry()` over the directory listing, in listing order. */
  function RegistryOf(entries: seq<DirEntry>): Result<Registry, LoadError> {
    RegisterAll([], entries)
  }

  /** `load_registry`: the loop that fills the dict, stopping at the first
      exception. */
  method LoadRegistry(entries: seq<DirEntry>) returns (r: Result<Registry, LoadError>)
    ensures r == RegistryOf(entries)
  {
    var apps: Registry := [];
    var i := 0;
    while i < |entries|
      invariant 0 <= i <= |entries|
      invariant RegisterAll(apps, entries[i..]) == RegistryOf(entries)
    {
      assert entries[i..][0] == entries[i] && entries[i..][1..] == entries[i + 1..];
      var step := Register(apps, entries[i]);
      if step.Err? {
        return Err(step.error);
      }
      apps := step.value;
      i := i + 1;
    }
    assert entries[i..] == [];
    r := Ok(apps);
  }

  /** Only `.yaml` files matter: the others can be dropped from the listing. */
  lemma {:induction false} OnlyYamlFilesRead(reg: Registry, entries: seq<DirEntry>)
    ensures RegisterAll(reg, entries) == RegisterAll(reg, Filter(entries, IsYaml))
    decreases |entries|
  {
    if entries != [] {
      OnlyYamlFilesRead(reg, entries[1..]);
      if Register(reg, entries[0]).Ok? {
        OnlyYamlFilesRead(Register(reg, entries[0]).value, entries[1..]);
      }
      var kept := Filter(entries, IsYaml);
      if IsYaml(entries[0]) {
        assert kept == [entries[0]] + Filter(entries[1..], IsYaml);
        assert kept[0] == entries[0] && kept[1..] == Filter(entries[1..], IsYaml);
      } else {
        assert kept == Filter(entries[1..], IsYaml);
      }
    }
  }

  /** Entry `e` registers `name` with `file`. */
  predicate Registers(e: DirEntry, name: string, file: string) {
    IsYaml(e) && HasCompose(e.doc) && e.doc.name == Some(name) && e.doc.composeFile == Some(file)
  }

  predicate RegistersName(e: DirEntry, name: string) {
    IsYaml(e) && HasCompose(e.doc) && e.doc.name == Some(name)
  }

  /** A name no entry registers keeps what it had. */
  lemma {:induction false} UnregisteredNameKept(reg: Registry, entries: seq<DirEntry>, name: string)
    requires RegisterAll(reg, entries).Ok?
    requires forall k :: 0 <= k < |entries| ==> !RegistersName(entries[k], name)
    ensures Get(RegisterAll(reg, entries).value, name) == Get(reg, name)
    decreases |entries|
  {
    if entries != [] {
      var e := entries[0];
      var next := Register(reg, e).value;
      UnregisteredNameKept(next, entries[1..], name);
      if IsYaml(e) && HasCompose(e.doc) {
        PutGet(reg, e.doc.name.value, e.doc.composeFile.value, name);
      }
    }
  }

  /** With duplicate names, the later file in listing order wins. */
  lemma {:induction false} LaterFileWins(reg: Registry, entries: seq<DirEntry>, j: int, name: string, file: string)
    requires RegisterAll(reg, entries).Ok?
    requires 0 <= j < |entries| && Registers(entries[j], name, file)
    requires forall k :: j < k < |entries| ==> !RegistersName(entries[k], name)
    ensures Get(RegisterAll(reg, entries).value, name) == Some(file)
    decreases |entries|
  {
    var next := Register(reg, entries[0]).value;
    if j == 0 {
      PutGet(reg, name, file, name);
      UnregisteredNameKept(next, entries[1..], name);
    } else {
      LaterFileWins(next, entries[1..], j - 1, name, file);
    }
  }

  /** The registry holds each name once, with a non-empty compose file. */
  lemma {:induction false} RegistryWellFormed(reg: Registry, entries: seq<DirEntry>)
    requires Distinct(Names(reg)) && forall i :: 0 <= i < |reg| ==> reg[i].1 != []
    requires RegisterAll(reg, entries).Ok?
    ensures Distinct(Names(RegisterAll(reg, entries).value))
    ensures forall i :: 0 <= i < |RegisterAll(reg, entries).value| ==> RegisterAll(reg, entries).value[i].1 != []
    decreases |entries|
  {
    if entries != [] {
      var e := entries[0];
      var next := Register(reg, e).value;
      if IsYaml(e) && HasCompose(e.doc) {
        PutKeepsDistinct(reg, e.doc.name.value, e.doc.composeFile.value);
        PutFilesNonEmpty(reg, e.doc.name.value, e.doc.composeFile.value);
      }
      RegistryWellFormed(next, entries[1..]);
    }
  }

  /** A loaded registry holds each name once, with a non-empty file. */
  lemma LoadedRegistryWellFormed(entries: seq<DirEntry>)
    ensures RegistryOf(entries).Ok? ==> Distinct(Names(RegistryOf(entries).value))
    ensures RegistryOf(entries).Ok? ==> forall i :: 0 <= i < |RegistryOf(entries).value| ==> RegistryOf(entries).value[i].1 != []
  {
    if RegistryOf(entries).Ok? {
      RegistryWellFormed([], entries);
    }
  }

  lemma {:induction false} PutFilesNonEmpty(reg: Registry, name: string, file: string)
    requires file != [] && forall i :: 0 <= i < |reg| ==> reg[i].1 != []
    ensures forall i :: 0 <= i < |Put(reg, name, file)| ==> Put(reg, name, file)[i].1 != []
  {
    if reg != [] && reg[0].0 != name {
      PutFilesNonEmpty(reg[1..], name, file);
    }
  }

  // ---------------------------------------------------------------------
  // handlers

  datatype Reply =
    | AppList(apps: seq<string>)                 // {"apps": [...]}
    | Done(status: string, app: string)          // {"status": ..., "app": ...}
    | HttpError(code: int, detail: string)

  /** The HTTP status the reply goes out with; an exception is a 500. */
  function StatusCode(r: Reply): (code: int)
    ensures r.HttpError? ==> code == r.code
    ensures !r.HttpError? ==> code == 200
  {
    if r.HttpError? then r.code else 200
  }

  const ServerError: Reply := HttpError(500, "Internal Server Error")

  /** A handler's reply and the command it ran, if any. */
  datatype Outcome = Outcome(reply: Reply, command: Option<seq<string>>)

  /** `list_apps` */
  function ListApps(entries: seq<DirEntry>): (r: Reply)
    ensures RegistryOf(entries).Err? ==> r == ServerError
    ensures RegistryOf(entries).Ok? ==> r == AppList(Names(RegistryOf(entries).value))
  {
    match RegistryOf(entries)
    case Err(_) => ServerError
    case Ok(reg) => AppList(Names(reg))
  }

  /** `list_apps` names exactly the registered apps, each once. */
  lemma ListAppsNamesRegistered(entries: seq<DirEntry>, name: string)
    requires RegistryOf(entries).Ok?
    ensures ListApps(entries).AppList?
    ensures name in ListApps(entries).apps <==> Get(RegistryOf(entries).value, name).Some?
    ensures Distinct(ListApps(entries).apps)
  {
    RegistryWellFormed([], entries);
  }

  function DeployCommand(file: string): seq<string> {
    ["docker", "compose", "-f", file, "up", "-d", "--build"]
  }

  function StopCommand(file: string): seq<string> {
    ["docker", "compose", "-f", file, "down"]
  }

  /** The shared shape of `deploy` and `stop`: look the app up, answer 404
      when it is unknown (or its file empty), otherwise run `command(file)` with `check=True`. */
  function Control(entries: seq<DirEntry>, appName: string, command: string -> seq<string>,
                   done: string, exit: Option<ExitStatus>): (o: Outcome)
    ensures RegistryOf(entries).Err? ==> o == Outcome(ServerError, None)
    ensures RegistryOf(entries).Ok? && Get(RegistryOf(entries).value, appName).None? ==>
              o == Outcome(HttpError(404, "Unknown app"), None)
    ensures RegistryOf(entries).Ok? && Get(RegistryOf(entries).value, appName) == Some([]) ==>
              o == Outcome(HttpError(404, "Unknown app"), None)
    ensures RegistryOf(entries).Ok? && Get(RegistryOf(entries).value, appName).Some? &&
            Get(RegistryOf(entries).value, appName).value != [] ==>
              && o.command == Some(command(Get(RegistryOf(entries).value, appName).value))
              && (o.reply == if exit.Some? && exit.value.Success() then Done(done, appName) else ServerError)
  {
    match RegistryOf(entries)
    case Err(_) => Outcome(ServerError, None)
    case Ok(reg) =>
      match Get(reg, appName)
      case None => Outcome(HttpError(404, "Unknown app"), None)
      case Some(file) =>
        if file == [] then Outcome(HttpError(404, "Unknown app"), None)
        else
        var cmd := command(file);
        if exit.Some? && exit.value.Success() then Outcome(Done(done, appName), Some(cmd))
        else Outcome(ServerError, Some(cmd))
  }

  /** `deploy`; `exit` is how `docker compose up` would end (`None`: it
      could not be started). */
  function Deploy(entries: seq<DirEntry>, appName: string, exit: Option<ExitStatus>): (o: Outcome)
    ensures o.command.Some? <==> RegistryOf(entries).Ok? && Get(RegistryOf(entries).value, appName).Some?
    ensures o.command.Some? ==> o.command.value == DeployCommand(Get(RegistryOf(entries).value, appName).value)
    ensures RegistryOf(entries).Ok? && Get(RegistryOf(entries).value, appName).None? ==> StatusCode(o.reply) == 404
    ensures o.reply.Done? <==> o.command.Some? && exit.Some? && exit.value.Success()
    ensures o.reply.Done? ==> o.reply == Done("deployed", appName)
  {
    LoadedRegistryWellFormed(entries);
    Control(entries, appName, DeployCommand, "deployed", exit)
  }

  /** `stop` */
  function Stop(entries: seq<DirEntry>, appName: string, exit: Option<ExitStatus>): (o: Outcome)
    ensures o.command.Some? <==> RegistryOf(entries).Ok? && Get(RegistryOf(entries).value, appName).Some?
    ensures o.command.Some? ==> o.command.value == StopCommand(Get(RegistryOf(entries).value, appName).value)
    ensures RegistryOf(entries).Ok? && Get(RegistryOf(entries).value, appName).None? ==> StatusCode(o.reply) == 404
    ensures o.reply.Done? <==> o.command.Some? && exit.Some? && exit.value.Success()
    ensures o.reply.Done? ==> o.reply == Done("stopped", appName)
  {
    LoadedRegistryWellFormed(entries);
    Control(entries, appName, StopCommand, "stopped", exit)
  }
}
