/** The helper CLI's command plumbing: the `logs` argument vector, the exit
    status check shared by every docker-compose call, and the dispatch of
    the `env` subcommand. */
module HelperCli {
  import opened Base
  import opened EnvFile

  /** Why `run_command` failed. */
  datatype CommandError = SpawnFailed | NonZeroExit(code: Option<int>)

  /** `run_command`: `None` stands for a child that could not be spawned. */
  function RunCommand(status: Option<ExitStatus>): (r: Result<(), CommandError>)
    ensures r.Ok? <==> status.Some? && status.value.Success()
    ensures status.None? ==> r == Err(SpawnFailed)
    ensures status.Some? && status.value.Exited? && status.value.code != 0 ==>
              r == Err(NonZeroExit(Some(status.value.code)))
    ensures status == Some(Signaled) ==> r == Err(NonZeroExit(None))
  {
    match status
    case None => Err(SpawnFailed)
    case Some(s) =>
      if s.Success() then Ok(())
      else Err(NonZeroExit(if s.Exited? then Some(s.code) else None))
  }

  /** `logs`: the arguments handed to `docker-compose`. */
  method LogsArgs(service: Option<string>) returns (args: seq<string>)
    ensures |args| == if service.Some? then 3 else 2
    ensures args[..2] == ["logs", "-f"]
    ensures service.Some? ==> args[2] == service.value
  {
    args := ["logs", "-f"];
    if service.Some? {
      args := args + [service.value];
    }
  }

  /** The visible effect of one `env` subcommand. */
  datatype EnvEffect = Print(line: string) | Write(contents: string)

  /** `Commands::Env`: `get` needs a key, `set` a key and a value; anything
      else is an unknown action. `file` is the current text of `.env`. */
  function EnvCommand(action: string, key: Option<string>, value: Option<string>, file: Option<string>): (r: EnvEffect)
    ensures r.Write? <==> action == "set" && key.Some? && value.Some?
    ensures action == "set" && key.Some? && value.Some? ==>
              r == Write(SetSpec(file, key.value, value.value))
    ensures r.Write? && EntryOk(key.value, value.value) ==>
              GetSpec(Some(r.contents), key.value) == Found(value.value)
    ensures action == "get" && key.Some? ==> r == Print(GetSpec(file, key.value).Printed())
    ensures action == "get" && key.None? ==> r == Print("Please specify key")
    ensures action == "set" && (key.None? || value.None?) ==> r == Print("Please specify key and value")
    ensures action != "get" && action != "set" ==> r == Print("Unknown env action")
  {
    if action == "get" then
      if key.Some? then Print(GetSpec(file, key.value).Printed()) else Print("Please specify key")
    else if action == "set" then
      if key.Some? && value.Some? then
        var written := SetSpec(file, key.value, value.value);
        if EntryOk(key.value, value.value) then
          EnvRoundTrip(file, key.value, value.value);
          Write(written)
        else
          Write(written)
      else
        Print("Please specify key and value")
    else
      Print("Unknown env action")
  }
}
