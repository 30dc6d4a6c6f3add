/** The plugin contract: three status codes, an activation flag every plugin
    starts without, and the base command executor that recognises nothing. */
module Categories {
  import opened Outcomes

  /** EXEC_NOTFOUND, EXEC_SUCCESS and EXEC_FAILED. */
  datatype ExecStatus = ExecNotFound | ExecSuccess | ExecFailed {
    /** The integer the plugin returns for this status. */
    function Code(): int {
      match this
      case ExecNotFound => 0
      case ExecSuccess => 1
      case ExecFailed => 2
    }
  }

  /** The status a returned integer stands for, if any. */
  function StatusOfCode(n: int): (r: Option<ExecStatus>)
    ensures r.Some? <==> 0 <= n <= 2
  {
    if n == 0 then Some(ExecNotFound)
    else if n == 1 then Some(ExecSuccess)
    else if n == 2 then Some(ExecFailed)
    else None
  }

  /** The codes are distinct: decoding a status's code gives it back, and
      every decodable code is the code of what it decodes to. */
  lemma StatusCodesDistinct(st: ExecStatus, n: int)
    ensures StatusOfCode(st.Code()) == Some(st)
    ensures StatusOfCode(n).Some? ==> StatusOfCode(n).value.Code() == n
  {
  }

  /** What `execCommand` returns: a status and the command's output. */
  datatype ExecResult = ExecResult(status: ExecStatus, output: string)

  /** The plugin handled the command. */
  predicate Succeeded(r: Result<ExecResult>) {
    r.Ok? && r.value.status == ExecSuccess
  }

  /** The base class's answer, given to every command. */
  const NotHandled := ExecResult(ExecNotFound, "")

  /** A plugin: its display name and whether the user has activated it. */
  class DPlugin {
    const name: string
    var activateStatus: bool

    /** A freshly loaded plugin is inactive. */
    constructor (name: string)
      ensures this.name == name && !activateStatus
    {
      this.name := name;
      activateStatus := false;
    }

    method Activate()
      modifies this
      ensures activateStatus
    {
      activateStatus := true;
    }

    method Deactivate()
      modifies this
      ensures !activateStatus
    {
      activateStatus := false;
    }

    method IsActivate() returns (active: bool)
      ensures active == activateStatus
    {
      active := activateStatus;
    }

    /** The base executor recognises no command, whatever the flag. */
    method ExecCommand(command: string) returns (r: Result<ExecResult>)
      ensures r == Ok(NotHandled)
    {
      r := Ok(ExecResult(ExecNotFound, ""));
    }
  }
}
