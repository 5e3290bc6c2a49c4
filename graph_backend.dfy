/**
 * The PowerShell Graph back-end panel: its three handlers (connect, fetch a few users, run a
 * typed command) and the status refresh the connect handler awaits. Each handler marks the
 * panel busy, clears the error, awaits the local back end and classifies what comes back. The
 * awaited replies are parameters: `Returned` with the parsed body or `Threw` with the error's
 * message.
 */
module GraphBackend {
  import opened Wrappers
  import opened Text
  import opened PsBackend

  const ConnectCommand := "Connect-MgGraph -UseDeviceCode -NoWelcome"
  const GetUsersCommand := "Get-MgUser -Top 5 -Select id,displayName,userPrincipalName"
  const InitialLocalCommand := "$PSVersionTable"

  const StatusCheckFailed := "Status check failed"
  const LocalConnectFailed := "Local connect failed"
  const ConnectFailed := "Connect failed"
  const CommandFailed := "Command failed"
  const LocalCommandFailed := "Local command failed"
  /** What V8 throws for `res.ok` when the reply body is `null`. */
  const NullReplyMessage := "Cannot read properties of null (reading 'ok')"

  /* ---------- classifying replies ---------- */

  /** A reply counts as a success when there is one and its `ok` is set. */
  predicate Succeeded(reply: Option<LocalReply>) {
    reply.Some? && reply.value.ok
  }

  /** The text a failed local call shows: its `error` when present (even empty), else its `errors` joined by newlines, else the fallback. */
  function FailureText(reply: Option<LocalReply>, fallback: string): string {
    if reply.Some? && reply.value.error.Some? then reply.value.error.value
    else if reply.Some? && reply.value.errors.Some? then Join(reply.value.errors.value, '\n')
    else fallback
  }

  /** The fallback shows through only when the reply carries neither `error` nor `errors`. */
  lemma FailureTextUsesFallback(reply: Option<LocalReply>, fallback: string, other: string)
    requires fallback != other
    ensures FailureText(reply, fallback) == FailureText(reply, other) <==>
      reply.Some? && (reply.value.error.Some? || reply.value.errors.Some?)
  {
  }

  /**
   * Joined `errors` read back: splitting the text at newlines gives the reported errors in
   * order, when there is at least one and none spans lines.
   */
  lemma FailureTextSplitsBack(reply: LocalReply, fallback: string)
    requires reply.error.None? && reply.errors.Some? && |reply.errors.value| >= 1
    requires forall k :: 0 <= k < |reply.errors.value| ==> '\n' !in reply.errors.value[k]
    ensures Split(FailureText(Some(reply), fallback), '\n') == reply.errors.value
  {
    SplitJoin(reply.errors.value, '\n');
  }

  /**
   * `Array.isArray(res.output) ? res.output : (res.output ? [res.output] : [])`: the users shown
   * for a successful reply.
   */
  function UsersOf(output: Option<Value>): seq<Value> {
    if output.Some? && output.value.Array? then output.value.items
    else if Truthy(output) then [output.value]
    else []
  }

  /**
   * An array is shown as its elements; any other truthy output is one user; nothing is shown
   * exactly when the output is falsy or an empty array.
   */
  lemma UsersOfShape(output: Option<Value>)
    ensures output.Some? && output.value.Array? ==> UsersOf(output) == output.value.items
    ensures Truthy(output) && !output.value.Array? ==> UsersOf(output) == [output.value]
    ensures UsersOf(output) == [] <==> !Truthy(output) || output == Some(Array([]))
  {
  }

  /** Every user shown comes from the output: an element of the array, or the output itself. */
  lemma UsersComeFromOutput(output: Option<Value>, u: Value)
    requires u in UsersOf(output)
    ensures output.Some?
    ensures if output.value.Array? then u in output.value.items else u == output.value
  {
  }

  /** `e?.message ?? fallback` */
  function ThrownText(message: Option<string>, fallback: string): string {
    OrElse(message, fallback)
  }

  /* ---------- what each handler leaves ---------- */

  /** The error `refreshStatus` leaves: none when `psStatus` returned. */
  function StatusError(reply: Outcome<Option<StatusReply>>): Option<string> {
    if reply.Threw? then Some(ThrownText(reply.message, StatusCheckFailed)) else None
  }

  /** The error `handleConnect` leaves; `status` is only awaited after an ok local reply. */
  function ConnectError(local: Outcome<Option<LocalReply>>, status: Outcome<Option<StatusReply>>): Option<string> {
    if local.Threw? then Some(ThrownText(local.message, ConnectFailed))
    else if Succeeded(local.value) then StatusError(status)
    else Some(FailureText(local.value, LocalConnectFailed))
  }

  /** `handleConnect` refreshes the status exactly when the local connect returned an ok reply. */
  predicate Refreshes(local: Outcome<Option<LocalReply>>) {
    local.Returned? && Succeeded(local.value)
  }

  /**
   * Connecting leaves no error exactly when the local connect returned an ok reply and the
   * status check then returned; a thrown status check is reported as such, not as a connect
   * failure.
   */
  lemma ConnectErrorAbsent(local: Outcome<Option<LocalReply>>, status: Outcome<Option<StatusReply>>)
    ensures ConnectError(local, status).None? <==> Refreshes(local) && status.Returned?
    ensures Refreshes(local) && status.Threw? ==>
      ConnectError(local, status) == Some(ThrownText(status.message, StatusCheckFailed))
    ensures !Refreshes(local) ==> ConnectError(local, status) == ConnectError(local, Returned(None))
  {
  }

  /** The users `handleGetUsers` leaves: set only for an ok reply. */
  function FetchedUsers(reply: Outcome<Option<LocalReply>>): Option<seq<Value>> {
    if reply.Returned? && Succeeded(reply.value) then Some(UsersOf(reply.value.value.output)) else None
  }

  /** The error `handleGetUsers` leaves. */
  function GetUsersError(reply: Outcome<Option<LocalReply>>): Option<string> {
    if reply.Threw? then Some(ThrownText(reply.message, CommandFailed))
    else if Succeeded(reply.value) then None
    else Some(FailureText(reply.value, CommandFailed))
  }

  /** Fetching users leaves exactly one of a user list and an error. */
  lemma UsersOrError(reply: Outcome<Option<LocalReply>>)
    ensures FetchedUsers(reply).Some? <==> GetUsersError(reply).None?
  {
  }

  /**
   * The connect and the user fetch read a failed reply the same way, up to their fallback
   * messages.
   */
  lemma SameFailureChain(reply: Option<LocalReply>, status: Outcome<Option<StatusReply>>)
    requires !Succeeded(reply) && reply.Some? && (reply.value.error.Some? || reply.value.errors.Some?)
    ensures ConnectError(Returned(reply), status) == GetUsersError(Returned(reply))
  {
  }

  /** The reply `handleRunLocal` stores: the body when the call returned, else still `null`. */
  function StoredResult(reply: Outcome<Option<LocalReply>>): Option<LocalReply> {
    if reply.Returned? then reply.value else None
  }

  /**
   * The error `handleRunLocal` leaves. Only `error` is consulted, never `errors`; a `null` body
   * makes `res.ok` throw, which is reported like any other exception.
   */
  function RunLocalError(reply: Outcome<Option<LocalReply>>): Option<string> {
    if reply.Threw? then Some(ThrownText(reply.message, LocalCommandFailed))
    else if reply.value.None? then Some(NullReplyMessage)
    else if reply.value.value.ok then None
    else Some(OrElse(reply.value.value.error, LocalCommandFailed))
  }

  /**
   * Running a command leaves no error exactly when it returned an ok reply, which is then the
   * stored result; a failed reply's `errors` never reach the error text.
   */
  lemma RunLocalErrorAbsent(reply: Outcome<Option<LocalReply>>)
    ensures RunLocalError(reply).None? <==> StoredResult(reply).Some? && StoredResult(reply).value.ok
    ensures reply.Returned? && reply.value.Some? && !reply.value.value.ok && reply.value.value.error.None? ==>
      RunLocalError(reply) == Some(LocalCommandFailed)
  {
  }

  /**
   * A failed reply with only `errors` shows them when fetching users but not when running a
   * command.
   */
  lemma RunLocalIgnoresErrors(reply: LocalReply)
    requires !reply.ok && reply.error.None? && reply.errors.Some?
    ensures GetUsersError(Returned(Some(reply))) == Some(Join(reply.errors.value, '\n'))
    ensures RunLocalError(Returned(Some(reply))) == Some(LocalCommandFailed)
  {
  }

  /* ---------- the component ---------- */

  class GraphBackendPanel {
    var busy: bool
    var status: Option<StatusReply>
    var error: Option<string>
    var users: Option<seq<Value>>
    var localCommand: string
    var localResult: Option<LocalReply>
    /** The commands handed to the local back end, oldest first. */
    var sent: seq<string>

    constructor ()
      ensures !busy && status == None && error == None && users == None
      ensures localCommand == InitialLocalCommand && localResult == None && sent == []
    {
      busy := false;
      status := None;
      error := None;
      users := None;
      localCommand := InitialLocalCommand;
      localResult := None;
      sent := [];
    }

    /** `refreshStatus`: clears the error, then stores the status or reports the exception. */
    method RefreshStatus(reply: Outcome<Option<StatusReply>>)
      modifies this`status, this`error
      ensures error == StatusError(reply)
      ensures status == if reply.Returned? then reply.value else old(status)
    {
      error := None;
      if reply.Returned? {
        status := reply.value;
      } else {
        error := Some(ThrownText(reply.message, StatusCheckFailed));
      }
    }

    /**
     * `handleConnect`: runs the device-code connect command and refreshes the status after an
     * ok reply, or reports the failure; the panel is not busy afterwards.
     */
    method HandleConnect(local: Outcome<Option<LocalReply>>, statusReply: Outcome<Option<StatusReply>>)
      modifies this`busy, this`error, this`status, this`sent
      ensures !busy
      ensures sent == old(sent) + [ConnectCommand]
      ensures error == ConnectError(local, statusReply)
      ensures status == if Refreshes(local) && statusReply.Returned? then statusReply.value else old(status)
    {
      busy := true;
      error := None;
      sent := sent + [ConnectCommand];
      if local.Threw? {
        error := Some(ThrownText(local.message, ConnectFailed));
      } else if Succeeded(local.value) {
        RefreshStatus(statusReply);
      } else {
        error := Some(FailureText(local.value, LocalConnectFailed));
      }
      busy := false;
    }

    /**
     * `handleGetUsers`: clears the users, runs the fixed query and shows its output as users, or
     * reports the failure; the panel is not busy afterwards.
     */
    method HandleGetUsers(reply: Outcome<Option<LocalReply>>)
      modifies this`busy, this`error, this`users, this`sent
      ensures !busy
      ensures sent == old(sent) + [GetUsersCommand]
      ensures users == FetchedUsers(reply)
      ensures error == GetUsersError(reply)
    {
      busy := true;
      error := None;
      users := None;
      sent := sent + [GetUsersCommand];
      if reply.Threw? {
        error := Some(ThrownText(reply.message, CommandFailed));
      } else if Succeeded(reply.value) {
        users := Some(UsersOf(reply.value.value.output));
      } else {
        error := Some(FailureText(reply.value, CommandFailed));
      }
      busy := false;
    }

    /**
     * `handleRunLocal`: a blank command changes nothing. Otherwise the reply is stored and a
     * failed one reported by its `error`; the panel is not busy afterwards.
     */
    method HandleRunLocal(reply: Outcome<Option<LocalReply>>)
      modifies this`busy, this`error, this`localResult, this`sent
      ensures IsBlank(localCommand) ==>
        busy == old(busy) && error == old(error) && localResult == old(localResult) && sent == old(sent)
      ensures !IsBlank(localCommand) ==>
        !busy && error == RunLocalError(reply) && localResult == StoredResult(reply)
        && sent == old(sent) + [localCommand]
    {
      if IsBlank(localCommand) {
        return;
      }
      busy := true;
      error := None;
      localResult := None;
      sent := sent + [localCommand];
      if reply.Threw? {
        error := Some(ThrownText(reply.message, LocalCommandFailed));
      } else {
        localResult := reply.value;
        if reply.value.None? {
          error := Some(NullReplyMessage);
        } else if !reply.value.value.ok {
          error := Some(OrElse(reply.value.value.error, LocalCommandFailed));
        }
      }
      busy := false;
    }
  }
}
