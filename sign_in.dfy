/**
 * The sign-in screen's logic: the bounded debug log, the optional-scope search and selection,
 * the `Connect-MgGraph` command it sends, and `connectGraph`, which runs that command in the
 * local PowerShell session, checks the connection status and reports failures.
 *
 * The back-end calls are given to `ConnectGraph` as their outcomes. The texts the browser renders
 * (`JSON.stringify` of the replies, the error stack, the time of day) are given as strings.
 */
module SignIn {
  import opened Wrappers
  import opened Text
  import opened Scopes
  import opened PsBackend

  /* ---------- the debug log ---------- */

  /** A log line: the time of day, a colon and the message. */
  function LogEntry(stamp: string, message: string): string {
    stamp + ": " + message
  }

  /** `[...prev.slice(-9), entry]`: the new entry last, after at most nine of the latest earlier ones. */
  function Appended(prev: seq<string>, entry: string): (r: seq<string>)
    ensures |r| <= 10 && |r| == (if |prev| < 9 then |prev| else 9) + 1
    ensures r[|r| - 1] == entry
  {
    LastN(prev, 9) + [entry]
  }

  /** The log after adding each of `entries` in turn. */
  function AppendedAll(prev: seq<string>, entries: seq<string>): seq<string>
    decreases |entries|
  {
    if |entries| == 0 then prev else AppendedAll(Appended(prev, entries[0]), entries[1..])
  }

  /** One addition to a log of at most ten entries keeps its latest ten entries. */
  lemma AppendedIsWindow(prev: seq<string>, entry: string)
    requires |prev| <= 10
    ensures Appended(prev, entry) == LastN(prev + [entry], 10)
  {
    var whole := prev + [entry];
    if |prev| == 10 {
      assert whole[|whole| - 10..] == prev[1..] + [entry];
    } else {
      assert LastN(whole, 10) == whole;
    }
  }

  /** The latest ten of the latest ten, followed by more entries, are the latest ten of all. */
  lemma WindowOfWindow(xs: seq<string>, ys: seq<string>)
    ensures LastN(LastN(xs, 10) + ys, 10) == LastN(xs + ys, 10)
  {
    var w := LastN(xs, 10);
    if |xs| > 10 {
      var k := |xs| - 10;
      assert xs + ys == xs[..k] + (w + ys);
      var all := xs + ys;
      var part := w + ys;
      if |part| > 10 {
        assert all[|all| - 10..] == part[|part| - 10..];
      } else {
        assert |part| == 10 && all[|all| - 10..] == part;
      }
    }
  }

  /**
   * However many entries are added, one at a time, the log holds exactly the latest ten of
   * everything logged, in order: older entries drop off the front.
   */
  lemma {:induction false} AppendedAllIsWindow(prev: seq<string>, entries: seq<string>)
    requires |prev| <= 10
    ensures AppendedAll(prev, entries) == LastN(prev + entries, 10)
    decreases |entries|
  {
    if |entries| == 0 {
      assert prev + entries == prev;
    } else {
      var e, rest := entries[0], entries[1..];
      var next := Appended(prev, e);
      AppendedIsWindow(prev, e);
      AppendedAllIsWindow(next, rest);
      WindowOfWindow(prev + [e], rest);
      assert prev + [e] + rest == prev + entries;
      calc {
        AppendedAll(prev, entries);
        AppendedAll(next, rest);
        LastN(next + rest, 10);
        LastN(LastN(prev + [e], 10) + rest, 10);
        LastN(prev + entries, 10);
      }
    }
  }

  /** Stamping distributes over concatenation. */
  lemma StampedAppend(stamp: string, a: seq<string>, b: seq<string>)
    ensures Stamped(stamp, a + b) == Stamped(stamp, a) + Stamped(stamp, b)
  {
  }

  /** Adding the next message to a log shorter than ten entries keeps every entry. */
  lemma LogStep(stamp: string, before: seq<string>, messages: seq<string>, i: nat, logs: seq<string>)
    requires i < |messages| && |before| + |messages| <= 10
    requires logs == Stamped(stamp, before + messages[..i])
    ensures Appended(logs, LogEntry(stamp, messages[i])) == Stamped(stamp, before + messages[..i + 1])
  {
    assert LastN(logs, 9) == logs;
    assert before + messages[..i + 1] == (before + messages[..i]) + [messages[i]];
    StampedAppend(stamp, before + messages[..i], [messages[i]]);
  }

  /** Stamps every message with the same time of day. */
  function Stamped(stamp: string, messages: seq<string>): (r: seq<string>)
    ensures |r| == |messages|
    ensures forall k :: 0 <= k < |r| ==> r[k] == LogEntry(stamp, messages[k])
  {
    seq(|messages|, k requires 0 <= k < |messages| => LogEntry(stamp, messages[k]))
  }

  /* ---------- choosing optional scopes ---------- */

  /** `toggleOptional`: a fresh set with the scope added when checked and removed when not. */
  function Toggle(selected: set<string>, scope: string, checked: bool): (r: set<string>)
    ensures scope in r <==> checked
    ensures forall s :: s != scope ==> (s in r <==> s in selected)
  {
    if checked then selected + {scope} else selected - {scope}
  }

  /** Toggling the same way twice is toggling once; checking then unchecking a new scope restores the selection. */
  lemma ToggleTwice(selected: set<string>, scope: string, checked: bool)
    ensures Toggle(Toggle(selected, scope, checked), scope, checked) == Toggle(selected, scope, checked)
    ensures scope !in selected ==> Toggle(Toggle(selected, scope, true), scope, false) == selected
  {
    var once := Toggle(selected, scope, checked);
    assert Toggle(once, scope, checked) == once;
    if scope !in selected {
      assert Toggle(Toggle(selected, scope, true), scope, false) == selected;
    }
  }

  /** `scope.toLowerCase().includes(term.toLowerCase())` */
  function MatchesSearch(term: string): string -> bool {
    scope => Contains(ToLower(scope), ToLower(term))
  }

  /** The search over a list of optional scopes: all of them for an empty term, else those whose name contains it, ignoring case. */
  function FilteredFrom(optional: seq<string>, term: string): seq<string> {
    if term == "" then optional else Filter(optional, MatchesSearch(term))
  }

  /** `filteredOptionalScopes` */
  function FilteredOptionalScopes(term: string): seq<string> {
    FilteredFrom(OptionalGraphScopes, term)
  }

  /** Every text contains the empty text. */
  lemma ContainsEmpty(hay: string)
    ensures Contains(hay, "")
  {
    ContainsAt(hay, "");
    assert OccursAt(hay, "", 0);
  }

  /**
   * The shortcut for the empty term agrees with the filter: the search result is always the
   * optional scopes, in order, whose lower-cased name contains the lower-cased term.
   */
  lemma SearchIsFilter(optional: seq<string>, term: string)
    ensures FilteredFrom(optional, term) == Filter(optional, MatchesSearch(term))
  {
    if term == "" {
      forall s | s in optional
        ensures MatchesSearch(term)(s)
      {
        ContainsEmpty(ToLower(s));
      }
      FilterKeepsAll(optional, MatchesSearch(term));
    }
  }

  /** A scope is listed exactly when it is optional and its name contains the term, ignoring case. */
  lemma SearchMembers(optional: seq<string>, term: string)
    ensures forall s :: s in FilteredFrom(optional, term) <==>
      s in optional && Contains(ToLower(s), ToLower(term))
  {
    SearchIsFilter(optional, term);
  }

  /* ---------- the connect command ---------- */

  const CommandPrefix := "Connect-MgGraph -Scopes "
  const CommandSuffix := " -NoWelcome"

  /** `'"' + sc + '"'` */
  function Quote(s: string): string {
    "\"" + s + "\""
  }

  function QuotedAll(scopes: seq<string>): (r: seq<string>)
    ensures |r| == |scopes| && forall k :: 0 <= k < |r| ==> r[k] == Quote(scopes[k])
  {
    seq(|scopes|, k requires 0 <= k < |scopes| => Quote(scopes[k]))
  }

  /** The command that connects the local PowerShell session with the given scopes. */
  function ConnectCommand(scopes: seq<string>): string {
    CommandPrefix + Join(QuotedAll(scopes), ',') + CommandSuffix
  }

  /**
   * The command reads back as the scopes it was built from: between the fixed prefix and suffix,
   * the comma-separated parts are the scopes in order, each in double quotes (for scope names
   * without commas, as all those on offer are).
   */
  lemma ConnectCommandReadsBack(scopes: seq<string>)
    requires |scopes| >= 1 && forall k :: 0 <= k < |scopes| ==> ',' !in scopes[k]
    ensures var cmd := ConnectCommand(scopes);
      |cmd| >= |CommandPrefix| + |CommandSuffix|
      && cmd[..|CommandPrefix|] == CommandPrefix
      && cmd[|cmd| - |CommandSuffix|..] == CommandSuffix
      && var parts := Split(cmd[|CommandPrefix|..|cmd| - |CommandSuffix|], ',');
         |parts| == |scopes|
         && forall k :: 0 <= k < |parts| ==>
              |parts[k]| == |scopes[k]| + 2 && parts[k][0] == '"' && parts[k][|parts[k]| - 1] == '"'
              && parts[k][1..|parts[k]| - 1] == scopes[k]
  {
    var q := QuotedAll(scopes);
    var middle := Join(q, ',');
    var cmd := ConnectCommand(scopes);
    forall k | 0 <= k < |q|
      ensures ',' !in q[k]
    {
      assert q[k] == ['"'] + scopes[k] + ['"'];
    }
    SplitJoin(q, ',');
    assert cmd == CommandPrefix + middle + CommandSuffix;
    assert cmd[|CommandPrefix|..|cmd| - |CommandSuffix|] == middle;
    forall k | 0 <= k < |q|
      ensures q[k][1..|q[k]| - 1] == scopes[k]
    {
      assert q[k] == ['"'] + scopes[k] + ['"'];
    }
  }

  /* ---------- the outcome of connectGraph ---------- */

  const LocalFailedMessage := "Local connect failed. Check backend terminal for device code or errors."
  const NotConnectedMessage :=
    "Not connected. If device-code was used, follow the code shown in the backend terminal or returned output."
  const ConnectFailedMessage := "Connect failed"
  const DashboardPath := "/dashboard"

  /** `!local || !local.ok` */
  predicate LocalFailed(local: Option<LocalReply>) {
    local.None? || !local.value.ok
  }

  /** `local?.output && local.output.length` */
  predicate HasOutput(local: Option<LocalReply>) {
    local.Some? && local.value.output.Some? && HasLength(local.value.output.value)
  }

  /**
   * The error shown when the local connect fails: the serialized output when there is any, else
   * `error`, else the `errors` joined by newlines, else the fixed message; an empty choice also
   * falls through to the fixed message.
   */
  function LocalFailureText(local: Option<LocalReply>, outputJson: string): string {
    var out :=
      if HasOutput(local) then outputJson
      else if local.Some? && local.value.error.Some? then local.value.error.value
      else if local.Some? && local.value.errors.Some? then Join(local.value.errors.value, '\n')
      else "";
    OrIfFalsy(Some(out), LocalFailedMessage)
  }

  /**
   * The failure text is never empty. It is the first PRESENT candidate in the order output,
   * error, errors; when that candidate is empty, or none is present, it is the fixed message. A
   * present but empty `error` thus hides the `errors` behind it.
   */
  lemma LocalFailureTextChoice(local: Option<LocalReply>, outputJson: string)
    ensures var r := LocalFailureText(local, outputJson);
      r != ""
      && (HasOutput(local) && outputJson != "" ==> r == outputJson)
      && (HasOutput(local) && outputJson == "" ==> r == LocalFailedMessage)
      && ((!HasOutput(local) && local.Some? && local.value.error.Some? && local.value.error.value != "")
            ==> r == local.value.error.value)
      && ((!HasOutput(local) && local.Some? && local.value.error == Some("")) ==> r == LocalFailedMessage)
      && ((!HasOutput(local) && local.Some? && local.value.error.None? && local.value.errors.Some?
            && Join(local.value.errors.value, '\n') != "") ==> r == Join(local.value.errors.value, '\n'))
      && ((!HasOutput(local) && local.Some? && local.value.error.None? && local.value.errors.Some?
            && Join(local.value.errors.value, '\n') == "") ==> r == LocalFailedMessage)
      && ((!HasOutput(local) && local.Some? && local.value.error.None? && local.value.errors.None?)
            ==> r == LocalFailedMessage)
      && (local.None? ==> r == LocalFailedMessage)
  {
  }

  /** `s && s.ok && s.connected && s.context` */
  predicate IsConnected(status: Option<StatusReply>) {
    status.Some? && status.value.ok && status.value.connected && Truthy(status.value.context)
  }

  /** `e?.message || "Connect failed"` */
  function ExceptionText(message: Option<string>): string {
    OrIfFalsy(message, ConnectFailedMessage)
  }

  /** The attempt ends connected: both calls returned, and the status reports a context. */
  predicate EndsConnected(local: Outcome<Option<LocalReply>>, status: Outcome<Option<StatusReply>>) {
    local.Returned? && status.Returned? && IsConnected(status.value)
  }

  /**
   * The error `connectGraph` leaves shown. `staleErr` is the error the handler's closure captured
   * when the attempt began: the "not connected" message is set only when that was falsy, even
   * though the attempt itself cleared the error first.
   */
  function ConnectError(staleErr: Option<string>, local: Outcome<Option<LocalReply>>, outputJson: string,
                        status: Outcome<Option<StatusReply>>): Option<string>
  {
    if local.Threw? then Some(ExceptionText(local.message))
    else ErrorAfterStatus(staleErr, LocalError(local.value, outputJson), status)
  }

  /** The error the local reply leaves, when it returned. */
  function LocalError(local: Option<LocalReply>, outputJson: string): Option<string> {
    if LocalFailed(local) then Some(LocalFailureText(local, outputJson)) else None
  }

  /** The error after the status check, given the one the local reply left. */
  function ErrorAfterStatus(staleErr: Option<string>, afterLocal: Option<string>,
                            status: Outcome<Option<StatusReply>>): Option<string>
  {
    if status.Threw? then Some(ExceptionText(status.message))
    else if IsConnected(status.value) then afterLocal
    else if OrIfFalsy(staleErr, "") == "" then Some(NotConnectedMessage)
    else afterLocal
  }

  /** A shown error is never empty. */
  lemma ConnectErrorNotEmpty(staleErr: Option<string>, local: Outcome<Option<LocalReply>>, outputJson: string,
                             status: Outcome<Option<StatusReply>>)
    ensures var e := ConnectError(staleErr, local, outputJson, status); e.Some? ==> e.value != ""
  {
    if local.Returned? && LocalFailed(local.value) {
      LocalFailureTextChoice(local.value, outputJson);
    }
  }

  /**
   * No error is left exactly when both calls returned, the local command succeeded, and either
   * the session is connected or an earlier error was still captured.
   */
  lemma ConnectErrorAbsent(staleErr: Option<string>, local: Outcome<Option<LocalReply>>, outputJson: string,
                           status: Outcome<Option<StatusReply>>)
    ensures ConnectError(staleErr, local, outputJson, status).None? <==>
      local.Returned? && status.Returned? && !LocalFailed(local.value)
      && (IsConnected(status.value) || (staleErr.Some? && staleErr.value != ""))
  {
  }

  /**
   * A local failure followed by a status that is not connected shows the local failure only when
   * an earlier error was captured; otherwise the "not connected" message replaces it.
   */
  lemma NotConnectedReplacesFailure(staleErr: Option<string>, local: Option<LocalReply>, outputJson: string,
                                    status: Option<StatusReply>)
    requires LocalFailed(local) && !IsConnected(status)
    ensures ConnectError(staleErr, Returned(local), outputJson, Returned(status))
         == if staleErr.None? || staleErr.value == "" then Some(NotConnectedMessage)
            else Some(LocalFailureText(local, outputJson))
  {
  }

  /* ---------- what connectGraph logs ---------- */

  /** The texts the browser renders during one attempt. */
  datatype RenderedTexts = RenderedTexts(
    localJson: string,    // JSON.stringify(local)
    errorsJson: string,   // JSON.stringify(local?.errors ?? local)
    outputJson: string,   // JSON.stringify(local.output, null, 2)
    statusJson: string,   // JSON.stringify(s)
    stack: string)        // `${e?.stack}`

  const StartMessage := "\U{1F504} Starting MgGraph connection (local)..."
  const CheckingMessage := "\U{2705} Checking status after local connect..."
  const ReceivedMessage := "\U{2705} Graph context received!"
  const NotConnectedLogMessage := "\U{26A0}\U{FE0F} Not connected after local connect"
  const FinishedMessage := "\U{1F3C1} Connection attempt finished"

  function SelectedMessage(count: nat): string {
    "\U{1F4CB} Selected " + NatToString(count) + " scopes"
  }

  function RunningMessage(cmd: string): string {
    "\U{1F4E1} Running local command: " + cmd
  }

  function ResponseMessage(texts: RenderedTexts): string {
    "\U{1F4E1} Local response: " + texts.localJson
  }

  function ReportedErrorMessage(local: Option<LocalReply>, texts: RenderedTexts): string {
    var reported := if local.Some? && local.value.error.Some? then local.value.error.value else texts.errorsJson;
    "\U{26A0}\U{FE0F} Local connect reported error: " + reported
  }

  function StatusMessage(texts: RenderedTexts): string {
    "\U{1F4CA} Status: " + texts.statusJson
  }

  /** `${e?.message}`: a missing message prints as `undefined`. */
  function ExceptionMessages(message: Option<string>, texts: RenderedTexts): seq<string> {
    ["\U{1F4A5} Exception: " + (if message.Some? then message.value else "undefined"),
     "\U{1F4A5} Stack: " + texts.stack]
  }

  /** The messages logged before the local command runs. */
  function StartMessages(scopes: seq<string>): seq<string> {
    [StartMessage, SelectedMessage(|scopes|), RunningMessage(ConnectCommand(scopes))]
  }

  /** The messages logged about a local reply that returned, up to the status check. */
  function LocalMessages(local: Option<LocalReply>, texts: RenderedTexts): seq<string> {
    [ResponseMessage(texts)]
      + (if LocalFailed(local) then [ReportedErrorMessage(local, texts)] else [])
      + [CheckingMessage]
  }

  /** The messages logged about the status check. */
  function StatusMessages(status: Outcome<Option<StatusReply>>, texts: RenderedTexts): seq<string> {
    if status.Threw? then ExceptionMessages(status.message, texts)
    else [StatusMessage(texts), if IsConnected(status.value) then ReceivedMessage else NotConnectedLogMessage]
  }

  /** The messages logged between the start messages and the finish message. */
  function AttemptMessages(local: Outcome<Option<LocalReply>>, status: Outcome<Option<StatusReply>>,
                           texts: RenderedTexts): seq<string>
  {
    if local.Threw? then ExceptionMessages(local.message, texts)
    else LocalMessages(local.value, texts) + StatusMessages(status, texts)
  }

  /** The messages one attempt logs, in order, on the path its outcomes take. */
  function ConnectMessages(scopes: seq<string>, local: Outcome<Option<LocalReply>>,
                           status: Outcome<Option<StatusReply>>, texts: RenderedTexts): seq<string>
  {
    StartMessages(scopes) + AttemptMessages(local, status, texts) + [FinishedMessage]
  }

  /**
   * An attempt logs between five and nine messages, from the start message to the finish
   * message, so the ten-entry log keeps the whole attempt.
   */
  lemma ConnectMessagesShape(scopes: seq<string>, local: Outcome<Option<LocalReply>>,
                             status: Outcome<Option<StatusReply>>, texts: RenderedTexts)
    ensures var m := ConnectMessages(scopes, local, status, texts);
      6 <= |m| <= 9 && m[0] == StartMessage && m[|m| - 1] == FinishedMessage
  {
  }

  /* ---------- the component ---------- */

  class SignInScreen {
    var selectedOptional: set<string>
    var searchTerm: string
    var connecting: bool
    var err: Option<string>
    var graphCtx: Option<Value>
    var debugLogs: seq<string>
    /** Where `window.location.href` was sent, if anywhere. */
    var redirectedTo: Option<string>

    /** Between attempts no connection is in progress and the log holds at most ten entries. */
    predicate Valid()
      reads this`connecting, this`debugLogs
    {
      !connecting && |debugLogs| <= 10
    }

    constructor ()
      ensures Valid()
      ensures selectedOptional == {} && searchTerm == "" && err == None && graphCtx == None
      ensures debugLogs == [] && redirectedTo == None
    {
      selectedOptional := {};
      searchTerm := "";
      connecting := false;
      err := None;
      graphCtx := None;
      debugLogs := [];
      redirectedTo := None;
    }

    /** `effectiveScopes` */
    function EffectiveScopes(): seq<string>
      reads this`selectedOptional
    {
      BuildScopes(selectedOptional)
    }

    /** `addLog`: the stamped message goes last and the log keeps its latest ten entries. */
    method AddLog(stamp: string, message: string)
      modifies this`debugLogs
      ensures debugLogs == Appended(old(debugLogs), LogEntry(stamp, message))
    {
      debugLogs := LastN(debugLogs, 9) + [LogEntry(stamp, message)];
    }

    /** `toggleOptional` */
    method ToggleOptional(scope: string, checked: bool)
      modifies this`selectedOptional
      ensures selectedOptional == Toggle(old(selectedOptional), scope, checked)
    {
      var next := selectedOptional;
      if checked {
        next := next + {scope};
      } else {
        next := next - {scope};
      }
      selectedOptional := next;
    }

    method SetSearchTerm(term: string)
      modifies this`searchTerm
      ensures searchTerm == term
    {
      searchTerm := term;
    }

    /**
     * Adds each message in turn to a log that holds the stamped `before`, while the log stays
     * within ten entries: nothing drops off the front.
     */
    method AddLogs(stamp: string, ghost before: seq<string>, messages: seq<string>)
      requires debugLogs == Stamped(stamp, before) && |before| + |messages| <= 10
      modifies this`debugLogs
      ensures debugLogs == Stamped(stamp, before + messages)
    {
      var i := 0;
      while i < |messages|
        invariant i <= |messages|
        invariant debugLogs == Stamped(stamp, before + messages[..i])
      {
        LogStep(stamp, before, messages, i, debugLogs);
        AddLog(stamp, messages[i]);
        i := i + 1;
      }
      assert messages[..i] == messages;
    }

    /**
     * `connectGraph`: clears the error and the log, runs the connect command, reports a failed
     * reply, checks the status and, when connected, stores the context and goes to the dashboard.
     * An exception from either call is reported instead. `connecting` is false afterwards on
     * every path. `scopes` is the `effectiveScopes` the handler's closure captured at the render
     * (`EffectiveScopes()` then).
     */
    method ConnectGraph(stamp: string, scopes: seq<string>, local: Outcome<Option<LocalReply>>,
                        status: Outcome<Option<StatusReply>>, texts: RenderedTexts)
      requires Valid()
      modifies this`connecting, this`err, this`debugLogs, this`graphCtx, this`redirectedTo
      ensures Valid()
      ensures err == ConnectError(old(err), local, texts.outputJson, status)
      ensures debugLogs == Stamped(stamp, ConnectMessages(scopes, local, status, texts))
      ensures EndsConnected(local, status) ==>
        graphCtx == status.value.value.context && redirectedTo == Some(DashboardPath)
      ensures !EndsConnected(local, status) ==> graphCtx == old(graphCtx) && redirectedTo == old(redirectedTo)
    {
      var staleErr := err;
      connecting := true;
      err := None;
      debugLogs := [];
      AddLogs(stamp, [], StartMessages(scopes));
      assert [] + StartMessages(scopes) == StartMessages(scopes);
      Attempt(stamp, StartMessages(scopes), staleErr, local, status, texts);
      // the finally block
      connecting := false;
      AddLogs(stamp, StartMessages(scopes) + AttemptMessages(local, status, texts), [FinishedMessage]);
    }

    /**
     * The `try` block of `connectGraph` after the start messages: an exception from the local
     * call is reported at once; otherwise the reply is reported and the status is checked.
     */
    method Attempt(stamp: string, ghost before: seq<string>, staleErr: Option<string>,
                   local: Outcome<Option<LocalReply>>, status: Outcome<Option<StatusReply>>, texts: RenderedTexts)
      requires debugLogs == Stamped(stamp, before) && |before| == 3 && err == None
      modifies this`err, this`debugLogs, this`graphCtx, this`redirectedTo
      ensures err == ConnectError(staleErr, local, texts.outputJson, status)
      ensures debugLogs == Stamped(stamp, before + AttemptMessages(local, status, texts))
      ensures |AttemptMessages(local, status, texts)| <= 6
      ensures EndsConnected(local, status) ==>
        graphCtx == status.value.value.context && redirectedTo == Some(DashboardPath)
      ensures !EndsConnected(local, status) ==> graphCtx == old(graphCtx) && redirectedTo == old(redirectedTo)
    {
      if local.Threw? {
        AddLogs(stamp, before, ExceptionMessages(local.message, texts));
        err := Some(ExceptionText(local.message));
      } else {
        ReportLocal(stamp, before, local.value, texts);
        CheckStatus(stamp, before + LocalMessages(local.value, texts), staleErr, status, texts);
        assert before + LocalMessages(local.value, texts) + StatusMessages(status, texts)
            == before + AttemptMessages(local, status, texts);
      }
    }

    /**
     * The `try` block from the local reply to the status check: logs the reply, and reports it
     * when it failed.
     */
    method ReportLocal(stamp: string, ghost before: seq<string>, local: Option<LocalReply>, texts: RenderedTexts)
      requires debugLogs == Stamped(stamp, before) && |before| <= 3 && err == None
      modifies this`debugLogs, this`err
      ensures debugLogs == Stamped(stamp, before + LocalMessages(local, texts))
      ensures err == LocalError(local, texts.outputJson)
    {
      AddLogs(stamp, before, [ResponseMessage(texts)]);
      ghost var logged := before + [ResponseMessage(texts)];
      if LocalFailed(local) {
        AddLogs(stamp, logged, [ReportedErrorMessage(local, texts)]);
        logged := logged + [ReportedErrorMessage(local, texts)];
        err := Some(LocalFailureText(local, texts.outputJson));
      }
      AddLogs(stamp, logged, [CheckingMessage]);
      assert logged + [CheckingMessage] == before + LocalMessages(local, texts);
    }

    /**
     * The status check: logs the status and, when connected, stores the context and goes to the
     * dashboard; otherwise sets the "not connected" error when the captured error was falsy.
     */
    method CheckStatus(stamp: string, ghost before: seq<string>, staleErr: Option<string>,
                       status: Outcome<Option<StatusReply>>, texts: RenderedTexts)
      requires debugLogs == Stamped(stamp, before) && |before| <= 7
      modifies this`debugLogs, this`err, this`graphCtx, this`redirectedTo
      ensures debugLogs == Stamped(stamp, before + StatusMessages(status, texts))
      ensures err == ErrorAfterStatus(staleErr, old(err), status)
      ensures status.Returned? && IsConnected(status.value) ==>
        graphCtx == status.value.value.context && redirectedTo == Some(DashboardPath)
      ensures !(status.Returned? && IsConnected(status.value)) ==>
        graphCtx == old(graphCtx) && redirectedTo == old(redirectedTo)
    {
      if status.Threw? {
        AddLogs(stamp, before, ExceptionMessages(status.message, texts));
        err := Some(ExceptionText(status.message));
      } else if IsConnected(status.value) {
        AddLogs(stamp, before, [StatusMessage(texts), ReceivedMessage]);
        graphCtx := status.value.value.context;
        redirectedTo := Some(DashboardPath);
      } else {
        AddLogs(stamp, before, [StatusMessage(texts), NotConnectedLogMessage]);
        if OrIfFalsy(staleErr, "") == "" {
          err := Some(NotConnectedMessage);
        }
      }
    }
  }
}
