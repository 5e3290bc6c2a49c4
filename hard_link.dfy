/**
 * The hard-link tool's component: its state, the manual anchor preview, the update guard and
 * the two handlers that resolve an identifier from the directory and write the cloud anchor.
 * The three back-end steps are stubs in the tool; here each is a step whose outcome is given
 * to the handler: the identifier the lookup returned (or `None` when it rejected) and whether
 * the cloud update went through.
 */
module HardLink {
  import opened Wrappers
  import opened Text
  import opened GuidCodec

  datatype EnvMode = Server | Client

  datatype ResolveResult = ResolveResult(guid: string, base64: string)

  /** What `base64FromManual` shows under the identifier field. */
  datatype ManualPreview = ManualPreview(base64: string, error: string)

  /** A call to one of the back-end steps, with the arguments it was given. */
  datatype Call =
    | FetchOnPremGuid(upn: string)
    | UpdateCloudAnchor(upn: string, anchor: string)
    | UpdateOnPremPassword(upn: string, password: string)

  const ConversionFailedMessage := "Conversion failed"

  /** `base64FromManual`: nothing for a blank input, the anchor when it converts, the error message when not. */
  function Base64FromManual(input: string): ManualPreview {
    if IsBlank(input) then ManualPreview("", "")
    else if GuidAnchor(input).Success? then ManualPreview(GuidAnchor(input).value, "")
    else if GuidAnchor(input).error == "" then ManualPreview("", ConversionFailedMessage)
    else ManualPreview("", GuidAnchor(input).error)
  }

  /** `canUpdate`: a UPN is needed; in client mode so is a converted anchor. */
  function CanUpdate(upn: string, mode: EnvMode, preview: ManualPreview): bool {
    if IsBlank(upn) then false
    else if mode == Client then preview.base64 != ""
    else true
  }

  /**
   * The anchor the server path obtains: the identifier the lookup returned, converted with
   * `guidToBase64`; `None` when the lookup or the conversion throws.
   */
  function LookedUpAnchor(fetched: Option<string>): Option<string> {
    if fetched.Some? && GuidAnchor(fetched.value).Success? then Some(GuidAnchor(fetched.value).value) else None
  }

  /** What `handleResolveServer` stores once the lookup has answered. */
  function ResolveOf(fetched: Option<string>): Option<ResolveResult> {
    match LookedUpAnchor(fetched)
    case None => None
    case Some(a) => Some(ResolveResult(fetched.value, a))
  }

  /**
   * The calls one permitted run of `handleUpdateAnchor` makes: in server mode a fresh lookup
   * whose identifier is converted again, in client mode the previewed anchor; then the writes.
   */
  function UpdateCalls(mode: EnvMode, upn: string, password: string, manualAnchor: string,
                       fetched: Option<string>, cloudOk: bool): seq<Call>
  {
    var u := Trim(upn);
    match mode
    case Client => [UpdateCloudAnchor(u, manualAnchor)]
    case Server => [FetchOnPremGuid(u)] + ServerWrites(u, LookedUpAnchor(fetched), password, cloudOk)
  }

  /**
   * The writes of the server path: none without an anchor; otherwise the cloud update, then the
   * password update when a password was typed and the cloud update went through.
   */
  function ServerWrites(u: string, anchor: Option<string>, password: string, cloudOk: bool): seq<Call> {
    match anchor
    case None => []
    case Some(a) =>
      [UpdateCloudAnchor(u, a)] + if cloudOk && !IsBlank(password) then [UpdateOnPremPassword(u, password)] else []
  }

  /* ---------- the preview and the guard ---------- */

  /**
   * The preview has three outcomes: empty for a blank input; the anchor and no error when the
   * conversion succeeds, which it does exactly when the normalized text passes `isValidGuid`;
   * no anchor and "Invalid GUID format" otherwise.
   */
  lemma ManualPreviewOutcomes(input: string)
    ensures IsBlank(input) ==> Base64FromManual(input) == ManualPreview("", "")
    ensures !IsBlank(input) && IsValidGuid(NormalizeGuid(input)) ==>
      GuidAnchor(input).Success? && Base64FromManual(input) == ManualPreview(GuidAnchor(input).value, "")
      && GuidAnchor(input).value != ""
    ensures !IsBlank(input) && !IsValidGuid(NormalizeGuid(input)) ==>
      Base64FromManual(input) == ManualPreview("", InvalidGuidMessage)
  {
    GuidAnchorAccepts(input);
    if !IsBlank(input) && IsValidGuid(NormalizeGuid(input)) {
      var pre, post, units := AcceptedUnits(input);
    }
  }

  /** The anchor previewed for an input `isValidGuid` accepts reads back as the normalized identifier. */
  lemma ManualPreviewReadsBack(input: string)
    requires IsValidGuid(input)
    ensures Base64FromManual(input).error == ""
    ensures AnchorToGuid(Base64FromManual(input).base64) == Some(NormalizeGuid(input))
  {
    ValidNormalizesToCanonical(input);
    if IsBlank(input) {
      BlankIsNotValid(input);
    }
    GuidAnchorOfValid(input);
    AnchorRoundTrip(NormalizeGuid(input));
  }

  /** In client mode the update is allowed exactly when there is a UPN and the identifier converts. */
  lemma ClientCanUpdate(upn: string, input: string)
    ensures CanUpdate(upn, Client, Base64FromManual(input)) <==> !IsBlank(upn) && IsValidGuid(NormalizeGuid(input))
  {
    ManualPreviewOutcomes(input);
    if IsBlank(input) && IsValidGuid(NormalizeGuid(input)) {
      BlankIsNotValid(input);
    }
  }

  /** A blank input never passes the test on its normalized text. */
  lemma BlankIsNotValid(input: string)
    requires IsBlank(input)
    ensures !IsValidGuid(NormalizeGuid(input))
  {
    assert NormalizeGuid(input) == "";
  }

  /* ---------- what the update sends ---------- */

  /**
   * An anchor is found exactly when the lookup answered with an identifier whose normalized
   * text `isValidGuid` accepts; it is then that identifier's conversion.
   */
  lemma LookedUpAnchorSound(fetched: Option<string>)
    ensures LookedUpAnchor(fetched).Some? <==> fetched.Some? && IsValidGuid(NormalizeGuid(fetched.value))
    ensures LookedUpAnchor(fetched).Some? <==> fetched.Some? && GuidAnchor(fetched.value).Success?
    ensures LookedUpAnchor(fetched).Some? ==> GuidAnchor(fetched.value) == Success(LookedUpAnchor(fetched).value)
  {
    LookedUpAnchorIsConversion(fetched);
    if fetched.Some? {
      GuidAnchorAccepts(fetched.value);
    }
  }

  /** Helper: the anchor found is the conversion of the returned identifier, when both succeed. */
  lemma LookedUpAnchorIsConversion(fetched: Option<string>)
    ensures LookedUpAnchor(fetched).Some? <==> fetched.Some? && GuidAnchor(fetched.value).Success?
    ensures LookedUpAnchor(fetched).Some? ==> GuidAnchor(fetched.value) == Success(LookedUpAnchor(fetched).value)
  {
  }

  /** The anchor found for a valid identifier decodes back to that identifier, normalized. */
  lemma LookedUpAnchorReadsBack(guid: string)
    requires IsValidGuid(guid)
    ensures LookedUpAnchor(Some(guid)).Some?
    ensures AnchorToGuid(LookedUpAnchor(Some(guid)).value) == Some(NormalizeGuid(guid))
  {
    ValidNormalizesToCanonical(guid);
    GuidAnchorOfValid(guid);
    AnchorRoundTrip(NormalizeGuid(guid));
  }

  /** The server path's writes: at most the cloud update and then the password update, all for `u`. */
  lemma ServerWritesShape(u: string, anchor: Option<string>, password: string, cloudOk: bool)
    ensures var w := ServerWrites(u, anchor, password, cloudOk);
      |w| <= 2 && (anchor.None? <==> w == [])
      && (anchor.Some? ==> w[0] == UpdateCloudAnchor(u, anchor.value))
      && (forall k :: 0 <= k < |w| ==> w[k].upn == u)
      && (forall k :: 0 <= k < |w| && w[k].UpdateOnPremPassword? ==>
            k == 1 && cloudOk && !IsBlank(password) && w[k].password == password)
  {
  }

  /** Every call the update makes carries the trimmed UPN. */
  lemma UpdateSendsTrimmedUpn(mode: EnvMode, upn: string, password: string, manualAnchor: string,
                              fetched: Option<string>, cloudOk: bool)
    ensures var cs := UpdateCalls(mode, upn, password, manualAnchor, fetched, cloudOk);
      |cs| >= 1 && forall k :: 0 <= k < |cs| ==> cs[k].upn == Trim(upn)
  {
    if mode == Server {
      var w := ServerWrites(Trim(upn), LookedUpAnchor(fetched), password, cloudOk);
      ServerWritesShape(Trim(upn), LookedUpAnchor(fetched), password, cloudOk);
      assert UpdateCalls(mode, upn, password, manualAnchor, fetched, cloudOk) == [FetchOnPremGuid(Trim(upn))] + w;
    }
  }

  /**
   * The password update happens only in server mode, with a non-blank password passed as typed,
   * and only right after a cloud update that went through.
   */
  lemma PasswordStepGuard(mode: EnvMode, upn: string, password: string, manualAnchor: string,
                          fetched: Option<string>, cloudOk: bool, k: nat)
    requires var cs := UpdateCalls(mode, upn, password, manualAnchor, fetched, cloudOk);
      k < |cs| && cs[k].UpdateOnPremPassword?
    ensures var cs := UpdateCalls(mode, upn, password, manualAnchor, fetched, cloudOk);
      mode == Server && !IsBlank(password) && cloudOk && cs[k].password == password
      && k == 2 && cs[k - 1].UpdateCloudAnchor?
  {
    if mode == Server {
      var w := ServerWrites(Trim(upn), LookedUpAnchor(fetched), password, cloudOk);
      ServerWritesShape(Trim(upn), LookedUpAnchor(fetched), password, cloudOk);
      assert UpdateCalls(mode, upn, password, manualAnchor, fetched, cloudOk) == [FetchOnPremGuid(Trim(upn))] + w;
      assert w[k - 1].UpdateOnPremPassword?;
    }
  }

  /**
   * In server mode the update starts with a fresh lookup, and the anchor it writes is the
   * conversion of the identifier that lookup returned, never an earlier resolution; when the
   * lookup or the conversion fails nothing is written.
   */
  lemma ServerAnchorIsFresh(upn: string, password: string, manualAnchor: string, fetched: Option<string>, cloudOk: bool)
    ensures var cs := UpdateCalls(Server, upn, password, manualAnchor, fetched, cloudOk);
      cs[0] == FetchOnPremGuid(Trim(upn))
      && (fetched.None? || GuidAnchor(fetched.value).Failure? ==> cs == [FetchOnPremGuid(Trim(upn))])
      && (fetched.Some? && GuidAnchor(fetched.value).Success? ==>
            cs[1] == UpdateCloudAnchor(Trim(upn), GuidAnchor(fetched.value).value))
  {
    var w := ServerWrites(Trim(upn), LookedUpAnchor(fetched), password, cloudOk);
    ServerWritesShape(Trim(upn), LookedUpAnchor(fetched), password, cloudOk);
    LookedUpAnchorIsConversion(fetched);
    assert UpdateCalls(Server, upn, password, manualAnchor, fetched, cloudOk) == [FetchOnPremGuid(Trim(upn))] + w;
  }

  /** In client mode the one call is the cloud update with the previewed anchor. */
  lemma ClientSendsPreview(upn: string, password: string, input: string, fetched: Option<string>, cloudOk: bool)
    requires CanUpdate(upn, Client, Base64FromManual(input))
    ensures UpdateCalls(Client, upn, password, Base64FromManual(input).base64, fetched, cloudOk)
      == [UpdateCloudAnchor(Trim(upn), GuidAnchor(input).value)]
    ensures GuidAnchor(input).Success?
  {
    ManualPreviewOutcomes(input);
    ClientCanUpdate(upn, input);
  }

  /** The stub lookup answers with the placeholder identifier, which converts to this anchor. */
  lemma PlaceholderLookup(guid: string)
    requires guid == PlaceholderGuid
    ensures LookedUpAnchor(Some(guid)) == Some("ERERESIiMzNERFVVVVVVVQ==")
  {
    PlaceholderAnchor();
    LookedUpAnchorIsConversion(Some(guid));
  }

  /**
   * A resolution is stored exactly for an identifier whose normalized text is valid, and the
   * stored pair is consistent: its anchor decodes back to its identifier, normalized.
   */
  lemma ResolveOfSound(fetched: Option<string>)
    ensures ResolveOf(fetched).Some? <==> fetched.Some? && IsValidGuid(NormalizeGuid(fetched.value))
    ensures fetched.Some? && IsValidGuid(fetched.value) ==>
      ResolveOf(fetched).Some?
      && ResolveOf(fetched).value.guid == fetched.value
      && AnchorToGuid(ResolveOf(fetched).value.base64) == Some(NormalizeGuid(ResolveOf(fetched).value.guid))
  {
    LookedUpAnchorSound(fetched);
    if fetched.Some? && IsValidGuid(fetched.value) {
      LookedUpAnchorReadsBack(fetched.value);
    }
  }

  /** The awaited lookup and the conversion of `handleResolveServer`; a step that throws leaves nothing stored. */
  method ResolveStep(fetched: Option<string>) returns (res: Option<ResolveResult>)
    ensures res == ResolveOf(fetched)
  {
    res := None;
    if fetched.Some? {
      var r := GuidToBase64(fetched.value);
      if r.Success? {
        res := Some(ResolveResult(fetched.value, r.value));
      }
    }
  }

  /**
   * The awaited lookup and the conversion at the start of the server path of
   * `handleUpdateAnchor`; a step that throws yields no anchor.
   */
  method LookupStep(fetched: Option<string>) returns (anchor: Option<string>)
    ensures anchor == LookedUpAnchor(fetched)
  {
    anchor := None;
    if fetched.Some? {
      var r := GuidToBase64(fetched.value);
      if r.Success? {
        anchor := Some(r.value);
      }
    }
  }

  /** The steps of one permitted run of `handleUpdateAnchor`, in order, stopping where a step throws. */
  method UpdateSteps(mode: EnvMode, upn: string, password: string, manualAnchor: string,
                     fetched: Option<string>, cloudOk: bool) returns (log: seq<Call>)
    ensures log == UpdateCalls(mode, upn, password, manualAnchor, fetched, cloudOk)
  {
    var u := Trim(upn);
    var anchor: string;
    if mode == Server {
      log := [FetchOnPremGuid(u)];
      var found := LookupStep(fetched);
      if found.None? {
        // the lookup or the conversion threw
        assert log == [FetchOnPremGuid(u)] + ServerWrites(u, None, password, cloudOk);
        return;
      }
      anchor := found.value;
    } else {
      log := [];
      anchor := manualAnchor;
    }
    ghost var before := log;
    log := log + [UpdateCloudAnchor(u, anchor)];
    if !cloudOk {
      // the cloud update threw
      assert mode == Server ==> log == before + ServerWrites(u, Some(anchor), password, cloudOk);
      return;
    }
    if mode == Server && !IsBlank(password) {
      // a failure here is swallowed
      log := log + [UpdateOnPremPassword(u, password)];
      assert log == before + ServerWrites(u, Some(anchor), password, cloudOk);
    }
  }

  /* ---------- the component ---------- */

  class HardLinkTool {
    var mode: EnvMode
    var upn: string
    var objectGuidInput: string
    var password: string
    var resolving: bool
    var updating: bool
    var resolved: Option<ResolveResult>
    /** The back-end calls made so far, in order. */
    ghost var calls: seq<Call>

    /**
     * Between handler runs nothing is in flight, and a stored resolution always pairs an
     * identifier with its anchor.
     */
    ghost predicate Valid()
      reads this`resolving, this`updating, this`resolved
    {
      !resolving && !updating
      && (resolved.Some? ==> GuidAnchor(resolved.value.guid) == Success(resolved.value.base64))
    }

    /** `base64FromManual`, recomputed from the identifier field. */
    function Preview(): ManualPreview
      reads this`objectGuidInput
    {
      Base64FromManual(objectGuidInput)
    }

    function CanUpdateNow(): bool
      reads this`upn, this`mode, this`objectGuidInput
    {
      CanUpdate(upn, mode, Preview())
    }

    constructor ()
      ensures Valid() && calls == []
      ensures mode == Client && upn == "" && objectGuidInput == "" && password == ""
      ensures resolved == None
    {
      mode := Client;
      upn := "";
      objectGuidInput := "";
      password := "";
      resolving := false;
      updating := false;
      resolved := None;
      calls := [];
    }

    method SetMode(m: EnvMode)
      modifies this`mode
      ensures mode == m
    {
      mode := m;
    }

    method SetUpn(s: string)
      modifies this`upn
      ensures upn == s
    {
      upn := s;
    }

    method SetObjectGuidInput(s: string)
      modifies this`objectGuidInput
      ensures objectGuidInput == s
    {
      objectGuidInput := s;
    }

    method SetPassword(s: string)
      modifies this`password
      ensures password == s
    {
      password := s;
    }

    /**
     * `handleResolveServer`: with a blank UPN nothing happens; otherwise the previous resolution
     * is cleared, the lookup is called with the trimmed UPN, and the identifier it returns is
     * stored with its anchor when it converts. Failures are swallowed.
     */
    method HandleResolveServer(fetched: Option<string>)
      requires Valid()
      modifies this`resolving, this`resolved, this`calls
      ensures Valid()
      ensures IsBlank(upn) ==> resolved == old(resolved) && calls == old(calls)
      ensures !IsBlank(upn) ==> resolved == ResolveOf(fetched) && calls == old(calls) + [FetchOnPremGuid(Trim(upn))]
    {
      if IsBlank(upn) {
        return;
      }
      resolving := true;
      resolved := None;
      calls := calls + [FetchOnPremGuid(Trim(upn))];
      resolved := ResolveStep(fetched);
      resolving := false;
    }

    /**
     * `handleUpdateAnchor`: does nothing unless `canUpdate` holds; otherwise makes the calls of
     * `UpdateCalls` in order, stopping at the first failure except the password step's, and
     * clears `updating` on every path.
     */
    method HandleUpdateAnchor(fetched: Option<string>, cloudOk: bool)
      requires Valid()
      modifies this`updating, this`calls
      ensures Valid()
      ensures calls == old(calls) +
        if CanUpdateNow() then UpdateCalls(mode, upn, password, Preview().base64, fetched, cloudOk) else []
    {
      if !CanUpdateNow() {
        return;
      }
      updating := true;
      var log := UpdateSteps(mode, upn, password, Preview().base64, fetched, cloudOk);
      calls := calls + log;
      updating := false;
    }
  }
}
