# Hard link tool, Graph scopes, sign-in and PowerShell back-end panel in Dafny

This project models the logic at the core of an Entra ID admin console written in React and
TypeScript, and proves properties of it. The model covers four parts:

- **The hard-link tool** (`src/tools/HardLinkTool.tsx`).
  - It turns an on-premises `objectGUID` into the base 64 `onPremisesImmutableId` anchor
    (`normalizeGuid`, `isValidGuid`, `guidToBase64`).
  - Its component previews the anchor of a typed identifier and decides when an update is allowed.
  - It resolves an identifier from the directory and writes the cloud anchor, then optionally the
    on-premises password.
- **The Graph permission scopes** (`src/lib/graphScopes.ts`).
  - The five default scopes and the 99 scopes on offer.
  - The optional scopes, which are those on offer minus the defaults.
  - `buildScopes`, which appends the selected optional scopes to the defaults.
- **The sign-in screen's connect logic** (`src/components/layout/login/SignInScreen.tsx`).
  - The ten-entry debug log.
  - Toggling and searching optional scopes.
  - The `Connect-MgGraph` command.
  - `connectGraph`: what it logs, the error it leaves and when it goes to the dashboard.
- **The PowerShell Graph back-end panel** (`src/components/tools/GraphBackendPanel.tsx`): the
  connect, get-users and run-command handlers and the status refresh.

Modules:

| module | file | models |
|---|---|---|
| `Wrappers` | wrappers.dfy | `Option`, `Result` |
| `Text` | text.dfy | ASCII `trim`, `toLowerCase`, `includes`, `split`/`join` on one character, `slice(-n)`, decimal rendering |
| `Base64` | base64.dfy | `btoa` over Latin-1 code units (the standard alphabet with `=` padding, section 4 of RFC 4648), and a decoder proved to be its inverse |
| `GuidCodec` | guid_codec.dfy | `normalizeGuid`, `isValidGuid`, `guidToBase64` as written (including `parseInt` and `String.fromCharCode`); the 16-byte anchor layout and its inverse |
| `HardLink` | hard_link.dfy | the `HardLinkTool` component: preview, `canUpdate`, `handleResolveServer`, `handleUpdateAnchor` |
| `Scopes` | scopes.dfy | `DEFAULT_GRAPH_SCOPES`, `ALL_AVAILABLE_SCOPES`, `OPTIONAL_GRAPH_SCOPES`, `buildScopes` |
| `PsBackend` | ps_backend.dfy | the parsed replies of the local back end (`LocalResult`, `StatusResult`), JavaScript truthiness, `??` and `||` |
| `SignIn` | sign_in.dfy | the `SignInScreen` helpers `addLog`, `toggleOptional`, `filteredOptionalScopes`, `connectGraph` |
| `GraphBackend` | graph_backend.dfy | the `GraphBackendPanel` handlers |

How the state and the outside world appear in the model:

- **Component state.** React state that the handlers update becomes a class with those fields:
  `HardLink.HardLinkTool`, `SignIn.SignInScreen` and `GraphBackend.GraphBackendPanel`. Each
  handler is a method with a `modifies` clause.
- **Awaited calls.** Each awaited call becomes a parameter of the handler. It is a
  `PsBackend.Outcome`: `Returned` with the parsed body (`None` for `null`), or `Threw` with the
  error's `message`.
- **Host strings.** Strings produced by the host are parameters of their own: the time of day
  from `toLocaleTimeString`, and the `JSON.stringify` texts (`SignIn.RenderedTexts`).
- **The hard-link stubs.** The three back-end stubs of the hard-link tool become outcomes given
  to the handler, and the class records the calls made, in order, in the ghost field `calls`.
- **The Graph panel's commands.** `GraphBackendPanel` records, in the field `sent`, each command
  it hands to `psRunLocal`, in order.

Where a loop in the source updates a variable, the model has a method with that loop, proved
equal to a specification function: `HexToBytes` and `AppendCharCodes`. `connectGraph` has no
loop; it calls `addLog` several times in a row. The model sends each run of successive
`addLog` calls through one loop, in `SignInScreen.AddLogs`, proved equal to logging the
messages one by one. The properties are then proved about the specification functions.

`connectGraph` reads the error `err` through the closure of the render in which it was
created. So the "not connected" message depends on the error shown *before* the attempt, even
though the attempt cleared it. `SignIn.ConnectError` takes that earlier error as `staleErr`, and
`NotConnectedReplacesFailure` states the consequence.

## Model

| member | source | states |
|---|---|---|
| Text.BlankIffAllWhitespace | src/tools/HardLinkTool.tsx:94 | `!s.trim()` holds exactly when every character is (ASCII) white space |
| Text.TrimIsSlice | src/tools/HardLinkTool.tsx:23 | `trim` returns a contiguous slice: only white space is cut, from both ends |
| Text.TrimUnpadded | src/tools/HardLinkTool.tsx:23 | `trim` leaves alone a text without white space at its ends |
| Text.ToLowerIsLower | src/tools/HardLinkTool.tsx:25 | `toLowerCase` leaves no upper-case letter |
| Text.ContainsAt | src/components/layout/login/SignInScreen.tsx:270 | `includes` holds exactly when the needle occurs at some position |
| Text.JoinSplit | src/tools/HardLinkTool.tsx:33 | joining what `split` returns restores the text |
| Text.SplitJoin | src/components/layout/login/SignInScreen.tsx:294 | splitting a join of separator-free parts gives the parts back |
| Text.SplitCount | src/tools/HardLinkTool.tsx:33 | `split` yields one more part than there are separators |
| Text.NatToString | src/components/layout/login/SignInScreen.tsx:290 | a count is rendered as a non-empty run of decimal digits with no leading zero, ending in the count's last digit |
| Text.NatToStringValue | src/components/layout/login/SignInScreen.tsx:290 | the digits rendered for a count spell that count again |
| Base64.Encode | src/tools/HardLinkTool.tsx:49 | `btoa` of n bytes is 4·⌈n/3⌉ characters |
| Base64.EncodePadding | src/tools/HardLinkTool.tsx:49 | the encoding is alphabet characters followed by exactly the pads 0, 2 or 1 that n mod 3 calls for |
| Base64.DecodeEncode | src/tools/HardLinkTool.tsx:49 | decoding an encoding gives the bytes back |
| Base64.EncodeDecode | src/tools/HardLinkTool.tsx:49 | every text the decoder accepts is the encoding of what it decodes to |
| GuidCodec.NormalizeSlice | src/tools/HardLinkTool.tsx:22-26 | the normalized text is the lower-cased input with only white space and braces cut from its ends |
| GuidCodec.NormalizeStripsOnePair | src/tools/HardLinkTool.tsx:24 | exactly one pair of outer braces is removed |
| GuidCodec.NormalizeKeepsOpenBrace | src/tools/HardLinkTool.tsx:24 | a lone opening brace is kept |
| GuidCodec.NormalizeKeepsCloseBrace | src/tools/HardLinkTool.tsx:24 | a lone closing brace is kept |
| GuidCodec.NormalizeTrims | src/tools/HardLinkTool.tsx:23 | white space around the input does not change the normalized text |
| GuidCodec.NormalizeIsLower | src/tools/HardLinkTool.tsx:25 | the normalized text is lower case |
| GuidCodec.ValidNormalizesToCanonical | src/tools/HardLinkTool.tsx:27-28 | an input `isValidGuid` accepts normalizes to the lower-case 8-4-4-4-12 layout, which is a fixed point of normalizing |
| GuidCodec.LeadingHexDigits | src/tools/HardLinkTool.tsx:36 | `parseInt` reads the longest run of hex digits at the front |
| GuidCodec.ParseHex | src/tools/HardLinkTool.tsx:36 | `parseInt` of at most two characters is NaN or below 256 |
| GuidCodec.HexBytes | src/tools/HardLinkTool.tsx:34-38 | `hexToBytes` yields ⌈n/2⌉ numbers, each NaN or a byte |
| GuidCodec.HexBytesOfPairs | src/tools/HardLinkTool.tsx:34-38 | for an even run of hex digits, number k is the byte spelled by digits 2k and 2k+1 |
| GuidCodec.HexToBytes | src/tools/HardLinkTool.tsx:34-38 | the loop computes `HexBytes` |
| GuidCodec.AppendCharCodes | src/tools/HardLinkTool.tsx:47-48 | the `fromCharCode` loop yields one code unit per number |
| GuidCodec.GuidToBase64 | src/tools/HardLinkTool.tsx:30-50 | the method (with both loops) computes `GuidAnchor` |
| GuidCodec.GuidAnchorAccepts | src/tools/HardLinkTool.tsx:30-32 | `guidToBase64` succeeds exactly when its normalized input passes `isValidGuid`, and otherwise throws "Invalid GUID format" |
| GuidCodec.GuidAnchorOfValid | src/tools/HardLinkTool.tsx:30-50 | for an input `isValidGuid` accepts, the result is the base 64 of the 16 anchor bytes, with fields one to three byte-reversed |
| GuidCodec.FieldUnits | src/tools/HardLinkTool.tsx:39-46 | the code units collected from the five fields are the anchor bytes |
| GuidCodec.SplitPattern | src/tools/HardLinkTool.tsx:33 | `split('-')` of a pattern match gives its five fields |
| GuidCodec.ValidIsAccepted | src/tools/HardLinkTool.tsx:27-32 | every input `isValidGuid` accepts converts |
| GuidCodec.AcceptedButNotValid | src/tools/HardLinkTool.tsx:30-32 | an input accepted only after a second normalization converts to more than 16 bytes, which read back as no identifier |
| GuidCodec.DoubleBraced | src/tools/HardLinkTool.tsx:24-32 | `{{g}}` fails `isValidGuid` but converts, to an anchor that is not a 16-byte identifier |
| GuidCodec.GuidAnchorIgnoresDecoration | src/tools/HardLinkTool.tsx:22-31 | case, surrounding white space and one brace pair do not change the anchor |
| GuidCodec.FormatGuidIsCanonical | src/tools/HardLinkTool.tsx:28 | formatting 16 bytes gives the canonical layout |
| GuidCodec.AnchorBytesOfFormat | src/tools/HardLinkTool.tsx:39-46 | reading the bytes of a formatted identifier gives the bytes back |
| GuidCodec.FormatOfAnchorBytes | src/tools/HardLinkTool.tsx:39-46 | formatting the bytes of a canonical identifier gives it back |
| GuidCodec.AnchorRoundTrip | src/tools/HardLinkTool.tsx:30-50 | every canonical identifier is recovered from its anchor |
| GuidCodec.AnchorToGuidSound | src/tools/HardLinkTool.tsx:30-50 | every text that reads back as an identifier is that identifier's anchor |
| GuidCodec.AnchorShape | src/tools/HardLinkTool.tsx:49 | an anchor is 22 alphabet characters and two pads |
| GuidCodec.GuidAnchorOfFormat | src/tools/HardLinkTool.tsx:30-50 | the anchor of the canonical text of 16 bytes is the base 64 of those bytes |
| GuidCodec.PlaceholderAnchor | src/tools/HardLinkTool.tsx:62 | the stub identifier converts to `ERERESIiMzNERFVVVVVVVQ==` |
| HardLink.ManualPreviewOutcomes | src/tools/HardLinkTool.tsx:93-100 | the preview is empty for a blank input, the anchor when the identifier converts, and "Invalid GUID format" otherwise |
| HardLink.ManualPreviewReadsBack | src/tools/HardLinkTool.tsx:93-100 | the previewed anchor of a valid input reads back as its normalized identifier |
| HardLink.ClientCanUpdate | src/tools/HardLinkTool.tsx:123-127 | in client mode an update is allowed exactly when there is a UPN and the identifier converts |
| HardLink.LookedUpAnchorSound | src/tools/HardLinkTool.tsx:135-136 | the server finds an anchor exactly when the returned identifier, normalized, passes `isValidGuid` |
| HardLink.LookedUpAnchorReadsBack | src/tools/HardLinkTool.tsx:135-136 | the anchor found for a valid identifier decodes back to that identifier, normalized |
| HardLink.ResolveOfSound | src/tools/HardLinkTool.tsx:110-114 | a resolution is stored exactly for an identifier valid once normalized; for a valid one the stored anchor decodes back to the stored identifier |
| HardLink.ResolveStep | src/tools/HardLinkTool.tsx:110-114 | the lookup-and-convert step yields `ResolveOf` |
| HardLink.ServerWritesShape | src/tools/HardLinkTool.tsx:140-146 | the writes are the cloud update and then at most a password update, all for the same UPN |
| HardLink.UpdateSendsTrimmedUpn | src/tools/HardLinkTool.tsx:135-143 | every call carries the trimmed UPN |
| HardLink.PasswordStepGuard | src/tools/HardLinkTool.tsx:141-146 | the password update happens only in server mode, with a typed password, right after a successful cloud update |
| HardLink.ServerAnchorIsFresh | src/tools/HardLinkTool.tsx:134-137 | server mode re-fetches and writes that lookup's anchor, and writes nothing when the lookup or the conversion fails |
| HardLink.ClientSendsPreview | src/tools/HardLinkTool.tsx:137-140 | client mode writes exactly the previewed anchor |
| HardLink.PlaceholderLookup | src/tools/HardLinkTool.tsx:58-63 | the stub lookup leads to the placeholder's anchor |
| HardLink.LookupStep | src/tools/HardLinkTool.tsx:135-136 | the lookup and conversion of the server path yield `LookedUpAnchor`: the anchor exactly when both steps succeed |
| HardLink.UpdateSteps | src/tools/HardLinkTool.tsx:129-151 | the handler's steps, in order, are `UpdateCalls` |
| HardLink.HardLinkTool.HandleResolveServer | src/tools/HardLinkTool.tsx:104-118 | a blank UPN changes nothing; otherwise one lookup with the trimmed UPN, and `resolved` becomes `ResolveOf` |
| HardLink.HardLinkTool.HandleUpdateAnchor | src/tools/HardLinkTool.tsx:129-151 | without `canUpdate` nothing happens; otherwise the calls of `UpdateCalls`, and `updating` is cleared |
| Scopes.Filter | src/lib/graphScopes.ts:158-160 | `filter` keeps exactly the elements that pass, and no more of them |
| Scopes.FilterAppend | src/lib/graphScopes.ts:158-160 | filtering keeps order: it distributes over concatenation |
| Scopes.FilterCount | src/lib/graphScopes.ts:166 | without duplicates, the filter has as many elements as distinct ones pass |
| Scopes.OptionalMembers | src/lib/graphScopes.ts:158-160 | an optional scope is exactly a scope on offer that is not a default |
| Scopes.OptionalKeepsOrder | src/lib/graphScopes.ts:158-160 | the optional scopes keep the order of the scopes on offer |
| Scopes.BuildScopesEmpty | src/lib/graphScopes.ts:163-168 | with nothing selected, exactly the five defaults are requested |
| Scopes.BuildScopesStartsWithDefaults | src/lib/graphScopes.ts:163-168 | the request starts with the defaults in order, then only selected optional scopes |
| Scopes.BuildScopesMembers | src/lib/graphScopes.ts:163-168 | a scope is requested exactly when it is a default, or an optional scope that was selected |
| Scopes.BuildScopesIgnoresOthers | src/lib/graphScopes.ts:163-168 | selected names that are not optional scopes are ignored |
| Scopes.DefaultsDistinct | src/lib/graphScopes.ts:3-9 | the five defaults are distinct |
| Scopes.BuildScopesDistinct | src/lib/graphScopes.ts:163-168 | the request lists no scope twice |
| Scopes.BuildScopesLength | src/lib/graphScopes.ts:163-168 | the request has 5 + (number of selected optional scopes) entries |
| SignIn.Appended | src/components/layout/login/SignInScreen.tsx:256-259 | after `addLog` the log holds at most ten entries, the new one last |
| SignIn.AppendedIsWindow | src/components/layout/login/SignInScreen.tsx:258 | one addition keeps the latest ten entries |
| SignIn.AppendedAllIsWindow | src/components/layout/login/SignInScreen.tsx:258 | any number of additions keep the latest ten entries of everything logged |
| SignIn.Stamped | src/components/layout/login/SignInScreen.tsx:258 | each entry is the time of day, ": " and the message |
| SignIn.LogStep | src/components/layout/login/SignInScreen.tsx:258 | below ten entries an addition drops nothing |
| SignIn.Toggle | src/components/layout/login/SignInScreen.tsx:276-282 | the toggled scope is in the selection exactly when checked; nothing else changes |
| SignIn.ToggleTwice | src/components/layout/login/SignInScreen.tsx:276-282 | toggling is idempotent, and checking then unchecking a new scope restores the selection |
| SignIn.SearchIsFilter | src/components/layout/login/SignInScreen.tsx:267-272 | the search list is the filter of the optional scopes by the case-insensitive `includes` test, the empty term (which lists everything) included |
| SignIn.SearchMembers | src/components/layout/login/SignInScreen.tsx:267-272 | a scope is listed exactly when it is optional and contains the term, ignoring case |
| SignIn.ConnectCommandReadsBack | src/components/layout/login/SignInScreen.tsx:294 | the command is the fixed prefix and suffix around the quoted scopes, comma-separated, in order |
| SignIn.LocalFailureTextChoice | src/components/layout/login/SignInScreen.tsx:299-303 | the failure text is never empty; it is the first present candidate of output, error, errors, or the fixed message when that candidate is empty or none is present (so an empty `error` hides `errors`) |
| SignIn.ConnectErrorNotEmpty | src/components/layout/login/SignInScreen.tsx:299-322 | a shown error is never empty |
| SignIn.ConnectErrorAbsent | src/components/layout/login/SignInScreen.tsx:299-322 | no error is left exactly when both calls return, the local reply is ok, and either connected or an earlier error was captured |
| SignIn.NotConnectedReplacesFailure | src/components/layout/login/SignInScreen.tsx:315-318 | after a local failure and no connection, the "not connected" message replaces it only when the captured error was falsy |
| SignIn.ConnectMessagesShape | src/components/layout/login/SignInScreen.tsx:284-327 | an attempt logs six to nine messages, from the start message to the finish message |
| SignIn.SignInScreen.AddLog | src/components/layout/login/SignInScreen.tsx:256-259 | the log becomes `Appended` of the stamped message |
| SignIn.SignInScreen.ToggleOptional | src/components/layout/login/SignInScreen.tsx:276-282 | the selection becomes `Toggle` of the old one |
| SignIn.SignInScreen.AddLogs | src/components/layout/login/SignInScreen.tsx:289-325 | successive `addLog` calls within ten entries append every stamped message |
| SignIn.SignInScreen.ConnectGraph | src/components/layout/login/SignInScreen.tsx:284-327 | the log is the stamped `ConnectMessages`, the error is `ConnectError` of the captured one, the context is stored and the dashboard opened exactly when connected, and `connecting` ends false |
| GraphBackend.FailureTextUsesFallback | src/components/tools/GraphBackendPanel.tsx:70 | the fallback shows through exactly when the reply has neither `error` nor `errors` |
| GraphBackend.FailureTextSplitsBack | src/components/tools/GraphBackendPanel.tsx:90 | splitting the joined `errors` at newlines gives them back |
| GraphBackend.UsersOfShape | src/components/tools/GraphBackendPanel.tsx:87 | an array output gives its elements, another truthy output one user, and nothing is shown exactly for a falsy output or an empty array |
| GraphBackend.UsersComeFromOutput | src/components/tools/GraphBackendPanel.tsx:87 | every user shown comes from the output |
| GraphBackend.ConnectErrorAbsent | src/components/tools/GraphBackendPanel.tsx:59-77 | connecting leaves no error exactly when the local reply is ok and the status refresh returns |
| GraphBackend.UsersOrError | src/components/tools/GraphBackendPanel.tsx:79-97 | fetching users leaves exactly one of a user list and an error |
| GraphBackend.SameFailureChain | src/components/tools/GraphBackendPanel.tsx:70 | connect and get-users read a failed reply the same way up to the fallback |
| GraphBackend.RunLocalErrorAbsent | src/components/tools/GraphBackendPanel.tsx:104-111 | running a command leaves no error exactly when the stored reply is ok |
| GraphBackend.RunLocalIgnoresErrors | src/components/tools/GraphBackendPanel.tsx:108 | a failed reply's `errors` reach the get-users error but not the run-command error |
| GraphBackend.GraphBackendPanel.RefreshStatus | src/components/tools/GraphBackendPanel.tsx:45-53 | the status is stored, or the exception reported with "Status check failed" as fallback |
| GraphBackend.GraphBackendPanel.HandleConnect | src/components/tools/GraphBackendPanel.tsx:59-77 | the connect command is sent; the error is `ConnectError`, the status is refreshed only after an ok reply, and `busy` ends false |
| GraphBackend.GraphBackendPanel.HandleGetUsers | src/components/tools/GraphBackendPanel.tsx:79-97 | the fixed user query is sent; the users are `FetchedUsers`, the error `GetUsersError`, and `busy` ends false |
| GraphBackend.GraphBackendPanel.HandleRunLocal | src/components/tools/GraphBackendPanel.tsx:99-115 | a blank command changes nothing and sends nothing; otherwise the typed command is sent as typed (untrimmed), the reply is stored, the error is `RunLocalError`, and `busy` ends false |

## Left out

- The back-end plumbing of `src/lib/psBackend.ts` (fetch, JSON parsing, the base URL, and throwing on a non-2xx reply) is not part of this model. Its replies enter as `Outcome` parameters.
- `JSON.stringify`, `toLocaleTimeString`, `e.stack` and `window.location` are host functions. The texts they produce are parameters, and the redirect is the field `redirectedTo`. One attempt uses a single time stamp for all its log entries.
- `console.log`, rendering, styling, routing, `sessionStorage`, the clipboard helpers (`copyCommand`, `objectGuidCommand`) and the `currentAnchor` memo are left out: they carry no logic.
- `handleSessionTest` is left out: it sets the command and schedules `handleRunLocal` with `setTimeout`, and timers are not modelled.
- The initial `useEffect` status refresh of the panel is left out, because effect scheduling is not modelled. `RefreshStatus` is the same operation.
- Asynchrony is left out: each handler runs to completion with its awaited outcomes given up front. Interleaving two handlers, or clicking while `busy`, is not modelled.
- `trim` and `toLowerCase` are ASCII only: Unicode white space and non-ASCII case mappings are not modelled.
- `parseInt` is modelled without its sign and `0x` prefix handling, which no input can reach: the fields hold only what passed the pattern test.
- JSON numbers are integers: floating point, `NaN` and `-0` in replies are not modelled (they only affect truthiness of an output).
- Scopes.BuildScopesDistinct: takes "no scope listed twice" of the universe as a hypothesis rather than proving it of the 99-entry literal.
- Scopes.BuildScopesLength: takes "no scope listed twice" of the universe as a hypothesis, as above.
- SignIn.ConnectCommandReadsBack: holds for scope names without commas, which every scope on offer satisfies, but that is assumed rather than proved of the literal.
- SignIn.SignInScreen.ConnectGraph: takes the scopes the handler's closure captured as a parameter. It does not restate that they are `buildScopes(selectedOptional)` of that render.
