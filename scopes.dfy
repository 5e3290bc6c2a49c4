/**
 * The Microsoft Graph permission scopes offered at sign-in: the five defaults every connection
 * asks for, the full list on offer, the optional ones (the full list without the defaults) and
 * `buildScopes`, which puts the defaults first and then the selected optional scopes in the
 * order of the full list.
 */
module Scopes {

  /** `DEFAULT_GRAPH_SCOPES`: the admin-focused scopes every connection requests. */
  const DefaultGraphScopes: seq<string> := [
    "User.ReadWrite.All",
    "Group.ReadWrite.All",
    "Directory.ReadWrite.All",
    "Calendars.ReadWrite",
    "Files.ReadWrite.All"
  ]

  /** `ALL_AVAILABLE_SCOPES`: every scope the sign-in screen offers, in the order listed. */
  const AllAvailableScopes: seq<string> := [
    "User.Read", "User.ReadWrite", "User.ReadBasic.All", "User.Read.All", "User.ReadWrite.All",
    "User.Invite.All", "User.Export.All", "User.ManageIdentities.All",
    "Group.Read.All", "Group.ReadWrite.All", "Group.Create", "GroupMember.Read.All",
    "GroupMember.ReadWrite.All",
    "Directory.Read.All", "Directory.ReadWrite.All", "Directory.AccessAsUser.All",
    "Application.Read.All", "Application.ReadWrite.All", "Application.ReadWrite.OwnedBy",
    "Calendars.Read", "Calendars.ReadWrite", "Calendars.Read.Shared", "Calendars.ReadWrite.Shared",
    "Files.Read", "Files.ReadWrite", "Files.Read.All", "Files.ReadWrite.All",
    "Sites.Read.All", "Sites.ReadWrite.All", "Sites.Manage.All", "Sites.FullControl.All",
    "Mail.Read", "Mail.ReadWrite", "Mail.Read.Shared", "Mail.ReadWrite.Shared", "Mail.Send",
    "Mail.Send.Shared", "MailboxSettings.Read", "MailboxSettings.ReadWrite",
    "Contacts.Read", "Contacts.ReadWrite", "Contacts.Read.Shared", "Contacts.ReadWrite.Shared",
    "People.Read", "People.Read.All",
    "Notes.Read", "Notes.ReadWrite", "Notes.Create", "Notes.ReadWrite.CreatedByApp", "Notes.Read.All",
    "Notes.ReadWrite.All",
    "Tasks.Read", "Tasks.ReadWrite", "Tasks.Read.Shared", "Tasks.ReadWrite.Shared",
    "Device.Read", "Device.Read.All", "Device.ReadWrite.All",
    "IdentityRiskEvent.Read.All", "IdentityRiskyUser.Read.All", "IdentityRiskyUser.ReadWrite.All",
    "IdentityUserFlow.Read.All", "IdentityUserFlow.ReadWrite.All",
    "Policy.Read.All", "Policy.ReadWrite.ApplicationConfiguration",
    "Policy.ReadWrite.AuthenticationFlows", "Policy.ReadWrite.AuthenticationMethod",
    "Reports.Read.All", "AuditLog.Read.All",
    "SecurityEvents.Read.All", "SecurityEvents.ReadWrite.All", "ThreatIndicators.ReadWrite.OwnedBy",
    "AppRoleAssignment.ReadWrite.All", "ServicePrincipalEndpoint.Read.All",
    "ServicePrincipalEndpoint.ReadWrite.All",
    "Team.ReadBasic.All", "Team.Read.All", "Team.ReadWrite.All", "TeamSettings.Read.All",
    "TeamSettings.ReadWrite.All",
    "Channel.ReadBasic.All", "Channel.Read.All", "Channel.ReadWrite.All", "ChannelSettings.Read.All",
    "ChannelSettings.ReadWrite.All",
    "Chat.Read", "Chat.ReadWrite", "Chat.Read.All", "Chat.ReadWrite.All",
    "Calls.Read.All", "Calls.ReadWrite.All",
    "EduAssignments.Read", "EduAssignments.ReadWrite", "EduRoster.Read", "EduRoster.ReadWrite",
    "PrintJob.Read.All", "PrintJob.ReadWrite.All", "Printer.Read.All", "Printer.ReadWrite.All"
  ]

  /* ---------- filtering ---------- */

  /** `xs.filter(keep)`: the elements that pass, each once per occurrence, in the order they come. */
  function Filter(xs: seq<string>, keep: string -> bool): (r: seq<string>)
    ensures |r| <= |xs|
    ensures forall x :: x in r <==> x in xs && keep(x)
    decreases |xs|
  {
    if |xs| == 0 then [] else (if keep(xs[0]) then [xs[0]] else []) + Filter(xs[1..], keep)
  }

  /** Filtering distributes over concatenation: what passes from the front comes before what passes from the back. */
  lemma {:induction false} FilterAppend(a: seq<string>, b: seq<string>, keep: string -> bool)
    ensures Filter(a + b, keep) == Filter(a, keep) + Filter(b, keep)
    decreases |a|
  {
    if |a| == 0 {
      assert a + b == b;
    } else {
      assert (a + b)[1..] == a[1..] + b;
      FilterAppend(a[1..], b, keep);
    }
  }

  /** Two tests that agree on every element select the same elements. */
  lemma {:induction false} FilterAgree(xs: seq<string>, k1: string -> bool, k2: string -> bool)
    requires forall x :: x in xs ==> k1(x) == k2(x)
    ensures Filter(xs, k1) == Filter(xs, k2)
    decreases |xs|
  {
    if |xs| > 0 {
      FilterAgree(xs[1..], k1, k2);
    }
  }

  /** A test every element passes keeps the whole sequence. */
  lemma {:induction false} FilterKeepsAll(xs: seq<string>, keep: string -> bool)
    requires forall x :: x in xs ==> keep(x)
    ensures Filter(xs, keep) == xs
    decreases |xs|
  {
    if |xs| > 0 {
      FilterKeepsAll(xs[1..], keep);
      assert [xs[0]] + xs[1..] == xs;
    }
  }

  /** A test no element passes keeps nothing. */
  lemma {:induction false} FilterKeepsNone(xs: seq<string>, keep: string -> bool)
    requires forall x :: x in xs ==> !keep(x)
    ensures Filter(xs, keep) == []
    decreases |xs|
  {
    if |xs| > 0 {
      FilterKeepsNone(xs[1..], keep);
    }
  }

  /** No element occurs twice. */
  predicate NoDuplicates(xs: seq<string>) {
    forall i, j :: 0 <= i < j < |xs| ==> xs[i] != xs[j]
  }

  /** Two sequences without duplicates and without a common element join into one without duplicates. */
  lemma JoinNoDuplicates(a: seq<string>, b: seq<string>)
    requires NoDuplicates(a) && NoDuplicates(b)
    requires forall x :: x in a ==> x !in b
    ensures NoDuplicates(a + b)
  {
    var r := a + b;
    forall i, j | 0 <= i < j < |r|
      ensures r[i] != r[j]
    {
      if j < |a| {
        assert r[i] == a[i] && r[j] == a[j];
      } else if i < |a| {
        assert r[i] == a[i] && a[i] in a && r[j] == b[j - |a|] && b[j - |a|] in b;
      } else {
        assert r[i] == b[i - |a|] && r[j] == b[j - |a|];
      }
    }
  }

  /** Filtering a sequence without duplicates gives one without duplicates. */
  lemma {:induction false} FilterNoDuplicates(xs: seq<string>, keep: string -> bool)
    requires NoDuplicates(xs)
    ensures NoDuplicates(Filter(xs, keep))
    decreases |xs|
  {
    if |xs| > 0 {
      FilterNoDuplicates(xs[1..], keep);
      var rest := Filter(xs[1..], keep);
      assert xs[0] !in xs[1..];
      assert xs[0] !in rest;
    }
  }

  /** Without duplicates, the filter has as many elements as there are distinct elements that pass. */
  lemma {:induction false} FilterCount(xs: seq<string>, keep: string -> bool)
    requires NoDuplicates(xs)
    ensures |Filter(xs, keep)| == |set x | x in xs && keep(x)|
    decreases |xs|
  {
    if |xs| > 0 {
      FilterCount(xs[1..], keep);
      var tail := set x | x in xs[1..] && keep(x);
      var all := set x | x in xs && keep(x);
      assert xs[0] !in xs[1..];
      if keep(xs[0]) {
        assert all == tail + {xs[0]};
      } else {
        assert all == tail;
      }
    }
  }

  /* ---------- the optional scopes and buildScopes ---------- */

  /** `!DEFAULT_GRAPH_SCOPES.includes(scope)` */
  predicate NotDefault(scope: string) {
    scope !in DefaultGraphScopes
  }

  /** `s => selectedOptional.has(s)` */
  function SelectedIn(selected: set<string>): string -> bool {
    s => s in selected
  }

  /** A universe of scopes with every default taken out, in the universe's order. */
  function OptionalOf(universe: seq<string>): seq<string> {
    Filter(universe, NotDefault)
  }

  /** `OPTIONAL_GRAPH_SCOPES`: everything on offer except the defaults. */
  const OptionalGraphScopes: seq<string> := OptionalOf(AllAvailableScopes)

  /** `buildScopes` over a given universe: the defaults, then the selected optional scopes in universe order. */
  function BuildScopesFrom(universe: seq<string>, selected: set<string>): seq<string> {
    DefaultGraphScopes + Filter(OptionalOf(universe), SelectedIn(selected))
  }

  /** `buildScopes(selectedOptional)`. */
  function BuildScopes(selected: set<string>): seq<string> {
    BuildScopesFrom(AllAvailableScopes, selected)
  }

  /** An optional scope is exactly a scope on offer that is not a default. */
  lemma OptionalMembers(universe: seq<string>)
    ensures forall s :: s in OptionalOf(universe) <==> s in universe && s !in DefaultGraphScopes
  {
  }

  /** The optional scopes keep the universe's order: splitting the universe splits them the same way. */
  lemma OptionalKeepsOrder(front: seq<string>, back: seq<string>)
    ensures OptionalOf(front + back) == OptionalOf(front) + OptionalOf(back)
  {
    FilterAppend(front, back, NotDefault);
  }

  /** With nothing selected, only the defaults are requested, in their declared order. */
  lemma BuildScopesEmpty(universe: seq<string>)
    ensures BuildScopesFrom(universe, {}) == DefaultGraphScopes
  {
    FilterKeepsNone(OptionalOf(universe), SelectedIn({}));
  }

  /** Whatever the selection, the request starts with the five defaults in order, followed by optional scopes only. */
  lemma BuildScopesStartsWithDefaults(universe: seq<string>, selected: set<string>)
    ensures var r := BuildScopesFrom(universe, selected);
      |r| >= 5 && r[..5] == DefaultGraphScopes
      && forall k :: 5 <= k < |r| ==> r[k] in OptionalOf(universe) && r[k] in selected
  {
    var r := BuildScopesFrom(universe, selected);
    var tail := Filter(OptionalOf(universe), SelectedIn(selected));
    assert r[5..] == tail;
    forall k | 5 <= k < |r|
      ensures r[k] in OptionalOf(universe) && r[k] in selected
    {
      assert r[k] == tail[k - 5];
    }
  }

  /** A scope is requested exactly when it is a default, or an optional scope on offer that was selected. */
  lemma BuildScopesMembers(universe: seq<string>, selected: set<string>)
    ensures forall s :: s in BuildScopesFrom(universe, selected) <==>
      s in DefaultGraphScopes || (s in universe && s !in DefaultGraphScopes && s in selected)
  {
  }

  /**
   * Selected names that are not optional scopes on offer (unknown names, and the defaults) are
   * ignored: the request is the one for the selection cut down to the optional scopes.
   */
  lemma BuildScopesIgnoresOthers(universe: seq<string>, selected: set<string>)
    ensures BuildScopesFrom(universe, selected)
         == BuildScopesFrom(universe, set s | s in selected && s in OptionalOf(universe))
  {
    var known := set s | s in selected && s in OptionalOf(universe);
    FilterAgree(OptionalOf(universe), SelectedIn(selected), SelectedIn(known));
  }

  /** The five defaults are distinct. */
  lemma DefaultsDistinct()
    ensures NoDuplicates(DefaultGraphScopes)
  {
  }

  /** When the universe lists no scope twice, the request lists no scope twice either. */
  lemma BuildScopesDistinct(universe: seq<string>, selected: set<string>)
    requires NoDuplicates(universe)
    ensures NoDuplicates(BuildScopesFrom(universe, selected))
  {
    var opt := OptionalOf(universe);
    FilterNoDuplicates(universe, NotDefault);
    FilterNoDuplicates(opt, SelectedIn(selected));
    DefaultsDistinct();
    JoinNoDuplicates(DefaultGraphScopes, Filter(opt, SelectedIn(selected)));
  }

  /**
   * When the universe lists no scope twice, the request has the five defaults plus one entry per
   * distinct selected optional scope.
   */
  lemma BuildScopesLength(universe: seq<string>, selected: set<string>)
    requires NoDuplicates(universe)
    ensures |BuildScopesFrom(universe, selected)|
         == 5 + |set s | s in OptionalOf(universe) && s in selected|
  {
    var opt := OptionalOf(universe);
    var picked := Filter(opt, SelectedIn(selected));
    FilterNoDuplicates(universe, NotDefault);
    FilterCount(opt, SelectedIn(selected));
    SelectedSet(opt, selected);
    assert |BuildScopesFrom(universe, selected)| == |DefaultGraphScopes| + |picked|;
  }

  /** The members `SelectedIn` keeps are the selected ones. */
  lemma SelectedSet(xs: seq<string>, selected: set<string>)
    ensures (set x | x in xs && SelectedIn(selected)(x)) == (set s | s in xs && s in selected)
  {
  }
}
