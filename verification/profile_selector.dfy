/** Default profile selection for a window: the first profile system of the
    element's type, the desired colour checked against that system's colour
    whitelist, and for every requested role the first catalog candidate that
    is orderable in that colour. Business gaps are collected as problems;
    only catalog failures on the system or colour lists are hard errors. */
module ProfileSelector {
  import opened Wrappers
  import opened Constants
  import opened CatalogModels
  import opened ProfileCatalog

  /** A chosen profile with its stock record for the chosen colour. */
  datatype SelectedProfileInfo = SelectedProfileInfo(profile: Profile, stockItem: StockItem)

  /** The problems the selector reports instead of failing. */
  datatype Problem =
    | NoSystemForType(elementType: string)
    | ColorNotInSystem(colorId: int, systemName: string, systemId: int)
    | ColorDetailsUnavailable(colorId: int)
    | RoleSystemError(role: string, reason: string)
    | OverlapSystemError(role: string, reason: string)
    | NoCandidates(role: string, systemName: string)
    | NoStockedCandidate(role: string, colorId: int, systemName: string)

  /** Problems that concern one role rather than the system or colour. */
  predicate IsRoleProblem(p: Problem) {
    p.RoleSystemError? || p.OverlapSystemError? || p.NoCandidates? || p.NoStockedCandidate?
  }

  /** The outcome of resolving one role: a selection, a problem for the
      user, or a catalog failure. */
  datatype RoleSelection =
    | Selected(info: SelectedProfileInfo)
    | Unselected(problem: Problem)
    | RoleLookupFailed(reason: string)

  /** `p` is how the loop reports a role whose single-role outcome is
      `outcome`: the outcome's own problem when nothing was stocked, or a
      system error carrying the catalog's reason when the lookup failed
      (an overlap system error only for the vertical-overlap role). A
      selected role has no problem. */
  predicate ReportsOutcome(p: Problem, outcome: RoleSelection) {
    match outcome
    case Selected(_) => false
    case Unselected(q) => p == q
    case RoleLookupFailed(e) =>
      || (p.RoleSystemError? && p.reason == e)
      || (p.OverlapSystemError? && p.role == RoleWindVerticalOverlapSliding && p.reason == e)
  }

  /** The info is what the catalog holds: its stock item is the one stored
      for the info's own profile and the given colour. */
  ghost predicate Stocked(cat: Catalog, info: SelectedProfileInfo, colorId: int) {
    cat.stockItem(info.profile.profileId, colorId) == Found(info.stockItem)
  }

  /** One candidate through the skip rules: its profile must be found and
      the profile must have a stock item in the colour. A catalog failure on
      either lookup skips the candidate like an absence does. */
  function TryCandidate(cat: Catalog, item: SystemProfileListItem, colorId: int): (r: Option<SelectedProfileInfo>)
    ensures r.Some? <==>
      cat.profileById(item.profileId).Found? && cat.stockItem(cat.profileById(item.profileId).value.profileId, colorId).Found?
    ensures r.Some? ==> cat.profileById(item.profileId) == Found(r.value.profile) && Stocked(cat, r.value, colorId)
  {
    match cat.profileById(item.profileId)
    case Found(p) =>
      (match cat.stockItem(p.profileId, colorId)
       case Found(s) => Some(SelectedProfileInfo(p, s))
       case _ => None)
    case _ => None
  }

  /** Candidate k is the winner: it passes, and every earlier one fails. */
  ghost predicate IsFirstStockedAt(cat: Catalog, items: seq<SystemProfileListItem>, colorId: int, k: int) {
    && 0 <= k < |items|
    && TryCandidate(cat, items[k], colorId).Some?
    && forall j :: 0 <= j < k ==> TryCandidate(cat, items[j], colorId).None?
  }

  /** The candidate scan, in catalog order, stopping at the first pass. */
  function FirstStocked(cat: Catalog, items: seq<SystemProfileListItem>, colorId: int): (r: Option<SelectedProfileInfo>)
    ensures r.Some? ==> Stocked(cat, r.value, colorId)
  {
    if |items| == 0 then None
    else match TryCandidate(cat, items[0], colorId)
      case Some(info) => Some(info)
      case None => FirstStocked(cat, items[1..], colorId)
  }

  /** The scan returns the earliest passing candidate, and nothing exactly
      when no candidate passes. */
  lemma {:induction false} FirstStockedIsEarliest(cat: Catalog, items: seq<SystemProfileListItem>, colorId: int)
    ensures FirstStocked(cat, items, colorId).None? <==>
      forall j :: 0 <= j < |items| ==> TryCandidate(cat, items[j], colorId).None?
    ensures forall k :: IsFirstStockedAt(cat, items, colorId, k) ==>
      FirstStocked(cat, items, colorId) == TryCandidate(cat, items[k], colorId)
  {
    if |items| > 0 {
      var rest := items[1..];
      FirstStockedIsEarliest(cat, rest, colorId);
      if TryCandidate(cat, items[0], colorId).None? {
        forall k | IsFirstStockedAt(cat, items, colorId, k)
          ensures FirstStocked(cat, items, colorId) == TryCandidate(cat, items[k], colorId)
        {
          assert k > 0;
          assert IsFirstStockedAt(cat, rest, colorId, k - 1) by {
            forall j | 0 <= j < k - 1
              ensures TryCandidate(cat, rest[j], colorId).None?
            {
              assert rest[j] == items[j + 1];
            }
          }
        }
        if forall j :: 0 <= j < |rest| ==> TryCandidate(cat, rest[j], colorId).None? {
          forall j | 0 <= j < |items|
            ensures TryCandidate(cat, items[j], colorId).None?
          {
            if j > 0 { assert items[j] == rest[j - 1]; }
          }
        } else {
          var j :| 0 <= j < |rest| && TryCandidate(cat, rest[j], colorId).Some?;
          assert items[j + 1] == rest[j];
        }
      } else {
        forall k | IsFirstStockedAt(cat, items, colorId, k)
          ensures k == 0
        {
        }
      }
    }
  }

  /** Every passing candidate, in catalog order. */
  function AllStocked(cat: Catalog, items: seq<SystemProfileListItem>, colorId: int): (r: seq<SelectedProfileInfo>)
    ensures |r| <= |items|
    ensures forall i :: 0 <= i < |r| ==> Stocked(cat, r[i], colorId)
  {
    if |items| == 0 then []
    else
      var head := match TryCandidate(cat, items[0], colorId)
        case Some(info) => [info]
        case None => [];
      head + AllStocked(cat, items[1..], colorId)
  }

  /** Filtering commutes with concatenation, so the alternatives keep the
      catalog's order. */
  lemma {:induction false} AllStockedAppend(cat: Catalog, a: seq<SystemProfileListItem>, b: seq<SystemProfileListItem>, colorId: int)
    ensures AllStocked(cat, a + b, colorId) == AllStocked(cat, a, colorId) + AllStocked(cat, b, colorId)
  {
    if |a| > 0 {
      assert (a + b)[0] == a[0];
      assert (a + b)[1..] == a[1..] + b;
      AllStockedAppend(cat, a[1..], b, colorId);
      var head := match TryCandidate(cat, a[0], colorId)
        case Some(info) => [info]
        case None => [];
      calc {
        AllStocked(cat, a + b, colorId);
        head + AllStocked(cat, a[1..] + b, colorId);
        head + (AllStocked(cat, a[1..], colorId) + AllStocked(cat, b, colorId));
        (head + AllStocked(cat, a[1..], colorId)) + AllStocked(cat, b, colorId);
        AllStocked(cat, a, colorId) + AllStocked(cat, b, colorId);
      }
    } else {
      assert a + b == b;
    }
  }

  /** The alternatives are exactly the passing candidates. */
  lemma {:induction false} AllStockedMembers(cat: Catalog, items: seq<SystemProfileListItem>, colorId: int, x: SelectedProfileInfo)
    ensures x in AllStocked(cat, items, colorId) <==>
      exists k :: 0 <= k < |items| && TryCandidate(cat, items[k], colorId) == Some(x)
  {
    if |items| > 0 {
      var rest := items[1..];
      AllStockedMembers(cat, rest, colorId, x);
      if exists k :: 0 <= k < |rest| && TryCandidate(cat, rest[k], colorId) == Some(x) {
        var k :| 0 <= k < |rest| && TryCandidate(cat, rest[k], colorId) == Some(x);
        assert items[k + 1] == rest[k];
      }
      if exists k :: 0 <= k < |items| && TryCandidate(cat, items[k], colorId) == Some(x) {
        var k :| 0 <= k < |items| && TryCandidate(cat, items[k], colorId) == Some(x);
        if k > 0 { assert rest[k - 1] == items[k]; }
      }
    }
  }

  /** The first alternative is the one the scan stops at. */
  lemma {:induction false} FirstStockedIsHeadOfAll(cat: Catalog, items: seq<SystemProfileListItem>, colorId: int)
    ensures FirstStocked(cat, items, colorId) ==
      (var all := AllStocked(cat, items, colorId); if |all| == 0 then None else Some(all[0]))
  {
    if |items| > 0 {
      FirstStockedIsHeadOfAll(cat, items[1..], colorId);
    }
  }

  /** Resolves one role: the candidate list comes from the catalog; an empty
      list, or one without a stocked candidate, is a problem for the user;
      a failure of the list lookup is a catalog error. */
  function SelectProfileForSingleRole(cat: Catalog, systemId: int, role: string, colorId: int, systemName: string): (r: RoleSelection)
    ensures match cat.systemProfileListItems(systemId, role)
      case Failure(e) => r == RoleLookupFailed(e)
      case Success(items) =>
        && (|items| == 0 ==> r == Unselected(NoCandidates(role, systemName)))
        && ((|items| > 0 && forall j :: 0 <= j < |items| ==> TryCandidate(cat, items[j], colorId).None?) ==>
              r == Unselected(NoStockedCandidate(role, colorId, systemName)))
        && (forall k :: IsFirstStockedAt(cat, items, colorId, k) ==>
              r == Selected(TryCandidate(cat, items[k], colorId).value))
    ensures r.Selected? ==> Stocked(cat, r.info, colorId)
    ensures r.Unselected? ==> IsRoleProblem(r.problem) && r.problem.role == role
  {
    match cat.systemProfileListItems(systemId, role)
    case Failure(e) => RoleLookupFailed(e)
    case Success(items) =>
      if |items| == 0 then Unselected(NoCandidates(role, systemName))
      else
        FirstStockedIsEarliest(cat, items, colorId);
        match FirstStocked(cat, items, colorId)
        case Some(info) => Selected(info)
        case None => Unselected(NoStockedCandidate(role, colorId, systemName))
  }

  datatype ListError = EmptyRole | CandidatesLookupFailed(role: string, reason: string)

  /** Every stocked candidate for one role, in catalog order. The role must
      be named; a failure of the list lookup is an error. */
  function ListAlternativeProfilesForSlot(cat: Catalog, systemId: int, role: string, colorId: int): (r: Result<seq<SelectedProfileInfo>, ListError>)
    ensures role == "" ==> r == Failure(EmptyRole)
    ensures role != "" && cat.systemProfileListItems(systemId, role).Failure? ==>
      r == Failure(CandidatesLookupFailed(role, cat.systemProfileListItems(systemId, role).error))
    ensures r.Success? <==> role != "" && cat.systemProfileListItems(systemId, role).Success?
    ensures r.Success? ==>
      var items := cat.systemProfileListItems(systemId, role).value;
      && |r.value| <= |items|
      && (forall i :: 0 <= i < |r.value| ==> Stocked(cat, r.value[i], colorId))
      && (forall x :: x in r.value <==> exists k :: 0 <= k < |items| && TryCandidate(cat, items[k], colorId) == Some(x))
    ensures r.Success? ==> r.value == AllStocked(cat, cat.systemProfileListItems(systemId, role).value, colorId)
  {
    if role == "" then Failure(EmptyRole)
    else match cat.systemProfileListItems(systemId, role)
      case Failure(e) => Failure(CandidatesLookupFailed(role, e))
      case Success(items) =>
        var all := AllStocked(cat, items, colorId);
        assert forall x :: x in all <==> exists k :: 0 <= k < |items| && TryCandidate(cat, items[k], colorId) == Some(x) by {
          forall x { AllStockedMembers(cat, items, colorId, x); }
        }
        Success(all)
  }

  /** Over the same catalog, the first alternative listed for a role is the
      profile selected for it, and there are none exactly when nothing is
      selected. */
  lemma AlternativesHeadIsSelection(cat: Catalog, systemId: int, role: string, colorId: int, systemName: string)
    requires role != "" && cat.systemProfileListItems(systemId, role).Success?
    ensures var alts := ListAlternativeProfilesForSlot(cat, systemId, role, colorId).value;
      var sel := SelectProfileForSingleRole(cat, systemId, role, colorId, systemName);
      && (|alts| == 0 <==> sel.Unselected?)
      && (|alts| > 0 ==> sel == Selected(alts[0]))
  {
    var items := cat.systemProfileListItems(systemId, role).value;
    FirstStockedIsHeadOfAll(cat, items, colorId);
  }

  // ---------------------------------------------------------------------
  // Default selection of system, colour and per-role profiles
  // ---------------------------------------------------------------------

  /** The single-role selection with the chosen system's id and name. */
  function Sel(cat: Catalog, system: ProfileSystem, colorId: int, role: string): RoleSelection {
    SelectProfileForSingleRole(cat, system.systemId, role, colorId, system.name)
  }

  /** The selections of one system and colour, as an oracle over roles. */
  function Oracle(cat: Catalog, system: ProfileSystem, colorId: int): string -> RoleSelection {
    (role: string) => Sel(cat, system, colorId, role)
  }

  /** The selected meeting-jamb profile declares that it needs a vertical
      overlap profile. */
  ghost predicate MeetingNeedsOverlap(sel: string -> RoleSelection) {
    var s := sel(RoleWindJambMeetingSliding);
    s.Selected? && s.info.profile.usesOverlap == Some(true)
  }

  /** An oracle whose unselected roles carry a problem about that role. */
  ghost predicate Sane(sel: string -> RoleSelection) {
    forall k :: sel(k).Unselected? ==> IsRoleProblem(sel(k).problem) && sel(k).problem.role == k
  }

  /** The running state of the role loop: what was selected, the problems
      reported, and the roles handled so far in the order they were handled. */
  datatype SelectionState = SelectionState(
    profiles: map<string, SelectedProfileInfo>,
    problems: seq<Problem>,
    processed: seq<string>)

  const EmptyState := SelectionState(map[], [], [])

  /** Records the outcome of one role that was not handled before. A
      lookup failure on the overlap role is reported as an overlap error. */
  function Record(st: SelectionState, role: string, outcome: RoleSelection, isOverlap: bool): SelectionState {
    match outcome
    case Selected(info) => st.(profiles := st.profiles[role := info], processed := st.processed + [role])
    case Unselected(p) => st.(problems := st.problems + [p], processed := st.processed + [role])
    case RoleLookupFailed(e) =>
      var p := if isOverlap then OverlapSystemError(role, e) else RoleSystemError(role, e);
      st.(problems := st.problems + [p], processed := st.processed + [role])
  }

  /** One requested role: skipped if already handled; otherwise selected,
      and a selected meeting jamb that uses an overlap pulls in the overlap
      role unless that was handled already. */
  function ResolveRole(sel: string -> RoleSelection, st: SelectionState, role: string): SelectionState {
    if role in st.processed then st
    else
      var outcome := sel(role);
      var st1 := Record(st, role, outcome, false);
      if role == RoleWindJambMeetingSliding && outcome.Selected? && outcome.info.profile.usesOverlap == Some(true)
         && RoleWindVerticalOverlapSliding !in st1.processed
      then Record(st1, RoleWindVerticalOverlapSliding, sel(RoleWindVerticalOverlapSliding), true)
      else st1
  }

  /** The role loop, in input order. */
  function ResolveRoles(sel: string -> RoleSelection, st: SelectionState, roles: seq<string>): SelectionState
    decreases |roles|
  {
    if |roles| == 0 then st
    else ResolveRoles(sel, ResolveRole(sel, st, roles[0]), roles[1..])
  }

  ghost predicate NoDuplicates(s: seq<string>) {
    forall i, j :: 0 <= i < j < |s| ==> s[i] != s[j]
  }

  ghost function Elems(s: seq<string>): set<string> {
    set x | x in s
  }

  /** The loop state is what the single-role selections say: each handled
      role appears once, has a profile exactly when its selection succeeded
      (and then that very profile), or else one role problem; nothing else
      is in the state. */
  ghost predicate Consistent(sel: string -> RoleSelection, st: SelectionState) {
    && NoDuplicates(st.processed)
    && (forall k :: k in st.profiles ==> k in st.processed)
    && (forall k :: k in st.profiles ==> sel(k) == Selected(st.profiles[k]))
    && (forall k :: k in st.processed ==> (k in st.profiles <==> sel(k).Selected?))
    && (forall i :: 0 <= i < |st.problems| ==>
          IsRoleProblem(st.problems[i]) && st.problems[i].role in st.processed && st.problems[i].role !in st.profiles)
    && |st.profiles| + |st.problems| == |st.processed|
  }

  /** A state that handled a meeting jamb needing an overlap also handled
      the overlap role. */
  ghost predicate OverlapClosed(sel: string -> RoleSelection, st: SelectionState) {
    (RoleWindJambMeetingSliding in st.processed && MeetingNeedsOverlap(sel)) ==>
      RoleWindVerticalOverlapSliding in st.processed
  }

  /** Every handled role without a profile has exactly one problem: the
      problems name pairwise different roles and cover all such roles. */
  ghost predicate OneProblemPerRole(st: SelectionState) {
    && (forall i :: 0 <= i < |st.problems| ==> IsRoleProblem(st.problems[i]))
    && (forall i, j :: 0 <= i < j < |st.problems| ==> st.problems[i].role != st.problems[j].role)
    && (forall k :: k in st.processed && k !in st.profiles ==>
          exists i :: 0 <= i < |st.problems| && st.problems[i].role == k)
  }

  /** Every problem in the state reports its role's single-role outcome. */
  ghost predicate ProblemsReport(sel: string -> RoleSelection, st: SelectionState) {
    forall i :: 0 <= i < |st.problems| ==>
      IsRoleProblem(st.problems[i]) && ReportsOutcome(st.problems[i], sel(st.problems[i].role))
  }

  lemma {:induction false} AppendFresh(s: seq<string>, x: string)
    requires NoDuplicates(s) && x !in s
    ensures NoDuplicates(s + [x]) && Elems(s + [x]) == Elems(s) + {x}
  {
    forall i, j | 0 <= i < j < |s + [x]|
      ensures (s + [x])[i] != (s + [x])[j]
    {
      if j == |s| {
        assert (s + [x])[i] == s[i];
      } else {
        assert (s + [x])[i] == s[i] && (s + [x])[j] == s[j];
      }
    }
  }

  /** Recording a role not handled before keeps the state consistent. */
  lemma RecordConsistent(sel: string -> RoleSelection, st: SelectionState, role: string, isOverlap: bool)
    requires Sane(sel) && Consistent(sel, st) && role !in st.processed
    ensures var r := Record(st, role, sel(role), isOverlap);
      && Consistent(sel, r)
      && Elems(r.processed) == Elems(st.processed) + {role}
  {
    AppendFresh(st.processed, role);
    var r := Record(st, role, sel(role), isOverlap);
    forall i | 0 <= i < |r.problems|
      ensures IsRoleProblem(r.problems[i]) && r.problems[i].role in r.processed && r.problems[i].role !in r.profiles
    {
      if i < |st.problems| {
        assert r.problems[i] == st.problems[i];
      }
    }
  }

  lemma ResolveRoleConsistent(sel: string -> RoleSelection, st: SelectionState, role: string)
    requires Sane(sel) && Consistent(sel, st)
    ensures var r := ResolveRole(sel, st, role); Consistent(sel, r)
  {
    if role !in st.processed {
      RecordConsistent(sel, st, role, false);
      var st1 := Record(st, role, sel(role), false);
      if RoleWindVerticalOverlapSliding !in st1.processed {
        RecordConsistent(sel, st1, RoleWindVerticalOverlapSliding, true);
      }
    }
  }

  /** Recording a role not handled before gives it one problem or a
      profile, and leaves the other roles' problems alone. */
  lemma RecordOneProblem(sel: string -> RoleSelection, st: SelectionState, role: string, isOverlap: bool)
    requires Sane(sel) && Consistent(sel, st) && OneProblemPerRole(st) && role !in st.processed
    ensures OneProblemPerRole(Record(st, role, sel(role), isOverlap))
  {
    var r := Record(st, role, sel(role), isOverlap);
    assert r.processed == st.processed + [role];
    if !sel(role).Selected? {
      var n := |st.problems|;
      assert r.problems == st.problems + [r.problems[n]] && r.problems[n].role == role;
      forall i, j | 0 <= i < j < |r.problems|
        ensures r.problems[i].role != r.problems[j].role
      {
        assert r.problems[i] == st.problems[i];
        if j < n {
          assert r.problems[j] == st.problems[j];
        }
      }
      forall k | k in r.processed && k !in r.profiles
        ensures exists i :: 0 <= i < |r.problems| && r.problems[i].role == k
      {
        if k != role {
          var i :| 0 <= i < n && st.problems[i].role == k;
          assert r.problems[i] == st.problems[i];
        }
      }
    }
  }

  lemma ResolveRoleOneProblem(sel: string -> RoleSelection, st: SelectionState, role: string)
    requires Sane(sel) && Consistent(sel, st) && OneProblemPerRole(st)
    ensures OneProblemPerRole(ResolveRole(sel, st, role))
  {
    if role !in st.processed {
      RecordConsistent(sel, st, role, false);
      RecordOneProblem(sel, st, role, false);
      var st1 := Record(st, role, sel(role), false);
      if RoleWindVerticalOverlapSliding !in st1.processed {
        RecordOneProblem(sel, st1, RoleWindVerticalOverlapSliding, true);
      }
    }
  }

  lemma {:induction false} ResolveRolesOneProblem(sel: string -> RoleSelection, st: SelectionState, roles: seq<string>)
    requires Sane(sel) && Consistent(sel, st) && OneProblemPerRole(st)
    ensures OneProblemPerRole(ResolveRoles(sel, st, roles))
    decreases |roles|
  {
    if |roles| > 0 {
      ResolveRoleConsistent(sel, st, roles[0]);
      ResolveRoleOneProblem(sel, st, roles[0]);
      ResolveRolesOneProblem(sel, ResolveRole(sel, st, roles[0]), roles[1..]);
    }
  }

  /** Recording a role appends the problem its outcome calls for. */
  lemma RecordReports(sel: string -> RoleSelection, st: SelectionState, role: string, isOverlap: bool)
    requires Sane(sel) && ProblemsReport(sel, st)
    requires isOverlap ==> role == RoleWindVerticalOverlapSliding
    ensures ProblemsReport(sel, Record(st, role, sel(role), isOverlap))
  {
    var r := Record(st, role, sel(role), isOverlap);
    forall i | 0 <= i < |r.problems|
      ensures IsRoleProblem(r.problems[i]) && ReportsOutcome(r.problems[i], sel(r.problems[i].role))
    {
      if i < |st.problems| {
        assert r.problems[i] == st.problems[i];
      }
    }
  }

  lemma ResolveRoleReports(sel: string -> RoleSelection, st: SelectionState, role: string)
    requires Sane(sel) && ProblemsReport(sel, st)
    ensures ProblemsReport(sel, ResolveRole(sel, st, role))
  {
    if role !in st.processed {
      RecordReports(sel, st, role, false);
      var st1 := Record(st, role, sel(role), false);
      if RoleWindVerticalOverlapSliding !in st1.processed {
        RecordReports(sel, st1, RoleWindVerticalOverlapSliding, true);
      }
    }
  }

  lemma {:induction false} ResolveRolesReports(sel: string -> RoleSelection, st: SelectionState, roles: seq<string>)
    requires Sane(sel) && ProblemsReport(sel, st)
    ensures ProblemsReport(sel, ResolveRoles(sel, st, roles))
    decreases |roles|
  {
    if |roles| > 0 {
      ResolveRoleReports(sel, st, roles[0]);
      ResolveRolesReports(sel, ResolveRole(sel, st, roles[0]), roles[1..]);
    }
  }

  lemma ResolveRoleClosed(sel: string -> RoleSelection, st: SelectionState, role: string)
    requires OverlapClosed(sel, st)
    ensures var r := ResolveRole(sel, st, role); OverlapClosed(sel, r)
  {
    var r := ResolveRole(sel, st, role);
    if role !in st.processed {
      var st1 := Record(st, role, sel(role), false);
      assert st1.processed == st.processed + [role];
      if role == RoleWindJambMeetingSliding && sel(role).Selected? && sel(role).info.profile.usesOverlap == Some(true)
         && RoleWindVerticalOverlapSliding !in st1.processed {
        assert r.processed == st1.processed + [RoleWindVerticalOverlapSliding];
      } else {
        assert r == st1;
      }
    }
  }

  lemma {:induction false} ElemsAppend(s: seq<string>, x: string)
    ensures Elems(s + [x]) == Elems(s) + {x}
  {
    assert forall y :: y in s + [x] <==> y in s || y == x;
  }

  lemma ResolveRoleHandles(sel: string -> RoleSelection, st: SelectionState, role: string)
    requires OverlapClosed(sel, st)
    ensures var r := ResolveRole(sel, st, role);
      Elems(r.processed) == Elems(st.processed) + {role} + (if role == RoleWindJambMeetingSliding && MeetingNeedsOverlap(sel) then {RoleWindVerticalOverlapSliding} else {})
  {
    var r := ResolveRole(sel, st, role);
    if role in st.processed {
      assert Elems(st.processed) + {role} == Elems(st.processed);
    } else {
      var outcome := sel(role);
      var st1 := Record(st, role, outcome, false);
      assert st1.processed == st.processed + [role];
      ElemsAppend(st.processed, role);
      if role == RoleWindJambMeetingSliding && outcome.Selected? && outcome.info.profile.usesOverlap == Some(true)
         && RoleWindVerticalOverlapSliding !in st1.processed {
        assert r.processed == st1.processed + [RoleWindVerticalOverlapSliding];
        ElemsAppend(st1.processed, RoleWindVerticalOverlapSliding);
      } else {
        assert r == st1;
      }
    }
  }

  /** One role step keeps the state consistent and closed, and handles
      exactly the role and, when the meeting jamb needs it, the overlap. */
  lemma ResolveRoleSpec(sel: string -> RoleSelection, st: SelectionState, role: string)
    requires Sane(sel) && Consistent(sel, st) && OverlapClosed(sel, st)
    ensures var r := ResolveRole(sel, st, role);
      && Consistent(sel, r)
      && OverlapClosed(sel, r)
      && Elems(r.processed) == Elems(st.processed) + {role} +
           (if role == RoleWindJambMeetingSliding && MeetingNeedsOverlap(sel) then {RoleWindVerticalOverlapSliding} else {})
  {
    ResolveRoleConsistent(sel, st, role);
    ResolveRoleClosed(sel, st, role);
    ResolveRoleHandles(sel, st, role);
  }

  lemma {:induction false} ResolveRolesConsistent(sel: string -> RoleSelection, st: SelectionState, roles: seq<string>)
    requires Sane(sel) && Consistent(sel, st)
    ensures Consistent(sel, ResolveRoles(sel, st, roles))
    decreases |roles|
  {
    if |roles| > 0 {
      ResolveRoleConsistent(sel, st, roles[0]);
      ResolveRolesConsistent(sel, ResolveRole(sel, st, roles[0]), roles[1..]);
    }
  }

  lemma {:induction false} ResolveRolesHandles(sel: string -> RoleSelection, st: SelectionState, roles: seq<string>)
    requires OverlapClosed(sel, st)
    ensures var r := ResolveRoles(sel, st, roles);
      && OverlapClosed(sel, r)
      && Elems(r.processed) == Elems(st.processed) + Elems(roles) + (if RoleWindJambMeetingSliding in roles && MeetingNeedsOverlap(sel) then {RoleWindVerticalOverlapSliding} else {})
    decreases |roles|
  {
    if |roles| > 0 {
      var st1 := ResolveRole(sel, st, roles[0]);
      ResolveRoleClosed(sel, st, roles[0]);
      ResolveRoleHandles(sel, st, roles[0]);
      ResolveRolesHandles(sel, st1, roles[1..]);
      assert roles == [roles[0]] + roles[1..];
      assert Elems(roles) == {roles[0]} + Elems(roles[1..]);
      assert RoleWindJambMeetingSliding in roles <==>
        (roles[0] == RoleWindJambMeetingSliding || RoleWindJambMeetingSliding in roles[1..]);
    }
  }

  /** The whole loop: consistent and closed, and the handled roles are the
      requested ones plus the overlap role when the meeting jamb needs it. */
  lemma ResolveRolesSpec(sel: string -> RoleSelection, st: SelectionState, roles: seq<string>)
    requires Sane(sel) && Consistent(sel, st) && OverlapClosed(sel, st)
    ensures var r := ResolveRoles(sel, st, roles);
      && Consistent(sel, r)
      && OverlapClosed(sel, r)
      && Elems(r.processed) == Elems(st.processed) + Elems(roles) + (if RoleWindJambMeetingSliding in roles && MeetingNeedsOverlap(sel) then {RoleWindVerticalOverlapSliding} else {})
  {
    ResolveRolesConsistent(sel, st, roles);
    ResolveRolesHandles(sel, st, roles);
  }

  lemma {:induction false} DistinctCard(s: seq<string>)
    requires NoDuplicates(s)
    ensures |Elems(s)| == |s|
  {
    if |s| > 0 {
      var t := s[..|s| - 1];
      var x := s[|s| - 1];
      assert NoDuplicates(t);
      assert x !in t by {
        forall i | 0 <= i < |t| ensures t[i] != x { assert t[i] == s[i]; }
      }
      assert s == t + [x];
      AppendFresh(t, x);
      DistinctCard(t);
    }
  }

  /** The roles the selection must answer for: the requested ones, plus the
      vertical overlap when the selected meeting jamb needs it. */
  ghost function RequiredRoles(sel: string -> RoleSelection, roles: seq<string>): set<string> {
    Elems(roles) +
      (if RoleWindJambMeetingSliding in roles && MeetingNeedsOverlap(sel)
       then {RoleWindVerticalOverlapSliding} else {})
  }

  /** The role loop for a settled system and colour, from an empty state:
      exactly the required roles whose selection succeeds get a profile,
      and that profile; every other required role gets one role problem. */
  function SelectRoleProfiles(cat: Catalog, system: ProfileSystem, colorId: int, roles: seq<string>)
    : (r: (map<string, SelectedProfileInfo>, seq<Problem>))
    ensures var required := RequiredRoles(Oracle(cat, system, colorId), roles);
      && (forall k :: k in r.0 <==> k in required && Sel(cat, system, colorId, k).Selected?)
      && (forall k :: k in r.0 ==> Sel(cat, system, colorId, k) == Selected(r.0[k]))
      && (forall i :: 0 <= i < |r.1| ==>
            IsRoleProblem(r.1[i]) && r.1[i].role in required && r.1[i].role !in r.0)
      && (forall i :: 0 <= i < |r.1| ==> ReportsOutcome(r.1[i], Sel(cat, system, colorId, r.1[i].role)))
      && (forall i, j :: 0 <= i < j < |r.1| ==> r.1[i].role != r.1[j].role)
      && (forall k :: k in required && k !in r.0 ==> exists i :: 0 <= i < |r.1| && r.1[i].role == k)
      && |r.0| + |r.1| == |required|
  {
    var sel := Oracle(cat, system, colorId);
    assert Sane(sel);
    RoleLoopFromEmpty(sel, roles);
    var st := ResolveRoles(sel, EmptyState, roles);
    (st.profiles, st.problems)
  }

  /** The role loop from an empty state, for any oracle whose problems name
      their roles: the outcome SelectRoleProfiles reports. */
  lemma RoleLoopFromEmpty(sel: string -> RoleSelection, roles: seq<string>)
    requires Sane(sel)
    ensures var st := ResolveRoles(sel, EmptyState, roles);
      var required := RequiredRoles(sel, roles);
      && (forall k :: k in st.profiles <==> k in required && sel(k).Selected?)
      && (forall k :: k in st.profiles ==> sel(k) == Selected(st.profiles[k]))
      && (forall i :: 0 <= i < |st.problems| ==>
            IsRoleProblem(st.problems[i]) && st.problems[i].role in required && st.problems[i].role !in st.profiles)
      && ProblemsReport(sel, st)
      && (forall i, j :: 0 <= i < j < |st.problems| ==> st.problems[i].role != st.problems[j].role)
      && (forall k :: k in required && k !in st.profiles ==> exists i :: 0 <= i < |st.problems| && st.problems[i].role == k)
      && |st.profiles| + |st.problems| == |required|
  {
    var st := ResolveRoles(sel, EmptyState, roles);
    ResolveRolesSpec(sel, EmptyState, roles);
    ProblemsCoverRequired(sel, roles);
    ResolveRolesReports(sel, EmptyState, roles);
    DistinctCard(st.processed);
  }

  /** After the whole loop, every required role without a profile has
      exactly one problem. */
  lemma ProblemsCoverRequired(sel: string -> RoleSelection, roles: seq<string>)
    requires Sane(sel)
    ensures var st := ResolveRoles(sel, EmptyState, roles);
      && (forall i :: 0 <= i < |st.problems| ==> IsRoleProblem(st.problems[i]))
      && (forall i, j :: 0 <= i < j < |st.problems| ==> st.problems[i].role != st.problems[j].role)
      && (forall k :: k in RequiredRoles(sel, roles) && k !in st.profiles ==>
            exists i :: 0 <= i < |st.problems| && st.problems[i].role == k)
  {
    var st := ResolveRoles(sel, EmptyState, roles);
    ResolveRolesOneProblem(sel, EmptyState, roles);
    ResolveRolesHandles(sel, EmptyState, roles);
    assert forall k :: k in RequiredRoles(sel, roles) ==> k in Elems(st.processed);
  }

  /** The profile map and problem list the selection reports, with the
      system and colour when they were settled. */
  datatype SelectionOutput = SelectionOutput(
    system: Option<ProfileSystem>,
    color: Option<Color>,
    profiles: map<string, SelectedProfileInfo>,
    problems: seq<Problem>)

  datatype SelectError =
    | SystemsLookupFailed(elementType: string, reason: string)
    | ColorsLookupFailed(systemId: int, reason: string)

  predicate ColorListed(colors: seq<SystemAvailableColor>, colorId: int) {
    exists i :: 0 <= i < |colors| && colors[i].colorId == colorId
  }

  /** The whole selection. The first system of the element type (the
      catalog lists them by primacy) is chosen; a colour missing from its
      whitelist or without details ends the selection with one problem;
      otherwise every requested role is resolved in the fetched colour. */
  function SelectDefaultSystemAndProfiles(cat: Catalog, elementType: string, desiredColorId: int, roles: seq<string>): (r: Result<SelectionOutput, SelectError>)
    ensures cat.profileSystemsByType(elementType).Failure? ==>
      r == Failure(SystemsLookupFailed(elementType, cat.profileSystemsByType(elementType).error))
    ensures cat.profileSystemsByType(elementType) == Success([]) ==>
      r == Success(SelectionOutput(None, None, map[], [NoSystemForType(elementType)]))
    ensures r.Success? && r.value.system.Some? ==>
      var systems := cat.profileSystemsByType(elementType);
      systems.Success? && |systems.value| > 0 && r.value.system.value == systems.value[0]
    ensures cat.profileSystemsByType(elementType).Success? && |cat.profileSystemsByType(elementType).value| > 0 ==>
      var system := cat.profileSystemsByType(elementType).value[0];
      var colors := cat.systemAvailableColors(system.systemId);
      && (colors.Failure? ==> r == Failure(ColorsLookupFailed(system.systemId, colors.error)))
      && (colors.Success? && !ColorListed(colors.value, desiredColorId) ==>
            r == Success(SelectionOutput(Some(system), None, map[],
                   [ColorNotInSystem(desiredColorId, system.name, system.systemId)])))
      && (colors.Success? && ColorListed(colors.value, desiredColorId) && !cat.colorById(desiredColorId).Found? ==>
            r == Success(SelectionOutput(Some(system), None, map[], [ColorDetailsUnavailable(desiredColorId)])))
      && (colors.Success? && ColorListed(colors.value, desiredColorId) && cat.colorById(desiredColorId).Found? ==>
            r.Success? && r.value.system == Some(system) && r.value.color == Some(cat.colorById(desiredColorId).value))
    ensures r.Success? && r.value.color.Some? ==> r.value.system.Some?
    ensures r.Success? && r.value.system.Some? && r.value.color.Some? ==>
      var system := r.value.system.value;
      var colorId := r.value.color.value.colorId;
      var required := RequiredRoles(Oracle(cat, system, colorId), roles);
      && cat.colorById(desiredColorId) == Found(r.value.color.value)
      && (forall k :: k in r.value.profiles <==> k in required && Sel(cat, system, colorId, k).Selected?)
      && (forall k :: k in r.value.profiles ==> Sel(cat, system, colorId, k) == Selected(r.value.profiles[k]))
      && (forall k :: k in r.value.profiles ==> Stocked(cat, r.value.profiles[k], colorId))
      && (forall i :: 0 <= i < |r.value.problems| ==>
            IsRoleProblem(r.value.problems[i]) && r.value.problems[i].role in required
            && r.value.problems[i].role !in r.value.profiles)
      && (forall i :: 0 <= i < |r.value.problems| ==>
            ReportsOutcome(r.value.problems[i], Sel(cat, system, colorId, r.value.problems[i].role)))
      && (forall i, j :: 0 <= i < j < |r.value.problems| ==> r.value.problems[i].role != r.value.problems[j].role)
      && (forall k :: k in required && k !in r.value.profiles ==>
            exists i :: 0 <= i < |r.value.problems| && r.value.problems[i].role == k)
      && |r.value.profiles| + |r.value.problems| == |required|
    ensures r.Success? && r.value.color.None? ==>
      |r.value.problems| == 1 && !IsRoleProblem(r.value.problems[0]) && r.value.profiles == map[]
  {
    match cat.profileSystemsByType(elementType)
    case Failure(e) => Failure(SystemsLookupFailed(elementType, e))
    case Success(systems) =>
      if |systems| == 0 then Success(SelectionOutput(None, None, map[], [NoSystemForType(elementType)]))
      else
        var system := systems[0];
        match cat.systemAvailableColors(system.systemId)
        case Failure(e) => Failure(ColorsLookupFailed(system.systemId, e))
        case Success(colors) =>
          if !ColorListed(colors, desiredColorId) then
            Success(SelectionOutput(Some(system), None, map[], [ColorNotInSystem(desiredColorId, system.name, system.systemId)]))
          else match cat.colorById(desiredColorId)
            case Found(color) =>
              var (profiles, problems) := SelectRoleProfiles(cat, system, color.colorId, roles);
              Success(SelectionOutput(Some(system), Some(color), profiles, problems))
            case _ =>
              Success(SelectionOutput(Some(system), None, map[], [ColorDetailsUnavailable(desiredColorId)]))
  }

  lemma {:induction false} ResolveRolesAppend(sel: string -> RoleSelection, st: SelectionState, a: seq<string>, b: seq<string>)
    ensures ResolveRoles(sel, st, a + b) == ResolveRoles(sel, ResolveRoles(sel, st, a), b)
    decreases |a|
  {
    if |a| == 0 {
      assert a + b == b;
    } else {
      assert (a + b)[0] == a[0];
      assert (a + b)[1..] == a[1..] + b;
      ResolveRolesAppend(sel, ResolveRole(sel, st, a[0]), a[1..], b);
    }
  }

  /** Roles that were all handled already leave the state untouched. */
  lemma {:induction false} ResolveHandledRoles(sel: string -> RoleSelection, st: SelectionState, roles: seq<string>)
    requires forall i :: 0 <= i < |roles| ==> roles[i] in st.processed
    ensures ResolveRoles(sel, st, roles) == st
    decreases |roles|
  {
    if |roles| > 0 {
      assert roles[0] in st.processed;
      ResolveHandledRoles(sel, st, roles[1..]);
    }
  }

  /** Asking for the same roles twice gives the same selection as asking
      once: every role is handled at most once. */
  lemma RepeatedRolesChangeNothing(cat: Catalog, elementType: string, desiredColorId: int, roles: seq<string>)
    ensures SelectDefaultSystemAndProfiles(cat, elementType, desiredColorId, roles + roles) ==
            SelectDefaultSystemAndProfiles(cat, elementType, desiredColorId, roles)
  {
    var systems := cat.profileSystemsByType(elementType);
    if systems.Success? && |systems.value| > 0 {
      var system := systems.value[0];
      var color := cat.colorById(desiredColorId);
      if color.Found? {
        var sel := Oracle(cat, system, color.value.colorId);
        ResolveRolesAppend(sel, EmptyState, roles, roles);
        var st := ResolveRoles(sel, EmptyState, roles);
        ResolveRolesHandles(sel, EmptyState, roles);
        assert forall i :: 0 <= i < |roles| ==> roles[i] in Elems(st.processed);
        ResolveHandledRoles(sel, st, roles);
      }
    }
  }
}
