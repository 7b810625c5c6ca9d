/**
 Rows of a wait-and-merge run and how they are seeded (arguss/web/action_runs.py,
 arguss/web/mode_c_workflow.py). The table is a sequence of rows; ids are positions.
 */
module ActionRuns {
  import opened Basics
  import opened FixConfidence
  import opened Findings
  import opened Proposal

  datatype CandidateState =
    | PrOpened | PrOnly | CiRunning | Merged | CiFailed | NoChecks | ShaConflict | TimedOut | Killed | HeadShaUnresolved

  /** `TERMINAL_CANDIDATE_STATES` */
  predicate Terminal(s: CandidateState) {
    s != PrOpened && s != CiRunning
  }

  datatype Authorization = Engine | HumanOverride

  datatype Row = Row(
    candidateId: CandidateId, prNumber: Option<int>, headSha: Option<string>, state: CandidateState,
    auth: Option<Authorization>, score: Option<int>, vetoes: seq<Signal>, appended: bool)

  datatype ActionStatus = Opened | AlreadyExists | Skipped | Failed

  datatype ActionResult = ActionResult(
    candidateId: CandidateId, status: ActionStatus, prUrl: Option<string>, prNumber: Option<int>,
    reason: Option<string>, headSha: Option<string>)

  predicate HasPr(a: ActionResult) {
    a.status == Opened || a.status == AlreadyExists
  }

  function EntryId(e: Entry): CandidateId {
    IdOf(e.candidate)
  }

  /** `{entry.candidate.candidate_id: entry}`: a later entry wins. */
  function EntryById(entries: seq<Entry>): map<CandidateId, Entry> {
    if entries == [] then map[]
    else EntryById(entries[..|entries| - 1])[EntryId(entries[|entries| - 1]) := entries[|entries| - 1]]
  }

  // ---- Which candidates may merge ----

  /** `_effective_auto_merge_candidate_ids` */
  function EffectiveMergeIds(entries: seq<Entry>, mergeable: seq<ActionResult>, autoMerge: Option<set<CandidateId>>,
      selected: Option<seq<CandidateId>>): set<CandidateId> {
    var mergeableIds := set a | a in mergeable :: a.candidateId;
    var byId := EntryById(entries);
    match autoMerge
    case None => set e | e in entries && e.verdict.tier == AutoMerge && EntryId(e) in mergeableIds :: EntryId(e)
    case Some(ids) =>
      set id | id in ids && id in mergeableIds && (selected.Some? ==> id in selected.value)
               && id in byId && byId[id].verdict.tier in {AutoMerge, ReviewRequired}
  }

  /** `_merge_authorization_for_tier`; None where the source raises. */
  function AuthorizationFor(t: Tier): Option<Authorization> {
    match t
    case AutoMerge => Some(Engine)
    case ReviewRequired => Some(HumanOverride)
    case Decline => None
  }

  // ---- Seeding the rows ----

  function WaitingRow(a: ActionResult, v: Verdict, auth: Option<Authorization>): Row {
    Row(a.candidateId, a.prNumber, a.headSha, PrOpened, auth, Some(v.score), v.signals, false)
  }

  function ReviewRow(a: ActionResult): Row {
    Row(a.candidateId, a.prNumber, a.headSha, PrOnly, None, None, [], false)
  }

  /** The row one action leads to, if any. */
  function SeedRow(a: ActionResult, byId: map<CandidateId, Entry>, mergeIds: set<CandidateId>): Option<Row> {
    if !HasPr(a) || a.candidateId !in byId then None
    else
      var v := byId[a.candidateId].verdict;
      if a.candidateId in mergeIds
      then Some(WaitingRow(a, v, AuthorizationFor(v.tier)))
      else Some(ReviewRow(a))
  }

  function SeedRows(actions: seq<ActionResult>, byId: map<CandidateId, Entry>, mergeIds: set<CandidateId>): seq<Row> {
    if actions == [] then []
    else
      var r := SeedRow(actions[|actions| - 1], byId, mergeIds);
      SeedRows(actions[..|actions| - 1], byId, mergeIds) + (if r.Some? then [r.value] else [])
  }

  predicate AuthorizesDecline(byId: map<CandidateId, Entry>, mergeIds: set<CandidateId>) {
    exists id | id in mergeIds :: id in byId && byId[id].verdict.tier == Decline
  }

  datatype PopulateResult = Populated(rows: seq<Row>) | DeclineMergeAuthorizationError

  /** `populate_action_run_candidates`, both of its error exits included. */
  method PopulateActionRunCandidates(entries: seq<Entry>, actions: seq<ActionResult>, mergeIds: set<CandidateId>)
    returns (r: PopulateResult)
    ensures r == if AuthorizesDecline(EntryById(entries), mergeIds) then DeclineMergeAuthorizationError
      else Populated(SeedRows(actions, EntryById(entries), mergeIds))
  {
    var byId := EntryById(entries);
    var todo := mergeIds;
    while todo != {}
      invariant todo <= mergeIds
      invariant forall id | id in mergeIds - todo && id in byId :: byId[id].verdict.tier != Decline
      decreases todo
    {
      var id :| id in todo;
      if id in byId && byId[id].verdict.tier == Decline { return DeclineMergeAuthorizationError; }
      todo := todo - {id};
    }
    var created: seq<Row> := [];
    var i := 0;
    while i < |actions|
      invariant 0 <= i <= |actions| && created == SeedRows(actions[..i], byId, mergeIds)
    {
      assert actions[..i + 1][..i] == actions[..i];
      var a := actions[i];
      if HasPr(a) && a.candidateId in byId {
        var v := byId[a.candidateId].verdict;
        if a.candidateId in mergeIds {
          var auth := AuthorizationFor(v.tier);
          if auth.None? { assert false; } // raises in _merge_authorization_for_tier
          created := created + [WaitingRow(a, v, auth)];
        } else {
          created := created + [ReviewRow(a)];
        }
      }
      i := i + 1;
    }
    assert actions[..i] == actions;
    r := Populated(created);
  }

  // ---- What the workflow seeds ----

  ghost predicate DistinctEntryIds(entries: seq<Entry>) {
    forall i, j | 0 <= i < j < |entries| :: EntryId(entries[i]) != EntryId(entries[j])
  }

  lemma {:induction false} EntryByIdIs(entries: seq<Entry>, id: CandidateId)
    ensures id in EntryById(entries) <==> exists e | e in entries :: EntryId(e) == id
    ensures id in EntryById(entries) ==> EntryById(entries)[id] in entries && EntryId(EntryById(entries)[id]) == id
  {
    hide EntryId;
    if entries != [] {
      EntryByIdIs(entries[..|entries| - 1], id);
      assert entries == entries[..|entries| - 1] + [entries[|entries| - 1]];
    }
  }

  /** An AUTO_MERGE entry whose id a later DECLINE entry takes over. */
  predicate Overtaken(entries: seq<Entry>, e: Entry) {
    && e.verdict.tier == AutoMerge && EntryId(e) in EntryById(entries)
    && EntryById(entries)[EntryId(e)].verdict.tier == Decline
  }

  /**
   For any entries, the effective ids make populate raise exactly when no ids are passed and a mergeable
   AUTO_MERGE entry shares its id with a DECLINE entry that comes after it.
   */
  lemma {:induction false} DeclineErrorIff(entries: seq<Entry>, mergeable: seq<ActionResult>,
      autoMerge: Option<set<CandidateId>>, selected: Option<seq<CandidateId>>)
    ensures AuthorizesDecline(EntryById(entries), EffectiveMergeIds(entries, mergeable, autoMerge, selected)) <==>
      autoMerge.None? &&
      exists e | e in entries :: Overtaken(entries, e) && exists a | a in mergeable :: a.candidateId == EntryId(e)
  {
    hide EntryById;
    var ids := EffectiveMergeIds(entries, mergeable, autoMerge, selected);
    if autoMerge.None? {
      forall e | e in entries && e.verdict.tier == AutoMerge
        ensures EntryId(e) in ids <==> exists a | a in mergeable :: a.candidateId == EntryId(e)
      {
      }
    }
  }

  /** Without repeated ids it never raises. */
  lemma {:induction false} DistinctEntriesNeverDecline(entries: seq<Entry>, mergeable: seq<ActionResult>,
      autoMerge: Option<set<CandidateId>>, selected: Option<seq<CandidateId>>)
    requires DistinctEntryIds(entries)
    ensures !AuthorizesDecline(EntryById(entries), EffectiveMergeIds(entries, mergeable, autoMerge, selected))
  {
    DeclineErrorIff(entries, mergeable, autoMerge, selected);
    forall e | e in entries ensures !Overtaken(entries, e) {
      EntryByIdIs(entries, EntryId(e));
      SameEntryId(entries, e, EntryById(entries)[EntryId(e)]);
    }
  }

  lemma {:induction false} SameEntryId(entries: seq<Entry>, d: Entry, e: Entry)
    requires DistinctEntryIds(entries) && d in entries && e in entries && EntryId(d) == EntryId(e)
    ensures d == e
  {
    var i :| 0 <= i < |entries| && entries[i] == d;
    var j :| 0 <= j < |entries| && entries[j] == e;
  }

  /** A seeded row waits for merge only with an authorization its tier earned and a selected id. */
  ghost predicate Entitled(r: Row, byId: map<CandidateId, Entry>, mergeIds: set<CandidateId>) {
    && r.state in {PrOpened, PrOnly} && !r.appended
    && (r.state == PrOpened <==> r.candidateId in mergeIds)
    && (r.state == PrOpened ==>
          && r.candidateId in byId && byId[r.candidateId].verdict.tier in {AutoMerge, ReviewRequired}
          && (r.auth == Some(Engine) <==> byId[r.candidateId].verdict.tier == AutoMerge)
          && (r.auth == Some(HumanOverride) <==> byId[r.candidateId].verdict.tier == ReviewRequired))
  }

  lemma {:induction false} SeededRowsAreEntitled(actions: seq<ActionResult>, byId: map<CandidateId, Entry>,
      mergeIds: set<CandidateId>)
    requires !AuthorizesDecline(byId, mergeIds)
    ensures forall r | r in SeedRows(actions, byId, mergeIds) :: Entitled(r, byId, mergeIds)
  {
    if actions != [] { SeededRowsAreEntitled(actions[..|actions| - 1], byId, mergeIds); }
  }

  /** One row per opened pull request of a known entry, so such a run is never empty. */
  lemma {:induction false} SeededRowPerPr(actions: seq<ActionResult>, byId: map<CandidateId, Entry>,
      mergeIds: set<CandidateId>, a: ActionResult)
    requires a in actions && HasPr(a) && a.candidateId in byId
    ensures exists r | r in SeedRows(actions, byId, mergeIds) ::
      r.candidateId == a.candidateId && r.prNumber == a.prNumber && r.headSha == a.headSha
  {
    var init, last := actions[..|actions| - 1], actions[|actions| - 1];
    assert actions == init + [last];
    if a in init { SeededRowPerPr(init, byId, mergeIds, a); }
    else { assert SeedRow(a, byId, mergeIds).value in SeedRows(actions, byId, mergeIds); }
  }

  // ---- The rows, spelled out ----

  /** The action brought a pull request, new or known, for an entry of the report. */
  predicate BringsPr(a: ActionResult, byId: map<CandidateId, Entry>) {
    (a.status == Opened || a.status == AlreadyExists) && a.candidateId in byId
  }

  /** The row an action leads to: to be merged with its entry's verdict, or for review only with none. */
  predicate RowSays(r: Row, a: ActionResult, byId: map<CandidateId, Entry>, mergeIds: set<CandidateId>)
    requires a.candidateId in byId
  {
    var v := byId[a.candidateId].verdict;
    && r.candidateId == a.candidateId && r.prNumber == a.prNumber && r.headSha == a.headSha && !r.appended
    && if a.candidateId in mergeIds
       then
         && r.state == PrOpened && r.score == Some(v.score) && r.vetoes == v.signals
         && (v.tier == AutoMerge ==> r.auth == Some(Engine))
         && (v.tier == ReviewRequired ==> r.auth == Some(HumanOverride))
       else r.state == PrOnly && r.score == None && r.vetoes == [] && r.auth == None
  }

  /** `places` are the positions of the actions that bring a pull request, in order. */
  ghost predicate ArePlaces(places: seq<nat>, actions: seq<ActionResult>, byId: map<CandidateId, Entry>) {
    && (forall p, q | 0 <= p < q < |places| :: places[p] < places[q])
    && forall j: nat :: j in places <==> j < |actions| && BringsPr(actions[j], byId)
  }

  /** One row for each such action, in their order. */
  lemma {:induction false} SeededRowsSay(actions: seq<ActionResult>, byId: map<CandidateId, Entry>,
      mergeIds: set<CandidateId>) returns (places: seq<nat>)
    ensures var rows := SeedRows(actions, byId, mergeIds);
      && ArePlaces(places, actions, byId) && |rows| == |places|
      && forall p | 0 <= p < |rows| ::
           places[p] < |actions| && BringsPr(actions[places[p]], byId)
           && RowSays(rows[p], actions[places[p]], byId, mergeIds)
  {
    hide SeedRow, RowSays;
    places := [];
    if actions != [] {
      var init, a := actions[..|actions| - 1], actions[|actions| - 1];
      places := SeededRowsSay(init, byId, mergeIds);
      var rows := SeedRows(init, byId, mergeIds);
      SeedRowSays(a, byId, mergeIds);
      var r := SeedRow(a, byId, mergeIds);
      assert SeedRows(actions, byId, mergeIds) == rows + (if r.Some? then [r.value] else []);
      forall p | 0 <= p < |places|
        ensures BringsPr(actions[places[p]], byId) && RowSays(rows[p], actions[places[p]], byId, mergeIds)
      {
        assert actions[places[p]] == init[places[p]];
      }
      forall j: nat ensures j in places <==> j < |init| && BringsPr(actions[j], byId) {
        if j < |init| { assert actions[j] == init[j]; }
      }
      if BringsPr(a, byId) { places := places + [|init|]; }
    }
  }

  lemma {:induction false} SeedRowSays(a: ActionResult, byId: map<CandidateId, Entry>, mergeIds: set<CandidateId>)
    ensures var r := SeedRow(a, byId, mergeIds);
      && (r.Some? <==> BringsPr(a, byId)) && (r.Some? ==> RowSays(r.value, a, byId, mergeIds))
  {
  }

  /** Which candidates may merge, when no two entries share an id. */
  lemma {:induction false} EffectiveIdsSay(entries: seq<Entry>, mergeable: seq<ActionResult>,
      autoMerge: Option<set<CandidateId>>, selected: Option<seq<CandidateId>>, e: Entry)
    requires DistinctEntryIds(entries) && e in entries
    ensures EntryId(e) in EffectiveMergeIds(entries, mergeable, autoMerge, selected) <==>
      && (exists a | a in mergeable :: a.candidateId == EntryId(e))
      && match autoMerge
         case None => e.verdict.tier == AutoMerge
         case Some(ids) =>
           && EntryId(e) in ids && (selected.Some? ==> EntryId(e) in selected.value)
           && (e.verdict.tier == AutoMerge || e.verdict.tier == ReviewRequired)
  {
    EntryByIdIs(entries, EntryId(e));
    SameEntryId(entries, e, EntryById(entries)[EntryId(e)]);
    forall d | d in entries && EntryId(d) == EntryId(e) ensures d == e { SameEntryId(entries, d, e); }
  }

  lemma {:induction false} EffectiveIdsAreEntries(entries: seq<Entry>, mergeable: seq<ActionResult>,
      autoMerge: Option<set<CandidateId>>, selected: Option<seq<CandidateId>>, id: CandidateId)
    requires id in EffectiveMergeIds(entries, mergeable, autoMerge, selected)
    ensures exists e | e in entries :: EntryId(e) == id
  {
    EntryByIdIs(entries, id);
  }
}
