/**
 From a scan to its merges (arguss/web/mode_c_workflow.py, arguss/web/wizard.py): the entries an action is run
 on are chosen from the report's, and what holds of the action then holds without any assumption on ids.
 */
module Workflow {
  import opened Basics
  import opened Versions
  import opened FixConfidence
  import opened Findings
  import opened Consolidation
  import opened ConsolidationLaws
  import opened Proposal
  import opened BalanceLaws
  import opened ActionRuns
  import opened ActionMerge
  import opened MergeLaws
  import opened MergeGuarantees
  import opened ActionRecords
  import opened ModeCWorkers

  // ---- Choosing entries ----

  predicate Chosen(e: Entry, selected: Option<seq<CandidateId>>) {
    if selected.None? then e.verdict.tier == AutoMerge else EntryId(e) in selected.value
  }

  function ChosenEntries(entries: seq<Entry>, selected: Option<seq<CandidateId>>): seq<Entry> {
    if entries == [] then []
    else
      var last := entries[|entries| - 1];
      ChosenEntries(entries[..|entries| - 1], selected) + (if Chosen(last, selected) then [last] else [])
  }

  /** Every selected id is that of some entry. */
  ghost predicate AllMatched(entries: seq<Entry>, selected: Option<seq<CandidateId>>) {
    selected.Some? ==> forall id | id in selected.value :: exists e | e in entries :: EntryId(e) == id
  }

  function IdsIn(entries: seq<Entry>): set<CandidateId> {
    set e | e in entries :: EntryId(e)
  }

  /** `filter_entries_for_action`; None where the source raises. */
  method FilterEntriesForAction(entries: seq<Entry>, selected: Option<seq<CandidateId>>) returns (r: Option<seq<Entry>>)
    ensures r.Some? <==> AllMatched(entries, selected)
    ensures r.Some? ==> r.value == ChosenEntries(entries, selected)
  {
    hide Chosen, EntryId;
    var filtered: seq<Entry> := [];
    var matched: set<CandidateId> := {};
    var i := 0;
    while i < |entries|
      invariant 0 <= i <= |entries| && filtered == ChosenEntries(entries[..i], selected)
      invariant matched == IdsIn(filtered)
    {
      assert entries[..i + 1][..i] == entries[..i];
      if Chosen(entries[i], selected) {
        filtered := filtered + [entries[i]];
        matched := matched + {EntryId(entries[i])};
      }
      i := i + 1;
    }
    assert entries[..i] == entries;
    if selected.Some? {
      MatchedIff(entries, selected.value);
      assert selected == Some(selected.value);
      var wanted := set id | id in selected.value;
      var missing := wanted - matched;
      if missing != {} { return None; }
      forall id | id in wanted ensures id in matched { assert id !in missing; }
    }
    r := Some(filtered);
  }

  /** No selected id is missing exactly when all match. */
  lemma {:induction false} MatchedIff(entries: seq<Entry>, selected: seq<CandidateId>)
    ensures AllMatched(entries, Some(selected)) <==>
      (set id | id in selected) <= IdsIn(ChosenEntries(entries, Some(selected)))
  {
    hide ChosenEntries, EntryId;
    var ids := set id | id in selected;
    var matched := IdsIn(ChosenEntries(entries, Some(selected)));
    forall e ensures e in ChosenEntries(entries, Some(selected)) <==> e in entries && Chosen(e, Some(selected)) {
      ChosenAre(entries, Some(selected), e);
    }
    if AllMatched(entries, Some(selected)) {
      forall id | id in ids ensures id in matched {
        var e :| e in entries && EntryId(e) == id;
        assert e in ChosenEntries(entries, Some(selected));
      }
    }
    if ids <= matched {
      forall id | id in selected ensures exists e | e in entries :: EntryId(e) == id {
        assert id in ids && id in matched;
      }
    }
  }

  lemma {:induction false} ChosenAre(entries: seq<Entry>, selected: Option<seq<CandidateId>>, e: Entry)
    ensures e in ChosenEntries(entries, selected) <==> e in entries && Chosen(e, selected)
  {
    hide Chosen;
    if entries != [] {
      ChosenAre(entries[..|entries| - 1], selected, e);
      assert entries == entries[..|entries| - 1] + [entries[|entries| - 1]];
    }
  }

  lemma {:induction false} ChosenAreDistinct(entries: seq<Entry>, selected: Option<seq<CandidateId>>)
    requires DistinctEntryIds(entries)
    ensures DistinctEntryIds(ChosenEntries(entries, selected))
  {
    hide Chosen;
    if entries != [] {
      var init, last := entries[..|entries| - 1], entries[|entries| - 1];
      assert DistinctEntryIds(init);
      ChosenAreDistinct(init, selected);
      forall e | e in ChosenEntries(init, selected) ensures EntryId(e) != EntryId(last) {
        ChosenAre(init, selected, e);
        var i :| 0 <= i < |init| && init[i] == e;
        assert EntryId(entries[i]) != EntryId(entries[|entries| - 1]);
      }
    }
  }

  lemma {:induction false} ChosenPlaces(entries: seq<Entry>, selected: Option<seq<CandidateId>>)
    returns (places: seq<nat>)
    ensures var chosen := ChosenEntries(entries, selected);
      && |chosen| == |places| && (forall p, q | 0 <= p < q < |places| :: places[p] < places[q])
      && (forall p | 0 <= p < |places| :: places[p] < |entries| && chosen[p] == entries[places[p]])
      && forall j: nat :: j in places <==> j < |entries| && Chosen(entries[j], selected)
  {
    hide Chosen;
    places := [];
    if entries != [] {
      var init, last := entries[..|entries| - 1], entries[|entries| - 1];
      places := ChosenPlaces(init, selected);
      var chosen := ChosenEntries(init, selected);
      assert ChosenEntries(entries, selected) == chosen + (if Chosen(last, selected) then [last] else []);
      forall p | 0 <= p < |places| ensures chosen[p] == entries[places[p]] {
        assert chosen[p] == init[places[p]];
      }
      forall j: nat ensures j in places <==> j < |init| && Chosen(entries[j], selected) {
        if j < |init| { assert entries[j] == init[j]; }
      }
      if Chosen(last, selected) { places := places + [|init|]; }
    }
  }

  /** The chosen entries: those whose id is selected or, without a selection, those of AUTO_MERGE, in order. */
  lemma {:induction false} ChosenSay(entries: seq<Entry>, selected: Option<seq<CandidateId>>) returns (places: seq<nat>)
    ensures var chosen := ChosenEntries(entries, selected);
      && |chosen| == |places| && (forall p, q | 0 <= p < q < |places| :: places[p] < places[q])
      && (forall p | 0 <= p < |places| :: places[p] < |entries| && chosen[p] == entries[places[p]])
      && forall j: nat :: j in places <==>
           j < |entries|
           && match selected
              case None => entries[j].verdict.tier == AutoMerge
              case Some(ids) => EntryId(entries[j]) in ids
  {
    hide EntryId, ChosenEntries;
    places := ChosenPlaces(entries, selected);
  }

  // ---- The report's entries ----

  function PipelineEntries(findings: seq<Finding>, repo: string, world: World): seq<Entry> {
    EntriesFor(Consolidated(RawCandidates(findings, repo), findings), findings, world)
  }

  /** No two entries of a report share a candidate id. */
  lemma {:induction false} PipelineEntriesAreDistinct(findings: seq<Finding>, repo: string, world: World)
    requires DistinctIds(findings)
    ensures DistinctEntryIds(PipelineEntries(findings, repo, world))
  {
    hide EntryFor, Related, RawCandidates, Consolidated, IsUpgrade, DistinctIds, GroupKeys;
    var raw := RawCandidates(findings, repo);
    var ups, keys := Consolidated(raw, findings), GroupKeys(raw, findings);
    ConsolidationEmitsOneUpgradePerNode(findings, repo);
    forall i | 0 <= i < |ups| ensures Related(ups[i], findings) != [] {
      RelatedAreNamed(ups[i], keys[i], findings, repo);
    }
    RelatedBecomeEntries(ups, findings, world);
    var entries := PipelineEntries(findings, repo, world);
    forall i, j | 0 <= i < j < |entries| ensures EntryId(entries[i]) != EntryId(entries[j]) {
      EntryKeepsId(ups[i], findings, world);
      EntryKeepsId(ups[j], findings, world);
      if IdOf(ups[i]) == IdOf(ups[j]) { UpgradeIdsAreDistinct(findings, repo, i, j); }
    }
  }

  lemma {:induction false} EntryKeepsId(c: Candidate, findings: seq<Finding>, world: World)
    requires Related(c, findings) != []
    ensures EntryId(EntryFor(c, findings, world)) == IdOf(c)
  {
    hide Related;
  }

  /** The entries an action is run on. */
  function ActionEntries(findings: seq<Finding>, repo: string, world: World,
      selected: Option<seq<CandidateId>>): seq<Entry>
  {
    ChosenEntries(PipelineEntries(findings, repo, world), selected)
  }

  lemma {:induction false} ActionEntriesAreDistinct(findings: seq<Finding>, repo: string, world: World,
      selected: Option<seq<CandidateId>>)
    requires DistinctIds(findings)
    ensures DistinctEntryIds(ActionEntries(findings, repo, world, selected))
  {
    PipelineEntriesAreDistinct(findings, repo, world);
    ChosenAreDistinct(PipelineEntries(findings, repo, world), selected);
  }

  // ---- The action and the merges ----

  /** The workflow never makes populate raise, whatever was selected and whatever the actions brought. */
  lemma {:induction false} WorkflowNeverAuthorizesDecline(findings: seq<Finding>, repo: string, world: World,
      selected: Option<seq<CandidateId>>, mergeable: seq<ActionResult>, autoMerge: Option<set<CandidateId>>)
    requires DistinctIds(findings)
    ensures var entries := ActionEntries(findings, repo, world, selected);
      !AuthorizesDecline(EntryById(entries), EffectiveMergeIds(entries, mergeable, autoMerge, selected))
  {
    hide EntryById, AuthorizesDecline, EffectiveMergeIds, ActionEntries;
    ActionEntriesAreDistinct(findings, repo, world, selected);
    DistinctEntriesNeverDecline(ActionEntries(findings, repo, world, selected), mergeable, autoMerge, selected);
  }

  /** The ids the workflow lets merge, of the actions it ran. */
  function MergeIds(entries: seq<Entry>, actions: seq<ActionResult>, autoMerge: Option<set<CandidateId>>,
      selected: Option<seq<CandidateId>>): set<CandidateId> {
    EffectiveMergeIds(entries, Mergeable(actions), autoMerge, selected)
  }

  function Mergeable(actions: seq<ActionResult>): seq<ActionResult> {
    if actions == [] then []
    else Mergeable(actions[..|actions| - 1]) + (if HasPr(actions[|actions| - 1]) then [actions[|actions| - 1]] else [])
  }

  /**
   End to end, from findings to a merge request: the candidate merged was selected and is one of the report's
   entries, with an AUTO_MERGE or REVIEW_REQUIRED verdict, and the request carries the authorization of that
   tier; a reviewed one only if its id was passed for merging.
   */
  lemma {:induction false} OnlyEntitledRowsMerge(findings: seq<Finding>, repo: string, world: World,
      selected: Option<seq<CandidateId>>, autoMerge: Option<set<CandidateId>>, actions: seq<ActionResult>,
      cfg: Config, start: real, env: Environment, p: nat)
    requires DistinctIds(findings)
    requires var entries := ActionEntries(findings, repo, world, selected);
      var seeded := SeedRows(actions, EntryById(entries), MergeIds(entries, actions, autoMerge, selected));
      && cfg.pollInterval > 0.0 && OrdersRows(env, |seeded|)
      && p < |RunTask(cfg, start, env, seeded).0.history| && RunTask(cfg, start, env, seeded).0.history[p].call.MergePr?
    ensures var entries := ActionEntries(findings, repo, world, selected);
      var seeded := SeedRows(actions, EntryById(entries), MergeIds(entries, actions, autoMerge, selected));
      var Event(i, merge) := RunTask(cfg, start, env, seeded).0.history[p];
      i < |seeded| && exists e | e in PipelineEntries(findings, repo, world) ::
        MayMerge(e, seeded[i].candidateId, merge.auth, autoMerge, selected)
  {
    hide RunTask, SeedRows, PipelineEntries, EffectiveMergeIds, DistinctIds, AuthorizesDecline;
    var entries := ActionEntries(findings, repo, world, selected);
    var byId, ids := EntryById(entries), MergeIds(entries, actions, autoMerge, selected);
    WorkflowNeverAuthorizesDecline(findings, repo, world, selected, Mergeable(actions), autoMerge);
    EntitledRowsMerge(byId, ids, actions, cfg, start, env, p);
    ActionEntriesAreDistinct(findings, repo, world, selected);
    var seeded := SeedRows(actions, byId, ids);
    var Event(i, merge) := RunTask(cfg, start, env, seeded).0.history[p];
    var id := seeded[i].candidateId;
    EntryByIdIs(entries, id);
    ChosenAre(PipelineEntries(findings, repo, world), selected, byId[id]);
    EffectiveIdsArePassed(entries, Mergeable(actions), autoMerge, selected, id, byId[id]);
    assert MayMerge(byId[id], id, merge.auth, autoMerge, selected);
  }

  /** `e` is the entry of `id`, was chosen, and its tier earns this authorization. */
  predicate MayMerge(e: Entry, id: CandidateId, auth: Option<Authorization>, autoMerge: Option<set<CandidateId>>,
      selected: Option<seq<CandidateId>>) {
    && EntryId(e) == id
    && (if selected.Some? then id in selected.value else e.verdict.tier == AutoMerge)
    && ((e.verdict.tier == AutoMerge && auth == Some(Engine))
        || (e.verdict.tier == ReviewRequired && auth == Some(HumanOverride)))
    && (autoMerge.Some? ==> id in autoMerge.value) && (autoMerge.None? ==> e.verdict.tier == AutoMerge)
  }

  lemma {:induction false} EffectiveIdsArePassed(entries: seq<Entry>, mergeable: seq<ActionResult>,
      autoMerge: Option<set<CandidateId>>, selected: Option<seq<CandidateId>>, id: CandidateId, e: Entry)
    requires DistinctEntryIds(entries) && e in entries && EntryId(e) == id
    requires id in EffectiveMergeIds(entries, mergeable, autoMerge, selected)
    ensures autoMerge.Some? ==> id in autoMerge.value
    ensures autoMerge.None? ==> e.verdict.tier == AutoMerge
  {
    if autoMerge.None? {
      var d :| d in entries && d.verdict.tier == AutoMerge && EntryId(d) == id;
      SameEntryId(entries, d, e);
    }
  }

  lemma {:induction false} MergeableAre(actions: seq<ActionResult>, a: ActionResult)
    ensures a in Mergeable(actions) <==> a in actions && (a.status == Opened || a.status == AlreadyExists)
  {
    if actions != [] {
      MergeableAre(actions[..|actions| - 1], a);
      assert actions == actions[..|actions| - 1] + [actions[|actions| - 1]];
    }
  }

  /**
   Which candidates with a pull request the workflow lets merge: AUTO_MERGE ones when no ids are passed, and
   otherwise those passed that are not declined.
   */
  lemma {:induction false} MergesWhatIsPassed(findings: seq<Finding>, repo: string, world: World,
      selected: Option<seq<CandidateId>>, autoMerge: Option<set<CandidateId>>, actions: seq<ActionResult>, e: Entry,
      a: ActionResult)
    requires DistinctIds(findings) && e in ActionEntries(findings, repo, world, selected)
    requires a in actions && (a.status == Opened || a.status == AlreadyExists) && a.candidateId == EntryId(e)
    ensures EntryId(e) in MergeIds(ActionEntries(findings, repo, world, selected), actions, autoMerge, selected) <==>
      match autoMerge
      case None => e.verdict.tier == AutoMerge
      case Some(ids) => EntryId(e) in ids && e.verdict.tier != Decline
  {
    hide PipelineEntries, EffectiveMergeIds, DistinctIds, EntryId;
    var entries := ActionEntries(findings, repo, world, selected);
    ActionEntriesAreDistinct(findings, repo, world, selected);
    MergeableAre(actions, a);
    ChosenAre(PipelineEntries(findings, repo, world), selected, e);
    EffectiveIdsSay(entries, Mergeable(actions), autoMerge, selected, e);
  }

  // ---- The record of the action ----

  function KindText(k: FixKind): string {
    match k
    case Patch => "patch"
    case Minor => "minor"
    case Major => "major"
  }

  function PlannedOf(e: Entry): Planned {
    var c := e.candidate;
    Planned(EntryId(e), c.package, c.fromVersion, c.toVersion, KindText(c.kind))
  }

  /** What `run_mode_c_actions` announces for these entries. */
  function PlanOf(entries: seq<Entry>): seq<Planned> {
    seq(|entries|, i requires 0 <= i < |entries| => PlannedOf(entries[i]))
  }

  /** The plan names for each entry its candidate, package, versions and kind. */
  lemma {:induction false} PlanSays(entries: seq<Entry>, i: nat)
    requires i < |entries|
    ensures |PlanOf(entries)| == |entries|
    ensures var (p, c) := (PlanOf(entries)[i], entries[i].candidate);
      && p.candidateId == IdOf(c) && p.pkg == c.package && p.from == c.fromVersion && p.to == c.toVersion
      && (p.kind == "patch" <==> c.kind == Patch) && (p.kind == "minor" <==> c.kind == Minor)
      && (p.kind == "major" <==> c.kind == Major)
  {
    assert "patch"[1] == 'a' && "minor"[1] == 'i' && "major"[1] == 'a' && "patch"[0] == 'p' && "major"[0] == 'm';
  }

  /** The plan of an action on the report's entries names no candidate twice. */
  lemma {:induction false} ActionPlanIsDistinct(findings: seq<Finding>, repo: string, world: World,
      selected: Option<seq<CandidateId>>)
    requires DistinctIds(findings)
    ensures DistinctPlan(PlanOf(ActionEntries(findings, repo, world, selected)))
  {
    hide ActionEntries, DistinctIds;
    ActionEntriesAreDistinct(findings, repo, world, selected);
    var entries := ActionEntries(findings, repo, world, selected);
    forall i, j | 0 <= i < j < |entries|
      ensures PlannedOf(entries[i]).candidateId != PlannedOf(entries[j]).candidateId
    {
      assert EntryId(entries[i]) != EntryId(entries[j]);
    }
  }

  /**
   End to end, from findings to the closed record of their action, for every interleaving: each chosen entry's
   candidate exactly once, in order, with its worker's result; the record's counts are the event's and sum to
   the total; and the status says whether none, some or all were unsuccessful.
   */
  lemma {:induction false} ActionRecordIsComplete(findings: seq<Finding>, repo: string, world: World,
      selected: Option<seq<CandidateId>>, permits: nat, moves: seq<Move>)
    requires DistinctIds(findings)
    requires var plan := PlanOf(ActionEntries(findings, repo, world, selected));
      && Schedule(plan, permits, Initial(plan), moves)
      && AllDone(Interleave(plan, permits, Initial(plan), moves).phases)
    ensures var plan := PlanOf(ActionEntries(findings, repo, world, selected));
      var s := Interleave(plan, permits, Initial(plan), moves);
      var rec, results := Closed(s), Results(s.phases);
      && Shows(rec.outcomes, plan, results)
      && CountsFromOutcomes(rec.outcomes) == CompleteEvent(results).counts &&
          Sum(CountsFromOutcomes(rec.outcomes)) == |plan|
      && StatusReports(rec.status, results)
  {
    hide ActionEntries, DistinctPlan, Shows, StatusReports, Schedule, Interleave, Initial;
    ActionPlanIsDistinct(findings, repo, world, selected);
    ClosedRecord(PlanOf(ActionEntries(findings, repo, world, selected)), permits, moves);
  }
}
