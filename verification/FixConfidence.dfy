/** The verdict on a fix candidate (arguss/engine/fix_confidence.py). */
module FixConfidence {
  import opened Basics
  import opened Sorting
  import opened Versions

  datatype TrustFlag = OwnershipTransfer | NewMaintainer | CadenceAnomaly | DownloadCollapse

  /** Built so that `safe` holds iff there are no flags; nothing here relies on it unless stated. */
  datatype TrustDelta = TrustDelta(flags: seq<TrustFlag>, safe: bool)

  /** Only the test-reality verdict of the pipeline snapshot matters here. */
  datatype Pipeline = Pipeline(testsVerify: bool)

  datatype Signal =
    | KillSwitch | ProjectVeto | MajorBump | TrustUnavailable | Trust(flag: TrustFlag)
    | PipelineUnavailable | NoTestReality

  datatype Tier = AutoMerge | ReviewRequired | Decline

  datatype Verdict = Verdict(tier: Tier, score: int, signals: seq<Signal>)

  /** Position of a review signal's text in alphabetical order. */
  function Rank(s: Signal): nat {
    match s
    case MajorBump => 0 // fix_kind.major
    case KillSwitch => 1 // kill_switch
    case NoTestReality => 2 // pipeline.test_reality
    case PipelineUnavailable => 3 // pipeline.unavailable
    case ProjectVeto => 4 // project_veto
    case Trust(CadenceAnomaly) => 5 // trust.cadence_anomaly
    case Trust(DownloadCollapse) => 6 // trust.download_collapse
    case Trust(NewMaintainer) => 7 // trust.new_maintainer
    case Trust(OwnershipTransfer) => 8 // trust.ownership_transferred
    case TrustUnavailable => 9 // trust.unavailable
  }

  predicate Alphabetical(a: Signal, b: Signal) {
    Rank(a) < Rank(b)
  }

  /** `_SCORE_REDUCTION.get(signal, 0)` */
  function Reduction(s: Signal): nat {
    match s
    case MajorBump => 50
    case TrustUnavailable => 20
    case Trust(_) => 15
    case PipelineUnavailable => 25
    case NoTestReality => 25
    case KillSwitch => 0
    case ProjectVeto => 0
  }

  predicate IsReviewSignal(s: Signal) {
    s != KillSwitch && s != ProjectVeto
  }

  function TrustSignals(flags: seq<TrustFlag>): seq<Signal> {
    if flags == [] then [] else [Trust(flags[0])] + TrustSignals(flags[1..])
  }

  function KindSignals(kind: FixKind): seq<Signal> {
    if kind == Major then [MajorBump] else []
  }

  function DeltaSignals(delta: Option<TrustDelta>): seq<Signal> {
    if delta.None? then [TrustUnavailable] else if !delta.value.safe then TrustSignals(delta.value.flags) else []
  }

  function PipelineSignals(pipeline: Option<Pipeline>): seq<Signal> {
    if pipeline.None? then [PipelineUnavailable] else if !pipeline.value.testsVerify then [NoTestReality] else []
  }

  /** Signals gathered by `_collect_review_vetoes`, in the order they are appended. */
  function ReviewVetoes(kind: FixKind, delta: Option<TrustDelta>, pipeline: Option<Pipeline>): seq<Signal> {
    KindSignals(kind) + DeltaSignals(delta) + PipelineSignals(pipeline)
  }

  method CollectReviewVetoes(kind: FixKind, delta: Option<TrustDelta>,
      pipeline: Option<Pipeline>) returns (signals: seq<Signal>)
    ensures signals == ReviewVetoes(kind, delta, pipeline)
  {
    signals := [];
    if kind == Major { signals := signals + [MajorBump]; }
    assert signals == KindSignals(kind);
    if delta.None? {
      signals := signals + [TrustUnavailable];
    } else if !delta.value.safe {
      signals := AppendTrustSignals(signals, delta.value.flags);
    }
    assert signals == KindSignals(kind) + DeltaSignals(delta);
    if pipeline.None? {
      signals := signals + [PipelineUnavailable];
    } else if !pipeline.value.testsVerify {
      signals := signals + [NoTestReality];
    }
  }

  /** `for flag in trust_delta.flags` */
  method AppendTrustSignals(before: seq<Signal>, flags: seq<TrustFlag>) returns (signals: seq<Signal>)
    ensures signals == before + TrustSignals(flags)
  {
    signals := before;
    var i := 0;
    while i < |flags|
      invariant 0 <= i <= |flags|
      invariant before + TrustSignals(flags) == signals + TrustSignals(flags[i..])
    {
      assert flags[i..][1..] == flags[i + 1..];
      signals := signals + [Trust(flags[i])];
      i := i + 1;
    }
  }

  function TotalReduction(signals: seq<Signal>): nat {
    if signals == [] then 0 else Reduction(signals[0]) + TotalReduction(signals[1..])
  }

  function ReviewScore(signals: seq<Signal>): int {
    if TotalReduction(signals) >= 99 then 1 else 100 - TotalReduction(signals)
  }

  /** `_score_for_review` */
  method ScoreForReview(signals: seq<Signal>) returns (score: int)
    ensures score == ReviewScore(signals)
  {
    score := 100;
    var i := 0;
    while i < |signals|
      invariant 0 <= i <= |signals|
      invariant 100 - TotalReduction(signals) == score - TotalReduction(signals[i..])
    {
      assert signals[i..][1..] == signals[i + 1..];
      score := score - Reduction(signals[i]);
      i := i + 1;
    }
    if score < 1 { score := 1; }
  }

  function VerdictOn(killed: bool, veto: bool, objections: seq<Signal>): Verdict {
    if killed then Verdict(Decline, 0, [KillSwitch])
    else if veto then Verdict(Decline, 0, [ProjectVeto])
    else if objections == [] then Verdict(AutoMerge, 100, [])
    else
      var signals := Sort(Alphabetical, objections);
      Verdict(ReviewRequired, ReviewScore(signals), signals)
  }

  function FixVerdict(killed: bool, veto: bool, kind: FixKind, delta: Option<TrustDelta>,
      pipeline: Option<Pipeline>): Verdict {
    VerdictOn(killed, veto, ReviewVetoes(kind, delta, pipeline))
  }

  /** `compute_fix_confidence`; the kill switch reading is a parameter. */
  method ComputeFixConfidence(killed: bool, veto: bool, kind: FixKind, delta: Option<TrustDelta>,
      pipeline: Option<Pipeline>)
    returns (v: Verdict)
    ensures v == FixVerdict(killed, veto, kind, delta, pipeline)
  {
    if killed { return Verdict(Decline, 0, [KillSwitch]); }
    if veto { return Verdict(Decline, 0, [ProjectVeto]); }
    var signals := CollectReviewVetoes(kind, delta, pipeline);
    SortKeepsElements(Alphabetical, signals);
    if signals != [] {
      var sorted := Sort(Alphabetical, signals);
      var score := ScoreForReview(sorted);
      return Verdict(ReviewRequired, score, sorted);
    }
    v := Verdict(AutoMerge, 100, []);
  }

  // ---- What tier and score mean ----

  lemma {:induction false} TrustSignalsAreFlags(flags: seq<TrustFlag>)
    ensures |TrustSignals(flags)| == |flags|
    ensures forall s | s in TrustSignals(flags) :: s.Trust?
  {
    if flags != [] { TrustSignalsAreFlags(flags[1..]); }
  }

  lemma {:induction false} ReviewVetoesAreReviewSignals(kind: FixKind, delta: Option<TrustDelta>,
      pipeline: Option<Pipeline>)
    ensures forall s | s in ReviewVetoes(kind, delta, pipeline) :: IsReviewSignal(s)
    ensures ReviewVetoes(kind, delta, pipeline) == [] <==>
      && kind != Major && delta.Some? && (delta.value.safe || delta.value.flags == [])
      && pipeline.Some? && pipeline.value.testsVerify
  {
    if delta.Some? { TrustSignalsAreFlags(delta.value.flags); }
  }

  lemma {:induction false} ReductionIsPositive(signals: seq<Signal>)
    requires signals != [] && forall s | s in signals :: IsReviewSignal(s)
    ensures TotalReduction(signals) >= 15
  {
    assert signals[0] in signals;
    if |signals| > 1 {
      forall s | s in signals[1..] ensures IsReviewSignal(s) { assert s in signals; }
      ReductionIsPositive(signals[1..]);
    }
  }

  /** Score and tier say the same thing: 100 is auto-merge, 1 to 99 review, 0 decline. */
  lemma {:induction false} ScoreDeterminesTier(killed: bool, veto: bool, kind: FixKind, delta: Option<TrustDelta>,
      pipeline: Option<Pipeline>)
    ensures var v := FixVerdict(killed, veto, kind, delta, pipeline);
      && (v.score == 100 <==> v.tier == AutoMerge)
      && (1 <= v.score <= 99 <==> v.tier == ReviewRequired)
      && (v.score == 0 <==> v.tier == Decline)
  {
    var raw := ReviewVetoes(kind, delta, pipeline);
    SortKeepsElements(Alphabetical, raw);
    ReviewVetoesAreReviewSignals(kind, delta, pipeline);
    if raw != [] { ReductionIsPositive(Sort(Alphabetical, raw)); }
  }

  /** Auto-merge needs every gate open: engine on, no major bump, clean trust, tests that verify. */
  lemma {:induction false} AutoMergeIffNothingObjects(killed: bool, veto: bool, kind: FixKind,
      delta: Option<TrustDelta>, pipeline: Option<Pipeline>)
    requires delta.Some? ==> (delta.value.safe <==> delta.value.flags == [])
    ensures FixVerdict(killed, veto, kind, delta, pipeline).tier == AutoMerge <==>
      && !killed && !veto && kind != Major
      && delta.Some? && delta.value.flags == [] && pipeline.Some? && pipeline.value.testsVerify
  {
    SortKeepsElements(Alphabetical, ReviewVetoes(kind, delta, pipeline));
    ReviewVetoesAreReviewSignals(kind, delta, pipeline);
  }

  lemma {:induction false} RemoveOne(signals: seq<Signal>, i: nat)
    requires i < |signals|
    ensures TotalReduction(signals) == Reduction(signals[i]) + TotalReduction(signals[..i] + signals[i + 1..])
    ensures multiset(signals) == multiset{signals[i]} + multiset(signals[..i] + signals[i + 1..])
  {
    var rest := signals[..i] + signals[i + 1..];
    assert signals == signals[..i] + [signals[i]] + signals[i + 1..];
    if i == 0 {
      assert rest == signals[1..];
    } else {
      assert rest[1..] == signals[1..][..i - 1] + signals[1..][i..];
      RemoveOne(signals[1..], i - 1);
    }
  }

  lemma {:induction false} CancelOne(x: Signal, few: multiset<Signal>, many: multiset<Signal>)
    requires multiset{x} + few <= multiset{x} + many
    ensures few <= many
  {
    forall y ensures few[y] <= many[y] { assert (multiset{x} + few)[y] <= (multiset{x} + many)[y]; }
  }

  lemma {:induction false} FewerSignalsReduceLess(s: seq<Signal>, t: seq<Signal>)
    requires multiset(s) <= multiset(t)
    ensures TotalReduction(s) <= TotalReduction(t)
    decreases |s|
  {
    hide Reduction;
    if s != [] {
      assert s[0] in multiset(s) && s[0] in multiset(t);
      var i: nat :| i < |t| && t[i] == s[0];
      var s', t' := s[..0] + s[1..], t[..i] + t[i + 1..];
      RemoveOne(s, 0);
      RemoveOne(t, i);
      CancelOne(s[0], multiset(s'), multiset(t'));
      hide TotalReduction;
      FewerSignalsReduceLess(s', t');
    }
  }

  /** Adding objections never raises the score, in whatever order they were gathered. */
  lemma {:induction false} MoreVetoesNeverScoreHigher(killed: bool, veto: bool, few: seq<Signal>, killed': bool,
      veto': bool, many: seq<Signal>)
    requires multiset(few) <= multiset(many) && (killed ==> killed') && (veto ==> veto')
    ensures VerdictOn(killed', veto', many).score <= VerdictOn(killed, veto, few).score
  {
    SortedReductionIsTheSame(few);
    SortedReductionIsTheSame(many);
    FewerSignalsReduceLess(few, many);
    if few != [] { assert few[0] in multiset(many); }
  }

  lemma {:induction false} SortedReductionIsTheSame(signals: seq<Signal>)
    ensures Sort(Alphabetical, signals) == [] <==> signals == []
    ensures TotalReduction(Sort(Alphabetical, signals)) == TotalReduction(signals)
  {
    SortKeepsElements(Alphabetical, signals);
    FewerSignalsReduceLess(signals, Sort(Alphabetical, signals));
    FewerSignalsReduceLess(Sort(Alphabetical, signals), signals);
  }

  // ---- Signals and score, spelled out ----

  /** The machine-readable id of a signal: its family and, within one, its own name. */
  function SignalId(s: Signal): string {
    match s
    case MajorBump => "fix_kind.major"
    case KillSwitch => "kill_switch"
    case NoTestReality => "pipeline." + "test_reality"
    case PipelineUnavailable => "pipeline." + "unavailable"
    case ProjectVeto => "project_veto"
    case Trust(flag) => "trust." + FlagId(flag)
    case TrustUnavailable => "trust." + "unavailable"
  }

  function FlagId(flag: TrustFlag): string {
    match flag
    case CadenceAnomaly => "cadence_anomaly"
    case DownloadCollapse => "download_collapse"
    case NewMaintainer => "new_maintainer"
    case OwnershipTransfer => "ownership_transferred"
  }

  lemma {:induction false} LessAfter(common: string, a: string, b: string)
    requires a != "" && b != "" && a[0] < b[0]
    ensures Less(common + a, common + b)
  {
    if common == "" {
      assert common + a == a && common + b == b;
    } else {
      assert (common + a)[1..] == common[1..] + a && (common + b)[1..] == common[1..] + b;
      LessAfter(common[1..], a, b);
    }
  }

  function SignalAt(rank: nat): Signal {
    if rank == 0 then MajorBump
    else if rank == 1 then KillSwitch
    else if rank == 2 then NoTestReality
    else if rank == 3 then PipelineUnavailable
    else if rank == 4 then ProjectVeto
    else if rank == 5 then Trust(CadenceAnomaly)
    else if rank == 6 then Trust(DownloadCollapse)
    else if rank == 7 then Trust(NewMaintainer)
    else if rank == 8 then Trust(OwnershipTransfer)
    else TrustUnavailable
  }

  lemma {:induction false} PipelineBeforeProject()
    ensures Less("pipeline." + "unavailable", "project_veto")
  {
    hide Less;
    assert "pipeline." + "unavailable" == "p" + "ipeline.unavailable" && "project_veto" == "p" + "roject_veto";
    LessAfter("p", "ipeline.unavailable", "roject_veto");
  }

  lemma {:induction false} NextIdIsLater(rank: nat)
    requires rank < 9
    ensures Less(SignalId(SignalAt(rank)), SignalId(SignalAt(rank + 1)))
  {
    if rank == 2 {
      LessAfter("pipeline.", "test_reality", "unavailable");
    } else if rank == 3 {
      PipelineBeforeProject();
    } else if rank >= 5 {
      hide Less;
      LessAfter("trust.", "cadence_anomaly", "download_collapse");
      LessAfter("trust.", "download_collapse", "new_maintainer");
      LessAfter("trust.", "new_maintainer", "ownership_transferred");
      LessAfter("trust.", "ownership_transferred", "unavailable");
    }
  }

  lemma {:induction false} LaterIdIsLater(low: nat, high: nat)
    requires low < high <= 9
    ensures Less(SignalId(SignalAt(low)), SignalId(SignalAt(high)))
  {
    hide Less, SignalAt, SignalId;
    NextIdIsLater(high - 1);
    if low < high - 1 {
      LaterIdIsLater(low, high - 1);
      LessTransitive(SignalId(SignalAt(low)), SignalId(SignalAt(high - 1)), SignalId(SignalAt(high)));
    }
  }

  /** Signals are ordered as the ids they stand for. */
  lemma {:induction false} AlphabeticalIsById(a: Signal, b: Signal)
    ensures Alphabetical(a, b) <==> Less(SignalId(a), SignalId(b))
  {
    hide Less, SignalId;
    assert SignalAt(Rank(a)) == a && SignalAt(Rank(b)) == b;
    if Rank(a) < Rank(b) {
      LaterIdIsLater(Rank(a), Rank(b));
    } else if Rank(b) < Rank(a) {
      LaterIdIsLater(Rank(b), Rank(a));
      LessAsymmetric(SignalId(b), SignalId(a));
    } else {
      LessIrreflexive(SignalId(a));
    }
  }

  lemma {:induction false} FlagReductions(flags: seq<TrustFlag>)
    ensures TotalReduction(TrustSignals(flags)) == 15 * |flags|
  {
    if flags != [] { FlagReductions(flags[1..]); }
  }

  lemma {:induction false} FlagsAreShown(flags: seq<TrustFlag>, s: Signal)
    ensures multiset(TrustSignals(flags))[s] == if s.Trust? then multiset(flags)[s.flag] else 0
  {
    if flags != [] {
      FlagsAreShown(flags[1..], s);
      assert flags == [flags[0]] + flags[1..];
      assert TrustSignals(flags) == [Trust(flags[0])] + TrustSignals(flags[1..]);
    }
  }

  lemma {:induction false} ReductionsAdd(s: seq<Signal>, t: seq<Signal>)
    ensures TotalReduction(s + t) == TotalReduction(s) + TotalReduction(t)
  {
    hide Reduction;
    if s == [] {
      assert s + t == t;
    } else {
      assert (s + t)[0] == s[0] && (s + t)[1..] == s[1..] + t;
      ReductionsAdd(s[1..], t);
    }
  }

  /** Points lost to each kind of objection. */
  function Lost(kind: FixKind, delta: Option<TrustDelta>, pipeline: Option<Pipeline>): nat {
    (if kind == Major then 50 else 0)
    + (if delta.None? then 20 else if delta.value.safe then 0 else 15 * |delta.value.flags|)
    + (if pipeline.None? || !pipeline.value.testsVerify then 25 else 0)
  }

  lemma {:induction false} ReviewReductionIsLost(kind: FixKind, delta: Option<TrustDelta>, pipeline: Option<Pipeline>)
    ensures TotalReduction(ReviewVetoes(kind, delta, pipeline)) == Lost(kind, delta, pipeline)
  {
    hide TrustSignals;
    ReductionsAdd(KindSignals(kind) + DeltaSignals(delta), PipelineSignals(pipeline));
    ReductionsAdd(KindSignals(kind), DeltaSignals(delta));
    if delta.Some? { FlagReductions(delta.value.flags); }
    OneReduction(MajorBump);
    OneReduction(TrustUnavailable);
    OneReduction(PipelineUnavailable);
    OneReduction(NoTestReality);
    hide TotalReduction;
  }

  lemma {:induction false} OneReduction(s: Signal)
    ensures TotalReduction([s]) == Reduction(s) && TotalReduction([]) == 0
  {
  }

  /** The score starts at 100, loses what its objections cost and does not fall below 1. */
  lemma {:induction false} ScoreIsWhatIsLeft(kind: FixKind, delta: Option<TrustDelta>, pipeline: Option<Pipeline>)
    ensures FixVerdict(false, false, kind, delta, pipeline).score ==
      if Lost(kind, delta, pipeline) >= 99 then 1 else 100 - Lost(kind, delta, pipeline)
  {
    hide TotalReduction, ReviewVetoes, Lost;
    var raw := ReviewVetoes(kind, delta, pipeline);
    ReviewReductionIsLost(kind, delta, pipeline);
    SortedReductionIsTheSame(raw);
    NothingReduces();
  }

  lemma {:induction false} NothingReduces()
    ensures TotalReduction([]) == 0
  {
  }

  /** A stopped candidate is declined with the one signal that stopped it. */
  lemma {:induction false} StoppedIsDeclined(veto: bool, kind: FixKind, delta: Option<TrustDelta>,
      pipeline: Option<Pipeline>)
    ensures FixVerdict(true, veto, kind, delta, pipeline) == Verdict(Decline, 0, [KillSwitch])
    ensures FixVerdict(false, true, kind, delta, pipeline) == Verdict(Decline, 0, [ProjectVeto])
    ensures FixVerdict(false, false, kind, delta, pipeline).tier != Decline
  {
  }

  /** How often a signal is due on a candidate that was not stopped. */
  function TimesDue(kind: FixKind, delta: Option<TrustDelta>, pipeline: Option<Pipeline>, s: Signal): nat {
    match s
    case KillSwitch => 0
    case ProjectVeto => 0
    case MajorBump => if kind == Major then 1 else 0
    case TrustUnavailable => if delta.None? then 1 else 0
    case Trust(flag) => if delta.Some? && !delta.value.safe then multiset(delta.value.flags)[flag] else 0
    case PipelineUnavailable => if pipeline.None? then 1 else 0
    case NoTestReality => if pipeline.Some? && !pipeline.value.testsVerify then 1 else 0
  }

  lemma {:induction false} KindIsDue(kind: FixKind, delta: Option<TrustDelta>, pipeline: Option<Pipeline>, s: Signal)
    ensures multiset(KindSignals(kind))[s] == if s.MajorBump? then TimesDue(kind, delta, pipeline, s) else 0
  {
  }

  lemma {:induction false} DeltaIsDue(kind: FixKind, delta: Option<TrustDelta>, pipeline: Option<Pipeline>, s: Signal)
    ensures multiset(DeltaSignals(delta))[s] ==
      if s.TrustUnavailable? || s.Trust? then TimesDue(kind, delta, pipeline, s) else 0
  {
    hide TrustSignals;
    if delta.Some? { FlagsAreShown(delta.value.flags, s); }
  }

  lemma {:induction false} PipelineIsDue(kind: FixKind, delta: Option<TrustDelta>, pipeline: Option<Pipeline>,
      s: Signal)
    ensures multiset(PipelineSignals(pipeline))[s] ==
      if s.PipelineUnavailable? || s.NoTestReality? then TimesDue(kind, delta, pipeline, s) else 0
  {
  }

  lemma {:induction false} VetoesAreDue(kind: FixKind, delta: Option<TrustDelta>, pipeline: Option<Pipeline>, s: Signal)
    ensures multiset(ReviewVetoes(kind, delta, pipeline))[s] == TimesDue(kind, delta, pipeline, s)
  {
    hide KindSignals, DeltaSignals, PipelineSignals;
    KindIsDue(kind, delta, pipeline, s);
    DeltaIsDue(kind, delta, pipeline, s);
    PipelineIsDue(kind, delta, pipeline, s);
    var k, d, p := KindSignals(kind), DeltaSignals(delta), PipelineSignals(pipeline);
    assert multiset(k + d + p) == multiset(k) + multiset(d) + multiset(p);
  }

  /** Each signal is shown as often as it is due, in the order of the ids. */
  lemma {:induction false} SignalsAreDue(kind: FixKind, delta: Option<TrustDelta>, pipeline: Option<Pipeline>,
      s: Signal)
    ensures var signals := FixVerdict(false, false, kind, delta, pipeline).signals;
      && multiset(signals)[s] == TimesDue(kind, delta, pipeline, s)
      && forall i | 0 < i < |signals| :: !Less(SignalId(signals[i]), SignalId(signals[i - 1]))
  {
    hide Less, SignalId, ReviewVetoes, TimesDue, Rank;
    var raw := ReviewVetoes(kind, delta, pipeline);
    VetoesAreDue(kind, delta, pipeline, s);
    SortKeepsElements(Alphabetical, raw);
    SortIsInOrder(Alphabetical, raw);
    var signals := FixVerdict(false, false, kind, delta, pipeline).signals;
    forall i | 0 < i < |signals| ensures !Less(SignalId(signals[i]), SignalId(signals[i - 1])) {
      AlphabeticalIsById(signals[i], signals[i - 1]);
    }
  }
}
