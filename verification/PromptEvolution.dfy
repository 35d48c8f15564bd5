/** The champion/challenger registry of one prompt pack
    (backend/app/api/prompt_evolution.py). */
module PromptEvolution {
  import opened Prelude

  type VersionId = nat

  datatype Version = Version(id: VersionId, number: nat)

  datatype Promotion = Promotion(from: Option<VersionId>, to: VersionId)

  /** A row of task_eval_scores of the board; both columns may be null. */
  datatype Eval = Eval(version: Option<VersionId>, score: Option<real>)

  datatype Gate = Gate(minDelta: real, requireNonRegression: bool)

  datatype Registry = Registry(
    champion: Option<VersionId>,
    challenger: Option<VersionId>,
    versions: seq<Version>,
    log: seq<Promotion>,
    evals: seq<Eval>)

  datatype PromotionError = UnknownVersion | Regression | DeltaTooSmall

  predicate Counts(e: Eval, v: VersionId) {
    e.version == Some(v) && e.score.Some?
  }

  function Total(evals: seq<Eval>, v: VersionId): real {
    if evals == [] then 0.0
    else
      var last := evals[|evals| - 1];
      Total(evals[..|evals| - 1], v) + if Counts(last, v) then last.score.value else 0.0
  }

  function Number(evals: seq<Eval>, v: VersionId): nat {
    if evals == [] then 0
    else Number(evals[..|evals| - 1], v) + if Counts(evals[|evals| - 1], v) then 1 else 0
  }

  function Quotient(total: real, k: nat): real
    requires k > 0
  {
    total / k as real
  }

  function Average(evals: seq<Eval>, v: VersionId): Option<real> {
    if Number(evals, v) == 0 then None else Some(Quotient(Total(evals, v), Number(evals, v)))
  }

  function AverageOf(evals: seq<Eval>, v: Option<VersionId>): Option<real> {
    if v.None? then None else Average(evals, v.value)
  }

  predicate Known(versions: seq<Version>, v: VersionId) {
    exists w :: w in versions && w.id == v
  }

  function Refusal(gate: Gate, champion: Option<real>, target: Option<real>): Option<PromotionError> {
    if champion.None? || target.None? then None
    else if gate.requireNonRegression && target.value < champion.value then Some(Regression)
    else if target.value - champion.value < gate.minDelta then Some(DeltaTooSmall)
    else None
  }

  function MaxNumber(versions: seq<Version>): nat {
    if versions == [] then 0
    else
      var before, last := MaxNumber(versions[..|versions| - 1]), versions[|versions| - 1].number;
      if before < last then last else before
  }

  lemma {:induction false} MaxIsLargest(versions: seq<Version>)
    ensures forall w :: w in versions ==> w.number <= MaxNumber(versions)
  {
    if versions != [] {
      MaxIsLargest(versions[..|versions| - 1]);
      assert versions == versions[..|versions| - 1] + [versions[|versions| - 1]];
    }
  }

  function Created(s: Registry, id: VersionId, setAsChallenger: bool): Registry {
    s.(versions := s.versions + [Version(id, MaxNumber(s.versions) + 1)],
       champion := if s.champion.None? then Some(id) else s.champion,
       challenger := if s.champion.Some? && setAsChallenger then Some(id) else s.challenger)
  }

  function PromotionRefusal(gate: Gate, s: Registry, to: VersionId, force: bool): Option<PromotionError> {
    if !Known(s.versions, to) then Some(UnknownVersion)
    else if force then None
    else Refusal(gate, AverageOf(s.evals, s.champion), Average(s.evals, to))
  }

  function Promoted(s: Registry, to: VersionId): Registry {
    s.(log := s.log + [Promotion(s.champion, to)],
       champion := Some(to),
       challenger := if s.challenger == Some(to) then None else s.challenger)
  }

  // ---- the mean -------------------------------------------------------------------

  /** The scores of a version measured from m, added up over exactly its scored rows. */
  function Deviation(evals: seq<Eval>, v: VersionId, m: real): real {
    if evals == [] then 0.0
    else
      var e := evals[|evals| - 1];
      Deviation(evals[..|evals| - 1], v, m) + if e.version == Some(v) && e.score.Some? then e.score.value - m else 0.0
  }

  /** Some row of the version has a score. */
  predicate IsScored(evals: seq<Eval>, v: VersionId) {
    exists e :: e in evals && e.version == Some(v) && e.score.Some?
  }

  lemma {:induction false} DeviationIs(evals: seq<Eval>, v: VersionId, m: real)
    ensures Deviation(evals, v, m) == Total(evals, v) - Number(evals, v) as real * m
    ensures Number(evals, v) > 0 <==> IsScored(evals, v)
  {
    if evals != [] {
      var front, last := evals[..|evals| - 1], evals[|evals| - 1];
      assert evals == front + [last];
      DeviationIs(front, v, m);
      OneMoreTimes(Number(front, v), m);
    }
  }

  lemma OneMoreTimes(k: int, x: real)
    ensures (k + 1) as real * x == k as real * x + x
  {
    assert (k + 1) as real == k as real + 1.0;
  }

  lemma QuotientIff(total: real, k: nat, m: real)
    requires k > 0
    ensures Quotient(total, k) == m <==> total - k as real * m == 0.0
  {
    var r := k as real;
    assert total / r * r == total;
    if total - r * m == 0.0 {
      assert r * (total / r - m) == 0.0;
    }
  }

  /** The score of a version is the one number from which its scores deviate by
      nothing in total; a version without scored rows has none. */
  lemma MeanIff(evals: seq<Eval>, v: VersionId, m: real)
    ensures Average(evals, v).Some? <==> IsScored(evals, v)
    ensures Average(evals, v).Some? ==> (Average(evals, v) == Some(m) <==> Deviation(evals, v, m) == 0.0)
  {
    DeviationIs(evals, v, m);
    hide Deviation, Total, Number, IsScored, Quotient;
    if Number(evals, v) > 0 {
      QuotientIff(Total(evals, v), Number(evals, v), m);
    }
  }

  lemma MeanOrNothing(evals: seq<Eval>, v: VersionId)
    ensures Average(evals, v).Some? <==> IsScored(evals, v)
    ensures Average(evals, v).Some? ==> Deviation(evals, v, Average(evals, v).value) == 0.0
  {
    if Average(evals, v).Some? {
      MeanIff(evals, v, Average(evals, v).value);
    } else {
      MeanIff(evals, v, 0.0);
    }
  }

  lemma {:induction false} DeviationGrows(evals: seq<Eval>, v: VersionId, m: real)
    ensures IsScored(evals, v) && (forall e :: e in evals && Counts(e, v) ==> e.score.value > m) ==>
      Deviation(evals, v, m) > 0.0
    ensures IsScored(evals, v) && (forall e :: e in evals && Counts(e, v) ==> e.score.value < m) ==>
      Deviation(evals, v, m) < 0.0
    ensures !IsScored(evals, v) ==> Deviation(evals, v, m) == 0.0
  {
    if evals != [] {
      var front, last := evals[..|evals| - 1], evals[|evals| - 1];
      assert evals == front + [last];
      DeviationGrows(front, v, m);
    }
  }

  /** The score lies between a lowest and a highest score of the version's rows. */
  lemma MeanIsBetween(evals: seq<Eval>, v: VersionId)
    requires Average(evals, v).Some?
    ensures var m := Average(evals, v).value;
      && (exists e :: e in evals && e.version == Some(v) && e.score.Some? && e.score.value <= m)
      && (exists e :: e in evals && e.version == Some(v) && e.score.Some? && e.score.value >= m)
  {
    MeanOrNothing(evals, v);
    DeviationGrows(evals, v, Average(evals, v).value);
  }

  lemma {:induction false} DeviationWithout(evals: seq<Eval>, i: nat, v: VersionId, m: real)
    requires i < |evals|
    ensures var e := evals[i];
      Deviation(evals, v, m) == Deviation(evals[..i] + evals[i + 1..], v, m)
        + if e.version == Some(v) && e.score.Some? then e.score.value - m else 0.0
  {
    var n := |evals| - 1;
    if i == n {
      assert evals[..i] + evals[i + 1..] == evals[..n];
    } else {
      DeviationWithout(evals[..n], i, v, m);
      var rest := evals[..i] + evals[i + 1..];
      assert rest[..n - 1] == evals[..n][..i] + evals[..n][i + 1..] && rest[n - 1] == evals[n];
    }
  }

  lemma {:induction false} DeviationOfRows(a: seq<Eval>, b: seq<Eval>, v: VersionId, m: real)
    requires multiset(a) == multiset(b)
    ensures Deviation(a, v, m) == Deviation(b, v, m)
  {
    assert |a| == |multiset(a)| == |multiset(b)| == |b|;
    if a != [] {
      var front, last := a[..|a| - 1], a[|a| - 1];
      assert a == front + [last];
      assert last in multiset(b);
      var i :| 0 <= i < |b| && b[i] == last;
      assert b == b[..i] + [last] + b[i + 1..];
      assert multiset(b[..i] + b[i + 1..]) == multiset(b) - multiset{last} == multiset(front);
      DeviationOfRows(front, b[..i] + b[i + 1..], v, m);
      DeviationWithout(b, i, v, m);
    }
  }

  /** The order of the rows does not matter, nor do rows of other versions and
      rows without a score. */
  lemma OnlyScoredRowsMatter(a: seq<Eval>, b: seq<Eval>, other: Eval, v: VersionId)
    requires multiset(a) == multiset(b) && !(other.version == Some(v) && other.score.Some?)
    ensures Average(a + [other], v) == Average(b, v)
  {
    assert (a + [other])[..|a|] == a;
    assert forall e :: e in a <==> e in multiset(a);
    assert forall e :: e in b <==> e in multiset(b);
    MeanOrNothing(a, v);
    MeanOrNothing(b, v);
    if Average(b, v).Some? {
      var m := Average(b, v).value;
      DeviationOfRows(a, b, v, m);
      MeanIff(a, v, m);
    }
  }

  // ---- the imperative registry ---------------------------------------------------

  class PromptPack {
    const gate: Gate
    var champion: Option<VersionId>
    var challenger: Option<VersionId>
    var versions: seq<Version>
    var log: seq<Promotion>
    var evals: seq<Eval>

    ghost function State(): Registry
      reads this
    {
      Registry(champion, challenger, versions, log, evals)
    }

    constructor (gate: Gate)
      ensures this.gate == gate && State() == Registry(None, None, [], [], [])
    {
      this.gate := gate;
      champion, challenger, versions, log, evals := None, None, [], [], [];
    }

    method AvgScoreForVersion(v: Option<VersionId>) returns (score: Option<real>)
      ensures score == AverageOf(evals, v)
      ensures score.Some? <==> v.Some? && IsScored(evals, v.value)
      ensures score.Some? ==> Deviation(evals, v.value, score.value) == 0.0
    {
      if v.Some? {
        MeanOrNothing(evals, v.value);
      }
      if v.None? {
        return None;
      }
      var sum, count := 0.0, 0;
      for i := 0 to |evals|
        invariant sum == Total(evals[..i], v.value) && count == Number(evals[..i], v.value)
      {
        assert evals[..i + 1][..i] == evals[..i];
        if Counts(evals[i], v.value) {
          sum, count := sum + evals[i].score.value, count + 1;
        }
      }
      assert evals[..|evals|] == evals;
      score := if count == 0 then None else Some(sum / count as real);
    }

    method CreateVersion(id: VersionId, setAsChallenger: bool) returns (version: Version)
      modifies this
      ensures State() == Created(old(State()), id, setAsChallenger)
      ensures versions == old(versions) + [version] && version.id == id
      ensures forall w :: w in old(versions) ==> w.number < version.number
      ensures old(champion).None? ==> champion == Some(id) && challenger == old(challenger)
      ensures old(champion).Some? ==>
        champion == old(champion) && challenger == if setAsChallenger then Some(id) else old(challenger)
      ensures log == old(log) && evals == old(evals)
    {
      MaxIsLargest(versions);
      var max := 0;
      for i := 0 to |versions|
        invariant max == MaxNumber(versions[..i])
      {
        assert versions[..i + 1][..i] == versions[..i];
        if max < versions[i].number {
          max := versions[i].number;
        }
      }
      assert versions[..|versions|] == versions;
      version := Version(id, max + 1);
      versions := versions + [version];
      if champion.None? {
        champion := Some(id);
      } else if setAsChallenger {
        challenger := Some(id);
      }
    }

    method PromoteChallenger(to: VersionId, force: bool) returns (error: Option<PromotionError>)
      modifies this
      ensures error == PromotionRefusal(gate, old(State()), to, force)
      ensures State() == if error.None? then Promoted(old(State()), to) else old(State())
      ensures error == Some(UnknownVersion) <==> !Known(old(versions), to)
      ensures error.None? ==>
        && champion == Some(to) && log == old(log) + [Promotion(old(champion), to)]
        && challenger == (if old(challenger) == Some(to) then None else old(challenger))
        && versions == old(versions) && evals == old(evals)
    {
      if !Known(versions, to) {
        return Some(UnknownVersion);
      }
      var championScore := AvgScoreForVersion(champion);
      var challengerScore := AvgScoreForVersion(Some(to));
      if !force {
        if gate.requireNonRegression && championScore.Some? && challengerScore.Some?
           && challengerScore.value < championScore.value {
          return Some(Regression);
        }
        if championScore.Some? && challengerScore.Some? {
          var delta := challengerScore.value - championScore.value;
          if delta < gate.minDelta {
            return Some(DeltaTooSmall);
          }
        }
      }
      log := log + [Promotion(champion, to)];
      champion := Some(to);
      if challenger == Some(to) {
        challenger := None;
      }
      return None;
    }
  }

  // ---- every run ------------------------------------------------------------------

  datatype Step =
    | NewVersion(id: VersionId, setAsChallenger: bool)
    | Promote(to: VersionId, force: bool)
    | Evaluate(row: Eval)

  /** Version identifiers are new when they are used. */
  function Next(gate: Gate, s: Registry, step: Step): Registry {
    match step
    case NewVersion(id, setAsChallenger) => if Known(s.versions, id) then s else Created(s, id, setAsChallenger)
    case Promote(to, force) => if PromotionRefusal(gate, s, to, force).Some? then s else Promoted(s, to)
    case Evaluate(row) => s.(evals := s.evals + [row])
  }

  function Run(gate: Gate, s: Registry, steps: seq<Step>): Registry {
    if steps == [] then s else Next(gate, Run(gate, s, steps[..|steps| - 1]), steps[|steps| - 1])
  }

  /** The champion that the log of promotions leads to. */
  function Replay(first: VersionId, log: seq<Promotion>): VersionId {
    if log == [] then first else log[|log| - 1].to
  }

  /** Each promotion starts from the champion that the ones before it left. */
  predicate Linked(first: VersionId, log: seq<Promotion>) {
    forall i :: 0 <= i < |log| ==> log[i].from == Some(Replay(first, log[..i]))
  }

  ghost predicate Numbered(versions: seq<Version>) {
    && (forall i :: 0 <= i < |versions| ==> versions[i].number == i + 1)
    && (forall i, j :: 0 <= i < j < |versions| ==> versions[i].id != versions[j].id)
  }

  ghost predicate RolesOk(s: Registry) {
    && (s.champion.None? <==> s.versions == [])
    && (s.champion.Some? ==> Known(s.versions, s.champion.value))
    && (s.challenger.Some? ==> Known(s.versions, s.challenger.value) && s.challenger != s.champion)
  }

  ghost predicate LogOk(s: Registry) {
    && (forall p :: p in s.log ==> Known(s.versions, p.to))
    && if s.versions == [] then s.log == []
       else s.champion == Some(Replay(s.versions[0].id, s.log)) && Linked(s.versions[0].id, s.log)
  }

  ghost predicate Consistent(s: Registry) {
    Numbered(s.versions) && RolesOk(s) && LogOk(s)
  }

  lemma {:induction false} NumbersEndAtLength(versions: seq<Version>)
    requires forall i :: 0 <= i < |versions| ==> versions[i].number == i + 1
    ensures MaxNumber(versions) == |versions|
  {
    if versions != [] {
      NumbersEndAtLength(versions[..|versions| - 1]);
    }
  }

  lemma LinkedSnoc(first: VersionId, log: seq<Promotion>, to: VersionId)
    requires Linked(first, log)
    ensures Linked(first, log + [Promotion(Some(Replay(first, log)), to)])
  {
    var after := log + [Promotion(Some(Replay(first, log)), to)];
    forall i | 0 <= i < |after| ensures after[i].from == Some(Replay(first, after[..i])) {
      if i < |log| {
        assert after[..i] == log[..i];
      } else {
        assert after[..i] == log;
      }
    }
  }

  lemma CreationKeepsConsistent(s: Registry, id: VersionId, setAsChallenger: bool)
    requires Consistent(s) && !Known(s.versions, id)
    ensures Consistent(Created(s, id, setAsChallenger))
  {
    var after := Created(s, id, setAsChallenger);
    NumbersEndAtLength(s.versions);
    assert Numbered(after.versions);
    assert after.versions[|s.versions|] in after.versions;
    assert forall v :: Known(s.versions, v) ==> Known(after.versions, v) && v != id;
    hide Known, Linked, Numbered;
  }

  lemma PromotionKeepsConsistent(s: Registry, to: VersionId)
    requires Consistent(s) && Known(s.versions, to)
    ensures Consistent(Promoted(s, to))
  {
    hide Linked, Numbered;
    assert s.versions != [];
    LinkedSnoc(s.versions[0].id, s.log, to);
    hide Known;
  }

  lemma StepKeepsConsistent(gate: Gate, s: Registry, step: Step)
    requires Consistent(s)
    ensures Consistent(Next(gate, s, step))
  {
    match step {
      case NewVersion(id, setAsChallenger) =>
        hide Consistent, Known;
        if !Known(s.versions, id) {
          CreationKeepsConsistent(s, id, setAsChallenger);
        }
      case Promote(to, force) =>
        hide Consistent, Known;
        if PromotionRefusal(gate, s, to, force).None? {
          PromotionKeepsConsistent(s, to);
        }
      case Evaluate(_) =>
        hide Known, Linked, Numbered;
    }
  }

  /** In every run: versions are numbered 1 to n, champion and challenger never
      coincide, and replaying the log from the first version gives the champion. */
  lemma RunIsConsistent(gate: Gate, steps: seq<Step>)
    ensures Consistent(Run(gate, Registry(None, None, [], [], []), steps))
  {
    hide Run;
    RunKeepsConsistent(gate, Registry(None, None, [], [], []), steps);
  }

  // ---- unforced promotions climb -----------------------------------------------------

  /** An unforced promotion between scored versions goes through if and only if
      the score grows by the minimum delta, and does not fall where that is required. */
  lemma UnforcedIff(gate: Gate, s: Registry, to: VersionId)
    requires Known(s.versions, to) && AverageOf(s.evals, s.champion).Some? && Average(s.evals, to).Some?
    ensures var champion, challenger := AverageOf(s.evals, s.champion).value, Average(s.evals, to).value;
      && (PromotionRefusal(gate, s, to, false).None? <==>
            && challenger >= champion + gate.minDelta
            && (gate.requireNonRegression ==> challenger >= champion))
      && (gate.minDelta >= 0.0 ==>
            (PromotionRefusal(gate, s, to, false).None? <==> challenger >= champion + gate.minDelta))
  {
  }

  /** So what an unforced promotion compares are the means: m and n are the two
      numbers from which the scores of champion and target deviate by nothing. */
  lemma PromotionComparesMeans(gate: Gate, s: Registry, to: VersionId, m: real, n: real)
    requires Known(s.versions, to) && s.champion.Some?
    requires Deviation(s.evals, s.champion.value, m) == 0.0 && Deviation(s.evals, to, n) == 0.0
    ensures var scored := IsScored(s.evals, s.champion.value) && IsScored(s.evals, to);
      && (PromotionRefusal(gate, s, to, false) == Some(Regression) <==> scored && gate.requireNonRegression && n < m)
      && (PromotionRefusal(gate, s, to, false) == Some(DeltaTooSmall) <==>
            scored && n - m < gate.minDelta && !(gate.requireNonRegression && n < m))
      && (PromotionRefusal(gate, s, to, false).None? <==>
            !scored || (n >= m + gate.minDelta && (gate.requireNonRegression ==> n >= m)))
  {
    MeanIff(s.evals, s.champion.value, m);
    MeanIff(s.evals, to, n);
    hide Average, Known, Deviation, IsScored;
  }

  /** Neither forced nor between versions of which one has no score. */
  ghost predicate Scored(s: Registry, step: Step, score: map<VersionId, real>) {
    step.Promote? ==>
      && !step.force
      && (Known(s.versions, step.to) && s.champion.Some? ==>
            && s.champion.value in score && step.to in score
            && Average(s.evals, s.champion.value) == Some(score[s.champion.value])
            && Average(s.evals, step.to) == Some(score[step.to]))
  }

  ghost predicate AllScored(gate: Gate, s: Registry, steps: seq<Step>, score: map<VersionId, real>) {
    steps != [] ==>
      && Scored(Run(gate, s, steps[..|steps| - 1]), steps[|steps| - 1], score)
      && AllScored(gate, s, steps[..|steps| - 1], score)
  }

  predicate Raises(p: Promotion, score: map<VersionId, real>, delta: real) {
    p.from.Some? && p.from.value in score && p.to in score && score[p.to] >= score[p.from.value] + delta
  }

  lemma StepClimbs(gate: Gate, s: Registry, step: Step, score: map<VersionId, real>)
    requires s.champion.Some? && Scored(s, step, score)
    ensures var after := Next(gate, s, step);
      && after.champion.Some? && |after.versions| >= |s.versions|
      && ((after.log == s.log && after.champion == s.champion)
          || (after.log == s.log + [Promotion(s.champion, after.champion.value)]
              && Raises(Promotion(s.champion, after.champion.value), score, gate.minDelta)))
  {
    hide Average, Known;
  }

  function Times(k: int, x: real): real {
    k as real * x
  }

  lemma TimesOneMore(k: int, x: real)
    ensures Times(k + 1, x) == Times(k, x) + x && Times(0, x) == 0.0
  {
  }

  /** A run only appends to the log, and what it appends starts from the
      champion it found, ends at the one it leaves and rises all the way. */
  lemma {:induction false} RunAppendsRaises(gate: Gate, s: Registry, steps: seq<Step>, score: map<VersionId, real>)
    requires s.champion.Some? && AllScored(gate, s, steps, score)
    ensures var after := Run(gate, s, steps);
      && |after.log| >= |s.log| && after.log[..|s.log|] == s.log
      && after.champion == Some(Replay(s.champion.value, after.log[|s.log|..]))
      && Linked(s.champion.value, after.log[|s.log|..])
      && (forall p :: p in after.log[|s.log|..] ==> Raises(p, score, gate.minDelta))
  {
    hide Next, Scored, Raises;
    if steps != [] {
      var front, last := steps[..|steps| - 1], steps[|steps| - 1];
      RunAppendsRaises(gate, s, front, score);
      var before := Run(gate, s, front);
      var after := Run(gate, s, steps);
      StepClimbs(gate, before, last, score);
      var n := |s.log|;
      if after.log != before.log {
        LinkedSnoc(s.champion.value, before.log[n..], after.champion.value);
        assert after.log[n..] == before.log[n..] + [Promotion(before.champion, after.champion.value)];
      }
      hide Linked;
    }
  }

  lemma LinkedFront(first: VersionId, log: seq<Promotion>)
    requires Linked(first, log) && log != []
    ensures Linked(first, log[..|log| - 1])
    ensures log[|log| - 1].from == Some(Replay(first, log[..|log| - 1]))
  {
    var front := log[..|log| - 1];
    forall i | 0 <= i < |front| ensures front[i].from == Some(Replay(first, front[..i])) {
      assert front[..i] == log[..i];
    }
  }

  lemma {:induction false} ScoreGrows(first: VersionId, log: seq<Promotion>, score: map<VersionId, real>, delta: real)
    requires Linked(first, log) && log != []
    requires forall p :: p in log ==> Raises(p, score, delta)
    ensures first in score && Replay(first, log) in score
    ensures score[Replay(first, log)] >= score[first] + Times(|log|, delta)
  {
    var front, last := log[..|log| - 1], log[|log| - 1];
    LinkedFront(first, log);
    hide Linked;
    assert last in log;
    assert forall p :: p in front ==> p in log;
    TimesOneMore(|front|, delta);
    hide Times;
    if front != [] {
      ScoreGrows(first, front, score, delta);
    }
  }

  /** k unforced promotions raise the score of the champion by at least k times
      the minimum delta. */
  lemma {:induction false} PromotionsClimb(gate: Gate, s: Registry, steps: seq<Step>, score: map<VersionId, real>)
    requires s.champion.Some? && AllScored(gate, s, steps, score)
    ensures var after := Run(gate, s, steps);
      && |after.log| >= |s.log|
      && (|after.log| == |s.log| ==> after.champion == s.champion)
      && (|after.log| > |s.log| ==>
            && s.champion.value in score && after.champion.Some? && after.champion.value in score
            && score[after.champion.value] >= score[s.champion.value] + Times(|after.log| - |s.log|, gate.minDelta))
  {
    hide Run, AllScored, Raises, Linked;
    RunAppendsRaises(gate, s, steps, score);
    var after := Run(gate, s, steps);
    if |after.log| > |s.log| {
      ScoreGrows(s.champion.value, after.log[|s.log|..], score, gate.minDelta);
    }
  }

  /** The champion before any of the promotions and after each of them. */
  function Champions(first: VersionId, log: seq<Promotion>): seq<VersionId> {
    [first] + seq(|log|, i requires 0 <= i < |log| => log[i].to)
  }

  lemma {:induction false} ChampionsRise(first: VersionId, log: seq<Promotion>, score: map<VersionId, real>,
      delta: real, i: nat, j: nat)
    requires delta > 0.0 && Linked(first, log) && i < j <= |log|
    requires forall p :: p in log ==> Raises(p, score, delta)
    ensures var c := Champions(first, log);
      c[i] in score && c[j] in score && score[c[i]] < score[c[j]]
    decreases j
  {
    var p := log[j - 1];
    assert p in log;
    assert p.from == Some(Replay(first, log[..j - 1])) && Replay(first, log[..j - 1]) == Champions(first, log)[j - 1];
    if i < j - 1 {
      ChampionsRise(first, log, score, delta, i, j - 1);
    }
  }

  function VersionIds(versions: seq<Version>): (r: set<VersionId>)
    ensures |r| <= |versions|
    ensures forall v :: v in r <==> Known(versions, v)
  {
    if versions == [] then {}
    else
      assert versions == versions[..|versions| - 1] + [versions[|versions| - 1]];
      VersionIds(versions[..|versions| - 1]) + {versions[|versions| - 1].id}
  }

  lemma ChampionsAreKnown(first: VersionId, log: seq<Promotion>, versions: seq<Version>)
    requires Known(versions, first) && forall p :: p in log ==> Known(versions, p.to)
    ensures Elements(Champions(first, log)) <= VersionIds(versions)
  {
    hide Known;
    var c := Champions(first, log);
    forall v | v in c ensures v in VersionIds(versions) {
      var i :| 0 <= i < |c| && c[i] == v;
      if i > 0 {
        assert log[i - 1] in log;
      }
    }
  }

  /** With a positive minimum delta no version becomes champion twice, so the
      unforced promotions are fewer than the versions. */
  lemma NoChampionTwice(gate: Gate, s: Registry, steps: seq<Step>, score: map<VersionId, real>)
    requires Consistent(s) && s.champion.Some? && AllScored(gate, s, steps, score) && gate.minDelta > 0.0
    ensures var after := Run(gate, s, steps);
      && NeverTwice(gate, s, steps)
      && |after.log| - |s.log| <= |after.versions| - 1
  {
    hide Next, Run, AllScored, Average, Linked;
    var after := Run(gate, s, steps);
    RunAppendsRaises(gate, s, steps, score);
    var first, log := s.champion.value, after.log[|s.log|..];
    var c := Champions(first, log);
    forall i, j | 0 <= i < j < |c| ensures c[i] != c[j] {
      ChampionsRise(first, log, score, gate.minDelta, i, j);
    }
    hide Raises;
    RunKeepsConsistent(gate, s, steps);
    assert forall p :: p in log ==> p in after.log;
    hide Linked;
    ChampionsAreKnown(first, log, after.versions);
    DistinctFits(c, VersionIds(after.versions));
  }

  lemma {:induction false} RunKeepsConsistent(gate: Gate, s: Registry, steps: seq<Step>)
    requires Consistent(s)
    ensures Consistent(Run(gate, s, steps))
    ensures forall v :: Known(s.versions, v) ==> Known(Run(gate, s, steps).versions, v)
  {
    hide Consistent;
    if steps != [] {
      RunKeepsConsistent(gate, s, steps[..|steps| - 1]);
      var before := Run(gate, s, steps[..|steps| - 1]);
      StepKeepsConsistent(gate, before, steps[|steps| - 1]);
      forall v | Known(before.versions, v) ensures Known(Next(gate, before, steps[|steps| - 1]).versions, v) {
        var w :| w in before.versions && w.id == v;
        assert w in Next(gate, before, steps[|steps| - 1]).versions;
      }
    }
  }

  /** Without a positive minimum delta the champion can follow itself: the
      bound above holds for this configuration and no other. */
  lemma ChampionMayRepeatIff(gate: Gate, s: Registry)
    requires s.champion.Some? && Known(s.versions, s.champion.value) && Average(s.evals, s.champion.value).Some?
    ensures PromotionRefusal(gate, s, s.champion.value, false).None? <==> gate.minDelta <= 0.0
  {
    hide Known, Average, PromotionRefusal;
    UnforcedIff(gate, s, s.champion.value);
  }

  /** One version, champion and scored. */
  function OneChampion(): Registry {
    Registry(Some(1), None, [Version(1, 1)], [], [Eval(Some(1), Some(1.0))])
  }

  lemma OneChampionIsScored()
    ensures Consistent(OneChampion()) && Known(OneChampion().versions, 1)
    ensures Average(OneChampion().evals, 1) == Some(1.0)
  {
    var s := OneChampion();
    assert s.evals[..0] == [];
    assert Number(s.evals, 1) == 1 && Total(s.evals, 1) == 1.0;
    assert s.versions[0] in s.versions;
  }

  /** Over runs: unforced promotions between scored versions never return to a
      version if and only if the minimum delta is positive. */
  lemma NeverTwiceIff(gate: Gate)
    ensures gate.minDelta > 0.0 <==>
      forall s, steps, score :: Consistent(s) && s.champion.Some? && AllScored(gate, s, steps, score) ==>
        NeverTwice(gate, s, steps)
  {
    hide Consistent, AllScored, NeverTwice;
    if gate.minDelta > 0.0 {
      forall s, steps, score | Consistent(s) && s.champion.Some? && AllScored(gate, s, steps, score)
        ensures NeverTwice(gate, s, steps)
      {
        NoChampionTwice(gate, s, steps, score);
      }
    } else {
      ChampionRepeats(gate);
      OneChampionIsScored();
      assert AllScored(gate, OneChampion(), [Promote(1, false)], map[1 := 1.0]);
    }
  }

  ghost predicate NeverTwice(gate: Gate, s: Registry, steps: seq<Step>)
    requires s.champion.Some?
  {
    var log := Run(gate, s, steps).log;
    |log| >= |s.log| && Distinct(Champions(s.champion.value, log[|s.log|..]))
  }

  lemma ChampionRepeats(gate: Gate)
    requires gate.minDelta <= 0.0
    ensures AllScored(gate, OneChampion(), [Promote(1, false)], map[1 := 1.0])
    ensures !NeverTwice(gate, OneChampion(), [Promote(1, false)])
  {
    var s, steps := OneChampion(), [Promote(1, false)];
    OneChampionIsScored();
    hide Average, Known, Consistent;
    assert steps[..0] == [] && Run(gate, s, steps[..0]) == s;
    ChampionMayRepeatIff(gate, s);
    assert Run(gate, s, steps) == Promoted(s, 1);
    var champions := Champions(1, [Promotion(Some(1), 1)]);
    assert champions[0] == champions[1];
    assert Promoted(s, 1).log[0..] == [Promotion(Some(1), 1)];
  }
}
