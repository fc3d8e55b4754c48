// reference/run-12.py: the run driver rests each cache group between legs; and
// reference/gen-12run-report.py, section 4: how the report accounts for the legs it ran.
module CacheGap {
  import opened PyStrings
  import opened Sequences
  import opened Wrappers

  // ---------------------------------------------------------------- cache groups

  // What of a leg's spec decides its group; a missing or empty string is falsy.
  datatype Spec = Spec(
    bench: string,
    llmGateway: string,
    model: string,
    modelOverride: string,
    runModel: string)

  function Or(a: string, b: string): string {
    if a != "" then a else b
  }

  function EffectiveModel(s: Spec): string {
    Or(Or(s.model, s.modelOverride), Or(s.runModel, "default"))
  }

  function CacheGroup(s: Spec): string {
    Or(s.llmGateway, "instance") + ":" + s.bench + ":" + EffectiveModel(s)
  }

  // The model a leg runs, in any of the three spellings: the first that is set decides, and without any
  // it is the deployed default.
  predicate RunsModel(s: Spec, model: string) {
    if s.model != "" then model == s.model
    else if s.modelOverride != "" then model == s.modelOverride
    else if s.runModel != "" then model == s.runModel
    else model == "default"
  }

  lemma RunsItsModel(s: Spec, model: string)
    ensures RunsModel(s, model) <==> model == EffectiveModel(s)
  {
  }

  // However a model is spelt, the leg is in its group; what stands behind the first spelling does not matter.
  lemma SpellingsShareGroup(bench: string, gateway: string, m: string, x: string, y: string)
    requires m != ""
    ensures CacheGroup(Spec(bench, gateway, m, x, y)) == CacheGroup(Spec(bench, gateway, "", m, y))
    ensures CacheGroup(Spec(bench, gateway, "", m, y)) == CacheGroup(Spec(bench, gateway, "", "", m))
    ensures CacheGroup(Spec(bench, gateway, "", "", "")) == CacheGroup(Spec(bench, gateway, "default", x, y))
    ensures gateway != "" ==> CacheGroup(Spec(bench, gateway, "", "", m)) == gateway + ":" + bench + ":" + m
    ensures gateway == "" ==> CacheGroup(Spec(bench, gateway, "", "", m)) == "instance:" + bench + ":" + m
  {
    assert "instance" + ":" == "instance:";
  }

  // Without colons in gateway and benchmark, legs of different models never share a group.
  lemma ModelsApart(s: Spec, t: Spec, m: string, n: string)
    requires ':' !in s.llmGateway + s.bench && ':' !in t.llmGateway + t.bench
    requires RunsModel(s, m) && RunsModel(t, n) && m != n
    ensures CacheGroup(s) != CacheGroup(t)
  {
    PlainGroupsExact(s, t);
    RunsItsModel(s, m);
    RunsItsModel(t, n);
  }

  // One gateway, benchmark and effective model.
  predicate SameRequests(s: Spec, t: Spec) {
    && Or(s.llmGateway, "instance") == Or(t.llmGateway, "instance")
    && s.bench == t.bench && EffectiveModel(s) == EffectiveModel(t)
  }

  predicate SameColons(s: Spec, t: Spec) {
    && Count(Or(s.llmGateway, "instance"), ':') == Count(Or(t.llmGateway, "instance"), ':')
    && Count(s.bench, ':') == Count(t.bench, ':')
  }

  // Two legs make the same requests exactly when they share a group and as many colons stand in
  // their gateway labels and in their benchmark names.
  lemma GroupsExact(s: Spec, t: Spec)
    ensures SameRequests(s, t) <==> CacheGroup(s) == CacheGroup(t) && SameColons(s, t)
  {
    var g, h := Or(s.llmGateway, "instance"), Or(t.llmGateway, "instance");
    var rest, other := s.bench + ":" + EffectiveModel(s), t.bench + ":" + EffectiveModel(t);
    assert CacheGroup(s) == g + [':'] + rest && CacheGroup(t) == h + [':'] + other;
    if CacheGroup(s) == CacheGroup(t) && SameColons(s, t) {
      CutAtSeparator(g, rest, h, other, ':');
      assert rest == s.bench + [':'] + EffectiveModel(s) && other == t.bench + [':'] + EffectiveModel(t);
      CutAtSeparator(s.bench, EffectiveModel(s), t.bench, EffectiveModel(t), ':');
    }
  }

  // Without colons there a group is exactly that.
  lemma PlainGroupsExact(s: Spec, t: Spec)
    requires ':' !in s.llmGateway + s.bench && ':' !in t.llmGateway + t.bench
    ensures CacheGroup(s) == CacheGroup(t) <==> SameRequests(s, t)
  {
    GroupsExact(s, t);
    assert ':' !in "instance";
    NoneCounted(Or(s.llmGateway, "instance"), ':');
    NoneCounted(Or(t.llmGateway, "instance"), ':');
    NoneCounted(s.bench, ':');
    NoneCounted(t.bench, ':');
  }

  const LABEL_START: CharTest := c => 'a' <= c <= 'z' || '0' <= c <= '9'
  const LABEL_CHAR: CharTest := c => LABEL_START(c) || c == '.' || c == '_' || c == '-'

  // The gateway labels a deploy request may carry, GATEWAY_LABEL_RE of src/autobench/models.py: a
  // dollar also matches before a line feed at the end.
  predicate Accepted(gateway: string) {
    var text := if gateway != "" && gateway[|gateway| - 1] == '\n' then gateway[..|gateway| - 1] else gateway;
    1 <= |text| <= 63 && LABEL_START(text[0]) && All(text, LABEL_CHAR)
  }

  // One to 63 small letters, digits, dots, underscores and dashes, the first of them a letter or digit.
  lemma AcceptedIff(gateway: string)
    requires gateway != "" ==> gateway[|gateway| - 1] != '\n'
    ensures Accepted(gateway)
      <==> && 1 <= |gateway| <= 63 && gateway[0] !in "._-"
           && forall i :: 0 <= i < |gateway| ==>
                'a' <= gateway[i] <= 'z' || '0' <= gateway[i] <= '9' || gateway[i] in "._-"
  {
    assert forall c :: LABEL_CHAR(c) <==> 'a' <= c <= 'z' || '0' <= c <= '9' || c in "._-";
  }

  // For the legs the Service accepts, only the benchmark names matter.
  lemma AcceptedGroupsExact(s: Spec, t: Spec)
    requires (s.llmGateway == "" || Accepted(s.llmGateway)) && (t.llmGateway == "" || Accepted(t.llmGateway))
    ensures SameRequests(s, t) <==> CacheGroup(s) == CacheGroup(t) && Count(s.bench, ':') == Count(t.bench, ':')
  {
    GroupsExact(s, t);
    PlainLabel(s.llmGateway);
    PlainLabel(t.llmGateway);
  }

  lemma PlainLabel(gateway: string)
    requires gateway == "" || Accepted(gateway)
    ensures Count(Or(gateway, "instance"), ':') == 0
  {
    assert ':' !in "instance";
    assert !LABEL_CHAR(':');
    NoneCounted(Or(gateway, "instance"), ':');
  }

  // The function itself prints one key for two legs that have nothing in common but the model. The
  // Service refuses the label of the first, so that leg ends as a failed deployment.
  lemma ColonsCollide(s: Spec, t: Spec)
    requires s == Spec("c", "a:b", "m", "", "") && t == Spec("b:c", "a", "m", "", "")
    ensures CacheGroup(s) == CacheGroup(t) && !SameRequests(s, t)
    ensures !Accepted(s.llmGateway) && Accepted(t.llmGateway)
  {
    assert s.llmGateway[1] == ':';
    assert CacheGroup(s) == "a:b:c:m" == CacheGroup(t);
    assert |s.bench| != |t.bench|;
  }

  // ---------------------------------------------------------------- one run of the driver

  // One executed leg: when the driver looked at the clock, how long it then slept, when the leg
  // began, and the time written to last_finish once it had returned or thrown.
  datatype Leg = Leg(n: int, group: string, arrive: real, slept: real, start: real, recorded: real, threw: bool)

  function LastFinish(legs: seq<Leg>): map<string, real> {
    if legs == [] then map[]
    else
      var last := legs[|legs| - 1];
      LastFinish(legs[..|legs| - 1])[last.group := last.recorded]
  }

  // wait_out_cache as a rule on the time it reads.
  function Rest(group: string, now: real, lastFinish: map<string, real>, gap: real): real {
    if gap <= 0.0 || group !in lastFinish || now - lastFinish[group] >= gap then 0.0
    else gap - (now - lastFinish[group])
  }

  // A leg the driver could run after these.
  predicate Follows(before: seq<Leg>, leg: Leg, gap: real) {
    && leg.slept == Rest(leg.group, leg.arrive, LastFinish(before), gap)
    && (before != [] ==> before[|before| - 1].recorded <= leg.arrive)
    && leg.arrive + leg.slept <= leg.start <= leg.recorded
  }

  predicate ValidRun(legs: seq<Leg>, gap: real) {
    legs == [] || (ValidRun(legs[..|legs| - 1], gap) && Follows(legs[..|legs| - 1], legs[|legs| - 1], gap))
  }

  // The clock, and everything that takes time: any amount of it, but never backwards.
  class Clock {
    var now: real

    constructor ()
    {
      now := 0.0;
    }

    method Time() returns (t: real)
      modifies this
      ensures t == now >= old(now)
    {
      var passed: real :| passed >= 0.0;
      now := now + passed;
      t := now;
    }

    method Sleep(seconds: real)
      requires seconds >= 0.0
      modifies this
      ensures now >= old(now) + seconds
    {
      var over: real :| over >= 0.0;
      now := now + seconds + over;
    }

    // token(), execute(): they take time and may throw.
    method Call() returns (threw: bool)
      modifies this
      ensures now >= old(now)
    {
      var passed: real :| passed >= 0.0;
      now := now + passed;
      threw :| true;
    }
  }

  function Selected(order: seq<int>, only: Option<set<int>>): seq<int> {
    if order == [] then []
    else if only.Some? && order[0] !in only.value then Selected(order[1..], only)
    else [order[0]] + Selected(order[1..], only)
  }

  lemma {:induction false} SelectedUpTo(order: seq<int>, i: nat, only: Option<set<int>>)
    requires i < |order|
    ensures Selected(order[..i + 1], only)
         == Selected(order[..i], only) + if only.Some? && order[i] !in only.value then [] else [order[i]]
    ensures Selected(order[..i], only) <= Selected(order, only)
  {
    if i == 0 {
      assert order[..1][1..] == [];
    } else {
      SelectedUpTo(order[1..], i - 1, only);
      assert order[..i + 1][1..] == order[1..][..i] && order[..i][1..] == order[1..][..i - 1];
    }
  }

  function Numbers(legs: seq<Leg>): seq<int> {
    seq(|legs|, i requires 0 <= i < |legs| => legs[i].n)
  }

  lemma LegAppended(legs: seq<Leg>, leg: Leg, gap: real)
    requires ValidRun(legs, gap) && Follows(legs, leg, gap)
    ensures ValidRun(legs + [leg], gap)
    ensures LastFinish(legs + [leg]) == LastFinish(legs)[leg.group := leg.recorded]
    ensures Numbers(legs + [leg]) == Numbers(legs) + [leg.n]
  {
    assert (legs + [leg])[..|legs|] == legs;
  }

  // The groups of the legs are those of their specs.
  predicate FromSpecs(legs: seq<Leg>, specs: map<int, Spec>) {
    forall l :: l in legs ==> l.n in specs && l.group == CacheGroup(specs[l.n])
  }

  class Driver {
    const gap: real
    const specs: map<int, Spec>
    const clock: Clock
    var lastFinish: map<string, real>
    var legs: seq<Leg>

    constructor (gap: real, specs: map<int, Spec>, clock: Clock)
      ensures this.gap == gap && this.specs == specs && this.clock == clock
      ensures lastFinish == map[] && legs == []
    {
      this.gap, this.specs, this.clock := gap, specs, clock;
      lastFinish, legs := map[], [];
    }

    ghost predicate Valid()
      reads this, clock
    {
      && lastFinish == LastFinish(legs)
      && ValidRun(legs, gap)
      && (legs != [] ==> legs[|legs| - 1].recorded <= clock.now)
      && FromSpecs(legs, specs)
    }

    method WaitOutCache(spec: Spec) returns (arrive: real, slept: real)
      modifies clock
      ensures old(clock.now) <= arrive && arrive + slept <= clock.now
      ensures slept == Rest(CacheGroup(spec), arrive, lastFinish, gap)
    {
      if gap <= 0.0 {
        return clock.now, 0.0;
      }
      var key := CacheGroup(spec);
      arrive := clock.Time();
      if key !in lastFinish || arrive - lastFinish[key] >= gap {
        return arrive, 0.0;
      }
      slept := gap - (arrive - lastFinish[key]);
      clock.Sleep(slept);
    }

    // The body of the leg loop: false when no token could be had, which ends the run.
    method RunLeg(n: int) returns (ran: bool)
      requires Valid() && n in specs
      modifies this, clock
      ensures Valid()
      ensures if ran then |legs| == |old(legs)| + 1 && legs[..|old(legs)|] == old(legs) && legs[|old(legs)|].n == n
              else legs == old(legs)
      ensures Numbers(legs) == Numbers(old(legs)) + if ran then [n] else []
    {
      var spec := specs[n];
      var arrive, slept := WaitOutCache(spec);
      var noToken := clock.Call();
      if noToken {
        return false;
      }
      var start := clock.now;
      var threw := clock.Call();
      var recorded := clock.Time();
      Record(Leg(n, CacheGroup(spec), arrive, slept, start, recorded, threw));
      ran := true;
    }

    method Record(leg: Leg)
      requires Valid() && Follows(legs, leg, gap) && leg.recorded <= clock.now
      requires leg.n in specs && leg.group == CacheGroup(specs[leg.n])
      modifies this
      ensures Valid() && legs == old(legs) + [leg]
      ensures Numbers(legs) == Numbers(old(legs)) + [leg.n]
    {
      LegAppended(legs, leg, gap);
      lastFinish := lastFinish[leg.group := leg.recorded];
      legs := legs + [leg];
    }

    // The leg loop of main.  A leg that throws is recorded like any other; an unknown leg number
    // or a token that cannot be had ends the run where it is.
    method RunLegs(order: seq<int>, only: Option<set<int>>) returns (finished: bool)
      requires Valid() && legs == []
      modifies this, clock
      ensures Valid()
      ensures Numbers(legs) <= Selected(order, only)
      ensures finished ==> Numbers(legs) == Selected(order, only)
      ensures gap > 0.0 ==> Spaced(legs, gap)
    {
      AllSpaced(legs, gap);
      for i := 0 to |order|
        invariant Valid()
        invariant Numbers(legs) == Selected(order[..i], only)
        invariant gap > 0.0 ==> Spaced(legs, gap)
      {
        var n := order[i];
        SelectedUpTo(order, i, only);
        if only.Some? && n !in only.value {
          continue;
        }
        if n !in specs {
          return false;
        }
        var ran := RunLeg(n);
        AllSpaced(legs, gap);
        if !ran {
          return false;
        }
      }
      assert order[..|order|] == order;
      finished := true;
    }
  }

  // ---------------------------------------------------------------- what every run keeps

  lemma {:induction false} ValidPrefix(legs: seq<Leg>, gap: real, k: nat)
    requires ValidRun(legs, gap) && k < |legs|
    ensures ValidRun(legs[..k], gap) && Follows(legs[..k], legs[k], gap)
    decreases |legs|
  {
    if k >= |legs| - 1 {
    } else {
      ValidPrefix(legs[..|legs| - 1], gap, k);
      assert legs[..|legs| - 1][..k] == legs[..k];
    }
  }

  // Time only moves forward from leg to leg.
  lemma {:induction false} InTimeOrder(legs: seq<Leg>, gap: real, i: nat, j: nat)
    requires ValidRun(legs, gap) && i < j < |legs|
    ensures legs[i].recorded <= legs[j].arrive
    decreases j
  {
    ValidPrefix(legs, gap, j);
    assert legs[..j][j - 1] == legs[j - 1];
    if i >= j - 1 {
    } else {
      InTimeOrder(legs, gap, i, j - 1);
      ValidPrefix(legs, gap, j - 1);
      RestIsBounded(legs, gap, j - 1);
    }
  }

  // last_finish holds the latest finish of every group that ran.
  lemma {:induction false} LatestOfGroup(legs: seq<Leg>, gap: real, i: nat)
    requires ValidRun(legs, gap) && i < |legs|
    ensures legs[i].group in LastFinish(legs) && LastFinish(legs)[legs[i].group] >= legs[i].recorded
    decreases |legs|
  {
    var n := |legs| - 1;
    if i >= n {
    } else {
      ValidPrefix(legs, gap, n);
      LatestOfGroup(legs[..n], gap, i);
      InTimeOrder(legs, gap, i, n);
      RestIsBounded(legs, gap, n);
    }
  }

  // Only a group that ran before is waited for, and never longer than what is left of its gap.
  lemma RestIsBounded(legs: seq<Leg>, gap: real, k: nat)
    requires ValidRun(legs, gap) && k < |legs|
    ensures legs[k].slept >= 0.0
    ensures legs[k].slept > 0.0 ==>
      var last := LastFinish(legs[..k]);
      && legs[k].group in last
      && (exists i :: 0 <= i < k && legs[i].group == legs[k].group)
      && legs[k].arrive - last[legs[k].group] < gap
      && legs[k].slept == gap - (legs[k].arrive - last[legs[k].group])
  {
    ValidPrefix(legs, gap, k);
    if legs[k].group in LastFinish(legs[..k]) {
      FinishedGroups(legs[..k], legs[k].group);
      var i :| 0 <= i < k && legs[..k][i].group == legs[k].group;
      assert legs[i].group == legs[k].group;
    }
  }

  lemma {:induction false} FinishedGroups(legs: seq<Leg>, group: string)
    ensures group in LastFinish(legs) <==> exists i :: 0 <= i < |legs| && legs[i].group == group
  {
    if legs == [] {
    } else {
      var n := |legs| - 1;
      FinishedGroups(legs[..n], group);
      if group in LastFinish(legs[..n]) {
        var i :| 0 <= i < n && legs[..n][i].group == group;
        assert legs[i].group == group;
      }
      if i :| 0 <= i < n && legs[i].group == group {
        assert legs[..n][i].group == group;
      }
    }
  }

  // A leg starts at least a gap after every earlier leg of its group finished.
  predicate Spaced(legs: seq<Leg>, gap: real) {
    forall i, j :: 0 <= i < j < |legs| && legs[i].group == legs[j].group ==>
      legs[j].start >= legs[i].recorded + gap
  }

  // The safety of the whole run, whatever ran in between, and whether or not a leg threw.
  lemma AllSpaced(legs: seq<Leg>, gap: real)
    requires ValidRun(legs, gap)
    ensures gap > 0.0 ==> Spaced(legs, gap)
  {
    if gap > 0.0 {
      forall i, j | 0 <= i < j < |legs| && legs[i].group == legs[j].group
        ensures legs[j].start >= legs[i].recorded + gap
      {
        GapKept(legs, gap, i, j);
      }
    }
  }

  lemma GapKept(legs: seq<Leg>, gap: real, i: nat, j: nat)
    requires ValidRun(legs, gap) && gap > 0.0 && i < j < |legs| && legs[i].group == legs[j].group
    ensures legs[j].start >= legs[i].recorded + gap
  {
    ValidPrefix(legs, gap, j);
    assert legs[..j][i] == legs[i];
    LatestOfGroup(legs[..j], gap, i);
  }

  // Two legs of one gateway and benchmark that run one model, in whatever spelling, are spaced.
  lemma RequestsSpaced(legs: seq<Leg>, specs: map<int, Spec>, gap: real, i: nat, j: nat, model: string)
    requires ValidRun(legs, gap) && gap > 0.0 && FromSpecs(legs, specs) && i < j < |legs|
    requires var s, t := specs[legs[i].n], specs[legs[j].n];
      && s.llmGateway == t.llmGateway && s.bench == t.bench
      && RunsModel(s, model) && RunsModel(t, model)
    ensures legs[j].start >= legs[i].recorded + gap
  {
    RunsItsModel(specs[legs[i].n], model);
    RunsItsModel(specs[legs[j].n], model);
    GapKept(legs, gap, i, j);
  }

  // ---------------------------------------------------------------- the report's account of a run

  // round(x, 1): to the nearest tenth, halves to the even one.
  function Rounded(x: real): real {
    var tenths := (x * 10.0).Floor;
    var rest := x * 10.0 - tenths as real;
    (if rest < 0.5 || (rest == 0.5 && tenths % 2 == 0) then tenths else tenths + 1) as real / 10.0
  }

  // A leg the report counts as having waited.
  predicate Waited(leg: Leg) {
    Rounded(leg.slept) > 0.0
  }

  // Half a tenth of a second is the least that is not rounded away.
  lemma WaitedIff(leg: Leg)
    ensures Waited(leg) <==> leg.slept > 0.05
  {
    var tenths := (leg.slept * 10.0).Floor;
    if leg.slept > 0.05 {
      assert tenths >= 0;
    } else {
      assert tenths <= 0;
    }
  }

  // The group of the first run of this leg number.
  function GroupOf(runs: seq<Leg>, n: int): Option<string> {
    if runs == [] then None else if runs[0].n == n then Some(runs[0].group) else GroupOf(runs[1..], n)
  }

  function CountWaited(runs: seq<Leg>): nat {
    if runs == [] then 0
    else CountWaited(runs[..|runs| - 1]) + if Waited(runs[|runs| - 1]) then 1 else 0
  }

  function WaitingPlaces(runs: seq<Leg>): set<nat> {
    set i | 0 <= i < |runs| && runs[i].slept > 0.05
  }

  lemma {:induction false} CountWaitedIs(runs: seq<Leg>)
    ensures CountWaited(runs) == |WaitingPlaces(runs)|
  {
    if runs == [] {
    } else {
      var n := |runs| - 1;
      CountWaitedIs(runs[..n]);
      WaitedIff(runs[n]);
      PlacesNext(runs, n);
    }
  }

  lemma PlacesNext(runs: seq<Leg>, n: nat)
    requires |runs| == n + 1
    ensures n !in WaitingPlaces(runs[..n])
    ensures WaitingPlaces(runs) == WaitingPlaces(runs[..n]) + if runs[n].slept > 0.05 then {n} else {}
  {
    forall i: nat ensures i in WaitingPlaces(runs[..n]) <==> i < n && i in WaitingPlaces(runs) {
      if i < n {
        assert runs[..n][i] == runs[i];
      }
    }
  }

  function Groups(runs: seq<Leg>): set<string> {
    set r | r in runs :: r.group
  }

  // The groups the loop over the order finds a run for.
  function SeenGroups(order: seq<int>, runs: seq<Leg>): set<string> {
    set n | n in order && GroupOf(runs, n).Some? :: GroupOf(runs, n).value
  }

  method CountLegs(order: seq<int>, runs: seq<Leg>) returns (slept: nat, first: nat, covered: int)
    ensures slept == CountWaited(runs) && first == |SeenGroups(order, runs)|
    ensures covered == |runs| - slept - first
  {
    slept := 0;
    for k := 0 to |runs|
      invariant slept == CountWaited(runs[..k])
    {
      assert runs[..k + 1][..k] == runs[..k];
      slept := slept + if Waited(runs[k]) then 1 else 0;
    }
    assert runs[..|runs|] == runs;
    var seen: set<string> := {};
    first := 0;
    for k := 0 to |order|
      invariant seen == SeenGroups(order[..k], runs) && first == |seen|
    {
      assert order[..k + 1] == order[..k] + [order[k]];
      var g := GroupOf(runs, order[k]);
      if g.Some? && g.value !in seen {
        seen := seen + {g.value};
        first := first + 1;
      }
    }
    assert order[..|order|] == order;
    covered := |runs| - slept - first;
  }

  // Legs that were neither the first of their group nor counted as waiting.
  function CountOthers(runs: seq<Leg>): nat {
    if runs == [] then 0
    else
      var before, leg := runs[..|runs| - 1], runs[|runs| - 1];
      CountOthers(before) + if leg.group in Groups(before) && !Waited(leg) then 1 else 0
  }

  // The runs are those of a driver that took its legs from this order, each leg number in one group.
  predicate FromOrder(order: seq<int>, runs: seq<Leg>) {
    && (forall r :: r in runs ==> r.n in order)
    && (forall r, s :: r in runs && s in runs && r.n == s.n ==> r.group == s.group)
  }

  // What RunLegs leaves behind is such a list of runs, finished or not.
  lemma DriverRuns(order: seq<int>, only: Option<set<int>>, specs: map<int, Spec>, runs: seq<Leg>)
    requires Numbers(runs) <= Selected(order, only)
    requires FromSpecs(runs, specs)
    ensures FromOrder(order, runs)
  {
    forall r | r in runs ensures r.n in order {
      var i :| 0 <= i < |runs| && runs[i] == r;
      assert Numbers(runs)[i] == r.n;
      SelectedFrom(order, only, r.n);
    }
  }

  lemma {:induction false} SelectedFrom(order: seq<int>, only: Option<set<int>>, n: int)
    requires n in Selected(order, only)
    ensures n in order
  {
    if n == order[0] {
    } else {
      SelectedFrom(order[1..], only, n);
    }
  }

  lemma {:induction false} GroupOfRun(runs: seq<Leg>, n: int)
    ensures GroupOf(runs, n).None? ==> forall r :: r in runs ==> r.n != n
    ensures GroupOf(runs, n).Some? ==> exists r :: r in runs && r.n == n && r.group == GroupOf(runs, n).value
  {
    if runs == [] || runs[0].n == n {
    } else {
      GroupOfRun(runs[1..], n);
      if GroupOf(runs[1..], n).Some? {
        var r :| r in runs[1..] && r.n == n && r.group == GroupOf(runs, n).value;
        assert r in runs;
      }
    }
  }

  // The order loop finds every group that ran.
  lemma SeenAll(order: seq<int>, runs: seq<Leg>)
    requires FromOrder(order, runs)
    ensures SeenGroups(order, runs) == Groups(runs)
  {
    forall n | n in order ensures GroupOf(runs, n).Some? ==> GroupOf(runs, n).value in Groups(runs) {
      GroupOfRun(runs, n);
    }
    forall r | r in runs ensures r.group in SeenGroups(order, runs) {
      GroupOfRun(runs, r.n);
      assert r.n in order && GroupOf(runs, r.n) == Some(r.group);
    }
  }

  // A leg that waited is never the first of its group, so the three parts of the account add up:
  // what the report calls covered is exactly the legs that were neither, and never negative.
  lemma CoveredIsACount(order: seq<int>, runs: seq<Leg>, gap: real)
    requires ValidRun(runs, gap) && FromOrder(order, runs)
    ensures |runs| - CountWaited(runs) - |SeenGroups(order, runs)| == CountOthers(runs) >= 0
  {
    SeenAll(order, runs);
    AccountAddsUp(runs, gap);
  }

  lemma {:induction false} AccountAddsUp(runs: seq<Leg>, gap: real)
    requires ValidRun(runs, gap)
    ensures |runs| == CountWaited(runs) + |Groups(runs)| + CountOthers(runs)
  {
    if runs == [] {
    } else {
      var n := |runs| - 1;
      var before, leg := runs[..n], runs[n];
      AccountAddsUp(before, gap);
      GroupsGrow(before, leg);
      assert runs == before + [leg];
      if Waited(leg) {
        WaitedBehindItsGroup(runs, gap);
      }
    }
  }

  lemma WaitedBehindItsGroup(runs: seq<Leg>, gap: real)
    requires runs != [] && ValidRun(runs, gap) && Waited(runs[|runs| - 1])
    ensures runs[|runs| - 1].group in Groups(runs[..|runs| - 1])
  {
    var n := |runs| - 1;
    RestIsBounded(runs, gap, n);
    var i :| 0 <= i < n && runs[i].group == runs[n].group;
    assert runs[..n][i] in runs[..n];
  }

  lemma GroupsGrow(before: seq<Leg>, leg: Leg)
    ensures |Groups(before + [leg])| == |Groups(before)| + if leg.group in Groups(before) then 0 else 1
  {
    assert Groups(before + [leg]) == Groups(before) + {leg.group};
  }
}
