/**
 Applying a configuration: drain, replace, restart and validate every affected service, or put every one of
 them back on its prior values. Any call on the runtime or the reporter may fail, and a failed call may leave
 the service it was made on in any state.
 */
module Controller {

  import opened ServiceGraph
  import opened Sorting
  import opened Wrappers

  type Key = int
  type Value = int
  type Values = map<Key, Value>
  type Settings = map<Name, Values>

  // ---------- resolving a configuration ----------

  datatype Profile = Profile(service: Name, environment: seq<(Key, Value)>)

  datatype Setting = Setting(service: Name, key: Key, value: Value)

  const OCR: Name := 1
  const OCR_SELECTION_MODE: Key := 0

  function Labelled(service: Name, environment: seq<(Key, Value)>): seq<Setting> {
    if environment == [] then []
    else Labelled(service, environment[..|environment| - 1])
         + [Setting(service, environment[|environment| - 1].0, environment[|environment| - 1].1)]
  }

  predicate NoOverlap(settings: seq<Setting>) {
    forall i, j | 0 <= i < j < |settings| ::
      settings[i].service != settings[j].service || settings[i].key != settings[j].key
  }

  predicate Holds(values: Settings, s: Setting) {
    s.service in values && s.key in values[s.service] && values[s.service][s.key] == s.value
  }

  /** `values` holds the settings and nothing else. */
  ghost predicate Exactly(values: Settings, settings: seq<Setting>) {
    forall s: Setting :: Holds(values, s) <==> s in settings
  }

  function Put(values: Settings, s: Setting): Settings {
    var own := if s.service in values then values[s.service] else map[];
    values[s.service := own[s.key := s.value]]
  }

  lemma PutExactly(values: Settings, settings: seq<Setting>, s: Setting)
    requires Exactly(values, settings) && NoOverlap(settings)
    requires !(s.service in values && s.key in values[s.service])
    ensures Exactly(Put(values, s), settings + [s]) && NoOverlap(settings + [s])
  {
    forall x: Setting ensures Holds(Put(values, s), x) <==> x in settings + [s] {
      assert Holds(values, x) <==> x in settings;
    }
    forall i | 0 <= i < |settings| ensures settings[i].service != s.service || settings[i].key != s.key {
      assert settings[i] in settings && Holds(values, settings[i]);
    }
  }

  lemma EmptyAddsNothing(values: Settings, settings: seq<Setting>, service: Name)
    requires Exactly(values, settings) && service !in values
    ensures Exactly(values[service := map[]], settings)
  {
    forall s: Setting ensures Holds(values[service := map[]], s) <==> s in settings {
      assert Holds(values, s) <==> s in settings;
    }
  }

  /** One of the filling loops: a field that is already there is refused. */
  method Fill(start: Settings, ghost before: seq<Setting>, service: Name, environment: seq<(Key, Value)>)
    returns (ok: bool, values: Settings)
    requires Exactly(start, before) && NoOverlap(before)
    ensures ok <==> NoOverlap(before + Labelled(service, environment))
    ensures ok ==> Exactly(values, before + Labelled(service, environment)) && values.Keys == start.Keys + {service}
  {
    values := start;
    if service !in values {
      values := values[service := map[]];
      EmptyAddsNothing(start, before, service);
    }
    assert before + Labelled(service, environment[..0]) == before;
    for i := 0 to |environment|
      invariant values.Keys == start.Keys + {service}
      invariant Exactly(values, before + Labelled(service, environment[..i]))
      invariant NoOverlap(before + Labelled(service, environment[..i]))
    {
      var s := Setting(service, environment[i].0, environment[i].1);
      ghost var settings := before + Labelled(service, environment[..i]);
      assert environment[..i + 1][..i] == environment[..i];
      assert before + Labelled(service, environment[..i + 1]) == settings + [s];
      if s.service in values && s.key in values[s.service] {
        ClashStays(before, service, environment, i, Setting(service, s.key, values[service][s.key]));
        return false, values;
      }
      PutExactly(values, settings, s);
      values := Put(values, s);
    }
    assert environment[..|environment|] == environment;
    ok := true;
  }

  lemma {:induction false} LabelledPrefix(service: Name, environment: seq<(Key, Value)>, k: nat)
    requires k < |environment|
    ensures |Labelled(service, environment)| == |environment|
    ensures Labelled(service, environment)[..k] == Labelled(service, environment[..k])
    ensures Labelled(service, environment)[k] == Setting(service, environment[k].0, environment[k].1)
  {
    var init := environment[..|environment| - 1];
    if k < |init| {
      LabelledPrefix(service, init, k);
      assert init[..k] == environment[..k];
    } else if init != [] {
      LabelledPrefix(service, init, |init| - 1);
    }
  }

  lemma ClashStays(before: seq<Setting>, service: Name, environment: seq<(Key, Value)>, i: nat, other: Setting)
    requires i < |environment| && other.service == service && other.key == environment[i].0
    requires other in before + Labelled(service, environment[..i])
    ensures !NoOverlap(before + Labelled(service, environment))
  {
    LabelledPrefix(service, environment, i);
    var all := before + Labelled(service, environment);
    assert all[..|before| + i] == before + Labelled(service, environment[..i]);
    var j :| 0 <= j < |before| + i && all[..|before| + i][j] == other;
    assert all[j] == other && all[|before| + i] == Setting(service, environment[i].0, environment[i].1);
  }

  /** The settings a choice of profiles and preset stands for. */
  function Chosen(profiles: seq<Profile>, preset: seq<(Key, Value)>): seq<Setting> {
    Flatten(profiles) + Labelled(OCR, preset)
  }

  function Flatten(profiles: seq<Profile>): seq<Setting> {
    if profiles == [] then []
    else
      var last := profiles[|profiles| - 1];
      Flatten(profiles[..|profiles| - 1]) + Labelled(last.service, last.environment)
  }

  function ServicesOf(profiles: seq<Profile>): set<Name> {
    set i | 0 <= i < |profiles| :: profiles[i].service
  }

  lemma {:induction false} FlattenPrefix(profiles: seq<Profile>, k: nat) returns (more: seq<Setting>)
    requires k <= |profiles|
    ensures Flatten(profiles) == Flatten(profiles[..k]) + more
  {
    if k == |profiles| {
      assert profiles[..k] == profiles;
      more := [];
    } else {
      var init, last := profiles[..|profiles| - 1], profiles[|profiles| - 1];
      var some := FlattenPrefix(init, k);
      assert init[..k] == profiles[..k];
      more := some + Labelled(last.service, last.environment);
    }
  }

  lemma OverlapStays(some: seq<Setting>, more: seq<Setting>)
    requires !NoOverlap(some)
    ensures !NoOverlap(some + more)
  {
    var i, j :| 0 <= i < j < |some| && some[i].service == some[j].service && some[i].key == some[j].key;
    assert (some + more)[i] == some[i] && (some + more)[j] == some[j];
  }

  lemma ServicesStep(profiles: seq<Profile>, i: nat)
    requires i < |profiles|
    ensures ServicesOf(profiles[..i + 1]) == ServicesOf(profiles[..i]) + {profiles[i].service}
  {
    forall n | n in ServicesOf(profiles[..i + 1]) ensures n in ServicesOf(profiles[..i]) + {profiles[i].service} {
      var k :| 0 <= k < i + 1 && profiles[..i + 1][k].service == n;
      assert k < i ==> profiles[..i][k].service == n;
    }
    forall n | n in ServicesOf(profiles[..i]) ensures n in ServicesOf(profiles[..i + 1]) {
      var k :| 0 <= k < i && profiles[..i][k].service == n;
      assert profiles[..i + 1][k].service == n;
    }
    assert profiles[..i + 1][i].service == profiles[i].service;
  }

  method FillProfiles(profiles: seq<Profile>) returns (ok: bool, values: Settings)
    ensures ok <==> NoOverlap(Flatten(profiles))
    ensures ok ==> Exactly(values, Flatten(profiles)) && values.Keys == ServicesOf(profiles)
  {
    values := map[];
    for i := 0 to |profiles|
      invariant Exactly(values, Flatten(profiles[..i])) && NoOverlap(Flatten(profiles[..i]))
      invariant values.Keys == ServicesOf(profiles[..i])
    {
      assert profiles[..i + 1][..i] == profiles[..i];
      ServicesStep(profiles, i);
      ok, values := Fill(values, Flatten(profiles[..i]), profiles[i].service, profiles[i].environment);
      if !ok {
        ghost var more := FlattenPrefix(profiles, i + 1);
        OverlapStays(Flatten(profiles[..i + 1]), more);
        return;
      }
    }
    assert profiles[..|profiles|] == profiles;
    ok := true;
  }

  /** The release's values for a configuration, or nothing when fields overlap. */
  method ResolveChosen(profiles: seq<Profile>, preset: seq<(Key, Value)>, mode: Value) returns (r: Option<Settings>)
    ensures r.Some? <==> NoOverlap(Chosen(profiles, preset))
    ensures r.Some? ==> r.value.Keys == ServicesOf(profiles) + {OCR}
    ensures r.Some? ==> forall s: Setting :: Holds(r.value, s) <==>
              if s.service == OCR && s.key == OCR_SELECTION_MODE then s.value == mode else s in Chosen(profiles, preset)
  {
    var ok, values := FillProfiles(profiles);
    if !ok {
      OverlapStays(Flatten(profiles), Labelled(OCR, preset));
      return None;
    }
    ok, values := Fill(values, Flatten(profiles), OCR, preset);
    if !ok { return None; }
    ghost var filled := values;
    values := values[OCR := values[OCR][OCR_SELECTION_MODE := mode]];
    forall s: Setting ensures Holds(values, s) <==>
              if s.service == OCR && s.key == OCR_SELECTION_MODE then s.value == mode else s in Chosen(profiles, preset)
    {
      assert Holds(filled, s) <==> s in Chosen(profiles, preset);
    }
    return Some(values);
  }

  // ---------- the catalog of the personal runtime ----------

  const INFERENCE: Name := 2
  const GENERATION_MODEL: Key := 1
  const RERANKER_MODEL: Key := 2
  const OCR_DEVICE: Key := 3
  const OCR_PIPELINE_VERSION: Key := 4

  /** What the loader makes of an entry: a generation, a reranking or an OCR profile. */
  ghost predicate FromCatalog(p: Profile) {
    exists model, version ::
      || p == Profile(INFERENCE, [(GENERATION_MODEL, model)]) || p == Profile(INFERENCE, [(RERANKER_MODEL, model)])
      || p == Profile(OCR, [(OCR_DEVICE, model), (OCR_PIPELINE_VERSION, version)])
  }

  lemma OcrNamesItsDevice(p: Profile)
    requires FromCatalog(p) && p.service == OCR
    ensures Labelled(OCR, p.environment) != [] && Labelled(OCR, p.environment)[0].service == OCR
    ensures Labelled(OCR, p.environment)[0].key == OCR_DEVICE
  {
    LabelledPrefix(OCR, p.environment, 0);
  }

  lemma TwoOcrProfilesOverlap(profiles: seq<Profile>)
    requires 2 <= |profiles| && FromCatalog(profiles[0]) && FromCatalog(profiles[1])
    requires profiles[0].service == OCR && profiles[1].service == OCR
    ensures !NoOverlap(Flatten(profiles))
  {
    hide FromCatalog;
    OcrNamesItsDevice(profiles[0]);
    OcrNamesItsDevice(profiles[1]);
    var first, second := Labelled(OCR, profiles[0].environment), Labelled(OCR, profiles[1].environment);
    assert Flatten(profiles[..2]) == first + second by {
      assert profiles[..2][..1] == [profiles[0]] && [profiles[0]][..0] == [];
      assert Flatten([profiles[0]]) == first;
    }
    assert (first + second)[0] == first[0] && (first + second)[|first|] == second[0];
    var more := FlattenPrefix(profiles, 2);
    OverlapStays(first + second, more);
  }

  /** Any three profiles of the catalog that can be combined cover both services, so all configurations do. */
  lemma CatalogCoversBoth(profiles: seq<Profile>)
    requires |profiles| == 3 && NoOverlap(Flatten(profiles))
    requires forall i | 0 <= i < 3 :: FromCatalog(profiles[i])
    ensures ServicesOf(profiles) + {OCR} == {INFERENCE, OCR}
  {
    if profiles[0].service == OCR && profiles[1].service == OCR { TwoOcrProfilesOverlap(profiles); }
    assert profiles[0].service in ServicesOf(profiles) && profiles[1].service in ServicesOf(profiles);
    assert profiles[2].service in ServicesOf(profiles);
  }

  // ---------- the runtime and the reporter ----------

  /** A service's override, what its running process was started with, and what was done to it since. */
  datatype ServiceState = ServiceState(override: Values, live: Option<Values>, drained: bool, validated: bool)

  datatype Call =
    | Drained(service: Name)
    | Replaced(service: Name, values: Values)
    | Restarted(service: Name)
    | Validated(service: Name)

  /** What a call that succeeds does. */
  function Effect(services: map<Name, ServiceState>, c: Call): map<Name, ServiceState> {
    if c.service !in services then services
    else
      var s := services[c.service];
      services[c.service :=
        match c
        case Drained(_) => s.(drained := true)
        case Replaced(_, values) => s.(override := values, validated := false)
        case Restarted(_) => s.(live := Some(s.override), drained := false, validated := false)
        case Validated(_) => s.(validated := true)]
  }

  /** How a call comes out: as it should, or by an error that may leave its service in any state. */
  datatype Answer = Works | Breaks(leaves: ServiceState)

  function First(answers: seq<Answer>): Answer {
    if answers == [] then Works else answers[0]
  }

  function Rest<T>(answers: seq<T>): seq<T> {
    if answers == [] then [] else answers[1..]
  }

  predicate Succeeds(services: map<Name, ServiceState>, a: Answer, c: Call) {
    a.Works? && c.service in services
  }

  /** A call on an unknown service changes nothing. */
  function Comes(services: map<Name, ServiceState>, a: Answer, c: Call): map<Name, ServiceState> {
    if a.Breaks? && c.service in services then services[c.service := a.leaves] else Effect(services, c)
  }

  class Runtime {
    var services: map<Name, ServiceState>
    /** How the next calls will come out, whatever they are; the ones after that work. */
    var answers: seq<Answer>
    /** The calls that succeeded, in order. */
    ghost var calls: seq<Call>
    ghost var failures: nat

    constructor (services: map<Name, ServiceState>, answers: seq<Answer>)
      ensures this.services == services && this.answers == answers && calls == [] && failures == 0
    {
      this.services, this.answers, calls, failures := services, answers, [], 0;
    }

    /** The call `c` was made, and came out as the next answer said. */
    twostate predicate Made(c: Call, ok: bool)
      reads this
    {
      && ok == Succeeds(old(services), First(old(answers)), c)
      && services == Comes(old(services), First(old(answers)), c) && answers == Rest(old(answers))
      && calls == (if ok then old(calls) + [c] else old(calls))
      && failures == if ok then old(failures) else old(failures) + 1
    }

    method Take() returns (a: Answer)
      modifies this`answers
      ensures a == First(old(answers)) && answers == Rest(old(answers))
    {
      a := First(answers);
      answers := Rest(answers);
    }

    method Fail(s: Name, a: Answer)
      modifies this`services, this`failures
      ensures services == if a.Breaks? && s in old(services) then old(services)[s := a.leaves] else old(services)
      ensures failures == old(failures) + 1
    {
      failures := failures + 1;
      if a.Breaks? && s in services { services := services[s := a.leaves]; }
    }

    method Drain(s: Name) returns (ok: bool)
      modifies this
      ensures Made(Drained(s), ok)
    {
      var a := Take();
      if a.Breaks? || s !in services { Fail(s, a); return false; }
      services := services[s := services[s].(drained := true)];
      calls := calls + [Drained(s)];
      return true;
    }

    method ReplaceEnvironment(s: Name, values: Values) returns (ok: bool)
      modifies this
      ensures Made(Replaced(s, values), ok)
    {
      var a := Take();
      if a.Breaks? || s !in services { Fail(s, a); return false; }
      services := services[s := services[s].(override := values, validated := false)];
      calls := calls + [Replaced(s, values)];
      return true;
    }

    /** Stops the process and starts it again with the current override. */
    method Restart(s: Name) returns (ok: bool)
      modifies this
      ensures Made(Restarted(s), ok)
    {
      var a := Take();
      if a.Breaks? || s !in services { Fail(s, a); return false; }
      services := services[s := services[s].(live := Some(services[s].override), drained := false, validated := false)];
      calls := calls + [Restarted(s)];
      return true;
    }

    method Validate(s: Name) returns (ok: bool)
      modifies this
      ensures Made(Validated(s), ok)
    {
      var a := Take();
      if a.Breaks? || s !in services { Fail(s, a); return false; }
      services := services[s := services[s].(validated := true)];
      calls := calls + [Validated(s)];
      return true;
    }
  }

  datatype Stage =
    | Preflight | Draining | Applying | Restarting | Validating | Effective | RollingBack | RolledBack | Failed

  predicate Arrives(answers: seq<bool>) {
    answers == [] || answers[0]
  }

  class Reporter {
    var last: Stage
    var reported: set<Stage>
    /** Whether the next reports will arrive; the ones after that do. */
    var answers: seq<bool>
    ghost var failures: nat

    constructor (answers: seq<bool>)
      ensures last == Preflight && reported == {} && Quiet() && failures == 0 && this.answers == answers
    {
      last, reported, this.answers, failures := Preflight, {}, answers, 0;
    }

    /** Nothing has been said yet about how the services ended up. */
    predicate Quiet()
      reads this
    {
      && !last.Effective? && !last.RolledBack? && !last.Failed?
      && Effective !in reported && RolledBack !in reported && Failed !in reported
    }

    /** The stage counts as reported, and becomes the last one, only if the report arrived. */
    method Report(stage: Stage) returns (ok: bool)
      modifies this
      ensures ok == Arrives(old(answers)) && answers == Rest(old(answers))
      ensures last == if ok then stage else old(last)
      ensures reported == if ok then old(reported) + {stage} else old(reported)
      ensures failures == if ok then old(failures) else old(failures) + 1
    {
      ok := Arrives(answers);
      answers := Rest(answers);
      if ok { last, reported := stage, reported + {stage}; } else { failures := failures + 1; }
    }
  }

  // ---------- the controller ----------

  function Affected(desired: Settings, prior: Settings): set<Name> {
    set s | s in desired.Keys + prior.Keys && !(s in desired && s in prior && desired[s] == prior[s])
  }

  /** Only one of the two sides names the service, or they differ in some setting of it. */
  ghost predicate Changes(desired: Settings, prior: Settings, s: Name) {
    || (s in desired && s !in prior) || (s !in desired && s in prior)
    || (s in desired && s in prior && exists k :: SettingChanges(desired[s], prior[s], k))
  }

  predicate SettingChanges(desired: Values, prior: Values, k: Key) {
    || (k in desired && k !in prior) || (k !in desired && k in prior)
    || (k in desired && k in prior && desired[k] != prior[k])
  }

  /** The affected services are those that the change makes a difference to. */
  lemma AffectedExactly(desired: Settings, prior: Settings, s: Name)
    ensures s in Affected(desired, prior) <==> Changes(desired, prior, s)
  {
    if s in desired && s in prior && !Changes(desired, prior, s) {
      forall k ensures (k in desired[s] <==> k in prior[s]) && (k in desired[s] ==> desired[s][k] == prior[s][k]) {
        assert !SettingChanges(desired[s], prior[s], k);
      }
      assert desired[s] == prior[s];
    }
  }

  /** Only `names` were touched. */
  predicate Confined(before: map<Name, ServiceState>, after: map<Name, ServiceState>, names: set<Name>) {
    after.Keys == before.Keys && forall n | n in after && n !in names :: after[n] == before[n]
  }

  /** The service runs with `values`, started and validated since they were set. */
  predicate InEffect(services: map<Name, ServiceState>, s: Name, values: Values) {
    s in services && services[s].override == values && services[s].live == Some(values) && services[s].validated
  }

  predicate AllInEffect(services: map<Name, ServiceState>, names: set<Name>, settings: Settings) {
    forall s | s in names :: s in settings && InEffect(services, s, settings[s])
  }

  datatype Phase = DrainPhase | ReplacePhase | RestartPhase | ValidatePhase

  function PhaseCall(phase: Phase, s: Name, settings: Settings): Call {
    match phase
    case DrainPhase => Drained(s)
    case ReplacePhase => Replaced(s, if s in settings then settings[s] else map[])
    case RestartPhase => Restarted(s)
    case ValidatePhase => Validated(s)
  }

  function PhaseCalls(phase: Phase, names: seq<Name>, settings: Settings): seq<Call> {
    if names == [] then []
    else PhaseCalls(phase, names[..|names| - 1], settings) + [PhaseCall(phase, names[|names| - 1], settings)]
  }

  /** What a service has behind it once a phase is over. */
  predicate Reached(services: map<Name, ServiceState>, phase: Phase, s: Name, settings: Settings) {
    && s in services
    && (!phase.DrainPhase? ==> s in settings && services[s].override == settings[s])
    && (phase.RestartPhase? || phase.ValidatePhase? ==> services[s].live == Some(settings[s]))
    && (phase.ValidatePhase? ==> services[s].validated)
  }

  function Before(phase: Phase): Phase {
    match phase
    case DrainPhase => DrainPhase
    case ReplacePhase => DrainPhase
    case RestartPhase => ReplacePhase
    case ValidatePhase => RestartPhase
  }

  // ---------- a whole run as a function of the answers ----------

  /** Both sides as they are, what is to come on each, how many calls failed, and whether the run goes on. */
  datatype Scene = Scene(services: map<Name, ServiceState>, answers: seq<Answer>, failures: nat, reports: seq<bool>,
                         last: Stage, reported: set<Stage>, going: bool)

  datatype Act = Say(stage: Stage) | Do(phase: Phase, service: Name)

  /** One report or one call on the runtime; the first error stops everything after it. */
  function Play(x: Scene, act: Act, settings: Settings): Scene {
    if !x.going then x
    else
      match act
      case Say(stage) =>
        if !Arrives(x.reports) then x.(reports := Rest(x.reports), going := false)
        else x.(reports := Rest(x.reports), last := stage, reported := x.reported + {stage})
      case Do(phase, s) =>
        if phase.ReplacePhase? && s !in settings then x.(going := false)
        else
          var c, a := PhaseCall(phase, s, settings), First(x.answers);
          x.(services := Comes(x.services, a, c), answers := Rest(x.answers), going := Succeeds(x.services, a, c),
             failures := x.failures + if Succeeds(x.services, a, c) then 0 else 1)
  }

  function PlayAll(x: Scene, acts: seq<Act>, settings: Settings): Scene {
    if acts == [] then x else Play(PlayAll(x, acts[..|acts| - 1], settings), acts[|acts| - 1], settings)
  }

  lemma {:induction false} PlayConcat(x: Scene, a: seq<Act>, b: seq<Act>, settings: Settings)
    ensures PlayAll(x, a + b, settings) == PlayAll(PlayAll(x, a, settings), b, settings)
  {
    if b == [] {
      assert a + b == a;
    } else {
      var init := b[..|b| - 1];
      assert (a + b)[..|a + b| - 1] == a + init;
      PlayConcat(x, a, init, settings);
    }
  }

  lemma {:induction false} Stopped(x: Scene, acts: seq<Act>, settings: Settings)
    requires !x.going
    ensures PlayAll(x, acts, settings) == x
  {
    if acts != [] { Stopped(x, acts[..|acts| - 1], settings); }
  }

  lemma PlayOn(x: Scene, acts: seq<Act>, more: seq<Act>, settings: Settings)
    ensures PlayAll(x, acts + more, settings) == PlayAll(PlayAll(x, acts, settings), more, settings)
    ensures !PlayAll(x, acts, settings).going ==> PlayAll(x, acts + more, settings) == PlayAll(x, acts, settings)
  {
    PlayConcat(x, acts, more, settings);
    if !PlayAll(x, acts, settings).going { Stopped(PlayAll(x, acts, settings), more, settings); }
  }

  lemma PlayOne(x: Scene, a: Act, settings: Settings)
    ensures PlayAll(x, [a], settings) == Play(x, a, settings)
  {
    assert [a][..0] == [] && PlayAll(x, [], settings) == x;
  }

  function PhaseActs(phase: Phase, names: seq<Name>): seq<Act> {
    if names == [] then [] else PhaseActs(phase, names[..|names| - 1]) + [Do(phase, names[|names| - 1])]
  }

  lemma {:induction false} PhaseActsBegin(phase: Phase, names: seq<Name>, i: nat) returns (more: seq<Act>)
    requires i <= |names|
    ensures PhaseActs(phase, names) == PhaseActs(phase, names[..i]) + more
  {
    if i == |names| {
      assert names[..i] == names;
      more := [];
    } else {
      var init := names[..|names| - 1];
      var some := PhaseActsBegin(phase, init, i);
      assert init[..i] == names[..i];
      more := some + [Do(phase, names[|names| - 1])];
    }
  }

  /** The next service of a phase; if that stops the run, the others make no difference. */
  lemma PhaseActsNext(x: Scene, phase: Phase, names: seq<Name>, i: nat, settings: Settings)
    requires i < |names|
    ensures var before := PlayAll(x, PhaseActs(phase, names[..i]), settings);
            var after := PlayAll(x, PhaseActs(phase, names[..i + 1]), settings);
            after == Play(before, Do(phase, names[i]), settings)
            && (!after.going ==> PlayAll(x, PhaseActs(phase, names), settings) == after)
  {
    hide PlayAll;
    assert names[..i + 1][..i] == names[..i];
    PlayOn(x, PhaseActs(phase, names[..i]), [Do(phase, names[i])], settings);
    PlayOne(PlayAll(x, PhaseActs(phase, names[..i]), settings), Do(phase, names[i]), settings);
    var more := PhaseActsBegin(phase, names, i + 1);
    PlayOn(x, PhaseActs(phase, names[..i + 1]), more, settings);
  }

  function StageActs(phase: Phase, names: seq<Name>): seq<Act> {
    [Say(StageOf(phase))] + PhaseActs(phase, names)
  }

  function ForwardActs(names: seq<Name>): seq<Act> {
    StageActs(DrainPhase, names) + StageActs(ReplacePhase, names)
    + StageActs(RestartPhase, names) + StageActs(ValidatePhase, names)
  }

  function BackActs(names: seq<Name>): seq<Act> {
    if names == [] then []
    else
      BackActs(names[..|names| - 1]) + BackActsOf(names[|names| - 1])
  }

  function BackActsOf(s: Name): seq<Act> {
    [Do(ReplacePhase, s), Do(RestartPhase, s), Do(ValidatePhase, s)]
  }

  lemma StaysStopped(x: Scene, a: Act, b: Act, settings: Settings)
    ensures !x.going ==> Play(x, a, settings) == x && Play(x, b, settings) == x
  {
  }

  lemma PlayThree(x: Scene, s: Name, settings: Settings)
    ensures PlayAll(x, BackActsOf(s), settings)
         == Play(Play(Play(x, Do(ReplacePhase, s), settings), Do(RestartPhase, s), settings), Do(ValidatePhase, s),
                 settings)
  {
    var one, two := [Do(ReplacePhase, s)], [Do(RestartPhase, s)];
    assert BackActsOf(s) == (one + two) + [Do(ValidatePhase, s)];
    PlayConcat(x, one + two, [Do(ValidatePhase, s)], settings);
    PlayConcat(x, one, two, settings);
    PlayOne(x, one[0], settings);
    PlayOne(PlayAll(x, one, settings), two[0], settings);
    PlayOne(PlayAll(x, one + two, settings), Do(ValidatePhase, s), settings);
  }

  lemma {:induction false} BackActsBegin(names: seq<Name>, i: nat) returns (more: seq<Act>)
    requires i <= |names|
    ensures BackActs(names) == BackActs(names[..i]) + more
  {
    if i == |names| {
      assert names[..i] == names;
      more := [];
    } else {
      var init := names[..|names| - 1];
      var some := BackActsBegin(init, i);
      assert init[..i] == names[..i];
      more := some + BackActsOf(names[|names| - 1]);
    }
  }

  /** The next service of the way back; if that stops the run, the others make no difference. */
  lemma BackActsNext(x: Scene, names: seq<Name>, i: nat, settings: Settings)
    requires i < |names|
    ensures var before := PlayAll(x, BackActs(names[..i]), settings);
            var after := PlayAll(x, BackActs(names[..i + 1]), settings);
            after == PlayAll(before, BackActsOf(names[i]), settings)
            && (!after.going ==> PlayAll(x, BackActs(names), settings) == after)
  {
    hide PlayAll, BackActsOf;
    assert names[..i + 1][..i] == names[..i];
    PlayOn(x, BackActs(names[..i]), BackActsOf(names[i]), settings);
    var more := BackActsBegin(names, i + 1);
    PlayOn(x, BackActs(names[..i + 1]), more, settings);
  }

  /** The whole change. */
  function Applied(x: Scene, names: seq<Name>, desired: Settings, prior: Settings): Scene {
    var begun := Play(x, Say(Preflight), desired);
    if !begun.going || names == [] then begun
    else
      var turn := PlayAll(begun, ForwardActs(names), desired);
      if turn.going then Play(turn, Say(Effective), desired)
      else Undone(turn.(going := true), names, prior)
  }

  ghost function Now(rt: Runtime, reporter: Reporter, going: bool): Scene
    reads rt, reporter
  {
    Scene(rt.services, rt.answers, rt.failures, reporter.answers, reporter.last, reporter.reported, going)
  }

  // ---------- how far a list of calls gets ----------

  function Effects(services: map<Name, ServiceState>, calls: seq<Call>): map<Name, ServiceState> {
    if calls == [] then services else Effect(Effects(services, calls[..|calls| - 1]), calls[|calls| - 1])
  }

  lemma {:induction false} EffectsConcat(services: map<Name, ServiceState>, a: seq<Call>, b: seq<Call>)
    ensures Effects(services, a + b) == Effects(Effects(services, a), b)
  {
    if b == [] {
      assert a + b == a;
    } else {
      var init := b[..|b| - 1];
      assert (a + b)[..|a + b| - 1] == a + init;
      EffectsConcat(services, a, init);
    }
  }

  /** Of the planned calls the first `k` succeeded; one that did not may have left its own service in any state. */
  predicate Stops(start: map<Name, ServiceState>, plan: seq<Call>, k: nat, end: map<Name, ServiceState>) {
    && k <= |plan|
    && if k == |plan| then end == Effects(start, plan)
       else Confined(Effects(start, plan[..k]), end, {plan[k].service})
  }

  lemma StopsInLonger(start: map<Name, ServiceState>, some: seq<Call>, plan: seq<Call>, k: nat,
                      end: map<Name, ServiceState>)
    requires Stops(start, some, k, end) && some <= plan
    ensures Stops(start, plan, k, end) && plan[..k] == some[..k]
  {
    assert plan[..k] == some[..k];
    if k == |some| {
      assert some[..k] == some;
      if k == |plan| { assert plan == some; }
    }
  }

  lemma StopsAfter(start: map<Name, ServiceState>, a: seq<Call>, b: seq<Call>, k: nat, end: map<Name, ServiceState>)
    requires Stops(Effects(start, a), b, k, end)
    ensures Stops(start, a + b, |a| + k, end) && (a + b)[..|a| + k] == a + b[..k]
  {
    assert (a + b)[..|a| + k] == a + b[..k];
    EffectsConcat(start, a, b[..k]);
    EffectsConcat(start, a, b);
  }

  /** How far the plan got on the runtime, and what was carried out: exactly the first `k` of its calls. */
  ghost predicate Went(start: map<Name, ServiceState>, before: seq<Call>, plan: seq<Call>, k: nat, rt: Runtime)
    reads rt
  {
    Stops(start, plan, k, rt.services) && rt.calls == before + plan[..k]
  }

  /** It ends well without a failure, and badly after one, or for want of a value. */
  predicate FailsOnce(ok: bool, before: nat, after: nat, names: set<Name>, settings: Settings) {
    && before <= after <= before + 1 && (ok ==> after == before)
    && (!ok && names <= settings.Keys ==> after == before + 1)
  }

  /** One runtime call of a phase; replacing raises for a service without a value. */
  method Perform(rt: Runtime, ghost reporter: Reporter, phase: Phase, s: Name, settings: Settings) returns (ok: bool)
    requires phase.RestartPhase? || phase.ValidatePhase? ==> Reached(rt.services, Before(phase), s, settings)
    modifies rt
    ensures ok ==> Reached(rt.services, phase, s, settings)
                   && rt.services == Effect(old(rt.services), PhaseCall(phase, s, settings))
    ensures !ok ==> Confined(old(rt.services), rt.services, {s})
    ensures rt.calls == if ok then old(rt.calls) + [PhaseCall(phase, s, settings)] else old(rt.calls)
    ensures FailsOnce(ok, old(rt.failures), rt.failures, {s}, settings)
    ensures Now(rt, reporter, ok) == Play(old(Now(rt, reporter, true)), Do(phase, s), settings)
  {
    match phase {
      case DrainPhase => ok := rt.Drain(s);
      case ReplacePhase =>
        ok := s in settings;
        if ok { ok := rt.ReplaceEnvironment(s, settings[s]); }
      case RestartPhase => ok := rt.Restart(s);
      case ValidatePhase => ok := rt.Validate(s);
    }
  }

  predicate AllReached(services: map<Name, ServiceState>, phase: Phase, names: seq<Name>, settings: Settings) {
    forall n | n in names :: Reached(services, phase, n, settings)
  }

  lemma ReachedElsewhere(before: map<Name, ServiceState>, after: map<Name, ServiceState>, s: Name, phase: Phase,
                         names: seq<Name>, settings: Settings)
    requires Confined(before, after, {s}) && s !in names && AllReached(before, phase, names, settings)
    ensures AllReached(after, phase, names, settings)
  {
  }

  predicate Distinct(names: seq<Name>) {
    forall i, j | 0 <= i < j < |names| :: names[i] != names[j]
  }

  /** Restarting and validating rely on what the phase before has reached. */
  predicate MayStart(services: map<Name, ServiceState>, phase: Phase, names: seq<Name>, settings: Settings) {
    phase.RestartPhase? || phase.ValidatePhase? ==> AllReached(services, Before(phase), names, settings)
  }

  lemma {:induction false} PhaseCallsBegin(phase: Phase, names: seq<Name>, settings: Settings, i: nat)
    requires i < |names|
    ensures |PhaseCalls(phase, names, settings)| == |names|
    ensures PhaseCalls(phase, names, settings)[..i] == PhaseCalls(phase, names[..i], settings)
    ensures PhaseCalls(phase, names, settings)[i] == PhaseCall(phase, names[i], settings)
  {
    var k := |names| - 1;
    if i < k {
      PhaseCallsBegin(phase, names[..k], settings, i);
      assert names[..k][..i] == names[..i];
    } else if k > 0 {
      PhaseCallsBegin(phase, names[..k], settings, k - 1);
    }
  }

  lemma PhaseCallsAre(phase: Phase, names: seq<Name>, settings: Settings, i: nat)
    requires i < |names|
    ensures |PhaseCalls(phase, names, settings)| == |names|
    ensures PhaseCalls(phase, names, settings)[..i] == PhaseCalls(phase, names[..i], settings)
    ensures PhaseCalls(phase, names, settings)[i] == PhaseCall(phase, names[i], settings)
    ensures PhaseCalls(phase, names[..i + 1], settings)
         == PhaseCalls(phase, names[..i], settings) + [PhaseCall(phase, names[i], settings)]
  {
    PhaseCallsBegin(phase, names, settings, i);
    assert names[..i + 1][..i] == names[..i];
  }

  /** The first `i` services have reached the phase, and the others may still enter it. */
  predicate Underway(start: map<Name, ServiceState>, now: map<Name, ServiceState>, phase: Phase, names: seq<Name>,
                     i: nat, settings: Settings)
    requires i <= |names|
  {
    && AllReached(now, phase, names[..i], settings) && MayStart(now, phase, names[i..], settings)
    && now == Effects(start, PhaseCalls(phase, names[..i], settings))
  }

  lemma NextReached(start: map<Name, ServiceState>, before: map<Name, ServiceState>, after: map<Name, ServiceState>,
                    phase: Phase, names: seq<Name>, i: nat, settings: Settings)
    requires Distinct(names) && i < |names| && Underway(start, before, phase, names, i, settings)
    requires after == Effect(before, PhaseCall(phase, names[i], settings)) && Reached(after, phase, names[i], settings)
    ensures Underway(start, after, phase, names, i + 1, settings)
  {
    Separate(names, i);
    PhaseCallsAre(phase, names, settings, i);
    ReachedElsewhere(before, after, names[i], phase, names[..i], settings);
    if phase.RestartPhase? || phase.ValidatePhase? {
      ReachedElsewhere(before, after, names[i], Before(phase), names[i + 1..], settings);
    }
  }

  ghost predicate Progress(start: map<Name, ServiceState>, began: seq<Call>, phase: Phase, names: seq<Name>, i: nat,
                           settings: Settings, rt: Runtime)
    requires i <= |names|
    reads rt
  {
    && Underway(start, rt.services, phase, names, i, settings)
    && rt.calls == began + PhaseCalls(phase, names[..i], settings)
  }

  method PhaseStep(rt: Runtime, ghost reporter: Reporter, phase: Phase, names: seq<Name>, i: nat, settings: Settings,
                   ghost start: map<Name, ServiceState>, ghost began: seq<Call>)
    returns (ok: bool)
    requires Distinct(names) && i < |names| && Progress(start, began, phase, names, i, settings, rt)
    modifies rt
    ensures ok ==> Progress(start, began, phase, names, i + 1, settings, rt)
    ensures !ok ==> Went(start, began, PhaseCalls(phase, names, settings), i, rt)
    ensures FailsOnce(ok, old(rt.failures), rt.failures, {names[i]}, settings)
    ensures Now(rt, reporter, ok) == Play(old(Now(rt, reporter, true)), Do(phase, names[i]), settings)
  {
    hide Reached, Effects, FailsOnce, Play;
    Separate(names, i);
    PhaseCallsAre(phase, names, settings, i);
    ok := Perform(rt, reporter, phase, names[i], settings);
    if ok { NextReached(start, old(rt.services), rt.services, phase, names, i, settings); }
  }

  /** One of the four loops over the affected services; `k` of its calls succeed. */
  method RunPhase(rt: Runtime, ghost reporter: Reporter, phase: Phase, names: seq<Name>, settings: Settings)
    returns (ok: bool, ghost k: nat)
    requires Distinct(names) && MayStart(rt.services, phase, names, settings)
    modifies rt
    ensures ok ==> k == |PhaseCalls(phase, names, settings)| && AllReached(rt.services, phase, names, settings)
    ensures Went(old(rt.services), old(rt.calls), PhaseCalls(phase, names, settings), k, rt)
    ensures FailsOnce(ok, old(rt.failures), rt.failures, ToSet(names), settings)
    ensures Now(rt, reporter, ok) == PlayAll(old(Now(rt, reporter, true)), PhaseActs(phase, names), settings)
  {
    hide Play, PlayAll, PhaseActs;
    ghost var plan := PhaseCalls(phase, names, settings);
    ghost var x := Now(rt, reporter, true);
    NothingPlayed(x, phase, settings);
    assert names[0..] == names && names[..0] == [];
    for i := 0 to |names|
      invariant Progress(old(rt.services), old(rt.calls), phase, names, i, settings, rt)
      invariant rt.failures == old(rt.failures)
      invariant Now(rt, reporter, true) == PlayAll(x, PhaseActs(phase, names[..i]), settings)
    {
      PhaseActsNext(x, phase, names, i, settings);
      ok := PhaseStep(rt, reporter, phase, names, i, settings, old(rt.services), old(rt.calls));
      if !ok { return ok, i; }
    }
    assert names[..|names|] == names;
    assert plan[..|plan|] == plan;
    return true, |plan|;
  }

  lemma NothingPlayed(x: Scene, phase: Phase, settings: Settings)
    ensures PlayAll(x, PhaseActs(phase, []), settings) == x
  {
  }

  lemma Separate(names: seq<Name>, i: nat)
    requires Distinct(names) && i < |names|
    ensures names[i] in ToSet(names) && names[i] !in names[..i] && names[i] !in names[i + 1..]
    ensures names[..i + 1] == names[..i] + [names[i]] && names[..i + 1][..i] == names[..i]
    ensures names[i..] == [names[i]] + names[i + 1..]
  {
  }

  /** Draining all, then replacing all, then restarting all, then validating all. */
  function AllCalls(names: seq<Name>, settings: Settings): seq<Call> {
    PhaseCalls(DrainPhase, names, settings) + PhaseCalls(ReplacePhase, names, settings)
    + PhaseCalls(RestartPhase, names, settings) + PhaseCalls(ValidatePhase, names, settings)
  }

  function StageOf(phase: Phase): Stage {
    match phase
    case DrainPhase => Draining
    case ReplacePhase => Applying
    case RestartPhase => Restarting
    case ValidatePhase => Validating
  }

  /** The four calls on one service, and where they stand among those on all of them. */
  lemma CallsInOrder(names: seq<Name>, desired: Settings, i: nat)
    requires i < |names| && names[i] in desired
    ensures var calls, n := AllCalls(names, desired), |names|;
            && |calls| == 4 * n
            && calls[i] == Drained(names[i]) && calls[n + i] == Replaced(names[i], desired[names[i]])
            && calls[2 * n + i] == Restarted(names[i]) && calls[3 * n + i] == Validated(names[i])
  {
    PhaseCallsAre(DrainPhase, names, desired, i);
    PhaseCallsAre(ReplacePhase, names, desired, i);
    PhaseCallsAre(RestartPhase, names, desired, i);
    PhaseCallsAre(ValidatePhase, names, desired, i);
  }

  lemma {:induction false} PhaseActsAre(phase: Phase, names: seq<Name>, i: nat)
    requires i < |names|
    ensures |PhaseActs(phase, names)| == |names| && PhaseActs(phase, names)[i] == Do(phase, names[i])
  {
    if |names| > 1 { PhaseActsAre(phase, names[..|names| - 1], if i < |names| - 1 then i else 0); }
  }

  /** Each of the four stages is reported just before its calls begin. */
  lemma StagesInOrder(names: seq<Name>, i: nat)
    requires i < |names|
    ensures var acts, n := ForwardActs(names), |names| + 1;
            && |acts| == 4 * n
            && acts[0] == Say(Draining) && acts[1 + i] == Do(DrainPhase, names[i])
            && acts[n] == Say(Applying) && acts[n + 1 + i] == Do(ReplacePhase, names[i])
            && acts[2 * n] == Say(Restarting) && acts[2 * n + 1 + i] == Do(RestartPhase, names[i])
            && acts[3 * n] == Say(Validating) && acts[3 * n + 1 + i] == Do(ValidatePhase, names[i])
  {
    PhaseActsAre(DrainPhase, names, i);
    PhaseActsAre(ReplacePhase, names, i);
    PhaseActsAre(RestartPhase, names, i);
    PhaseActsAre(ValidatePhase, names, i);
  }

  /** Calls on `names` only touch them. */
  predicate CallsOn(calls: seq<Call>, names: set<Name>) {
    forall i | 0 <= i < |calls| :: calls[i].service in names
  }

  lemma {:induction false} EffectsConfined(start: map<Name, ServiceState>, calls: seq<Call>, names: set<Name>)
    requires CallsOn(calls, names)
    ensures Confined(start, Effects(start, calls), names)
  {
    if calls != [] { EffectsConfined(start, calls[..|calls| - 1], names); }
  }

  lemma StopsConfined(start: map<Name, ServiceState>, plan: seq<Call>, k: nat, end: map<Name, ServiceState>,
                      names: set<Name>)
    requires Stops(start, plan, k, end) && CallsOn(plan, names)
    ensures Confined(start, end, names)
  {
    EffectsConfined(start, plan[..k], names);
    assert plan[..|plan|] == plan;
  }

  lemma {:induction false} PhaseCallsOn(phase: Phase, names: seq<Name>, settings: Settings)
    ensures CallsOn(PhaseCalls(phase, names, settings), ToSet(names))
  {
    if names != [] {
      var k := |names| - 1;
      PhaseCallsOn(phase, names[..k], settings);
      assert names[k] in ToSet(names) && ToSet(names[..k]) <= ToSet(names);
    }
  }

  /** Reports a stage, then runs its loop; `k` of its calls succeed. */
  method Enter(rt: Runtime, reporter: Reporter, phase: Phase, names: seq<Name>, settings: Settings)
    returns (ok: bool, ghost k: nat)
    requires Distinct(names) && reporter.Quiet() && MayStart(rt.services, phase, names, settings)
    modifies rt, reporter
    ensures Went(old(rt.services), old(rt.calls), PhaseCalls(phase, names, settings), k, rt)
    ensures ok ==> k == |PhaseCalls(phase, names, settings)| && AllReached(rt.services, phase, names, settings)
    ensures ok ==> reporter.last == StageOf(phase)
    ensures FailsOnce(ok, old(rt.failures + reporter.failures), rt.failures + reporter.failures, ToSet(names), settings)
    ensures reporter.Quiet() && old(reporter.reported) <= reporter.reported
    ensures reporter.reported <= old(reporter.reported) + {StageOf(phase)}
    ensures Now(rt, reporter, ok) == PlayAll(old(Now(rt, reporter, true)), StageActs(phase, names), settings)
  {
    hide PlayAll, PhaseActs;
    ghost var x := Now(rt, reporter, true);
    PlayOne(x, Say(StageOf(phase)), settings);
    PlayConcat(x, [Say(StageOf(phase))], PhaseActs(phase, names), settings);
    k := 0;
    ok := reporter.Report(StageOf(phase));
    assert Now(rt, reporter, ok) == Play(x, Say(StageOf(phase)), settings);
    if ok {
      ok, k := RunPhase(rt, reporter, phase, names, settings);
    } else {
      Stopped(Now(rt, reporter, false), PhaseActs(phase, names), settings);
      NothingDone(rt.services, PhaseCalls(phase, names, settings));
    }
  }

  lemma NothingDone(start: map<Name, ServiceState>, plan: seq<Call>)
    ensures Stops(start, plan, 0, start)
  {
    assert plan[..0] == [];
  }

  /** `done` was carried out in full, then `k` calls of `next`; together they are a beginning of `plan`. */
  lemma Onward(start: map<Name, ServiceState>, began: seq<Call>, done: seq<Call>, next: seq<Call>, k: nat,
               plan: seq<Call>, rt: Runtime)
    requires Went(Effects(start, done), began + done, next, k, rt) && done + next <= plan
    ensures Went(start, began, plan, |done| + k, rt)
    ensures k == |next| ==> rt.services == Effects(start, done + next) && rt.calls == began + (done + next)
  {
    StopsAfter(start, done, next, k, rt.services);
    StopsInLonger(start, done + next, plan, |done| + k, rt.services);
    EffectsConcat(start, done, next);
    assert next[..|next|] == next;
  }

  /** The four phases; `f` of their calls succeed, all of them exactly if it ends well. */
  method Forward(rt: Runtime, reporter: Reporter, names: seq<Name>, desired: Settings) returns (ok: bool, ghost f: nat)
    requires Distinct(names) && reporter.Quiet()
    modifies rt, reporter
    ensures ok ==> AllInEffect(rt.services, ToSet(names), desired) && reporter.last == Validating
    ensures Went(old(rt.services), old(rt.calls), AllCalls(names, desired), f, rt)
    ensures ok ==> f == |AllCalls(names, desired)|
    ensures FailsOnce(ok, old(rt.failures + reporter.failures), rt.failures + reporter.failures, ToSet(names), desired)
    ensures reporter.Quiet() && old(reporter.reported) <= reporter.reported
    ensures RollingBack in reporter.reported ==> RollingBack in old(reporter.reported)
    ensures Now(rt, reporter, ok) == PlayAll(old(Now(rt, reporter, true)), ForwardActs(names), desired)
  {
    hide Stops, Effects, Reached, PhaseCalls, AllInEffect, PlayAll, StageActs;
    ghost var done: seq<Call> := [];
    ghost var x := Now(rt, reporter, true);
    NothingYet(rt.services, rt.calls);
    Prefixes(names, desired);
    ok, f := Advance(rt, reporter, DrainPhase, names, desired, old(rt.services), old(rt.calls), done);
    done := done + PhaseCalls(DrainPhase, names, desired);
    ghost var acts := StageActs(DrainPhase, names);
    PlayOn(x, acts, StageActs(ReplacePhase, names), desired);
    if ok { ok, f := Advance(rt, reporter, ReplacePhase, names, desired, old(rt.services), old(rt.calls), done); }
    done := done + PhaseCalls(ReplacePhase, names, desired);
    acts := acts + StageActs(ReplacePhase, names);
    PlayOn(x, acts, StageActs(RestartPhase, names), desired);
    if ok { ok, f := Advance(rt, reporter, RestartPhase, names, desired, old(rt.services), old(rt.calls), done); }
    done := done + PhaseCalls(RestartPhase, names, desired);
    acts := acts + StageActs(RestartPhase, names);
    PlayOn(x, acts, StageActs(ValidatePhase, names), desired);
    if ok { ok, f := Advance(rt, reporter, ValidatePhase, names, desired, old(rt.services), old(rt.calls), done); }
    if ok { ValidatedIsInEffect(rt.services, names, desired); }
  }

  lemma NothingYet(services: map<Name, ServiceState>, calls: seq<Call>)
    ensures services == Effects(services, []) && calls == calls + []
  {
  }

  lemma Prefixes(names: seq<Name>, desired: Settings)
    ensures var drain := [] + PhaseCalls(DrainPhase, names, desired);
            var replace := drain + PhaseCalls(ReplacePhase, names, desired);
            var restart := replace + PhaseCalls(RestartPhase, names, desired);
            && drain <= AllCalls(names, desired) && replace <= AllCalls(names, desired)
            && restart <= AllCalls(names, desired)
            && restart + PhaseCalls(ValidatePhase, names, desired) == AllCalls(names, desired)
  {
    assert [] + PhaseCalls(DrainPhase, names, desired) == PhaseCalls(DrainPhase, names, desired);
  }

  lemma ValidatedIsInEffect(services: map<Name, ServiceState>, names: seq<Name>, desired: Settings)
    requires AllReached(services, ValidatePhase, names, desired)
    ensures AllInEffect(services, ToSet(names), desired)
  {
  }

  /** One phase on the way through the whole plan. */
  method Advance(rt: Runtime, reporter: Reporter, phase: Phase, names: seq<Name>, desired: Settings,
                 ghost start: map<Name, ServiceState>, ghost began: seq<Call>, ghost done: seq<Call>)
    returns (ok: bool, ghost f: nat)
    requires Distinct(names) && reporter.Quiet() && MayStart(rt.services, phase, names, desired)
    requires rt.services == Effects(start, done) && rt.calls == began + done
    requires done + PhaseCalls(phase, names, desired) <= AllCalls(names, desired)
    modifies rt, reporter
    ensures Went(start, began, AllCalls(names, desired), f, rt)
    ensures ok ==> AllReached(rt.services, phase, names, desired) && reporter.last == StageOf(phase)
    ensures ok ==> f == |done + PhaseCalls(phase, names, desired)|
                   && rt.services == Effects(start, done + PhaseCalls(phase, names, desired))
                   && rt.calls == began + (done + PhaseCalls(phase, names, desired))
    ensures FailsOnce(ok, old(rt.failures + reporter.failures), rt.failures + reporter.failures, ToSet(names), desired)
    ensures reporter.Quiet() && old(reporter.reported) <= reporter.reported
    ensures reporter.reported <= old(reporter.reported) + {StageOf(phase)}
    ensures Now(rt, reporter, ok) == PlayAll(old(Now(rt, reporter, true)), StageActs(phase, names), desired)
  {
    hide Reached, FailsOnce, Stops, PlayAll;
    ok, f := Enter(rt, reporter, phase, names, desired);
    Onward(start, began, done, PhaseCalls(phase, names, desired), f, AllCalls(names, desired), rt);
    f := |done| + f;
  }

  /** Back to the prior values, restarted and validated. */
  function Triple(s: Name, prior: Settings): seq<Call> {
    [PhaseCall(ReplacePhase, s, prior), PhaseCall(RestartPhase, s, prior), PhaseCall(ValidatePhase, s, prior)]
  }

  function BackCalls(names: seq<Name>, prior: Settings): seq<Call> {
    if names == [] then [] else BackCalls(names[..|names| - 1], prior) + Triple(names[|names| - 1], prior)
  }

  lemma {:induction false} BackCallsBegin(names: seq<Name>, prior: Settings, i: nat)
    requires i < |names|
    ensures BackCalls(names[..i + 1], prior) == BackCalls(names[..i], prior) + Triple(names[i], prior)
    ensures BackCalls(names[..i + 1], prior) <= BackCalls(names, prior)
  {
    var k := |names| - 1;
    assert names[..i + 1][..i] == names[..i];
    if i < k {
      BackCallsBegin(names[..k], prior, i);
      assert names[..k][..i + 1] == names[..i + 1] && names[..k][..i] == names[..i];
    } else {
      assert names[..i + 1] == names;
    }
  }

  /** Service by service: prior values, restart, validate. */
  lemma {:induction false} BackCallsInOrder(names: seq<Name>, prior: Settings, i: nat)
    requires i < |names| && names[i] in prior
    ensures var calls := BackCalls(names, prior);
            && |calls| == 3 * |names|
            && calls[3 * i] == Replaced(names[i], prior[names[i]])
            && calls[3 * i + 1] == Restarted(names[i]) && calls[3 * i + 2] == Validated(names[i])
  {
    var k := |names| - 1;
    BackCallsLength(names[..k], prior);
    if i < k { BackCallsInOrder(names[..k], prior, i); }
  }

  lemma {:induction false} BackCallsLength(names: seq<Name>, prior: Settings)
    ensures |BackCalls(names, prior)| == 3 * |names|
  {
    if names != [] { BackCallsLength(names[..|names| - 1], prior); }
  }

  lemma {:induction false} BackCallsOn(names: seq<Name>, prior: Settings)
    ensures CallsOn(BackCalls(names, prior), ToSet(names))
  {
    if names != [] {
      var k := |names| - 1;
      BackCallsOn(names[..k], prior);
      assert names[k] in ToSet(names) && ToSet(names[..k]) <= ToSet(names);
    }
  }

  lemma EffectsNext(start: map<Name, ServiceState>, plan: seq<Call>, k: nat)
    requires k < |plan|
    ensures Effects(start, plan[..k + 1]) == Effect(Effects(start, plan[..k]), plan[k])
    ensures plan[..k + 1] == plan[..k] + [plan[k]]
  {
    assert plan[..k + 1][..k] == plan[..k];
  }

  /** One service; `k` of its three calls succeed. */
  method PutBackOne(rt: Runtime, ghost reporter: Reporter, s: Name, prior: Settings) returns (ok: bool, ghost k: nat)
    modifies rt
    ensures Went(old(rt.services), old(rt.calls), Triple(s, prior), k, rt) && (ok ==> k == 3)
    ensures ok ==> s in prior && InEffect(rt.services, s, prior[s])
    ensures FailsOnce(ok, old(rt.failures), rt.failures, {s}, prior)
    ensures Now(rt, reporter, ok) == PlayAll(old(Now(rt, reporter, true)), BackActsOf(s), prior)
  {
    hide Effects, Effect, PlayAll, Play, BackActsOf;
    ghost var x := Now(rt, reporter, true);
    PlayThree(x, s, prior);
    ghost var plan, start := Triple(s, prior), rt.services;
    NothingDone(start, plan);
    NothingYet(start, rt.calls);
    EffectsNext(start, plan, 0);
    EffectsNext(start, plan, 1);
    EffectsNext(start, plan, 2);
    assert plan[..0] == [] && plan[..3] == plan;
    k := 0;
    ok := Perform(rt, reporter, ReplacePhase, s, prior);
    StaysStopped(Now(rt, reporter, ok), Do(RestartPhase, s), Do(ValidatePhase, s), prior);
    if ok {
      k := 1;
      ok := Perform(rt, reporter, RestartPhase, s, prior);
      StaysStopped(Now(rt, reporter, ok), Do(ValidatePhase, s), Do(ValidatePhase, s), prior);
    }
    if ok {
      k := 2;
      ok := Perform(rt, reporter, ValidatePhase, s, prior);
      if ok { k := 3; }
    }
  }

  /** The first `i` services are back. */
  ghost predicate PutBackTo(start: map<Name, ServiceState>, began: seq<Call>, names: seq<Name>, i: nat, prior: Settings,
                            rt: Runtime)
    requires i <= |names|
    reads rt
  {
    && rt.services == Effects(start, BackCalls(names[..i], prior)) && rt.calls == began + BackCalls(names[..i], prior)
    && forall k | 0 <= k < i :: names[k] in prior && InEffect(rt.services, names[k], prior[names[k]])
  }

  method PutBackNext(rt: Runtime, ghost reporter: Reporter, names: seq<Name>, i: nat, prior: Settings,
                     ghost start: map<Name, ServiceState>, ghost began: seq<Call>)
    returns (ok: bool, ghost b: nat)
    requires Distinct(names) && i < |names| && PutBackTo(start, began, names, i, prior, rt)
    modifies rt
    ensures ok ==> PutBackTo(start, began, names, i + 1, prior, rt)
    ensures !ok ==> Went(start, began, BackCalls(names, prior), b, rt)
    ensures FailsOnce(ok, old(rt.failures), rt.failures, {names[i]}, prior)
    ensures Now(rt, reporter, ok) == PlayAll(old(Now(rt, reporter, true)), BackActsOf(names[i]), prior)
  {
    hide Effects, Effect, FailsOnce, BackCalls, PlayAll, BackActsOf;
    ghost var done := BackCalls(names[..i], prior);
    BackCallsBegin(names, prior, i);
    ghost var k;
    ok, k := PutBackOne(rt, reporter, names[i], prior);
    Onward(start, began, done, Triple(names[i], prior), k, BackCalls(names, prior), rt);
    b := |done| + k;
    StopsConfined(old(rt.services), Triple(names[i], prior), k, rt.services, {names[i]});
  }

  /** Service by service: prior values, restart, validate; it ends well exactly if all have values and no call fails. */
  method PutBack(rt: Runtime, ghost reporter: Reporter, names: seq<Name>, prior: Settings)
    returns (ok: bool, ghost b: nat)
    requires Distinct(names)
    modifies rt
    ensures ok ==> AllInEffect(rt.services, ToSet(names), prior) && b == |BackCalls(names, prior)|
    ensures ok <==> ToSet(names) <= prior.Keys && rt.failures == old(rt.failures)
    ensures Went(old(rt.services), old(rt.calls), BackCalls(names, prior), b, rt)
    ensures old(rt.failures) <= rt.failures <= old(rt.failures) + 1
    ensures Now(rt, reporter, ok) == PlayAll(old(Now(rt, reporter, true)), BackActs(names), prior)
  {
    hide PlayAll, BackActs;
    ghost var plan := BackCalls(names, prior);
    ghost var x := Now(rt, reporter, true);
    NothingPlayedBack(x, prior);
    assert names[..0] == [];
    NothingYet(rt.services, rt.calls);
    assert BackCalls(names[..0], prior) == [];
    for i := 0 to |names|
      invariant rt.failures == old(rt.failures)
      invariant PutBackTo(old(rt.services), old(rt.calls), names, i, prior, rt)
      invariant Now(rt, reporter, true) == PlayAll(x, BackActs(names[..i]), prior)
    {
      BackActsNext(x, names, i, prior);
      ok, b := PutBackNext(rt, reporter, names, i, prior, old(rt.services), old(rt.calls));
      if !ok {
        assert names[i] in ToSet(names);
        return;
      }
    }
    assert names[..|names|] == names && plan[..|plan|] == plan;
    return true, |plan|;
  }

  lemma NothingPlayedBack(x: Scene, settings: Settings)
    ensures PlayAll(x, BackActs([]), settings) == x
  {
  }

  /** A report, as a step of the run. */
  method Tell(ghost rt: Runtime, reporter: Reporter, stage: Stage, ghost settings: Settings) returns (ok: bool)
    modifies reporter
    ensures Now(rt, reporter, ok) == Play(old(Now(rt, reporter, true)), Say(stage), settings)
    ensures reporter.last == if ok then stage else old(reporter.last)
    ensures reporter.reported == if ok then old(reporter.reported) + {stage} else old(reporter.reported)
    ensures reporter.failures == if ok then old(reporter.failures) else old(reporter.failures) + 1
  {
    ok := reporter.Report(stage);
  }

  function Undone(x: Scene, names: seq<Name>, prior: Settings): Scene {
    Play(PlayAll(Play(x, Say(RollingBack), prior), BackActs(names), prior), Say(RolledBack), prior)
  }

  /** The handler: reported, undone as far as possible, and reported again if nothing failed. */
  method RollBack(rt: Runtime, reporter: Reporter, names: seq<Name>, prior: Settings) returns (ok: bool, ghost b: nat)
    requires Distinct(names) && reporter.Quiet() && RollingBack !in reporter.reported
    modifies rt, reporter
    ensures ok ==> AllInEffect(rt.services, ToSet(names), prior) && b == |BackCalls(names, prior)|
    ensures ok <==> && RollingBack in reporter.reported && ToSet(names) <= prior.Keys
                    && rt.failures == old(rt.failures)
    ensures if RollingBack in reporter.reported
            then Went(old(rt.services), old(rt.calls), BackCalls(names, prior), b, rt)
            else rt.services == old(rt.services)
    ensures Effective !in reporter.reported && Failed !in reporter.reported && !reporter.last.Effective?
    ensures RolledBack in reporter.reported <==> reporter.last == RolledBack
    ensures RolledBack in reporter.reported ==> ok
    ensures Preflight in old(reporter.reported) ==> Preflight in reporter.reported
    ensures var before, after := old(rt.failures + reporter.failures), rt.failures + reporter.failures;
            && after >= before
            && (RolledBack !in reporter.reported && ToSet(names) <= prior.Keys ==> after > before)
    ensures var end := Undone(old(Now(rt, reporter, true)), names, prior); end == Now(rt, reporter, end.going)
  {
    hide Stops, AllInEffect, BackCalls, PlayAll, BackActs;
    b := 0;
    ghost var x := Now(rt, reporter, true);
    ok := reporter.Report(RollingBack);
    ghost var begun := Now(rt, reporter, ok);
    assert begun == Play(x, Say(RollingBack), prior);
    if !ok {
      Stopped(begun, BackActs(names), prior);
      return;
    }
    ok, b := PutBack(rt, reporter, names, prior);
    if ok { var told := reporter.Report(RolledBack); }
  }

  datatype Outcome = Returned | Raised

  /**
   What happened: the affected services in order, how many planned calls succeeded forward and, if the roll-back
   began, backward, the services and the failures in between, and how each half came out.
   */
  datatype Trace = Trace(names: seq<Name>, forward: nat, turn: map<Name, ServiceState>, failures: nat, backward: nat,
                         applied: bool, restored: bool)

  /** The way there: nothing, or a beginning of the plan; all of it exactly if the change was applied. */
  predicate WentForward(t: Trace, start: map<Name, ServiceState>, desired: Settings, begun: bool) {
    && Stops(start, AllCalls(t.names, desired), t.forward, t.turn)
    && (t.applied ==> t.forward == |AllCalls(t.names, desired)|) && (!begun ==> t.turn == start)
  }

  /** The way back: nothing without its report, or a beginning of the plan; all of it exactly if all was restored. */
  predicate WentBack(t: Trace, end: map<Name, ServiceState>, prior: Settings, begun: bool) {
    && (begun ==> Stops(t.turn, BackCalls(t.names, prior), t.backward, end)) && (!begun ==> end == t.turn)
    && (t.restored ==> t.backward == |BackCalls(t.names, prior)|)
  }

  /**
   EFFECTIVE is reported only when every affected service was drained, given its desired values, restarted and
   validated, in that order. A change that was not applied is undone exactly if ROLLING_BACK could be reported, every
   affected service has prior values, and no call of the roll-back fails; only then is ROLLED_BACK reported. Whatever
   fails, no other service is touched. Without a failure a change between the same services takes effect, and a
   single failure never leaves it half done.
   */
  method Apply(rt: Runtime, reporter: Reporter, desired: Settings, prior: Settings)
    returns (outcome: Outcome, ghost t: Trace)
    requires reporter.Quiet() && reporter.reported == {}
    modifies rt, reporter
    ensures SortedListing(t.names, Affected(desired, prior))
    ensures Confined(old(rt.services), rt.services, Affected(desired, prior))
    ensures WentForward(t, old(rt.services), desired, Preflight in reporter.reported)
    ensures WentBack(t, rt.services, prior, RollingBack in reporter.reported)
    ensures t.applied ==> AllInEffect(rt.services, Affected(desired, prior), desired)
                          && rt.calls == old(rt.calls) + AllCalls(t.names, desired)
    ensures t.restored ==> AllInEffect(rt.services, Affected(desired, prior), prior)
    ensures t.restored <==> && RollingBack in reporter.reported && Affected(desired, prior) <= prior.Keys
                            && rt.failures == t.failures
    ensures RollingBack in reporter.reported ==> !t.applied && t.names != [] && Preflight in reporter.reported
    ensures outcome.Returned? <==> Effective in reporter.reported
    ensures outcome.Returned? ==> t.applied && t.names != [] && reporter.last == Effective
    ensures t.applied && outcome.Raised? ==> reporter.last == Validating
    ensures reporter.last == Effective ==> outcome.Returned?
    ensures RolledBack in reporter.reported <==> reporter.last == RolledBack
    ensures RolledBack in reporter.reported ==> t.restored
    ensures Failed !in reporter.reported
    ensures Affected(desired, prior) != {} && Affected(desired, prior) <= desired.Keys && outcome.Raised? ==>
              rt.failures + reporter.failures > old(rt.failures + reporter.failures)
    ensures Affected(desired, prior) <= desired.Keys * prior.Keys
            && rt.failures + reporter.failures <= old(rt.failures + reporter.failures) + 1 ==>
              t.applied || RolledBack in reporter.reported || rt.services == old(rt.services)
    ensures var end := Applied(old(Now(rt, reporter, true)), t.names, desired, prior);
            end == Now(rt, reporter, end.going)
  {
    hide Stops, AllInEffect, AllCalls, BackCalls, SortedListing, PlayAll, ForwardActs, Undone, Confined, Play, Applied;
    ghost var x := Now(rt, reporter, true);
    var names := Sort(Affected(desired, prior));
    SortedIsDistinct(names, Affected(desired, prior));
    NothingDone(rt.services, AllCalls(names, desired));
    NothingConfined(rt.services, ToSet(names));
    t := Trace(names, 0, rt.services, rt.failures, 0, false, false);
    AppliedIs(x, names, desired, prior);
    var ok := Tell(rt, reporter, Preflight, desired);
    if !ok || names == [] { return Raised, t; }
    ghost var f;
    ok, f := Forward(rt, reporter, names, desired);
    t := Trace(names, f, rt.services, rt.failures, 0, ok, false);
    ForwardConfined(old(rt.services), names, desired, f, rt.services);
    if ok {
      assert AllCalls(names, desired)[..f] == AllCalls(names, desired);
      ok := Tell(rt, reporter, Effective, desired);
      return if ok then Returned else Raised, t;
    }
    outcome := Raised;
    ghost var b;
    ok, b := RollBack(rt, reporter, names, prior);
    t := t.(backward := b, restored := ok);
    if RollingBack in reporter.reported { BackConfined(old(rt.services), t.turn, names, prior, b, rt.services); }
  }

  lemma AppliedIs(x: Scene, names: seq<Name>, desired: Settings, prior: Settings)
    ensures var begun := Play(x, Say(Preflight), desired);
            var turn := PlayAll(begun, ForwardActs(names), desired);
            Applied(x, names, desired, prior)
            == if !begun.going || names == [] then begun
               else if turn.going then Play(turn, Say(Effective), desired)
               else Undone(turn.(going := true), names, prior)
  {
  }

  lemma ForwardConfined(start: map<Name, ServiceState>, names: seq<Name>, desired: Settings, f: nat,
                        end: map<Name, ServiceState>)
    requires Stops(start, AllCalls(names, desired), f, end)
    ensures Confined(start, end, ToSet(names))
  {
    PhaseCallsOn(DrainPhase, names, desired);
    PhaseCallsOn(ReplacePhase, names, desired);
    PhaseCallsOn(RestartPhase, names, desired);
    PhaseCallsOn(ValidatePhase, names, desired);
    StopsConfined(start, AllCalls(names, desired), f, end, ToSet(names));
  }

  lemma BackConfined(start: map<Name, ServiceState>, turn: map<Name, ServiceState>, names: seq<Name>, prior: Settings,
                     b: nat, end: map<Name, ServiceState>)
    requires Confined(start, turn, ToSet(names)) && Stops(turn, BackCalls(names, prior), b, end)
    ensures Confined(start, end, ToSet(names))
  {
    BackCallsOn(names, prior);
    StopsConfined(turn, BackCalls(names, prior), b, end, ToSet(names));
  }

  lemma NothingConfined(start: map<Name, ServiceState>, names: set<Name>)
    ensures Confined(start, start, names)
  {
  }

  lemma SortedIsDistinct(names: seq<Name>, s: set<Name>)
    requires SortedListing(names, s)
    ensures Distinct(names) && ToSet(names) == s
  {
    forall n ensures n in ToSet(names) <==> n in s {
    }
  }

  /**
   The Personal runtime around it: a change that raised without being rolled back is reported as FAILED. That
   includes the change that took effect and whose EFFECTIVE report was lost.
   */
  method ApplyChange(rt: Runtime, reports: seq<bool>, desired: Settings, prior: Settings)
    returns (outcome: Outcome, ghost last: Stage, ghost t: Trace)
    modifies rt
    ensures Confined(old(rt.services), rt.services, Affected(desired, prior))
    ensures outcome.Returned? <==> last.Effective?
    ensures last.Effective? || t.applied ==> AllInEffect(rt.services, Affected(desired, prior), desired)
    ensures last.RolledBack? ==> t.restored && AllInEffect(rt.services, Affected(desired, prior), prior)
    ensures t.applied && outcome.Raised? ==> last.Validating? || last.Failed?
    ensures SortedListing(t.names, Affected(desired, prior))
    ensures var x := Scene(old(rt.services), old(rt.answers), old(rt.failures), reports, Preflight, {}, true);
            var end := Applied(x, t.names, desired, prior);
            && rt.services == end.services && (outcome.Returned? <==> Effective in end.reported)
            && last == if outcome.Raised? && !end.last.RolledBack? && Arrives(end.reports) then Failed else end.last
  {
    hide Applied, AllInEffect, Confined, SortedListing, Stops, AllCalls, BackCalls;
    var reporter := new Reporter(reports);
    outcome, t := Apply(rt, reporter, desired, prior);
    if outcome.Raised? && !reporter.last.RolledBack? {
      var told := reporter.Report(Failed);
    }
    last := reporter.last;
  }

  // ---------- how a change may stay half done ----------

  /** The first service, drained and given its new values, and not restarted. */
  function HalfWay(services: map<Name, ServiceState>, s: Name, desired: Settings): map<Name, ServiceState>
    requires s in services && s in desired
  {
    services[s := services[s].(drained := true, override := desired[s], validated := false)]
  }

  /** The way there breaks off at the restart. */
  function Halting(services: map<Name, ServiceState>, s: Name, desired: Settings): seq<Answer>
    requires s in services && s in desired
  {
    [Works, Works, Breaks(HalfWay(services, s, desired)[s])]
  }

  lemma ActsOnOne(s: Name)
    ensures PhaseActs(DrainPhase, [s]) == [Do(DrainPhase, s)] && PhaseActs(ReplacePhase, [s]) == [Do(ReplacePhase, s)]
    ensures PhaseActs(RestartPhase, [s]) == [Do(RestartPhase, s)] && BackActs([s]) == BackActsOf(s)
  {
    assert [s][..0] == [];
    assert BackActs([]) + BackActsOf(s) == BackActsOf(s);
  }

  lemma PlayStage(x: Scene, phase: Phase, s: Name, settings: Settings)
    requires PhaseActs(phase, [s]) == [Do(phase, s)]
    ensures PlayAll(x, StageActs(phase, [s]), settings)
         == Play(Play(x, Say(StageOf(phase)), settings), Do(phase, s), settings)
  {
    PlayConcat(x, [Say(StageOf(phase))], PhaseActs(phase, [s]), settings);
    PlayOne(x, Say(StageOf(phase)), settings);
    PlayOne(Play(x, Say(StageOf(phase)), settings), Do(phase, s), settings);
  }

  lemma StopsHalfWay(x: Scene, s: Name, desired: Settings, more: seq<Answer>)
    requires x.going && s in x.services && s in desired && x.answers == Halting(x.services, s, desired) + more
    requires Arrives(x.reports) && Arrives(Rest(x.reports)) && Arrives(Rest(Rest(x.reports)))
    ensures PlayAll(x, ForwardActs([s]), desired)
         == Scene(HalfWay(x.services, s, desired), more, x.failures + 1, Rest(Rest(Rest(x.reports))), Restarting,
                  x.reported + {Draining, Applying, Restarting}, false)
  {
    hide PlayAll, PhaseActs, StageActs;
    ActsOnOne(s);
    var one, two := StageActs(DrainPhase, [s]), StageActs(ReplacePhase, [s]);
    var three, four := StageActs(RestartPhase, [s]), StageActs(ValidatePhase, [s]);
    PlayOn(x, one + two + three, four, desired);
    PlayOn(x, one + two, three, desired);
    PlayOn(x, one, two, desired);
    PlayStage(x, DrainPhase, s, desired);
    var drained := PlayAll(x, one, desired);
    PlayStage(drained, ReplacePhase, s, desired);
    var replaced := PlayAll(drained, two, desired);
    assert replaced.services == HalfWay(x.services, s, desired) && replaced.answers == [x.answers[2]] + more;
    PlayStage(replaced, RestartPhase, s, desired);
    assert HalfWay(x.services, s, desired)[s := x.answers[2].leaves] == HalfWay(x.services, s, desired);
  }

  /** Why the way back does not succeed, although the other two conditions for it are met. */
  datatype Reason = ReportLost | NoPriorValues | CallFails

  /** The reports and calls by which that happens. */
  function Reports(why: Reason): seq<bool> {
    if why.ReportLost? then [true, true, true, true, false] else []
  }

  function Answers(services: map<Name, ServiceState>, s: Name, desired: Settings, why: Reason): seq<Answer>
    requires s in services && s in desired
  {
    Halting(services, s, desired)
    + if why.CallFails? then [Breaks(HalfWay(services, s, desired)[s])] else []
  }

  /** Each of the three leaves the service with its new values. */
  lemma EndsHalfWay(services: map<Name, ServiceState>, s: Name, desired: Settings, prior: Settings, why: Reason)
    requires s in services && s in desired && (s in prior <==> !why.NoPriorValues?)
    ensures var x := Scene(services, Answers(services, s, desired, why), 0, Reports(why), Preflight, {}, true);
            var end := Applied(x, [s], desired, prior);
            && end.services == HalfWay(services, s, desired)
            && (RollingBack in end.reported <==> !why.ReportLost?) && end.failures == if why.CallFails? then 2 else 1
  {
    hide PlayAll, ForwardActs;
    var half := HalfWay(services, s, desired);
    var more := if why.CallFails? then [Breaks(half[s])] else [];
    var x := Scene(services, Answers(services, s, desired, why), 0, Reports(why), Preflight, {}, true);
    StopsHalfWay(Play(x, Say(Preflight), desired), s, desired, more);
    var turn := PlayAll(Play(x, Say(Preflight), desired), ForwardActs([s]), desired).(going := true);
    var told := Play(turn, Say(RollingBack), prior);
    ActsOnOne(s);
    PlayThree(told, s, prior);
    assert half[s := half[s]] == half;
  }

  /**
   The change is really carried out, and stays half done: a service keeps its new values although it is not put back.
   So none of the three conditions of the roll-back can be left out: the report, the prior values, and that no call
   of the roll-back fails.
   */
  method StaysHalfDone(services: map<Name, ServiceState>, s: Name, desired: Settings, prior: Settings, why: Reason)
    returns (rt: Runtime, reporter: Reporter, outcome: Outcome)
    requires s in services && s in desired && Affected(desired, prior) == {s} && (s in prior <==> !why.NoPriorValues?)
    ensures rt.services == HalfWay(services, s, desired) && outcome.Raised? && RolledBack !in reporter.reported
    ensures !(s in prior && InEffect(rt.services, s, prior[s]))
    ensures RollingBack in reporter.reported <==> !why.ReportLost?
    ensures s in prior <==> !why.NoPriorValues?
    ensures rt.failures == if why.CallFails? then 2 else 1
  {
    hide Applied, Stops, AllCalls, BackCalls;
    rt := new Runtime(services, Answers(services, s, desired, why));
    reporter := new Reporter(Reports(why));
    EndsHalfWay(services, s, desired, prior, why);
    ghost var t;
    outcome, t := Apply(rt, reporter, desired, prior);
    OnlyName(t.names, s);
    assert s in {s} && s in Affected(desired, prior);
  }

  lemma OnlyName(names: seq<Name>, s: Name)
    requires SortedListing(names, {s})
    ensures names == [s]
  {
    SortedListingUnique(names, [s], {s});
  }
}
