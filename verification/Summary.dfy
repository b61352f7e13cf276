/** Merging many conditions into one: the summary of an object, the aggregate of several, the mirror of one. */
module Summary {
  import opened Api
  import opened Ordering
  import opened Store
  import opened Groups

  datatype MergeOptions = MergeOptions(
    conditionTypes: Option<seq<ConditionType>>,
    addSourceRef: bool,
    addStepCounter: bool,
    onlyTypes: Option<seq<ConditionType>>,
    stepCounter: nat)
  {
    /** The types listed WithConditions, in order of preference. */
    function Order(): seq<ConditionType> {
      if conditionTypes.Some? then conditionTypes.value else []
    }
  }

  const DEFAULT_OPTIONS := MergeOptions(None, false, false, None, 0)

  datatype MergeOption =
    | WithConditions(types: Option<seq<ConditionType>>)
    | WithStepCounter
    | WithStepCounterIf(value: bool)
    | WithStepCounterIfOnly(types: Option<seq<ConditionType>>)
    | AddSourceRef

  function SetOption(o: MergeOptions, option: MergeOption): MergeOptions {
    match option
    case WithConditions(ts) => o.(conditionTypes := ts)
    case WithStepCounter => o.(addStepCounter := true)
    case WithStepCounterIf(v) => o.(addStepCounter := v)
    case WithStepCounterIfOnly(ts) => o.(onlyTypes := ts)
    case AddSourceRef => o.(addSourceRef := true)
  }

  function SetOptions(o: MergeOptions, options: seq<MergeOption>): MergeOptions {
    if options == [] then o
    else SetOption(SetOptions(o, options[..|options| - 1]), options[|options| - 1])
  }

  /** The setting that an option is about. WithStepCounter and WithStepCounterIf are about the same one. */
  datatype Setting = TypesSetting | CounterSetting | OnlySetting | SourceSetting

  function SettingOf(option: MergeOption): Setting {
    match option
    case WithConditions(_) => TypesSetting
    case WithStepCounter => CounterSetting
    case WithStepCounterIf(_) => CounterSetting
    case WithStepCounterIfOnly(_) => OnlySetting
    case AddSourceRef => SourceSetting
  }

  predicate AgreeOn(setting: Setting, o: MergeOptions, o': MergeOptions) {
    match setting
    case TypesSetting => o.conditionTypes == o'.conditionTypes
    case CounterSetting => o.addStepCounter == o'.addStepCounter
    case OnlySetting => o.onlyTypes == o'.onlyTypes
    case SourceSetting => o.addSourceRef == o'.addSourceRef
  }

  /** The option has the effect its name says, on its own setting. */
  predicate IsInForce(option: MergeOption, o: MergeOptions) {
    match option
    case WithConditions(ts) => o.conditionTypes == ts
    case WithStepCounter => o.addStepCounter
    case WithStepCounterIf(v) => o.addStepCounter == v
    case WithStepCounterIfOnly(ts) => o.onlyTypes == ts
    case AddSourceRef => o.addSourceRef
  }

  lemma {:induction false} UnmentionedSettingStays(o: MergeOptions, options: seq<MergeOption>, setting: Setting)
    requires forall i | 0 <= i < |options| :: SettingOf(options[i]) != setting
    ensures AgreeOn(setting, SetOptions(o, options), o)
  {
    if options != [] {
      UnmentionedSettingStays(o, options[..|options| - 1], setting);
    }
  }

  /** Options given later override earlier ones: of those about one setting, the last is in force, whatever else is
      given before, between or after; a setting that no option is about stays as it was. */
  lemma {:induction false} LastOptionWins(o: MergeOptions, options: seq<MergeOption>, k: nat)
    requires k < |options|
    requires forall i | k < i < |options| :: SettingOf(options[i]) != SettingOf(options[k])
    ensures IsInForce(options[k], SetOptions(o, options))
    ensures forall setting | forall i | 0 <= i < |options| :: SettingOf(options[i]) != setting ::
              AgreeOn(setting, SetOptions(o, options), o)
  {
    if k < |options| - 1 {
      LastOptionWins(o, options[..|options| - 1], k);
    }
    forall setting | forall i | 0 <= i < |options| :: SettingOf(options[i]) != setting
      ensures AgreeOn(setting, SetOptions(o, options), o)
    {
      UnmentionedSettingStays(o, options, setting);
    }
  }

  /** A message is used as a format string without arguments; what that makes of it is left open. */
  type Formatter = string -> string

  function Decimal(n: nat): string {
    if n < 10 then [['0', '1', '2', '3', '4', '5', '6', '7', '8', '9'][n]]
    else Decimal(n / 10) + Decimal(n % 10)
  }

  function StepMessage(done: nat, all: nat): string {
    Decimal(done) + " of " + Decimal(all) + " completed"
  }

  function LocalizeReason(reason: string, from: Source): string {
    if '@' in reason then reason else reason + " @ " + from.kind + "/" + from.name
  }

  // The representative of a group.

  function FindType(members: seq<Located>, t: ConditionType): Option<Located> {
    if members == [] then None
    else if members[0].c.typ == t then Some(members[0])
    else FindType(members[1..], t)
  }

  function FindFirst(members: seq<Located>, order: seq<ConditionType>): Option<Located> {
    if order == [] then None
    else if FindType(members, order[0]).Some? then FindType(members, order[0])
    else FindFirst(members, order[1..])
  }

  /** The first condition of the first listed type that occurs, or else the first condition. */
  function FirstMember(members: seq<Located>, order: seq<ConditionType>): Located
    requires members != []
  {
    match FindFirst(members, order)
    case Some(x) => x
    case None => members[0]
  }

  lemma {:induction false} SoleMemberIsFirst(members: seq<Located>, order: seq<ConditionType>)
    requires |members| == 1
    ensures FirstMember(members, order) == members[0]
  {
    if order != [] {
      SoleMemberIsFirst(members, order[1..]);
      assert FindType(members[1..], order[0]) == None;
    }
  }

  method GetFirstCondition(groups: seq<Group>, order: seq<ConditionType>) returns (r: Option<Located>)
    ensures r == if groups == [] || groups[0].members == [] then None
                 else Some(FirstMember(groups[0].members, order))
  {
    if groups == [] {
      return None;
    }
    var members := groups[0].members;
    if |members| == 0 {
      return None;
    }
    if |members| == 1 {
      SoleMemberIsFirst(members, order);
      return Some(members[0]);
    }
    for p := 0 to |order|
      invariant FindFirst(members, order) == FindFirst(members, order[p..])
    {
      for i := 0 to |members|
        invariant FindType(members, order[p]) == FindType(members[i..], order[p])
      {
        if members[i].c.typ == order[p] {
          return Some(members[i]);
        }
        assert members[i..][1..] == members[i + 1..];
      }
      assert order[p..][1..] == order[p + 1..];
    }
    return Some(members[0]);
  }

  // Merging groups.

  const TRUE_KEY := Key(StatusTrue, SeverityNone)

  function TrueCount(gs: seq<Group>): nat {
    if gs == [] then 0
    else if gs[0].key == TRUE_KEY then |gs[0].members|
    else TrueCount(gs[1..])
  }

  method CountTrueGroup(gs: seq<Group>) returns (n: nat)
    ensures n == TrueCount(gs)
  {
    for i := 0 to |gs|
      invariant TrueCount(gs) == TrueCount(gs[i..])
    {
      if gs[i].key == TRUE_KEY {
        return |gs[i].members|;
      }
      assert gs[i..][1..] == gs[i + 1..];
    }
    return 0;
  }

  /** The condition that stands for `x`, given how many conditions are true. */
  function Render(x: Located, trues: nat, target: ConditionType, o: MergeOptions, fmt: Formatter): Condition {
    var reason := if o.addSourceRef then LocalizeReason(x.c.state.reason, x.from) else x.c.state.reason;
    var message := if o.addStepCounter then StepMessage(trues, o.stepCounter) else x.c.state.message;
    match x.c.state.status
    case StatusTrue => TrueCondition(target)
    case StatusFalse => FalseCondition(target, reason, x.c.state.severity, fmt(message))
    case _ => UnknownCondition(target, reason, fmt(message))
  }

  /** `r` is what merging can make of `xs`: sorting leaves open which grouping is met. */
  ghost predicate MergesInto(
    xs: seq<Located>, target: ConditionType, o: MergeOptions, fmt: Formatter, r: Option<Condition>)
  {
    exists gs :: IsSortedGrouping(xs, gs) && r == MergeGroups(gs, target, o, fmt)
  }

  function MergeGroups(gs: seq<Group>, target: ConditionType, o: MergeOptions, fmt: Formatter): Option<Condition> {
    if gs == [] || gs[0].members == [] then None
    else Some(RenderGroup(gs[0].key, FirstMember(gs[0].members, o.Order()), TrueCount(gs), target, o, fmt))
  }

  function RenderGroup(
    key: Key, x: Located, trues: nat, target: ConditionType, o: MergeOptions, fmt: Formatter): Condition
  {
    Render(x.(c := x.c.(state := x.c.state.(status := key.status, severity := key.severity))), trues, target, o, fmt)
  }

  method Merge(conditions: seq<Candidate>, target: ConditionType, o: MergeOptions, fmt: Formatter)
    returns (r: Option<Condition>)
    ensures MergesInto(NonNil(conditions), target, o, fmt, r)
  {
    var groups := GetConditionGroups(conditions);
    if groups == [] {
      r := None;
      assert r == MergeGroups(groups, target, o, fmt);
      return;
    }
    assert groups[0] in groups;
    var top := groups[0];
    if top.key.status == StatusTrue {
      r := Some(TrueCondition(target));
      assert r == MergeGroups(groups, target, o, fmt);
      return;
    }
    var first := GetFirstCondition(groups, o.Order());
    var reason := first.value.c.state.reason;
    if o.addSourceRef {
      reason := LocalizeReason(reason, first.value.from);
    }
    var message := first.value.c.state.message;
    if o.addStepCounter {
      var trues := CountTrueGroup(groups);
      message := StepMessage(trues, o.stepCounter);
    }
    if top.key.status == StatusFalse {
      r := Some(FalseCondition(target, reason, top.key.severity, fmt(message)));
    } else {
      r := Some(UnknownCondition(target, reason, fmt(message)));
    }
    assert r == MergeGroups(groups, target, o, fmt);
  }

  // Scope and step counter of a summary.

  predicate InScope(c: Condition, o: MergeOptions) {
    c.typ != READY && (o.conditionTypes.Some? ==> c.typ in o.conditionTypes.value)
  }

  function Scope(s: seq<Condition>, from: Source, o: MergeOptions): seq<Located> {
    if s == [] then [] else
      var n := |s| - 1;
      Scope(s[..n], from, o) + if InScope(s[n], o) then [Located(s[n], from)] else []
  }

  function AsCandidates(xs: seq<Located>): seq<Candidate> {
    seq(|xs|, i requires 0 <= i < |xs| => Candidate(Some(xs[i].c), xs[i].from))
  }

  lemma {:induction false} NonNilOfCandidates(xs: seq<Located>)
    ensures NonNil(AsCandidates(xs)) == xs
  {
    if xs != [] {
      var n := |xs| - 1;
      NonNilOfCandidates(xs[..n]);
      assert AsCandidates(xs)[..n] == AsCandidates(xs[..n]);
      assert xs == xs[..n] + [xs[n]];
    }
  }

  predicate AllListed(xs: seq<Located>, types: seq<ConditionType>) {
    forall i | 0 <= i < |xs| :: xs[i].c.typ in types
  }

  /** The step counter is dropped when a condition outside the listed subset is in scope, and is sized by the
      listed subset, else by the listed conditions, else by the conditions in scope. */
  function WithCounter(o: MergeOptions, xs: seq<Located>): MergeOptions {
    var add := o.addStepCounter && (o.onlyTypes.Some? ==> AllListed(xs, o.onlyTypes.value));
    if !add then o.(addStepCounter := false)
    else o.(stepCounter := if o.onlyTypes.Some? then |o.onlyTypes.value|
                           else if o.conditionTypes.Some? then |o.conditionTypes.value|
                           else |xs|)
  }

  method Configure(start: MergeOptions, options: seq<MergeOption>) returns (o: MergeOptions)
    ensures o == SetOptions(start, options)
  {
    o := start;
    for i := 0 to |options|
      invariant o == SetOptions(start, options[..i])
    {
      assert options[..i + 1][..i] == options[..i];
      o := SetOption(o, options[i]);
    }
    assert options[..|options|] == options;
  }

  /** The Ready condition that sums up an object, if it has any condition in scope. */
  method Summarize(from: Object, name: Source, options: seq<MergeOption>, fmt: Formatter)
    returns (r: Option<Condition>)
    ensures var o := SetOptions(DEFAULT_OPTIONS, options);
            var xs := Scope(from.conditions, name, o);
            MergesInto(xs, READY, WithCounter(o, xs), fmt, r)
  {
    var o := Configure(DEFAULT_OPTIONS, options);
    var conditions := from.conditions;
    var inScope: seq<Located> := [];
    for i := 0 to |conditions|
      invariant inScope == Scope(conditions[..i], name, o)
    {
      assert conditions[..i + 1][..i] == conditions[..i];
      var c := conditions[i];
      if c.typ == READY {
        continue;
      }
      if o.conditionTypes.Some? && c.typ !in o.conditionTypes.value {
        continue;
      }
      inScope := inScope + [Located(c, name)];
    }
    assert conditions[..|conditions|] == conditions;
    var final := o;
    if final.onlyTypes.Some? {
      for i := 0 to |inScope|
        invariant final == o && AllListed(inScope[..i], o.onlyTypes.value)
      {
        if inScope[i].c.typ !in final.onlyTypes.value {
          final := final.(addStepCounter := false);
          break;
        }
      }
    }
    if final.addStepCounter {
      final := final.(stepCounter := |inScope|);
      if final.conditionTypes.Some? {
        final := final.(stepCounter := |final.conditionTypes.value|);
      }
      if final.onlyTypes.Some? {
        final := final.(stepCounter := |final.onlyTypes.value|);
      }
    }
    assert final == WithCounter(o, inScope);
    NonNilOfCandidates(inScope);
    r := Merge(AsCandidates(inScope), READY, final, fmt);
  }

  // Aggregates and mirrors.

  /** One of the objects to aggregate: its conditions and its name. */
  datatype Dependent = Dependent(list: seq<Condition>, name: Source)

  function ReadyOf(from: seq<Dependent>): seq<Candidate> {
    if from == [] then [] else
      var n := |from| - 1;
      ReadyOf(from[..n]) + [Candidate(At(Entries(from[n].list), READY), from[n].name)]
  }

  /** The Ready conditions of several objects as one condition. */
  method Aggregate(
    from: seq<Dependent>, target: ConditionType, options: seq<MergeOption>, fmt: Formatter)
    returns (r: Option<Condition>)
    ensures MergesInto(NonNil(ReadyOf(from)), target,
                       SetOptions(DEFAULT_OPTIONS.(addStepCounter := true, stepCounter := |from|), options), fmt, r)
  {
    var inScope: seq<Candidate> := [];
    for i := 0 to |from|
      invariant inScope == ReadyOf(from[..i])
    {
      assert from[..i + 1][..i] == from[..i];
      var getter := new Object(from[i].list);
      var ready := getter.Get(READY);
      inScope := inScope + [Candidate(ready, from[i].name)];
    }
    assert from[..|from|] == from;
    var o := Configure(DEFAULT_OPTIONS.(addStepCounter := true, stepCounter := |from|), options);
    r := Merge(inScope, target, o, fmt);
  }

  /** The value to use when there is nothing to mirror. */
  datatype Fallback = Fallback(value: bool, reason: string, severity: Severity, message: string)

  function FallbackOf(options: seq<Fallback>, target: ConditionType, fmt: Formatter): Option<Condition> {
    if options == [] then None else
      var last := options[|options| - 1];
      Some(if last.value then TrueCondition(target)
           else FalseCondition(target, last.reason, last.severity, fmt(last.message)))
  }

  /** The Ready condition of another object under a type of one's own: its state and its transition time are
      taken over as they are. Without one the last fallback given applies, if any. */
  method Mirror(from: Object, target: ConditionType, options: seq<Fallback>, fmt: Formatter)
    returns (r: Option<Condition>)
    ensures READY in from.Map() ==>
              r == Some(Condition(target, from.Map()[READY].state, from.Map()[READY].time))
    ensures READY !in from.Map() && options == [] ==> r == None
    ensures READY !in from.Map() && options != [] ==>
              var last := options[|options| - 1];
              r == Some(Condition(target, if last.value then State(StatusTrue, SeverityNone, "", "")
                                          else State(StatusFalse, last.severity, last.reason, fmt(last.message)), 0))
  {
    var fallback: Option<Fallback> := None;
    for i := 0 to |options|
      invariant fallback == if i == 0 then None else Some(options[i - 1])
    {
      fallback := Some(options[i]);
    }
    r := from.Get(READY);
    if fallback.Some? && r.None? {
      var f := fallback.value;
      r := if f.value then Some(TrueCondition(target))
           else Some(FalseCondition(target, f.reason, f.severity, fmt(f.message)));
    }
    if r.Some? {
      r := Some(r.value.(typ := target));
    }
  }
}
