/**
 Filling in generated attributes before a record is stored: which policy, which scope, which
 ancestors and which segment reach the numbering.
 */
module Generator {
  import opened Wrappers
  import opened SequenceCodes
  import opened Sequences

  datatype AutoGenerate =
    | StochasticBase36(prefix: Option<string>, length: Option<nat>)
    | SequentialBlock(prefix: Option<string>, padding: Option<nat>, resolution: Option<Resolution>)
    | UnknownStrategy

  datatype Attribute = Attribute(name: string, autoGenerate: Option<AutoGenerate>, isScope: bool, isScopeVia: bool)

  datatype Strategy = Base36(prefix: string, length: nat) | Sequential(config: Config)

  /// A JSON value: text, or anything else.
  datatype Value = Str(text: string) | Other(id: nat)

  type Payload = map<string, Value>

  datatype ScopeContext = ScopeContext(segment: Option<string>, ancestors: seq<string>)

  function OrElse<T>(o: Option<T>, default: T): T {
    if o.Some? then o.value else default
  }

  /// How an attribute is generated, if at all. An attribute the scope goes through is
  /// numbered even without a usable block.
  function StrategyOf(attr: Attribute): Option<Strategy> {
    match attr.autoGenerate
    case Some(StochasticBase36(prefix, length)) => Some(Base36(OrElse(prefix, ""), OrElse(length, 7)))
    case Some(SequentialBlock(prefix, padding, resolution)) =>
      Some(Sequential(Config(attr.name, OrElse(prefix, ""), OrElse(padding, 4), OrElse(resolution, Exactly))))
    case _ => if attr.isScopeVia then Some(Sequential(Config(attr.name, "", 4, Exactly))) else None
  }

  /// What a missing part of a block stands for, and what happens without a block.
  lemma StrategyDefaults(attr: Attribute)
    ensures attr.autoGenerate == Some(SequentialBlock(None, None, None)) ==>
              StrategyOf(attr) == Some(Sequential(Config(attr.name, "", 4, Exactly)))
    ensures attr.autoGenerate == Some(StochasticBase36(None, None)) ==> StrategyOf(attr) == Some(Base36("", 7))
    ensures attr.autoGenerate.None? ==> (StrategyOf(attr).Some? <==> attr.isScopeVia)
    ensures attr.isScopeVia ==> StrategyOf(attr).Some?
  {
  }

  function FindScopeField(model: seq<Attribute>): Option<string> {
    if model == [] then None
    else if model[0].isScope || model[0].isScopeVia then Some(model[0].name)
    else FindScopeField(model[1..])
  }

  /// The scope field is the first attribute that is a scope or that one goes through.
  lemma {:induction false} ScopeFieldIsFirst(model: seq<Attribute>, name: string)
    ensures FindScopeField(model) == Some(name) <==>
            exists n :: 0 <= n < |model| && (model[n].isScope || model[n].isScopeVia) && model[n].name == name
                        && forall m :: 0 <= m < n ==> !model[m].isScope && !model[m].isScopeVia
  {
    if model != [] {
      ScopeFieldIsFirst(model[1..], name);
      if !(model[0].isScope || model[0].isScopeVia) {
        if FindScopeField(model) == Some(name) {
          var n :| 0 <= n < |model[1..]| && (model[1..][n].isScope || model[1..][n].isScopeVia) && model[1..][n].name == name
                   && forall m :: 0 <= m < n ==> !model[1..][m].isScope && !model[1..][m].isScopeVia;
          assert model[n + 1] == model[1..][n];
          assert forall m :: 1 <= m < n + 1 ==> model[m] == model[1..][m - 1];
        }
        forall n | 0 <= n < |model| && (model[n].isScope || model[n].isScopeVia) && model[n].name == name
                   && forall m :: 0 <= m < n ==> !model[m].isScope && !model[m].isScopeVia
          ensures FindScopeField(model[1..]) == Some(name)
        {
          assert model[1..][n - 1] == model[n];
          assert forall m :: 0 <= m < n - 1 ==> model[1..][m] == model[m + 1];
        }
      }
    }
  }

  /// apply_policy: the tenant's row wins over the static configuration, part by part.
  function ApplyPolicy(config: Config, policy: Policy): Config {
    Config(config.name, OrElse(policy.prefix, config.prefix), OrElse(policy.padding, config.padding),
           OrElse(policy.resolution, config.resolution))
  }

  /// The policy a read of the global row finds.
  function PolicyIn(rows: Rows, tenant: string, field: string): Policy {
    var code := GlobalCode(tenant, field);
    if code in rows then rows[code].policy else Policy(None, None, None)
  }

  function ScopeTagIn(payload: Payload, field: Option<string>): Option<string> {
    if field.Some? && field.value in payload && payload[field.value].Str? then Some(payload[field.value].text) else None
  }

  /// Whether a mint may look at ancestors and show a segment.
  predicate Inherits(scope: Option<ScopeContext>, tag: Option<string>, config: Config) {
    scope.Some? && tag.Some? && config.resolution == NearestRegistered
  }

  /// How one number came about: the mint, and how many candidates were read for it.
  datatype Origin = Origin(polled: nat, mint: Mint)

  /// The number was printed under the policy that the first call found, taken from the own
  /// scope's counter or, only if the policy says so and a scope is known, from the nearest
  /// ancestor's that was active when read, or from the global one, and it follows the number
  /// that the last call found there. Every call finds the rows left by what others did before.
  ghost predicate Justified(o: Origin, start: Rows, others: nat -> seq<string>, config: Config, tenant: string,
                            record: Payload, scope: Option<ScopeContext>, field: Option<string>)
  {
    var found := Seen(start, others, o.polled + 2);
    var global := GlobalCode(tenant, config.name);
    var policy := if global in found[0] then found[0][global].policy else Policy(None, None, None);
    var tag := if field.Some? && field.value in record && record[field.value].Str? then Some(record[field.value].text) else None;
    var resolution := if policy.resolution.Some? then policy.resolution.value else config.resolution;
    var inherits := scope.Some? && tag.Some? && resolution == NearestRegistered;
    && o.mint.prefix == (if policy.prefix.Some? then policy.prefix.value else config.prefix)
    && o.mint.padding == (if policy.padding.Some? then policy.padding.value else config.padding)
    && o.mint.segment == (if inherits then scope.value.segment else None)
    && NearestActive(o.mint.code, found[1..o.polled + 1], tenant, config.name, tag, if inherits then scope.value.ancestors else [])
    && o.mint.value == Current(found[o.polled + 1], o.mint.code) + 1
  }

  /// The first attribute of a name decides how it is generated.
  predicate FirstOfName(model: seq<Attribute>, n: nat) {
    n < |model| && StrategyOf(model[n]).Some?
    && forall m :: 0 <= m < n && StrategyOf(model[m]).Some? ==> model[m].name != model[n].name
  }

  function Generated(model: seq<Attribute>): set<string> {
    set n | 0 <= n < |model| && StrategyOf(model[n]).Some? :: model[n].name
  }

  /// The rows that the policy read, the candidate reads and the increment find.
  lemma FoundRows(start: Rows, others: nat -> seq<string>, polled: nat)
    ensures var found, first := Seen(start, others, polled + 2), IncrementAll(start, others(0));
            && found[0] == first && found[1..polled + 1] == Seen(first, Later(others), polled)
            && found[polled + 1] == IncrementAll(first, Joined(Later(others), polled + 1))
  {
    hide IncrementAll;
    var found := Seen(start, others, polled + 2);
    SeenLater(start, others, polled);
    assert found[1..polled + 1] == Seen(start, others, polled + 1)[1..];
    assert Joined(others, 1) == Joined(others, 0) + others(0) == others(0);
    JoinedLater(others, polled + 1);
    IncrementsJoin(start, others(0), Joined(Later(others), polled + 1));
  }

  lemma JustifiedByMint(o: Origin, start: Rows, others: nat -> seq<string>, config: Config, tenant: string,
                        record: Payload, scope: Option<ScopeContext>, field: Option<string>)
    requires
      var first := IncrementAll(start, others(0));
      var last := IncrementAll(first, Joined(Later(others), o.polled + 1));
      var effective := ApplyPolicy(config, PolicyIn(first, tenant, config.name));
      var tag := ScopeTagIn(record, field);
      var inherits := Inherits(scope, tag, effective);
      && o.mint.prefix == effective.prefix && o.mint.padding == effective.padding
      && o.mint.segment == (if inherits then scope.value.segment else None)
      && NearestActive(o.mint.code, Seen(first, Later(others), o.polled), tenant, config.name, tag,
                       if inherits then scope.value.ancestors else [])
      && o.mint.value == Current(last, o.mint.code) + 1
    ensures Justified(o, start, others, config, tenant, record, scope, field)
  {
    hide NearestActive, GlobalCode, IncrementAll, Current, Seen, Joined;
    SeenIsAsLong(start, others, o.polled + 2);
    FoundRows(start, others, o.polled);
  }

  lemma SeenIsAsLong(start: Rows, others: nat -> seq<string>, polled: nat)
    ensures |Seen(start, others, polled)| == polled
  {
  }

  /// The sequential branch: read the tenant's policy, resolve the scope, mint. `calls` counts
  /// the calls that others ran before, `taken` says whether a number was used up.
  method GenerateNumber(registry: Registry, config: Config, tenant: string, record: Payload,
                        scope: Option<ScopeContext>, field: Option<string>,
                        others: nat -> seq<string>, faults: nat -> Fault)
    returns (r: Result<string, StoreError>, ghost origin: Origin, ghost calls: nat, ghost taken: bool)
    modifies registry
    ensures registry.rows == IncrementAll(old(registry.rows), Joined(others, calls) + if taken then [origin.mint.code] else [])
    ensures r.Ok? ==> taken && r.value == Printed(origin.mint)
    ensures taken ==> calls == origin.polled + 2 && Justified(origin, old(registry.rows), others, config, tenant, record, scope, field)
    ensures r.Err? ==> calls > 0 && (!faults(calls - 1).Fine? || !faults(calls).Fine?)
  {
    hide ScopeTagIn, PolicyIn, NearestActive, GlobalCode, IncrementAll, Current, Printed, Seen, Justified, Joined;
    ghost var start := registry.rows;
    origin, calls, taken := Origin(0, Mint("", 0, "", None, 0)), 1, false;
    registry.Interfere(others(0));
    FirstCall(others);
    if faults(0) != Fine {
      return Err(StoreError), origin, calls, taken;
    }
    var effective := ApplyPolicy(config, PolicyIn(registry.rows, tenant, config.name));
    var tag := ScopeTagIn(record, field);
    var inherits := Inherits(scope, tag, effective);
    var ancestors := if inherits then scope.value.ancestors else [];
    var segment := if inherits then scope.value.segment else None;
    ghost var mint, polled;
    r, mint, taken, polled := registry.Next(effective, tag, tenant, ancestors, segment,
                                            Later(others), (k: nat) => faults(k + 1));
    origin, calls := Origin(polled, mint), polled + 2;
    LaterRows(start, others, polled + 1, if taken then [mint.code] else []);
    if taken {
      JustifiedByMint(origin, start, others, config, tenant, record, scope, field);
    }
  }

  lemma FirstCall(others: nat -> seq<string>)
    ensures Joined(others, 1) + [] == others(0)
  {
    assert Joined(others, 1) == Joined(others, 0) + others(0);
  }

  lemma LaterRows(start: Rows, others: nat -> seq<string>, n: nat, last: seq<string>)
    ensures IncrementAll(IncrementAll(start, others(0)), Joined(Later(others), n) + last) == IncrementAll(start, Joined(others, n + 1) + last)
  {
    hide IncrementAll;
    JoinedLater(others, n);
    IncrementsJoin(start, others(0), Joined(Later(others), n) + last);
    assert others(0) + (Joined(Later(others), n) + last) == Joined(others, n + 1) + last;
  }

  /// What one injection is about. `random` stands for the Base36 source, `others` for what
  /// others do before each call to the store while attribute n is filled in.
  datatype Setting = Setting(model: seq<Attribute>, tenant: string, payload: Payload, scope: Option<ScopeContext>,
                             random: (nat, string, nat) -> string, others: (nat, nat) -> seq<string>)

  function Around(c: Setting, n: nat): nat -> seq<string> {
    (k: nat) => c.others(n, k)
  }

  /// Every increment, others' and one's own, while the attributes of `origins` were filled in.
  function MadeBy(c: Setting, origins: seq<Option<Origin>>): seq<string> {
    if origins == [] then []
    else
      var n := |origins| - 1;
      MadeBy(c, origins[..n]) +
      match origins[n]
      case Some(o) => Joined(Around(c, n), o.polled + 2) + [o.mint.code]
      case None => []
  }

  /// The record as it was before attribute n was filled in.
  function Before(c: Setting, record: Payload, n: nat): Payload
    requires n <= |c.model|
  {
    map k | k in record && (k in c.payload || k in Generated(c.model[..n])) :: record[k]
  }

  predicate IsDue(c: Setting, n: nat) {
    FirstOfName(c.model, n) && c.model[n].name !in c.payload
  }

  predicate IsNumbered(c: Setting, n: nat) {
    IsDue(c, n) && StrategyOf(c.model[n]).value.Sequential?
  }

  /// The next attribute is numbered, and this is a justified origin for it after the given ones.
  ghost predicate Due(c: Setting, start: Rows, record: Payload, origins: seq<Option<Origin>>, o: Origin) {
    var n := |origins|;
    && n < |c.model| && StrategyOf(c.model[n]).Some? && StrategyOf(c.model[n]).value.Sequential?
    && Justified(o, IncrementAll(start, MadeBy(c, origins)), Around(c, n), StrategyOf(c.model[n]).value.config, c.tenant,
                 record, c.scope, FindScopeField(c.model))
  }

  /// Attribute n of the record is what its strategy produces after the given origins.
  ghost predicate FilledIn(c: Setting, start: Rows, record: Payload, origins: seq<Option<Origin>>, o: Option<Origin>)
    requires |origins| < |c.model| && StrategyOf(c.model[|origins|]).Some?
  {
    var n := |origins|;
    var name := c.model[n].name;
    && name in record
    && match StrategyOf(c.model[n]).value
       case Base36(prefix, length) => record[name] == Str(c.random(n, prefix, length))
       case Sequential(config) => o.Some? && record[name] == Str(Printed(o.value.mint)) && Due(c, start, Before(c, record, n), origins, o.value)
  }

  /// Every attribute that was due so far is filled in, and the numbered ones have an origin.
  ghost predicate Filled(c: Setting, start: Rows, record: Payload, origins: seq<Option<Origin>>) {
    && |origins| <= |c.model|
    && (forall n :: 0 <= n < |origins| ==> (origins[n].Some? <==> IsNumbered(c, n)))
    && (forall n :: 0 <= n < |origins| && IsDue(c, n) ==> FilledIn(c, start, record, origins[..n], origins[n]))
  }

  /// inject: every attribute to generate that the record lacks gets one value; nothing the
  /// record had is touched. `faults` is what happens to each call to the store. `origins` and
  /// `record` say how far it came: if a call fails, it is for the next attribute, after
  /// `calls` rounds of others, and `lost` is a number that was used up all the same.
  method Inject(registry: Registry, c: Setting, faults: (nat, nat) -> Fault)
    returns (r: Result<Payload, StoreError>, ghost record: Payload, ghost origins: seq<Option<Origin>>,
             ghost calls: nat, ghost lost: Option<Origin>)
    modifies registry
    ensures |origins| <= |c.model| && record.Keys == c.payload.Keys + Generated(c.model[..|origins|])
    ensures forall k :: k in c.payload ==> record[k] == c.payload[k]
    ensures Filled(c, old(registry.rows), record, origins)
    ensures r.Ok? ==> |origins| == |c.model| && r.value == record
    ensures r.Ok? ==> registry.rows == IncrementAll(old(registry.rows), MadeBy(c, origins))
    ensures r.Err? ==> |origins| < |c.model| && calls > 0 &&
                       (!faults(|origins|, calls - 1).Fine? || !faults(|origins|, calls).Fine?)
    ensures r.Err? && lost.None? ==>
              registry.rows == IncrementAll(old(registry.rows), MadeBy(c, origins) + Joined(Around(c, |origins|), calls))
    ensures r.Err? && lost.Some? ==>
              && registry.rows == IncrementAll(old(registry.rows), MadeBy(c, origins + [lost]))
              && calls == lost.value.polled + 2
              && Due(c, old(registry.rows), record, origins, lost.value)
    ensures Generated(c.model) == {} ==> registry.rows == old(registry.rows)
  {
    hide Justified, StrategyOf, Printed, Filled, Generated, FirstOfName, FilledIn, Before, IncrementAll, Joined, MadeBy;
    ghost var start := registry.rows;
    var field := FindScopeField(c.model);
    var enriched := c.payload;
    record, origins, calls, lost := enriched, [], 0, None;
    var n: nat := 0;
    NothingFilled(c, start);
    while n < |c.model|
      invariant 0 <= n <= |c.model| && |origins| == n
      invariant enriched.Keys == c.payload.Keys + Generated(c.model[..n])
      invariant forall k :: k in c.payload ==> enriched[k] == c.payload[k]
      invariant Filled(c, start, enriched, origins) && record == enriched
      invariant registry.rows == IncrementAll(start, MadeBy(c, origins))
      invariant Generated(c.model[..n]) == {} ==> registry.rows == old(registry.rows)
    {
      GeneratedStep(c.model, n);
      var strategy := StrategyOf(c.model[n]);
      if strategy.Some? && c.model[n].name !in enriched {
        var value;
        ghost var was, made := enriched, None;
        match strategy.value {
          case Base36(prefix, length) =>
            value := c.random(n, prefix, length);
          case Sequential(config) =>
            ghost var origin, taken;
            var printed;
            printed, origin, calls, taken := GenerateNumber(registry, config, c.tenant, enriched, c.scope, field,
                                                            Around(c, n), (k: nat) => faults(n, k));
            if printed.Err? {
              if taken {
                lost := Some(origin);
                MadeStep(c, start, origins, lost);
              } else {
                LastCalls(c, start, origins, Joined(Around(c, n), calls));
              }
              return Err(StoreError), record, origins, calls, lost;
            }
            value := printed.value;
            made := Some(origin);
        }
        enriched := enriched[c.model[n].name := Str(value)];
        MadeStep(c, start, origins, made);
        AllBefore(c, was, enriched, n);
        FilledHere(c, start, enriched, origins, made);
        FilledStep(c, start, was, enriched, origins, made);
        origins, record := origins + [made], enriched;
      } else {
        NotFilled(c, start, enriched, origins);
        MadeStep(c, start, origins, None);
        origins := origins + [None];
      }
      n := n + 1;
    }
    assert c.model[..n] == c.model;
    r := Ok(enriched);
  }

  lemma LastCalls(c: Setting, start: Rows, origins: seq<Option<Origin>>, joined: seq<string>)
    ensures IncrementAll(IncrementAll(start, MadeBy(c, origins)), joined + []) == IncrementAll(start, MadeBy(c, origins) + joined)
  {
    hide IncrementAll;
    IncrementsJoin(start, MadeBy(c, origins), joined);
    assert joined + [] == joined;
  }

  lemma MadeStep(c: Setting, start: Rows, origins: seq<Option<Origin>>, made: Option<Origin>)
    ensures var rows := IncrementAll(start, MadeBy(c, origins));
            IncrementAll(start, MadeBy(c, origins + [made])) ==
            if made.None? then rows
            else IncrementAll(rows, Joined(Around(c, |origins|), made.value.polled + 2) + [made.value.mint.code])
  {
    hide IncrementAll;
    var n := |origins|;
    assert (origins + [made])[..n] == origins;
    if made.None? {
      assert MadeBy(c, origins) + [] == MadeBy(c, origins);
    } else {
      IncrementsJoin(start, MadeBy(c, origins), Joined(Around(c, n), made.value.polled + 2) + [made.value.mint.code]);
    }
  }

  /// All that the record held is what it held before the attribute was added.
  lemma AllBefore(c: Setting, was: Payload, record: Payload, n: nat)
    requires n < |c.model| && was.Keys == c.payload.Keys + Generated(c.model[..n])
    requires c.model[n].name !in was && c.model[n].name in record && record == was[c.model[n].name := record[c.model[n].name]]
    ensures Before(c, record, n) == was
  {
    hide Generated;
  }

  lemma NothingFilled(c: Setting, start: Rows)
    ensures Filled(c, start, c.payload, [])
    ensures Generated(c.model[..0]) == {}
    ensures IncrementAll(start, MadeBy(c, [])) == start
  {
  }

  lemma FilledHere(c: Setting, start: Rows, record: Payload, origins: seq<Option<Origin>>, o: Option<Origin>)
    requires var n := |origins|;
             && n < |c.model| && StrategyOf(c.model[n]).Some? && c.model[n].name in record && record[c.model[n].name].Str?
             && var s := StrategyOf(c.model[n]).value;
                var text := record[c.model[n].name].text;
                if s.Base36? then text == c.random(n, s.prefix, s.length)
                else o.Some? && text == Printed(o.value.mint) && Due(c, start, Before(c, record, n), origins, o.value)
    ensures FilledIn(c, start, record, origins, o)
  {
    hide Due, StrategyOf, Printed, Before;
  }

  /// An attribute that is not generated, or that the record has by now, is skipped.
  lemma NotFilled(c: Setting, start: Rows, record: Payload, origins: seq<Option<Origin>>)
    requires |origins| < |c.model| && Filled(c, start, record, origins)
    requires record.Keys == c.payload.Keys + Generated(c.model[..|origins|])
    requires StrategyOf(c.model[|origins|]).None? || c.model[|origins|].name in record
    ensures Filled(c, start, record, origins + [None])
    ensures record.Keys == c.payload.Keys + Generated(c.model[..|origins| + 1])
  {
    hide FilledIn, StrategyOf, Generated;
    var n := |origins|;
    GeneratedStep(c.model, n);
    forall m | 0 <= m < n + 1 ensures (origins + [None])[..m] == origins[..m] {
    }
  }

  lemma GeneratedStep(model: seq<Attribute>, n: nat)
    requires n < |model|
    ensures Generated(model[..n + 1]) == Generated(model[..n]) + if StrategyOf(model[n]).Some? then {model[n].name} else {}
    ensures Generated(model[..n + 1]) <= Generated(model)
    ensures FirstOfName(model, n) ==> model[n].name !in Generated(model[..n])
  {
    hide StrategyOf;
    var a, b := model[..n], model[..n + 1];
    assert forall m :: 0 <= m < n ==> a[m] == b[m];
    assert b[n] == model[n];
    assert forall x :: x in Generated(a) ==> x in Generated(b);
  }

  lemma GeneratedUpTo(model: seq<Attribute>, n: nat)
    requires n <= |model|
    ensures forall m :: 0 <= m < n && StrategyOf(model[m]).Some? ==> model[m].name in Generated(model[..n])
  {
    hide StrategyOf;
    forall m | 0 <= m < n && StrategyOf(model[m]).Some? ensures model[m].name in Generated(model[..n]) {
      assert model[..n][m] == model[m];
    }
  }

  lemma StillFilled(c: Setting, start: Rows, was: Payload, record: Payload, origins: seq<Option<Origin>>, o: Option<Origin>, n: nat)
    requires |origins| < n < |c.model| && StrategyOf(c.model[|origins|]).Some? && FilledIn(c, start, was, origins, o)
    requires was.Keys == c.payload.Keys + Generated(c.model[..n])
    requires c.model[n].name !in was && c.model[n].name in record && record == was[c.model[n].name := record[c.model[n].name]]
    ensures FilledIn(c, start, record, origins, o)
  {
    hide Due, StrategyOf, Printed, Generated;
    var m := |origins|;
    GeneratedGrows(c.model, m, n);
    assert Before(c, record, m) == Before(c, was, m);
  }

  lemma {:induction false} GeneratedGrows(model: seq<Attribute>, m: nat, n: nat)
    requires m <= n <= |model|
    ensures Generated(model[..m]) <= Generated(model[..n])
  {
    if m < n {
      GeneratedGrows(model, m, n - 1);
      GeneratedStep(model, n - 1);
    }
  }

  lemma FilledStep(c: Setting, start: Rows, was: Payload, record: Payload, origins: seq<Option<Origin>>, o: Option<Origin>)
    requires |origins| < |c.model| && Filled(c, start, was, origins)
    requires was.Keys == c.payload.Keys + Generated(c.model[..|origins|])
    requires var n := |origins|;
             && c.model[n].name !in was && c.model[n].name in record
             && record == was[c.model[n].name := record[c.model[n].name]]
             && StrategyOf(c.model[n]).Some? && FilledIn(c, start, record, origins, o)
             && (o.Some? <==> StrategyOf(c.model[n]).value.Sequential?)
    ensures Filled(c, start, record, origins + [o])
  {
    hide Due, StrategyOf, Printed, Generated;
    var n := |origins|;
    var all := origins + [o];
    GeneratedUpTo(c.model, n);
    assert IsDue(c, n) by {
      assert forall m :: 0 <= m < n && StrategyOf(c.model[m]).Some? ==> c.model[m].name in was;
    }
    forall m | 0 <= m < n + 1 && IsDue(c, m) ensures FilledIn(c, start, record, all[..m], all[m]) {
      if m < n {
        assert all[..m] == origins[..m];
        StillFilled(c, start, was, record, origins[..m], origins[m], n);
      } else {
        assert all[..m] == origins;
      }
    }
  }
}
