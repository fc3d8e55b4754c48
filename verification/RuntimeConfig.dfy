// src/autobench/runtime_config.py: what a benchmarker sets at run time, kept per issuer over the
// instance's file.
module RuntimeConfig {
  import opened Wrappers

  datatype Value = Null | Str(s: string) | Flag(on: bool)

  type Fields = map<string, Value>

  datatype Section = MLflow | S3

  // ConfigUpdateRequest: of each section it has, the fields the caller set, null among the values.
  datatype Update = Update(mlflow: Option<Fields>, s3: Option<Fields>) {
    function Of(section: Section): Option<Fields> {
      if section.MLflow? then mlflow else s3
    }
  }

  // The sections of an InstanceConfig that the Service enacts, every field with a value.
  datatype Config = Config(mlflow: Fields, s3: Fields) {
    function Of(section: Section): Fields {
      if section.MLflow? then mlflow else s3
    }
  }

  // ---------------------------------------------------------------- the overrides as a value

  type Sections = map<Section, Fields>

  type Overrides = map<string, Sections>

  function FieldsIn(sections: Sections, section: Section): Fields {
    if section in sections then sections[section] else map[]
  }

  function Merged(sections: Sections, section: Section, incoming: Option<Fields>): Sections {
    if incoming.None? then sections else sections[section := FieldsIn(sections, section) + incoming.value]
  }

  function SectionsOf(all: Overrides, iss: string): Sections {
    if iss in all then all[iss] else map[]
  }

  function Applied(all: Overrides, iss: string, update: Update): Overrides {
    all[iss := Merged(Merged(SectionsOf(all, iss), MLflow, update.mlflow), S3, update.s3)]
  }

  function Overlaid(all: Overrides, iss: string, base: Config): Config {
    Config(base.mlflow + FieldsIn(SectionsOf(all, iss), MLflow), base.s3 + FieldsIn(SectionsOf(all, iss), S3))
  }

  // ---------------------------------------------------------------- the store

  // The dict of one issuer.
  class OverrideDict {
    var sections: Sections

    constructor ()
      ensures sections == map[]
    {
      sections := map[];
    }

    method Merge(section: Section, incoming: Option<Fields>)
      modifies this
      ensures sections == Merged(old(sections), section, incoming)
    {
      if incoming.Some? {
        var merged := if section in sections then sections[section] else map[];
        merged := merged + incoming.value;
        sections := sections[section := merged];
      }
    }

    method Take(update: Update)
      modifies this
      ensures sections == Merged(Merged(old(sections), MLflow, update.mlflow), S3, update.s3)
    {
      Merge(MLflow, update.mlflow);
      Merge(S3, update.s3);
    }
  }

  class RuntimeConfigStore {
    var overrides: map<string, OverrideDict>

    constructor ()
      ensures Valid() && View() == map[] && Dicts() == {}
    {
      overrides := map[];
    }

    ghost function Dicts(): set<OverrideDict>
      reads this
    {
      set i | i in overrides :: overrides[i]
    }

    // No dict stands under two issuers.
    ghost predicate Valid()
      reads this
    {
      forall i, j :: i in overrides && j in overrides && i != j ==> overrides[i] != overrides[j]
    }

    ghost function View(): Overrides
      reads this, Dicts()
    {
      map i | i in overrides :: overrides[i].sections
    }

    // The dict of an issuer, made empty if there was none.
    method SetDefault(iss: string) returns (current: OverrideDict)
      requires Valid()
      modifies this
      ensures Valid() && iss in overrides && current == overrides[iss]
      ensures Dicts() <= old(Dicts()) + {current} && (current in old(Dicts()) || fresh(current))
      ensures View() == old(View())[iss := SectionsOf(old(View()), iss)]
    {
      if iss !in overrides {
        current := new OverrideDict();
        overrides := overrides[iss := current];
      }
      current := overrides[iss];
    }

    method Apply(iss: string, update: Update)
      requires Valid()
      modifies this, Dicts()
      ensures Valid() && fresh(Dicts() - old(Dicts()))
      ensures View() == Applied(old(View()), iss, update)
    {
      var current := SetDefault(iss);
      ghost var before := View();
      assert before[iss] == current.sections;
      current.Take(update);
      assert View() == before[iss := current.sections];
    }

    method Effective(iss: string, base: Config) returns (eff: Config)
      ensures eff == Overlaid(View(), iss, base)
    {
      if iss !in overrides || overrides[iss].sections == map[] {
        return base;
      }
      var sections := overrides[iss].sections;
      var mlflow := if MLflow in sections then sections[MLflow] else map[];
      var s3 := if S3 in sections then sections[S3] else map[];
      return Config(base.mlflow + mlflow, base.s3 + s3);
    }

    method Response(iss: string, base: Config) returns (shown: Config)
      ensures shown == Redacted(Overlaid(View(), iss, base))
    {
      var eff := Effective(iss, base);
      return Config(Redact(eff.mlflow), Redact(eff.s3));
    }
  }

  // ---------------------------------------------------------------- redaction

  const MASK := Str("***")

  predicate IsSecret(name: string) {
    name in ["secret_access_key", "client_secret", "password", "bearer_token"]
  }

  function Redact(fields: Fields): Fields {
    map k | k in fields :: if fields[k] != Null && IsSecret(k) then MASK else fields[k]
  }

  function Redacted(c: Config): Config {
    Config(Redact(c.mlflow), Redact(c.s3))
  }

  // A response shows every field of the effective configuration; only a secret that is set is shown
  // otherwise, and no secret is shown as it is unless it is null or the mask itself.
  lemma RedactedShows(c: Config, section: Section, name: string)
    requires name in c.Of(section)
    ensures Redacted(c).Of(section).Keys == c.Of(section).Keys
    ensures var shown, held := Redacted(c).Of(section)[name], c.Of(section)[name];
      var secret := name in {"secret_access_key", "client_secret", "password", "bearer_token"};
      && (shown == held <==> !secret || held == Null || held == Str("***"))
      && (secret ==> shown == Null || shown == Str("***"))
      && (shown == Null <==> held == Null)
  {
    assert MASK != Null;
  }

  // ---------------------------------------------------------------- histories

  datatype Call = Call(iss: string, update: Update)

  function After(history: seq<Call>): Overrides {
    if history == [] then map[]
    else
      var n := |history| - 1;
      Applied(After(history[..n]), history[n].iss, history[n].update)
  }

  predicate Sets(call: Call, iss: string, section: Section, name: string) {
    call.iss == iss && call.update.Of(section).Some? && name in call.update.Of(section).value
  }

  lemma MergedSections(all: Overrides, call: Call, iss: string, section: Section)
    ensures var before, now := FieldsIn(SectionsOf(all, iss), section),
        FieldsIn(SectionsOf(Applied(all, call.iss, call.update), iss), section);
      if call.iss == iss && call.update.Of(section).Some? then now == before + call.update.Of(section).value
      else now == before
  {
  }

  lemma {:induction false} StoredIsLastSet(history: seq<Call>, iss: string, section: Section, name: string, i: nat)
    requires i < |history| && Sets(history[i], iss, section, name)
    requires forall j :: i < j < |history| ==> !Sets(history[j], iss, section, name)
    ensures var stored := FieldsIn(SectionsOf(After(history), iss), section);
      name in stored && stored[name] == history[i].update.Of(section).value[name]
  {
    var n := |history| - 1;
    MergedSections(After(history[..n]), history[n], iss, section);
    if i >= n {
    } else {
      assert history[..n][i] == history[i] && !Sets(history[n], iss, section, name);
      StoredIsLastSet(history[..n], iss, section, name, i);
    }
  }

  lemma {:induction false} NeverSetNotStored(history: seq<Call>, iss: string, section: Section, name: string)
    requires forall j :: 0 <= j < |history| ==> !Sets(history[j], iss, section, name)
    ensures name !in FieldsIn(SectionsOf(After(history), iss), section)
  {
    if history == [] {
    } else {
      var n := |history| - 1;
      MergedSections(After(history[..n]), history[n], iss, section);
      assert !Sets(history[n], iss, section, name);
      NeverSetNotStored(history[..n], iss, section, name);
    }
  }

  // A field has what the issuer's last update that set it gave it, null included.
  lemma {:induction false} LastSetWins(history: seq<Call>, iss: string, base: Config, section: Section, name: string,
                                         i: nat)
    requires i < |history| && Sets(history[i], iss, section, name)
    requires forall j :: i < j < |history| ==> !Sets(history[j], iss, section, name)
    ensures var eff := Overlaid(After(history), iss, base).Of(section);
      name in eff && eff[name] == history[i].update.Of(section).value[name]
  {
    StoredIsLastSet(history, iss, section, name, i);
  }

  // A field that none of the issuer's updates set is the file's.
  lemma {:induction false} NeverSetKeepsBase(history: seq<Call>, iss: string, base: Config, section: Section,
                                               name: string)
    requires forall j :: 0 <= j < |history| ==> !Sets(history[j], iss, section, name)
    ensures var eff := Overlaid(After(history), iss, base).Of(section);
      && (name in eff <==> name in base.Of(section))
      && (name in eff ==> eff[name] == base.Of(section)[name])
  {
    NeverSetNotStored(history, iss, section, name);
  }

  function Own(history: seq<Call>, iss: string): seq<Call> {
    if history == [] then []
    else
      var n := |history| - 1;
      Own(history[..n], iss) + if history[n].iss == iss then [history[n]] else []
  }

  // What other issuers did makes no difference.
  lemma {:induction false} OthersDoNotMatter(history: seq<Call>, iss: string)
    ensures SectionsOf(After(history), iss) == SectionsOf(After(Own(history, iss)), iss)
  {
    if history == [] {
    } else {
      var n := |history| - 1;
      OthersDoNotMatter(history[..n], iss);
      var own := Own(history[..n], iss);
      if history[n].iss == iss {
        assert (own + [history[n]])[..|own|] == own;
      } else {
        assert own + [] == own;
      }
    }
  }
}
