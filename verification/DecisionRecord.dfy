/** The decision record and its dictionary form (decisionlog/record.py). */
module DecisionRecord {
  import opened Sorting
  import opened Wrappers

  /** JSON values; numbers are kept as written. */
  datatype Json = Null | Bool(b: bool) | Num(literal: string) | Str(s: string) | Arr(items: seq<Json>) | Obj(fields: map<string, Json>)

  /** Top-level names of a stored entry: the record's own fields, the stored hash, anything else. */
  datatype Key =
    | DecisionId | DecidedAt | SubjectToken | ApplicationId | OutcomeKey | DecidedBy | Inputs | FeatureValues
    | Models | Scores | ReasonCodes | PolicyVersion | RulesFired | ConsentIds | Override | FeatureDatasetVersion
    | PrevHash | StoredHash | Other(name: string)

  type Dict = map<Key, Json>

  type Fields = map<string, Json>

  datatype Outcome = Approve | Decline | Refer

  datatype Actor = ModelActor | PolicyRule | Human | Fallback

  datatype ModelRef = ModelRef(name: string, version: string, registryStage: string, codeCommit: string,
                               dataSnapshot: string, configHash: string, definitionsFingerprint: string)

  datatype ReasonCode = ReasonCode(code: string, contribution: Option<string>, source: string)

  datatype Record = Record(
    decisionId: string, decidedAt: string, subjectToken: string, applicationId: string,
    outcome: Outcome, decidedBy: Actor, inputs: Fields, featureValues: Fields, models: seq<ModelRef>, scores: Fields,
    reasonCodes: seq<ReasonCode>, policyVersion: string, rulesFired: seq<string>, consentIds: seq<string>,
    override: Option<Fields>, featureDatasetVersion: string, prevHash: Json)

  datatype RecordError = NoModels | NoOverride | NoPolicyVersion

  /** The constructor's three refusals, in order. */
  function Checked(r: Record): (c: Result<Record, RecordError>)
    ensures c.Ok? <==> r.policyVersion != "" && (r.decidedBy == ModelActor ==> r.models != [])
                       && (r.decidedBy == Human ==> r.override.Some? && r.override.value != map[])
    ensures c.Ok? ==> c.value == r
    ensures c == Err(NoModels) <==> r.decidedBy == ModelActor && r.models == []
    ensures c == Err(NoOverride) <==> r.decidedBy == Human && r.override in {None, Some(map[])}
  {
    if r.models == [] && r.decidedBy == ModelActor then Err(NoModels)
    else if r.decidedBy == Human && (r.override.None? || r.override.value == map[]) then Err(NoOverride)
    else if r.policyVersion == "" then Err(NoPolicyVersion)
    else Ok(r)
  }

  function OutcomeValue(o: Outcome): string {
    match o
    case Approve => "approve"
    case Decline => "decline"
    case Refer => "refer"
  }

  function ActorValue(a: Actor): string {
    match a
    case ModelActor => "model"
    case PolicyRule => "policy_rule"
    case Human => "human"
    case Fallback => "fallback"
  }

  function ModelDict(m: ModelRef): Json {
    Obj(map["name" := Str(m.name), "version" := Str(m.version), "registry_stage" := Str(m.registryStage),
            "code_commit" := Str(m.codeCommit), "data_snapshot" := Str(m.dataSnapshot),
            "config_hash" := Str(m.configHash), "definitions_fingerprint" := Str(m.definitionsFingerprint)])
  }

  function ReasonDict(r: ReasonCode): Json {
    Obj(map["code" := Str(r.code),
            "contribution" := if r.contribution.None? then Null else Num(r.contribution.value),
            "source" := Str(r.source)])
  }

  function StrJson(s: string): Json {
    Str(s)
  }

  function ToDict(r: Record): Dict {
    map[DecisionId := Str(r.decisionId), DecidedAt := Str(r.decidedAt), SubjectToken := Str(r.subjectToken),
        ApplicationId := Str(r.applicationId), OutcomeKey := Str(OutcomeValue(r.outcome)),
        DecidedBy := Str(ActorValue(r.decidedBy)), Inputs := Obj(r.inputs),
        FeatureValues := Obj(r.featureValues), Models := Arr(Map(r.models, ModelDict)),
        Scores := Obj(r.scores), ReasonCodes := Arr(Map(r.reasonCodes, ReasonDict)),
        PolicyVersion := Str(r.policyVersion), RulesFired := Arr(Map(r.rulesFired, StrJson)),
        ConsentIds := Arr(Map(r.consentIds, StrJson)),
        Override := if r.override.None? then Null else Obj(r.override.value),
        FeatureDatasetVersion := Str(r.featureDatasetVersion), PrevHash := r.prevHash]
  }

  lemma MapInjective<T(!new)>(s: seq<T>, t: seq<T>, f: T -> Json)
    requires Map(s, f) == Map(t, f)
    requires forall a, b :: f(a) == f(b) ==> a == b
    ensures s == t
  {
    assert |s| == |t|;
    forall i | 0 <= i < |s|
      ensures s[i] == t[i]
    {
      assert f(s[i]) == Map(s, f)[i] == Map(t, f)[i] == f(t[i]);
    }
  }

  lemma ModelDictInjective()
    ensures forall a, b :: ModelDict(a) == ModelDict(b) ==> a == b
  {
    forall a, b | ModelDict(a) == ModelDict(b)
      ensures a == b
    {
      var x, y := ModelDict(a).fields, ModelDict(b).fields;
      assert x["name"] == y["name"] && x["version"] == y["version"] && x["registry_stage"] == y["registry_stage"];
      assert x["code_commit"] == y["code_commit"] && x["data_snapshot"] == y["data_snapshot"];
      assert x["config_hash"] == y["config_hash"] && x["definitions_fingerprint"] == y["definitions_fingerprint"];
    }
  }

  lemma ReasonDictInjective()
    ensures forall a, b :: ReasonDict(a) == ReasonDict(b) ==> a == b
  {
    forall a, b | ReasonDict(a) == ReasonDict(b)
      ensures a == b
    {
      var x, y := ReasonDict(a).fields, ReasonDict(b).fields;
      assert x["code"] == y["code"] && x["contribution"] == y["contribution"] && x["source"] == y["source"];
    }
  }

  lemma ScalarFields(r: Record)
    ensures var d := ToDict(r);
            && d[DecisionId] == Str(r.decisionId) && d[DecidedAt] == Str(r.decidedAt)
            && d[SubjectToken] == Str(r.subjectToken) && d[ApplicationId] == Str(r.applicationId)
            && d[OutcomeKey] == Str(OutcomeValue(r.outcome)) && d[DecidedBy] == Str(ActorValue(r.decidedBy))
            && d[PolicyVersion] == Str(r.policyVersion) && d[FeatureDatasetVersion] == Str(r.featureDatasetVersion)
            && d[PrevHash] == r.prevHash
  {
    hide OutcomeValue, ActorValue, ModelDict, ReasonDict, StrJson;
  }

  lemma CompoundFields(r: Record)
    ensures var d := ToDict(r);
            && d[Inputs] == Obj(r.inputs) && d[FeatureValues] == Obj(r.featureValues) && d[Scores] == Obj(r.scores)
            && d[Override] == (if r.override.None? then Null else Obj(r.override.value))
            && d[Models] == Arr(Map(r.models, ModelDict)) && d[ReasonCodes] == Arr(Map(r.reasonCodes, ReasonDict))
            && d[RulesFired] == Arr(Map(r.rulesFired, StrJson)) && d[ConsentIds] == Arr(Map(r.consentIds, StrJson))
  {
    hide OutcomeValue, ActorValue, ModelDict, ReasonDict, StrJson;
  }

  /** Nothing about a record is lost in its dictionary: different records, different content. */
  lemma ToDictInjective(a: Record, b: Record)
    requires ToDict(a) == ToDict(b)
    ensures a == b
  {
    hide ToDict, OutcomeValue, ActorValue, ModelDict, ReasonDict, StrJson;
    ScalarFields(a);
    ScalarFields(b);
    CompoundFields(a);
    CompoundFields(b);
    ModelDictInjective();
    ReasonDictInjective();
    StrJsonInjective();
    MapInjective(a.models, b.models, ModelDict);
    MapInjective(a.reasonCodes, b.reasonCodes, ReasonDict);
    MapInjective(a.rulesFired, b.rulesFired, StrJson);
    MapInjective(a.consentIds, b.consentIds, StrJson);
    ValuesInjective(a, b);
  }

  lemma StrJsonInjective()
    ensures forall a, b :: StrJson(a) == StrJson(b) ==> a == b
  {
  }

  lemma ValuesInjective(a: Record, b: Record)
    requires OutcomeValue(a.outcome) == OutcomeValue(b.outcome) && ActorValue(a.decidedBy) == ActorValue(b.decidedBy)
    ensures a.outcome == b.outcome && a.decidedBy == b.decidedBy
  {
    assert OutcomeValue(Approve)[0] == 'a' && OutcomeValue(Decline)[0] == 'd' && OutcomeValue(Refer)[0] == 'r';
    assert ActorValue(ModelActor)[0] == 'm' && ActorValue(PolicyRule)[0] == 'p';
    assert ActorValue(Human)[0] == 'h' && ActorValue(Fallback)[0] == 'f';
  }

  /** The stored names of outcomes and deciders, each for its own value only. */
  lemma StoredNames(r: Record)
    ensures ToDict(r)[OutcomeKey] == Str("approve") <==> r.outcome == Approve
    ensures ToDict(r)[OutcomeKey] == Str("decline") <==> r.outcome == Decline
    ensures ToDict(r)[OutcomeKey] == Str("refer") <==> r.outcome == Refer
    ensures ToDict(r)[DecidedBy] == Str("model") <==> r.decidedBy == ModelActor
    ensures ToDict(r)[DecidedBy] == Str("policy_rule") <==> r.decidedBy == PolicyRule
    ensures ToDict(r)[DecidedBy] == Str("human") <==> r.decidedBy == Human
    ensures ToDict(r)[DecidedBy] == Str("fallback") <==> r.decidedBy == Fallback
  {
    hide ToDict;
    ScalarFields(r);
    assert "approve"[0] == 'a' && "decline"[0] == 'd' && "refer"[0] == 'r';
    assert "model"[0] == 'm' && "policy_rule"[0] == 'p' && "human"[0] == 'h' && "fallback"[0] == 'f';
  }

  /** Every stored model reference and reason carries each of its fields under that field's own name. */
  lemma StoredModels(r: Record, i: nat)
    requires i < |r.models|
    ensures var (d, m) := (ToDict(r), r.models[i]);
            && d[Models].Arr? && |d[Models].items| == |r.models| && d[Models].items[i].Obj?
            && var f := d[Models].items[i].fields;
               && f.Keys == {"name", "version", "registry_stage", "code_commit", "data_snapshot", "config_hash", "definitions_fingerprint"}
               && f["name"] == Str(m.name) && f["version"] == Str(m.version) && f["registry_stage"] == Str(m.registryStage)
               && f["code_commit"] == Str(m.codeCommit) && f["data_snapshot"] == Str(m.dataSnapshot)
               && f["config_hash"] == Str(m.configHash) && f["definitions_fingerprint"] == Str(m.definitionsFingerprint)
  {
    hide ToDict;
    CompoundFields(r);
  }

  lemma StoredReasons(r: Record, i: nat)
    requires i < |r.reasonCodes|
    ensures var (d, reason) := (ToDict(r), r.reasonCodes[i]);
            && d[ReasonCodes].Arr? && |d[ReasonCodes].items| == |r.reasonCodes| && d[ReasonCodes].items[i].Obj?
            && var f := d[ReasonCodes].items[i].fields;
               && f.Keys == {"code", "contribution", "source"}
               && f["code"] == Str(reason.code) && f["source"] == Str(reason.source)
               && (f["contribution"] == Null <==> reason.contribution.None?)
               && (reason.contribution.Some? ==> f["contribution"] == Num(reason.contribution.value))
  {
    hide ToDict;
    CompoundFields(r);
  }

  /** The hash is any injective map from dictionaries to digests. */
  ghost predicate Injective(hash: Dict -> string) {
    forall a, b :: hash(a) == hash(b) ==> a == b
  }

  function ContentHash(hash: Dict -> string, r: Record): string {
    hash(ToDict(r))
  }

  /** The content hash covers every field, prev_hash included. */
  lemma ContentHashCoversEverything(hash: Dict -> string, a: Record, b: Record)
    requires Injective(hash)
    ensures ContentHash(hash, a) == ContentHash(hash, b) <==> a == b
  {
    if ContentHash(hash, a) == ContentHash(hash, b) {
      ToDictInjective(a, b);
    }
  }
}
