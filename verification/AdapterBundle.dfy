/** The shared hash of an adapter config: what is particular to a machine is blanked,
    the rest hashed in a canonical form. */
module AdapterBundle {
  import opened Base
  import opened StableSort
  import opened Json

  // ---------------------------------------------------------------------
  // Assigning and deleting fields

  /** `o[key] = value`: in place when there is such a key, else at the end. */
  function SetField(f: Fields, key: string, value: Json): Fields {
    match f
    case NoField => Field(key, value, NoField)
    case Field(k, v, rest) => if k == key then Field(k, value, rest) else Field(k, v, SetField(rest, key, value))
  }

  /** The object under `key`, if there is one, changed in place. */
  function Update(f: Fields, key: string, change: Fields -> Fields): Fields {
    match f
    case NoField => NoField
    case Field(k, v, rest) => Field(k, if k == key then InObject(v, change) else v, Update(rest, key, change))
  }

  function InObject(v: Json, change: Fields -> Fields): Json {
    if v.Obj? then Obj(change(v.fields)) else v
  }

  const PROJECT_ROOT := Str("<machine-local:project.root>")
  const LOGGING_DIR := Str("<machine-local:logging.dir>")

  function BlankRoot(f: Fields): Fields { SetField(f, "root", PROJECT_ROOT) }

  function BlankDir(f: Fields): Fields { SetField(f, "dir", LOGGING_DIR) }

  function DropHome(f: Fields): Fields { Remove(f, "codexHome") }

  function DropCodexHome(f: Fields): Fields { Update(f, "codex", DropHome) }

  function BlankAgent(f: Fields): Fields { DropCodexHome(Remove(f, "apiKeys")) }

  /** Every stage a provider can be configured for. */
  predicate IsProviderKey(key: string) {
    key == "readinessDepth" || key == "specReview" || key == "blueprint" || key == "taskDecomposition" ||
    key == "childSpecMaterialization" || key == "judge" || key == "semanticPostJudge" || key == "lifecycleVerify"
  }

  function BlankProviders(f: Fields): Fields {
    match f
    case NoField => NoField
    case Field(k, v, rest) => Field(k, if IsProviderKey(k) then InObject(v, DropCodexHome) else v, BlankProviders(rest))
  }

  function BlankRunner(f: Fields): Fields {
    if Lookup(f, "provider") == Some(Str("codex-cli")) then DropCodexHome(f) else f
  }

  function BlankJudgment(f: Fields): Fields { Update(f, "runner", BlankRunner) }

  // ---------------------------------------------------------------------
  // Normalizing

  /** What normalizing makes of one top-level field. */
  function BlankField(key: string, value: Json): Json {
    if key == "project" then InObject(value, BlankRoot)
    else if key == "logging" then InObject(value, BlankDir)
    else if key == "agent" then InObject(value, BlankAgent)
    else if key == "evaluationProviders" then InObject(value, BlankProviders)
    else if key == "judgment" then InObject(value, BlankJudgment)
    else value
  }

  function Normalized(f: Fields): Fields {
    match f
    case NoField => NoField
    case Field(k, v, rest) =>
      if k == "workerOverlay" then Normalized(rest) else Field(k, BlankField(k, v), Normalized(rest))
  }

  /** One change after the other on a clone of the config. */
  method NormalizeAdapterBundleConfig(config: Fields) returns (normalized: Fields)
    ensures normalized == Normalized(config)
  {
    normalized := config;
    normalized := Update(normalized, "project", BlankRoot);
    normalized := Update(normalized, "logging", BlankDir);
    normalized := Update(normalized, "agent", BlankAgent);
    normalized := Update(normalized, "evaluationProviders", BlankProviders);
    normalized := Update(normalized, "judgment", BlankJudgment);
    normalized := Remove(normalized, "workerOverlay");
    OneByOne(config);
  }

  lemma {:induction false} OneByOne(f: Fields)
    ensures Normalized(f) ==
            Remove(Update(Update(Update(Update(Update(f, "project", BlankRoot), "logging", BlankDir), "agent", BlankAgent),
                                 "evaluationProviders", BlankProviders), "judgment", BlankJudgment), "workerOverlay")
  {
    if f.Field? {
      OneByOne(f.rest);
    }
  }

  function SharedHash(le: Order, hash: string -> string, config: Fields): string {
    hash(StableStringify(le, Obj(Normalized(config))))
  }

  // ---------------------------------------------------------------------
  // Normalizing keeps configs well formed

  lemma {:induction false} SetLookup(f: Fields, key: string, value: Json, k: string)
    ensures Lookup(SetField(f, key, value), k) == if k == key then Some(value) else Lookup(f, k)
  {
    if f.Field? && f.key != key {
      SetLookup(f.rest, key, value, k);
    }
  }

  lemma {:induction false} SetKeepsValid(f: Fields, key: string, value: Json)
    requires ValidFields(f) && Valid(value)
    ensures ValidFields(SetField(f, key, value))
  {
    if f.Field? && f.key != key {
      SetKeepsValid(f.rest, key, value);
      SetLookup(f.rest, key, value, f.key);
    }
  }

  lemma {:induction false} UpdateLookup(f: Fields, key: string, change: Fields -> Fields, k: string)
    ensures Lookup(Update(f, key, change), k) ==
            match Lookup(f, k) case None => None case Some(v) => Some(if k == key then InObject(v, change) else v)
  {
    if f.Field? {
      UpdateLookup(f.rest, key, change, k);
    }
  }

  /** The change keeps objects well formed. */
  ghost predicate KeepsValid(change: Fields -> Fields) {
    forall f :: ValidFields(f) ==> ValidFields(change(f))
  }

  lemma {:induction false} UpdateKeepsValid(f: Fields, key: string, change: Fields -> Fields)
    requires ValidFields(f) && KeepsValid(change)
    ensures ValidFields(Update(f, key, change))
  {
    if f.Field? {
      UpdateKeepsValid(f.rest, key, change);
      UpdateLookup(f.rest, key, change, f.key);
    }
  }

  lemma {:induction false} DropCodexHomeKeepsValid()
    ensures KeepsValid(DropCodexHome)
  {
    forall f | ValidFields(f) ensures ValidFields(DropCodexHome(f)) {
      forall g | ValidFields(g) ensures ValidFields(DropHome(g)) {
        RemoveKeepsValid(g, "codexHome");
      }
      UpdateKeepsValid(f, "codex", DropHome);
    }
  }

  lemma {:induction false} BlankProvidersLookup(f: Fields, k: string)
    ensures Lookup(BlankProviders(f), k).None? <==> Lookup(f, k).None?
  {
    if f.Field? {
      BlankProvidersLookup(f.rest, k);
    }
  }

  lemma {:induction false} BlankProvidersKeepsValid(f: Fields)
    requires ValidFields(f)
    ensures ValidFields(BlankProviders(f))
  {
    if f.Field? {
      BlankProvidersKeepsValid(f.rest);
      BlankProvidersLookup(f.rest, f.key);
      DropCodexHomeKeepsValid();
    }
  }

  lemma {:induction false} BlankJudgmentKeepsValid(f: Fields)
    requires ValidFields(f)
    ensures ValidFields(BlankJudgment(f))
  {
    DropCodexHomeKeepsValid();
    assert KeepsValid(BlankRunner);
    UpdateKeepsValid(f, "runner", BlankRunner);
  }

  lemma {:induction false} BlankAgentKeepsValid(f: Fields)
    requires ValidFields(f)
    ensures ValidFields(BlankAgent(f))
  {
    RemoveKeepsValid(f, "apiKeys");
    DropCodexHomeKeepsValid();
  }

  lemma {:induction false} BlankFieldKeepsValid(key: string, value: Json)
    requires Valid(value)
    ensures Valid(BlankField(key, value))
  {
    if value.Obj? {
      var f := value.fields;
      SetKeepsValid(f, "root", PROJECT_ROOT);
      SetKeepsValid(f, "dir", LOGGING_DIR);
      BlankAgentKeepsValid(f);
      BlankProvidersKeepsValid(f);
      BlankJudgmentKeepsValid(f);
    }
  }

  lemma {:induction false} NormalizedLookup(f: Fields, k: string)
    ensures Lookup(Normalized(f), k) ==
            if k == "workerOverlay" then None
            else match Lookup(f, k) case None => None case Some(v) => Some(BlankField(k, v))
  {
    if f.Field? {
      NormalizedLookup(f.rest, k);
    }
  }

  lemma {:induction false} NormalizedIsValid(f: Fields)
    requires ValidFields(f)
    ensures ValidFields(Normalized(f))
  {
    if f.Field? {
      NormalizedIsValid(f.rest);
      NormalizedLookup(f.rest, f.key);
      BlankFieldKeepsValid(f.key, f.value);
    }
  }

  // ---------------------------------------------------------------------
  // What the hash tells

  /** Two configs share a hash exactly when, once blanked, they are equal up to the
      order of keys at every depth. */
  lemma {:induction false} SharedHashEqualExactly(le: Order, hash: string -> string, a: Fields, b: Fields)
    requires TotalOrder(le) && ValidFields(a) && ValidFields(b)
    requires forall x, y :: hash(x) == hash(y) ==> x == y
    ensures SharedHash(le, hash, a) == SharedHash(le, hash, b) <==> SameFields(Normalized(a), Normalized(b))
  {
    NormalizedIsValid(a);
    NormalizedIsValid(b);
    StableTextsEqualExactly(le, Obj(Normalized(a)), Obj(Normalized(b)));
  }

  /** Configs that differ in one top-level field, in nothing that normalizing keeps,
      normalize alike. */
  lemma {:induction false} BlankedFieldIsErased(f: Fields, key: string, value: Json)
    requires Lookup(f, key).Some? && BlankField(key, value) == BlankField(key, Lookup(f, key).value)
    ensures Normalized(SetField(f, key, value)) == Normalized(f)
  {
    if f.key != key {
      BlankedFieldIsErased(f.rest, key, value);
    }
  }

  lemma {:induction false} OverlayIsErased(f: Fields, value: Json)
    ensures Normalized(SetField(f, "workerOverlay", value)) == Normalized(f)
  {
    if f.Field? && f.key != "workerOverlay" {
      OverlayIsErased(f.rest, value);
    }
  }

  lemma {:induction false} SetTwice(f: Fields, key: string, v: Json, w: Json)
    ensures SetField(SetField(f, key, v), key, w) == SetField(f, key, w)
  {
    if f.Field? && f.key != key {
      SetTwice(f.rest, key, v, w);
    }
  }

  lemma {:induction false} RemoveSet(f: Fields, key: string, v: Json)
    ensures Remove(SetField(f, key, v), key) == Remove(f, key)
  {
    if f.Field? && f.key != key {
      RemoveSet(f.rest, key, v);
    }
  }

  /** The machine-local fields inside the five objects that hold some. */
  datatype LocalField =
    | ProjectRoot
    | LoggingDir
    | ApiKeys
    | AgentCodexHome
    | ProviderCodexHome(provider: string)
    | JudgmentCodexHome

  function Section(l: LocalField): string {
    match l
    case ProjectRoot => "project"
    case LoggingDir => "logging"
    case ApiKeys => "agent"
    case AgentCodexHome => "agent"
    case ProviderCodexHome(_) => "evaluationProviders"
    case JudgmentCodexHome => "judgment"
  }

  /** The section with one of its machine-local fields set. */
  function WithLocal(l: LocalField, f: Fields, value: Json): Fields {
    var setHome := (g: Fields) => SetField(g, "codexHome", value);
    match l
    case ProjectRoot => SetField(f, "root", value)
    case LoggingDir => SetField(f, "dir", value)
    case ApiKeys => SetField(f, "apiKeys", value)
    case AgentCodexHome => Update(f, "codex", setHome)
    case ProviderCodexHome(provider) => Update(f, provider, g => Update(g, "codex", setHome))
    case JudgmentCodexHome => Update(f, "runner", g => Update(g, "codex", setHome))
  }

  /** Where a home is blanked: every agent, the known stages, and the judgment
      runner when it runs Codex. */
  predicate IsBlanked(l: LocalField, f: Fields) {
    match l
    case ProviderCodexHome(provider) => IsProviderKey(provider)
    case JudgmentCodexHome =>
      (match Lookup(f, "runner")
       case Some(runner) => runner.Obj? && Lookup(runner.fields, "provider") == Some(Str("codex-cli"))
       case None => true)
    case _ => true
  }

  lemma {:induction false} CodexHomeDropped(f: Fields, value: Json)
    ensures DropCodexHome(Update(f, "codex", g => SetField(g, "codexHome", value))) == DropCodexHome(f)
  {
    if f.Field? {
      CodexHomeDropped(f.rest, value);
      if f.key == "codex" && f.value.Obj? {
        RemoveSet(f.value.fields, "codexHome", value);
      }
    }
  }

  lemma {:induction false} RemoveUpdate(f: Fields, key: string, k: string, change: Fields -> Fields)
    requires k != key
    ensures Remove(Update(f, k, change), key) == Update(Remove(f, key), k, change)
  {
    if f.Field? {
      RemoveUpdate(f.rest, key, k, change);
    }
  }

  lemma {:induction false} ProviderHomeDropped(f: Fields, provider: string, value: Json)
    requires IsProviderKey(provider)
    ensures BlankProviders(WithLocal(ProviderCodexHome(provider), f, value)) == BlankProviders(f)
  {
    if f.Field? {
      ProviderHomeDropped(f.rest, provider, value);
      if f.key == provider && f.value.Obj? {
        CodexHomeDropped(f.value.fields, value);
      }
    }
  }

  lemma {:induction false} RunnerHomeDropped(f: Fields, value: Json)
    requires Lookup(f, "provider") == Some(Str("codex-cli"))
    ensures BlankRunner(Update(f, "codex", g => SetField(g, "codexHome", value))) == BlankRunner(f)
  {
    UpdateLookup(f, "codex", g => SetField(g, "codexHome", value), "provider");
    CodexHomeDropped(f, value);
  }

  lemma {:induction false} UpdateAbsent(f: Fields, key: string, change: Fields -> Fields)
    requires Lookup(f, key).None?
    ensures Update(f, key, change) == f
  {
    if f.Field? {
      UpdateAbsent(f.rest, key, change);
    }
  }

  lemma {:induction false} JudgmentHomeDropped(f: Fields, value: Json)
    requires ValidFields(f) && IsBlanked(JudgmentCodexHome, f)
    ensures BlankJudgment(WithLocal(JudgmentCodexHome, f, value)) == BlankJudgment(f)
  {
    if f.Field? {
      if f.key == "runner" {
        RunnerHomeDropped(f.value.fields, value);
        UpdateAbsent(f.rest, "runner", BlankRunner);
        UpdateAbsent(f.rest, "runner", g => Update(g, "codex", h => SetField(h, "codexHome", value)));
      } else {
        JudgmentHomeDropped(f.rest, value);
      }
    }
  }

  lemma {:induction false} LocalIsBlanked(l: LocalField, f: Fields, value: Json)
    requires ValidFields(f) && IsBlanked(l, f)
    ensures BlankField(Section(l), Obj(WithLocal(l, f, value))) == BlankField(Section(l), Obj(f))
  {
    match l
    case ProjectRoot => SetTwice(f, "root", value, PROJECT_ROOT);
    case LoggingDir => SetTwice(f, "dir", value, LOGGING_DIR);
    case ApiKeys => RemoveSet(f, "apiKeys", value);
    case AgentCodexHome =>
      RemoveUpdate(f, "apiKeys", "codex", g => SetField(g, "codexHome", value));
      CodexHomeDropped(Remove(f, "apiKeys"), value);
    case ProviderCodexHome(provider) => ProviderHomeDropped(f, provider, value);
    case JudgmentCodexHome => JudgmentHomeDropped(f, value);
  }

  /** Setting a machine-local field, whatever it is set to, moves no hash. */
  lemma {:induction false} MachineLocalDoesNotMatter(le: Order, hash: string -> string, config: Fields,
                                                     l: LocalField, value: Json)
    requires ValidFields(config) && Lookup(config, Section(l)).Some? && Lookup(config, Section(l)).value.Obj?
    requires IsBlanked(l, Lookup(config, Section(l)).value.fields)
    ensures var f := Lookup(config, Section(l)).value.fields;
            SharedHash(le, hash, SetField(config, Section(l), Obj(WithLocal(l, f, value)))) == SharedHash(le, hash, config)
  {
    var f := Lookup(config, Section(l)).value.fields;
    ValidLookup(config, Section(l));
    LocalIsBlanked(l, f, value);
    BlankedFieldIsErased(config, Section(l), Obj(WithLocal(l, f, value)));
  }

  // ---------------------------------------------------------------------
  // What is erased, and nothing else

  /** The object without one key. */
  ghost predicate Without(was: Fields, now: Fields, key: string) {
    forall k :: Lookup(now, k) == if k == key then None else Lookup(was, k)
  }

  /** The object with one key set to a placeholder. */
  ghost predicate WithPlaceholder(was: Fields, now: Fields, key: string, text: string) {
    forall k :: Lookup(now, k) == if k == key then Some(Str(text)) else Lookup(was, k)
  }

  /** The object with its Codex settings, if it has some, without their home. */
  ghost predicate WithoutHome(was: Fields, now: Fields) {
    (forall k :: k != "codex" ==> Lookup(now, k) == Lookup(was, k)) &&
    match Lookup(was, "codex")
    case Some(Obj(settings)) =>
      (match Lookup(now, "codex")
       case Some(Obj(left)) => Without(settings, left, "codexHome")
       case _ => false)
    case other => Lookup(now, "codex") == other
  }

  lemma {:induction false} RemoveExactly(f: Fields, key: string)
    requires ValidFields(f)
    ensures Without(f, Remove(f, key), key)
  {
    forall k ensures Lookup(Remove(f, key), k) == if k == key then None else Lookup(f, k) {
      RemoveLookup(f, key, k);
    }
  }

  lemma {:induction false} HomeIsErased(f: Fields)
    requires ValidFields(f)
    ensures WithoutHome(f, DropCodexHome(f))
  {
    forall k ensures Lookup(DropCodexHome(f), k) ==
                     match Lookup(f, k)
                     case None => None
                     case Some(v) => Some(if k == "codex" then InObject(v, DropHome) else v) {
      UpdateLookup(f, "codex", DropHome, k);
    }
    match Lookup(f, "codex")
    case Some(Obj(settings)) =>
      ValidLookup(f, "codex");
      RemoveExactly(settings, "codexHome");
    case _ =>
  }

  lemma {:induction false} ProviderIs(f: Fields, k: string)
    ensures Lookup(BlankProviders(f), k) ==
            match Lookup(f, k)
            case None => None
            case Some(v) => Some(if IsProviderKey(k) then InObject(v, DropCodexHome) else v)
  {
    if f.Field? {
      ProviderIs(f.rest, k);
    }
  }

  predicate IsStage(key: string) {
    key in {"readinessDepth", "specReview", "blueprint", "taskDecomposition", "childSpecMaterialization", "judge",
            "semanticPostJudge", "lifecycleVerify"}
  }

  lemma {:induction false} BlankedExactly(f: Fields)
    ensures WithPlaceholder(f, BlankRoot(f), "root", "<machine-local:project.root>")
    ensures WithPlaceholder(f, BlankDir(f), "dir", "<machine-local:logging.dir>")
  {
    forall k ensures Lookup(BlankRoot(f), k) == if k == "root" then Some(PROJECT_ROOT) else Lookup(f, k) {
      SetLookup(f, "root", PROJECT_ROOT, k);
    }
    forall k ensures Lookup(BlankDir(f), k) == if k == "dir" then Some(LOGGING_DIR) else Lookup(f, k) {
      SetLookup(f, "dir", LOGGING_DIR, k);
    }
  }

  lemma {:induction false} StageKeys(k: string)
    ensures IsStage(k) <==> IsProviderKey(k)
  {
  }

  lemma {:induction false} StagesExactly(f: Fields)
    requires ValidFields(f)
    ensures forall k :: Lookup(f, k).None? || !Lookup(f, k).value.Obj? || !IsStage(k) ==>
              Lookup(BlankProviders(f), k) == Lookup(f, k)
    ensures forall k :: Lookup(f, k).Some? && Lookup(f, k).value.Obj? && IsStage(k) ==>
              var now := Lookup(BlankProviders(f), k);
              now.Some? && now.value.Obj? && WithoutHome(Lookup(f, k).value.fields, now.value.fields)
  {
    forall k | Lookup(f, k).None? || !Lookup(f, k).value.Obj? || !IsStage(k)
      ensures Lookup(BlankProviders(f), k) == Lookup(f, k)
    {
      StageKeys(k);
      ProviderIs(f, k);
    }
    forall k | Lookup(f, k).Some? && Lookup(f, k).value.Obj? && IsStage(k)
      ensures
        var now := Lookup(BlankProviders(f), k);
        now.Some? && now.value.Obj? && WithoutHome(Lookup(f, k).value.fields, now.value.fields)
    {
      StageKeys(k);
      ProviderIs(f, k);
      ValidLookup(f, k);
      HomeIsErased(Lookup(f, k).value.fields);
    }
  }

  /** Normalizing a section erases its machine-local fields and nothing else. */
  lemma {:induction false} ErasedExactly(f: Fields)
    requires ValidFields(f)
    ensures WithPlaceholder(f, BlankRoot(f), "root", "<machine-local:project.root>")
    ensures WithPlaceholder(f, BlankDir(f), "dir", "<machine-local:logging.dir>")
    ensures exists g :: Without(f, g, "apiKeys") && WithoutHome(g, BlankAgent(f))
    ensures forall k :: Lookup(f, k).None? || !Lookup(f, k).value.Obj? || !IsStage(k) ==>
              Lookup(BlankProviders(f), k) == Lookup(f, k)
    ensures forall k :: Lookup(f, k).Some? && Lookup(f, k).value.Obj? && IsStage(k) ==>
              var now := Lookup(BlankProviders(f), k);
              now.Some? && now.value.Obj? && WithoutHome(Lookup(f, k).value.fields, now.value.fields)
    ensures Lookup(f, "provider") == Some(Str("codex-cli")) ==> WithoutHome(f, BlankRunner(f))
    ensures Lookup(f, "provider") != Some(Str("codex-cli")) ==> BlankRunner(f) == f
  {
    BlankedExactly(f);
    RemoveExactly(f, "apiKeys");
    RemoveKeepsValid(f, "apiKeys");
    HomeIsErased(Remove(f, "apiKeys"));
    HomeIsErased(f);
    StagesExactly(f);
  }
}
