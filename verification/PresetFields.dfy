/** Configure presets, their inheritable fields, and what inheriting a field means. */
module PresetFields {
  import opened Collections

  datatype ArchToolsetStrategy = Set | External

  datatype CacheVariable = CacheVariable(kind: string, value: string)

  /** A preset's condition: not given, given as null, or given. */
  datatype Condition = Unset | Null | Given(expression: string)

  datatype Preset = Preset(
    name: string,
    inherits: seq<string>,
    hidden: bool,
    user: bool,
    environment: map<string, Option<string>>,
    condition: Condition,
    generator: string,
    architecture: string,
    architectureStrategy: Option<ArchToolsetStrategy>,
    toolset: string,
    toolsetStrategy: Option<ArchToolsetStrategy>,
    toolchainFile: string,
    binaryDir: string,
    installDir: string,
    cacheVariables: map<string, Option<CacheVariable>>,
    warnDev: Option<bool>,
    errorDev: Option<bool>,
    warnDeprecated: Option<bool>,
    errorDeprecated: Option<bool>,
    warnUninitialized: Option<bool>,
    warnUnusedCli: Option<bool>,
    warnSystemVars: Option<bool>)

  type Presets = map<string, Preset>

  // ---- inheriting, as the source does it field by field ----

  function InheritString(child: string, parent: string): string {
    if child == "" then parent else child
  }

  function InheritOptionalValue<T>(child: Option<T>, parent: Option<T>): Option<T> {
    if child.None? then parent else child
  }

  /** Entries of the parent are inserted where the child has none. */
  function InheritMap<T>(child: map<string, T>, parent: map<string, T>): map<string, T> {
    parent + child
  }

  function VisitPresetInherit(child: Preset, parent: Preset): Preset {
    child.(
      generator := InheritString(child.generator, parent.generator),
      architecture := InheritString(child.architecture, parent.architecture),
      toolset := InheritString(child.toolset, parent.toolset),
      architectureStrategy := InheritOptionalValue(child.architectureStrategy, parent.architectureStrategy),
      toolsetStrategy := InheritOptionalValue(child.toolsetStrategy, parent.toolsetStrategy),
      binaryDir := InheritString(child.binaryDir, parent.binaryDir),
      installDir := InheritString(child.installDir, parent.installDir),
      toolchainFile := InheritString(child.toolchainFile, parent.toolchainFile),
      warnDev := InheritOptionalValue(child.warnDev, parent.warnDev),
      errorDev := InheritOptionalValue(child.errorDev, parent.errorDev),
      warnDeprecated := InheritOptionalValue(child.warnDeprecated, parent.warnDeprecated),
      errorDeprecated := InheritOptionalValue(child.errorDeprecated, parent.errorDeprecated),
      warnUninitialized := InheritOptionalValue(child.warnUninitialized, parent.warnUninitialized),
      warnUnusedCli := InheritOptionalValue(child.warnUnusedCli, parent.warnUnusedCli),
      warnSystemVars := InheritOptionalValue(child.warnSystemVars, parent.warnSystemVars),
      cacheVariables := InheritMap(child.cacheVariables, parent.cacheVariables))
  }

  function InheritCondition(child: Condition, parent: Condition): Condition {
    if child.Unset? then parent else child
  }

  /** One parent merged into a preset: its own fields, then its environment and its condition. */
  function Merge(child: Preset, parent: Preset): Preset {
    VisitPresetInherit(child, parent).(
      environment := InheritMap(child.environment, parent.environment),
      condition := InheritCondition(child.condition, parent.condition))
  }

  /** A null condition has done its work once nothing more is to be inherited. */
  function DropNull(c: Condition): Condition {
    if c.Null? then Unset else c
  }

  /** Required and contradictory settings, checked once a preset has inherited everything. */
  predicate VisitPresetAfterInherit(p: Preset, version: int) {
    !p.hidden ==>
      && (version < 3 ==> p.generator != "" && p.binaryDir != "")
      && !(p.warnDev == Some(false) && p.errorDev == Some(true))
      && !(p.warnDeprecated == Some(false) && p.errorDeprecated == Some(true))
      && "" !in p.cacheVariables
  }

  // ---- one view of all inheritable fields ----

  datatype Field =
    | Generator | Architecture | ArchitectureStrategy | Toolset | ToolsetStrategy
    | ToolchainFile | BinaryDir | InstallDir
    | WarnDev | ErrorDev | WarnDeprecated | ErrorDeprecated | WarnUninitialized | WarnUnusedCli | WarnSystemVars
    | EnvironmentEntry(key: string)
    | CacheEntry(key: string)

  datatype Value =
    | Text(text: string)
    | Strategy(strategy: ArchToolsetStrategy)
    | Flag(flag: bool)
    | EnvironmentText(entry: Option<string>)
    | CacheText(variable: Option<CacheVariable>)

  function TextField(s: string): Option<Value> {
    if s == "" then None else Some(Text(s))
  }

  function StrategyField(s: Option<ArchToolsetStrategy>): Option<Value> {
    if s.None? then None else Some(Strategy(s.value))
  }

  function FlagField(b: Option<bool>): Option<Value> {
    if b.None? then None else Some(Flag(b.value))
  }

  /** The value of a field, if it is set. A null entry of the environment or the cache counts as set. */
  function Get(p: Preset, f: Field): Option<Value> {
    match f
    case Generator => TextField(p.generator)
    case Architecture => TextField(p.architecture)
    case ArchitectureStrategy => StrategyField(p.architectureStrategy)
    case Toolset => TextField(p.toolset)
    case ToolsetStrategy => StrategyField(p.toolsetStrategy)
    case ToolchainFile => TextField(p.toolchainFile)
    case BinaryDir => TextField(p.binaryDir)
    case InstallDir => TextField(p.installDir)
    case WarnDev => FlagField(p.warnDev)
    case ErrorDev => FlagField(p.errorDev)
    case WarnDeprecated => FlagField(p.warnDeprecated)
    case ErrorDeprecated => FlagField(p.errorDeprecated)
    case WarnUninitialized => FlagField(p.warnUninitialized)
    case WarnUnusedCli => FlagField(p.warnUnusedCli)
    case WarnSystemVars => FlagField(p.warnSystemVars)
    case EnvironmentEntry(k) => if k in p.environment then Some(EnvironmentText(p.environment[k])) else None
    case CacheEntry(k) => if k in p.cacheVariables then Some(CacheText(p.cacheVariables[k])) else None
  }

  function Or<T>(a: Option<T>, b: Option<T>): Option<T> {
    if a.Some? then a else b
  }

  /** Merging a parent fills exactly the fields that are not set yet. */
  lemma MergeFills(child: Preset, parent: Preset, f: Field)
    ensures Get(Merge(child, parent), f) == Or(Get(child, f), Get(parent, f))
  {
  }

  /** What merging leaves alone. */
  ghost predicate SameIdentity(p: Preset, q: Preset) {
    p.name == q.name && p.inherits == q.inherits && p.hidden == q.hidden && p.user == q.user
  }

  ghost predicate SameFields(p: Preset, q: Preset) {
    forall f :: Get(p, f) == Get(q, f)
  }

  lemma SameTexts(p: Preset, q: Preset)
    requires SameFields(p, q)
    ensures p.generator == q.generator && p.architecture == q.architecture && p.toolset == q.toolset
    ensures p.toolchainFile == q.toolchainFile && p.binaryDir == q.binaryDir && p.installDir == q.installDir
  {
    assert Get(p, Generator) == Get(q, Generator);
    assert Get(p, Architecture) == Get(q, Architecture);
    assert Get(p, Toolset) == Get(q, Toolset);
    assert Get(p, ToolchainFile) == Get(q, ToolchainFile);
    assert Get(p, BinaryDir) == Get(q, BinaryDir);
    assert Get(p, InstallDir) == Get(q, InstallDir);
  }

  lemma SameStrategies(p: Preset, q: Preset)
    requires SameFields(p, q)
    ensures p.architectureStrategy == q.architectureStrategy && p.toolsetStrategy == q.toolsetStrategy
  {
    assert Get(p, ArchitectureStrategy) == Get(q, ArchitectureStrategy);
    assert Get(p, ToolsetStrategy) == Get(q, ToolsetStrategy);
  }

  lemma SameFlags(p: Preset, q: Preset)
    requires SameFields(p, q)
    ensures p.warnDev == q.warnDev && p.errorDev == q.errorDev && p.warnDeprecated == q.warnDeprecated
    ensures p.errorDeprecated == q.errorDeprecated && p.warnUninitialized == q.warnUninitialized
    ensures p.warnUnusedCli == q.warnUnusedCli && p.warnSystemVars == q.warnSystemVars
  {
    assert Get(p, WarnDev) == Get(q, WarnDev);
    assert Get(p, ErrorDev) == Get(q, ErrorDev);
    assert Get(p, WarnDeprecated) == Get(q, WarnDeprecated);
    assert Get(p, ErrorDeprecated) == Get(q, ErrorDeprecated);
    assert Get(p, WarnUninitialized) == Get(q, WarnUninitialized);
    assert Get(p, WarnUnusedCli) == Get(q, WarnUnusedCli);
    assert Get(p, WarnSystemVars) == Get(q, WarnSystemVars);
  }

  lemma SameMaps(p: Preset, q: Preset)
    requires SameFields(p, q)
    ensures p.environment == q.environment && p.cacheVariables == q.cacheVariables
  {
    forall k
      ensures k in p.environment <==> k in q.environment
      ensures k in p.environment && k in q.environment ==> p.environment[k] == q.environment[k]
    {
      assert Get(p, EnvironmentEntry(k)) == Get(q, EnvironmentEntry(k));
    }
    forall k
      ensures k in p.cacheVariables <==> k in q.cacheVariables
      ensures k in p.cacheVariables && k in q.cacheVariables ==> p.cacheVariables[k] == q.cacheVariables[k]
    {
      assert Get(p, CacheEntry(k)) == Get(q, CacheEntry(k));
    }
  }

  /** Presets of the same identity and with the same fields are the same presets, but for their conditions. */
  lemma FieldsDetermine(p: Preset, q: Preset)
    requires SameIdentity(p, q) && SameFields(p, q)
    ensures p == q.(condition := p.condition)
  {
    hide SameFields;
    SameTexts(p, q);
    SameStrategies(p, q);
    SameFlags(p, q);
    SameMaps(p, q);
  }

  // ---- the meaning of inheritance ----

  /** k and all it inherits from exist and no chain of `inherits` comes back to itself or to `avoid`. */
  ghost predicate Grounded(presets: Presets, k: string, avoid: set<string>)
    decreases presets.Keys - avoid
  {
    k in presets && k !in avoid &&
    forall i :: 0 <= i < |presets[k].inherits| ==> Grounded(presets, presets[k].inherits[i], avoid + {k})
  }

  /** The value of a field after inheritance: the preset's own, or the first its parents have. */
  ghost function Inherited(presets: Presets, k: string, avoid: set<string>, f: Field): Option<Value>
    requires Grounded(presets, k, avoid)
    decreases presets.Keys - avoid, 1
  {
    Or(Get(presets[k], f), FromParents(presets, k, avoid, |presets[k].inherits|, f))
  }

  /** The same among the first n parents only. */
  ghost function FromParents(presets: Presets, k: string, avoid: set<string>, n: nat, f: Field): Option<Value>
    requires Grounded(presets, k, avoid) && n <= |presets[k].inherits|
    decreases presets.Keys - avoid, 0, n
  {
    if n == 0 then None
    else Or(FromParents(presets, k, avoid, n - 1, f), Inherited(presets, presets[k].inherits[n - 1], avoid + {k}, f))
  }

  lemma {:induction false} GroundedLess(presets: Presets, k: string, avoid: set<string>, avoid': set<string>)
    requires Grounded(presets, k, avoid) && avoid' <= avoid
    ensures Grounded(presets, k, avoid')
    decreases presets.Keys - avoid
  {
    forall i | 0 <= i < |presets[k].inherits|
      ensures Grounded(presets, presets[k].inherits[i], avoid' + {k})
    {
      GroundedLess(presets, presets[k].inherits[i], avoid + {k}, avoid' + {k});
    }
  }

  /** The inherited value does not depend on what is avoided. */
  lemma {:induction false} InheritedSame(presets: Presets, k: string, avoid: set<string>, avoid': set<string>, f: Field)
    requires Grounded(presets, k, avoid) && avoid' <= avoid
    ensures Grounded(presets, k, avoid') && Inherited(presets, k, avoid, f) == Inherited(presets, k, avoid', f)
    decreases presets.Keys - avoid, 1
  {
    GroundedLess(presets, k, avoid, avoid');
    ParentsSame(presets, k, avoid, avoid', |presets[k].inherits|, f);
  }

  lemma {:induction false} ParentsSame(presets: Presets, k: string, avoid: set<string>, avoid': set<string>, n: nat,
                                       f: Field)
    requires Grounded(presets, k, avoid) && Grounded(presets, k, avoid') && avoid' <= avoid
    requires n <= |presets[k].inherits|
    ensures FromParents(presets, k, avoid, n, f) == FromParents(presets, k, avoid', n, f)
    decreases presets.Keys - avoid, 0, n
  {
    if n > 0 {
      ParentsSame(presets, k, avoid, avoid', n - 1, f);
      InheritedSame(presets, presets[k].inherits[n - 1], avoid + {k}, avoid' + {k}, f);
    }
  }
}
