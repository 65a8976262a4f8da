/** What the environment of a preset means: macros replaced, recursively, by the texts they refer to. */
module EnvironmentMeaning {
  import opened Collections
  import opened MacroText

  type Environment = map<string, Option<string>>

  /** Everything an expansion depends on. `env` holds the original texts (None for a null entry),
      `process` the variables of the running process. */
  datatype Context = Context(
    env: Environment,
    process: map<string, string>,
    sourceDir: string,
    sourceParentDir: string,
    sourceDirName: string,
    presetName: string,
    hidden: bool,
    generator: string,
    hostSystemName: string,
    version: int)

  predicate HasText(ctx: Context, name: string) {
    name in ctx.env && ctx.env[name].Some?
  }

  // ---- the expanders, in the order in which they are asked ----

  function DefaultMacro(ctx: Context, ns: string, name: string): Expansion {
    if ns != "" then Ignore
    else if name == "sourceDir" then Ok(ctx.sourceDir)
    else if name == "sourceParentDir" then Ok(ctx.sourceParentDir)
    else if name == "sourceDirName" then Ok(ctx.sourceDirName)
    else if name == "presetName" then Ok(ctx.presetName)
    else if name == "generator" then Ok(if ctx.hidden then "" else ctx.generator)
    else if name == "dollar" then Ok("$")
    else if name == "hostSystemName" then (if ctx.version < 3 then Error else Ok(ctx.hostSystemName))
    else Ignore
  }

  /** Variables of the process environment, for names the preset itself gives no text. */
  function ProcessMacro(ctx: Context, ns: string, name: string): Expansion {
    if ns == "env" || ns == "penv" then
      if name == "" then Error
      else Ok(if name in ctx.process then ctx.process[name] else "")
    else Ignore
  }

  /** An unclaimed macro is an error, except in the vendor namespace. */
  function Unclaimed(ns: string): Expansion {
    if ns == "vendor" then Ignore else Error
  }

  predicate Refers(ctx: Context, ns: string, name: string) {
    ns == "env" && name != "" && HasText(ctx, name)
  }

  /** The value of a macro when the variables in `avoid` are being expanded further out. */
  function MacroValue(ctx: Context, ns: string, name: string, avoid: set<string>): Expansion
    decreases ctx.env.Keys - avoid, 1
  {
    var d := DefaultMacro(ctx, ns, name);
    if !d.Ignore? then d
    else
      var e := if Refers(ctx, ns, name) then Denote(ctx, name, avoid) else ProcessMacro(ctx, ns, name);
      if !e.Ignore? then e else Unclaimed(ns)
  }

  function Macros(ctx: Context, avoid: set<string>): Expander
    decreases ctx.env.Keys - avoid, 2
  {
    (ns, name) => MacroValue(ctx, ns, name, avoid)
  }

  /** The value of a variable: its text with all macros replaced; an error when it is needed for itself. */
  function Denote(ctx: Context, x: string, avoid: set<string>): Expansion
    requires HasText(ctx, x)
    decreases ctx.env.Keys - avoid, 0
  {
    if x in avoid then Error
    else
      assert x in ctx.env.Keys - avoid;
      Meaning(ctx.env[x].value, Macros(ctx, avoid + {x}))
  }

  /** A reference to a variable stands for that variable's value, if it has one. */
  lemma ReferredValue(ctx: Context, ns: string, name: string, avoid: set<string>)
    requires Refers(ctx, ns, name)
    ensures var e := Denote(ctx, name, avoid);
      Macros(ctx, avoid)(ns, name) == if e.Ignore? then Error else e
  {
  }

  /** Any other macro means the same whatever is avoided. */
  lemma OtherValue(ctx: Context, ns: string, name: string, avoid: set<string>, fin: Environment)
    requires !Refers(ctx, ns, name)
    ensures Macros(ctx, avoid)(ns, name) == Substitution(ctx, fin)(ns, name)
  {
  }

  // ---- expansion depends only on the macros that occur ----

  /** The tokens that are references to variables with a text. */
  ghost predicate References(ctx: Context, ts: seq<Token>, z: string) {
    Macro("env", z) in ts && Refers(ctx, "env", z)
  }

  /** Two expanders that agree, and succeed, wherever the first succeeds on these tokens. */
  ghost predicate Covered(ts: seq<Token>, f: Expander, g: Expander) {
    forall k :: 0 <= k < |ts| && Value(ts[k], f).Ok? ==> Value(ts[k], g) == Value(ts[k], f)
  }

  lemma {:induction false} ExpandCovered(ts: seq<Token>, f: Expander, g: Expander)
    requires Covered(ts, f, g) && Expand(ts, f).Ok?
    ensures Expand(ts, g) == Expand(ts, f)
  {
    if |ts| > 0 {
      assert Value(ts[0], f).Ok?;
      assert Covered(ts[1..], f, g);
      ExpandCovered(ts[1..], f, g);
    }
  }

  lemma {:induction false} ExpandNeeds(ts: seq<Token>, f: Expander, t: Token)
    requires Expand(ts, f).Ok? && t in ts
    ensures Value(t, f).Ok?
  {
    if ts[0] != t {
      assert ts == [ts[0]] + ts[1..];
      ExpandNeeds(ts[1..], f, t);
    }
  }

  lemma MeaningCovered(s: string, f: Expander, g: Expander)
    requires Meaning(s, f).Ok? && Covered(TokensOf(s).tokens, f, g)
    ensures Meaning(s, g) == Meaning(s, f)
  {
    ExpandCovered(TokensOf(s).tokens, f, g);
  }

  // ---- references force the referred variable to have a value ----

  /** A variable with a value only refers to variables that have one without it. */
  lemma ReferenceOk(ctx: Context, x: string, avoid: set<string>, z: string)
    requires HasText(ctx, x) && Denote(ctx, x, avoid).Ok?
    requires References(ctx, TokensOf(ctx.env[x].value).tokens, z)
    ensures x !in avoid && Denote(ctx, z, avoid + {x}).Ok?
  {
    var f := Macros(ctx, avoid + {x});
    ExpandNeeds(TokensOf(ctx.env[x].value).tokens, f, Macro("env", z));
    hide Macros, MacroValue;
    ReferredValue(ctx, "env", z, avoid + {x});
    assert Value(Macro("env", z), f) == f("env", z);
  }

  /** A chain of references, each variable mentioned in the text of the one before. */
  ghost predicate ReferenceChain(ctx: Context, p: seq<string>) {
    && (forall k :: 0 <= k < |p| ==> HasText(ctx, p[k]))
    && (forall k :: 0 <= k < |p| - 1 ==> References(ctx, TokensOf(ctx.env[p[k]].value).tokens, p[k + 1]))
  }

  /** Along a chain from a variable with a value, none of the variables avoided at the start occurs. */
  lemma {:induction false} ChainAvoids(ctx: Context, p: seq<string>, avoid: set<string>, k: nat)
    requires |p| > 0 && ReferenceChain(ctx, p) && Denote(ctx, p[0], avoid).Ok? && k < |p|
    ensures p[k] !in avoid && (0 < k ==> p[k] != p[0])
    decreases |p|
  {
    if k > 0 {
      assert References(ctx, TokensOf(ctx.env[p[0]].value).tokens, p[0 + 1]);
      ReferenceOk(ctx, p[0], avoid, p[1]);
      ChainTail(ctx, p);
      ChainAvoids(ctx, p[1..], avoid + {p[0]}, k - 1);
    }
  }

  lemma ChainTail(ctx: Context, p: seq<string>)
    requires |p| > 0 && ReferenceChain(ctx, p)
    ensures ReferenceChain(ctx, p[1..])
  {
    var t := p[1..];
    forall k | 0 <= k < |t| - 1 ensures References(ctx, TokensOf(ctx.env[t[k]].value).tokens, t[k + 1]) {
      assert References(ctx, TokensOf(ctx.env[p[k + 1]].value).tokens, p[k + 1 + 1]);
    }
  }

  /** A variable on a reference cycle has no value. */
  lemma CycleHasNoValue(ctx: Context, p: seq<string>)
    requires |p| > 1 && ReferenceChain(ctx, p) && p[0] == p[|p| - 1]
    ensures !Denote(ctx, p[0], {}).Ok?
  {
    if Denote(ctx, p[0], {}).Ok? {
      ChainAvoids(ctx, p, {}, |p| - 1);
    }
  }

  // ---- values as a solution of the substitution equations ----

  /** The value of a macro when variables already stand for their final texts. */
  function Substituted(ctx: Context, fin: Environment, ns: string, name: string): Expansion {
    var d := DefaultMacro(ctx, ns, name);
    if !d.Ignore? then d
    else if Refers(ctx, ns, name) then
      if name in fin && fin[name].Some? then Ok(fin[name].value) else Error
    else
      var e := ProcessMacro(ctx, ns, name);
      if !e.Ignore? then e else Unclaimed(ns)
  }

  function Substitution(ctx: Context, fin: Environment): Expander {
    (ns, name) => Substituted(ctx, fin, ns, name)
  }

  /** Each variable's final text is its original text with references replaced by final texts. */
  ghost predicate Solves(ctx: Context, fin: Environment) {
    forall x :: HasText(ctx, x) ==>
      x in fin && fin[x].Some? && Meaning(ctx.env[x].value, Substitution(ctx, fin)) == Ok(fin[x].value)
  }

  /** A token means the same to two expanders if that holds of the variable it may refer to. */
  lemma TokenSame(ctx: Context, t: Token, avoid: set<string>, avoid': set<string>)
    requires Value(t, Macros(ctx, avoid)).Ok?
    requires t.Macro? && Refers(ctx, t.ns, t.name) && Denote(ctx, t.name, avoid).Ok? ==>
      Denote(ctx, t.name, avoid') == Denote(ctx, t.name, avoid)
    ensures Value(t, Macros(ctx, avoid')) == Value(t, Macros(ctx, avoid))
  {
    hide Macros, MacroValue, Substitution;
    if t.Macro? {
      if Refers(ctx, t.ns, t.name) {
        ReferredValue(ctx, t.ns, t.name, avoid);
        ReferredValue(ctx, t.ns, t.name, avoid');
      } else {
        OtherValue(ctx, t.ns, t.name, avoid, map[]);
        OtherValue(ctx, t.ns, t.name, avoid', map[]);
      }
    }
  }

  lemma TokenSolved(ctx: Context, t: Token, avoid: set<string>, fin: Environment)
    requires Value(t, Macros(ctx, avoid)).Ok?
    requires t.Macro? && Refers(ctx, t.ns, t.name) && Denote(ctx, t.name, avoid).Ok? ==>
      t.name in fin && fin[t.name].Some? && Denote(ctx, t.name, avoid) == Ok(fin[t.name].value)
    ensures Value(t, Substitution(ctx, fin)) == Value(t, Macros(ctx, avoid))
  {
    if t.Macro? {
      if Refers(ctx, t.ns, t.name) {
        ReferredValue(ctx, t.ns, t.name, avoid);
        hide Macros, MacroValue;
      } else {
        OtherValue(ctx, t.ns, t.name, avoid, fin);
      }
    }
  }

  lemma DenoteIs(ctx: Context, x: string, avoid: set<string>)
    requires HasText(ctx, x) && Denote(ctx, x, avoid).Ok?
    ensures x !in avoid && Denote(ctx, x, avoid) == Meaning(ctx.env[x].value, Macros(ctx, avoid + {x}))
    ensures ctx.env.Keys - (avoid + {x}) < ctx.env.Keys - avoid
  {
    assert x in ctx.env.Keys - avoid;
  }

  /** Avoiding fewer variables does not change a value. */
  lemma {:induction false} AvoidLess(ctx: Context, x: string, avoid: set<string>, avoid': set<string>)
    requires HasText(ctx, x) && avoid' <= avoid && Denote(ctx, x, avoid).Ok?
    ensures Denote(ctx, x, avoid') == Denote(ctx, x, avoid)
    decreases ctx.env.Keys - avoid
  {
    var ts := TokensOf(ctx.env[x].value).tokens;
    var f, g := Macros(ctx, avoid + {x}), Macros(ctx, avoid' + {x});
    DenoteIs(ctx, x, avoid);
    assert Denote(ctx, x, avoid') == Meaning(ctx.env[x].value, g);
    hide Macros, Denote;
    forall k | 0 <= k < |ts| && Value(ts[k], f).Ok? ensures Value(ts[k], g) == Value(ts[k], f) {
      var t := ts[k];
      if t.Macro? && Refers(ctx, t.ns, t.name) && Denote(ctx, t.name, avoid + {x}).Ok? {
        AvoidLess(ctx, t.name, avoid + {x}, avoid' + {x});
      }
      TokenSame(ctx, t, avoid + {x}, avoid' + {x});
    }
    MeaningCovered(ctx.env[x].value, f, g);
  }

  /** The values form such a solution ... */
  lemma ValuesSolve(ctx: Context, fin: Environment)
    requires forall x :: HasText(ctx, x) ==> x in fin && fin[x].Some? && Denote(ctx, x, {}) == Ok(fin[x].value)
    ensures Solves(ctx, fin)
  {
    hide Macros, Denote, Substitution;
    forall x | HasText(ctx, x) ensures Meaning(ctx.env[x].value, Substitution(ctx, fin)) == Ok(fin[x].value) {
      ValueSolves(ctx, fin, x, {});
    }
  }

  lemma ValueSolves(ctx: Context, fin: Environment, x: string, avoid: set<string>)
    requires forall y :: HasText(ctx, y) ==> y in fin && fin[y].Some? && Denote(ctx, y, {}) == Ok(fin[y].value)
    requires HasText(ctx, x) && Denote(ctx, x, avoid).Ok?
    ensures Meaning(ctx.env[x].value, Substitution(ctx, fin)) == Denote(ctx, x, avoid)
  {
    var ts := TokensOf(ctx.env[x].value).tokens;
    var f, g := Macros(ctx, avoid + {x}), Substitution(ctx, fin);
    DenoteIs(ctx, x, avoid);
    hide Macros, Denote, Substitution;
    forall k | 0 <= k < |ts| && Value(ts[k], f).Ok? ensures Value(ts[k], g) == Value(ts[k], f) {
      var t := ts[k];
      if t.Macro? && Refers(ctx, t.ns, t.name) && Denote(ctx, t.name, avoid + {x}).Ok? {
        AvoidLess(ctx, t.name, avoid + {x}, {});
      }
      TokenSolved(ctx, t, avoid + {x}, fin);
    }
    MeaningCovered(ctx.env[x].value, f, g);
  }

  /** ... and the only one: whatever solves the equations has the values. */
  lemma {:induction false} SolutionUnique(ctx: Context, fin: Environment, x: string, avoid: set<string>)
    requires Solves(ctx, fin) && HasText(ctx, x) && Denote(ctx, x, avoid).Ok?
    ensures Denote(ctx, x, avoid) == Ok(fin[x].value)
    decreases ctx.env.Keys - avoid
  {
    var ts := TokensOf(ctx.env[x].value).tokens;
    var f, g := Macros(ctx, avoid + {x}), Substitution(ctx, fin);
    DenoteIs(ctx, x, avoid);
    hide Macros, Denote, Substitution;
    forall k | 0 <= k < |ts| && Value(ts[k], f).Ok? ensures Value(ts[k], g) == Value(ts[k], f) {
      var t := ts[k];
      if t.Macro? && Refers(ctx, t.ns, t.name) && Denote(ctx, t.name, avoid + {x}).Ok? {
        SolutionUnique(ctx, fin, t.name, avoid + {x});
      }
      TokenSolved(ctx, t, avoid + {x}, fin);
    }
    MeaningCovered(ctx.env[x].value, f, g);
  }
}
