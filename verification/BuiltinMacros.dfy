/** What the single macros of an environment become, spelled out as texts. */
module BuiltinMacros {
  import opened Collections
  import opened MacroText
  import opened EnvironmentMeaning

  /** The text is m between two texts without dollar signs. */
  ghost predicate Around(text: string, a: string, m: string, b: string) {
    '$' !in a && '$' !in b && text == a + m + b
  }

  /** In every variable in which m stands alone among plain text, it has been replaced by v. */
  ghost predicate Becomes(ctx: Context, fin: Environment, m: string, v: string) {
    forall x, a, b :: HasText(ctx, x) && x in fin && Around(ctx.env[x].value, a, m, b) ==> fin[x] == Some(a + v + b)
  }

  /** The macros without a namespace. */
  ghost predicate BuiltinsReplaced(ctx: Context, fin: Environment) {
    && Becomes(ctx, fin, "${sourceDir}", ctx.sourceDir)
    && Becomes(ctx, fin, "${sourceParentDir}", ctx.sourceParentDir)
    && Becomes(ctx, fin, "${sourceDirName}", ctx.sourceDirName)
    && Becomes(ctx, fin, "${presetName}", ctx.presetName)
    && Becomes(ctx, fin, "${generator}", if ctx.hidden then "" else ctx.generator)
    && Becomes(ctx, fin, "${dollar}", "$")
    // Below version 3 the name of the host system cannot be asked for.
    && if ctx.version < 3 then forall x :: !Mentions(ctx, x, "${hostSystemName}")
       else Becomes(ctx, fin, "${hostSystemName}", ctx.hostSystemName)
  }

  ghost function FromProcess(ctx: Context, n: string): string {
    if n in ctx.process then ctx.process[n] else ""
  }

  predicate VariableName(n: string) {
    n != "" && '}' !in n
  }

  /** References to variables: of the process, of the preset if it gives them a text, and else of the process. */
  ghost predicate VariablesReplaced(ctx: Context, fin: Environment) {
    && (forall n :: VariableName(n) ==> Becomes(ctx, fin, "$penv{" + n + "}", FromProcess(ctx, n)))
    && (forall n :: VariableName(n) && !HasText(ctx, n) ==> Becomes(ctx, fin, "$env{" + n + "}", FromProcess(ctx, n)))
    && (forall n :: VariableName(n) && HasText(ctx, n) && n in fin && fin[n].Some? ==>
          Becomes(ctx, fin, "$env{" + n + "}", fin[n].value))
  }

  ghost predicate Mentions(ctx: Context, x: string, m: string) {
    HasText(ctx, x) && exists a, b :: Around(ctx.env[x].value, a, m, b)
  }

  ghost predicate OnlyText(ctx: Context, x: string) {
    forall y :: HasText(ctx, y) <==> y == x
  }

  const NAMESPACES: set<string> := {"", "env", "penv", "vendor"}

  ghost predicate Ends(text: string, a: string, m: string) {
    '$' !in a && text == a + m
  }

  /** After plain text a macro is opened and never closed. */
  ghost predicate LeftOpen(text: string) {
    exists a, ns, name :: ns in NAMESPACES && '}' !in name && Ends(text, a, "$" + ns + "{" + name)
  }

  ghost predicate Unclosed(ctx: Context, x: string) {
    HasText(ctx, x) && LeftOpen(ctx.env[x].value)
  }

  const BUILTINS: set<string> :=
    {"sourceDir", "sourceParentDir", "sourceDirName", "presetName", "generator", "dollar", "hostSystemName"}

  /** No variable has one of the macros that nothing stands for, or one that is never closed. */
  ghost predicate NothingElse(ctx: Context) {
    && (forall x, n :: '}' !in n && n !in BUILTINS ==> !Mentions(ctx, x, "${" + n + "}"))
    && (forall x, n :: '}' !in n ==> !Mentions(ctx, x, "$vendor{" + n + "}"))
    && forall x :: !Mentions(ctx, x, "$env{}") && !Mentions(ctx, x, "$penv{}") && !Unclosed(ctx, x)
  }

  /** What becomes of an environment with one text, which has one of these macros: for the vendor's there is no
      result, and any other is an error. */
  ghost predicate Refused(ctx: Context, e: Expansion) {
    forall x :: OnlyText(ctx, x) ==>
      && (ctx.version < 3 && Mentions(ctx, x, "${hostSystemName}") ==> e == Error)
      && (forall n :: '}' !in n && n !in BUILTINS && Mentions(ctx, x, "${" + n + "}") ==> e == Error)
      && (Mentions(ctx, x, "$env{}") || Mentions(ctx, x, "$penv{}") || Unclosed(ctx, x) ==> e == Error)
      && (forall n :: '}' !in n && Mentions(ctx, x, "$vendor{" + n + "}") ==> e == Ignore)
  }

  /** Every text from which one of the namespaces can still arise. */
  const BEGINNINGS: set<string> :=
    {"", "e", "en", "env", "p", "pe", "pen", "penv", "v", "ve", "ven", "vend", "vendo", "vendor"}

  /** After a dollar sign and ns, c shows that no macro begins there. */
  ghost predicate Stray(ns: string, c: char) {
    ns in BEGINNINGS && ns + [c] !in BEGINNINGS && (c == '{' ==> ns !in NAMESPACES)
  }

  /** The character that ends the search for a namespace is kept with it, even a dollar sign, after which no macro
      begins: among plain text such a stretch stays as it is, and so does one that the text ends in. */
  ghost predicate OthersKept(ctx: Context, fin: Environment) {
    && (forall ns, c :: Stray(ns, c) ==> Becomes(ctx, fin, "$" + ns + [c], "$" + ns + [c]))
    && (forall x, a, ns :: HasText(ctx, x) && x in fin && ns in BEGINNINGS && Ends(ctx.env[x].value, a, "$" + ns) ==>
          fin[x] == ctx.env[x])
  }

  // ---- a macro among plain text ----

  lemma {:induction false} MeaningChar(c: char, s: string, f: Expander)
    requires c != '$'
    ensures Meaning([c] + s, f) == Prepend([c], Meaning(s, f))
  {
    var t := [c] + s;
    assert t[1..] == s;
    TokensCons(Literal([c]), s, t);
    hide TokensOf, FirstToken;
    ExpandCons(Literal([c]), TokensOf(s).tokens, f);
  }

  lemma {:induction false} MeaningPlain(a: string, s: string, f: Expander)
    requires '$' !in a
    ensures Meaning(a + s, f) == Prepend(a, Meaning(s, f))
  {
    if |a| == 0 {
      assert a + s == s;
      PrependNothing(Meaning(s, f));
    } else {
      hide Meaning;
      assert a + s == [a[0]] + (a[1..] + s) && a == [a[0]] + a[1..];
      MeaningChar(a[0], a[1..] + s, f);
      MeaningPlain(a[1..], s, f);
      PrependTwice([a[0]], a[1..], Meaning(s, f));
    }
  }

  lemma PrependNothing(e: Expansion)
    ensures Prepend("", e) == e
  {
    assert e.Ok? ==> "" + e.text == e.text;
  }

  lemma PrependTwice(a: string, b: string, e: Expansion)
    ensures Prepend(a, Prepend(b, e)) == Prepend(a + b, e)
  {
    assert e.Ok? ==> a + (b + e.text) == (a + b) + e.text;
  }

  lemma {:induction false} MeaningMacro(ns: string, name: string, s: string, f: Expander)
    requires IsValidMacroNamespace(ns) && '}' !in name
    ensures Meaning(Written(ns, name) + s, f) == if f(ns, name).Ok? then Prepend(f(ns, name).text, Meaning(s, f))
                                                 else f(ns, name)
  {
    var t := Written(ns, name) + s;
    FirstIsMacro(ns, name, s);
    assert |t| > 0;
    TokensCons(Macro(ns, name), s, t);
    hide TokensOf, FirstToken, Written;
    ExpandCons(Macro(ns, name), TokensOf(s).tokens, f);
  }

  /** A macro among plain text becomes what it stands for, or the text fails as it does. */
  lemma {:induction false} MeaningAround(text: string, a: string, ns: string, name: string, b: string, f: Expander)
    requires Around(text, a, Written(ns, name), b) && IsValidMacroNamespace(ns) && '}' !in name
    ensures Meaning(text, f) == if f(ns, name).Ok? then Ok(a + f(ns, name).text + b) else f(ns, name)
  {
    var m := Written(ns, name);
    hide Written, IsValidMacroNamespace, Meaning;
    assert text == a + (m + b);
    MeaningPlain(a, m + b, f);
    MeaningMacro(ns, name, b, f);
    assert b + "" == b;
    MeaningPlain(b, "", f);
    assert Meaning("", f) == Ok("") by { MeaningNothing(f); }
    assert f(ns, name).Ok? ==> a + (f(ns, name).text + b) == a + f(ns, name).text + b;
  }

  lemma MeaningNothing(f: Expander)
    ensures Meaning("", f) == Ok("")
  {
  }

  // ---- dollar signs that begin no macro ----

  lemma ShortBeginnings(ns: string)
    ensures ns <= "env" <==> ns in {"", "e", "en", "env"}
    ensures ns <= "penv" <==> ns in {"", "p", "pe", "pen", "penv"}
  {
    var e, p := "env", "penv";
    assert e[..0] == "" && e[..1] == "e" && e[..2] == "en" && e[..3] == e;
    assert p[..0] == "" && p[..1] == "p" && p[..2] == "pe" && p[..3] == "pen" && p[..4] == p;
    assert ns <= e ==> ns == e[..|ns|];
    assert ns <= p ==> ns == p[..|ns|];
  }

  lemma LongBeginnings(ns: string)
    ensures ns <= "vendor" <==> ns in {"", "v", "ve", "ven", "vend", "vendo", "vendor"}
  {
    var v := "vendor";
    assert v[..0] == "" && v[..1] == "v" && v[..2] == "ve" && v[..3] == "ven";
    assert v[..4] == "vend" && v[..5] == "vendo" && v[..6] == v;
    assert ns <= v ==> ns == v[..|ns|];
  }

  lemma BeginningsExact(ns: string)
    ensures ns in BEGINNINGS <==> PrefixesValidMacroNamespace(ns)
    ensures ns in NAMESPACES <==> IsValidMacroNamespace(ns)
  {
    ShortBeginnings(ns);
    LongBeginnings(ns);
  }

  /** What begins no macro stays as it is, and what follows it is read on its own. */
  lemma {:induction false} MeaningStray(ns: string, c: char, s: string, f: Expander)
    requires Stray(ns, c)
    ensures Meaning("$" + ns + [c] + s, f) == Prepend("$" + ns + [c], Meaning(s, f))
  {
    var t := "$" + ns + [c] + s;
    BeginningsExact(ns);
    BeginningsExact(ns + [c]);
    FirstIsLiteral(ns, c, s);
    assert |t| > 0;
    TokensCons(Literal("$" + ns + [c]), s, t);
    hide TokensOf, FirstToken;
    ExpandCons(Literal("$" + ns + [c]), TokensOf(s).tokens, f);
  }

  lemma {:induction false} MeaningEnd(ns: string, f: Expander)
    requires ns in BEGINNINGS
    ensures Meaning("$" + ns, f) == Ok("$" + ns)
  {
    var t := "$" + ns;
    BeginningsExact(ns);
    FirstIsEnd(ns);
    assert |t| > 0;
    TokensCons(Literal(t), "", t);
    hide FirstToken;
    ExpandCons(Literal(t), [], f);
    assert t + "" == t;
  }

  lemma {:induction false} MeaningOpen(ns: string, name: string, f: Expander)
    requires ns in NAMESPACES && '}' !in name
    ensures Meaning("$" + ns + "{" + name, f) == Error
  {
    BeginningsExact(ns);
    FirstIsCut(ns, name);
    hide FirstToken;
    assert |"$" + ns + "{" + name| > 0;
  }

  /** What is kept before plain text is kept among plain text. */
  lemma {:induction false} KeptAround(a: string, m: string, b: string, f: Expander)
    requires '$' !in a && '$' !in b && Meaning(m + b, f) == Prepend(m, Meaning(b, f))
    ensures Meaning(a + m + b, f) == Ok(a + m + b)
  {
    assert a + m + b == a + (m + b) && b + "" == b;
    MeaningPlain(a, m + b, f);
    MeaningPlain(b, "", f);
    MeaningNothing(f);
    hide Meaning;
    PrependTwice(a, m, Ok(b));
  }

  lemma {:induction false} OpenFails(text: string, f: Expander)
    requires LeftOpen(text)
    ensures Meaning(text, f) == Error
  {
    var a, ns, name :| ns in NAMESPACES && '}' !in name && Ends(text, a, "$" + ns + "{" + name);
    MeaningPlain(a, "$" + ns + "{" + name, f);
    MeaningOpen(ns, name, f);
  }

  // ---- from the equations that the values solve ----

  lemma {:induction false} SolvedMacro(ctx: Context, fin: Environment, ns: string, name: string, v: string)
    requires Solves(ctx, fin) && IsValidMacroNamespace(ns) && '}' !in name
    requires Substituted(ctx, fin, ns, name) == Ok(v)
    ensures Becomes(ctx, fin, Written(ns, name), v)
  {
    hide Written, IsValidMacroNamespace, Meaning, Substituted, Around;
    forall x, a, b | HasText(ctx, x) && x in fin && Around(ctx.env[x].value, a, Written(ns, name), b)
      ensures fin[x] == Some(a + v + b)
    {
      MeaningAround(ctx.env[x].value, a, ns, name, b, Substitution(ctx, fin));
    }
  }

  /** A macro that fails is in no variable of an environment that has been expanded. */
  lemma {:induction false} SolvedNever(ctx: Context, fin: Environment, ns: string, name: string, x: string)
    requires Solves(ctx, fin) && IsValidMacroNamespace(ns) && '}' !in name
    requires !Substituted(ctx, fin, ns, name).Ok?
    ensures !Mentions(ctx, x, Written(ns, name))
  {
    hide Written, IsValidMacroNamespace, Meaning, Substituted, Around;
    if Mentions(ctx, x, Written(ns, name)) {
      var a, b :| Around(ctx.env[x].value, a, Written(ns, name), b);
      MeaningAround(ctx.env[x].value, a, ns, name, b, Substitution(ctx, fin));
    }
  }

  lemma DirectorySpelling()
    ensures Written("", "sourceDir") == "${sourceDir}" && Written("", "sourceParentDir") == "${sourceParentDir}"
    ensures Written("", "sourceDirName") == "${sourceDirName}"
  {
  }

  lemma OtherSpelling()
    ensures Written("", "presetName") == "${presetName}" && Written("", "generator") == "${generator}"
    ensures Written("", "dollar") == "${dollar}"
  {
  }

  lemma HostSpelling()
    ensures Written("", "hostSystemName") == "${hostSystemName}"
  {
  }

  lemma VariableSpelling(n: string)
    ensures Written("penv", n) == "$penv{" + n + "}" && Written("env", n) == "$env{" + n + "}"
  {
    assert "$" + "penv" + "{" == "$penv{" && "$" + "env" + "{" == "$env{";
  }

  lemma {:induction false} DirectoriesSolved(ctx: Context, fin: Environment)
    requires Solves(ctx, fin)
    ensures Becomes(ctx, fin, "${sourceDir}", ctx.sourceDir)
    ensures Becomes(ctx, fin, "${sourceParentDir}", ctx.sourceParentDir)
    ensures Becomes(ctx, fin, "${sourceDirName}", ctx.sourceDirName)
  {
    hide Solves, Becomes, Written;
    DirectorySpelling();
    SolvedMacro(ctx, fin, "", "sourceDir", ctx.sourceDir);
    SolvedMacro(ctx, fin, "", "sourceParentDir", ctx.sourceParentDir);
    SolvedMacro(ctx, fin, "", "sourceDirName", ctx.sourceDirName);
  }

  lemma {:induction false} OthersSolved(ctx: Context, fin: Environment)
    requires Solves(ctx, fin)
    ensures Becomes(ctx, fin, "${presetName}", ctx.presetName)
    ensures Becomes(ctx, fin, "${generator}", if ctx.hidden then "" else ctx.generator)
    ensures Becomes(ctx, fin, "${dollar}", "$")
  {
    hide Solves, Becomes, Written;
    OtherSpelling();
    SolvedMacro(ctx, fin, "", "presetName", ctx.presetName);
    SolvedMacro(ctx, fin, "", "generator", if ctx.hidden then "" else ctx.generator);
    SolvedMacro(ctx, fin, "", "dollar", "$");
  }

  lemma {:induction false} HostSolved(ctx: Context, fin: Environment)
    requires Solves(ctx, fin)
    ensures if ctx.version < 3 then forall x :: !Mentions(ctx, x, "${hostSystemName}")
            else Becomes(ctx, fin, "${hostSystemName}", ctx.hostSystemName)
  {
    hide Solves, Becomes, Written, Mentions;
    HostSpelling();
    if ctx.version < 3 {
      forall x ensures !Mentions(ctx, x, "${hostSystemName}") {
        SolvedNever(ctx, fin, "", "hostSystemName", x);
      }
    } else {
      SolvedMacro(ctx, fin, "", "hostSystemName", ctx.hostSystemName);
    }
  }

  lemma {:induction false} BuiltinsSolved(ctx: Context, fin: Environment)
    requires Solves(ctx, fin)
    ensures BuiltinsReplaced(ctx, fin)
  {
    hide Solves, Becomes, Mentions;
    DirectoriesSolved(ctx, fin);
    OthersSolved(ctx, fin);
    HostSolved(ctx, fin);
  }

  lemma {:induction false} VariablesSolved(ctx: Context, fin: Environment)
    requires Solves(ctx, fin)
    ensures VariablesReplaced(ctx, fin)
  {
    hide Solves, Becomes, Written;
    forall n | VariableName(n) ensures Becomes(ctx, fin, "$penv{" + n + "}", FromProcess(ctx, n)) {
      VariableSpelling(n);
      SolvedMacro(ctx, fin, "penv", n, FromProcess(ctx, n));
    }
    forall n | VariableName(n) && !HasText(ctx, n) ensures Becomes(ctx, fin, "$env{" + n + "}", FromProcess(ctx, n)) {
      VariableSpelling(n);
      SolvedMacro(ctx, fin, "env", n, FromProcess(ctx, n));
    }
    forall n | VariableName(n) && HasText(ctx, n) && n in fin && fin[n].Some?
      ensures Becomes(ctx, fin, "$env{" + n + "}", fin[n].value)
    {
      VariableSpelling(n);
      SolvedMacro(ctx, fin, "env", n, fin[n].value);
    }
  }

  lemma {:induction false} StrayBecomes(ctx: Context, fin: Environment, ns: string, c: char)
    requires Solves(ctx, fin) && Stray(ns, c)
    ensures Becomes(ctx, fin, "$" + ns + [c], "$" + ns + [c])
  {
    hide Meaning, Stray;
    var m, f := "$" + ns + [c], Substitution(ctx, fin);
    forall x, a, b | HasText(ctx, x) && x in fin && Around(ctx.env[x].value, a, m, b)
      ensures fin[x] == Some(a + m + b)
    {
      MeaningStray(ns, c, b, f);
      KeptAround(a, m, b, f);
    }
  }

  lemma {:induction false} EndBecomes(ctx: Context, fin: Environment, x: string, a: string, ns: string)
    requires Solves(ctx, fin) && HasText(ctx, x) && ns in BEGINNINGS && Ends(ctx.env[x].value, a, "$" + ns)
    ensures x in fin && fin[x] == ctx.env[x]
  {
    var f := Substitution(ctx, fin);
    MeaningPlain(a, "$" + ns, f);
    MeaningEnd(ns, f);
  }

  lemma {:induction false} StraysSolved(ctx: Context, fin: Environment)
    requires Solves(ctx, fin)
    ensures OthersKept(ctx, fin)
  {
    hide Solves, Becomes, Stray, Ends;
    forall ns, c | Stray(ns, c) ensures Becomes(ctx, fin, "$" + ns + [c], "$" + ns + [c]) {
      StrayBecomes(ctx, fin, ns, c);
    }
    forall x, a, ns | HasText(ctx, x) && ns in BEGINNINGS && Ends(ctx.env[x].value, a, "$" + ns)
      ensures x in fin && fin[x] == ctx.env[x]
    {
      EndBecomes(ctx, fin, x, a, ns);
    }
  }

  lemma {:induction false} NotOpen(ctx: Context, fin: Environment, x: string)
    requires Solves(ctx, fin)
    ensures !Unclosed(ctx, x)
  {
    hide LeftOpen, Meaning;
    if Unclosed(ctx, x) {
      OpenFails(ctx.env[x].value, Substitution(ctx, fin));
    }
  }

  // ---- macros that nothing stands for ----

  lemma RefusedSpelling(n: string)
    ensures Written("", n) == "${" + n + "}" && Written("vendor", n) == "$vendor{" + n + "}"
    ensures Written("env", "") == "$env{}" && Written("penv", "") == "$penv{}"
  {
    assert "$" + "" + "{" == "${" && "$" + "vendor" + "{" == "$vendor{";
    assert "$" + "env" + "{" + "" + "}" == "$env{}";
    assert "$" + "penv" + "{" + "" + "}" == "$penv{}";
  }

  lemma {:induction false} NothingElseSolved(ctx: Context, fin: Environment)
    requires Solves(ctx, fin)
    ensures NothingElse(ctx)
  {
    hide Solves, Mentions, Written, Unclosed;
    forall x, n | '}' !in n && n !in BUILTINS ensures !Mentions(ctx, x, "${" + n + "}") {
      RefusedSpelling(n);
      SolvedNever(ctx, fin, "", n, x);
    }
    forall x, n | '}' !in n ensures !Mentions(ctx, x, "$vendor{" + n + "}") {
      RefusedSpelling(n);
      SolvedNever(ctx, fin, "vendor", n, x);
    }
    forall x ensures !Mentions(ctx, x, "$env{}") && !Mentions(ctx, x, "$penv{}") && !Unclosed(ctx, x) {
      NotOpen(ctx, fin, x);
      RefusedSpelling("");
      SolvedNever(ctx, fin, "env", "", x);
      SolvedNever(ctx, fin, "penv", "", x);
    }
  }

  /** A variable with a failing macro among plain text fails like it. */
  lemma {:induction false} FailsLike(ctx: Context, x: string, ns: string, name: string)
    requires Mentions(ctx, x, Written(ns, name)) && IsValidMacroNamespace(ns) && '}' !in name
    requires !MacroValue(ctx, ns, name, {x}).Ok?
    ensures HasText(ctx, x) && Denote(ctx, x, {}) == MacroValue(ctx, ns, name, {x})
  {
    var a, b :| Around(ctx.env[x].value, a, Written(ns, name), b);
    assert {} + {x} == {x};
    var f := Macros(ctx, {x});
    assert f(ns, name) == MacroValue(ctx, ns, name, {x});
    assert Denote(ctx, x, {}) == Meaning(ctx.env[x].value, f);
    hide Macros, Denote, Meaning, Around, Written, MacroValue;
    MeaningAround(ctx.env[x].value, a, ns, name, b, f);
  }

  lemma {:induction false} OpenOne(ctx: Context, x: string)
    requires Unclosed(ctx, x)
    ensures Denote(ctx, x, {}) == Error
  {
    assert {} + {x} == {x};
    assert Denote(ctx, x, {}) == Meaning(ctx.env[x].value, Macros(ctx, {x}));
    hide Denote, Meaning, LeftOpen;
    OpenFails(ctx.env[x].value, Macros(ctx, {x}));
  }

  /** The values of the macros that nothing stands for. */
  lemma {:induction false} RefusedValues(ctx: Context, n: string, avoid: set<string>)
    ensures ctx.version < 3 ==> MacroValue(ctx, "", "hostSystemName", avoid) == Error
    ensures n !in BUILTINS ==> MacroValue(ctx, "", n, avoid) == Error
    ensures MacroValue(ctx, "vendor", n, avoid) == Ignore
    ensures MacroValue(ctx, "env", "", avoid) == Error && MacroValue(ctx, "penv", "", avoid) == Error
  {
    hide Denote, HasText;
  }

  lemma {:induction false} RefusedOne(ctx: Context, x: string, e: Expansion)
    requires OnlyText(ctx, x) && e == Denote(ctx, x, {})
    ensures Refused(ctx, e)
  {
    hide Denote, MacroValue, Mentions, Written, Unclosed;
    if Unclosed(ctx, x) {
      OpenOne(ctx, x);
    }
    HostSpelling();
    RefusedValues(ctx, "", {x});
    RefusedSpelling("");
    if ctx.version < 3 && Mentions(ctx, x, "${hostSystemName}") {
      FailsLike(ctx, x, "", "hostSystemName");
    }
    forall n | '}' !in n && n !in BUILTINS && Mentions(ctx, x, "${" + n + "}") ensures e == Error {
      RefusedSpelling(n);
      RefusedValues(ctx, n, {x});
      FailsLike(ctx, x, "", n);
    }
    forall n | '}' !in n && Mentions(ctx, x, "$vendor{" + n + "}") ensures e == Ignore {
      RefusedSpelling(n);
      RefusedValues(ctx, n, {x});
      FailsLike(ctx, x, "vendor", n);
    }
    if Mentions(ctx, x, "$env{}") {
      FailsLike(ctx, x, "env", "");
    }
    if Mentions(ctx, x, "$penv{}") {
      FailsLike(ctx, x, "penv", "");
    }
    forall y | OnlyText(ctx, y) ensures y == x {
      assert HasText(ctx, x) <==> x == y;
      assert HasText(ctx, x);
    }
  }
}
