/** Expansion of a preset's environment as the source performs it: in place, with a memo and cycle marks. */
module PresetEnvironment {
  import opened Collections
  import opened MacroText
  import opened MacroScanner
  import opened EnvironmentMeaning
  import opened BuiltinMacros

  datatype CycleStatus = Unvisited | InProgress | Verified

  type Cycles = map<string, CycleStatus>

  ghost function Fresh(cycles: Cycles): set<string> {
    set x | x in cycles && cycles[x].Unvisited?
  }

  ghost function Done(cycles: Cycles): set<string> {
    set x | x in cycles && cycles[x].Verified?
  }

  /** The memo is sound: variables not yet verified have their original text, those in progress are the
      path, and a verified one has its value whatever unverified variables are avoided. */
  ghost predicate Memo(ctx: Context, environment: Environment, cycles: Cycles, path: set<string>) {
    && environment.Keys == ctx.env.Keys == cycles.Keys
    && (forall x :: x in cycles ==> (cycles[x].InProgress? <==> x in path))
    && (forall x :: x in cycles && !cycles[x].Verified? ==> environment[x] == ctx.env[x])
    && (forall x :: x in cycles && cycles[x].Verified? ==> HasText(ctx, x) && environment[x].Some?)
    && Sound(ctx, environment, cycles)
  }

  ghost predicate Sound(ctx: Context, environment: Environment, cycles: Cycles)
    requires environment.Keys == ctx.env.Keys == cycles.Keys
    requires forall x :: x in cycles && cycles[x].Verified? ==> HasText(ctx, x) && environment[x].Some?
  {
    forall x, avoid :: x in cycles && cycles[x].Verified? && avoid !! Done(cycles) ==>
      Denote(ctx, x, avoid) == Ok(environment[x].value)
  }

  /** Between two states: verified variables stay verified, and no variable becomes unvisited again. */
  ghost predicate Advances(cycles: Cycles, cycles': Cycles) {
    Done(cycles) <= Done(cycles') && Fresh(cycles') <= Fresh(cycles)
  }

  lemma PathApart(ctx: Context, environment: Environment, cycles: Cycles, path: set<string>)
    requires Memo(ctx, environment, cycles, path)
    ensures path !! Done(cycles)
  {
  }

  lemma Enter(ctx: Context, environment: Environment, cycles: Cycles, path: set<string>, x: string)
    requires Memo(ctx, environment, cycles, path) && HasText(ctx, x) && cycles[x].Unvisited?
    ensures Memo(ctx, environment, cycles[x := InProgress], path + {x}) && x !in path
    ensures Done(cycles[x := InProgress]) == Done(cycles)
    ensures Fresh(cycles[x := InProgress]) < Fresh(cycles)
  {
    var cycles' := cycles[x := InProgress];
    assert Done(cycles') == Done(cycles);
    assert x in Fresh(cycles) && x !in Fresh(cycles');
    hide Denote;
    assert Sound(ctx, environment, cycles');
  }

  /** A variable whose text has been expanded may be marked verified with its new text. */
  lemma Leave(ctx: Context, environment: Environment, cycles: Cycles, path: set<string>, x: string, out: string)
    requires Memo(ctx, environment, cycles, path + {x}) && HasText(ctx, x) && x !in path
    requires forall avoid :: avoid !! Done(cycles) ==> Meaning(ctx.env[x].value, Macros(ctx, avoid)) == Ok(out)
    ensures Memo(ctx, environment[x := Some(out)], cycles[x := Verified], path)
    ensures Advances(cycles, cycles[x := Verified])
  {
    assert Fresh(cycles[x := Verified]) == Fresh(cycles);
    LeaveSound(ctx, environment, cycles, x, out);
    hide Denote, Meaning, Fresh, Macros, Sound;
  }

  lemma LeaveSound(ctx: Context, environment: Environment, cycles: Cycles, x: string, out: string)
    requires environment.Keys == ctx.env.Keys == cycles.Keys && HasText(ctx, x) && x !in Done(cycles)
    requires forall y :: y in cycles && cycles[y].Verified? ==> HasText(ctx, y) && environment[y].Some?
    requires Sound(ctx, environment, cycles)
    requires forall avoid :: avoid !! Done(cycles) ==> Meaning(ctx.env[x].value, Macros(ctx, avoid)) == Ok(out)
    ensures Done(cycles[x := Verified]) == Done(cycles) + {x}
    ensures Sound(ctx, environment[x := Some(out)], cycles[x := Verified])
  {
    assert Done(cycles[x := Verified]) == Done(cycles) + {x};
    forall avoid | avoid !! Done(cycles) + {x} ensures Denote(ctx, x, avoid) == Ok(out) {
      LeftMeaning(ctx, cycles, x, avoid, out);
    }
    hide Denote, Meaning, Done, Macros;
  }

  lemma LeftMeaning(ctx: Context, cycles: Cycles, x: string, avoid: set<string>, out: string)
    requires HasText(ctx, x) && x !in avoid && (avoid + {x}) !! Done(cycles)
    requires forall a :: a !! Done(cycles) ==> Meaning(ctx.env[x].value, Macros(ctx, a)) == Ok(out)
    ensures Denote(ctx, x, avoid) == Ok(out)
  {
    hide Meaning;
    assert Denote(ctx, x, avoid) == Meaning(ctx.env[x].value, Macros(ctx, avoid + {x}));
  }

  lemma AdvancesTrans(a: Cycles, b: Cycles, c: Cycles)
    requires Advances(a, b) && Advances(b, c)
    ensures Advances(a, c)
  {
  }

  class EnvironmentExpansion {
    const ctx: Context
    var environment: Environment
    var envCycles: Cycles

    constructor (ctx: Context)
      ensures this.ctx == ctx && environment == ctx.env && Memo(ctx, environment, envCycles, {})
    {
      this.ctx := ctx;
      environment := ctx.env;
      envCycles := map x | x in ctx.env :: Unvisited;
    }

    /** Expand all variables, in any order that lists them all; stop at the first that cannot be expanded. */
    method ExpandEnvironment(order: seq<string>) returns (e: Expansion)
      requires Memo(ctx, environment, envCycles, {})
      requires forall x :: x in order <==> x in ctx.env
      modifies this
      ensures e == FirstFailure(ctx, order)
      ensures e.Ok? <==> forall x :: HasText(ctx, x) ==> Denote(ctx, x, {}).Ok?
      ensures e.Ok? ==> environment.Keys == ctx.env.Keys
      ensures e.Ok? ==> forall x :: HasText(ctx, x) ==>
        environment[x].Some? && Denote(ctx, x, {}) == Ok(environment[x].value)
      ensures e.Ok? ==> forall x :: x in ctx.env && !HasText(ctx, x) ==> environment[x].None?
      ensures e.Ok? ==> Solves(ctx, environment)
      ensures e.Ok? ==>
        BuiltinsReplaced(ctx, environment) && VariablesReplaced(ctx, environment) && NothingElse(ctx)
      ensures e.Ok? ==> OthersKept(ctx, environment)
      ensures Refused(ctx, e)
    {
      FailureAnywhere(ctx, order);
      OneRefused(ctx, order);
      NoneExpanded(ctx, order, envCycles);
      hide Memo, Denote, Solves, BuiltinsReplaced, VariablesReplaced, NothingElse, Refused, FirstFailure, Expanded;
      hide HasText, Advances, OthersKept;
      for k := 0 to |order|
        invariant Memo(ctx, environment, envCycles, {}) && Expanded(ctx, order, k, envCycles)
      {
        var name := order[k];
        ghost var before := envCycles;
        MemoKeys(ctx, environment, envCycles, {}, name);
        if environment[name].Some? {
          e := VisitEnv(name, {});
          if !e.Ok? {
            ExpansionFails(ctx, order, k, before);
            return;
          }
          VerifiedValue(ctx, environment, envCycles, {}, name);
          ExpandedNext(ctx, order, k, before, envCycles);
        } else {
          ExpandedSkip(ctx, order, k, envCycles);
        }
      }
      e := Ok("");
      AllExpanded(ctx, order, environment, envCycles);
    }

    /** Expand one variable, unless that has been done; the result carries its text. */
    method VisitEnv(name: string, ghost path: set<string>) returns (e: Expansion)
      requires Memo(ctx, environment, envCycles, path) && HasText(ctx, name)
      modifies this
      ensures e.Ok? ==> Memo(ctx, environment, envCycles, path) && Advances(old(envCycles), envCycles)
      ensures e.Ok? ==> name in Done(envCycles) && environment[name] == Some(e.text)
      ensures !e.Ok? ==> Denote(ctx, name, path) == e
      decreases Fresh(envCycles), 0
    {
      if envCycles[name] == Verified {
        return Ok(environment[name].value);
      }
      if envCycles[name] == InProgress {
        return Error;
      }

      Enter(ctx, environment, envCycles, path, name);
      envCycles := envCycles[name := InProgress];
      e := ExpandMacros(environment[name].value, path + {name});
      if e.Ok? {
        Leave(ctx, environment, envCycles, path, name, e.text);
        environment := environment[name := Some(e.text)];
        envCycles := envCycles[name := Verified];
      }
    }

    /** Scan a text and expand the macros in it. */
    method ExpandMacros(text: string, ghost path: set<string>) returns (e: Expansion)
      requires Memo(ctx, environment, envCycles, path)
      modifies this
      ensures e.Ok? ==> Memo(ctx, environment, envCycles, path) && Advances(old(envCycles), envCycles)
      ensures e.Ok? ==> forall avoid :: avoid !! Done(envCycles) ==> Meaning(text, Macros(ctx, avoid)) == e
      ensures !e.Ok? ==> Meaning(text, Macros(ctx, path)) == e
      decreases Fresh(envCycles), 3
    {
      hide Memo, Scanned, Produced, Macros, Meaning;
      var result := "";
      var sc := Scanner(Default, "", "");
      ghost var done: seq<Token> := [];
      ScanStart(text);
      ProducedNothing(ctx, envCycles);
      for i := 0 to |text|
        invariant Memo(ctx, environment, envCycles, path) && Advances(old(envCycles), envCycles)
        invariant Scanned(text, i, done, sc) && Produced(ctx, envCycles, done, result)
      {
        var c := text[i];
        ScanStep(text, i, done, sc);
        assert ScannerOk(sc) by { ScannedOk(text, i, done, sc); }
        ghost var (next, ts) := Step(sc, c);
        match sc.mode {
          case Default =>
            if c == '$' {
              sc := Scanner(InNamespace, "", "");
            } else {
              ProducedLiteral(ctx, envCycles, done, result, [c]);
              result := result + [c];
            }
          case InNamespace =>
            if c == '{' {
              if IsValidMacroNamespace(sc.ns) {
                sc := Scanner(InName, sc.ns, "");
              } else {
                ProducedLiteral(ctx, envCycles, done, result, "$" + sc.ns + [c]);
                result := result + ("$" + sc.ns + [c]);
                sc := Scanner(Default, "", "");
              }
            } else if PrefixesValidMacroNamespace(sc.ns + [c]) {
              sc := Scanner(InNamespace, sc.ns + [c], "");
            } else {
              ProducedLiteral(ctx, envCycles, done, result, "$" + sc.ns + [c]);
              result := result + ("$" + sc.ns + [c]);
              sc := Scanner(Default, "", "");
            }
          case InName =>
            if c == '}' {
              ghost var before := envCycles;
              assert path !! Done(envCycles) by { PathApart(ctx, environment, envCycles, path); }
              var m := ExpandMacro(sc.ns, sc.name, path);
              if !m.Ok? {
                MacroFails(ctx, before, text, i + 1, done, next, result, sc.ns, sc.name, path);
                return m;
              }
              ProducedMacro(ctx, before, envCycles, done, result, sc.ns, sc.name, m.text);
              AdvancesTrans(old(envCycles), before, envCycles);
              result := result + m.text;
              sc := Scanner(Default, "", "");
            } else {
              sc := Scanner(InName, sc.ns, sc.name + [c]);
            }
        }
        assert sc == next;
        assert done + [] == done;
        done := done + ts;
      }
      e := Finish(text, done, sc, result, path);
    }

    /** What remains in the scanner when the text is over. */
    method Finish(text: string, ghost done: seq<Token>, sc: Scanner, result: string, ghost path: set<string>)
      returns (e: Expansion)
      requires Memo(ctx, environment, envCycles, path)
      requires Scanned(text, |text|, done, sc) && Produced(ctx, envCycles, done, result)
      ensures e.Ok? ==> forall avoid :: avoid !! Done(envCycles) ==> Meaning(text, Macros(ctx, avoid)) == e
      ensures !e.Ok? ==> Meaning(text, Macros(ctx, path)) == e
    {
      ScanEnd(text, done, sc);
      PathApart(ctx, environment, envCycles, path);
      hide Memo, Scanned, Macros;
      match sc.mode {
        case Default => e := Ok(result);
        case InNamespace =>
          ProducedLiteral(ctx, envCycles, done, result, "$" + sc.ns);
          e := Ok(result + ("$" + sc.ns));
        case InName => e := Error;
      }
    }

    /** Ask the expanders in turn. */
    method ExpandMacro(ns: string, name: string, ghost path: set<string>) returns (e: Expansion)
      requires Memo(ctx, environment, envCycles, path)
      modifies this
      ensures e.Ok? ==> Memo(ctx, environment, envCycles, path) && Advances(old(envCycles), envCycles)
      ensures e.Ok? ==> forall avoid :: avoid !! Done(envCycles) ==> MacroValue(ctx, ns, name, avoid) == e
      ensures !e.Ok? ==> MacroValue(ctx, ns, name, path) == e
      decreases Fresh(envCycles), 2
    {
      e := DefaultMacro(ctx, ns, name);
      if !e.Ignore? {
        return;
      }
      e := EnvironmentMacro(ns, name, path);
      if !e.Ignore? {
        forall avoid: set<string> ensures MacroValue(ctx, ns, name, avoid) ==
          var v := VariableMacro(ctx, ns, name, avoid); if !v.Ignore? then v else Unclaimed(ns)
        {
        }
        return;
      }
      if ns == "vendor" {
        return Ignore;
      }
      return Error;
    }

    /** The expander for variables: those of the preset first, then those of the process. */
    method EnvironmentMacro(ns: string, name: string, ghost path: set<string>) returns (e: Expansion)
      requires Memo(ctx, environment, envCycles, path)
      modifies this
      ensures e.Ok? ==> Memo(ctx, environment, envCycles, path) && Advances(old(envCycles), envCycles)
      ensures e.Ok? ==> forall avoid :: avoid !! Done(envCycles) ==> VariableMacro(ctx, ns, name, avoid) == e
      ensures !e.Ok? ==> VariableMacro(ctx, ns, name, path) == e
      decreases Fresh(envCycles), 1
    {
      if ns == "env" && name != "" {
        if name in environment && environment[name].Some? {
          HasTextStill(ctx, environment, envCycles, path, name);
          e := VisitEnv(name, path);
          if e.Ok? {
            VerifiedValue(ctx, environment, envCycles, path, name);
          }
          return;
        }
      }
      HasTextNot(ctx, environment, envCycles, path, name);
      e := ProcessMacro(ctx, ns, name);
    }
  }

  /** The first variable in the given order that has no value decides; otherwise all is well. */
  function FirstFailure(ctx: Context, order: seq<string>): Expansion {
    if |order| == 0 then Ok("")
    else
      var rest := FirstFailure(ctx, order[..|order| - 1]);
      var x := order[|order| - 1];
      if rest.Ok? && HasText(ctx, x) && !Denote(ctx, x, {}).Ok? then Denote(ctx, x, {}) else rest
  }

  /** Whether there is a failure does not depend on the order. */
  lemma {:induction false} FailureAnywhere(ctx: Context, order: seq<string>)
    ensures FirstFailure(ctx, order).Ok? <==> forall x :: x in order && HasText(ctx, x) ==> Denote(ctx, x, {}).Ok?
  {
    if |order| > 0 {
      var init, x := order[..|order| - 1], order[|order| - 1];
      FailureAnywhere(ctx, init);
      assert order == init + [x];
      hide Denote;
    }
  }

  /** With one text only, its failure is the outcome. */
  lemma {:induction false} OneRefused(ctx: Context, order: seq<string>)
    requires forall x :: x in order <==> x in ctx.env
    ensures Refused(ctx, FirstFailure(ctx, order))
  {
    hide Denote, Mentions, Unclosed;
    if x :| OnlyText(ctx, x) {
      assert HasText(ctx, x);
      OneFails(ctx, order, x);
      var e := FirstFailure(ctx, order);
      if e.Ok? {
        OneFine(ctx, x, e);
      } else {
        RefusedOne(ctx, x, e);
      }
    }
  }

  lemma {:induction false} OneFails(ctx: Context, order: seq<string>, x: string)
    requires OnlyText(ctx, x) && HasText(ctx, x) && x in order
    ensures FirstFailure(ctx, order) == if Denote(ctx, x, {}).Ok? then Ok("") else Denote(ctx, x, {})
  {
    hide Denote, HasText;
    var last := order[|order| - 1];
    assert order == order[..|order| - 1] + [last];
    assert HasText(ctx, last) ==> last == x;
    if x in order[..|order| - 1] {
      OneFails(ctx, order[..|order| - 1], x);
    } else {
      NoneFails(ctx, order[..|order| - 1], x);
    }
  }

  lemma {:induction false} NoneFails(ctx: Context, order: seq<string>, x: string)
    requires OnlyText(ctx, x) && x !in order
    ensures FirstFailure(ctx, order) == Ok("")
  {
    hide Denote, HasText;
    if |order| > 0 {
      var last := order[|order| - 1];
      assert order == order[..|order| - 1] + [last];
      assert last in order;
      NoneFails(ctx, order[..|order| - 1], x);
    }
  }

  /** If the only text has a value, none of the macros that fail is in it. */
  lemma {:induction false} OneFine(ctx: Context, x: string, e: Expansion)
    requires OnlyText(ctx, x) && HasText(ctx, x) && Denote(ctx, x, {}).Ok?
    ensures Refused(ctx, e)
  {
    hide Denote, Mentions, Unclosed;
    RefusedOne(ctx, x, Denote(ctx, x, {}));
    assert forall y :: OnlyText(ctx, y) ==> y == x by {
      assert forall y :: OnlyText(ctx, y) ==> HasText(ctx, y);
    }
  }

  /** An environment in which variables refer to each other in a circle is refused in every order. */
  lemma CycleRefused(ctx: Context, order: seq<string>, p: seq<string>)
    requires |p| > 1 && ReferenceChain(ctx, p) && p[0] == p[|p| - 1] && p[0] in order
    ensures !FirstFailure(ctx, order).Ok?
  {
    FailureAnywhere(ctx, order);
    CycleHasNoValue(ctx, p);
  }

  /** The two kinds of variable macros, apart from those the preset defines by default. */
  function VariableMacro(ctx: Context, ns: string, name: string, avoid: set<string>): Expansion {
    if Refers(ctx, ns, name) then Denote(ctx, name, avoid) else ProcessMacro(ctx, ns, name)
  }

  lemma HasTextStill(ctx: Context, environment: Environment, cycles: Cycles, path: set<string>, x: string)
    requires Memo(ctx, environment, cycles, path) && x in environment && environment[x].Some?
    ensures HasText(ctx, x)
  {
    hide Sound;
  }

  lemma HasTextNot(ctx: Context, environment: Environment, cycles: Cycles, path: set<string>, x: string)
    requires Memo(ctx, environment, cycles, path)
    ensures HasText(ctx, x) ==> x in environment && environment[x].Some?
  {
    hide Sound;
  }

  lemma MemoKeys(ctx: Context, environment: Environment, cycles: Cycles, path: set<string>, x: string)
    requires Memo(ctx, environment, cycles, path) && x in ctx.env
    ensures x in environment && (environment[x].Some? <==> HasText(ctx, x))
  {
    hide Sound;
  }

  /** The first k variables in the order have been expanded, and none has failed. */
  ghost predicate Expanded(ctx: Context, order: seq<string>, k: int, cycles: Cycles) {
    && 0 <= k <= |order| && FirstFailure(ctx, order[..k]) == Ok("")
    && forall x :: x in order[..k] && HasText(ctx, x) ==> x in Done(cycles)
  }

  lemma NoneExpanded(ctx: Context, order: seq<string>, cycles: Cycles)
    ensures Expanded(ctx, order, 0, cycles)
  {
  }

  lemma FirstFailureNext(ctx: Context, order: seq<string>, k: int)
    requires 0 <= k < |order| && FirstFailure(ctx, order[..k]).Ok?
    ensures FirstFailure(ctx, order[..k + 1]) ==
      if HasText(ctx, order[k]) && !Denote(ctx, order[k], {}).Ok? then Denote(ctx, order[k], {})
      else FirstFailure(ctx, order[..k])
  {
    assert order[..k + 1][..k] == order[..k];
    hide Denote;
  }

  lemma {:induction false} ExpandedNext(ctx: Context, order: seq<string>, k: int, cycles: Cycles, cycles': Cycles)
    requires Expanded(ctx, order, k, cycles) && k < |order| && Advances(cycles, cycles')
    requires HasText(ctx, order[k]) ==> order[k] in Done(cycles') && Denote(ctx, order[k], {}).Ok?
    ensures Expanded(ctx, order, k + 1, cycles')
  {
    FirstFailureNext(ctx, order, k);
    assert order[..k + 1] == order[..k] + [order[k]];
    hide Denote, FirstFailure, HasText;
  }

  lemma {:induction false} ExpandedSkip(ctx: Context, order: seq<string>, k: int, cycles: Cycles)
    requires Expanded(ctx, order, k, cycles) && k < |order| && !HasText(ctx, order[k])
    ensures Expanded(ctx, order, k + 1, cycles)
  {
    ExpandedNext(ctx, order, k, cycles, cycles);
  }

  lemma {:induction false} ExpansionFails(ctx: Context, order: seq<string>, k: int, cycles: Cycles)
    requires Expanded(ctx, order, k, cycles) && k < |order| && HasText(ctx, order[k])
    requires !Denote(ctx, order[k], {}).Ok?
    ensures FirstFailure(ctx, order) == Denote(ctx, order[k], {})
  {
    FirstFailureNext(ctx, order, k);
    hide Denote, HasText, FirstFailure;
    FailsFrom(ctx, order, k + 1);
  }

  lemma {:induction false} AllExpanded(ctx: Context, order: seq<string>, fin: Environment, cycles: Cycles)
    requires Memo(ctx, fin, cycles, {}) && Expanded(ctx, order, |order|, cycles)
    requires forall x :: x in order <==> x in ctx.env
    ensures FirstFailure(ctx, order) == Ok("") && fin.Keys == ctx.env.Keys
    ensures forall x :: HasText(ctx, x) ==> fin[x].Some? && Denote(ctx, x, {}) == Ok(fin[x].value)
    ensures forall x :: x in ctx.env && !HasText(ctx, x) ==> fin[x].None?
    ensures Solves(ctx, fin) && BuiltinsReplaced(ctx, fin) && VariablesReplaced(ctx, fin) && NothingElse(ctx)
    ensures OthersKept(ctx, fin)
  {
    assert order[..|order|] == order;
    AllVerified(ctx, fin, cycles);
    hide Memo, Denote, Solves, BuiltinsReplaced, VariablesReplaced, NothingElse, OthersKept, FirstFailure;
    ValuesSolve(ctx, fin);
    BuiltinsSolved(ctx, fin);
    VariablesSolved(ctx, fin);
    NothingElseSolved(ctx, fin);
    StraysSolved(ctx, fin);
  }

  lemma {:induction false} FailsFrom(ctx: Context, order: seq<string>, k: nat)
    requires k <= |order| && !FirstFailure(ctx, order[..k]).Ok?
    ensures FirstFailure(ctx, order) == FirstFailure(ctx, order[..k])
    decreases |order| - k
  {
    if k < |order| {
      assert order[..k + 1][..k] == order[..k];
      FailsFrom(ctx, order, k + 1);
    } else {
      assert order[..k] == order;
    }
  }

  lemma AllVerified(ctx: Context, environment: Environment, cycles: Cycles)
    requires Memo(ctx, environment, cycles, {}) && forall x :: HasText(ctx, x) ==> x in Done(cycles)
    ensures environment.Keys == ctx.env.Keys
    ensures forall x :: HasText(ctx, x) ==> environment[x].Some? && Denote(ctx, x, {}) == Ok(environment[x].value)
    ensures forall x :: x in ctx.env && !HasText(ctx, x) ==> environment[x].None?
  {
    hide Denote;
    assert forall x :: HasText(ctx, x) ==> x in cycles && cycles[x].Verified?;
    assert {} !! Done(cycles);
  }

  lemma VerifiedValue(ctx: Context, environment: Environment, cycles: Cycles, path: set<string>, x: string)
    requires Memo(ctx, environment, cycles, path) && x in Done(cycles)
    ensures HasText(ctx, x) && environment[x].Some?
    ensures forall avoid :: avoid !! Done(cycles) ==> Denote(ctx, x, avoid) == Ok(environment[x].value)
  {
  }

  lemma ScannedOk(text: string, i: int, done: seq<Token>, sc: Scanner)
    requires Scanned(text, i, done, sc)
    ensures ScannerOk(sc)
  {
  }

  // ---- what has been produced while scanning ----

  /** The tokens found so far have been expanded to the result, whatever unverified variables are avoided. */
  ghost predicate Produced(ctx: Context, cycles: Cycles, done: seq<Token>, result: string) {
    forall avoid :: avoid !! Done(cycles) ==> Expand(done, Macros(ctx, avoid)) == Ok(result)
  }

  lemma ProducedNothing(ctx: Context, cycles: Cycles)
    ensures Produced(ctx, cycles, [], "")
  {
    hide Macros;
  }

  lemma ProducedLiteral(ctx: Context, cycles: Cycles, done: seq<Token>, result: string, text: string)
    requires Produced(ctx, cycles, done, result)
    ensures Produced(ctx, cycles, done + [Literal(text)], result + text)
  {
    hide Macros;
    forall avoid | avoid !! Done(cycles)
      ensures Expand(done + [Literal(text)], Macros(ctx, avoid)) == Ok(result + text)
    {
      ExpandMore(done, Literal(text), Macros(ctx, avoid), result);
    }
  }

  lemma ProducedMacro(ctx: Context, cycles: Cycles, cycles': Cycles, done: seq<Token>, result: string,
    ns: string, name: string, text: string)
    requires Produced(ctx, cycles, done, result) && Advances(cycles, cycles')
    requires forall avoid :: avoid !! Done(cycles') ==> MacroValue(ctx, ns, name, avoid) == Ok(text)
    ensures Produced(ctx, cycles', done + [Macro(ns, name)], result + text)
  {
    forall avoid | avoid !! Done(cycles')
      ensures Expand(done + [Macro(ns, name)], Macros(ctx, avoid)) == Ok(result + text)
    {
      assert avoid !! Done(cycles);
      ExpandMore(done, Macro(ns, name), Macros(ctx, avoid), result);
    }
  }

  /** A macro that fails decides the outcome of the whole text. */
  lemma MacroFails(ctx: Context, cycles: Cycles, text: string, i: int, done: seq<Token>, sc: Scanner, result: string,
    ns: string, name: string, path: set<string>)
    requires Produced(ctx, cycles, done, result) && path !! Done(cycles)
    requires Scanned(text, i, done + [Macro(ns, name)], sc)
    requires !MacroValue(ctx, ns, name, path).Ok?
    ensures Meaning(text, Macros(ctx, path)) == MacroValue(ctx, ns, name, path)
  {
    var f := Macros(ctx, path);
    assert Expand(done, f) == Ok(result);
    ExpandMore(done, Macro(ns, name), f, result);
    MeaningFails(text, i, done + [Macro(ns, name)], sc, f);
  }
}
