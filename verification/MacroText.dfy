/** The texts of presets as sequences of literals and macros, and what expanding them means. */
module MacroText {
  import opened Collections

  /** Outcome of expanding a macro or a whole text. */
  datatype Expansion = Ok(text: string) | Ignore | Error

  /** What a macro, given by namespace and name, expands to. */
  type Expander = (string, string) -> Expansion

  // ---- namespaces ----

  predicate IsValidMacroNamespace(s: string) {
    s == "" || s == "env" || s == "penv" || s == "vendor"
  }

  predicate PrefixesValidMacroNamespace(s: string) {
    s <= "" || s <= "env" || s <= "penv" || s <= "vendor"
  }

  /** Length of the longest beginning of s from which a valid namespace could still arise. */
  function NamespaceLength(s: string): (n: nat)
    ensures n <= |s| && PrefixesValidMacroNamespace(s[..n])
  {
    NamespaceFrom(s, 0)
  }

  function NamespaceFrom(s: string, n: nat): (m: nat)
    requires n <= |s| && PrefixesValidMacroNamespace(s[..n])
    ensures n <= m <= |s| && PrefixesValidMacroNamespace(s[..m])
    ensures m == |s| || !PrefixesValidMacroNamespace(s[..m + 1])
    ensures forall k :: n <= k <= m ==> PrefixesValidMacroNamespace(s[..k])
    decreases |s| - n
  {
    if n < |s| && PrefixesValidMacroNamespace(s[..n + 1]) then NamespaceFrom(s, n + 1) else n
  }

  /** Position of the first closing brace, or the length of s. */
  function NameLength(s: string): (n: nat)
    ensures n <= |s| && '}' !in s[..n] && (n < |s| ==> s[n] == '}')
  {
    if |s| == 0 || s[0] == '}' then 0
    else
      var n := 1 + NameLength(s[1..]);
      assert s[..n] == [s[0]] + s[1..][..n - 1];
      n
  }

  // ---- tokens ----

  datatype Token = Literal(text: string) | Macro(ns: string, name: string)

  function Spelling(t: Token): string {
    match t
    case Literal(text) => text
    case Macro(ns, name) => Written(ns, name)
  }

  function Written(ns: string, name: string): string {
    "$" + ns + "{" + name + "}"
  }

  /** The first token of a text and what follows it, or the finding that the text ends inside a macro name. */
  datatype First = First(token: Token, rest: string) | Cut

  function FirstToken(s: string): (f: First)
    requires |s| > 0
    ensures f.First? ==> |f.rest| < |s| && Spelling(f.token) + f.rest == s
  {
    if s[0] != '$' then
      First(Literal([s[0]]), s[1..])
    else
      var n := NamespaceLength(s[1..]);
      var ns, after := s[1..][..n], s[1..][n..];
      if |after| == 0 then
        First(Literal("$" + ns), "")
      else if after[0] != '{' || !IsValidMacroNamespace(ns) then
        SpellLiteral(s, n);
        First(Literal("$" + ns + [after[0]]), after[1..])
      else
        var m := NameLength(after[1..]);
        if m == |after[1..]| then Cut
        else
          SpellMacro(s, n, m);
          First(Macro(ns, after[1..][..m]), after[1..][m + 1..])
  }

  lemma SpellLiteral(s: string, n: nat)
    requires |s| > 0 && s[0] == '$' && n < |s[1..]|
    ensures var ns, after := s[1..][..n], s[1..][n..]; "$" + ns + [after[0]] + after[1..] == s
  {
  }

  lemma SpellMacro(s: string, n: nat, m: nat)
    requires |s| > 0 && s[0] == '$' && n < |s[1..]| && s[1..][n] == '{'
    requires m < |s[1..][n..][1..]| && s[1..][n..][1..][m] == '}'
    ensures var ns, after := s[1..][..n], s[1..][n..];
      Written(ns, after[1..][..m]) + after[1..][m + 1..] == s
  {
    var ns, after := s[1..][..n], s[1..][n..];
    var name, rest := after[1..][..m], after[1..][m + 1..];
    assert ns == s[1..n + 1] && name == s[n + 2..n + 2 + m] && rest == s[n + m + 3..];
    hide *;
    Pieces(s, n + 1, n + 2 + m);
  }

  lemma Pieces(s: string, a: nat, b: nat)
    requires 0 < a < b < |s| && s[0] == '$' && s[a] == '{' && s[b] == '}'
    ensures Written(s[1..a], s[a + 1..b]) + s[b + 1..] == s
  {
    var w := Written(s[1..a], s[a + 1..b]);
    assert |w| == b + 1;
    assert w == s[..b + 1];
  }

  /** A text in tokens; it is incomplete when the text ends inside a macro name. */
  datatype Parse = Parse(tokens: seq<Token>, complete: bool)

  function Cons(t: Token, p: Parse): Parse {
    p.(tokens := [t] + p.tokens)
  }

  function TokensOf(s: string): Parse
    decreases |s|
  {
    if |s| == 0 then Parse([], true)
    else
      var f := FirstToken(s);
      if f.Cut? then Parse([], false) else Cons(f.token, TokensOf(f.rest))
  }

  // ---- the meaning of a text ----

  /** Text already produced comes before what follows. */
  function Prepend(text: string, e: Expansion): Expansion {
    if e.Ok? then Ok(text + e.text) else e
  }

  function Value(t: Token, expand: Expander): Expansion {
    match t
    case Literal(text) => Ok(text)
    case Macro(ns, name) => expand(ns, name)
  }

  /** The expansions of the tokens one after the other, or the first one that fails. */
  function Expand(ts: seq<Token>, expand: Expander): Expansion {
    if |ts| == 0 then Ok("")
    else
      var e := Value(ts[0], expand);
      if e.Ok? then Prepend(e.text, Expand(ts[1..], expand)) else e
  }

  function Meaning(s: string, expand: Expander): Expansion {
    var p := TokensOf(s);
    var e := Expand(p.tokens, expand);
    if e.Ok? && !p.complete then Error else e
  }

  // ---- tokens spell the text ----

  function Render(ts: seq<Token>): string {
    if |ts| == 0 then "" else Spelling(ts[0]) + Render(ts[1..])
  }

  lemma RenderCons(t: Token, ts: seq<Token>)
    ensures Render([t] + ts) == Spelling(t) + Render(ts)
  {
    assert ([t] + ts)[1..] == ts;
  }

  /** Tokenizing loses nothing: the tokens of a complete text spell it. */
  lemma {:induction false} RenderTokens(s: string)
    requires TokensOf(s).complete
    ensures Render(TokensOf(s).tokens) == s
    decreases |s|
  {
    if |s| > 0 {
      var f := FirstToken(s);
      RenderTokens(f.rest);
      RenderCons(f.token, TokensOf(f.rest).tokens);
    }
  }

  /** An expander that writes every macro back as it was. */
  function Echo(ns: string, name: string): Expansion {
    Ok(Written(ns, name))
  }

  lemma {:induction false} EchoExpand(ts: seq<Token>)
    ensures Expand(ts, Echo) == Ok(Render(ts))
  {
    if |ts| > 0 {
      EchoExpand(ts[1..]);
    }
  }

  /** Scanner fidelity: text comes back unchanged, and only ending inside a macro name is an error. */
  lemma EchoFidelity(s: string)
    ensures Meaning(s, Echo) == if TokensOf(s).complete then Ok(s) else Error
  {
    EchoExpand(TokensOf(s).tokens);
    if TokensOf(s).complete {
      RenderTokens(s);
    }
  }

  // ---- the first token of texts of known shape ----

  lemma PrefixClosed(p: string, q: string)
    requires PrefixesValidMacroNamespace(p) && q <= p
    ensures PrefixesValidMacroNamespace(q)
  {
  }

  lemma NamespaceLengthIs(s: string, n: nat)
    requires n <= |s| && PrefixesValidMacroNamespace(s[..n])
    requires n == |s| || !PrefixesValidMacroNamespace(s[..n + 1])
    ensures NamespaceLength(s) == n
  {
    var m := NamespaceFrom(s, 0);
    if m < n {
      PrefixClosed(s[..n], s[..m + 1]);
    }
  }

  lemma {:induction false} NameLengthIs(s: string, n: nat)
    requires n <= |s| && '}' !in s[..n] && (n < |s| ==> s[n] == '}')
    ensures NameLength(s) == n
  {
    if n > 0 {
      assert s[0] in s[..n];
      assert s[..n] == [s[0]] + s[1..][..n - 1];
      NameLengthIs(s[1..], n - 1);
    }
  }

  lemma NoBrace(ns: string)
    requires PrefixesValidMacroNamespace(ns)
    ensures !PrefixesValidMacroNamespace(ns + "{")
  {
    var s := ns + "{";
    assert s[|s| - 1] == '{';
  }

  lemma FirstIsLiteral(ns: string, c: char, tail: string)
    requires PrefixesValidMacroNamespace(ns) && !PrefixesValidMacroNamespace(ns + [c])
    requires c != '{' || !IsValidMacroNamespace(ns)
    ensures FirstToken("$" + ns + [c] + tail) == First(Literal("$" + ns + [c]), tail)
  {
    var s := "$" + ns + [c] + tail;
    assert s[1..] == ns + [c] + tail;
    assert s[1..][..|ns|] == ns && s[1..][..|ns| + 1] == ns + [c];
    NamespaceLengthIs(s[1..], |ns|);
    assert s[1..][|ns|..] == [c] + tail;
  }

  lemma FirstIsEnd(ns: string)
    requires PrefixesValidMacroNamespace(ns)
    ensures FirstToken("$" + ns) == First(Literal("$" + ns), "")
  {
    var s := "$" + ns;
    assert s[1..] == ns && ns[..|ns|] == ns;
    NamespaceLengthIs(s[1..], |ns|);
  }

  lemma AfterNamespace(ns: string, after: string)
    requires PrefixesValidMacroNamespace(ns) && |after| > 0 && after[0] == '{'
    ensures NamespaceLength(ns + after) == |ns|
  {
    NoBrace(ns);
    assert (ns + after)[..|ns|] == ns && (ns + after)[..|ns| + 1] == ns + "{";
    NamespaceLengthIs(ns + after, |ns|);
  }

  lemma FirstIsMacro(ns: string, name: string, tail: string)
    requires IsValidMacroNamespace(ns) && '}' !in name
    ensures FirstToken(Written(ns, name) + tail) == First(Macro(ns, name), tail)
  {
    WrittenParts(ns, name, tail);
    AfterNamespace(ns, "{" + name + "}" + tail);
    NameInside(name, tail);
    hide NamespaceLength, NameLength, PrefixesValidMacroNamespace, Spelling, Written, IsValidMacroNamespace;
  }

  lemma WrittenParts(ns: string, name: string, tail: string)
    ensures var s, after := Written(ns, name) + tail, "{" + name + "}" + tail;
      && |s| > 0 && s[0] == '$' && s[1..] == ns + after && s[1..][..|ns|] == ns && s[1..][|ns|..] == after
      && |after| > 0 && after[0] == '{' && after[1..] == name + "}" + tail
  {
    var s, after := Written(ns, name) + tail, "{" + name + "}" + tail;
    assert s[1..] == ns + after;
    assert (ns + after)[..|ns|] == ns && (ns + after)[|ns|..] == after;
  }

  lemma NameInside(name: string, tail: string)
    requires '}' !in name
    ensures var inside := name + "}" + tail;
      NameLength(inside) == |name| < |inside| && inside[..|name|] == name && inside[|name| + 1..] == tail
  {
    var inside := name + "}" + tail;
    assert inside[..|name|] == name && inside[|name|] == '}' && inside[|name| + 1..] == tail;
    NameLengthIs(inside, |name|);
  }

  lemma FirstIsCut(ns: string, name: string)
    requires IsValidMacroNamespace(ns) && '}' !in name
    ensures FirstToken("$" + ns + "{" + name) == Cut
  {
    var s := "$" + ns + "{" + name;
    var after := "{" + name;
    assert s[0] == '$' && s[1..] == ns + after;
    AfterNamespace(ns, after);
    assert s[1..][..|ns|] == ns && s[1..][|ns|..] == after;
    assert after[1..] == name && name[..|name|] == name;
    NameLengthIs(name, |name|);
  }

  // ---- escaping ----

  /** Every dollar sign replaced by the macro that stands for it. */
  function Escape(s: string): string {
    if |s| == 0 then ""
    else (if s[0] == '$' then Written("", "dollar") else [s[0]]) + Escape(s[1..])
  }

  lemma TokensCons(t: Token, tail: string, s: string)
    requires |s| > 0 && FirstToken(s) == First(t, tail)
    ensures TokensOf(s) == Cons(t, TokensOf(tail))
  {
  }

  lemma ExpandCons(t: Token, ts: seq<Token>, expand: Expander)
    ensures Expand([t] + ts, expand) ==
      var e := Value(t, expand); if e.Ok? then Prepend(e.text, Expand(ts, expand)) else e
  {
    assert ([t] + ts)[1..] == ts;
  }

  /** An escaped text expands to the original, whatever other macros mean. */
  lemma {:induction false} EscapeExpands(s: string, expand: Expander)
    requires expand("", "dollar") == Ok("$")
    ensures Meaning(Escape(s), expand) == Ok(s)
    decreases |s|
  {
    if |s| > 0 {
      var rest := Escape(s[1..]);
      EscapeExpands(s[1..], expand);
      assert s == [s[0]] + s[1..];
      if s[0] == '$' {
        FirstIsMacro("", "dollar", rest);
        TokensCons(Macro("", "dollar"), rest, Escape(s));
        ExpandCons(Macro("", "dollar"), TokensOf(rest).tokens, expand);
      } else {
        var e := [s[0]] + rest;
        assert e[1..] == rest;
        TokensCons(Literal([s[0]]), rest, Escape(s));
        ExpandCons(Literal([s[0]]), TokensOf(rest).tokens, expand);
      }
    }
  }

  lemma Open(s: string, a: nat)
    requires 0 < a < |s| && s[0] == '$' && s[a] == '{'
    ensures s == Opened(s[1..a], s[a + 1..])
  {
  }

  /** The beginning of a macro that is not closed. */
  function Opened(ns: string, name: string): string {
    "$" + ns + "{" + name
  }

  lemma CutShape(s: string) returns (ns: string, name: string)
    requires |s| > 0 && FirstToken(s).Cut?
    ensures IsValidMacroNamespace(ns) && '}' !in name && s == Opened(ns, name)
  {
    var n := NamespaceLength(s[1..]);
    var after := s[1..][n..];
    ns, name := s[1..][..n], after[1..];
    assert name[..|name|] == name;
    assert ns == s[1..n + 1] && name == s[n + 2..] && s[n + 1] == '{';
    hide FirstToken, NamespaceLength, NameLength, IsValidMacroNamespace, Opened;
    Open(s, n + 1);
  }

  /** An incomplete text ends inside a macro name: its tokens are followed by a macro that is never closed. */
  lemma {:induction false} IncompleteShape(s: string) returns (ns: string, name: string)
    requires !TokensOf(s).complete
    ensures IsValidMacroNamespace(ns) && '}' !in name
    ensures s == Render(TokensOf(s).tokens) + Opened(ns, name)
    decreases |s|
  {
    var f := FirstToken(s);
    if f.Cut? {
      ns, name := CutShape(s);
      assert Render([]) == "";
    } else {
      ns, name := IncompleteShape(f.rest);
      RenderBefore(f.token, TokensOf(f.rest).tokens, Opened(ns, name));
    }
  }

  lemma RenderBefore(t: Token, ts: seq<Token>, tail: string)
    ensures Render([t] + ts) + tail == Spelling(t) + (Render(ts) + tail)
  {
    RenderCons(t, ts);
    hide Render, Spelling;
    Associate(Spelling(t), Render(ts), tail);
  }
}
