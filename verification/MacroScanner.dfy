/** The three-state character scanner of macro expansion, and how its progress relates to tokens. */
module MacroScanner {
  import opened MacroText

  datatype Mode = Default | InNamespace | InName

  datatype Scanner = Scanner(mode: Mode, ns: string, name: string)

  /** The text read but not yet turned into a token. */
  function Held(sc: Scanner): string {
    match sc.mode
    case Default => ""
    case InNamespace => "$" + sc.ns
    case InName => Opened(sc.ns, sc.name)
  }

  ghost predicate ScannerOk(sc: Scanner) {
    match sc.mode
    case Default => sc.ns == "" && sc.name == ""
    case InNamespace => PrefixesValidMacroNamespace(sc.ns) && sc.name == ""
    case InName => IsValidMacroNamespace(sc.ns) && '}' !in sc.name
  }

  /** One character: the next scanner and the tokens it completes. */
  function Step(sc: Scanner, c: char): (Scanner, seq<Token>) {
    var start := Scanner(Default, "", "");
    match sc.mode
    case Default =>
      if c == '$' then (Scanner(InNamespace, "", ""), []) else (start, [Literal([c])])
    case InNamespace =>
      if c == '{' && IsValidMacroNamespace(sc.ns) then (Scanner(InName, sc.ns, ""), [])
      else if c != '{' && PrefixesValidMacroNamespace(sc.ns + [c]) then (Scanner(InNamespace, sc.ns + [c], ""), [])
      else (start, [Literal("$" + sc.ns + [c])])
    case InName =>
      if c == '}' then (start, [Macro(sc.ns, sc.name)])
      else (Scanner(InName, sc.ns, sc.name + [c]), [])
  }

  /** After i characters, `done` are the tokens found; the rest of the text, with what is held, gives the others. */
  ghost predicate Scanned(text: string, i: int, done: seq<Token>, sc: Scanner) {
    && 0 <= i <= |text| && ScannerOk(sc)
    && TokensOf(text) == Before(done, TokensOf(Held(sc) + text[i..]))
  }

  function Before(done: seq<Token>, p: Parse): Parse {
    p.(tokens := done + p.tokens)
  }

  lemma BeforeCons(done: seq<Token>, t: Token, p: Parse)
    ensures Before(done, Cons(t, p)) == Before(done + [t], p)
  {
    assert done + ([t] + p.tokens) == done + [t] + p.tokens;
  }

  lemma ScanStart(text: string)
    ensures Scanned(text, 0, [], Scanner(Default, "", ""))
  {
    assert "" + text[0..] == text;
  }

  /** Reading one more character keeps the relation. */
  lemma ScanStep(text: string, i: int, done: seq<Token>, sc: Scanner)
    requires Scanned(text, i, done, sc) && i < |text|
    ensures var (sc', ts) := Step(sc, text[i]); Scanned(text, i + 1, done + ts, sc')
  {
    var c, tail := text[i], text[i + 1..];
    var (sc', ts) := Step(sc, c);
    StepHeld(sc, c, tail);
    TextFrom(text, i);
    hide Step, Held, TokensOf, ScannerOk, Before;
    ScanAdvance(TokensOf(text), done, ts, TokensOf(Held(sc) + ([c] + tail)), TokensOf(Held(sc') + tail));
  }

  lemma TextFrom(text: string, i: int)
    requires 0 <= i < |text|
    ensures text[i..] == [text[i]] + text[i + 1..]
  {
  }

  lemma ScanAdvance(whole: Parse, done: seq<Token>, ts: seq<Token>, p: Parse, p': Parse)
    requires whole == Before(done, p) && |ts| <= 1
    requires if |ts| == 0 then p == p' else p == Cons(ts[0], p')
    ensures whole == Before(done + ts, p')
  {
    if |ts| == 0 {
      assert done + ts == done;
    } else {
      BeforeCons(done, ts[0], p');
      assert ts == [ts[0]];
    }
  }

  /** What was held, the character and the tail are spelled by the completed token and what is held now. */
  lemma StepHeld(sc: Scanner, c: char, tail: string)
    requires ScannerOk(sc)
    ensures var (sc', ts) := Step(sc, c);
      && ScannerOk(sc') && |ts| <= 1
      && (|ts| == 0 ==> Held(sc) + ([c] + tail) == Held(sc') + tail)
      && (|ts| == 1 ==> TokensOf(Held(sc) + ([c] + tail)) == Cons(ts[0], TokensOf(Held(sc') + tail)))
  {
    var (sc', ts) := Step(sc, c);
    var s := Held(sc) + ([c] + tail);
    match sc.mode
    case Default =>
      if c != '$' {
        assert s == [c] + tail && s[1..] == tail;
        assert "" + tail == tail;
        TokensCons(Literal([c]), tail, s);
      }
    case InNamespace =>
      HeldNamespace(sc, c, tail);
    case InName =>
      if c == '}' {
        assert Written(sc.ns, sc.name) + tail == s;
        FirstIsMacro(sc.ns, sc.name, tail);
        assert "" + tail == tail;
        TokensCons(Macro(sc.ns, sc.name), tail, s);
      } else {
        assert Opened(sc.ns, sc.name + [c]) == Opened(sc.ns, sc.name) + [c];
        assert '}' !in sc.name + [c];
      }
  }

  lemma HeldNamespace(sc: Scanner, c: char, tail: string)
    requires ScannerOk(sc) && sc.mode.InNamespace?
    ensures var (sc', ts) := Step(sc, c);
      && ScannerOk(sc')
      && (|ts| == 0 ==> Held(sc) + ([c] + tail) == Held(sc') + tail)
      && (|ts| == 1 ==> TokensOf(Held(sc) + ([c] + tail)) == Cons(ts[0], TokensOf(Held(sc') + tail)))
  {
    var s := Held(sc) + ([c] + tail);
    if c == '{' && IsValidMacroNamespace(sc.ns) {
      assert Opened(sc.ns, "") == "$" + sc.ns + [c];
    } else if c != '{' && PrefixesValidMacroNamespace(sc.ns + [c]) {
      assert "$" + (sc.ns + [c]) == "$" + sc.ns + [c];
    } else {
      if c == '{' {
        NoBrace(sc.ns);
      }
      assert s == "$" + sc.ns + [c] + tail;
      FirstIsLiteral(sc.ns, c, tail);
      assert "" + tail == tail;
      TokensCons(Literal("$" + sc.ns + [c]), tail, s);
    }
  }

  /** The tokens of the whole text, when the scanner is through. */
  lemma ScanEnd(text: string, done: seq<Token>, sc: Scanner)
    requires Scanned(text, |text|, done, sc)
    ensures sc.mode.Default? ==> TokensOf(text) == Parse(done, true)
    ensures sc.mode.InNamespace? ==> TokensOf(text) == Parse(done + [Literal("$" + sc.ns)], true)
    ensures sc.mode.InName? ==> TokensOf(text) == Parse(done, false)
  {
    assert Held(sc) + text[|text|..] == Held(sc);
    match sc.mode
    case Default =>
    case InNamespace =>
      FirstIsEnd(sc.ns);
      TokensCons(Literal("$" + sc.ns), "", "$" + sc.ns);
      BeforeCons(done, Literal("$" + sc.ns), TokensOf(""));
    case InName =>
      FirstIsCut(sc.ns, sc.name);
  }

  // ---- expanding the tokens found so far ----

  lemma {:induction false} ExpandMore(ts: seq<Token>, t: Token, expand: Expander, text: string)
    requires Expand(ts, expand) == Ok(text)
    ensures Expand(ts + [t], expand) ==
      var e := Value(t, expand); if e.Ok? then Ok(text + e.text) else e
    decreases |ts|
  {
    if |ts| == 0 {
      assert ts + [t] == [t];
    } else {
      var e := Value(ts[0], expand);
      var rest := Expand(ts[1..], expand);
      ExpandMore(ts[1..], t, expand, rest.text);
      assert (ts + [t])[1..] == ts[1..] + [t];
      var v := Value(t, expand);
      if v.Ok? {
        assert e.text + (rest.text + v.text) == e.text + rest.text + v.text;
      }
    }
  }

  /** A failure among the first tokens is the outcome of all of them. */
  lemma {:induction false} ExpandFails(ts: seq<Token>, us: seq<Token>, expand: Expander)
    requires !Expand(ts, expand).Ok?
    ensures Expand(ts + us, expand) == Expand(ts, expand)
    decreases |ts|
  {
    assert (ts + us)[1..] == ts[1..] + us;
    if Value(ts[0], expand).Ok? {
      ExpandFails(ts[1..], us, expand);
    }
  }

  lemma MeaningFails(text: string, i: int, done: seq<Token>, sc: Scanner, expand: Expander)
    requires Scanned(text, i, done, sc) && !Expand(done, expand).Ok?
    ensures Meaning(text, expand) == Expand(done, expand)
  {
    ExpandFails(done, TokensOf(Held(sc) + text[i..]).tokens, expand);
  }
}
