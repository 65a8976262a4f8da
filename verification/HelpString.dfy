/** Help strings of the cache file: the comment lines they are written as, and the loop that reads them back. */
module HelpString {
  import opened Collections

  // ---- writing ----

  /** Where a line ends that began at pos: at a newline, at the end, or at a space when the line is long. */
  predicate Break(h: string, pos: nat, i: nat)
    requires i <= |h|
  {
    i == |h| || h[i] == '\n' || (i - pos >= 60 && h[i] == ' ')
  }

  /** The characters from pos up to i; when pos has passed i, the unsigned count covers all that is left. */
  function Sub(h: string, pos: nat, i: nat): string
    requires pos <= |h| && i <= |h|
  {
    if pos <= i then h[pos..i] else h[pos..]
  }

  function LineFor(h: string, pos: nat, i: nat): string
    requires pos < |h| && i <= |h|
  {
    if h[pos] == '\n' then "//" + "\\n" + Sub(h, pos + 1, i) else "//" + Sub(h, pos, i)
  }

  /** All that is written from the point on where a line has begun at pos and i is the next index. */
  function WriteFrom(h: string, pos: nat, i: nat): string
    requires pos < |h| && i <= |h| + 1
    decreases |h| + 1 - i
  {
    if i > |h| then ""
    else if !Break(h, pos, i) then WriteFrom(h, pos, i + 1)
    else LineFor(h, pos, i) + "\n" + (if i < |h| then WriteFrom(h, i, i + 1) else "")
  }

  method OutputHelpString(helpString: string) returns (fout: string)
    ensures fout == Written(helpString)
    ensures '\n' !in helpString ==> Wrapped(fout)
  {
    WrittenWrapped(helpString);
    fout := "";
    var end := |helpString|;
    if end == 0 {
      return;
    }
    var pos := 0;
    for i := 0 to end + 1
      invariant pos < end || i == end + 1
      invariant i <= end ==> fout + WriteFrom(helpString, pos, i) == WriteFrom(helpString, 0, 0)
      invariant i == end + 1 ==> fout == WriteFrom(helpString, 0, 0)
    {
      ghost var before, at := fout, pos;
      if i == end || helpString[i] == '\n' || (i - pos >= 60 && helpString[i] == ' ') {
        fout := fout + "//";
        if helpString[pos] == '\n' {
          pos := pos + 1;
          fout := fout + "\\n";
        }
        var oneLine := Sub(helpString, pos, i);
        fout := fout + oneLine + "\n";
        assert fout == before + (LineFor(helpString, at, i) + "\n") by {
          Pieces(before, "//", if helpString[at] == '\n' then "\\n" else "", oneLine);
        }
        pos := i;
        if i < end {
          Associate(before, LineFor(helpString, at, i) + "\n", WriteFrom(helpString, i, i + 1));
        }
      }
    }
  }

  // ---- how long the lines are ----

  /** The text has a line from place a to the newline at place e. */
  ghost predicate IsLine(text: string, a: int, e: int) {
    0 <= a <= e < |text| && (a == 0 || text[a - 1] == '\n') && '\n' !in text[a..e] && text[e] == '\n'
  }

  /** Every line is a comment without a space after its sixtieth character; one that others follow has at least
      sixty, and the next one begins with the space at which it was broken. */
  ghost predicate Wrapped(text: string) {
    && (text == "" || text[|text| - 1] == '\n')
    && forall a, e :: IsLine(text, a, e) ==> WellBroken(text, a, e)
  }

  ghost predicate WellBroken(text: string, a: int, e: int)
    requires 0 <= a <= e < |text|
  {
    && "//" <= text[a..e] && (forall q :: a + 2 + 60 <= q < e ==> text[q] != ' ')
    && (e + 1 < |text| ==> e - (a + 2) >= 60 && e + 3 < |text| && text[e + 3] == ' ')
  }

  /** A line in front of lines that are well broken. */
  lemma {:induction false} WrappedMore(x: string, rest: string)
    requires '\n' !in x && Wrapped(rest) && forall q :: 60 <= q < |x| ==> x[q] != ' '
    requires rest != "" ==> |x| >= 60 && |rest| > 2 && rest[2] == ' '
    ensures Wrapped("//" + x + "\n" + rest)
  {
    var l := "//" + x;
    var text := l + "\n" + rest;
    assert forall q :: 0 <= q < |l| ==> text[q] == l[q] && l[q] != '\n';
    forall a, e | IsLine(text, a, e) ensures WellBroken(text, a, e) {
      if a == 0 {
        assert text[|l|] == '\n';
        FirstBroken(text, l, rest, e);
      } else {
        LaterBroken(text, l, rest, a, e);
      }
    }
  }

  lemma {:induction false} FirstBroken(text: string, l: string, rest: string, e: int)
    requires text == l + "\n" + rest && IsLine(text, 0, e) && '\n' !in l && "//" <= l
    requires forall q :: 62 <= q < |l| ==> l[q] != ' '
    requires rest != "" ==> |l| >= 62 && |rest| > 2 && rest[2] == ' '
    ensures WellBroken(text, 0, e)
  {
    assert e == |l| by {
      assert forall q :: 0 <= q < |l| ==> text[q] == l[q];
      assert text[|l|] == '\n';
      assert forall q :: 0 <= q < e ==> text[0..e][q] == text[q];
    }
    assert text[0..e] == l;
    assert rest != "" ==> text[e + 3] == rest[2];
  }

  lemma {:induction false} LaterBroken(text: string, l: string, rest: string, a: int, e: int)
    requires text == l + "\n" + rest && IsLine(text, a, e) && '\n' !in l && a > 0 && Wrapped(rest)
    ensures WellBroken(text, a, e)
  {
    var n := |l| + 1;
    assert a >= n by {
      assert forall q :: 0 <= q < |l| ==> text[q] == l[q];
    }
    assert forall q :: n <= q < |text| ==> text[q] == rest[q - n];
    assert text[a..e] == rest[a - n..e - n];
    assert IsLine(rest, a - n, e - n);
    assert WellBroken(rest, a - n, e - n);
  }

  lemma {:induction false} LinesWrapped(h: string, pos: nat, i: nat)
    requires '\n' !in h && pos < |h| && pos <= i <= |h| && (i == pos ==> pos == 0)
    requires forall k :: pos + 60 <= k < i ==> h[k] != ' '
    ensures Wrapped(WriteFrom(h, pos, i))
    ensures |WriteFrom(h, pos, i)| > 2 && WriteFrom(h, pos, i)[2] == h[pos]
    decreases |h| - i
  {
    hide Wrapped;
    if !Break(h, pos, i) {
      LinesWrapped(h, pos, i + 1);
    } else {
      assert pos < i;
      var rest := if i < |h| then WriteFrom(h, i, i + 1) else "";
      if i < |h| {
        LinesWrapped(h, i, i + 1);
      } else {
        NothingWrapped();
      }
      assert LineFor(h, pos, i) == "//" + h[pos..i];
      WrappedMore(h[pos..i], rest);
    }
  }

  lemma NothingWrapped()
    ensures Wrapped("")
  {
  }

  lemma {:induction false} WrittenWrapped(h: string)
    ensures '\n' !in h ==> Wrapped(Written(h))
  {
    if h == "" {
      NothingWrapped();
    } else if '\n' !in h {
      LinesWrapped(h, 0, 0);
    }
  }

  lemma Pieces(a: string, b: string, c: string, d: string)
    ensures a + b + c + d + "\n" == a + (b + c + d + "\n")
    ensures a + b + d + "\n" == a + (b + d + "\n")
    ensures b + "" + d == b + d
  {
  }

  // ---- reading ----

  function NewlineAt(text: string): (k: nat)
    ensures k <= |text| && (k < |text| ==> text[k] == '\n') && '\n' !in text[..k]
  {
    if text == "" || text[0] == '\n' then 0
    else
      var k := NewlineAt(text[1..]);
      assert text[..k + 1] == [text[0]] + text[1..][..k];
      k + 1
  }

  /** A line without the carriage return it may end with. */
  function StripReturn(l: string): string {
    if |l| > 0 && l[|l| - 1] == '\r' then l[..|l| - 1] else l
  }

  function FirstLine(text: string): string {
    StripReturn(text[..NewlineAt(text)])
  }

  function AfterLine(text: string): string {
    if NewlineAt(text) < |text| then text[NewlineAt(text) + 1..] else ""
  }

  /** A line as the C string that the reading loop looks at: it ends before the first NUL. */
  function CString(l: string): (c: string)
    ensures c <= l && '\0' !in c && ('\0' !in l ==> c == l) && ('\0' in l ==> |c| < |l|)
  {
    if l == "" || l[0] == '\0' then "" else [l[0]] + CString(l[1..])
  }

  predicate IsHelpLine(b: string) {
    "//" <= b
  }

  /** What one help line contributes. */
  function Decode(b: string): string
    requires IsHelpLine(b)
  {
    if "//\\n" <= b then "\n" + b[4..] else b[2..]
  }

  /** The help string that the reading loop collects from the text. */
  function Read(text: string): string
    decreases |text|
  {
    var b := CString(FirstLine(text));
    if IsHelpLine(b) then Decode(b) + Read(AfterLine(text)) else ""
  }

  /** Reads help lines, and the line after them. */
  method ReadHelpString(fin: string) returns (helpString: string, realbuffer: string)
    ensures helpString == Read(fin) && !IsHelpLine(realbuffer)
  {
    helpString := "";
    var stream := fin;
    var buffer := FirstLine(stream);
    ghost var at := stream;
    stream := AfterLine(stream);
    realbuffer := CString(buffer);
    while |realbuffer| >= 2 && realbuffer[0] == '/' && realbuffer[1] == '/'
      invariant realbuffer == CString(FirstLine(at)) && stream == AfterLine(at)
      invariant Read(fin) == helpString + Read(at)
      decreases |at|
    {
      ghost var before := helpString;
      if |realbuffer| >= 4 && realbuffer[2] == '\\' && realbuffer[3] == 'n' {
        helpString := helpString + "\n";
        helpString := helpString + realbuffer[4..];
      } else {
        helpString := helpString + realbuffer[2..];
      }
      DecodeParts(before, realbuffer);
      Associate(before, Decode(realbuffer), Read(stream));
      buffer := FirstLine(stream);
      at := stream;
      stream := AfterLine(stream);
      realbuffer := CString(buffer);
    }
  }

  lemma DecodeParts(before: string, b: string)
    requires IsHelpLine(b)
    ensures |b| >= 4 && b[2] == '\\' && b[3] == 'n' ==> before + "\n" + b[4..] == before + Decode(b)
    ensures !(|b| >= 4 && b[2] == '\\' && b[3] == 'n') ==> before + b[2..] == before + Decode(b)
  {
    assert b[0] == '/' && b[1] == '/';
    if |b| >= 4 && b[2] == '\\' && b[3] == 'n' {
      assert b[..4] == "//\\n";
    }
  }

  // ---- lines, one at a time ----

  lemma {:induction false} LineEnds(l: string, rest: string)
    requires '\n' !in l
    ensures NewlineAt(l + "\n" + rest) == |l|
  {
    if |l| > 0 {
      assert (l + "\n" + rest)[1..] == l[1..] + "\n" + rest;
      assert '\n' !in l[1..];
      LineEnds(l[1..], rest);
    } else {
      assert l + "\n" + rest == "\n" + rest;
    }
  }

  lemma ReadLine(l: string, rest: string)
    requires '\n' !in l
    ensures Read(l + "\n" + rest) ==
            if IsHelpLine(CString(StripReturn(l))) then Decode(CString(StripReturn(l))) + Read(rest) else ""
  {
    var t := l + "\n" + rest;
    LineEnds(l, rest);
    assert t[..|l|] == l && t[|l| + 1..] == rest;
  }

  // ---- the round trip ----

  /** A line has begun at pos, and up to i there was no reason to end it. */
  ghost predicate Within(h: string, pos: nat, i: nat) {
    && pos < |h| && pos <= i <= |h| + 1 && (i == pos ==> pos == 0 && h[0] != '\n')
    && (pos > 0 ==> h[pos] == ' ' || h[pos] == '\n')
    && (forall k :: pos < k < i && k < |h| ==> h[k] != '\n')
  }

  /** The characters of one line are all read back. */
  predicate CleanLine(h: string, pos: nat, i: nat)
    requires pos <= i <= |h|
  {
    '\0' !in h[pos..i] && !(i > pos && h[i - 1] == '\r') && !(pos == 0 && "\\n" <= h)
  }

  /** No line loses a character: there is no NUL, no line ends in a carriage return, and the first
      does not look like the continuation of another. */
  predicate Clean(h: string, pos: nat, i: nat)
    requires pos < |h| && pos <= i <= |h| + 1
    decreases |h| + 1 - i
  {
    if i > |h| then true
    else if !Break(h, pos, i) then Clean(h, pos, i + 1)
    else CleanLine(h, pos, i) && (i < |h| ==> Clean(h, i, i + 1))
  }

  lemma NoNewline(h: string, pos: nat, i: nat)
    requires Within(h, pos, i) && i <= |h|
    ensures '\n' !in LineFor(h, pos, i)
  {
    var l := LineFor(h, pos, i);
    forall k | 0 <= k < |l| ensures l[k] != '\n' {
    }
  }

  /** One line, read back: all of it if it is clean, and otherwise less than there was. */
  lemma LineBack(h: string, pos: nat, i: nat)
    requires Within(h, pos, i) && i <= |h| && Break(h, pos, i)
    ensures pos < i
    ensures var b := CString(StripReturn(LineFor(h, pos, i)));
            IsHelpLine(b) && |Decode(b)| <= i - pos
            && (CleanLine(h, pos, i) ==> Decode(b) == h[pos..i])
            && (!CleanLine(h, pos, i) ==> |Decode(b)| < i - pos)
  {
    LineShape(h, pos, i);
    if h[pos] == '\n' {
      NewlineBack(h, pos, i);
    } else {
      PlainBack(h, pos, i);
    }
  }

  lemma LineShape(h: string, pos: nat, i: nat)
    requires pos < i <= |h|
    ensures LineFor(h, pos, i) == if h[pos] == '\n' then "//\\n" + h[pos + 1..i] else "//" + h[pos..i]
    ensures h[pos..i] == [h[pos]] + h[pos + 1..i]
  {
  }

  lemma CutShort(pre: string, x: string)
    requires |pre| > 0 && '\0' !in pre && pre[|pre| - 1] != '\r'
    ensures var b := CString(StripReturn(pre + x));
            pre <= b && |b| <= |pre| + |x| && b <= pre + x
            && ('\0' !in x && !(|x| > 0 && x[|x| - 1] == '\r') ==> b == pre + x)
            && ('\0' in x || (|x| > 0 && x[|x| - 1] == '\r') ==> |b| < |pre| + |x|)
  {
    var l := pre + x;
    var s := StripReturn(l);
    assert pre <= s;
    CutKeeps(pre, s);
    if '\0' in x && s == l {
      assert '\0' in s;
    }
    if '\0' !in x {
      assert '\0' !in l;
      assert '\0' !in s;
    }
  }

  lemma {:induction false} CutKeeps(pre: string, s: string)
    requires '\0' !in pre && pre <= s
    ensures pre <= CString(s)
  {
    if |pre| > 0 {
      assert pre[0] == s[0] && pre[0] in pre;
      assert pre[1..] <= s[1..];
      CutKeeps(pre[1..], s[1..]);
    }
  }

  lemma NewlineBack(h: string, pos: nat, i: nat)
    requires pos < i <= |h| && h[pos] == '\n'
    ensures var b := CString(StripReturn("//\\n" + h[pos + 1..i]));
            IsHelpLine(b) && |Decode(b)| <= i - pos
            && (CleanLine(h, pos, i) ==> Decode(b) == h[pos..i])
            && (!CleanLine(h, pos, i) ==> |Decode(b)| < i - pos)
  {
    var x := h[pos + 1..i];
    CutShort("//\\n", x);
    DecodeNewline(CString(StripReturn("//\\n" + x)), x);
    CleanAfterNewline(h, pos, i);
    assert h[pos..i] == "\n" + x;
  }

  lemma DecodeNewline(b: string, x: string)
    requires "//\\n" <= b <= "//\\n" + x
    ensures IsHelpLine(b) && |Decode(b)| == |b| - 3 && (b == "//\\n" + x ==> Decode(b) == "\n" + x)
  {
    assert b[..4] == "//\\n";
    assert ("//\\n" + x)[4..] == x;
  }

  lemma CleanAfterNewline(h: string, pos: nat, i: nat)
    requires pos < i <= |h| && h[pos] == '\n'
    ensures var x := h[pos + 1..i];
      CleanLine(h, pos, i) <==> '\0' !in x && !(|x| > 0 && x[|x| - 1] == '\r')
  {
    var x := h[pos + 1..i];
    assert h[pos..i] == ['\n'] + x;
    assert h[i - 1] == '\r' <==> |x| > 0 && x[|x| - 1] == '\r';
    assert !(pos == 0 && "\\n" <= h);
  }

  lemma PlainBack(h: string, pos: nat, i: nat)
    requires Within(h, pos, i) && pos < i <= |h| && h[pos] != '\n' && Break(h, pos, i)
    ensures var b := CString(StripReturn("//" + h[pos..i]));
            IsHelpLine(b) && |Decode(b)| <= i - pos
            && (CleanLine(h, pos, i) ==> Decode(b) == h[pos..i])
            && (!CleanLine(h, pos, i) ==> |Decode(b)| < i - pos)
  {
    var x := h[pos..i];
    CutShort("//", x);
    var b := CString(StripReturn("//" + x));
    LooksContinued(h, pos, i, b);
    hide CString, StripReturn, Break, Within;
    assert b[..2] == "//";
    assert ("//" + x)[2..] == x;
    assert h[i - 1] == x[|x| - 1];
  }

  /** A line looks like the continuation of another only if the help string starts that way. */
  lemma LooksContinued(h: string, pos: nat, i: nat, b: string)
    requires Within(h, pos, i) && pos < i <= |h| && h[pos] != '\n' && Break(h, pos, i)
    requires b <= "//" + h[pos..i]
    ensures "//\\n" <= b ==> pos == 0 && "\\n" <= h
    ensures b == "//" + h[pos..i] && pos == 0 && "\\n" <= h ==> "//\\n" <= b
  {
    var x := h[pos..i];
    var l := "//" + x;
    if "//\\n" <= b {
      assert b[2] == l[2] == x[0] == h[pos] && b[3] == l[3] == x[1] == h[pos + 1];
    }
    if pos == 0 && "\\n" <= h {
      assert h[0] == '\\' && h[1] == 'n';
      assert i >= 2;
      assert x[0] == '\\' && x[1] == 'n';
      assert l[..4] == "//\\n";
    }
  }

  /** What is read back from pos on: everything if it is clean, and otherwise too little. */
  lemma {:induction false} ReadBack(h: string, pos: nat, i: nat, tail: string)
    requires Within(h, pos, i) && i <= |h| && !IsHelpLine(CString(FirstLine(tail)))
    ensures |Read(WriteFrom(h, pos, i) + tail)| <= |h| - pos
    ensures Clean(h, pos, i) ==> Read(WriteFrom(h, pos, i) + tail) == h[pos..]
    ensures !Clean(h, pos, i) ==> |Read(WriteFrom(h, pos, i) + tail)| < |h| - pos
    decreases |h| - i
  {
    hide Read, WriteFrom, Clean, Within;
    if !Break(h, pos, i) {
      NoBreak(h, pos, i);
      ReadBack(h, pos, i + 1, tail);
    } else {
      WriteStep(h, pos, i, tail);
      if i < |h| {
        var rest := WriteFrom(h, i, i + 1) + tail;
        var d := ReadHead(h, pos, i, rest);
        ReadBack(h, i, i + 1, tail);
        Joined(h, pos, i, d, Read(rest));
      } else {
        var d := ReadHead(h, pos, i, tail);
        EmptyLeft(tail);
        ReadNothing(tail);
        LastLine(h, pos, d);
      }
    }
  }

  lemma EmptyLeft(t: string)
    ensures "" + t == t
  {
  }

  lemma LastLine(h: string, pos: nat, d: string)
    requires pos <= |h|
    ensures h[pos..|h|] == h[pos..] && d + "" == d
  {
  }

  lemma NoBreak(h: string, pos: nat, i: nat)
    requires Within(h, pos, i) && i <= |h| && !Break(h, pos, i)
    ensures Within(h, pos, i + 1) && i + 1 <= |h|
    ensures Clean(h, pos, i) == Clean(h, pos, i + 1) && WriteFrom(h, pos, i) == WriteFrom(h, pos, i + 1)
  {
  }

  lemma Joined(h: string, pos: nat, i: nat, d: string, r: string)
    requires pos <= i <= |h|
    ensures d == h[pos..i] && r == h[i..] ==> d + r == h[pos..]
  {
    assert h[pos..] == h[pos..i] + h[i..];
  }

  /** The text from a line end on: the line, and what follows it. */
  lemma WriteStep(h: string, pos: nat, i: nat, tail: string)
    requires Within(h, pos, i) && i <= |h| && Break(h, pos, i)
    ensures pos < i && (i < |h| ==> Within(h, i, i + 1))
    ensures Clean(h, pos, i) <==> CleanLine(h, pos, i) && (i < |h| ==> Clean(h, i, i + 1))
    ensures WriteFrom(h, pos, i) + tail ==
            LineFor(h, pos, i) + "\n" + ((if i < |h| then WriteFrom(h, i, i + 1) else "") + tail)
  {
    LineBack(h, pos, i);
    Associate(LineFor(h, pos, i) + "\n", if i < |h| then WriteFrom(h, i, i + 1) else "", tail);
    assert LineFor(h, pos, i) + "\n" + "" == LineFor(h, pos, i) + "\n";
  }

  lemma ReadHead(h: string, pos: nat, i: nat, rest: string) returns (d: string)
    requires Within(h, pos, i) && i <= |h| && Break(h, pos, i)
    ensures pos < i && Read(LineFor(h, pos, i) + "\n" + rest) == d + Read(rest) && |d| <= i - pos
    ensures CleanLine(h, pos, i) ==> d == h[pos..i]
    ensures !CleanLine(h, pos, i) ==> |d| < i - pos
  {
    var l := LineFor(h, pos, i);
    NoNewline(h, pos, i);
    LineBack(h, pos, i);
    d := Decode(CString(StripReturn(l)));
    hide LineFor, Decode, CString, StripReturn, Read;
    ReadLine(l, rest);
  }

  lemma ReadNothing(tail: string)
    requires !IsHelpLine(CString(FirstLine(tail)))
    ensures Read(tail) == ""
  {
  }

  // ---- without carriage returns, being clean is easy to tell ----

  lemma {:induction false} CleanExact(h: string, pos: nat, i: nat)
    requires pos < |h| && pos <= i <= |h| && '\r' !in h && (i == pos ==> pos == 0 && h[0] != '\n')
    ensures Clean(h, pos, i) <==> '\0' !in h[pos..] && !(pos == 0 && "\\n" <= h)
    decreases |h| - i
  {
    if !Break(h, pos, i) {
      CleanExact(h, pos, i + 1);
    } else if i < |h| {
      CleanExact(h, i, i + 1);
      assert h[pos..] == h[pos..i] + h[i..];
    } else {
      assert h[pos..i] == h[pos..];
    }
  }

  // ---- a leading newline: counting newlines shows that it is never restored ----

  function Newlines(s: string): nat {
    if s == "" then 0 else (if s[0] == '\n' then 1 else 0) + Newlines(s[1..])
  }

  lemma {:induction false} NewlinesAppend(a: string, b: string)
    ensures Newlines(a + b) == Newlines(a) + Newlines(b)
  {
    if a == "" {
      assert a + b == b;
    } else {
      assert (a + b)[1..] == a[1..] + b;
      NewlinesAppend(a[1..], b);
    }
  }

  lemma {:induction false} NewlinesNone(s: string)
    requires '\n' !in s
    ensures Newlines(s) == 0
  {
    if s != "" {
      NewlinesNone(s[1..]);
    }
  }

  /** A line contributes at most the newline that it stands for. */
  lemma DecodeOne(b: string)
    requires IsHelpLine(b) && '\n' !in b
    ensures Newlines(Decode(b)) == if "//\\n" <= b then 1 else 0
  {
    if "//\\n" <= b {
      NewlinesNone(b[4..]);
      NewlinesAppend("\n", b[4..]);
    } else {
      NewlinesNone(b[2..]);
    }
  }

  lemma CutNoNewline(l: string)
    requires '\n' !in l
    ensures '\n' !in CString(StripReturn(l))
  {
    var c := CString(StripReturn(l));
    forall k | 0 <= k < |c| ensures c[k] != '\n' {
      assert c[k] == l[k];
    }
  }

  /** In a string with a leading newline, a line contributes a newline iff it begins at one. */
  lemma LineNewlines(h: string, pos: nat, i: nat)
    requires Within(h, pos, i) && i <= |h| && Break(h, pos, i) && h[0] == '\n'
    ensures pos < i && IsHelpLine(CString(StripReturn(LineFor(h, pos, i))))
    ensures Newlines(Decode(CString(StripReturn(LineFor(h, pos, i))))) == Newlines(h[pos..i])
  {
    LineBack(h, pos, i);
    LineShape(h, pos, i);
    NoNewline(h, pos, i);
    var l := LineFor(h, pos, i);
    var b := CString(StripReturn(l));
    CutNoNewline(l);
    DecodeOne(b);
    assert Newlines(h[pos..i]) == if h[pos] == '\n' then 1 else 0 by {
      NewlinesNone(h[pos + 1..i]);
      NewlinesAppend([h[pos]], h[pos + 1..i]);
    }
    LineMarked(h, pos, i, b);
  }

  lemma LineMarked(h: string, pos: nat, i: nat, b: string)
    requires Within(h, pos, i) && pos < i <= |h| && Break(h, pos, i) && h[0] == '\n'
    requires b == CString(StripReturn(LineFor(h, pos, i)))
    ensures "//\\n" <= b <==> h[pos] == '\n'
  {
    LineShape(h, pos, i);
    if h[pos] == '\n' {
      CutShort("//\\n", h[pos + 1..i]);
    } else {
      CutShort("//", h[pos..i]);
      LooksContinued(h, pos, i, b);
    }
  }

  /** Whatever else is lost, as many newlines are read back as there are. */
  lemma {:induction false} NewlinesBack(h: string, pos: nat, i: nat, tail: string)
    requires Within(h, pos, i) && i <= |h| && !IsHelpLine(CString(FirstLine(tail))) && h[0] == '\n'
    ensures Newlines(Read(WriteFrom(h, pos, i) + tail)) == Newlines(h[pos..])
    decreases |h| - i
  {
    hide *;
    if !Break(h, pos, i) {
      NoBreak(h, pos, i);
      NewlinesBack(h, pos, i + 1, tail);
    } else if i < |h| {
      WriteStep(h, pos, i, tail);
      NewlinesBack(h, i, i + 1, tail);
      NewlinesInner(h, pos, i, tail);
    } else {
      NewlinesLast(h, pos, tail);
    }
  }

  lemma NewlinesInner(h: string, pos: nat, i: nat, tail: string)
    requires Within(h, pos, i) && i < |h| && Break(h, pos, i) && h[0] == '\n' && Within(h, i, i + 1)
    requires Newlines(Read(WriteFrom(h, i, i + 1) + tail)) == Newlines(h[i..])
    ensures Newlines(Read(WriteFrom(h, pos, i) + tail)) == Newlines(h[pos..])
  {
    WriteStep(h, pos, i, tail);
    hide Read, WriteFrom, Clean, Within, Newlines, Break, LineFor;
    NewlinesHead(h, pos, i, WriteFrom(h, i, i + 1) + tail);
    NewlinesCut(h, pos, i);
  }

  lemma WrittenLast(h: string, pos: nat, tail: string)
    requires Within(h, pos, |h|)
    ensures Break(h, pos, |h|) && pos < |h| && h[pos..|h|] == h[pos..]
    ensures WriteFrom(h, pos, |h|) + tail == LineFor(h, pos, |h|) + "\n" + tail
  {
    WriteStep(h, pos, |h|, tail);
    EmptyLeft(tail);
  }

  lemma NewlinesLast(h: string, pos: nat, tail: string)
    requires Within(h, pos, |h|) && !IsHelpLine(CString(FirstLine(tail))) && h[0] == '\n'
    ensures Newlines(Read(WriteFrom(h, pos, |h|) + tail)) == Newlines(h[pos..])
  {
    WrittenLast(h, pos, tail);
    ReadNothing(tail);
    assert Newlines("") == 0;
    hide *;
    NewlinesHead(h, pos, |h|, tail);
  }

  lemma NewlinesHead(h: string, pos: nat, i: nat, rest: string)
    requires Within(h, pos, i) && i <= |h| && Break(h, pos, i) && h[0] == '\n'
    ensures pos < i && Newlines(Read(LineFor(h, pos, i) + "\n" + rest)) == Newlines(h[pos..i]) + Newlines(Read(rest))
  {
    var l := LineFor(h, pos, i);
    NoNewline(h, pos, i);
    LineNewlines(h, pos, i);
    hide LineFor, Decode, CString, StripReturn, Read, Newlines;
    ReadLine(l, rest);
    NewlinesAppend(Decode(CString(StripReturn(l))), Read(rest));
  }

  lemma NewlinesCut(h: string, pos: nat, i: nat)
    requires pos <= i <= |h|
    ensures Newlines(h[pos..]) == Newlines(h[pos..i]) + Newlines(h[i..])
  {
    assert h[pos..] == h[pos..i] + h[i..];
    NewlinesAppend(h[pos..i], h[i..]);
  }

  /** Text u followed by e: either e is read too, or no more newlines are read than u has. */
  lemma {:induction false} ReadPast(u: string, e: string)
    ensures Newlines(Read(u + "\n" + e)) >= Newlines(Read(e)) || Newlines(Read(u + "\n" + e)) <= Newlines(u)
    decreases |u|
  {
    var k := NewlineAt(u);
    var l := u[..k];
    var b := CString(StripReturn(l));
    CutNoNewline(l);
    if IsHelpLine(b) {
      DecodeOne(b);
    }
    hide Read, Decode, CString, StripReturn, NewlineAt, IsHelpLine;
    if k == |u| {
      assert u == l;
      ReadLine(l, e);
      if IsHelpLine(b) {
        NewlinesAppend(Decode(b), Read(e));
      }
    } else {
      var u2 := u[k + 1..];
      ReadPast(u2, e);
      SplitAt(u, k, e);
      ReadLine(l, u2 + "\n" + e);
      if IsHelpLine(b) {
        NewlinesAppend(Decode(b), Read(u2 + "\n" + e));
      }
    }
  }

  lemma SplitAt(u: string, k: nat, e: string)
    requires k < |u| && u[k] == '\n'
    ensures u + "\n" + e == u[..k] + "\n" + (u[k + 1..] + "\n" + e)
    ensures Newlines(u) == Newlines(u[..k]) + 1 + Newlines(u[k + 1..])
  {
    var l, u2 := u[..k], u[k + 1..];
    assert u == (l + "\n") + u2;
    Associate(l + "\n", u2, "\n");
    Associate(l + "\n", u2 + "\n", e);
    NewlinesAppend(l + "\n", u2);
    NewlinesAppend(l, "\n");
  }

  /** A help string with a leading newline is written twice and never restored. */
  lemma LeadingNewlineLost(h: string, tail: string)
    requires h != "" && h[0] == '\n' && !IsHelpLine(CString(FirstLine(tail)))
    ensures Read(WriteFrom(h, 0, 0) + tail) != h
  {
    hide Read, WriteFrom, Newlines;
    var e := WriteFrom(h, 0, 1) + tail;
    assert h[0..] == h;
    NewlinesBack(h, 0, 1, tail);
    WrittenTwice(h, tail);
    FirstTwice(h, e);
  }

  /** At a leading newline the rest is written at once, and then everything once more. */
  lemma WrittenTwice(h: string, tail: string)
    requires h != "" && h[0] == '\n'
    ensures WriteFrom(h, 0, 0) + tail == "//\\n" + h[1..] + "\n" + (WriteFrom(h, 0, 1) + tail)
  {
    assert LineFor(h, 0, 0) == "//\\n" + h[1..];
    Associate(LineFor(h, 0, 0) + "\n", WriteFrom(h, 0, 1), tail);
  }

  lemma FirstTwice(h: string, e: string)
    requires h != "" && h[0] == '\n' && Newlines(Read(e)) == Newlines(h)
    ensures Newlines(Read("//\\n" + h[1..] + "\n" + e)) != Newlines(h)
  {
    var u := h[1..];
    var k := NewlineAt(u);
    var l := "//\\n" + u[..k];
    var b := CString(StripReturn(l));
    FirstDecoded(u, k);
    hide Read, Decode, CString, StripReturn, NewlineAt;
    if k == |u| {
      assert u[..k] == u;
      ReadLine(l, e);
      NewlinesAppend(Decode(b), Read(e));
    } else {
      var u2 := u[k + 1..];
      FirstSplit(u, k, e);
      SplitAt(u, k, e);
      ReadLine(l, u2 + "\n" + e);
      NewlinesAppend(Decode(b), Read(u2 + "\n" + e));
      ReadPast(u2, e);
    }
  }

  lemma FirstDecoded(u: string, k: nat)
    requires k == NewlineAt(u)
    ensures var l := "//\\n" + u[..k]; var b := CString(StripReturn(l));
            '\n' !in l && IsHelpLine(b) && Newlines(Decode(b)) == 1
  {
    var l := "//\\n" + u[..k];
    CutShort("//\\n", u[..k]);
    CutNoNewline(l);
    var b := CString(StripReturn(l));
    assert b[..2] == "//";
    DecodeOne(b);
  }

  lemma FirstSplit(u: string, k: nat, e: string)
    requires k < |u| && u[k] == '\n'
    ensures "//\\n" + u + "\n" + e == "//\\n" + u[..k] + "\n" + (u[k + 1..] + "\n" + e)
  {
    var l, u2 := u[..k], u[k + 1..];
    assert u == (l + "\n") + u2;
    assert "//\\n" + u == ("//\\n" + l + "\n") + u2;
    Associate("//\\n" + l + "\n", u2, "\n");
    Associate("//\\n" + l + "\n", u2 + "\n", e);
  }

  // ---- the round trip, for every string ----

  function Written(h: string): string {
    if h == "" then "" else WriteFrom(h, 0, 0)
  }

  /** A help string survives the cache file exactly if it is empty, or does not start with a newline and no
      line it is written as loses a character. */
  lemma HelpRoundTrip(h: string, tail: string)
    requires !IsHelpLine(CString(FirstLine(tail)))
    ensures Read(Written(h) + tail) == h <==> h == "" || (h[0] != '\n' && Clean(h, 0, 0))
  {
    if h == "" {
      EmptyLeft(tail);
      ReadNothing(tail);
    } else if h[0] == '\n' {
      LeadingNewlineLost(h, tail);
    } else {
      ReadBack(h, 0, 0, tail);
      assert h[0..] == h;
    }
  }

  /** Without carriage returns this is to have no NUL, and to start neither with a newline nor with a backslash
      and an n. */
  lemma PlainRoundTrip(h: string, tail: string)
    requires '\r' !in h && !IsHelpLine(CString(FirstLine(tail)))
    ensures Read(Written(h) + tail) == h <==> h == "" || ('\0' !in h && h[0] != '\n' && !("\\n" <= h))
  {
    HelpRoundTrip(h, tail);
    if h != "" && h[0] != '\n' {
      CleanExact(h, 0, 0);
      assert h[0..] == h;
    }
  }
}
