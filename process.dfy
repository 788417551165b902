// Command-line quoting and the pieces of `Command` that are not OS calls:
// `quote_arg`, `build_command_line`, `build_env_block`, the builder setters
// and the creation-flag computation of `spawn`.
module Process {
  import opened Ints
  import opened Errors
  import opened Utf16
  import opened Bits
  import Registry

  // ------------------------------------------------------------------
  // Quoting one argument

  predicate IsBlank(c: char)
  {
    c == ' ' || c == '\t'
  }

  /** `quote_arg`'s test: empty, or holding a space, a tab or a double quote. */
  predicate NeedsQuoting(s: string)
  {
    s == [] || ' ' in s || '\t' in s || '"' in s
  }

  function Backslashes(n: nat): (b: string)
    ensures |b| == n
  {
    seq(n, _ => '\\')
  }

  /** The backslashes at the front of `t` are followed by a double quote or
      by the end of the text. */
  predicate EndsRun(t: string)
  {
    t == [] || t[0] == '"' || (t[0] == '\\' && EndsRun(t[1..]))
  }

  /** What one character of the argument becomes between the quotes: a
      backslash is doubled when its run ends at a double quote or at the
      closing quote, and a double quote gets a backslash. */
  function Piece(s: string): string
    requires s != []
  {
    if s[0] == '\\' then (if EndsRun(s[1..]) then "\\\\" else "\\")
    else if s[0] == '"' then "\\\""
    else [s[0]]
  }

  /** The text between the quotes. */
  function Escape(s: string): string
  {
    if s == [] then [] else Piece(s) + Escape(s[1..])
  }

  /** What `quote_arg` returns. */
  function QuoteArgSpec(s: string): string
  {
    if NeedsQuoting(s) then "\"" + Escape(s) + "\"" else s
  }

  /** Inside a run of backslashes, every position sees the same end. */
  lemma {:induction false} EndsRunAcross(s: string, j: nat, i: nat)
    requires j <= i <= |s|
    requires forall k | j <= k < i :: s[k] == '\\'
    requires i < |s| ==> s[i] != '\\'
    ensures EndsRun(s[j..]) <==> i == |s| || s[i] == '"'
    decreases i - j
  {
    if j < i {
      assert s[j..][1..] == s[j + 1..];
      EndsRunAcross(s, j + 1, i);
    }
  }

  /** The escaped form of a run of backslashes from `start` to `i`. */
  lemma {:induction false} EscapeRunSplit(s: string, start: nat, i: nat)
    requires start < i <= |s|
    requires forall j | start <= j < i :: s[j] == '\\'
    requires i < |s| ==> s[i] != '\\'
    ensures Escape(s[start..])
      == Backslashes(if i == |s| || s[i] == '"' then 2 * (i - start) else i - start) + Escape(s[i..])
    decreases i - start
  {
    var w := if i == |s| || s[i] == '"' then 2 else 1;
    EscapeRunHead(s, start, i);
    if start + 1 < i {
      calc {
        Escape(s[start..]);
        Backslashes(w) + Escape(s[start + 1..]);
        { EscapeRunSplit(s, start + 1, i); }
        Backslashes(w) + (Backslashes(w * (i - start - 1)) + Escape(s[i..]));
        { BackslashesAdd(w, w * (i - start - 1), Escape(s[i..])); }
        Backslashes(w * (i - start)) + Escape(s[i..]);
      }
    }
  }
  /** The first backslash of a run escapes to two backslashes exactly when
      the run ends at a double quote or at the end. */
  lemma EscapeRunHead(s: string, start: nat, i: nat)
    requires start < i <= |s|
    requires forall j | start <= j < i :: s[j] == '\\'
    requires i < |s| ==> s[i] != '\\'
    ensures Escape(s[start..])
      == Backslashes(if i == |s| || s[i] == '"' then 2 else 1) + Escape(s[start + 1..])
  {
    assert s[start..][1..] == s[start + 1..];
    EndsRunAcross(s, start + 1, i);
    assert Backslashes(2) == "\\\\" && Backslashes(1) == "\\";
  }
  lemma BackslashesAdd(a: nat, b: nat, x: string)
    ensures Backslashes(a) + (Backslashes(b) + x) == Backslashes(a + b) + x
  {
    assert Backslashes(a) + Backslashes(b) == Backslashes(a + b);
  }
  lemma EscapeCons(s: string, i: nat)
    requires i < |s| && s[i] != '\\'
    ensures Escape(s[i..]) == (if s[i] == '"' then "\\\"" else [s[i]]) + Escape(s[i + 1..])
  {
    assert s[i..][1..] == s[i + 1..];
  }

  /** The quoted body from position `i` on, produced the way `quote_arg`
      produces it: a whole run of backslashes at a time. */
  function QuoteFrom(arg: string, i: nat): string
    requires i <= |arg|
    decreases |arg| - i, 0
  {
    if i == |arg| then []
    else if arg[i] == '\\' then QuoteRun(arg, i, i + 1)
    else (if arg[i] == '"' then "\\\"" else [arg[i]]) + QuoteFrom(arg, i + 1)
  }

  /** A run of backslashes that began at `start` and has reached `i`. */
  function QuoteRun(arg: string, start: nat, i: nat): string
    requires start < i <= |arg|
    decreases |arg| - i, 1
  {
    if i < |arg| && arg[i] == '\\' then QuoteRun(arg, start, i + 1)
    else Backslashes(if i == |arg| || arg[i] == '"' then 2 * (i - start) else i - start) + QuoteFrom(arg, i)
  }

  /** The run-at-a-time body is the escaped text. */
  lemma {:induction false} QuoteFromIsEscape(arg: string, i: nat)
    requires i <= |arg|
    ensures QuoteFrom(arg, i) == Escape(arg[i..])
    decreases |arg| - i, 0
  {
    if i < |arg| {
      if arg[i] == '\\' {
        QuoteRunIsEscape(arg, i, i + 1);
      } else {
        QuoteFromIsEscape(arg, i + 1);
        EscapeCons(arg, i);
      }
    }
  }

  lemma {:induction false} QuoteRunIsEscape(arg: string, start: nat, i: nat)
    requires start < i <= |arg|
    requires forall j | start <= j < i :: arg[j] == '\\'
    ensures QuoteRun(arg, start, i) == Escape(arg[start..])
    decreases |arg| - i, 1
  {
    if i < |arg| && arg[i] == '\\' {
      QuoteRunIsEscape(arg, start, i + 1);
    } else {
      QuoteFromIsEscape(arg, i);
      EscapeRunSplit(arg, start, i);
    }
  }

  lemma QuoteFromPlain(arg: string, i: nat)
    requires i < |arg| && arg[i] != '\\'
    ensures QuoteFrom(arg, i) == (if arg[i] == '"' then "\\\"" else [arg[i]]) + QuoteFrom(arg, i + 1)
  {
  }
  lemma QuoteRunMore(arg: string, start: nat, i: nat)
    requires start < i < |arg| && arg[i] == '\\'
    ensures QuoteRun(arg, start, i) == QuoteRun(arg, start, i + 1)
  {
  }
  lemma QuoteRunEnd(arg: string, start: nat, i: nat)
    requires start < i <= |arg| && (i == |arg| || arg[i] != '\\')
    ensures QuoteRun(arg, start, i)
      == Backslashes(if i == |arg| || arg[i] == '"' then 2 * (i - start) else i - start) + QuoteFrom(arg, i)
  {
  }
  lemma AppendAssoc(a: string, b: string, c: string)
    ensures a + b + c == a + (b + c)
  {
  }
  lemma BackslashesSnoc(x: string, j: nat)
    ensures x + Backslashes(j) + ['\\'] == x + Backslashes(j + 1)
  {
    assert Backslashes(j) + ['\\'] == Backslashes(j + 1);
  }

  /** The inner `while` loop: steps past the backslashes that follow the one
      at `i` and counts the run. */
  method SkipRun(arg: string, i: nat) returns (j: nat, count: nat)
    requires i < |arg| && arg[i] == '\\'
    ensures i < j <= |arg| && count == j - i
    ensures forall k | i <= k < j :: arg[k] == '\\'
    ensures j == |arg| || arg[j] != '\\'
  {
    j, count := i + 1, 1;
    while j < |arg| && arg[j] == '\\'
      invariant i < j <= |arg| && count == j - i
      invariant forall k | i <= k < j :: arg[k] == '\\'
    {
      j, count := j + 1, count + 1;
    }
  }
  /** Every backslash of a run moves the scan along without output. */
  lemma {:induction false} QuoteRunAcross(arg: string, start: nat, i: nat, j: nat)
    requires start < i <= j <= |arg|
    requires forall k | i <= k < j :: arg[k] == '\\'
    ensures QuoteRun(arg, start, i) == QuoteRun(arg, start, j)
    decreases j - i
  {
    if i < j {
      QuoteRunMore(arg, start, i);
      QuoteRunAcross(arg, start, i + 1, j);
    }
  }

  /** A whole run of backslashes, from `start` up to `j`, is scanned at once. */
  lemma QuoteWholeRun(arg: string, start: nat, j: nat)
    requires start < j <= |arg|
    requires forall k | start <= k < j :: arg[k] == '\\'
    requires j == |arg| || arg[j] != '\\'
    ensures QuoteFrom(arg, start)
      == Backslashes(if j == |arg| || arg[j] == '"' then 2 * (j - start) else j - start) + QuoteFrom(arg, j)
  {
    QuoteRunAcross(arg, start, start + 1, j);
    QuoteRunEnd(arg, start, j);
  }
  /** Once the scan has consumed all of `arg`, the closing quote completes
      the quoted form. */
  lemma QuoteFinish(arg: string, quoted: string)
    requires NeedsQuoting(arg)
    requires quoted + QuoteFrom(arg, |arg|) == "\"" + QuoteFrom(arg, 0)
    ensures quoted + ['"'] == QuoteArgSpec(arg)
  {
    assert arg[0..] == arg;
    QuoteFromIsEscape(arg, 0);
  }
  /** The `for` loop that pushes `n` backslashes onto `s`. */
  method PushBackslashes(s: string, n: nat) returns (r: string)
    ensures r == s + Backslashes(n)
  {
    r := s;
    var j := 0;
    while j < n
      invariant 0 <= j <= n
      invariant r == s + Backslashes(j)
    {
      BackslashesSnoc(s, j);
      r := r + ['\\'];
      j := j + 1;
    }
  }

  /** `quote_arg`: a scan that counts each run of backslashes and looks at
      the character after it. */
  method QuoteArg(arg: string) returns (quoted: string)
    ensures quoted == QuoteArgSpec(arg)
  {
    if !NeedsQuoting(arg) {
      return arg;
    }
    quoted := "\"";
    var i := 0;
    while i < |arg|
      invariant 0 <= i <= |arg|
      invariant quoted + QuoteFrom(arg, i) == "\"" + QuoteFrom(arg, 0)
    {
      var c := arg[i];
      if c == '\\' {
        ghost var start := i;
        var count;
        i, count := SkipRun(arg, i);
        var k := if i == |arg| || arg[i] == '"' then count * 2 else count;
        QuoteWholeRun(arg, start, i);
        AppendAssoc(quoted, Backslashes(k), QuoteFrom(arg, i));
        quoted := PushBackslashes(quoted, k);
      } else {
        QuoteFromPlain(arg, i);
        var piece := if c == '"' then ['\\', '"'] else [c];
        AppendAssoc(quoted, piece, QuoteFrom(arg, i + 1));
        quoted := quoted + piece;
        i := i + 1;
      }
    }
    QuoteFinish(arg, quoted);
    quoted := quoted + ['"'];
  }

  // ------------------------------------------------------------------
  // Reading a command line back, by the Microsoft C runtime rules

  /** One argument read from `t`, with `pending` backslashes seen and not
      yet emitted. Outside quotes a blank ends the argument; `2n` backslashes
      before a double quote give `n` and the quote toggles quoting; `2n + 1`
      give `n` and a literal quote; backslashes before anything else are
      literal. Returns the argument and the unread rest. */
  function Parse(t: string, inQuotes: bool, pending: nat): (r: (string, string))
    ensures |r.1| <= |t|
    ensures t != [] && (inQuotes || !IsBlank(t[0])) ==> |r.1| < |t|
  {
    if t == [] then (Backslashes(pending), [])
    else if t[0] == '\\' then Parse(t[1..], inQuotes, pending + 1)
    else if t[0] == '"' then
      var p := Parse(t[1..], if pending % 2 == 0 then !inQuotes else inQuotes, 0);
      (Backslashes(pending / 2) + (if pending % 2 == 0 then "" else "\"") + p.0, p.1)
    else if !inQuotes && IsBlank(t[0]) then (Backslashes(pending), t)
    else
      var p := Parse(t[1..], inQuotes, 0);
      (Backslashes(pending) + [t[0]] + p.0, p.1)
  }

  function SkipBlanks(t: string): (r: string)
    ensures |r| <= |t|
    ensures r == [] || !IsBlank(r[0])
  {
    if t != [] && IsBlank(t[0]) then SkipBlanks(t[1..]) else t
  }

  /** The argument vector of a command line. */
  function ParseArgs(line: string): seq<string>
    decreases |line|
  {
    var t := SkipBlanks(line);
    if t == [] then []
    else
      var p := Parse(t, false, 0);
      [p.0] + ParseArgs(p.1)
  }

  predicate Boundary(rest: string)
  {
    rest == [] || IsBlank(rest[0])
  }

  lemma ParseBackslash(t: string, q: bool, k: nat)
    ensures Parse("\\" + t, q, k) == Parse(t, q, k + 1)
  {
    assert ("\\" + t)[1..] == t;
  }

  lemma ParseQuoteEven(t: string, q: bool, m: nat)
    ensures Parse("\"" + t, q, 2 * m) == (Backslashes(m) + Parse(t, !q, 0).0, Parse(t, !q, 0).1)
  {
    assert ("\"" + t)[1..] == t;
    assert (2 * m) % 2 == 0 && (2 * m) / 2 == m;
    assert Backslashes(m) + "" == Backslashes(m);
  }

  lemma ParseQuoteOdd(t: string, q: bool, m: nat)
    ensures Parse("\"" + t, q, 2 * m + 1)
      == (Backslashes(m) + "\"" + Parse(t, q, 0).0, Parse(t, q, 0).1)
  {
    assert ("\"" + t)[1..] == t;
    assert (2 * m + 1) % 2 == 1 && (2 * m + 1) / 2 == m;
  }

  lemma ParseOrdinary(c: char, t: string, q: bool, k: nat)
    requires c != '\\' && c != '"' && (q || !IsBlank(c))
    ensures Parse([c] + t, q, k) == (Backslashes(k) + [c] + Parse(t, q, 0).0, Parse(t, q, 0).1)
  {
    assert ([c] + t)[1..] == t;
  }

  lemma ParseAtBoundary(rest: string, k: nat)
    requires Boundary(rest)
    ensures Parse(rest, false, k) == (Backslashes(k), rest)
  {
  }

  /** The escaped body and its closing quote read back as the argument;
      `m` backslashes already pending come out in front of it. */
  lemma {:induction false} ParseEscaped(s: string, m: nat, rest: string)
    requires Boundary(rest)
    ensures Parse(Escape(s) + "\"" + rest, true, if EndsRun(s) then 2 * m else m)
      == (Backslashes(m) + s, rest)
    decreases |s|, 1
  {
    if s == [] {
      assert Escape(s) + "\"" + rest == "\"" + rest;
      ParseQuoteEven(rest, true, m);
      ParseAtBoundary(rest, 0);
      assert Backslashes(0) == [] && Backslashes(m) + [] == Backslashes(m);
    } else if s[0] == '\\' {
      ParseEscapedBackslash(s, m, rest);
    } else if s[0] == '"' {
      ParseEscapedQuote(s, m, rest);
    } else {
      ParseEscapedOrdinary(s, m, rest);
    }
  }

  /** The text the reader sees after the first character of `s`. */
  function After(s: string, rest: string): string
    requires s != []
  {
    Escape(s[1..]) + "\"" + rest
  }

  lemma EscapedText(s: string, rest: string)
    requires s != []
    ensures Escape(s) + "\"" + rest == Piece(s) + After(s, rest)
  {
    var e := Escape(s[1..]);
    calc {
      Escape(s) + "\"" + rest;
      (Piece(s) + e) + "\"" + rest;
      { AppendAssoc(Piece(s) + e, "\"", rest); AppendAssoc(Piece(s), e, "\"" + rest); }
      Piece(s) + (e + "\"" + rest);
    }
  }
  lemma PieceText(s: string, y: string)
    requires s != []
    ensures s[0] == '\\' && EndsRun(s[1..]) ==> Piece(s) + y == "\\" + ("\\" + y)
    ensures s[0] == '\\' && !EndsRun(s[1..]) ==> Piece(s) + y == "\\" + y
    ensures s[0] == '"' ==> Piece(s) + y == "\\" + ("\"" + y)
    ensures s[0] != '\\' && s[0] != '"' ==> Piece(s) + y == [s[0]] + y
  {
  }

  lemma BackslashesCons(m: nat, s: string)
    requires s != [] && s[0] == '\\'
    ensures Backslashes(m + 1) + s[1..] == Backslashes(m) + s
  {
  }

  lemma BackslashesNone(x: string)
    ensures Backslashes(0) + x == x
  {
  }

  lemma {:induction false} ParseEscapedBackslash(s: string, m: nat, rest: string)
    requires Boundary(rest) && s != [] && s[0] == '\\'
    ensures Parse(Escape(s) + "\"" + rest, true, if EndsRun(s) then 2 * m else m)
      == (Backslashes(m) + s, rest)
    decreases |s|, 0
  {
    var y := After(s, rest);
    var k := if EndsRun(s[1..]) then 2 * (m + 1) else m + 1;
    calc {
      Parse(Escape(s) + "\"" + rest, true, if EndsRun(s) then 2 * m else m);
    == { EscapedText(s, rest); PieceText(s, y);
         if EndsRun(s[1..]) {
           ParseBackslash("\\" + y, true, 2 * m);
           ParseBackslash(y, true, 2 * m + 1);
         } else {
           ParseBackslash(y, true, m);
         } }
      Parse(y, true, k);
    == { ParseEscaped(s[1..], m + 1, rest); }
      (Backslashes(m + 1) + s[1..], rest);
    == { BackslashesCons(m, s); }
      (Backslashes(m) + s, rest);
    }
  }

  lemma {:induction false} ParseEscapedQuote(s: string, m: nat, rest: string)
    requires Boundary(rest) && s != [] && s[0] == '"'
    ensures Parse(Escape(s) + "\"" + rest, true, 2 * m) == (Backslashes(m) + s, rest)
    decreases |s|, 0
  {
    var y := After(s, rest);
    calc {
      Parse(Escape(s) + "\"" + rest, true, 2 * m);
    == { EscapedText(s, rest); PieceText(s, y); }
      Parse("\\" + ("\"" + y), true, 2 * m);
    == { ParseBackslash("\"" + y, true, 2 * m); }
      Parse("\"" + y, true, 2 * m + 1);
    == { ParseQuoteOdd(y, true, m); }
      (Backslashes(m) + "\"" + Parse(y, true, 0).0, Parse(y, true, 0).1);
    == { ParseEscaped(s[1..], 0, rest); BackslashesNone(s[1..]); }
      (Backslashes(m) + "\"" + s[1..], rest);
    == { assert "\"" + s[1..] == s;
         assert Backslashes(m) + "\"" + s[1..] == Backslashes(m) + ("\"" + s[1..]); }
      (Backslashes(m) + s, rest);
    }
  }

  lemma {:induction false} ParseEscapedOrdinary(s: string, m: nat, rest: string)
    requires Boundary(rest) && s != [] && s[0] != '\\' && s[0] != '"'
    ensures Parse(Escape(s) + "\"" + rest, true, m) == (Backslashes(m) + s, rest)
    decreases |s|, 0
  {
    var y := After(s, rest);
    calc {
      Parse(Escape(s) + "\"" + rest, true, m);
    == { EscapedText(s, rest); PieceText(s, y); }
      Parse([s[0]] + y, true, m);
    == { ParseOrdinary(s[0], y, true, m); }
      (Backslashes(m) + [s[0]] + Parse(y, true, 0).0, Parse(y, true, 0).1);
    == { ParseEscaped(s[1..], 0, rest); BackslashesNone(s[1..]); }
      (Backslashes(m) + [s[0]] + s[1..], rest);
    == { assert [s[0]] + s[1..] == s;
         assert Backslashes(m) + [s[0]] + s[1..] == Backslashes(m) + ([s[0]] + s[1..]); }
      (Backslashes(m) + s, rest);
    }
  }

  predicate Plain(s: string)
  {
    ' ' !in s && '\t' !in s && '"' !in s
  }

  /** An argument without blanks or quotes reads back as itself. */
  lemma {:induction false} ParsePlain(s: string, m: nat, rest: string)
    requires Plain(s) && Boundary(rest)
    ensures Parse(s + rest, false, m) == (Backslashes(m) + s, rest)
  {
    if s == [] {
      assert s + rest == rest;
      ParseAtBoundary(rest, m);
      assert Backslashes(m) + [] == Backslashes(m);
    } else {
      PlainCons(s, rest);
      var y := s[1..] + rest;
      if s[0] == '\\' {
        calc {
          Parse(s + rest, false, m);
          Parse("\\" + y, false, m);
          { ParseBackslash(y, false, m); }
          Parse(y, false, m + 1);
          { ParsePlain(s[1..], m + 1, rest); }
          (Backslashes(m + 1) + s[1..], rest);
          { BackslashesCons(m, s); }
          (Backslashes(m) + s, rest);
        }
      } else {
        calc {
          Parse(s + rest, false, m);
          Parse([s[0]] + y, false, m);
          { ParseOrdinary(s[0], y, false, m); ParsePlain(s[1..], 0, rest); }
          (Backslashes(m) + [s[0]] + (Backslashes(0) + s[1..]), rest);
          { BackslashesNone(s[1..]); AppendAssoc(Backslashes(m), [s[0]], s[1..]); }
          (Backslashes(m) + s, rest);
        }
      }
    }
  }
  lemma PlainCons(s: string, rest: string)
    requires s != [] && Plain(s)
    ensures Plain(s[1..]) && s + rest == [s[0]] + (s[1..] + rest)
    ensures s[0] == '\\' ==> s + rest == "\\" + (s[1..] + rest)
    ensures s[0] != '"' && !IsBlank(s[0])
    ensures [s[0]] + s[1..] == s
  {
    assert forall c | c in s[1..] :: c in s;
    assert s[0] in s;
  }

  /** Every argument survives `quote_arg` and the argument reader. */
  lemma ParseQuoted(s: string, rest: string)
    requires Boundary(rest)
    ensures Parse(QuoteArgSpec(s) + rest, false, 0) == (s, rest)
    ensures QuoteArgSpec(s) != [] && !IsBlank(QuoteArgSpec(s)[0])
  {
    assert Backslashes(0) + s == s;
    if NeedsQuoting(s) {
      var y := Escape(s) + "\"" + rest;
      assert QuoteArgSpec(s) + rest == "\"" + y;
      ParseQuoteEven(y, false, 0);
      ParseEscaped(s, 0, rest);
    } else {
      ParsePlain(s, 0, rest);
    }
  }

  // ------------------------------------------------------------------
  // Properties of quote_arg

  lemma {:induction false} EscapeLength(s: string)
    ensures |Escape(s)| >= |s|
  {
    if s != [] {
      EscapeLength(s[1..]);
    }
  }

  /** `quote_arg` returns its input exactly when no quoting is needed. */
  lemma QuoteArgUnchanged(s: string)
    ensures QuoteArgSpec(s) == s <==> !NeedsQuoting(s)
  {
    if NeedsQuoting(s) {
      EscapeLength(s);
      assert |QuoteArgSpec(s)| == |Escape(s)| + 2;
    }
  }

  /** A quoted argument is wrapped in double quotes; the empty one is `""`. */
  lemma QuoteArgShape(s: string)
    requires NeedsQuoting(s)
    ensures |QuoteArgSpec(s)| >= 2
    ensures QuoteArgSpec(s)[0] == '"' && QuoteArgSpec(s)[|QuoteArgSpec(s)| - 1] == '"'
    ensures QuoteArgSpec("") == "\"\""
  {
  }

  /** A run of `n` backslashes becomes `2n` before a double quote or the end,
      and stays `n` before anything else. */
  lemma BackslashRun(n: nat, r: string)
    requires n >= 1 && (r == [] || r[0] != '\\')
    ensures Escape(Backslashes(n) + r)
      == Backslashes(if r == [] || r[0] == '"' then 2 * n else n) + Escape(r)
  {
    var s := Backslashes(n) + r;
    assert s[0..] == s && s[n..] == r;
    EscapeRunSplit(s, 0, n);
  }

  /** A tab is enough to make an argument quoted. */
  lemma QuoteArgTab()
    ensures QuoteArgSpec("a\tb") == "\"a\tb\""
  {
    assert "a\tb"[1..] == "\tb";
    assert "\tb"[1..] == "b";
    assert "b"[1..] == [];
  }
  /** An embedded double quote is quoted and escaped. */
  lemma QuoteArgEmbeddedQuote()
    ensures QuoteArgSpec("a\"b") == "\"a\\\"b\""
  {
    assert "a\"b"[1..] == "\"b";
    assert "\"b"[1..] == "b";
    assert "b"[1..] == [];
  }
  /** A trailing backslash without blanks or quotes is left alone. */
  lemma QuoteArgTrailingBackslash()
    ensures QuoteArgSpec("path\\") == "path\\"
  {
  }

  // ------------------------------------------------------------------
  // The command line

  /** Each argument after the program, with a space in front. */
  function Tail(args: seq<string>): string
  {
    if args == [] then [] else " " + QuoteArgSpec(args[0]) + Tail(args[1..])
  }

  function CommandLine(program: string, args: seq<string>): string
  {
    QuoteArgSpec(program) + Tail(args)
  }

  lemma {:induction false} TailSnoc(args: seq<string>, a: string)
    ensures Tail(args + [a]) == Tail(args) + " " + QuoteArgSpec(a)
  {
    if args != [] {
      assert (args + [a])[1..] == args[1..] + [a];
      TailSnoc(args[1..], a);
    } else {
      assert [a][1..] == [];
    }
  }

  /** A token that does not start with a blank is the next argument. */
  lemma ParseArgsCons(t: string, rest: string)
    requires t != [] && !IsBlank(t[0])
    requires Parse(t, false, 0).1 == rest
    ensures ParseArgs(t) == [Parse(t, false, 0).0] + ParseArgs(rest)
  {
  }

  lemma ParseArgsSpace(x: string)
    requires x != [] && !IsBlank(x[0])
    ensures ParseArgs(" " + x) == ParseArgs(x)
  {
    assert (" " + x)[1..] == x;
  }

  lemma {:induction false} ParseTail(args: seq<string>)
    ensures ParseArgs(Tail(args)) == args
  {
    if args != [] {
      var q := QuoteArgSpec(args[0]);
      var rest := Tail(args[1..]);
      assert Boundary(rest);
      ParseQuoted(args[0], rest);
      ParseArgsCons(q + rest, rest);
      ParseArgsSpace(q + rest);
      ParseTail(args[1..]);
      assert Tail(args) == " " + (q + rest);
      assert args == [args[0]] + args[1..];
    }
  }

  /** Reading back the command line gives the program and the arguments. */
  lemma CommandLineRoundTrip(program: string, args: seq<string>)
    ensures ParseArgs(CommandLine(program, args)) == [program] + args
  {
    var rest := Tail(args);
    assert Boundary(rest);
    ParseQuoted(program, rest);
    ParseArgsCons(QuoteArgSpec(program) + rest, rest);
    ParseTail(args);
  }

  // ------------------------------------------------------------------
  // The environment block

  function Entry(kv: (string, string)): string
  {
    kv.0 + "=" + kv.1
  }

  function Entries(env: seq<(string, string)>): (r: seq<string>)
    ensures |r| == |env|
  {
    if env == [] then [] else [Entry(env[0])] + Entries(env[1..])
  }

  /** What `build_env_block` returns: nothing without `env`, else the
      entries laid out as MULTI_SZ data. */
  function EnvBlock(env: Option<seq<(string, string)>>): Option<seq<U16>>
  {
    if env.None? then None else Some(Registry.MultiSzUnits(Entries(env.value)))
  }

  lemma {:induction false} EntriesSnoc(env: seq<(string, string)>, kv: (string, string))
    ensures Entries(env + [kv]) == Entries(env) + [Entry(kv)]
  {
    if env != [] {
      assert (env + [kv])[1..] == env[1..] + [kv];
      EntriesSnoc(env[1..], kv);
    } else {
      assert [kv][1..] == [];
    }
  }

  predicate NulFreeEnv(env: seq<(string, string)>)
  {
    forall i | 0 <= i < |env| :: '\0' !in env[i].0 && '\0' !in env[i].1
  }

  /** Splitting the block at its zeros gives back the `key=value` entries. */
  lemma EnvBlockRoundTrip(env: seq<(string, string)>)
    requires NulFreeEnv(env)
    ensures Registry.DecodeAll(Registry.SplitMulti(EnvBlock(Some(env)).value)) == Ok(Entries(env))
  {
    var xs := Entries(env);
    EntriesFacts(env);
    Registry.MultiSzRoundTrip(xs);
    Registry.NonEmptyOfNonEmpty(xs);
  }

  /** An empty environment list gives the block `[0]`. */
  lemma EnvBlockEmpty(env: Option<seq<(string, string)>>)
    requires env == Some([])
    ensures EnvBlock(env) == Some([0])
  {
    assert Entries([]) == [];
    assert Registry.MultiSzBody([]) == [];
    assert Registry.MultiSzUnits([]) == [0];
  }

  lemma {:induction false} EntriesFacts(env: seq<(string, string)>)
    requires NulFreeEnv(env)
    ensures Registry.NulFree(Entries(env))
    ensures forall i | 0 <= i < |env| :: Entries(env)[i] != []
  {
    if env != [] {
      EntriesFacts(env[1..]);
      var e := Entry(env[0]);
      assert e[|env[0].0|] == '=';
      assert '\0' !in e;
      var xs := Entries(env);
      assert xs == [e] + Entries(env[1..]);
      forall i | 0 <= i < |env|
        ensures '\0' !in xs[i] && xs[i] != []
      {
        if i > 0 {
          assert xs[i] == Entries(env[1..])[i - 1];
        }
      }
    }
  }

  // ------------------------------------------------------------------
  // Creation flags

  const CreateNoWindow: bv32 := 0x0800_0000
  const CreateNewConsole: bv32 := 0x10
  const CreateUnicodeEnvironment: bv32 := 0x400

  /** The flags `spawn` passes: `CREATE_UNICODE_ENVIRONMENT` is added when
      there is an environment block. */
  function SpawnFlags(flags: bv32, hasEnv: bool): (r: bv32)
    ensures r & flags == flags
    ensures hasEnv ==> r & CreateUnicodeEnvironment == CreateUnicodeEnvironment
  {
    if hasEnv then
      OrKeeps(flags, CreateUnicodeEnvironment);
      flags | CreateUnicodeEnvironment
    else
      flags
  }

  /** Without an environment block the flags pass through unchanged; with
      one, no bit is set that is neither a caller's flag nor
      `CREATE_UNICODE_ENVIRONMENT`. */
  lemma SpawnFlagsNoEnv(flags: bv32, m: bv32)
    ensures SpawnFlags(flags, false) == flags
    ensures m & flags == 0 && m & CreateUnicodeEnvironment == 0 ==> SpawnFlags(flags, true) & m == 0
  {
    if m & flags == 0 && m & CreateUnicodeEnvironment == 0 {
      OrAddsNothing(flags, CreateUnicodeEnvironment, m);
    }
  }

  // ------------------------------------------------------------------
  // The builder

  class Command {
    var program: string
    var args: seq<string>
    var currentDir: Option<string>
    var creationFlags: bv32
    var env: Option<seq<(string, string)>>

    constructor (program: string)
      ensures this.program == program && args == [] && currentDir == None
      ensures creationFlags == 0 && env == None
    {
      this.program := program;
      args := [];
      currentDir := None;
      creationFlags := 0;
      env := None;
    }

    method Arg(a: string)
      modifies this
      ensures args == old(args) + [a]
      ensures program == old(program) && currentDir == old(currentDir)
      ensures creationFlags == old(creationFlags) && env == old(env)
    {
      args := args + [a];
    }

    method Args(more: seq<string>)
      modifies this
      ensures args == old(args) + more
      ensures program == old(program) && currentDir == old(currentDir)
      ensures creationFlags == old(creationFlags) && env == old(env)
    {
      args := args + more;
    }

    method CurrentDir(dir: string)
      modifies this
      ensures currentDir == Some(dir)
      ensures program == old(program) && args == old(args)
      ensures creationFlags == old(creationFlags) && env == old(env)
    {
      currentDir := Some(dir);
    }

    method NewConsole()
      modifies this
      ensures creationFlags == old(creationFlags) | CreateNewConsole
      ensures creationFlags & CreateNewConsole == CreateNewConsole
      ensures program == old(program) && args == old(args)
      ensures currentDir == old(currentDir) && env == old(env)
    {
      OrKeeps(creationFlags, CreateNewConsole);
      creationFlags := creationFlags | CreateNewConsole;
    }

    method NoWindow()
      modifies this
      ensures creationFlags == old(creationFlags) | CreateNoWindow
      ensures creationFlags & CreateNoWindow == CreateNoWindow
      ensures program == old(program) && args == old(args)
      ensures currentDir == old(currentDir) && env == old(env)
    {
      OrKeeps(creationFlags, CreateNoWindow);
      creationFlags := creationFlags | CreateNoWindow;
    }

    /** Appends one variable; the first call creates the list. */
    method Env(key: string, value: string)
      modifies this
      ensures env == Some((if old(env).Some? then old(env).value else []) + [(key, value)])
      ensures program == old(program) && args == old(args)
      ensures currentDir == old(currentDir) && creationFlags == old(creationFlags)
    {
      var vars := if env.Some? then env.value else [];
      env := Some(vars + [(key, value)]);
    }

    /** `build_command_line`: the quoted program, then a space and the quoted
        form of each argument, in order. */
    method BuildCommandLine() returns (cmd: string)
      ensures cmd == CommandLine(program, args)
      ensures ParseArgs(cmd) == [program] + args
    {
      cmd := QuoteArg(program);
      var i := 0;
      assert args[..0] == [];
      while i < |args|
        invariant 0 <= i <= |args|
        invariant cmd == QuoteArgSpec(program) + Tail(args[..i])
      {
        var q := QuoteArg(args[i]);
        TailSnoc(args[..i], args[i]);
        assert args[..i + 1] == args[..i] + [args[i]];
        cmd := cmd + " " + q;
        i := i + 1;
      }
      assert args[..i] == args;
      CommandLineRoundTrip(program, args);
    }

    /** `build_env_block`: each `key=value` in UTF-16 and a zero, then one
        more zero. */
    method BuildEnvBlock() returns (block: Option<seq<U16>>)
      ensures block == EnvBlock(env)
    {
      if env.None? {
        return None;
      }
      var vars := env.value;
      var units: seq<U16> := [];
      var i := 0;
      assert vars[..0] == [];
      while i < |vars|
        invariant 0 <= i <= |vars|
        invariant units == Registry.MultiSzBody(Entries(vars[..i]))
      {
        var entry := vars[i].0 + "=" + vars[i].1;
        EntriesSnoc(vars[..i], vars[i]);
        assert vars[..i + 1] == vars[..i] + [vars[i]];
        Registry.MultiSzBodySnoc(Entries(vars[..i]), entry);
        units := units + Encode(entry) + [0];
        i := i + 1;
      }
      assert vars[..i] == vars;
      block := Some(units + [0]);
    }

    /** The creation flags `spawn` hands to the OS. */
    method SpawnCreationFlags() returns (flags: bv32)
      ensures flags == SpawnFlags(creationFlags, env.Some?)
    {
      var block := BuildEnvBlock();
      flags := if block.Some? then creationFlags | CreateUnicodeEnvironment else creationFlags;
    }
  }
}
