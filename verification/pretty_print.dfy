/**
  The viewer's pretty-printer: a character loop over minified JSON that
  tracks an indentation width and whether it is inside a string literal.
  Parsing and minifying the document first is foreign and not modelled;
  the loop is given the minified text.
*/
module PrettyPrint {
  const INDENT_SIZE: int := 2

  /** Output so far, current indentation and string state. */
  datatype Printer = Printer(out: string, indent: int, inString: bool)

  function Spaces(n: nat): (s: string)
    ensures |s| == n && forall k :: 0 <= k < n ==> s[k] == ' '
  {
    seq(n, _ => ' ')
  }

  /** Characters the printer inserts. */
  predicate IsLayout(c: char)
  {
    c == ' ' || c == '\n'
  }

  /**
    What a character outside a string literal emits, and the indentation
    after it: brackets open and close lines, commas break lines, colons get
    one space; the closing indentation is clamped at 0.
  */
  function LayoutStep(c: char, indent: int): (r: (string, int))
    requires indent >= 0
    ensures r.1 >= 0 && (indent % 2 == 0 ==> r.1 % 2 == 0)
  {
    if c == '{' || c == '[' then ([c, '\n'] + Spaces(indent + INDENT_SIZE), indent + INDENT_SIZE)
    else if c == '}' || c == ']' then
      var lowered := if indent - INDENT_SIZE < 0 then 0 else indent - INDENT_SIZE;
      (['\n'] + Spaces(lowered) + [c], lowered)
    else if c == ',' then ([c, '\n'] + Spaces(indent), indent)
    else if c == ':' then ([c, ' '], indent)
    else ([c], indent)
  }

  /** Each step emits its character exactly once, with only spaces and newlines around it. */
  lemma LayoutStepShape(c: char, indent: int) returns (before: string, after: string)
    requires indent >= 0
    ensures LayoutStep(c, indent).0 == before + [c] + after
    ensures forall k :: 0 <= k < |before| ==> IsLayout(before[k])
    ensures forall k :: 0 <= k < |after| ==> IsLayout(after[k])
  {
    var (emitted, next) := LayoutStep(c, indent);
    if c == '{' || c == '[' || c == ',' {
      before, after := [], emitted[1..];
      assert after == ['\n'] + Spaces(next);
    } else if c == '}' || c == ']' {
      before, after := emitted[.. |emitted| - 1], [];
      assert before == ['\n'] + Spaces(next);
    } else if c == ':' {
      before, after := [], [' '];
    } else {
      before, after := [], [];
    }
  }

  // ---------------------------------------------------------------------------
  // The loop as written
  // ---------------------------------------------------------------------------

  /** The quote at `i` toggles the string state: it is not preceded by a backslash. */
  predicate TogglesAt(s: string, i: nat)
    requires i < |s|
  {
    s[i] == '"' && (i == 0 || s[i - 1] != '\\')
  }

  /** One iteration of the loop, on character `i`. */
  function Emit(s: string, i: nat, p: Printer): (q: Printer)
    requires i < |s| && p.indent >= 0
    ensures q.indent >= 0 && (p.indent % 2 == 0 ==> q.indent % 2 == 0)
  {
    var c := s[i];
    if TogglesAt(s, i) then Printer(p.out + [c], p.indent, !p.inString)
    else if p.inString then Printer(p.out + [c], p.indent, true)
    else
      var (emitted, next) := LayoutStep(c, p.indent);
      Printer(p.out + emitted, next, false)
  }

  /** The printer after the first `n` characters. */
  function Run(s: string, n: nat): (p: Printer)
    requires n <= |s|
    ensures p.indent >= 0 && p.indent % 2 == 0
  {
    if n == 0 then Printer([], 0, false)
    else Emit(s, n - 1, Run(s, n - 1))
  }

  function Format(s: string): string
  {
    Run(s, |s|).out
  }

  /** The character loop of format_json. */
  method FormatJson(minified: string) returns (formatted: string)
    ensures formatted == Format(minified)
  {
    var indent: int := 0;
    var inString := false;
    formatted := "";
    for i := 0 to |minified|
      invariant Run(minified, i) == Printer(formatted, indent, inString)
    {
      var chr := minified[i];
      if chr == '"' && (i == 0 || minified[i - 1] != '\\') {
        inString := !inString;
        formatted := formatted + [chr];
        continue;
      }
      if inString {
        formatted := formatted + [chr];
        continue;
      }
      if chr == '{' || chr == '[' {
        formatted := formatted + [chr, '\n'];
        indent := indent + INDENT_SIZE;
        formatted := formatted + Spaces(indent);
      } else if chr == '}' || chr == ']' {
        formatted := formatted + ['\n'];
        indent := indent - INDENT_SIZE;
        if indent < 0 {
          indent := 0;
        }
        formatted := formatted + Spaces(indent) + [chr];
      } else if chr == ',' {
        formatted := formatted + [chr, '\n'] + Spaces(indent);
      } else if chr == ':' {
        formatted := formatted + [chr, ' '];
      } else {
        formatted := formatted + [chr];
      }
    }
  }

  /**
    `b` is `a` with only spaces and newlines inserted: position `pos[k]` of
    `b` holds `a[k]`, the positions increase, and every other character of
    `b` is a space or a newline.
  */
  ghost predicate InsertsOnlyLayout(a: string, b: string, pos: seq<nat>)
  {
    && |pos| == |a|
    && (forall k :: 0 <= k < |a| ==> pos[k] < |b| && b[pos[k]] == a[k])
    && (forall k, l :: 0 <= k < l < |a| ==> pos[k] < pos[l])
    && (forall j :: 0 <= j < |b| ==> j in pos || IsLayout(b[j]))
  }

  /** Emitting one more character, with only layout around it, extends the insertion. */
  lemma ExtendInsertion(a: string, b: string, pos: seq<nat>, c: char, before: string, after: string)
    requires InsertsOnlyLayout(a, b, pos)
    requires forall k :: 0 <= k < |before| ==> IsLayout(before[k])
    requires forall k :: 0 <= k < |after| ==> IsLayout(after[k])
    ensures InsertsOnlyLayout(a + [c], b + before + [c] + after, pos + [|b| + |before|])
  {
    var out := b + before + [c] + after;
    var pos' := pos + [|b| + |before|];
    forall j | 0 <= j < |out|
      ensures j in pos' || IsLayout(out[j])
    {
      if j < |b| {
        if j in pos {
          var k :| 0 <= k < |pos| && pos[k] == j;
          assert pos'[k] == j;
        }
      } else if j < |b| + |before| {
        assert out[j] == before[j - |b|];
      } else if j == |b| + |before| {
        assert pos'[|pos|] == j;
      } else {
        assert out[j] == after[j - |b| - |before| - 1];
      }
    }
  }

  /** One iteration emits its character exactly once, with only spaces and newlines around it. */
  lemma EmitShape(s: string, i: nat, p: Printer) returns (before: string, after: string)
    requires i < |s| && p.indent >= 0
    ensures Emit(s, i, p).out == p.out + before + [s[i]] + after
    ensures forall k :: 0 <= k < |before| ==> IsLayout(before[k])
    ensures forall k :: 0 <= k < |after| ==> IsLayout(after[k])
  {
    if TogglesAt(s, i) || p.inString {
      before, after := [], [];
    } else {
      before, after := LayoutStepShape(s[i], p.indent);
    }
  }

  lemma {:induction false} RunInsertsOnlyLayout(s: string, n: nat) returns (pos: seq<nat>)
    requires n <= |s|
    ensures InsertsOnlyLayout(s[..n], Run(s, n).out, pos)
  {
    if n == 0 {
      pos := [];
    } else {
      var prev := RunInsertsOnlyLayout(s, n - 1);
      var p := Run(s, n - 1);
      var before, after := EmitShape(s, n - 1, p);
      assert s[..n] == s[..n - 1] + [s[n - 1]];
      ExtendInsertion(s[..n - 1], p.out, prev, s[n - 1], before, after);
      pos := prev + [|p.out| + |before|];
    }
  }

  /** Every input character is emitted, in order, and nothing but spaces and newlines is added. */
  lemma FormatInsertsOnlyLayout(s: string)
    ensures exists pos :: InsertsOnlyLayout(s, Format(s), pos)
  {
    var pos := RunInsertsOnlyLayout(s, |s|);
    assert s[..|s|] == s;
    assert InsertsOnlyLayout(s, Format(s), pos);
  }

  /** Inside a string literal, characters up to the next toggling quote are copied verbatim. */
  lemma {:induction false} StringContentsCopied(s: string, a: nat, b: nat)
    requires a <= b <= |s| && Run(s, a).inString
    requires forall k :: a <= k < b ==> !TogglesAt(s, k)
    ensures Run(s, b) == Printer(Run(s, a).out + s[a..b], Run(s, a).indent, true)
  {
    if a < b {
      StringContentsCopied(s, a, b - 1);
      assert s[a..b] == s[a..b - 1] + [s[b - 1]];
    }
  }

  /**
    Outside a string: `{` and `[` end the line and indent by two more;
    `}` and `]` go on a new line indented by two less, but never below 0;
    `,` ends the line at the current indentation; `:` gets one space.
  */
  lemma LayoutRules(s: string, n: nat)
    requires n < |s| && !Run(s, n).inString && !TogglesAt(s, n)
    ensures var p, q := Run(s, n), Run(s, n + 1);
      && (s[n] in "{[" ==> q.out == p.out + [s[n], '\n'] + Spaces(p.indent + 2) && q.indent == p.indent + 2)
      && (s[n] in "}]" ==>
            var lowered := if p.indent >= 2 then p.indent - 2 else 0;
            q.out == p.out + ['\n'] + Spaces(lowered) + [s[n]] && q.indent == lowered)
      && (s[n] == ',' ==> q.out == p.out + [',', '\n'] + Spaces(p.indent) && q.indent == p.indent)
      && (s[n] == ':' ==> q.out == p.out + [':', ' '] && q.indent == p.indent)
      && !q.inString
  {
    var p := Run(s, n);
    assert Run(s, n + 1) == Printer(p.out + LayoutStep(s[n], p.indent).0, LayoutStep(s[n], p.indent).1, false);
  }

  // ---------------------------------------------------------------------------
  // Finding: a quote after an escaped backslash
  // ---------------------------------------------------------------------------

  /**
    The minified text of `["\\",1]`: an array holding a one-character string
    (a backslash, escaped as two) and the number 1.
  */
  const ESCAPED_BACKSLASH: string := ['[', '"', '\\', '\\', '"', ',', '1', ']']

  /**
    As written, the quote closing `"\\"` follows a backslash, so it does not
    toggle: the printer stays "inside a string" for the rest of the array,
    and the comma and the closing bracket get no line breaks.
  */
  lemma EscapedBackslashMisread()
    ensures Run(ESCAPED_BACKSLASH, 5).inString
    ensures Format(ESCAPED_BACKSLASH) == ['[', '\n', ' ', ' ', '"', '\\', '\\', '"', ',', '1', ']']
  {
    var s := ESCAPED_BACKSLASH;
    assert Run(s, 1) == Printer(['[', '\n', ' ', ' '], 2, false);
    assert Run(s, 2) == Printer(['[', '\n', ' ', ' ', '"'], 2, true);
    assert Run(s, 3) == Printer(['[', '\n', ' ', ' ', '"', '\\'], 2, true);
    assert Run(s, 4) == Printer(['[', '\n', ' ', ' ', '"', '\\', '\\'], 2, true);
    assert !TogglesAt(s, 4);
    assert Run(s, 5) == Printer(['[', '\n', ' ', ' ', '"', '\\', '\\', '"'], 2, true);
    assert Run(s, 6) == Printer(['[', '\n', ' ', ' ', '"', '\\', '\\', '"', ','], 2, true);
    assert Run(s, 7) == Printer(['[', '\n', ' ', ' ', '"', '\\', '\\', '"', ',', '1'], 2, true);
  }

  /** The corrected printer also remembers whether the previous string character was an unescaped backslash. */
  datatype Scanner = Scanner(out: string, indent: int, inString: bool, escaped: bool)

  /**
    Corrected step: inside a string, a backslash escapes the next character
    and only an unescaped quote ends the string; outside, every quote opens
    one and everything else is laid out as before.
  */
  function FixedEmit(c: char, p: Scanner): (q: Scanner)
    requires p.indent >= 0 && p.indent % 2 == 0
    ensures q.indent >= 0 && q.indent % 2 == 0
  {
    if p.inString then
      if p.escaped then Scanner(p.out + [c], p.indent, true, false)
      else if c == '\\' then Scanner(p.out + [c], p.indent, true, true)
      else if c == '"' then Scanner(p.out + [c], p.indent, false, false)
      else Scanner(p.out + [c], p.indent, true, false)
    else if c == '"' then Scanner(p.out + [c], p.indent, true, false)
    else
      var (emitted, next) := LayoutStep(c, p.indent);
      Scanner(p.out + emitted, next, false, false)
  }

  /** Feeds the characters of `t` to the corrected printer, first to last. */
  function FixedFeed(p: Scanner, t: string): (q: Scanner)
    requires p.indent >= 0 && p.indent % 2 == 0
    ensures q.indent >= 0 && q.indent % 2 == 0
    decreases |t|
  {
    if t == [] then p else FixedFeed(FixedEmit(t[0], p), t[1..])
  }

  const START: Scanner := Scanner([], 0, false, false)

  function FormatFixed(s: string): string
  {
    FixedFeed(START, s).out
  }

  lemma {:induction false} FixedFeedAppend(p: Scanner, a: string, c: char)
    requires p.indent >= 0 && p.indent % 2 == 0
    ensures FixedFeed(p, a + [c]) == FixedEmit(c, FixedFeed(p, a))
    decreases |a|
  {
    if a != [] {
      assert (a + [c])[1..] == a[1..] + [c];
      FixedFeedAppend(FixedEmit(a[0], p), a[1..], c);
    }
  }

  /** The inside of a JSON string literal: plain characters, or a backslash and the character it escapes. */
  predicate StringBody(b: string)
    decreases |b|
  {
    || b == []
    || (b[0] != '"' && b[0] != '\\' && StringBody(b[1..]))
    || (|b| >= 2 && b[0] == '\\' && StringBody(b[2..]))
  }

  lemma {:induction false} FixedBodyCopied(p: Scanner, b: string)
    requires p.indent >= 0 && p.indent % 2 == 0
    requires p.inString && !p.escaped && StringBody(b)
    ensures FixedFeed(p, b) == Scanner(p.out + b, p.indent, true, false)
    decreases |b|
  {
    if b != [] {
      if b[0] != '"' && b[0] != '\\' && StringBody(b[1..]) {
        FixedBodyCopied(FixedEmit(b[0], p), b[1..]);
        assert p.out + [b[0]] + b[1..] == p.out + b;
      } else {
        var q := FixedEmit(b[1], FixedEmit(b[0], p));
        assert b[1..][1..] == b[2..];
        FixedBodyCopied(q, b[2..]);
        assert p.out + [b[0]] + [b[1]] + b[2..] == p.out + b;
      }
    }
  }

  /**
    Intended behaviour: a complete string literal, whatever it escapes, is
    copied verbatim and leaves the printer outside a string again.
  */
  lemma FixedStringLiteralCopied(p: Scanner, b: string)
    requires p.indent >= 0 && p.indent % 2 == 0
    requires !p.inString && StringBody(b)
    ensures FixedFeed(p, ['"'] + b + ['"']) == Scanner(p.out + ['"'] + b + ['"'], p.indent, false, false)
  {
    var entered := FixedEmit('"', p);
    assert (['"'] + b + ['"'])[1..] == b + ['"'];
    assert FixedFeed(p, ['"'] + b + ['"']) == FixedFeed(entered, b + ['"']);
    FixedFeedAppend(entered, b, '"');
    FixedBodyCopied(entered, b);
  }

  /** On the example, the corrected printer breaks the line after the comma and puts `]` on its own line. */
  lemma EscapedBackslashFixed()
    ensures FormatFixed(ESCAPED_BACKSLASH) ==
      ['[', '\n', ' ', ' ', '"', '\\', '\\', '"', ',', '\n', ' ', ' ', '1', '\n', ']']
  {
    var s := ESCAPED_BACKSLASH;
    var p1 := FixedEmit('[', START);
    assert p1 == Scanner(['[', '\n', ' ', ' '], 2, false, false);
    assert StringBody(['\\', '\\']);
    var literal := ['"'] + ['\\', '\\'] + ['"'];
    var rest := [',', '1', ']'];
    FixedStringLiteralCopied(p1, ['\\', '\\']);
    var p5 := FixedFeed(p1, literal);
    assert p5 == Scanner(['[', '\n', ' ', ' ', '"', '\\', '\\', '"'], 2, false, false);
    assert s[1..] == literal + rest;
    FeedConcat(p1, literal, rest);
    var p6 := FixedEmit(',', p5);
    assert p6 == Scanner(p5.out + [',', '\n', ' ', ' '], 2, false, false);
    var p7 := FixedEmit('1', p6);
    assert p7 == Scanner(p6.out + ['1'], 2, false, false);
    var p8 := FixedEmit(']', p7);
    assert p8 == Scanner(p7.out + ['\n', ']'], 0, false, false);
    assert rest[1..][1..][1..] == [];
    assert FixedFeed(p5, rest) == p8;
  }

  lemma {:induction false} FeedConcat(p: Scanner, a: string, b: string)
    requires p.indent >= 0 && p.indent % 2 == 0
    ensures FixedFeed(p, a + b) == FixedFeed(FixedFeed(p, a), b)
    decreases |a|
  {
    if a == [] {
      assert a + b == b;
    } else {
      assert (a + b)[0] == a[0] && (a + b)[1..] == a[1..] + b;
      FeedConcat(FixedEmit(a[0], p), a[1..], b);
    }
  }

  /** On text without backslashes the corrected printer does exactly what the original does. */
  lemma {:induction false} FixedAgreesWithoutBackslash(s: string, n: nat)
    requires n <= |s| && forall k :: 0 <= k < n ==> s[k] != '\\'
    ensures var q := FixedFeed(START, s[..n]);
      q.out == Run(s, n).out && q.indent == Run(s, n).indent
      && q.inString == Run(s, n).inString && !q.escaped
  {
    if n > 0 {
      FixedAgreesWithoutBackslash(s, n - 1);
      assert s[..n] == s[..n - 1] + [s[n - 1]];
      FixedFeedAppend(START, s[..n - 1], s[n - 1]);
      var p := Run(s, n - 1);
      assert TogglesAt(s, n - 1) == (s[n - 1] == '"');
      assert Run(s, n) == Emit(s, n - 1, p);
    }
  }
}
