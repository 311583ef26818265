/** Greedy wrapping of a paragraph's text. */
module WrapText {
  import opened Options
  type Line = seq<char>

  /** The width of a rune at the paragraph's font size, if the font has the rune. */
  type Metrics = char -> Option<real>

  ghost predicate NonNegative(m: Metrics) {
    forall r :: m(r).Some? ==> m(r).value >= 0.0
  }

  function RuneWidth(m: Metrics, r: char): real {
    if m(r).Some? then m(r).value else 0.0
  }

  function Width(m: Metrics, l: Line): real {
    if l == [] then 0.0 else Width(m, l[..|l| - 1]) + RuneWidth(m, l[|l| - 1])
  }

  /** Why a line ends. */
  datatype End = LineFeed | Break | EndOfText

  /** The text that lines come from. */
  function Rebuilt(lines: seq<Line>, ends: seq<End>): Line
    requires |ends| == |lines|
  {
    if lines == [] then []
    else
      var n := |lines| - 1;
      Rebuilt(lines[..n], ends[..n]) + lines[n] + if ends[n].LineFeed? then ['\n'] else []
  }

  /** All of the line but its last rune fits. */
  predicate FitsButLast(m: Metrics, limit: real, l: Line) {
    l != [] ==> Width(m, l[..|l| - 1]) <= limit
  }

  /** A line is broken after a space, its last one, or has no space to be broken after. */
  predicate BrokenRight(l: Line) {
    (|l| > 1 && l[|l| - 1] == ' ') || forall i :: 0 < i < |l| ==> l[i] != ' '
  }

  /**
   Why a line is broken before the next one: the next line begins with seed runes of which the last did not fit any more.
   The others, with no space among them, did fit, and were taken off the line after its last space.
   */
  predicate Overflows(m: Metrics, limit: real, line: Line, next: Line, seed: nat) {
    && 0 < seed <= |next| && (forall i :: 0 <= i < seed - 1 ==> next[i] != ' ')
    && Width(m, line + next[..seed]) > limit
    && (seed > 1 ==> |line| > 1 && line[|line| - 1] == ' ' && Width(m, line + next[..seed - 1]) <= limit)
  }

  ghost predicate BrokenBefore(m: Metrics, limit: real, line: Line, next: Line) {
    exists seed: nat :: Overflows(m, limit, line, next, seed)
  }

  /** A line fits, unless there is no more on it than what did not fit on the line before. */
  predicate Fits(m: Metrics, limit: real, lines: seq<Line>, ends: seq<End>, i: nat)
    requires |ends| == |lines| && i < |lines|
  {
    Width(m, lines[i]) <= limit || (i > 0 && ends[i - 1].Break? && Overflows(m, limit, lines[i - 1], lines[i], |lines[i]|))
  }

  ghost predicate Wrapped(m: Metrics, limit: real, lines: seq<Line>, ends: seq<End>) {
    && |ends| == |lines|
    && (NonNegative(m) ==> forall i :: 0 <= i < |lines| ==> FitsButLast(m, limit, lines[i]))
    && (NonNegative(m) ==> forall i :: 0 <= i < |lines| ==> Fits(m, limit, lines, ends, i))
    && (forall i :: 0 <= i < |lines| && ends[i].Break? ==> BrokenRight(lines[i]))
    && (forall i :: 0 <= i < |lines| - 1 && ends[i].Break? ==> BrokenBefore(m, limit, lines[i], lines[i + 1]))
    // Greedy: a line that is broken has no room for the next one.
    && (NonNegative(m) ==> forall i :: 0 <= i < |lines| - 1 && ends[i].Break? ==> Width(m, lines[i] + lines[i + 1]) > limit)
  }

  lemma {:induction false} WidthAppend(m: Metrics, a: Line, b: Line)
    ensures Width(m, a + b) == Width(m, a) + Width(m, b)
  {
    if b == [] {
      assert a + b == a;
    } else {
      assert (a + b)[..|a + b| - 1] == a + b[..|b| - 1];
      WidthAppend(m, a, b[..|b| - 1]);
    }
  }

  lemma {:induction false} WidthGrows(m: Metrics, l: Line, i: nat)
    requires NonNegative(m) && i <= |l|
    ensures Width(m, l[..i]) <= Width(m, l)
  {
    if i < |l| {
      WidthGrows(m, l[..|l| - 1], i);
      assert l[..|l| - 1][..i] == l[..i];
    } else {
      assert l[..i] == l;
    }
  }

  function Sum(widths: seq<real>): real {
    if widths == [] then 0.0 else Sum(widths[..|widths| - 1]) + widths[|widths| - 1]
  }

  function Widths(m: Metrics, l: Line): (w: seq<real>)
    ensures |w| == |l| && forall i :: 0 <= i < |l| ==> w[i] == RuneWidth(m, l[i])
  {
    seq(|l|, i requires 0 <= i < |l| => RuneWidth(m, l[i]))
  }

  lemma {:induction false} SumOfWidths(m: Metrics, l: Line)
    ensures Sum(Widths(m, l)) == Width(m, l)
  {
    if l != [] {
      assert Widths(m, l)[..|l| - 1] == Widths(m, l[..|l| - 1]);
      SumOfWidths(m, l[..|l| - 1]);
    }
  }

  method SumOf(widths: seq<real>) returns (total: real)
    ensures total == Sum(widths)
  {
    total := 0.0;
    for i := 0 to |widths|
      invariant total == Sum(widths[..i])
    {
      assert widths[..i + 1][..i] == widths[..i];
      total := total + widths[i];
    }
    assert widths[..|widths|] == widths;
  }

  /** The index of the last space, or -1. */
  method LastSpace(line: Line) returns (idx: int)
    ensures -1 <= idx < |line| && (idx >= 0 ==> line[idx] == ' ') && forall i :: idx < i < |line| ==> line[i] != ' '
  {
    idx := -1;
    for i := |line| downto 0
      invariant forall j :: i <= j < |line| ==> line[j] != ' '
      invariant idx == -1
    {
      if line[i] == ' ' {
        return i;
      }
    }
  }

  predicate AfterBreak(lines: seq<Line>, ends: seq<End>)
    requires |ends| == |lines|
  {
    lines != [] && ends[|lines| - 1].Break?
  }

  /** The lines are the text, wrapped. */
  ghost predicate WrappedText(m: Metrics, limit: real, text: Line, lines: seq<Line>, ends: seq<End>) {
    && |ends| == |lines| && Wrapped(m, limit, lines, ends) && Rebuilt(lines, ends) == text && !AfterBreak(lines, ends)
    && (forall i :: 0 <= i < |lines| ==> '\n' !in lines[i])
    && (forall i :: 0 <= i < |lines| && ends[i].EndOfText? ==> i == |lines| - 1 && lines[i] != [])
  }

  /** The line that is being filled; its first runes, up to the seed, are what did not fit on the line before. */
  ghost predicate Filling(m: Metrics, limit: real, lines: seq<Line>, ends: seq<End>, line: Line, seed: nat) {
    && Wrapped(m, limit, lines, ends) && (NonNegative(m) ==> FitsButLast(m, limit, line)) && limit >= 0.0
    && seed <= |line| && (Width(m, line) <= limit || |line| == seed)
    && (AfterBreak(lines, ends) ==> Overflows(m, limit, lines[|lines| - 1], line, seed))
    && (!AfterBreak(lines, ends) ==> seed == 0)
  }

  lemma {:induction false} OverflowsSooner(m: Metrics, limit: real, line: Line, next: Line, seed: nat, n: nat)
    requires Overflows(m, limit, line, next, seed) && seed <= n <= |next|
    ensures Overflows(m, limit, line, next[..n], seed)
  {
    assert next[..n][..seed] == next[..seed] && next[..n][..seed - 1] == next[..seed - 1];
  }

  lemma {:induction false} LastFits(m: Metrics, limit: real, lines: seq<Line>, ends: seq<End>, line: Line, seed: nat, n: nat, e: End)
    requires Filling(m, limit, lines, ends, line, seed) && seed <= n <= |line| && NonNegative(m)
    ensures forall i :: 0 <= i < |lines| + 1 ==> Fits(m, limit, lines + [line[..n]], ends + [e], i)
  {
    hide Width;
    forall i | 0 <= i < |lines| ensures Fits(m, limit, lines + [line[..n]], ends + [e], i) {
      assert Fits(m, limit, lines, ends, i);
    }
    assert line[..|line|] == line;
    if Width(m, line) <= limit { WidthGrows(m, line, n); }
    if seed == 0 && |line| == 0 { assert Width(m, line) == 0.0 by { NothingIsNarrow(m); } }
  }

  lemma {:induction false} NothingIsNarrow(m: Metrics)
    ensures Width(m, []) == 0.0
  {
  }

  /** Ends the line being filled after its first n runes. */
  lemma {:induction false} LineEnds(m: Metrics, limit: real, lines: seq<Line>, ends: seq<End>, line: Line, seed: nat, n: nat, e: End)
    requires Filling(m, limit, lines, ends, line, seed) && seed <= n <= |line| && (e.Break? ==> BrokenRight(line[..n]))
    ensures Wrapped(m, limit, lines + [line[..n]], ends + [e])
    ensures Rebuilt(lines + [line[..n]], ends + [e]) == Rebuilt(lines, ends) + line[..n] + if e.LineFeed? then ['\n'] else []
  {
    hide BrokenRight, Width;
    var lines', ends' := lines + [line[..n]], ends + [e];
    assert lines'[..|lines|] == lines && ends'[..|lines|] == ends;
    if AfterBreak(lines, ends) { OverflowsSooner(m, limit, lines[|lines| - 1], line, seed, n); }
    if NonNegative(m) {
      if n > 0 {
        assert line[..n][..n - 1] == line[..|line| - 1][..n - 1];
        WidthGrows(m, line[..|line| - 1], n - 1);
      }
      assert FitsButLast(m, limit, line[..n]);
      LastFits(m, limit, lines, ends, line, seed, n, e);
      if AfterBreak(lines, ends) {
        var last := lines[|lines| - 1];
        assert (last + line[..n])[..|last| + seed] == last + line[..seed];
        WidthGrows(m, last + line[..n], |last| + seed);
      }
    }
  }

  /** A rune that fits. */
  lemma {:induction false} RuneFits(m: Metrics, limit: real, lines: seq<Line>, ends: seq<End>, line: Line, seed: nat, r: char)
    requires Filling(m, limit, lines, ends, line, seed) && Width(m, line) + RuneWidth(m, r) <= limit
    ensures Filling(m, limit, lines, ends, line + [r], seed) && Width(m, line + [r]) == Width(m, line) + RuneWidth(m, r)
    ensures Widths(m, line + [r]) == Widths(m, line) + [RuneWidth(m, r)]
    ensures |ends| == |lines| && Rebuilt(lines, ends) + (line + [r]) == Rebuilt(lines, ends) + line + [r]
  {
    hide NonNegative;
    assert (line + [r])[..|line|] == line;
    assert (line + [r])[..seed] == line[..seed];
    if AfterBreak(lines, ends) { assert (line + [r])[..seed - 1] == line[..seed - 1]; }
    if NonNegative(m) && Width(m, line) > limit { NoRoom(m, r); }
  }

  lemma {:induction false} NoRoom(m: Metrics, r: char)
    requires NonNegative(m)
    ensures RuneWidth(m, r) >= 0.0
  {
  }

  lemma {:induction false} BreakOverflows(m: Metrics, limit: real, line: Line, seed: nat, n: nat, r: char)
    requires seed <= n <= |line| && (Width(m, line) <= limit || |line| == seed) && Width(m, line) + RuneWidth(m, r) > limit
    requires (forall i :: n <= i < |line| ==> line[i] != ' ') && (n < |line| ==> n > 1 && line[n - 1] == ' ')
    ensures Overflows(m, limit, line[..n], line[n..] + [r], |line| - n + 1)
  {
    hide Width;
    var next := line[n..] + [r];
    assert next[..|next|] == next && next[..|next| - 1] == line[n..];
    assert line[..n] + next == line + [r] && line[..n] + line[n..] == line;
    WidthAppend(m, line, [r]);
    OneRune(m, r);
  }

  lemma {:induction false} BreakKeepsText(m: Metrics, lines: seq<Line>, ends: seq<End>, line: Line, n: nat, r: char)
    requires |ends| == |lines| && n <= |line|
    ensures Rebuilt(lines + [line[..n]], ends + [Break]) + (line[n..] + [r]) == Rebuilt(lines, ends) + line + [r]
    ensures n == |line| ==> line[n..] + [r] == [r] && line[..n] == line
    ensures Widths(m, line[n..] + [r]) == Widths(m, line)[n..] + [RuneWidth(m, r)]
  {
    hide RuneWidth;
    var text, next := Rebuilt(lines, ends), line[n..] + [r];
    assert (lines + [line[..n]])[..|lines|] == lines && (ends + [Break])[..|lines|] == ends;
    assert line[..n] + next == line + [r];
    assert text + line[..n] + next == text + (line[..n] + next) == text + line + [r];
  }

  /** A rune that does not fit: the line is broken after n runes, and the others begin the next line. */
  lemma {:induction false} LineBroken(m: Metrics, limit: real, lines: seq<Line>, ends: seq<End>, line: Line, seed: nat, n: nat, r: char)
    requires Filling(m, limit, lines, ends, line, seed) && Width(m, line) + RuneWidth(m, r) > limit
    requires |ends| == |lines| && seed <= n <= |line| && BrokenRight(line[..n]) && forall i :: n <= i < |line| ==> line[i] != ' '
    requires n < |line| ==> n > 1 && line[n - 1] == ' '
    ensures Filling(m, limit, lines + [line[..n]], ends + [Break], line[n..] + [r], |line| - n + 1)
    ensures Rebuilt(lines + [line[..n]], ends + [Break]) + (line[n..] + [r]) == Rebuilt(lines, ends) + line + [r]
    ensures n == |line| ==> line[n..] + [r] == [r] && line[..n] == line
    ensures Widths(m, line[n..] + [r]) == Widths(m, line)[n..] + [RuneWidth(m, r)]
  {
    hide Wrapped, BrokenRight, Width, Widths, RuneWidth, Rebuilt, Overflows;
    LineEnds(m, limit, lines, ends, line, seed, n, Break);
    BreakOverflows(m, limit, line, seed, n, r);
    BreakKeepsText(m, lines, ends, line, n, r);
    var next := line[n..] + [r];
    assert next[..|next| - 1] == line[n..];
    assert (lines + [line[..n]])[|lines|] == line[..n] && (ends + [Break])[|lines|] == Break;
    if NonNegative(m) { RestFits(m, limit, line, seed, n); }
  }

  lemma {:induction false} RestFits(m: Metrics, limit: real, line: Line, seed: nat, n: nat)
    requires NonNegative(m) && seed <= n <= |line| && limit >= 0.0 && (Width(m, line) <= limit || |line| == seed)
    ensures Width(m, line[n..]) <= limit
  {
    assert line == line[..n] + line[n..];
    WidthAppend(m, line[..n], line[n..]);
    WidthGrows(m, line[..n], 0);
  }

  lemma {:induction false} OneRune(m: Metrics, r: char)
    ensures Width(m, [r]) == RuneWidth(m, r) && Widths(m, [r]) == [RuneWidth(m, r)]
  {
    assert [r][..0] == [];
  }

  class Paragraph {
    const text: Line
    const metrics: Metrics
    const enableWrap: bool
    const wrapWidth: real
    var textLines: seq<Line>

    constructor (text: Line, metrics: Metrics, enableWrap: bool, wrapWidth: real)
      ensures this.text == text && this.metrics == metrics && this.enableWrap == enableWrap && this.wrapWidth == wrapWidth && textLines == []
    {
      this.text := text;
      this.metrics := metrics;
      this.enableWrap := enableWrap;
      this.wrapWidth := wrapWidth;
      textLines := [];
    }

    /** Whether the font has every one of the first n runes. */
    ghost predicate Known(n: nat)
      requires n <= |text|
    {
      forall i :: 0 <= i < n && text[i] != '\n' ==> metrics(text[i]).Some?
    }

    /** The state of the loop over the runes, after k of them. */
    ghost predicate Filled(k: nat, lines: seq<Line>, ends: seq<End>, line: Line, widths: seq<real>, lineWidth: real, seed: nat) {
      && k <= |text| && |ends| == |lines| && Known(k)
      && Filling(metrics, wrapWidth * 1000.0, lines, ends, line, seed)
      && Rebuilt(lines, ends) + line == text[..k]
      && lineWidth == Width(metrics, line) && widths == Widths(metrics, line)
      && '\n' !in line && forall i :: 0 <= i < |lines| ==> '\n' !in lines[i] && !ends[i].EndOfText?
    }

    /** Breaks the line at its last space, or where it ends, before a rune that does not fit any more. */
    method BreakLine(k: nat, line: Line, widths: seq<real>, lineWidth: real, r: char, w: real, ghost ends: seq<End>, ghost seed: nat)
      returns (line': Line, widths': seq<real>, lineWidth': real, ghost ends': seq<End>, ghost seed': nat)
      requires Filled(k, textLines, ends, line, widths, lineWidth, seed) && k < |text| && text[k] == r
      requires r != '\n' && metrics(r) == Some(w) && lineWidth + w > wrapWidth * 1000.0
      modifies this
      ensures Filled(k + 1, textLines, ends', line', widths', lineWidth', seed')
    {
      hide Filling, Wrapped, Rebuilt, Width, Widths, BrokenRight;
      var idx := LastSpace(line);
      ghost var limit := wrapWidth * 1000.0;
      BreakPoint(metrics, limit, textLines, ends, line, seed, idx);
      assert text[..k + 1] == text[..k] + [r];
      if idx > 0 {
        LineBroken(metrics, limit, textLines, ends, line, seed, idx + 1, r);
        textLines, ends', seed' := textLines + [line[..idx + 1]], ends + [Break], |line| - idx;
        line' := line[idx + 1..] + [r];
        widths' := widths[idx + 1..] + [w];
        lineWidth' := SumOf(widths');
        SumOfWidths(metrics, line');
      } else {
        LineBroken(metrics, limit, textLines, ends, line, seed, |line|, r);
        textLines, ends', seed' := textLines + [line], ends + [Break], 1;
        line', widths', lineWidth' := [r], [w], w;
        OneRune(metrics, r);
      }
    }

    lemma {:induction false} AfterLineFeed(k: nat, lines: seq<Line>, ends: seq<End>, line: Line, widths: seq<real>, lineWidth: real, seed: nat)
      requires Filled(k, lines, ends, line, widths, lineWidth, seed) && k < |text| && text[k] == '\n'
      ensures Filled(k + 1, lines + [line], ends + [LineFeed], [], [], 0.0, 0)
    {
      hide Filling, Wrapped, Rebuilt;
      assert text[..k + 1] == text[..k] + ['\n'];
      NewLine(metrics, wrapWidth * 1000.0, lines, ends, line, seed);
    }

    lemma {:induction false} AfterRune(k: nat, lines: seq<Line>, ends: seq<End>, line: Line, widths: seq<real>, lineWidth: real, seed: nat)
      requires Filled(k, lines, ends, line, widths, lineWidth, seed) && k < |text| && text[k] != '\n' && metrics(text[k]).Some?
      requires lineWidth + metrics(text[k]).value <= wrapWidth * 1000.0
      ensures var w := metrics(text[k]).value; Filled(k + 1, lines, ends, line + [text[k]], widths + [w], lineWidth + w, seed)
    {
      hide Filling, Wrapped, Rebuilt;
      assert text[..k + 1] == text[..k] + [text[k]];
      RuneFits(metrics, wrapWidth * 1000.0, lines, ends, line, seed, text[k]);
    }

    lemma {:induction false} AfterText(lines: seq<Line>, ends: seq<End>, line: Line, widths: seq<real>, lineWidth: real, seed: nat)
      requires Filled(|text|, lines, ends, line, widths, lineWidth, seed)
      ensures line == [] ==> Result(lines, ends)
      ensures line != [] ==> Result(lines + [line], ends + [EndOfText])
    {
      hide Width, Widths;
      assert text[..|text|] == text;
      LineEnds(metrics, wrapWidth * 1000.0, lines, ends, line, seed, |line|, EndOfText);
      assert line[..|line|] == line;
    }

    /** The lines are the text, wrapped. */
    ghost predicate Result(lines: seq<Line>, ends: seq<End>) {
      Known(|text|) && WrappedText(metrics, wrapWidth * 1000.0, text, lines, ends)
    }

    /** wrapText; a width of less than 1 counts as none, and a rune that the font does not have is an error. */
    method Wrap() returns (ok: bool, ghost ends: seq<End>)
      modifies this
      ensures !enableWrap || wrapWidth < 1.0 ==> ok && textLines == [text]
      ensures enableWrap && wrapWidth >= 1.0 ==> ok == Known(|text|) && (ok ==> Result(textLines, ends))
    {
      if !enableWrap || wrapWidth < 1.0 {
        textLines := [text];
        return true, [EndOfText];
      }
      textLines, ends, ok := [], [], false;
      var line: Line := [];
      var lineWidth := 0.0;
      var widths: seq<real> := [];
      ghost var seed: nat := 0;
      assert Filled(0, textLines, ends, line, widths, lineWidth, seed);
      for k := 0 to |text|
        invariant Filled(k, textLines, ends, line, widths, lineWidth, seed)
      {
        hide Filled, Result;
        var r := text[k];
        if r == '\n' {
          AfterLineFeed(k, textLines, ends, line, widths, lineWidth, seed);
          textLines, ends, seed := textLines + [line], ends + [LineFeed], 0;
          line, lineWidth, widths := [], 0.0, [];
          continue;
        }
        if metrics(r).None? {
          return false, ends;
        }
        var w := metrics(r).value;
        if lineWidth + w > wrapWidth * 1000.0 {
          line, widths, lineWidth, ends, seed := BreakLine(k, line, widths, lineWidth, r, w, ends, seed);
        } else {
          AfterRune(k, textLines, ends, line, widths, lineWidth, seed);
          line, lineWidth, widths := line + [r], lineWidth + w, widths + [w];
        }
      }
      AfterText(textLines, ends, line, widths, lineWidth, seed);
      if |line| > 0 {
        textLines, ends := textLines + [line], ends + [EndOfText];
      }
      ok := true;
    }
  }

  lemma {:induction false} NewLine(m: Metrics, limit: real, lines: seq<Line>, ends: seq<End>, line: Line, seed: nat)
    requires Filling(m, limit, lines, ends, line, seed)
    ensures Filling(m, limit, lines + [line], ends + [LineFeed], [], 0)
    ensures |ends| == |lines| && Rebuilt(lines + [line], ends + [LineFeed]) + [] == Rebuilt(lines, ends) + line + ['\n']
    ensures Width(m, []) == 0.0 && Widths(m, []) == []
  {
    LineEnds(m, limit, lines, ends, line, seed, |line|, LineFeed);
    assert line[..|line|] == line;
  }

  /** Where the loop breaks a line is a right place. */
  lemma {:induction false} BreakPoint(m: Metrics, limit: real, lines: seq<Line>, ends: seq<End>, line: Line, seed: nat, idx: int)
    requires Filling(m, limit, lines, ends, line, seed)
    requires -1 <= idx < |line| && (idx >= 0 ==> line[idx] == ' ') && forall i :: idx < i < |line| ==> line[i] != ' '
    ensures seed <= |line|
    ensures if idx > 0 then seed <= idx + 1 && BrokenRight(line[..idx + 1]) else BrokenRight(line[..|line|])
  {
    assert line[..|line|] == line;
    if idx > 0 { assert line[..idx + 1][idx] == ' '; }
  }

  // ----- The lines are determined

  /** The text from line k on. */
  function Rest(lines: seq<Line>, ends: seq<End>, k: nat): Line
    requires |ends| == |lines| && k <= |lines|
    decreases |lines| - k
  {
    if k == |lines| then [] else lines[k] + ((if ends[k].LineFeed? then ['\n'] else []) + Rest(lines, ends, k + 1))
  }

  lemma {:induction false} TextSplits(lines: seq<Line>, ends: seq<End>, k: nat)
    requires |ends| == |lines| && k <= |lines|
    ensures Rebuilt(lines[..k], ends[..k]) + Rest(lines, ends, k) == Rebuilt(lines, ends)
    decreases |lines| - k
  {
    hide Rebuilt;
    if k == |lines| {
      assert lines[..k] == lines && ends[..k] == ends;
    } else {
      TextSplits(lines, ends, k + 1);
      assert lines[..k + 1][..k] == lines[..k] && ends[..k + 1][..k] == ends[..k];
      OneMoreLine(lines[..k + 1], ends[..k + 1]);
      var a, b, c := Rebuilt(lines[..k], ends[..k]), lines[k], if ends[k].LineFeed? then ['\n'] else [];
      assert a + (b + (c + Rest(lines, ends, k + 1))) == a + b + c + Rest(lines, ends, k + 1);
    }
  }

  lemma OneMoreLine(lines: seq<Line>, ends: seq<End>)
    requires |ends| == |lines| && lines != []
    ensures var n := |lines| - 1;
      Rebuilt(lines, ends) == Rebuilt(lines[..n], ends[..n]) + lines[n] + if ends[n].LineFeed? then ['\n'] else []
  {
  }

  /** What comes after a line, by the way it ends. */
  lemma {:induction false} AfterLine(m: Metrics, limit: real, text: Line, lines: seq<Line>, ends: seq<End>, k: nat)
    requires WrappedText(m, limit, text, lines, ends) && k < |lines|
    ensures lines[k] <= Rest(lines, ends, k) && Rest(lines, ends, k) != []
    ensures ends[k].EndOfText? ==> Rest(lines, ends, k) == lines[k]
    ensures ends[k].LineFeed? ==> |Rest(lines, ends, k)| > |lines[k]| && Rest(lines, ends, k)[|lines[k]|] == '\n'
    ensures ends[k].Break? ==> k + 1 < |lines| && lines[k] + lines[k + 1] <= Rest(lines, ends, k)
    ensures ends[k].Break? ==> |Rest(lines, ends, k)| > |lines[k]| && Rest(lines, ends, k)[|lines[k]|] != '\n'
  {
    hide Width, Rebuilt;
    if ends[k].Break? {
      assert BrokenBefore(m, limit, lines[k], lines[k + 1]);
      assert lines[k + 1] != [];
      assert lines[k] + ([] + Rest(lines, ends, k + 1)) == lines[k] + Rest(lines, ends, k + 1);
      assert lines[k + 1][0] != '\n';
    }
  }

  /** Line l is broken before next; the other line, l', goes on further in the same text t. */
  ghost predicate Longer(m: Metrics, limit: real, l: Line, next: Line, seed: nat, l': Line, t: Line) {
    && Overflows(m, limit, l, next, seed) && BrokenRight(l)
    && l + next <= t && l' <= t && |l| < |l'|
  }

  /** The longer line does not reach to the rune that did not fit, since it is broken at a space of its own. */
  lemma {:induction false} LongerToOverflow(m: Metrics, limit: real, l: Line, next: Line, seed: nat, l': Line, t: Line)
    requires Longer(m, limit, l, next, seed, l', t)
    requires BrokenRight(l')
    ensures |l'| >= |l| + seed
  {
    hide Width;
    assert |l| > 0 ==> l'[|l| - 1] == t[|l| - 1] == l[|l| - 1];
    assert t[..|l| + |next|] == l + next;
  }

  lemma {:induction false} NotInTheMiddle(m: Metrics, limit: real, l: Line, next: Line, seed: nat, l': Line, t: Line, e: End)
    requires Longer(m, limit, l, next, seed, l', t) && '\n' !in next
    requires e.Break? ==> BrokenRight(l')
    requires e.EndOfText? ==> t == l'
    requires e.LineFeed? ==> |t| > |l'| && t[|l'|] == '\n'
    ensures |l'| >= |l| + seed
  {
    hide Width, BrokenRight;
    if e.Break? {
      LongerToOverflow(m, limit, l, next, seed, l', t);
    } else {
      assert t[..|l| + |next|] == l + next;
    }
  }

  lemma {:induction false} PrefixIsNarrower(m: Metrics, a: Line, b: Line)
    requires NonNegative(m) && a <= b
    ensures Width(m, a) <= Width(m, b)
  {
    assert b[..|a|] == a;
    WidthGrows(m, b, |a|);
  }

  /** A line that reaches to the rune that did not fit does not fit itself. */
  lemma {:induction false} OverflowDoesNotFit(m: Metrics, limit: real, l: Line, next: Line, seed: nat, l': Line, t: Line)
    requires NonNegative(m) && Longer(m, limit, l, next, seed, l', t) && |l'| >= |l| + seed
    ensures Width(m, l') > limit
  {
    hide Width;
    assert l + next[..seed] <= l' by {
      assert l + next[..seed] == t[..|l| + seed] == l'[..|l| + seed];
    }
    PrefixIsNarrower(m, l + next[..seed], l');
  }

  /** So it is all taken over from the line before, but then so is the shorter line, which has too little for that. */
  lemma {:induction false} NotAllTakenOver(m: Metrics, limit: real, l: Line, next: Line, seed: nat, l': Line, t: Line, before: Line)
    requires NonNegative(m) && Longer(m, limit, l, next, seed, l', t)
    requires Overflows(m, limit, before, l', |l'|)
    ensures !BrokenBefore(m, limit, before, l)
  {
    hide Width;
    if BrokenBefore(m, limit, before, l) {
      var s: nat :| Overflows(m, limit, before, l, s);
      assert before + l[..s] <= before + l'[..|l'| - 1] by {
        assert l[..s] == t[..s] == l'[..|l'| - 1][..s];
      }
      PrefixIsNarrower(m, before + l[..s], before + l'[..|l'| - 1]);
    }
  }

  /** Of two ways to wrap a text that agree before line k, neither has the shorter line k. */
  lemma {:induction false} NoShorterLine(m: Metrics, limit: real, text: Line, lines: seq<Line>, ends: seq<End>, lines': seq<Line>, ends': seq<End>, k: nat)
    requires NonNegative(m) && WrappedText(m, limit, text, lines, ends) && WrappedText(m, limit, text, lines', ends')
    requires k < |lines| && k < |lines'| && lines[..k] == lines'[..k] && ends[..k] == ends'[..k]
    requires Rest(lines, ends, k) == Rest(lines', ends', k)
    ensures |lines[k]| >= |lines'[k]|
  {
    hide Width, Rebuilt, Rest, Overflows, BrokenRight, FitsButLast;
    var l, l' := lines[k], lines'[k];
    if |l| < |l'| {
      var t := Rest(lines, ends, k);
      AfterLine(m, limit, text, lines, ends, k);
      AfterLine(m, limit, text, lines', ends', k);
      assert l'[|l|] == t[|l|];
      assert ends[k].Break? && BrokenBefore(m, limit, l, lines[k + 1]);
      var next := lines[k + 1];
      var seed: nat :| Overflows(m, limit, l, next, seed);
      NotInTheMiddle(m, limit, l, next, seed, l', t, ends'[k]);
      OverflowDoesNotFit(m, limit, l, next, seed, l', t);
      assert Fits(m, limit, lines', ends', k);
      var before := lines'[k - 1];
      assert lines[..k][k - 1] == before && ends[..k][k - 1] == ends'[..k][k - 1];
      assert BrokenBefore(m, limit, lines[k - 1], lines[k]);
      NotAllTakenOver(m, limit, l, next, seed, l', t, before);
    }
  }

  lemma {:induction false} SameLine(m: Metrics, limit: real, text: Line, lines: seq<Line>, ends: seq<End>, lines': seq<Line>, ends': seq<End>, k: nat)
    requires NonNegative(m) && WrappedText(m, limit, text, lines, ends) && WrappedText(m, limit, text, lines', ends')
    requires k < |lines| && k < |lines'| && lines[..k] == lines'[..k] && ends[..k] == ends'[..k]
    requires Rest(lines, ends, k) == Rest(lines', ends', k)
    ensures lines[k] == lines'[k] && ends[k] == ends'[k] && Rest(lines, ends, k + 1) == Rest(lines', ends', k + 1)
  {
    hide Width, Rebuilt, Wrapped;
    NoShorterLine(m, limit, text, lines, ends, lines', ends', k);
    NoShorterLine(m, limit, text, lines', ends', lines, ends, k);
    AfterLine(m, limit, text, lines, ends, k);
    AfterLine(m, limit, text, lines', ends', k);
    var n := |lines[k]| + if ends[k].LineFeed? then 1 else 0;
    assert Rest(lines, ends, k)[n..] == Rest(lines, ends, k + 1);
    assert Rest(lines', ends', k)[n..] == Rest(lines', ends', k + 1);
  }

  lemma {:induction false} SameFrom(m: Metrics, limit: real, text: Line, lines: seq<Line>, ends: seq<End>, lines': seq<Line>, ends': seq<End>, k: nat)
    requires NonNegative(m) && WrappedText(m, limit, text, lines, ends) && WrappedText(m, limit, text, lines', ends')
    requires k <= |lines| && k <= |lines'| && lines[..k] == lines'[..k] && ends[..k] == ends'[..k]
    requires Rest(lines, ends, k) == Rest(lines', ends', k)
    ensures lines == lines' && ends == ends'
    decreases |lines| - k
  {
    hide Width, Rebuilt, Wrapped;
    if k < |lines| { AfterLine(m, limit, text, lines, ends, k); }
    if k < |lines'| { AfterLine(m, limit, text, lines', ends', k); }
    if k < |lines| && k < |lines'| {
      SameLine(m, limit, text, lines, ends, lines', ends', k);
      SameFrom(m, limit, text, lines, ends, lines', ends', k + 1);
    } else {
      assert lines[..k] == lines && lines'[..k] == lines' && ends[..k] == ends && ends'[..k] == ends';
    }
  }

  /** A text is wrapped in one way only: there is no other result that meets the specification. */
  lemma {:induction false} OneWayToWrap(m: Metrics, limit: real, text: Line, lines: seq<Line>, ends: seq<End>, lines': seq<Line>, ends': seq<End>)
    requires NonNegative(m) && WrappedText(m, limit, text, lines, ends) && WrappedText(m, limit, text, lines', ends')
    ensures lines == lines' && ends == ends'
  {
    hide Width, Wrapped, Rest;
    TextSplits(lines, ends, 0);
    TextSplits(lines', ends', 0);
    assert [] + Rest(lines, ends, 0) == Rest(lines, ends, 0) && [] + Rest(lines', ends', 0) == Rest(lines', ends', 0);
    SameFrom(m, limit, text, lines, ends, lines', ends', 0);
  }

  // ----- What follows

  function NoLineFeeds(t: Line): Line {
    if t == [] then [] else NoLineFeeds(t[..|t| - 1]) + if t[|t| - 1] == '\n' then [] else [t[|t| - 1]]
  }

  function Concat(lines: seq<Line>): Line {
    if lines == [] then [] else Concat(lines[..|lines| - 1]) + lines[|lines| - 1]
  }

  lemma {:induction false} NoLineFeedsAppend(a: Line, b: Line)
    ensures NoLineFeeds(a + b) == NoLineFeeds(a) + NoLineFeeds(b)
  {
    if b == [] {
      assert a + b == a;
    } else {
      assert (a + b)[..|a + b| - 1] == a + b[..|b| - 1];
      NoLineFeedsAppend(a, b[..|b| - 1]);
    }
  }

  lemma {:induction false} NothingToTakeOut(l: Line)
    requires '\n' !in l
    ensures NoLineFeeds(l) == l
  {
    if l != [] { NothingToTakeOut(l[..|l| - 1]); }
  }

  /** The lines, one after the other, are the text without its line feeds. */
  lemma {:induction false} LinesAreTheText(lines: seq<Line>, ends: seq<End>)
    requires |ends| == |lines| && forall i :: 0 <= i < |lines| ==> '\n' !in lines[i]
    ensures Concat(lines) == NoLineFeeds(Rebuilt(lines, ends))
  {
    hide NoLineFeeds;
    if lines != [] {
      var n := |lines| - 1;
      LinesAreTheText(lines[..n], ends[..n]);
      var before := Rebuilt(lines[..n], ends[..n]);
      NothingToTakeOut(lines[n]);
      NoLineFeedsAppend(before, lines[n]);
      if ends[n].LineFeed? {
        NoLineFeedsAppend(before + lines[n], ['\n']);
        OneLineFeed();
      }
      assert before + lines[n] + [] == before + lines[n];
    } else {
      NothingToTakeOut([]);
    }
  }

  lemma {:induction false} OneLineFeed()
    ensures NoLineFeeds(['\n']) == []
  {
    assert ['\n'][..0] == [];
  }

  /** What the runes of a line take up, one after another; a rune that the font does not have takes up nothing. */
  function Advance(m: Metrics, l: Line): real {
    if l == [] then 0.0
    else
      match m(l[0])
      case Some(w) => w + Advance(m, l[1..])
      case None => Advance(m, l[1..])
  }

  lemma {:induction false} WidthIsAdvance(m: Metrics, l: Line)
    ensures Width(m, l) == Advance(m, l)
  {
    if l != [] {
      WidthIsAdvance(m, l[1..]);
      assert l == [l[0]] + l[1..] && [l[0]][..0] == [];
      WidthAppend(m, [l[0]], l[1..]);
    }
  }
}
