/**
 `rewriteImportContext`: copy an import file with every context directive pointed at another
 database. The read/write loop is proved to map each line independently.
 */
module InfluxImport {
  import opened Text
  import opened Lists

  const DIRECTIVE := "# CONTEXT-DATABASE:"

  /** The lines of a file as `ReadString('\n')` delivers them: each ends with its newline, but
      the last one may lack it. */
  function Lines(s: string): (ls: seq<string>) {
    if s == "" then []
    else
      var n := IndexByte(s, '\n');
      if n < 0 then [s] else [s[..n + 1]] + Lines(s[n + 1..])
  }

  function Concat(ls: seq<string>): string {
    if ls == [] then "" else ls[0] + Concat(ls[1..])
  }

  /** One line, for a directive given as a parameter so that proofs need not look at its text. */
  function RewriteLine(directive: string, line: string, target: string): string {
    if HasPrefix(line, directive) then directive + target + "\n" else line
  }

  function RewriteLines(directive: string, ls: seq<string>, target: string): (r: seq<string>)
    ensures |r| == |ls| && forall i :: 0 <= i < |ls| ==> r[i] == RewriteLine(directive, ls[i], target)
  {
    if ls == [] then [] else [RewriteLine(directive, ls[0], target)] + RewriteLines(directive, ls[1..], target)
  }

  function Rewrite(directive: string, s: string, target: string): string {
    Concat(RewriteLines(directive, Lines(s), target))
  }

  lemma {:induction false} ConcatAppend(a: seq<string>, b: seq<string>)
    ensures Concat(a + b) == Concat(a) + Concat(b)
  {
    if a == [] {
      assert a + b == b;
    } else {
      assert (a + b)[1..] == a[1..] + b;
      ConcatAppend(a[1..], b);
      AppendAssoc(a[0], Concat(a[1..]), Concat(b));
    }
  }

  /** `rewriteImportContext`, over what is left of the input; it ends when the input does. */
  method RewriteImportContext(src: string, target: string) returns (dst: string)
    ensures dst == Rewrite(DIRECTIVE, src, target)
    ensures '\n' !in target ==> Lines(dst) == RewriteLines(DIRECTIVE, Lines(src), target)
  {
    var directive := DIRECTIVE;
    dst := Copy(directive, src, target);
    SourceDirective();
    if '\n' !in target { RewriteIsLineByLine(directive, src, target); }
  }

  /** The loop: write the rewritten lines one by one. */
  method Copy(directive: string, src: string, target: string) returns (dst: string)
    requires directive != ""
    ensures dst == Rewrite(directive, src, target)
  {
    var rest, eof := src, false;
    ghost var all := Rewrite(directive, src, target);
    dst := "";
    assert dst + all == all;
    while !eof
      invariant eof ==> rest == ""
      invariant dst + Rewrite(directive, rest, target) == all
      decreases |rest|, !eof
    {
      ghost var done := dst;
      var line, next;
      line, next, eof := NextLine(directive, rest, target);
      if line != "" { dst := dst + line; }
      AppendAssoc(done, line, Rewrite(directive, next, target));
      assert done + "" == done;
      rest := next;
    }
    assert dst + "" == dst;
  }

  /** One read, and what is written for it: `ReadString('\n')` gives the rest at the end. */
  method NextLine(directive: string, rest: string, target: string) returns (line: string, next: string, eof: bool)
    requires directive != ""
    ensures Rewrite(directive, rest, target) == line + Rewrite(directive, next, target)
    ensures if eof then next == "" else |next| < |rest|
  {
    RewriteNext(directive, rest, target);
    var n := IndexByte(rest, '\n');
    if n >= 0 {
      line, next, eof := rest[..n + 1], rest[n + 1..], false;
    } else {
      line, next, eof := rest, "", true;
    }
    if HasPrefix(line, directive) { line := directive + target + "\n"; }
  }

  /** Rewriting the first line and then the rest. */
  lemma RewriteNext(directive: string, s: string, target: string)
    requires directive != ""
    ensures var n := IndexByte(s, '\n');
            Rewrite(directive, s, target) ==
              if n >= 0 then RewriteLine(directive, s[..n + 1], target) + Rewrite(directive, s[n + 1..], target)
              else RewriteLine(directive, s, target) + Rewrite(directive, "", target)
  {
    var n := IndexByte(s, '\n');
    if s != "" {
      var ls := Lines(s);
      if n >= 0 {
        TailOfCons(s[..n + 1], Lines(s[n + 1..]));
        assert RewriteLines(directive, ls, target)[1..] == RewriteLines(directive, ls[1..], target);
      } else {
        assert ls == [s] && ls[1..] == [];
        assert RewriteLines(directive, ls, target)[1..] == [];
      }
    }
  }

  // --- lists of lines ------------------------------------------------------------------------

  predicate Terminated(l: string) {
    l != "" && l[|l| - 1] == '\n'
  }

  /** A newline only at the end, if at all. */
  predicate IsLine(l: string) {
    l != "" && '\n' !in l[..|l| - 1]
  }

  ghost predicate Proper(ls: seq<string>) {
    && (forall i :: 0 <= i < |ls| ==> IsLine(ls[i]))
    && (forall i :: 0 <= i < |ls| - 1 ==> Terminated(ls[i]))
  }

  lemma ProperCons(l: string, ls: seq<string>)
    requires IsLine(l) && Proper(ls) && (ls != [] ==> Terminated(l))
    ensures Proper([l] + ls) && Concat([l] + ls) == l + Concat(ls)
  {
    TailOfCons(l, ls);
  }

  lemma FirstLine(s: string)
    requires '\n' in s
    ensures var n := IndexByte(s, '\n'); n >= 0 && IsLine(s[..n + 1]) && Terminated(s[..n + 1]) && s[..n + 1] + s[n + 1..] == s
  {
    var n := IndexByte(s, '\n');
    assert s[..n + 1][..n] == s[..n];
  }

  lemma OnlyLine(s: string)
    requires s != "" && '\n' !in s
    ensures Lines(s) == [s] && Proper([s]) && Concat([s]) == s
  {
    ProperCons(s, []);
    assert [s] + [] == [s] && s + "" == s;
  }

  lemma LinesSplit(s: string, n: nat)
    requires '\n' in s && n == IndexByte(s, '\n')
    ensures Lines(s) == [s[..n + 1]] + Lines(s[n + 1..])
  {
  }

  lemma {:induction false} LinesAreProper(s: string)
    ensures Proper(Lines(s)) && Concat(Lines(s)) == s
  {
    if '\n' in s {
      var n := IndexByte(s, '\n');
      LinesSplit(s, n);
      FirstLine(s);
      LinesAreProper(s[n + 1..]);
      ProperCons(s[..n + 1], Lines(s[n + 1..]));
    } else if s != "" {
      OnlyLine(s);
    }
  }

  lemma FirstNewline(l: string, rest: string)
    requires IsLine(l) && Terminated(l)
    ensures IndexByte(l + rest, '\n') == |l| - 1
  {
    CutAt(l[..|l| - 1], '\n', rest);
    assert l + rest == l[..|l| - 1] + ['\n'] + rest;
  }

  /** Splitting after a complete line. */
  lemma LinesOfLine(l: string, rest: string)
    requires IsLine(l) && Terminated(l)
    ensures Lines(l + rest) == [l] + Lines(rest)
  {
    FirstNewline(l, rest);
    assert (l + rest)[..|l|] == l && (l + rest)[|l|..] == rest;
  }

  lemma LastLine(l: string)
    requires IsLine(l)
    ensures Lines(l) == [l]
  {
    if Terminated(l) {
      LinesOfLine(l, "");
      assert l + "" == l;
    } else {
      assert forall i :: 0 <= i < |l| - 1 ==> l[i] == l[..|l| - 1][i];
    }
  }

  /** Splitting gives back any proper list of lines that was joined. */
  lemma {:induction false} LinesOfConcat(ls: seq<string>)
    requires Proper(ls)
    ensures Lines(Concat(ls)) == ls
  {
    if ls != [] {
      HeadTail(ls);
      if |ls| == 1 {
        assert ls[1..] == [] && ls[0] + "" == ls[0];
        LastLine(ls[0]);
      } else {
        assert Proper(ls[1..]);
        LinesOfConcat(ls[1..]);
        LinesOfLine(ls[0], Concat(ls[1..]));
      }
    }
  }

  predicate DirectiveText(directive: string) {
    directive != "" && '\n' !in directive
  }

  lemma NewLineIsLine(directive: string, target: string)
    requires '\n' !in directive && '\n' !in target
    ensures IsLine(directive + target + "\n") && Terminated(directive + target + "\n")
  {
    var l := directive + target + "\n";
    assert l[..|l| - 1] == directive + target;
  }

  lemma RewrittenProper(directive: string, ls: seq<string>, target: string)
    requires Proper(ls) && DirectiveText(directive) && '\n' !in target
    ensures Proper(RewriteLines(directive, ls, target))
  {
    NewLineIsLine(directive, target);
  }

  /** The copy has as many lines as the original; each is the original line, or names the
      target if the original was a directive. */
  lemma RewriteIsLineByLine(directive: string, s: string, target: string)
    requires DirectiveText(directive) && '\n' !in target
    ensures Lines(Rewrite(directive, s, target)) == RewriteLines(directive, Lines(s), target)
    ensures |Lines(Rewrite(directive, s, target))| == |Lines(s)|
    ensures forall i :: 0 <= i < |Lines(s)| ==>
      Lines(Rewrite(directive, s, target))[i] ==
        if HasPrefix(Lines(s)[i], directive) then directive + target + "\n" else Lines(s)[i]
  {
    LinesAreProper(s);
    RewrittenProper(directive, Lines(s), target);
    LinesOfConcat(RewriteLines(directive, Lines(s), target));
  }

  lemma RewriteLineTwice(directive: string, line: string, t1: string, t2: string)
    ensures RewriteLine(directive, RewriteLine(directive, line, t1), t2) == RewriteLine(directive, line, t2)
  {
    if HasPrefix(line, directive) {
      assert HasPrefix(directive + t1 + "\n", directive);
    }
  }

  /** Rewriting to one target and then another is rewriting to the other. */
  lemma RewriteTwice(directive: string, s: string, t1: string, t2: string)
    requires DirectiveText(directive) && '\n' !in t1
    ensures Rewrite(directive, Rewrite(directive, s, t1), t2) == Rewrite(directive, s, t2)
  {
    RewriteIsLineByLine(directive, s, t1);
    var once := RewriteLines(directive, Lines(s), t1);
    forall i | 0 <= i < |once|
      ensures RewriteLines(directive, once, t2)[i] == RewriteLines(directive, Lines(s), t2)[i]
    {
      RewriteLineTwice(directive, Lines(s)[i], t1, t2);
    }
    assert RewriteLines(directive, once, t2) == RewriteLines(directive, Lines(s), t2);
  }

  /** The directive of the source is such a text. */
  lemma SourceDirective()
    ensures DirectiveText(DIRECTIVE)
  {
  }

  // --- the condition on the target is needed -------------------------------------------------------

  function Newlines(s: string): nat {
    if s == "" then 0 else (if s[0] == '\n' then 1 else 0) + Newlines(s[1..])
  }

  predicate HasDirective(directive: string, ls: seq<string>) {
    exists i :: 0 <= i < |ls| && HasPrefix(ls[i], directive)
  }

  /** `extra` lines for every directive. */
  function Added(directive: string, ls: seq<string>, extra: nat): nat {
    if ls == [] then 0
    else (if HasPrefix(ls[0], directive) then extra else 0) + Added(directive, ls[1..], extra)
  }

  lemma {:induction false} NothingAdded(directive: string, ls: seq<string>, extra: nat)
    ensures Added(directive, ls, extra) == 0 <==> extra == 0 || !HasDirective(directive, ls)
  {
    if ls != [] {
      NothingAdded(directive, ls[1..], extra);
      assert HasDirective(directive, ls) <==> HasPrefix(ls[0], directive) || HasDirective(directive, ls[1..]) by {
        if HasDirective(directive, ls[1..]) {
          var i :| 0 <= i < |ls[1..]| && HasPrefix(ls[1..][i], directive);
          assert HasPrefix(ls[i + 1], directive);
        }
        if HasDirective(directive, ls) && !HasPrefix(ls[0], directive) {
          var i :| 0 <= i < |ls| && HasPrefix(ls[i], directive);
          assert ls[1..][i - 1] == ls[i];
        }
      }
    }
  }

  lemma {:induction false} LinesAfterText(s: string, rest: string)
    ensures |Lines(s + "\n" + rest)| == Newlines(s) + 1 + |Lines(rest)|
    decreases |s|
  {
    var n := IndexByte(s, '\n');
    if n < 0 {
      NewlineFree(s);
      assert (s + "\n")[..|s|] == s;
      LinesOfLine(s + "\n", rest);
    } else {
      var line, tail := s[..n + 1], s[n + 1..];
      assert s + "\n" + rest == line + (tail + "\n" + rest);
      assert line[..n] == s[..n];
      LinesOfLine(line, tail + "\n" + rest);
      LinesAfterText(tail, rest);
      NewlinesSplit(s, n);
    }
  }

  lemma {:induction false} NewlineFree(s: string)
    requires '\n' !in s
    ensures Newlines(s) == 0
  {
    if s != "" { NewlineFree(s[1..]); }
  }

  lemma {:induction false} NewlinesSplit(s: string, n: nat)
    requires n < |s| && s[n] == '\n' && '\n' !in s[..n]
    ensures Newlines(s) == 1 + Newlines(s[n + 1..])
  {
    if n > 0 {
      assert s[0] == s[..n][0] && s[1..][..n - 1] == s[..n][1..] && s[1..][n - 1] == s[n];
      NewlinesSplit(s[1..], n - 1);
      assert s[1..][n..] == s[n + 1..];
    }
  }

  lemma {:induction false} CountLines(directive: string, ls: seq<string>, target: string)
    requires Proper(ls) && DirectiveText(directive)
    ensures |Lines(Concat(RewriteLines(directive, ls, target)))| == |ls| + Added(directive, ls, Newlines(target))
  {
    if ls != [] {
      var rest := Concat(RewriteLines(directive, ls[1..], target));
      assert RewriteLines(directive, ls, target)[1..] == RewriteLines(directive, ls[1..], target);
      assert Proper(ls[1..]);
      CountLines(directive, ls[1..], target);
      if HasPrefix(ls[0], directive) {
        LinesAfterText(directive + target, rest);
        NewlinesAppend(directive, target);
        NewlineFree(directive);
      } else if |ls| == 1 {
        assert rest == "" && ls[0] + "" == ls[0];
        LastLine(ls[0]);
      } else {
        LinesOfLine(ls[0], rest);
      }
    }
  }

  lemma {:induction false} NewlinesAppend(a: string, b: string)
    ensures Newlines(a + b) == Newlines(a) + Newlines(b)
  {
    if a == "" {
      assert a + b == b;
    } else {
      assert (a + b)[1..] == a[1..] + b;
      NewlinesAppend(a[1..], b);
    }
  }

  /** For any target at all: every directive line adds as many lines as the target has newlines.
      So the line count is kept exactly when there is no directive or the target has none. */
  lemma LineCountExact(directive: string, s: string, target: string)
    requires DirectiveText(directive)
    ensures |Lines(Rewrite(directive, s, target))| == |Lines(s)| + Added(directive, Lines(s), Newlines(target))
    ensures |Lines(Rewrite(directive, s, target))| == |Lines(s)| <==>
            Newlines(target) == 0 || !HasDirective(directive, Lines(s))
  {
    LinesAreProper(s);
    NothingAdded(directive, Lines(s), Newlines(target));
    CountLines(directive, Lines(s), target);
  }
}
