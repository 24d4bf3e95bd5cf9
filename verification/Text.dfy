/**
 The string functions of Go's `strings` package that the addon commands use, as functions on
 sequences of characters, with the laws about splitting and joining that the parsers rely on.
 */
module Text {

  datatype Option<+T> = None | Some(value: T)

  // --- searching -------------------------------------------------------------

  /** Position of the first occurrence of `c`, or -1. */
  function IndexByte(s: string, c: char): (i: int)
    ensures -1 <= i < |s|
    ensures i >= 0 ==> s[i] == c && c !in s[..i]
    ensures i < 0 ==> c !in s
  {
    if s == "" then -1
    else if s[0] == c then 0
    else
      var j := IndexByte(s[1..], c);
      if j < 0 then -1
      else
        assert s[..j + 1] == [s[0]] + s[1..][..j];
        j + 1
  }

  /** Position of the last occurrence of `c`, or -1. */
  function LastIndexByte(s: string, c: char): (i: int)
    ensures -1 <= i < |s|
    ensures i >= 0 ==> s[i] == c && c !in s[i + 1..]
    ensures i < 0 ==> c !in s
  {
    if s == "" then -1
    else if s[|s| - 1] == c then |s| - 1
    else
      var i := LastIndexByte(s[..|s| - 1], c);
      assert i >= 0 ==> s[i + 1..] == s[..|s| - 1][i + 1..] + [s[|s| - 1]];
      i
  }

  predicate HasPrefix(s: string, prefix: string) {
    prefix <= s
  }

  /** Position of the first occurrence of a text, or -1. */
  function Index(s: string, sub: string): (i: int)
    ensures i >= -1 && (i >= 0 ==> i + |sub| <= |s|)
  {
    if HasPrefix(s, sub) then 0
    else if s == "" then -1
    else
      var j := Index(s[1..], sub);
      if j < 0 then -1 else j + 1
  }

  /** There is an occurrence at the position and none before it; -1 means there is none at all. */
  lemma {:induction false} IndexMeans(s: string, sub: string)
    ensures var i := Index(s, sub);
            && (i >= 0 ==> HasPrefix(s[i..], sub))
            && (forall k :: 0 <= k <= |s| && (i < 0 || k < i) ==> !HasPrefix(s[k..], sub))
  {
    assert s[0..] == s;
    if !HasPrefix(s, sub) && s != "" {
      IndexMeans(s[1..], sub);
      forall k | 1 <= k <= |s| ensures s[k..] == s[1..][k - 1..] {}
    }
  }

  predicate Contains(s: string, sub: string) {
    Index(s, sub) >= 0
  }

  /** The first occurrence of a text is the position that has it with no earlier one. */
  lemma IndexIs(s: string, sub: string, i: nat)
    requires i <= |s| && HasPrefix(s[i..], sub)
    requires forall k :: 0 <= k < i ==> !HasPrefix(s[k..], sub)
    ensures Index(s, sub) == i
  {
    IndexMeans(s, sub);
  }

  // --- cutting, splitting, joining ---------------------------------------------

  datatype CutResult = CutResult(before: string, after: string, found: bool)

  /** `strings.Cut` with a one-character separator. */
  function Cut(s: string, c: char): CutResult {
    var i := IndexByte(s, c);
    if i < 0 then CutResult(s, "", false) else CutResult(s[..i], s[i + 1..], true)
  }

  lemma CutAt(before: string, c: char, after: string)
    requires c !in before
    ensures Cut(before + [c] + after, c) == CutResult(before, after, true)
  {
    var s := before + [c] + after;
    var i := IndexByte(s, c);
    assert s[|before|] == c;
    assert s[..|before|] == before && s[|before| + 1..] == after;
  }

  /** `strings.Split` with a one-character separator: always at least one piece. */
  function Split(s: string, c: char): (pieces: seq<string>)
    ensures |pieces| >= 1
  {
    if s == "" then [""]
    else
      var rest := Split(s[1..], c);
      if s[0] == c then [""] + rest else [[s[0]] + rest[0]] + rest[1..]
  }

  function Join(pieces: seq<string>, c: char): string {
    if |pieces| == 0 then ""
    else if |pieces| == 1 then pieces[0]
    else pieces[0] + [c] + Join(pieces[1..], c)
  }

  function SplitAll(specs: seq<string>, c: char): (pieces: seq<string>) {
    if specs == [] then [] else Split(specs[0], c) + SplitAll(specs[1..], c)
  }

  predicate Free(pieces: seq<string>, c: char) {
    forall p :: p in pieces ==> c !in p
  }

  lemma {:induction false} SplitOne(s: string, c: char)
    requires c !in s
    ensures Split(s, c) == [s]
  {
    if s != "" {
      SplitOne(s[1..], c);
      assert [s[0]] + s[1..] == s;
    }
  }

  lemma {:induction false} SplitAppend(a: string, c: char, b: string)
    ensures Split(a + [c] + b, c) == Split(a, c) + Split(b, c)
  {
    var s := a + [c] + b;
    if a == "" {
      assert s[1..] == b;
    } else {
      assert s[1..] == a[1..] + [c] + b;
      SplitAppend(a[1..], c, b);
    }
  }

  /** Splitting is the inverse of joining pieces that do not hold the separator. */
  lemma {:induction false} SplitOfJoin(pieces: seq<string>, c: char)
    requires |pieces| >= 1 && Free(pieces, c)
    ensures Split(Join(pieces, c), c) == pieces
  {
    SplitOne(pieces[0], c);
    if |pieces| > 1 {
      SplitAppend(pieces[0], c, Join(pieces[1..], c));
      SplitOfJoin(pieces[1..], c);
    }
  }

  /** Joining several texts and splitting once is splitting each of them. */
  lemma {:induction false} SplitOfJoinAll(specs: seq<string>, c: char)
    requires |specs| >= 1
    ensures Split(Join(specs, c), c) == SplitAll(specs, c)
  {
    if |specs| == 1 {
      assert SplitAll(specs[1..], c) == [];
    } else {
      SplitAppend(specs[0], c, Join(specs[1..], c));
      SplitOfJoinAll(specs[1..], c);
    }
  }

  /** No piece of a split holds the separator. */
  lemma {:induction false} SplitPiecesFree(s: string, c: char)
    ensures Free(Split(s, c), c)
  {
    if s != "" {
      SplitPiecesFree(s[1..], c);
      var rest := Split(s[1..], c);
      assert rest[0] in rest;
    }
  }

  // --- white space ---------------------------------------------------------------

  /** The characters `unicode.IsSpace` accepts. */
  predicate IsSpace(c: char) {
    var n := c as int;
    9 <= n <= 13 || n == 32 || n == 0x85 || n == 0xA0 || n == 0x1680 || 0x2000 <= n <= 0x200A ||
    n == 0x2028 || n == 0x2029 || n == 0x202F || n == 0x205F || n == 0x3000
  }

  function TrimLeft(s: string): string {
    if s == "" || !IsSpace(s[0]) then s else TrimLeft(s[1..])
  }

  function TrimRight(s: string): string {
    if s == "" || !IsSpace(s[|s| - 1]) then s else TrimRight(s[..|s| - 1])
  }

  function TrimSpace(s: string): string {
    TrimRight(TrimLeft(s))
  }

  // --- order -----------------------------------------------------------------------

  /** Go's `<` on strings: by the first differing character, a proper prefix coming first. */
  predicate Less(a: string, b: string) {
    b != "" && (a == "" || a[0] < b[0] || (a[0] == b[0] && Less(a[1..], b[1..])))
  }

  lemma {:induction false} LessTrichotomy(a: string, b: string)
    ensures Less(a, b) || Less(b, a) || a == b
    ensures !(Less(a, b) && Less(b, a))
    ensures !Less(a, a)
  {
    if a != "" {
      LessTrichotomy(a[1..], a[1..]);
      if b != "" {
        LessTrichotomy(a[1..], b[1..]);
        if a[0] == b[0] && a[1..] == b[1..] {
          assert a == [a[0]] + a[1..] == [b[0]] + b[1..] == b;
        }
      }
    }
  }

  lemma {:induction false} LessTransitive(a: string, b: string, c: string)
    requires Less(a, b) && Less(b, c)
    ensures Less(a, c)
  {
    if a != "" && a[0] == b[0] == c[0] {
      LessTransitive(a[1..], b[1..], c[1..]);
    }
  }
}
