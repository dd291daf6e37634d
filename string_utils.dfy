/**
 * String helpers: whitespace trimming, ASCII case-insensitive comparison,
 * substring replacement, end-of-line conversion, and the line splitter with
 * its iterator.
 *
 * Strings are `seq<char>` holding the bytes of the source's `char` strings.
 * A `std::string_view` is a `StrView`: the characters it covers together with
 * the address of the first one, because iterator equality compares addresses.
 */
module StringUtils {
  import opened Wrappers
  import Algorithm

  // ---------------------------------------------------------------------------
  // Whitespace and trimming
  // ---------------------------------------------------------------------------

  /** `whitespaceCharacter`: space, tab, line feed, vertical tab, form feed or carriage return. */
  predicate WhitespaceCharacter(ch: char)
  {
    ch == ' ' || ch == '\t' || ch as int == 0x0A || ch as int == 0x0B || ch as int == 0x0C || ch as int == 0x0D
  }

  /** `notWhitespaceCharacter`. */
  predicate NotWhitespaceCharacter(ch: char)
  {
    !WhitespaceCharacter(ch)
  }

  /** `ltrim`: erase everything before the first non-whitespace character. */
  function LTrim(s: string): (r: string)
    ensures |r| <= |s| && r == s[|s| - |r|..]
    ensures forall j :: 0 <= j < |s| - |r| ==> WhitespaceCharacter(s[j])
    ensures r == [] || !WhitespaceCharacter(r[0])
  {
    match Algorithm.FindIf(s, NotWhitespaceCharacter)
    case None => []
    case Some(i) => s[i..]
  }

  /** `rtrim`: erase everything after the last non-whitespace character. */
  function RTrim(s: string): (r: string)
    ensures |r| <= |s| && r == s[..|r|]
    ensures forall j :: |r| <= j < |s| ==> WhitespaceCharacter(s[j])
    ensures r == [] || !WhitespaceCharacter(r[|r| - 1])
  {
    if |s| == 0 || !WhitespaceCharacter(s[|s| - 1]) then s
    else RTrim(s[..|s| - 1])
  }

  /** `trim`: `ltrim(rtrim(s))`. */
  function Trim(s: string): string
  {
    LTrim(RTrim(s))
  }

  /** The trimmed string is a slice of s with whitespace only outside it and none at its edges. */
  lemma TrimIsSlice(s: string)
    ensures exists i, j ::
              && 0 <= i <= j <= |s| && Trim(s) == s[i..j]
              && (forall k :: 0 <= k < i ==> WhitespaceCharacter(s[k]))
              && (forall k :: j <= k < |s| ==> WhitespaceCharacter(s[k]))
    ensures Trim(s) == [] || (NotWhitespaceCharacter(Trim(s)[0]) && NotWhitespaceCharacter(Trim(s)[|Trim(s)| - 1]))
  {
    var m := RTrim(s);
    var r := LTrim(m);
    var i := |m| - |r|;
    assert r == s[i..|m|];
    assert forall k :: 0 <= k < i ==> WhitespaceCharacter(s[k]) by {
      forall k | 0 <= k < i ensures WhitespaceCharacter(s[k]) {
        assert m[k] == s[k];
      }
    }
    if r != [] {
      assert r[|r| - 1] == m[|m| - 1];
    }
  }

  /** A string made only of whitespace (or empty) trims to the empty string, and only such a string does. */
  lemma TrimEmptyIffAllWhitespace(s: string)
    ensures Trim(s) == [] <==> forall k :: 0 <= k < |s| ==> WhitespaceCharacter(s[k])
  {
    if forall k :: 0 <= k < |s| ==> WhitespaceCharacter(s[k]) {
      RTrimAllWhitespace(s);
    }
  }

  lemma {:induction false} RTrimAllWhitespace(s: string)
    requires forall k :: 0 <= k < |s| ==> WhitespaceCharacter(s[k])
    ensures RTrim(s) == []
  {
    if |s| > 0 {
      RTrimAllWhitespace(s[..|s| - 1]);
    }
  }

  /** Trimming leaves a string without edge whitespace unchanged. */
  lemma TrimKeepsTrimmed(s: string)
    requires s == [] || (NotWhitespaceCharacter(s[0]) && NotWhitespaceCharacter(s[|s| - 1]))
    ensures LTrim(s) == s && RTrim(s) == s && Trim(s) == s
  {
    TrimKeepsLeft(s);
    TrimKeepsRight(s);
  }

  /** `ltrim` is idempotent. */
  lemma LTrimIdempotent(s: string)
    ensures LTrim(LTrim(s)) == LTrim(s)
  {
    TrimKeepsLeft(LTrim(s));
  }

  /** `rtrim` is idempotent. */
  lemma RTrimIdempotent(s: string)
    ensures RTrim(RTrim(s)) == RTrim(s)
  {
    TrimKeepsRight(RTrim(s));
  }

  /** `trim` is idempotent. */
  lemma TrimIdempotent(s: string)
    ensures Trim(Trim(s)) == Trim(s)
  {
    TrimIsSlice(s);
    TrimKeepsTrimmed(Trim(s));
  }

  lemma TrimKeepsLeft(s: string)
    requires s == [] || NotWhitespaceCharacter(s[0])
    ensures LTrim(s) == s
  {
  }

  lemma TrimKeepsRight(s: string)
    requires s == [] || NotWhitespaceCharacter(s[|s| - 1])
    ensures RTrim(s) == s
  {
  }

  // ---------------------------------------------------------------------------
  // Case-insensitive comparison
  // ---------------------------------------------------------------------------

  /** The lower-casing `asciiStrEqualsCi` applies: only 'A'..'Z' are mapped. */
  function ToLowerAscii(ch: char): char
  {
    if 'A' <= ch <= 'Z' then (ch as int + ('a' as int - 'A' as int)) as char else ch
  }

  /** Equal length and equal characters after `ToLowerAscii`. */
  predicate EqualsCi(a: string, b: string)
  {
    |a| == |b| && forall i :: 0 <= i < |a| ==> ToLowerAscii(a[i]) == ToLowerAscii(b[i])
  }

  /** `asciiStrEqualsCi`: false on a length mismatch, else compare character by character. */
  method AsciiStrEqualsCi(str1: string, str2: string) returns (r: bool)
    ensures r == EqualsCi(str1, str2)
  {
    if |str1| != |str2| {
      return false;
    }
    var i := 0;
    while i < |str1|
      invariant 0 <= i <= |str1|
      invariant forall j :: 0 <= j < i ==> ToLowerAscii(str1[j]) == ToLowerAscii(str2[j])
    {
      if ToLowerAscii(str1[i]) != ToLowerAscii(str2[i]) {
        return false;
      }
      i := i + 1;
    }
    return true;
  }

  /** The whole string lower-cased by `ToLowerAscii`. */
  function LowerAscii(s: string): (r: string)
    ensures |r| == |s|
    ensures forall i :: 0 <= i < |s| ==> r[i] == ToLowerAscii(s[i])
  {
    if |s| == 0 then [] else [ToLowerAscii(s[0])] + LowerAscii(s[1..])
  }

  /** Case-insensitive equality is equality of the lower-cased strings. */
  lemma EqualsCiIsLowerEquality(a: string, b: string)
    ensures EqualsCi(a, b) <==> LowerAscii(a) == LowerAscii(b)
  {
    if LowerAscii(a) == LowerAscii(b) {
      assert forall i :: 0 <= i < |a| ==> LowerAscii(a)[i] == LowerAscii(b)[i];
    }
  }

  // ---------------------------------------------------------------------------
  // Replacement
  // ---------------------------------------------------------------------------

  /** `pat` occurs in s starting at index i. */
  predicate OccursAt(s: string, pat: string, i: nat)
  {
    i + |pat| <= |s| && s[i..i + |pat|] == pat
  }

  /** `std::string_view::find(pat, pos)`: the first occurrence at or after pos. */
  function FindFrom(s: string, pat: string, pos: nat): (r: Option<nat>)
    requires pos <= |s|
    ensures r.Some? ==> pos <= r.value && OccursAt(s, pat, r.value)
    decreases |s| - pos
  {
    if OccursAt(s, pat, pos) then Some(pos)
    else if pos == |s| then None
    else FindFrom(s, pat, pos + 1)
  }

  /** `find` returns the first occurrence at or after pos, and reports none only when there is none. */
  lemma {:induction false} FindFromIsFirst(s: string, pat: string, pos: nat)
    requires pos <= |s|
    ensures FindFrom(s, pat, pos).Some? ==> forall j :: pos <= j < FindFrom(s, pat, pos).value ==> !OccursAt(s, pat, j)
    ensures FindFrom(s, pat, pos).None? <==> forall j :: pos <= j <= |s| ==> !OccursAt(s, pat, j)
    decreases |s| - pos
  {
    if !OccursAt(s, pat, pos) && pos < |s| {
      FindFromIsFirst(s, pat, pos + 1);
    }
  }

  /** The text `replace` produces from position pos on: leftmost, non-overlapping occurrences replaced. */
  function ReplaceFrom(s: string, from: string, to: string, pos: nat): string
    requires |from| > 0 && pos <= |s|
    decreases |s| - pos
  {
    match FindFrom(s, from, pos)
    case None => s[pos..]
    case Some(i) => s[pos..i] + to + ReplaceFrom(s, from, to, i + |from|)
  }

  function ReplaceAll(s: string, from: string, to: string): string
    requires |from| > 0
  {
    ReplaceFrom(s, from, to, 0)
  }

  /**
   * `replace(input, from, to)`: copy up to each occurrence, append `to`, continue after it.
   * With an empty `from` the source never advances, so `from` must be non-empty.
   */
  method Replace(input: string, from: string, to: string) returns (result: string)
    requires |from| > 0
    ensures result == ReplaceAll(input, from, to)
  {
    result := [];
    var pos: nat := 0;
    var idx := FindFrom(input, from, 0);
    while idx.Some?
      invariant pos <= |input| && idx == FindFrom(input, from, pos)
      invariant result + ReplaceFrom(input, from, to, pos) == ReplaceAll(input, from, to)
      decreases |input| - pos
    {
      result, pos := ReplaceOne(input, from, to, result, pos, idx.value);
      idx := FindFrom(input, from, pos);
    }
    result := result + input[pos..];
  }

  /** One round of `replace`'s loop: copy up to the occurrence at i, append `to`, continue after it. */
  method ReplaceOne(input: string, from: string, to: string, result: string, pos: nat, i: nat)
    returns (result2: string, pos2: nat)
    requires |from| > 0 && pos <= |input| && FindFrom(input, from, pos) == Some(i)
    ensures pos < pos2 <= |input|
    ensures result2 + ReplaceFrom(input, from, to, pos2) == result + ReplaceFrom(input, from, to, pos)
  {
    ReplaceFromFound(input, from, to, pos, i);
    AppendRegroup(result, input[pos..i], to, ReplaceFrom(input, from, to, i + |from|));
    result2 := result + input[pos..i] + to;
    pos2 := i + |from|;
  }

  /** Where `find` stops, `replace` emits the text before the occurrence and `to`, then goes on after it. */
  lemma ReplaceFromFound(s: string, from: string, to: string, pos: nat, i: nat)
    requires |from| > 0 && pos <= |s| && FindFrom(s, from, pos) == Some(i)
    ensures i + |from| <= |s|
    ensures ReplaceFrom(s, from, to, pos) == s[pos..i] + to + ReplaceFrom(s, from, to, i + |from|)
  {
  }

  /** A sequence identity used by the proofs; it has no counterpart in the source. */
  lemma AppendRegroup(r: string, a: string, b: string, c: string)
    ensures r + (a + b + c) == r + a + b + c
  {
  }

  /** With no occurrence of `from` the input comes back unchanged. */
  lemma ReplaceAbsent(s: string, from: string, to: string)
    requires |from| > 0 && forall j :: 0 <= j <= |s| ==> !OccursAt(s, from, j)
    ensures ReplaceAll(s, from, to) == s
  {
    FindFromIsFirst(s, from, 0);
  }

  /** Replacing a pattern by itself changes nothing. */
  lemma {:induction false} ReplaceByItself(s: string, from: string, pos: nat)
    requires |from| > 0 && pos <= |s|
    ensures ReplaceFrom(s, from, from, pos) == s[pos..]
    decreases |s| - pos
  {
    match FindFrom(s, from, pos)
    case None =>
    case Some(i) =>
      ReplaceByItself(s, from, i + |from|);
      assert s[pos..] == s[pos..i] + s[i..i + |from|] + s[i + |from|..];
  }

  /** A replacement of the same length as the pattern keeps the length of the text. */
  lemma {:induction false} ReplaceSameLength(s: string, from: string, to: string, pos: nat)
    requires |from| > 0 && pos <= |s| && |to| == |from|
    ensures |ReplaceFrom(s, from, to, pos)| == |s| - pos
    decreases |s| - pos
  {
    match FindFrom(s, from, pos)
    case None =>
    case Some(i) =>
      ReplaceSameLength(s, from, to, i + |from|);
  }

  /** Every pattern of a replacement list is non-empty. */
  predicate PatternsNonEmpty(replacements: seq<(string, string)>)
  {
    forall k :: 0 <= k < |replacements| ==> |replacements[k].0| > 0
  }

  /**
   * What `replace(input, list)` computes as written: the pairs apply in order to the
   * running result, except that whenever the running result is empty the next pair is
   * applied to the original input; an empty list gives the empty string.
   */
  function ReplaceListAsWritten(input: string, replacements: seq<(string, string)>): string
    requires PatternsNonEmpty(replacements)
  {
    if |replacements| == 0 then []
    else
      var prev := ReplaceListAsWritten(input, replacements[..|replacements| - 1]);
      var p := replacements[|replacements| - 1];
      ReplaceAll(if |prev| == 0 then input else prev, p.0, p.1)
  }

  /** `replace(input, list)` as written. */
  method ReplaceList(input: string, replacements: seq<(string, string)>) returns (result: string)
    requires PatternsNonEmpty(replacements)
    ensures result == ReplaceListAsWritten(input, replacements)
  {
    result := [];
    for k := 0 to |replacements|
      invariant result == ReplaceListAsWritten(input, replacements[..k])
    {
      var p := replacements[k];
      assert replacements[..k + 1][..k] == replacements[..k];
      if |result| == 0 {
        result := Replace(input, p.0, p.1);
      } else {
        result := Replace(result, p.0, p.1);
      }
    }
    assert replacements[..|replacements|] == replacements;
  }

  /** The evidently intended meaning of a replacement list: each pair applied in order to the running text, starting from the input. */
  function ReplaceListIntended(input: string, replacements: seq<(string, string)>): string
    requires PatternsNonEmpty(replacements)
  {
    if |replacements| == 0 then input
    else
      var p := replacements[|replacements| - 1];
      ReplaceAll(ReplaceListIntended(input, replacements[..|replacements| - 1]), p.0, p.1)
  }

  /** `replace(input, list)` with the running result starting from the input. */
  method ReplaceListCorrected(input: string, replacements: seq<(string, string)>) returns (result: string)
    requires PatternsNonEmpty(replacements)
    ensures result == ReplaceListIntended(input, replacements)
  {
    result := input;
    for k := 0 to |replacements|
      invariant result == ReplaceListIntended(input, replacements[..k])
    {
      var p := replacements[k];
      assert replacements[..k + 1][..k] == replacements[..k];
      result := Replace(result, p.0, p.1);
    }
    assert replacements[..|replacements|] == replacements;
  }

  /** Applying a list in two halves is applying the whole list. */
  lemma {:induction false} ReplaceListIntendedComposes(s: string, a: seq<(string, string)>, b: seq<(string, string)>)
    requires PatternsNonEmpty(a) && PatternsNonEmpty(b)
    ensures PatternsNonEmpty(a + b)
    ensures ReplaceListIntended(s, a + b) == ReplaceListIntended(ReplaceListIntended(s, a), b)
    decreases |b|
  {
    assert forall k :: 0 <= k < |a + b| ==> (a + b)[k] == if k < |a| then a[k] else b[k - |a|];
    if |b| == 0 {
      assert a + b == a;
    } else {
      var b' := b[..|b| - 1];
      assert (a + b)[..|a + b| - 1] == a + b';
      ReplaceListIntendedComposes(s, a, b');
    }
  }

  /** The two meanings agree as long as no intermediate result is empty. */
  lemma {:induction false} ReplaceListAgreesWhileNonEmpty(s: string, reps: seq<(string, string)>)
    requires PatternsNonEmpty(reps) && |reps| > 0
    requires forall k :: 1 <= k < |reps| ==> |ReplaceListIntended(s, reps[..k])| > 0
    ensures ReplaceListAsWritten(s, reps) == ReplaceListIntended(s, reps)
    decreases |reps|
  {
    var n := |reps|;
    var prefix := reps[..n - 1];
    if n > 1 {
      forall k | 1 <= k < |prefix|
        ensures |ReplaceListIntended(s, prefix[..k])| > 0
      {
        assert prefix[..k] == reps[..k];
      }
      ReplaceListAgreesWhileNonEmpty(s, prefix);
      assert reps[..n - 1] == prefix;
    } else {
      assert prefix == [];
    }
  }

  /** An empty intermediate result restarts the list from the input: "a" with [("a", ""), ("b", "c")] gives "a" instead of "". */
  lemma ReplaceListRestartsFromInput()
    ensures ReplaceListAsWritten("a", [("a", ""), ("b", "c")]) == "a"
    ensures ReplaceListIntended("a", [("a", ""), ("b", "c")]) == ""
  {
    var reps := [("a", ""), ("b", "c")];
    assert reps[..1] == [("a", "")];
    assert reps[..1][..0] == [];
    assert OccursAt("a", "a", 0);
    assert FindFrom("a", "a", 1) == None;
    assert ReplaceAll("a", "a", "") == "";
    assert !OccursAt("a", "b", 0) && !OccursAt("a", "b", 1);
    assert FindFrom("a", "b", 1) == None;
    assert ReplaceAll("a", "b", "c") == "a";
    assert FindFrom("", "b", 0) == None;
    assert ReplaceAll("", "b", "c") == "";
  }

  // ---------------------------------------------------------------------------
  // Line splitting
  // ---------------------------------------------------------------------------

  /** A `size_t` position; `NPos` is `std::string_view::npos`, above every valid index. */
  datatype Pos = At(n: nat) | NPos

  /** A `std::string_view`: the address of its first character (`data()`) and its characters. */
  datatype StrView = StrView(data: nat, text: string)

  predicate IsEol(c: char)
  {
    c == '\n' || c == '\r'
  }

  predicate NoEol(line: string)
  {
    forall k :: 0 <= k < |line| ==> !IsEol(line[k])
  }

  /** The index of the first line-ending character at or after p, or |s|. */
  function LineEnd(s: string, p: nat): (e: nat)
    requires p <= |s|
    ensures p <= e <= |s|
    ensures e < |s| ==> IsEol(s[e])
    ensures forall j :: p <= j < e ==> !IsEol(s[j])
    decreases |s| - p
  {
    if p == |s| || IsEol(s[p]) then p else LineEnd(s, p + 1)
  }

  /** The position after the terminator at e: "\r\n", "\r" or "\n", or e itself at the end. */
  function AfterEol(s: string, e: nat): nat
    requires e <= |s|
  {
    if e < |s| && s[e] == '\r' then (if e + 1 < |s| && s[e + 1] == '\n' then e + 2 else e + 1)
    else if e < |s| && s[e] == '\n' then e + 1
    else e
  }

  /** A measure that `advanceImpl` lowers on every position other than `npos`. */
  function Rank(s: string, pos: Pos): nat
  {
    match pos
    case NPos => 0
    case At(n) => if n <= |s| then |s| - n + 1 else 1
  }

  /** The terminators `advanceImpl` consumes after a line; "" only at the end of the text. */
  predicate IsTerminator(t: string)
  {
    t == "\n" || t == "\r" || t == "\r\n"
  }

  /**
   * `advanceImpl` on a position: npos (and no current line) once the position is past
   * the text; otherwise the line up to the next '\n' or '\r' and the position after
   * its terminator.
   */
  function AdvanceImplSpec(s: string, pos: Pos): (r: (Pos, string))
    ensures r.0.NPos? <==> pos.NPos? || pos.n >= |s|
    ensures r.0.NPos? ==> r.1 == []
    ensures r.0.At? ==> pos.n < r.0.n <= |s| && NoEol(r.1)
  {
    if pos.NPos? || pos.n >= |s| then (NPos, [])
    else
      var e := LineEnd(s, pos.n);
      (At(AfterEol(s, e)), s[pos.n..e])
  }

  /** The line `advanceImpl` yields is the text from pos up to its terminator, which is "\n", "\r" or "\r\n", or nothing at the end of the text. */
  lemma AdvanceImplPieces(s: string, n: nat)
    requires n < |s|
    ensures var (p, c) := AdvanceImplSpec(s, At(n));
      && n + |c| <= p.n
      && s[n..n + |c|] == c
      && (IsTerminator(s[n + |c|..p.n]) || p.n == n + |c| == |s|)
  {
  }

  /** `advance`: `advanceImpl`, repeated over empty lines while they are to be dropped. */
  function AdvanceSpec(s: string, pos: Pos, drop: bool): (r: (Pos, string))
    ensures r.0.At? ==> pos.At? && Rank(s, r.0) < Rank(s, pos)
    ensures r.0.NPos? ==> r.1 == []
    ensures r.0.At? && drop ==> r.1 != []
    ensures r.0.At? ==> NoEol(r.1)
    decreases Rank(s, pos)
  {
    var (p, c) := AdvanceImplSpec(s, pos);
    if p.At? && drop && |c| == 0 then AdvanceSpec(s, p, drop) else (p, c)
  }

  /** The loop in `advance` after one `advanceImpl` produced (p, c). */
  function Continue(s: string, p: Pos, c: string, drop: bool): (Pos, string)
  {
    if p.At? && drop && |c| == 0 then AdvanceSpec(s, p, drop) else (p, c)
  }

  /** The lines an iterator constructed at pos yields, in order. */
  function LinesFrom(s: string, pos: Pos, drop: bool): (ls: seq<string>)
    ensures forall k :: 0 <= k < |ls| ==> NoEol(ls[k])
    ensures drop ==> forall k :: 0 <= k < |ls| ==> ls[k] != []
    decreases Rank(s, pos)
  {
    var (p, c) := AdvanceSpec(s, pos, drop);
    if p.NPos? then [] else [c] + LinesFrom(s, p, drop)
  }

  /** The lines of `StringLineSplit(s, drop)`. */
  function Lines(s: string, drop: bool): seq<string>
  {
    LinesFrom(s, At(0), drop)
  }

  /** The terminator consumed after each line yielded from pos when empty lines are kept. */
  function EolsFrom(s: string, pos: Pos): seq<string>
    decreases Rank(s, pos)
  {
    var (p, c) := AdvanceImplSpec(s, pos);
    if p.NPos? then [] else [s[pos.n + |c|..p.n]] + EolsFrom(s, p)
  }

  /** Each line followed by its terminator, concatenated. */
  function Interleave(ls: seq<string>, ts: seq<string>): string
    requires |ls| == |ts|
  {
    if |ls| == 0 then [] else ls[0] + ts[0] + Interleave(ls[1..], ts[1..])
  }

  function NonEmpty(line: string): bool
  {
    |line| > 0
  }

  /** Dropping empty lines yields exactly the non-empty lines of the full split, in order. */
  lemma {:induction false} DropIsFilter(s: string, pos: Pos)
    ensures LinesFrom(s, pos, true) == Algorithm.Filter(LinesFrom(s, pos, false), NonEmpty)
    decreases Rank(s, pos)
  {
    var (p, c) := AdvanceImplSpec(s, pos);
    if p.At? {
      DropIsFilter(s, p);
      var rest := LinesFrom(s, p, false);
      assert LinesFrom(s, pos, false) == [c] + rest;
      assert ([c] + rest)[1..] == rest;
      if |c| == 0 {
        assert AdvanceSpec(s, pos, true) == AdvanceSpec(s, p, true);
      }
    }
  }

  /**
   * Keeping empty lines, the lines followed by the terminators consumed after them give back
   * the text; each terminator is "\n", "\r" or "\r\n" except possibly an empty one after the
   * last line, and no line together with its terminator is empty (so a terminator at the very
   * end does not produce a trailing empty line).
   */
  lemma {:induction false} LinesReconstructText(s: string, n: nat)
    requires n <= |s|
    ensures |EolsFrom(s, At(n))| == |LinesFrom(s, At(n), false)|
    ensures Interleave(LinesFrom(s, At(n), false), EolsFrom(s, At(n))) == s[n..]
    ensures forall k :: 0 <= k < |EolsFrom(s, At(n))| ==>
      IsTerminator(EolsFrom(s, At(n))[k]) || (k == |EolsFrom(s, At(n))| - 1 && EolsFrom(s, At(n))[k] == [])
    ensures forall k :: 0 <= k < |EolsFrom(s, At(n))| ==> |LinesFrom(s, At(n), false)[k]| + |EolsFrom(s, At(n))[k]| > 0
    decreases |s| - n
  {
    var (p, c) := AdvanceImplSpec(s, At(n));
    if p.At? {
      var t := LineStep(s, n);
      LinesReconstructText(s, p.n);
      assert s[n..] == s[n..n + |c|] + s[n + |c|..p.n] + s[p.n..];
      ReconstructStep(s[n..], c, t, s[p.n..], LinesFrom(s, p, false), EolsFrom(s, p),
                      LinesFrom(s, At(n), false), EolsFrom(s, At(n)));
    }
  }

  /** One line of the split: the line, its terminator and what follows. */
  lemma {:induction false} LineStep(s: string, n: nat) returns (t: string)
    requires n < |s|
    ensures var (p, c) := AdvanceImplSpec(s, At(n));
      && p.At? && n + |c| <= p.n <= |s| && t == s[n + |c|..p.n] && c == s[n..n + |c|]
      && LinesFrom(s, At(n), false) == [c] + LinesFrom(s, p, false)
      && EolsFrom(s, At(n)) == [t] + EolsFrom(s, p)
      && |c| + |t| > 0
      && (IsTerminator(t) || (t == [] && LinesFrom(s, p, false) == []))
  {
    var (p, c) := AdvanceImplSpec(s, At(n));
    AdvanceImplPieces(s, n);
    t := s[n + |c|..p.n];
    if p.n == |s| {
      assert AdvanceImplSpec(s, p).0.NPos?;
    }
  }

  /** The inductive step of `LinesReconstructText`, on the pieces alone. */
  lemma {:induction false} ReconstructStep(x: string, c: string, t: string, rest: string,
                                           ls: seq<string>, ts: seq<string>, ls0: seq<string>, ts0: seq<string>)
    requires ls0 == [c] + ls && ts0 == [t] + ts && |ls| == |ts|
    requires x == c + t + rest && Interleave(ls, ts) == rest
    requires |c| + |t| > 0 && (IsTerminator(t) || (t == [] && ls == []))
    requires forall k :: 0 <= k < |ts| ==> IsTerminator(ts[k]) || (k == |ts| - 1 && ts[k] == [])
    requires forall k :: 0 <= k < |ts| ==> |ls[k]| + |ts[k]| > 0
    ensures |ts0| == |ls0| && Interleave(ls0, ts0) == x
    ensures forall k :: 0 <= k < |ts0| ==> IsTerminator(ts0[k]) || (k == |ts0| - 1 && ts0[k] == [])
    ensures forall k :: 0 <= k < |ts0| ==> |ls0[k]| + |ts0[k]| > 0
  {
    assert ls0[1..] == ls && ts0[1..] == ts;
    forall k | 0 < k < |ts0|
      ensures IsTerminator(ts0[k]) || (k == |ts0| - 1 && ts0[k] == [])
      ensures |ls0[k]| + |ts0[k]| > 0
    {
      assert ts0[k] == ts[k - 1] && ls0[k] == ls[k - 1];
    }
  }

  /** Empty text has no lines. */
  lemma EmptyTextHasNoLines(drop: bool)
    ensures Lines([], drop) == []
  {
  }

  lemma {:induction false} LineEndShift(x: string, y: string, i: nat)
    requires i <= |y|
    ensures LineEnd(x + y, |x| + i) == |x| + LineEnd(y, i)
    decreases |y| - i
  {
    if i < |y| {
      assert (x + y)[|x| + i] == y[i];
      LineEndShift(x, y, i + 1);
    }
  }

  /** The split of a text from a position depends only on the text from there on. */
  lemma {:induction false} LinesShift(x: string, y: string, i: nat)
    requires i <= |y|
    ensures LinesFrom(x + y, At(|x| + i), false) == LinesFrom(y, At(i), false)
    decreases |y| - i
  {
    if i < |y| {
      var (p, c) := AdvanceImplSpec(y, At(i));
      AdvanceShift(x, y, i);
      LinesShift(x, y, p.n);
    }
  }

  /** One line of the split, read at the same place of a text with a prefix in front. */
  lemma {:induction false} AdvanceShift(x: string, y: string, i: nat)
    requires i < |y|
    ensures AdvanceImplSpec(y, At(i)).0.At?
    ensures AdvanceImplSpec(x + y, At(|x| + i)) == (At(|x| + AdvanceImplSpec(y, At(i)).0.n), AdvanceImplSpec(y, At(i)).1)
  {
    var e := LineEnd(y, i);
    LineEndShift(x, y, i);
    assert (x + y)[|x| + i..|x| + e] == y[i..e];
    if e < |y| {
      assert (x + y)[|x| + e] == y[e];
    }
    if e + 1 < |y| {
      assert (x + y)[|x| + e + 1] == y[e + 1];
    }
    assert AfterEol(x + y, |x| + e) == |x| + AfterEol(y, e);
  }

  /** Lines each followed by the same terminator, concatenated. */
  function JoinLines(ls: seq<string>, t: string): string
  {
    if |ls| == 0 then [] else ls[0] + t + JoinLines(ls[1..], t)
  }

  /** Splitting lines joined by "\n" or "\r\n" gives the lines back. */
  lemma {:induction false} SplitJoinedLines(ls: seq<string>, t: string)
    requires forall k :: 0 <= k < |ls| ==> NoEol(ls[k])
    requires t == "\n" || t == "\r\n"
    ensures Lines(JoinLines(ls, t), false) == ls
  {
    if |ls| > 0 {
      var l, tail := ls[0], ls[1..];
      var rest := JoinLines(tail, t);
      var s := JoinLines(ls, t);
      assert s == (l + t) + rest;
      FirstJoinedLine(l, t, rest);
      assert forall k :: 0 <= k < |tail| ==> NoEol(tail[k]) by {
        forall k | 0 <= k < |tail| ensures NoEol(tail[k]) {
          assert tail[k] == ls[k + 1];
        }
      }
      SplitJoinedLines(tail, t);
      assert Lines(s, false) == [l] + tail;
      assert [l] + tail == ls;
    }
  }

  /** A line without terminator followed by "\n" or "\r\n" is the first line, and the split goes on after the terminator. */
  lemma {:induction false} FirstJoinedLine(l: string, t: string, rest: string)
    requires NoEol(l) && (t == "\n" || t == "\r\n")
    ensures Lines((l + t) + rest, false) == [l] + Lines(rest, false)
  {
    var s := (l + t) + rest;
    assert LinesFrom(s, At(0), false) == [l] + LinesFrom(s, At(|l + t|), false) by {
      FirstLineOfJoined(l, t, rest);
    }
    LinesShift(l + t, rest, 0);
  }

  lemma {:induction false} FirstLineOfJoined(l: string, t: string, rest: string)
    requires NoEol(l) && (t == "\n" || t == "\r\n")
    ensures AdvanceImplSpec((l + t) + rest, At(0)) == (At(|l + t|), l)
  {
    var s := (l + t) + rest;
    assert LineEnd(s, 0) == |l| by {
      LineEndShift(l, t + rest, 0);
      assert s == l + (t + rest);
      assert (t + rest)[0] == t[0];
    }
    assert s[|l|] == t[0];
    if t == "\r\n" {
      assert s[|l| + 1] == '\n';
    }
    assert AfterEol(s, |l|) == |l + t|;
    assert s[0..|l|] == l;
  }

  /** `StringLineSplit::Iterator`: a cursor over the lines of a view. */
  class LineIterator {
    const str: StrView
    const dropEmptyLines: bool
    /** The position just after the current line's terminator, or npos at the end. */
    var pos: Pos
    var current: string

    /** Constructed at a position, the iterator immediately advances to the first line from there. */
    constructor(str: StrView, pos: Pos, dropEmptyLines: bool)
      ensures this.str == str && this.dropEmptyLines == dropEmptyLines
      ensures (this.pos, current) == AdvanceSpec(str.text, pos, dropEmptyLines)
    {
      this.str := str;
      this.dropEmptyLines := dropEmptyLines;
      this.pos := pos;
      current := [];
      new;
      Advance();
    }

    /** The lines still to be seen, the current one first; empty once at the end. */
    ghost function Remaining(): seq<string>
      reads this
    {
      if pos.NPos? then [] else [current] + LinesFrom(str.text, pos, dropEmptyLines)
    }

    /** `operator==`: same position and same underlying string start. */
    predicate Equals(other: LineIterator)
      reads this, other
    {
      pos == other.pos && str.data == other.str.data
    }

    /** `operator++`: moves to the next line, consuming the current one. */
    method Next()
      modifies this
      ensures (pos, current) == AdvanceSpec(str.text, old(pos), dropEmptyLines)
      ensures old(pos).At? ==> Remaining() == old(Remaining())[1..]
    {
      Advance();
    }

    method Advance()
      modifies this
      ensures (pos, current) == AdvanceSpec(str.text, old(pos), dropEmptyLines)
    {
      AdvanceImpl();
      while pos.At? && dropEmptyLines && |current| == 0
        invariant pos.NPos? ==> current == []
        invariant pos.At? ==> NoEol(current)
        invariant Continue(str.text, pos, current, dropEmptyLines) == AdvanceSpec(str.text, old(pos), dropEmptyLines)
        decreases Rank(str.text, pos)
      {
        AdvanceImpl();
      }
    }

    method AdvanceImpl()
      modifies this
      ensures (pos, current) == AdvanceImplSpec(str.text, old(pos))
    {
      var s := str.text;
      if pos.NPos? || pos.n >= |s| {
        pos := NPos;
        current := [];
        return;
      }
      var start := pos.n;
      var p := start;
      while p < |s|
        invariant start <= p <= |s|
        invariant LineEnd(s, start) == LineEnd(s, p)
      {
        if s[p] == '\n' || s[p] == '\r' {
          break;
        }
        p := p + 1;
      }
      current := s[start..p];
      if p < |s| {
        if s[p] == '\r' {
          p := p + 1;
          if p < |s| && s[p] == '\n' {
            p := p + 1;
          }
        } else if s[p] == '\n' {
          p := p + 1;
        }
      }
      pos := At(p);
    }
  }

  /** `StringLineSplit`: the range of lines of a view. */
  class StringLineSplit {
    const str: StrView
    const dropEmptyLines: bool

    constructor(str: StrView, dropEmptyLines: bool)
      ensures this.str == str && this.dropEmptyLines == dropEmptyLines
    {
      this.str := str;
      this.dropEmptyLines := dropEmptyLines;
    }

    /** `begin()`: an iterator at position 0, already on the first line. */
    method Begin() returns (it: LineIterator)
      ensures fresh(it) && it.str == str && it.dropEmptyLines == dropEmptyLines
      ensures it.Remaining() == Lines(str.text, dropEmptyLines)
    {
      it := new LineIterator(str, At(0), dropEmptyLines);
    }

    /** `end()`: an iterator at npos. */
    method End() returns (it: LineIterator)
      ensures fresh(it) && it.str == str && it.dropEmptyLines == dropEmptyLines
      ensures it.pos == NPos && it.Remaining() == []
    {
      it := new LineIterator(str, NPos, dropEmptyLines);
    }
  }

  /** Walk a splitter from `begin()` with `++` until it equals `end()`, collecting the lines. */
  method CollectLines(text: StrView, dropEmptyLines: bool) returns (lines: seq<string>)
    ensures lines == Lines(text.text, dropEmptyLines)
  {
    var split := new StringLineSplit(text, dropEmptyLines);
    var it := split.Begin();
    var end := split.End();
    lines := [];
    ghost var all := Lines(text.text, dropEmptyLines);
    while !it.Equals(end)
      invariant it.str == text && it.dropEmptyLines == dropEmptyLines
      invariant end.str == text && end.pos == NPos && it != end
      invariant lines + it.Remaining() == all
      decreases |it.Remaining()|
    {
      ghost var rem, before := it.Remaining(), lines;
      assert rem == [it.current] + rem[1..];
      lines := lines + [it.current];
      it.Next();
      assert lines + it.Remaining() == before + rem by {
        assert it.Remaining() == rem[1..];
      }
    }
  }

  /** `stringSplitIntoLinesVector`: the lines of `StringLineSplit(text, dropEmptyLines)` as a vector. */
  method StringSplitIntoLinesVector(text: StrView, dropEmptyLines: bool) returns (lines: seq<string>)
    ensures lines == Lines(text.text, dropEmptyLines)
    ensures forall k :: 0 <= k < |lines| ==> NoEol(lines[k])
  {
    lines := CollectLines(text, dropEmptyLines);
  }

  // ---------------------------------------------------------------------------
  // End-of-line conversion
  // ---------------------------------------------------------------------------

  datatype EOL = Windows | Linux

  /**
   * The text `changeEOL` appends after each line as written: "\r\n" for Windows, and for
   * Linux the C literal `"\0A"`, whose first character is NUL, so appending it adds nothing.
   */
  function EolAsWritten(eol: EOL): string
  {
    if eol == Windows then "\r\n" else []
  }

  /** The terminator evidently intended: "\r\n" for Windows, "\n" for Linux. */
  function EolIntended(eol: EOL): string
  {
    if eol == Windows then "\r\n" else "\n"
  }

  /** Split keeping empty lines and append `t` after every line. */
  method AppendEachLine(str: StrView, t: string) returns (res: string)
    ensures res == JoinLines(Lines(str.text, false), t)
  {
    var lines := CollectLines(str, false);
    res := [];
    for k := 0 to |lines|
      invariant res + JoinLines(lines[k..], t) == JoinLines(lines, t)
    {
      assert JoinLines(lines[k..], t) == lines[k] + t + JoinLines(lines[k + 1..], t) by {
        assert lines[k..][1..] == lines[k + 1..];
      }
      AppendRegroup(res, lines[k], t, JoinLines(lines[k + 1..], t));
      res := res + lines[k] + t;
    }
    assert lines[|lines|..] == [];
  }

  /** `changeEOL` as written. */
  method ChangeEol(str: StrView, eol: EOL) returns (res: string)
    ensures res == JoinLines(Lines(str.text, false), EolAsWritten(eol))
  {
    res := AppendEachLine(str, EolAsWritten(eol));
  }

  /** `changeEOL` with the Linux terminator spelled "\n". */
  method ChangeEolCorrected(str: StrView, eol: EOL) returns (res: string)
    ensures res == JoinLines(Lines(str.text, false), EolIntended(eol))
    ensures Lines(res, false) == Lines(str.text, false)
  {
    res := AppendEachLine(str, EolIntended(eol));
    SplitJoinedLines(Lines(str.text, false), EolIntended(eol));
  }

  /** For Windows the conversion as written keeps the lines: splitting its output gives the input's lines. */
  lemma ChangeEolWindowsKeepsLines(s: string)
    ensures Lines(JoinLines(Lines(s, false), EolAsWritten(Windows)), false) == Lines(s, false)
  {
    SplitJoinedLines(Lines(s, false), "\r\n");
  }

  /** For Linux the conversion as written joins the lines: "a\nb" becomes "ab", a single line. */
  lemma ChangeEolLinuxJoinsLines()
    ensures Lines("a\nb", false) == ["a", "b"]
    ensures JoinLines(Lines("a\nb", false), EolAsWritten(Linux)) == "ab"
    ensures Lines("ab", false) == ["ab"]
  {
    var s := "a\nb";
    assert s[1] == '\n' && s[0] == 'a' && s[2] == 'b';
    assert LineEnd(s, 1) == 1;
    assert LineEnd(s, 0) == 1;
    assert AfterEol(s, 1) == 2;
    assert s[0..1] == "a";
    assert AdvanceImplSpec(s, At(0)) == (At(2), "a");
    assert LineEnd(s, 3) == 3;
    assert LineEnd(s, 2) == 3;
    assert AfterEol(s, 3) == 3;
    assert s[2..3] == "b";
    assert AdvanceImplSpec(s, At(2)) == (At(3), "b");
    assert AdvanceImplSpec(s, At(3)) == (NPos, []);
    assert LinesFrom(s, At(3), false) == [];
    assert LinesFrom(s, At(2), false) == ["b"];
    var t := "ab";
    assert t[0] == 'a' && t[1] == 'b';
    assert LineEnd(t, 2) == 2;
    assert LineEnd(t, 1) == 2;
    assert LineEnd(t, 0) == 2;
    assert AfterEol(t, 2) == 2;
    assert t[0..2] == t;
    assert AdvanceImplSpec(t, At(0)) == (At(2), "ab");
    assert LinesFrom(t, At(2), false) == [];
  }
}
