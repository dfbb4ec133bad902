/** The JavaScript built-ins that server.js relies on: `trim`, `toLowerCase`,
    `startsWith` and `split` with a one-character separator (with the separator
    search inside it, `IndexOf`), and the array methods `find` and `map`. Strings
    are sequences of characters; letter case is folded for ASCII letters only. */
module JsText {
  import opened Wrappers

  /** The characters removed by `String.prototype.trim` and matched by the
      regular-expression class `\s`: ECMAScript's WhiteSpace and LineTerminator sets. */
  predicate IsSpace(c: char) {
    if c <= ' ' then c == ' ' || '\t' <= c <= '\r'
    else if c < '\U{00A0}' then false
    else
      c == '\U{00A0}' || c == '\U{1680}' || '\U{2000}' <= c <= '\U{200A}'
      || c == '\U{2028}' || c == '\U{2029}' || c == '\U{202F}' || c == '\U{205F}'
      || c == '\U{3000}' || c == '\U{FEFF}'
  }

  predicate AllSpace(s: string) {
    forall i :: 0 <= i < |s| ==> IsSpace(s[i])
  }

  /** The end of the run of white space that starts at `from`. */
  function SkipSpaces(s: string, from: nat): (r: nat)
    requires from <= |s|
    ensures from <= r <= |s|
    ensures forall k :: from <= k < r ==> IsSpace(s[k])
    ensures r == |s| || !IsSpace(s[r])
    decreases |s| - from
  {
    if from < |s| && IsSpace(s[from]) then SkipSpaces(s, from + 1) else from
  }

  /** A run of white space that stops at `to` is the one `SkipSpaces` finds. */
  lemma SkipSpacesTo(s: string, from: nat, to: nat)
    requires from <= to <= |s|
    requires forall k :: from <= k < to ==> IsSpace(s[k])
    requires to == |s| || !IsSpace(s[to])
    ensures SkipSpaces(s, from) == to
  {
  }

  /** The start of the run of white space that ends at `to`. */
  function SkipSpacesBack(s: string, to: nat): (r: nat)
    requires to <= |s|
    ensures r <= to
    ensures forall k :: r <= k < to ==> IsSpace(s[k])
    ensures r == 0 || !IsSpace(s[r - 1])
  {
    if to > 0 && IsSpace(s[to - 1]) then SkipSpacesBack(s, to - 1) else to
  }

  /** `s.trimStart()`. */
  function TrimStart(s: string): (r: string)
    ensures |r| <= |s| && r == s[|s| - |r|..]
    ensures AllSpace(s[..|s| - |r|])
    ensures r == [] || !IsSpace(r[0])
  {
    s[SkipSpaces(s, 0)..]
  }

  /** `s.trimEnd()`. */
  function TrimEnd(s: string): (r: string)
    ensures |r| <= |s| && r == s[..|r|]
    ensures AllSpace(s[|r|..])
    ensures r == [] || !IsSpace(r[|r| - 1])
  {
    s[..SkipSpacesBack(s, |s|)]
  }

  /** `s.trim()`: the result neither starts nor ends with white space, and a string
      that already neither starts nor ends with white space is returned unchanged. */
  function Trim(s: string): (r: string)
    ensures |r| <= |s|
    ensures r == [] || (!IsSpace(r[0]) && !IsSpace(r[|r| - 1]))
    ensures (s == [] || (!IsSpace(s[0]) && !IsSpace(s[|s| - 1]))) ==> r == s
  {
    var front := TrimStart(s);
    var r := TrimEnd(front);
    assert r != [] ==> r[0] == front[0];
    r
  }

  /** Trimming removes white space and nothing else: the result is the middle of `s`,
      with only white space in front of it and behind it. */
  lemma TrimRemovesOnlySpace(s: string)
    ensures var i := SkipSpaces(s, 0); var r := Trim(s);
      i + |r| <= |s| && r == s[i..i + |r|] && AllSpace(s[..i]) && AllSpace(s[i + |r|..])
  {
    var i := SkipSpaces(s, 0);
    var front := TrimStart(s);
    assert front == s[i..];
    var r := TrimEnd(front);
    assert r == s[i..i + |r|];
    assert forall k :: i + |r| <= k < |s| ==> s[k] == front[k - i];
  }

  /** `xs.find(p)`, given as the index of the element it returns: the first element
      that passes `p`, or none when no element does. */
  function FindFirst<T>(xs: seq<T>, p: T -> bool): (r: Option<nat>)
    ensures r.Some? ==> r.value < |xs| && p(xs[r.value])
    ensures r.Some? ==> forall j :: 0 <= j < r.value ==> !p(xs[j])
    ensures r.None? <==> forall j :: 0 <= j < |xs| ==> !p(xs[j])
  {
    if |xs| == 0 then None
    else if p(xs[0]) then Some(0)
    else match FindFirst(xs[1..], p)
      case None => None
      case Some(k) => Some(k + 1)
  }

  /** The first match in `xs + ys` is that of `xs` when `xs` has one. */
  lemma {:induction false} FindFirstInFront<T>(xs: seq<T>, ys: seq<T>, p: T -> bool)
    requires FindFirst(xs, p).Some?
    ensures FindFirst(xs + ys, p) == FindFirst(xs, p)
  {
    assert (xs + ys)[0] == xs[0];
    if !p(xs[0]) {
      assert (xs + ys)[1..] == xs[1..] + ys;
      FindFirstInFront(xs[1..], ys, p);
    }
  }

  /** When `xs` has no match, the first match in `xs + ys` is that of `ys`, shifted. */
  lemma {:induction false} FindFirstBehind<T>(xs: seq<T>, ys: seq<T>, p: T -> bool)
    requires FindFirst(xs, p).None?
    ensures FindFirst(xs + ys, p) == match FindFirst(ys, p)
      case None => None
      case Some(k) => Some(|xs| + k)
  {
    if |xs| == 0 {
      assert xs + ys == ys;
    } else {
      assert (xs + ys)[0] == xs[0];
      assert (xs + ys)[1..] == xs[1..] + ys;
      FindFirstBehind(xs[1..], ys, p);
    }
  }

  /** `xs.map(f)`. */
  function Map<T, U>(xs: seq<T>, f: T -> U): (r: seq<U>)
    ensures |r| == |xs|
    ensures forall i :: 0 <= i < |xs| ==> r[i] == f(xs[i])
  {
    seq(|xs|, i requires 0 <= i < |xs| => f(xs[i]))
  }

  /** Mapping distributes over concatenation. */
  lemma MapConcat<T, U>(xs: seq<T>, ys: seq<T>, f: T -> U)
    ensures Map(xs + ys, f) == Map(xs, f) + Map(ys, f)
  {
    var whole, front, back := Map(xs + ys, f), Map(xs, f), Map(ys, f);
    forall i | 0 <= i < |whole| ensures whole[i] == (front + back)[i] {
      if i < |xs| {
        assert (xs + ys)[i] == xs[i];
      } else {
        assert (xs + ys)[i] == ys[i - |xs|];
      }
    }
  }

  predicate IsUpperAscii(c: char) {
    'A' <= c <= 'Z'
  }

  /** ASCII case folding of one character. */
  function LowerChar(c: char): (r: char)
    ensures !IsUpperAscii(r)
    ensures IsUpperAscii(c) ==> r as int == c as int + 32
    ensures !IsUpperAscii(c) ==> r == c
  {
    if IsUpperAscii(c) then (c as int + 32) as char else c
  }

  /** `s.toLowerCase()`, restricted to ASCII letters. */
  function ToLower(s: string): (r: string)
    ensures |r| == |s|
    ensures forall i :: 0 <= i < |s| ==> r[i] == LowerChar(s[i])
    ensures NoUpperAscii(r)
  {
    seq(|s|, i requires 0 <= i < |s| => LowerChar(s[i]))
  }

  predicate NoUpperAscii(s: string) {
    forall i :: 0 <= i < |s| ==> !IsUpperAscii(s[i])
  }

  lemma NoUpperAsciiSuffix(s: string, r: string)
    requires NoUpperAscii(s) && |r| <= |s| && r == s[|s| - |r|..]
    ensures NoUpperAscii(r)
  {
    forall i | 0 <= i < |r| ensures !IsUpperAscii(r[i]) {
      assert r[i] == s[|s| - |r| + i];
    }
  }

  lemma NoUpperAsciiPrefix(s: string, r: string)
    requires NoUpperAscii(s) && |r| <= |s| && r == s[..|r|]
    ensures NoUpperAscii(r)
  {
    forall i | 0 <= i < |r| ensures !IsUpperAscii(r[i]) {
      assert r[i] == s[i];
    }
  }

  /** `s.startsWith(p)`. */
  predicate StartsWith(s: string, p: string) {
    |p| <= |s| && s[..|p|] == p
  }

  /** The separator search inside a one-character `split`: the position of the first
      occurrence of `c`, if any. */
  function IndexOf(s: string, c: char): (r: Option<nat>)
    ensures r.Some? ==> r.value < |s| && s[r.value] == c
    ensures r.Some? ==> forall k :: 0 <= k < r.value ==> s[k] != c
    ensures r.None? <==> c !in s
  {
    if |s| == 0 then None
    else if s[0] == c then Some(0)
    else match IndexOf(s[1..], c)
      case None => None
      case Some(i) => Some(i + 1)
  }

  /** An occurrence with none before it is the first one. */
  lemma IndexOfAt(s: string, c: char, i: nat)
    requires i < |s| && s[i] == c
    requires forall k :: 0 <= k < i ==> s[k] != c
    ensures IndexOf(s, c) == Some(i)
  {
  }

  /** The first `c` in `a + [c] + b` is the first in `a`, or the one added after `a`. */
  lemma {:induction false} IndexOfConcat(a: string, b: string, c: char)
    ensures IndexOf(a + [c] + b, c) == match IndexOf(a, c)
      case None => Some(|a|)
      case Some(i) => Some(i)
  {
    var s := a + [c] + b;
    if |a| == 0 {
      assert s[0] == c;
    } else {
      assert s[0] == a[0];
      if a[0] != c {
        assert s[1..] == a[1..] + [c] + b;
        IndexOfConcat(a[1..], b, c);
      }
    }
  }

  /** `s.split(sep)` for a one-character separator: the pieces between
      consecutive occurrences of `sep`, from left to right. */
  function SplitOn(s: string, sep: char): (r: seq<string>)
    ensures |r| >= 1
    ensures forall k :: 0 <= k < |r| ==> sep !in r[k]
    ensures |r[0]| <= |s| && r[0] == s[..|r[0]|]
    decreases |s|
  {
    match IndexOf(s, sep)
    case None => [s]
    case Some(i) => [s[..i]] + SplitOn(s[i + 1..], sep)
  }

  /** `pieces.join(sep)`: the inverse of `SplitOn`. */
  function Join(pieces: seq<string>, sep: char): string
    requires |pieces| >= 1
  {
    if |pieces| == 1 then pieces[0] else pieces[0] + [sep] + Join(pieces[1..], sep)
  }

  /** Joining the pieces of a split gives back the original string. */
  lemma {:induction false} JoinSplitOn(s: string, sep: char)
    ensures Join(SplitOn(s, sep), sep) == s
    decreases |s|
  {
    match IndexOf(s, sep)
    case None =>
    case Some(i) =>
      var rest := s[i + 1..];
      var pieces := SplitOn(s, sep);
      assert pieces[1..] == SplitOn(rest, sep);
      JoinSplitOn(rest, sep);
      assert s == s[..i] + [sep] + rest;
  }

  /** Splitting a join of separator-free pieces gives back the pieces. */
  lemma {:induction false} SplitOnJoin(pieces: seq<string>, sep: char)
    requires |pieces| >= 1
    requires forall k :: 0 <= k < |pieces| ==> sep !in pieces[k]
    ensures SplitOn(Join(pieces, sep), sep) == pieces
    decreases |pieces|
  {
    var first := pieces[0];
    assert sep !in first;
    if |pieces| == 1 {
      SplitOnWhole(first, sep);
    } else {
      var rest := Join(pieces[1..], sep);
      IndexOfConcat(first, rest, sep);
      SplitOnAt(first + [sep] + rest, sep, |first|);
      ConcatAround(first, rest, sep, |first|);
      assert first[..|first|] == first;
      SplitOnJoin(pieces[1..], sep);
      assert pieces == [first] + pieces[1..];
    }
  }

  /** `x + (y + z) == (x + y) + z`, which the solver does not find unaided in the
      larger split proofs. */
  lemma AppendAssoc<T>(x: seq<T>, y: seq<T>, z: seq<T>)
    ensures x + (y + z) == (x + y) + z
  {
  }

  /** A string is its three slices put back together. */
  lemma Slices<T>(s: seq<T>, i: nat, j: nat)
    requires i <= j <= |s|
    ensures s == s[..i] + s[i..j] + s[j..]
  {
  }

  /** A string with a separator splits at its first one. */
  lemma SplitOnAt(s: string, sep: char, i: nat)
    requires IndexOf(s, sep) == Some(i)
    ensures SplitOn(s, sep) == [s[..i]] + SplitOn(s[i + 1..], sep)
  {
  }

  /** A string without a separator is its own only piece. */
  lemma SplitOnWhole(s: string, sep: char)
    requires IndexOf(s, sep) == None
    ensures SplitOn(s, sep) == [s]
  {
  }

  /** What lies on either side of a separator of `a + [sep] + b`. */
  lemma ConcatAround(a: string, b: string, sep: char, i: nat)
    requires i <= |a| && (i == |a| || a[i] == sep)
    ensures (a + [sep] + b)[..i] == a[..i]
    ensures i < |a| ==> (a + [sep] + b)[i + 1..] == a[i + 1..] + [sep] + b
    ensures i == |a| ==> (a + [sep] + b)[i + 1..] == b
  {
  }

  /** Splitting `a + sep + b` splits `a` and `b` independently. */
  lemma {:induction false} SplitOnConcat(a: string, b: string, sep: char)
    ensures SplitOn(a + [sep] + b, sep) == SplitOn(a, sep) + SplitOn(b, sep)
    decreases |a|
  {
    var s := a + [sep] + b;
    IndexOfConcat(a, b, sep);
    match IndexOf(a, sep)
    case None =>
      SplitOnAt(s, sep, |a|);
      SplitOnWhole(a, sep);
      ConcatAround(a, b, sep, |a|);
      assert a[..|a|] == a;
    case Some(i) =>
      var tail := a[i + 1..];
      SplitOnAt(s, sep, i);
      SplitOnAt(a, sep, i);
      ConcatAround(a, b, sep, i);
      SplitOnConcat(tail, b, sep);
      AppendAssoc([a[..i]], SplitOn(tail, sep), SplitOn(b, sep));
  }
}
