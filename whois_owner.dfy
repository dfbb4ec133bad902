/** The owner extraction run on the output of `whois <ip>` (the callback in
    `whoisIP`, server.js lines 13-26). */
module WhoisOwner {
  import opened Wrappers
  import opened JsText

  /** What the callback resolves with when `exec` reports an error. */
  const WhoisFailed: string := "WHOIS failed."
  /** What the callback resolves with when no line names an owner. */
  const OwnerNotFound: string := "Owner info not found."

  /** The field names of the pattern, in the order written; matched without regard
      to ASCII case, so "OrgName" and "Orgname" are the same alternative. */
  const OwnerFields: seq<string> := ["OrgName", "Org-Name", "Orgname", "netname", "owner", "CustName", "descr"]

  /** The outcome of the `whois` child process: an error, or its standard output. */
  datatype ExecOutcome = ExecFailed | ExecOk(stdout: string)

  /** The one way extraction goes wrong: the matched line has no piece after its
      first colon-plus-white-space, so `org` is undefined and `org.trim()` throws. */
  datatype ParseError = OwnerValueUndefined(line: string)

  /** `line` starts with `name` (ASCII case ignored) directly followed by a colon. */
  predicate IsFieldLine(line: string, name: string) {
    |name| < |line| && line[|name|] == ':'
    && forall i :: 0 <= i < |name| ==> LowerChar(line[i]) == LowerChar(name[i])
  }

  /** The test `/^(OrgName|Org-Name|Orgname|netname|owner|CustName|descr):/i`. */
  predicate IsOwnerLine(line: string) {
    exists name :: name in OwnerFields && IsFieldLine(line, name)
  }

  /** `lines.find(...)` with the owner test, given as the index of the line it returns. */
  function FindOwnerLine(lines: seq<string>): (r: Option<nat>)
    ensures r.Some? ==> r.value < |lines| && IsOwnerLine(lines[r.value])
    ensures r.Some? ==> forall j :: 0 <= j < r.value ==> !IsOwnerLine(lines[j])
    ensures r.None? <==> forall j :: 0 <= j < |lines| ==> !IsOwnerLine(lines[j])
  {
    FindFirst(lines, IsOwnerLine)
  }

  /** A match of `/:\s+/` at position `i`: a colon followed by white space. */
  predicate IsSeparatorAt(s: string, i: int) {
    0 <= i && i + 1 < |s| && s[i] == ':' && IsSpace(s[i + 1])
  }

  predicate HasSeparator(s: string) {
    exists i :: 0 <= i < |s| && IsSeparatorAt(s, i)
  }

  /** The leftmost match of `/:\s+/` at or after `from`. */
  function FindSeparator(s: string, from: nat): (r: Option<nat>)
    requires from <= |s|
    ensures r.Some? ==> from <= r.value && IsSeparatorAt(s, r.value)
    ensures r.Some? ==> forall k :: from <= k < r.value ==> !IsSeparatorAt(s, k)
    ensures r.None? <==> forall k :: from <= k < |s| ==> !IsSeparatorAt(s, k)
    decreases |s| - from
  {
    if from + 1 >= |s| then None
    else if IsSeparatorAt(s, from) then Some(from)
    else FindSeparator(s, from + 1)
  }

  /** `s.split(/:\s+/)`: the pieces between the successive leftmost, greedy matches
      of a colon followed by white space. */
  function SplitColonSpace(s: string): (r: seq<string>)
    ensures |r| >= 1
    ensures |r| == 1 <==> !HasSeparator(s)
    decreases |s|
  {
    match FindSeparator(s, 0)
    case None => [s]
    case Some(i) => [s[..i]] + SplitColonSpace(s[SkipSpaces(s, i + 1)..])
  }

  /** The separators `SplitColonSpace` removes, in order: what matched `/:\s+/`. */
  ghost function ColonSpaceRuns(s: string): seq<string>
    decreases |s|
  {
    match FindSeparator(s, 0)
    case None => []
    case Some(i) =>
      var j := SkipSpaces(s, i + 1);
      [s[i..j]] + ColonSpaceRuns(s[j..])
  }

  /** Puts the pieces of a split back together with the separators between them. */
  ghost function Interleave(pieces: seq<string>, runs: seq<string>): string
    requires |runs| + 1 == |pieces|
    decreases |runs|
  {
    if |runs| == 0 then pieces[0] else pieces[0] + runs[0] + Interleave(pieces[1..], runs[1..])
  }

  /** A maximal run that `/:\s+/` matches: a colon followed by one or more spaces. */
  ghost predicate IsColonSpaceRun(run: string) {
    |run| >= 2 && run[0] == ':' && AllSpace(run[1..])
  }

  /** One step of the split: the piece before the leftmost match, the match, and the
      split of what follows it. */
  lemma SplitColonSpaceStep(s: string, i: nat)
    requires FindSeparator(s, 0) == Some(i)
    ensures var j := SkipSpaces(s, i + 1);
      SplitColonSpace(s) == [s[..i]] + SplitColonSpace(s[j..])
      && ColonSpaceRuns(s) == [s[i..j]] + ColonSpaceRuns(s[j..])
  {
  }

  /** Interleaving after one more piece and run puts them in front. */
  lemma InterleaveCons(piece: string, run: string, pieces: seq<string>, runs: seq<string>)
    requires |runs| + 1 == |pieces|
    ensures Interleave([piece] + pieces, [run] + runs) == piece + run + Interleave(pieces, runs)
  {
    assert ([piece] + pieces)[1..] == pieces;
    assert ([run] + runs)[1..] == runs;
  }

  /** The pieces and the runs of a split rebuild the line. */
  lemma {:induction false} SplitColonSpaceRebuilds(s: string)
    ensures |ColonSpaceRuns(s)| + 1 == |SplitColonSpace(s)|
    ensures Interleave(SplitColonSpace(s), ColonSpaceRuns(s)) == s
    decreases |s|
  {
    match FindSeparator(s, 0)
    case None =>
    case Some(i) =>
      var j := SkipSpaces(s, i + 1);
      SplitColonSpaceStep(s, i);
      SplitColonSpaceRebuilds(s[j..]);
      InterleaveCons(s[..i], s[i..j], SplitColonSpace(s[j..]), ColonSpaceRuns(s[j..]));
      Slices(s, i, j);
  }

  /** The leftmost match, extended over the white space after it, is a run. */
  lemma RunAt(s: string, i: nat)
    requires IsSeparatorAt(s, i)
    ensures IsColonSpaceRun(s[i..SkipSpaces(s, i + 1)])
  {
    var j := SkipSpaces(s, i + 1);
    var run := s[i..j];
    forall m | 0 <= m < |run[1..]| ensures IsSpace(run[1..][m]) {
      assert run[1..][m] == s[i + 1 + m];
    }
  }

  /** Every run a split removes is a colon followed by white space. */
  lemma {:induction false} SplitColonSpaceRuns(s: string)
    ensures forall k :: 0 <= k < |ColonSpaceRuns(s)| ==> IsColonSpaceRun(ColonSpaceRuns(s)[k])
    decreases |s|
  {
    match FindSeparator(s, 0)
    case None =>
    case Some(i) =>
      var j := SkipSpaces(s, i + 1);
      SplitColonSpaceStep(s, i);
      SplitColonSpaceRuns(s[j..]);
      RunAt(s, i);
      var runs, rest := ColonSpaceRuns(s), ColonSpaceRuns(s[j..]);
      forall k | 0 <= k < |runs| ensures IsColonSpaceRun(runs[k]) {
        if k > 0 {
          assert runs[k] == rest[k - 1];
        }
      }
  }

  /** What precedes the leftmost match holds no match. */
  lemma NoSeparatorBefore(s: string, i: nat)
    requires FindSeparator(s, 0) == Some(i)
    ensures !HasSeparator(s[..i])
  {
    forall m | IsSeparatorAt(s[..i], m) ensures false {
      assert IsSeparatorAt(s, m);
    }
  }

  /** Putting a clean piece in front of clean pieces keeps them all clean. */
  lemma CleanCons(first: string, rest: seq<string>)
    requires !HasSeparator(first)
    requires forall k :: 0 <= k < |rest| ==> !HasSeparator(rest[k])
    ensures forall k :: 0 <= k < |[first] + rest| ==> !HasSeparator(([first] + rest)[k])
  {
    var pieces := [first] + rest;
    forall k | 0 <= k < |pieces| ensures !HasSeparator(pieces[k]) {
      if k > 0 {
        assert pieces[k] == rest[k - 1];
      }
    }
  }

  /** No piece of a split holds a colon followed by white space. */
  lemma {:induction false} SplitColonSpaceClean(s: string)
    ensures forall k :: 0 <= k < |SplitColonSpace(s)| ==> !HasSeparator(SplitColonSpace(s)[k])
    decreases |s|
  {
    match FindSeparator(s, 0)
    case None =>
    case Some(i) =>
      var j := SkipSpaces(s, i + 1);
      SplitColonSpaceStep(s, i);
      SplitColonSpaceClean(s[j..]);
      NoSeparatorBefore(s, i);
      CleanCons(s[..i], SplitColonSpace(s[j..]));
  }

  /** The first piece of a split starts where the string does. */
  lemma FirstPieceStart(t: string)
    ensures SplitColonSpace(t)[0] == [] || SplitColonSpace(t)[0][0] == t[0]
  {
    match FindSeparator(t, 0)
    case None =>
    case Some(i) =>
      SplitColonSpaceStep(t, i);
  }

  /** A piece that does not start with white space. */
  predicate StartsWithoutSpace(piece: string) {
    piece == [] || !IsSpace(piece[0])
  }

  /** Putting a piece in front keeps every piece after the first one clean. */
  lemma GreedyCons(first: string, rest: seq<string>)
    requires |rest| >= 1 && StartsWithoutSpace(rest[0])
    requires forall k :: 1 <= k < |rest| ==> StartsWithoutSpace(rest[k])
    ensures forall k :: 1 <= k < |[first] + rest| ==> StartsWithoutSpace(([first] + rest)[k])
  {
    var pieces := [first] + rest;
    forall k | 1 <= k < |pieces| ensures StartsWithoutSpace(pieces[k]) {
      assert pieces[k] == rest[k - 1];
    }
  }

  /** Every run is greedy: no piece after the first starts with white space. */
  lemma {:induction false} SplitColonSpaceGreedy(s: string)
    ensures forall k :: 1 <= k < |SplitColonSpace(s)| ==> StartsWithoutSpace(SplitColonSpace(s)[k])
    decreases |s|
  {
    match FindSeparator(s, 0)
    case None =>
    case Some(i) =>
      var j := SkipSpaces(s, i + 1);
      SplitColonSpaceStep(s, i);
      SplitColonSpaceGreedy(s[j..]);
      FirstPieceStart(s[j..]);
      GreedyCons(s[..i], SplitColonSpace(s[j..]));
  }

  /** `SplitColonSpace` is the split JavaScript performs: the pieces and the runs
      rebuild the line, every run is a colon followed by white space, no piece contains
      such a pair, and each run is greedy (the piece after it does not start with
      white space). */
  lemma SplitColonSpaceSound(s: string)
    ensures |ColonSpaceRuns(s)| + 1 == |SplitColonSpace(s)|
    ensures Interleave(SplitColonSpace(s), ColonSpaceRuns(s)) == s
    ensures forall k :: 0 <= k < |SplitColonSpace(s)| ==> !HasSeparator(SplitColonSpace(s)[k])
    ensures forall k :: 0 <= k < |ColonSpaceRuns(s)| ==> IsColonSpaceRun(ColonSpaceRuns(s)[k])
    ensures forall k :: 1 <= k < |SplitColonSpace(s)| ==> StartsWithoutSpace(SplitColonSpace(s)[k])
  {
    SplitColonSpaceRebuilds(s);
    SplitColonSpaceClean(s);
    SplitColonSpaceRuns(s);
    SplitColonSpaceGreedy(s);
  }

  /** The value of an owner line: `const [, org] = line.split(/:\s+/)` followed by
      `org.trim()`, which throws when there is no second piece. */
  function OwnerValue(line: string): (r: Result<string, ParseError>)
    ensures r.Err? <==> !HasSeparator(line)
    ensures r.Err? ==> r.error == OwnerValueUndefined(line)
  {
    var pieces := SplitColonSpace(line);
    if |pieces| < 2 then Err(OwnerValueUndefined(line)) else Ok(Trim(pieces[1]))
  }

  /** `stdout.split("\n").map(line => line.trim())`. */
  function TrimmedLines(text: string): (lines: seq<string>)
    ensures |lines| == |SplitOn(text, '\n')|
    ensures forall i :: 0 <= i < |lines| ==> lines[i] == Trim(SplitOn(text, '\n')[i])
  {
    Map(SplitOn(text, '\n'), Trim)
  }

  /** The `find` over the trimmed lines and what the callback does with its result. */
  function OwnerOfLines(lines: seq<string>): (r: Result<string, ParseError>)
  {
    match FindOwnerLine(lines)
    case None => Ok(OwnerNotFound)
    case Some(i) => OwnerValue(lines[i])
  }

  /** The owner extraction applied to the text `whois` printed. */
  function ParseOwner(text: string): (r: Result<string, ParseError>)
    ensures FindOwnerLine(TrimmedLines(text)).None? ==> r == Ok(OwnerNotFound)
    ensures r.Err? <==> (FindOwnerLine(TrimmedLines(text)).Some?
      && !HasSeparator(TrimmedLines(text)[FindOwnerLine(TrimmedLines(text)).value]))
  {
    OwnerOfLines(TrimmedLines(text))
  }

  /** Without an owner line the result is the "not found" sentinel, and the extraction
      throws only for an owner line with no colon-plus-white-space in it. */
  lemma ParseOwnerOutcomes(text: string)
    ensures (forall i :: 0 <= i < |TrimmedLines(text)| ==> !IsOwnerLine(TrimmedLines(text)[i])) ==>
      ParseOwner(text) == Ok(OwnerNotFound)
    ensures ParseOwner(text).Err? ==>
      exists i :: 0 <= i < |TrimmedLines(text)| && IsOwnerLine(TrimmedLines(text)[i]) && !HasSeparator(TrimmedLines(text)[i])
  {
  }

  /** What `whoisIP` resolves with (Ok) or throws inside its callback (Err). */
  function WhoisIP(outcome: ExecOutcome): (r: Result<string, ParseError>)
    ensures outcome.ExecFailed? ==> r == Ok(WhoisFailed)
    ensures outcome.ExecOk? ==> r == ParseOwner(outcome.stdout)
  {
    match outcome
    case ExecFailed => Ok(WhoisFailed)
    case ExecOk(stdout) => ParseOwner(stdout)
  }

  /** Splitting `a + "\n" + b` into trimmed lines gives the lines of `a`, then those of `b`. */
  lemma TrimmedLinesConcat(a: string, b: string)
    ensures TrimmedLines(a + "\n" + b) == TrimmedLines(a) + TrimmedLines(b)
  {
    assert a + "\n" + b == a + ['\n'] + b;
    SplitOnConcat(a, b, '\n');
    MapConcat(SplitOn(a, '\n'), SplitOn(b, '\n'), Trim);
  }

  /** The first owner line of `xs + ys` is that of `xs` when `xs` has one. */
  lemma FindOwnerLineInFront(xs: seq<string>, ys: seq<string>)
    requires FindOwnerLine(xs).Some?
    ensures FindOwnerLine(xs + ys) == FindOwnerLine(xs)
  {
    FindFirstInFront(xs, ys, IsOwnerLine);
  }

  /** When `xs` has no owner line, the first owner line of `xs + ys` is that of `ys`. */
  lemma FindOwnerLineBehind(xs: seq<string>, ys: seq<string>)
    requires FindOwnerLine(xs).None?
    ensures FindOwnerLine(xs + ys) == match FindOwnerLine(ys)
      case None => None
      case Some(k) => Some(|xs| + k)
  {
    FindFirstBehind(xs, ys, IsOwnerLine);
  }

  /** Lines behind the first owner line do not change the outcome. */
  lemma OwnerOfLinesInFront(xs: seq<string>, ys: seq<string>)
    requires FindOwnerLine(xs).Some?
    ensures OwnerOfLines(xs + ys) == OwnerOfLines(xs)
  {
    FindOwnerLineInFront(xs, ys);
    var i := FindOwnerLine(xs).value;
    assert (xs + ys)[i] == xs[i];
  }

  /** Lines in front that name no owner do not change the outcome. */
  lemma OwnerOfLinesBehind(xs: seq<string>, ys: seq<string>)
    requires FindOwnerLine(xs).None?
    ensures OwnerOfLines(xs + ys) == OwnerOfLines(ys)
  {
    FindOwnerLineBehind(xs, ys);
    match FindOwnerLine(ys)
    case None =>
    case Some(k) =>
      assert (xs + ys)[|xs| + k] == ys[k];
  }

  /** First match wins: once a line of `text` names an owner, whatever follows it is
      never consulted. */
  lemma ParseOwnerIgnoresLaterLines(text: string, more: string)
    requires FindOwnerLine(TrimmedLines(text)).Some?
    ensures ParseOwner(text + "\n" + more) == ParseOwner(text)
  {
    TrimmedLinesConcat(text, more);
    OwnerOfLinesInFront(TrimmedLines(text), TrimmedLines(more));
  }

  /** Lines that name no owner are skipped: they do not change the result. */
  lemma ParseOwnerSkipsOtherLines(prefix: string, text: string)
    requires FindOwnerLine(TrimmedLines(prefix)).None?
    ensures ParseOwner(prefix + "\n" + text) == ParseOwner(text)
  {
    TrimmedLinesConcat(prefix, text);
    OwnerOfLinesBehind(TrimmedLines(prefix), TrimmedLines(text));
  }

  /** A line that stands alone: non-empty, without a line break and without white
      space at either end. */
  predicate IsBareLine(line: string) {
    line != [] && !IsSpace(line[0]) && !IsSpace(line[|line| - 1]) && '\n' !in line
  }

  /** A bare line is the only line of its own text. */
  lemma TrimmedLinesOfOneLine(line: string)
    requires IsBareLine(line)
    ensures TrimmedLines(line) == [line]
  {
    SplitOnWhole(line, '\n');
  }

  /** A bare line on its own yields its owner value when it is an owner line, and the
      "not found" sentinel otherwise. */
  lemma ParseOwnerOfOneLine(line: string)
    requires IsBareLine(line)
    ensures FindOwnerLine(TrimmedLines(line)) == if IsOwnerLine(line) then Some(0) else None
    ensures ParseOwner(line) == if IsOwnerLine(line) then OwnerValue(line) else Ok(OwnerNotFound)
  {
    TrimmedLinesOfOneLine(line);
    assert [line][0] == line;
    assert [line][1..] == [];
  }

  /** A value that the parser can carry unchanged: non-empty, on one line, without
      surrounding white space and without a colon-plus-white-space of its own. */
  predicate IsPlainValue(value: string) {
    IsBareLine(value) && !HasSeparator(value)
  }

  /** What may follow an owner value on its line: nothing, or a colon-plus-white-space
      and more text. */
  predicate IsValueTail(rest: string) {
    rest == [] || (IsSeparatorAt(rest, 0) && '\n' !in rest && !IsSpace(rest[|rest| - 1]))
  }

  /** A plain value followed by a tail is the first piece of its split. */
  lemma SplitValueTail(value: string, rest: string)
    requires IsPlainValue(value) && IsValueTail(rest)
    ensures SplitColonSpace(value + rest)[0] == value
  {
    var s := value + rest;
    if rest == [] {
      assert s == value;
      assert SplitColonSpace(value) == [value];
    } else {
      forall k | 0 <= k < |value| ensures !IsSeparatorAt(s, k) {
        if k + 1 < |value| {
          assert s[k] == value[k] && s[k + 1] == value[k + 1];
          assert !IsSeparatorAt(value, k);
        } else {
          assert s[k + 1] == rest[0];
        }
      }
      assert IsSeparatorAt(s, |value|);
      assert FindSeparator(s, 0) == Some(|value|);
      SplitColonSpaceStep(s, |value|);
      assert s[..|value|] == value;
    }
  }

  /** A match with none before it is the leftmost one. */
  lemma FindSeparatorAt(s: string, i: nat)
    requires IsSeparatorAt(s, i)
    requires forall k :: 0 <= k < i ==> !IsSeparatorAt(s, k)
    ensures FindSeparator(s, 0) == Some(i)
  {
  }

  /** In `<name>:<gap><tail>` the leftmost match is the colon after the name. */
  lemma FieldLineColon(name: string, gap: string, tail: string)
    requires ':' !in name
    requires gap != []
    requires IsSpace(gap[0])
    ensures FindSeparator(name + ":" + gap + tail, 0) == Some(|name|)
  {
    var line := name + ":" + gap + tail;
    assert line[|name|] == ':' && line[|name| + 1] == gap[0];
    forall k | 0 <= k < |name| ensures !IsSeparatorAt(line, k) {
      assert line[k] == name[k];
    }
    FindSeparatorAt(line, |name|);
  }

  /** In `<head><gap><tail>` the run of white space from the end of `head` covers
      the whole gap and stops at the tail. */
  lemma SkipGap(head: string, gap: string, tail: string)
    requires AllSpace(gap)
    requires tail == [] || !IsSpace(tail[0])
    ensures SkipSpaces(head + gap + tail, |head|) == |head| + |gap|
    ensures (head + gap + tail)[|head| + |gap|..] == tail
  {
    var line := head + gap + tail;
    var v := |head| + |gap|;
    forall k | |head| <= k < v ensures IsSpace(line[k]) {
      assert line[k] == gap[k - |head|];
    }
    if tail != [] {
      assert line[v] == tail[0];
    }
    SkipSpacesTo(line, |head|, v);
    assert line[v..] == tail;
  }

  /** The line `<field>:<gap><value><rest>` splits into the field name and then
      the value. */
  lemma SplitFieldLine(name: string, gap: string, value: string, rest: string)
    requires ':' !in name
    requires gap != [] && AllSpace(gap)
    requires IsPlainValue(value) && IsValueTail(rest)
    ensures |SplitColonSpace(name + ":" + gap + (value + rest))| >= 2
    ensures SplitColonSpace(name + ":" + gap + (value + rest))[0] == name
    ensures SplitColonSpace(name + ":" + gap + (value + rest))[1] == value
  {
    var line := name + ":" + gap + (value + rest);
    assert (value + rest)[0] == value[0];
    FieldLineColon(name, gap, value + rest);
    SkipGap(name + ":", gap, value + rest);
    SplitColonSpaceStep(line, |name|);
    assert line[..|name|] == name;
    SplitValueTail(value, rest);
  }

  /** Every field name is a non-empty word of letters and hyphens. */
  lemma OwnerFieldShape(name: string)
    requires name in OwnerFields
    ensures name != [] && !IsSpace(name[0]) && ':' !in name && '\n' !in name
  {
  }

  /** `<field>:<tail>` is an owner line, and a bare one when the tail ends the line
      cleanly. */
  lemma FieldLine(name: string, tail: string)
    requires name in OwnerFields
    requires '\n' !in tail && (tail == [] || !IsSpace(tail[|tail| - 1]))
    ensures IsOwnerLine(name + ":" + tail)
    ensures IsBareLine(name + ":" + tail)
  {
    OwnerFieldShape(name);
    var line := name + ":" + tail;
    assert IsFieldLine(line, name) by {
      forall i | 0 <= i < |name| ensures line[i] == name[i] {
      }
    }
    assert line[0] == name[0];
    assert line[|line| - 1] == if tail == [] then ':' else tail[|tail| - 1];
    assert line == name + [':'] + tail;
  }

  /** Round trip: a line `<field>:<gap><value>`, where a tail introduced by a further
      colon-plus-white-space may follow, is parsed back to `value`. */
  lemma ParseOwnerFieldLine(name: string, gap: string, value: string, rest: string)
    requires name in OwnerFields
    requires gap != [] && AllSpace(gap) && '\n' !in gap
    requires IsPlainValue(value) && IsValueTail(rest)
    ensures FindOwnerLine(TrimmedLines(name + ":" + gap + value + rest)) == Some(0)
    ensures ParseOwner(name + ":" + gap + value + rest) == Ok(value)
  {
    var line := name + ":" + gap + (value + rest);
    AppendAssoc(name + ":" + gap, value, rest);
    AppendAssoc(name + ":", gap, value + rest);
    var tail := gap + (value + rest);
    assert tail[|tail| - 1] == if rest == [] then value[|value| - 1] else rest[|rest| - 1];
    FieldLine(name, tail);
    OwnerFieldShape(name);
    SplitFieldLine(name, gap, value, rest);
    ParseOwnerOfOneLine(line);
  }

  /** Neither sentinel names an owner field: "Owner info not found." starts with
      "Owner", but a space follows it, not a colon. */
  lemma SentinelsAreNotOwnerLines()
    ensures !IsOwnerLine(OwnerNotFound) && !IsOwnerLine(WhoisFailed)
  {
  }

  /** Feeding either sentinel back in as WHOIS text finds no owner. */
  lemma ParseOwnerOfSentinels()
    ensures ParseOwner(OwnerNotFound) == Ok(OwnerNotFound)
    ensures ParseOwner(WhoisFailed) == Ok(OwnerNotFound)
  {
    SentinelsAreNotOwnerLines();
    SentinelsAreBareLines();
    ParseOwnerOfOneLine(OwnerNotFound);
    ParseOwnerOfOneLine(WhoisFailed);
  }

  /** Each sentinel is a single line without surrounding white space. */
  lemma SentinelsAreBareLines()
    ensures IsBareLine(OwnerNotFound) && IsBareLine(WhoisFailed)
  {
  }

  /** `<field>:<value>` with nothing or a plain value after the colon holds no
      colon-plus-white-space. */
  lemma NoSeparatorWithoutGap(name: string, value: string)
    requires ':' !in name
    requires value == [] || IsPlainValue(value)
    ensures !HasSeparator(name + ":" + value)
  {
    var line := name + ":" + value;
    forall k | 0 <= k < |line| ensures !IsSeparatorAt(line, k) {
      if k < |name| {
        assert line[k] == name[k];
      } else if k > |name| {
        assert line[k] == value[k - |name| - 1];
        if k + 1 < |line| {
          assert line[k + 1] == value[k - |name|];
          assert !IsSeparatorAt(value, k - |name| - 1);
        }
      } else if value != [] {
        assert line[k + 1] == value[0];
      }
    }
  }

  /** A field followed by a colon and then by something other than white space has
      no second piece: the callback throws. */
  lemma ParseOwnerWithoutGap(name: string, value: string)
    requires name in OwnerFields
    requires value == [] || IsPlainValue(value)
    ensures ParseOwner(name + ":" + value) == Err(OwnerValueUndefined(name + ":" + value))
  {
    OwnerFieldShape(name);
    FieldLine(name, value);
    NoSeparatorWithoutGap(name, value);
    ParseOwnerOfOneLine(name + ":" + value);
  }

  // The examples below write their texts as concatenations ("OrgName" + ":" + "X"):
  // the pieces are what the general lemmas take, and proving them equal to one
  // literal would make the solver compare the texts character by character.

  /** "OrgName:" alone makes the callback throw. */
  lemma ParseOwnerBareField()
    ensures ParseOwner("OrgName" + ":").Err?
  {
    assert "OrgName" in OwnerFields;
    ParseOwnerWithoutGap("OrgName", "");
    assert "OrgName" + ":" + "" == "OrgName" + ":";
  }

  /** "OrgName:X", with no white space after the colon, makes the callback throw. */
  lemma ParseOwnerNoGapAfterColon()
    ensures ParseOwner("OrgName" + ":" + "X").Err?
  {
    assert "OrgName" in OwnerFields;
    assert IsPlainValue("X") by {}
    ParseOwnerWithoutGap("OrgName", "X");
  }

  /** The value ends at the next colon-plus-white-space: "descr: a: b" yields "a". */
  lemma ParseOwnerStopsAtNextSeparator()
    ensures ParseOwner("descr" + ":" + " " + "a" + ": b") == Ok("a")
  {
    assert "descr" in OwnerFields;
    assert IsPlainValue("a") by {}
    assert IsValueTail(": b") by {}
    ParseOwnerFieldLine("descr", " ", "a", ": b");
  }

  /** In "OrgName:    Example Org\nCountry: US" the first recognised field wins and its
      value is trimmed to "Example Org". */
  lemma ParseOwnerOrgNameExample()
    ensures ParseOwner("OrgName" + ":" + "    " + "Example Org" + "\n" + "Country: US") == Ok("Example Org")
  {
    assert "OrgName" in OwnerFields;
    assert IsPlainValue("Example Org") by {}
    ParseOwnerFieldLine("OrgName", "    ", "Example Org", "");
    var first := "OrgName" + ":" + "    " + "Example Org";
    assert first + "" == first;
    ParseOwnerIgnoresLaterLines(first, "Country: US");
  }
}
