/** The fail-soft frontmatter parser: a `---` fenced block at the start of a
    Markdown document, holding a small YAML subset (flat `key: value`,
    inline `[a, b]` lists, one level of nested map, `#` comments). */
module FrontmatterParser {
  import opened Wrappers
  import opened Text
  import opened Dict
  import opened Seqs

  /** A frontmatter value: a string, an inline list, or a nested map. */
  datatype Value = Str(s: string) | List(items: seq<string>) | Map(entries: Dict<string>)

  type Frontmatter = Dict<Value>

  // ---------------------------------------------------------------------
  // Quote stripping

  predicate IsQuoted(v: string) {
    |v| >= 2 && ((v[0] == '"' && v[|v| - 1] == '"') || (v[0] == '\'' && v[|v| - 1] == '\''))
  }

  /** Removes one matching pair of outer quotes, and only that. */
  function StripQuotes(v: string): (r: string)
    ensures IsQuoted(v) ==> |r| == |v| - 2 && v == [v[0]] + r + [v[0]]
    ensures !IsQuoted(v) ==> r == v
  {
    if IsQuoted(v) then v[1..|v| - 1] else v
  }

  /** Quoting any text and stripping the quotes gives the text back. */
  lemma StripQuotesOfQuoted(x: string, q: char)
    requires q == '"' || q == '\''
    ensures StripQuotes([q] + x + [q]) == x
  {
    var v := [q] + x + [q];
    assert IsQuoted(v);
    assert v[1..|v| - 1] == x;
  }

  // ---------------------------------------------------------------------
  // The closing fence: the first match, at or after index 3, of the
  // regular expression `\n---\s*\n`.

  /** `s[i..e]` is a match of `\n---\s*\n`. */
  predicate FenceEndsAt(s: string, i: nat, e: nat) {
    && i + 5 <= e <= |s|
    && s[i] == '\n' && s[i + 1..i + 4] == "---" && s[e - 1] == '\n'
    && forall k :: i + 4 <= k < e ==> IsWhiteSpace(s[k])
  }

  /** End of the run of whitespace that starts at `k`. */
  function RunEnd(s: string, k: nat): (j: nat)
    requires k <= |s|
    ensures k <= j <= |s|
    ensures forall m :: k <= m < j ==> IsWhiteSpace(s[m])
    ensures j < |s| ==> !IsWhiteSpace(s[j])
    decreases |s| - k
  {
    if k < |s| && IsWhiteSpace(s[k]) then RunEnd(s, k + 1) else k
  }

  /** The last newline in `s[lo..hi]`, or -1. */
  function LastNewline(s: string, lo: nat, hi: nat): (m: int)
    requires lo <= hi <= |s|
    ensures m == -1 || (lo <= m < hi && s[m] == '\n')
    ensures forall k :: m < k < hi && lo <= k ==> s[k] != '\n'
    decreases hi - lo
  {
    if hi == lo then -1
    else if s[hi - 1] == '\n' then hi - 1
    else LastNewline(s, lo, hi - 1)
  }

  /** The end of the match that starts at `i`, if any. `\s*` is greedy and
      the trailing `\n` backtracks into it, so the match ends just after the
      last newline of the whitespace run that follows `---`. */
  function MatchAt(s: string, i: nat): (r: Option<nat>)
    ensures r.Some? ==> FenceEndsAt(s, i, r.value)
    ensures r.Some? ==> forall e: nat :: FenceEndsAt(s, i, e) ==> e <= r.value
    ensures r.None? ==> forall e: nat :: !FenceEndsAt(s, i, e)
  {
    if i + 4 <= |s| && s[i] == '\n' && s[i + 1..i + 4] == "---" then
      var j := RunEnd(s, i + 4);
      var m := LastNewline(s, i + 4, j);
      MatchAtBounds(s, i, j, m);
      if m >= 0 then Some(m + 1) else None
    else None
  }

  lemma MatchAtBounds(s: string, i: nat, j: nat, m: int)
    requires i + 4 <= |s| && s[i] == '\n' && s[i + 1..i + 4] == "---"
    requires j == RunEnd(s, i + 4) && m == LastNewline(s, i + 4, j)
    ensures m >= 0 ==> FenceEndsAt(s, i, m + 1)
    ensures forall e: nat :: FenceEndsAt(s, i, e) ==> m >= 0 && e <= m + 1
  {
    forall e: nat | FenceEndsAt(s, i, e) ensures m >= 0 && e <= m + 1 {
      assert s[e - 1] == '\n';
    }
  }

  /** Regex `Match(s, from)`: the leftmost match at or after `from`, with
      its greedy end. */
  function FindClosingFence(s: string, from: nat): (r: Option<(nat, nat)>)
    ensures r.Some? ==> from <= r.value.0 && FenceEndsAt(s, r.value.0, r.value.1)
    ensures r.Some? ==> forall e: nat :: FenceEndsAt(s, r.value.0, e) ==> e <= r.value.1
    ensures r.Some? ==> forall i: nat, e: nat :: from <= i < r.value.0 ==> !FenceEndsAt(s, i, e)
    ensures r.None? ==> forall i: nat, e: nat :: from <= i ==> !FenceEndsAt(s, i, e)
    decreases |s| - from
  {
    if from >= |s| then None
    else match MatchAt(s, from)
      case Some(e) => Some((from, e))
      case None => FindClosingFence(s, from + 1)
  }

  // ---------------------------------------------------------------------
  // The metadata block, line by line

  /** The parser's state between lines: the entries so far and, when a
      `key:` line has opened one, the pending nested map with its key. */
  datatype BlockState = BlockState(result: Frontmatter, nested: Option<(string, Dict<string>)>)

  /** Stores the pending nested map, if any, under its key. */
  function Flush(st: BlockState): (r: Frontmatter)
    ensures st.nested.Some? ==> Get(r, st.nested.value.0) == Some(Map(st.nested.value.1))
    ensures st.nested.None? ==> r == st.result
  {
    match st.nested
    case Some((k, d)) => GetPutSame(st.result, k, Map(d)); Put(st.result, k, Map(d))
    case None => st.result
  }

  predicate IsSkipped(line: string) {
    IsBlank(line) || StartsWith(TrimStart(line), "#")
  }

  predicate IsIndented(line: string) {
    StartsWith(line, "  ") || StartsWith(line, "\t")
  }

  /** The items of an inline list: trimmed, quote-stripped, empties dropped,
      in source order. */
  function CleanItems(parts: seq<string>): (r: seq<string>)
    ensures forall k :: 0 <= k < |r| ==> r[k] != ""
    ensures |r| <= |parts|
    decreases |parts|
  {
    if |parts| == 0 then []
    else
      var x := StripQuotes(Trim(parts[0]));
      (if x != "" then [x] else []) + CleanItems(parts[1..])
  }

  /** `StartsWith("[") && EndsWith("]")`. */
  predicate IsInlineList(raw: string) {
    StartsWith(raw, "[") && EndsWith(raw, "]")
  }

  lemma InlineListShape(raw: string)
    ensures IsInlineList(raw) <==> |raw| >= 2 && raw[0] == '[' && raw[|raw| - 1] == ']'
  {
    assert "[" == ['['] && "]" == [']'];
    StartsWithChar(raw, '[');
    EndsWithChar(raw, ']');
  }

  /** The items of the inline list `raw`. */
  function InlineItems(raw: string): seq<string>
    requires IsInlineList(raw)
  {
    InlineListShape(raw);
    CleanItems(Split(raw[1..|raw| - 1], ','))
  }

  /** An indented `k: v` line inside an open nested map. */
  function NestedEntry(nested: Dict<string>, line: string): Dict<string> {
    var trimmed := TrimStart(line);
    var ci := IndexOf(trimmed, ':');
    if ci > 0 then Put(nested, Trim(trimmed[..ci]), StripQuotes(Trim(trimmed[ci + 1..])))
    else nested
  }

  /** A top-level line, once any pending nested map has been flushed. */
  function TopLevelEntry(result: Frontmatter, line: string): BlockState {
    var ci := IndexOf(line, ':');
    if ci <= 0 then BlockState(result, None)
    else
      var key := Trim(line[..ci]);
      var raw := Trim(line[ci + 1..]);
      if raw == "" then BlockState(result, Some((key, [])))
      else if IsInlineList(raw) then BlockState(Put(result, key, List(InlineItems(raw))), None)
      else BlockState(Put(result, key, Str(StripQuotes(raw))), None)
  }

  /** `key:` with nothing after the colon opens an empty nested map. */
  lemma TopLevelOpensMap(result: Frontmatter, line: string, ci: int, key: string, raw: string)
    requires ci == IndexOf(line, ':') && ci > 0
    requires key == Trim(line[..ci]) && raw == Trim(line[ci + 1..])
    requires raw == ""
    ensures TopLevelEntry(result, line) == BlockState(result, Some((key, [])))
  {
  }

  /** `key: [a, b]` stores the cleaned items of the bracketed text. */
  lemma TopLevelList(result: Frontmatter, line: string, ci: int, key: string, raw: string)
    requires ci == IndexOf(line, ':') && ci > 0
    requires key == Trim(line[..ci]) && raw == Trim(line[ci + 1..])
    requires raw != "" && IsInlineList(raw)
    ensures TopLevelEntry(result, line) == BlockState(Put(result, key, List(InlineItems(raw))), None)
    ensures |raw| >= 2 && InlineItems(raw) == CleanItems(Split(raw[1..|raw| - 1], ','))
  {
    InlineListShape(raw);
  }

  /** `key: value` stores the value without its quotes. */
  lemma TopLevelScalar(result: Frontmatter, line: string, ci: int, key: string, raw: string)
    requires ci == IndexOf(line, ':') && ci > 0
    requires key == Trim(line[..ci]) && raw == Trim(line[ci + 1..])
    requires raw != "" && !IsInlineList(raw)
    ensures TopLevelEntry(result, line) == BlockState(Put(result, key, Str(StripQuotes(raw))), None)
  {
  }

  /** One iteration of the line loop. */
  function StepLine(st: BlockState, rawLine: string): BlockState {
    var line := TrimEndChar(rawLine, '\r');
    if IsSkipped(line) then st
    else if st.nested.Some? && IsIndented(line) then
      BlockState(st.result, Some((st.nested.value.0, NestedEntry(st.nested.value.1, line))))
    else TopLevelEntry(Flush(st), line)
  }

  /** The state after the given lines, starting from nothing. */
  function RunLines(lines: seq<string>): BlockState
    decreases |lines|
  {
    if |lines| == 0 then BlockState([], None)
    else StepLine(RunLines(lines[..|lines| - 1]), lines[|lines| - 1])
  }

  /** Blank and comment lines change nothing, not even an open nested map. */
  lemma StepSkipped(st: BlockState, rawLine: string)
    requires IsSkipped(TrimEndChar(rawLine, '\r'))
    ensures StepLine(st, rawLine) == st
  {
  }

  /** Inside an open nested map an indented line only adds to that map. */
  lemma StepIndented(st: BlockState, rawLine: string)
    requires !IsSkipped(TrimEndChar(rawLine, '\r'))
    requires st.nested.Some? && IsIndented(TrimEndChar(rawLine, '\r'))
    ensures StepLine(st, rawLine).result == st.result
    ensures StepLine(st, rawLine).nested ==
              Some((st.nested.value.0, NestedEntry(st.nested.value.1, TrimEndChar(rawLine, '\r'))))
  {
  }

  /** Any other line first closes the open nested map, and is then read as
      a top-level line, whether or not it is indented. */
  lemma StepTopLevel(st: BlockState, rawLine: string)
    requires !IsSkipped(TrimEndChar(rawLine, '\r'))
    requires !(st.nested.Some? && IsIndented(TrimEndChar(rawLine, '\r')))
    ensures StepLine(st, rawLine) == TopLevelEntry(Flush(st), TrimEndChar(rawLine, '\r'))
  {
  }

  /** What the metadata block parses to. */
  function Block(yaml: string): Frontmatter {
    Flush(RunLines(Split(yaml, '\n')))
  }

  function Pack(result: Frontmatter, currentKey: Option<string>, nestedDict: Option<Dict<string>>): BlockState
    requires currentKey.Some? <==> nestedDict.Some?
  {
    if currentKey.Some? then BlockState(result, Some((currentKey.value, nestedDict.value)))
    else BlockState(result, None)
  }

  /** The top-level part of one iteration, once any open nested map has
      been flushed: a `key: value` line, a `key: [list]` line, a `key:` line
      opening a nested map, or a line without a usable colon. */
  method ParseTopLevelLine(flushed: Frontmatter, line: string)
    returns (result: Frontmatter, currentKey: Option<string>, nestedDict: Option<Dict<string>>)
    ensures currentKey.Some? <==> nestedDict.Some?
    ensures Pack(result, currentKey, nestedDict) == TopLevelEntry(flushed, line)
  {
    result, currentKey, nestedDict := flushed, None, None;
    var colonIndex := IndexOf(line, ':');
    if colonIndex <= 0 {
      return;
    }
    var key := Trim(line[..colonIndex]);
    var rawValue := Trim(line[colonIndex + 1..]);
    if rawValue == "" {
      currentKey := Some(key);
      nestedDict := Some([]);
      TopLevelOpensMap(flushed, line, colonIndex, key, rawValue);
    } else if StartsWith(rawValue, "[") && EndsWith(rawValue, "]") {
      InlineListShape(rawValue);
      var inner := rawValue[1..|rawValue| - 1];
      result := Put(result, key, List(CleanItems(Split(inner, ','))));
      TopLevelList(flushed, line, colonIndex, key, rawValue);
    } else {
      result := Put(result, key, Str(StripQuotes(rawValue)));
      TopLevelScalar(flushed, line, colonIndex, key, rawValue);
    }
  }

  /** `ParseYamlBlock`: the line loop, with `currentKey` and `nestedDict`
      carrying the open nested map across iterations. */
  method ParseYamlBlock(yaml: string) returns (result: Frontmatter)
    ensures result == Block(yaml)
  {
    result := [];
    var currentKey: Option<string> := None;
    var nestedDict: Option<Dict<string>> := None;
    var lines := Split(yaml, '\n');
    for i := 0 to |lines|
      invariant currentKey.Some? <==> nestedDict.Some?
      invariant RunLines(lines[..i]) == Pack(result, currentKey, nestedDict)
    {
      assert lines[..i + 1][..i] == lines[..i];
      ghost var before := Pack(result, currentKey, nestedDict);
      assert RunLines(lines[..i + 1]) == StepLine(before, lines[i]);
      var line := TrimEndChar(lines[i], '\r');
      if IsBlank(line) || StartsWith(TrimStart(line), "#") {
        StepSkipped(before, lines[i]);
        assert Pack(result, currentKey, nestedDict) == StepLine(before, lines[i]);
        continue;
      }
      if currentKey.Some? && nestedDict.Some? && (StartsWith(line, "  ") || StartsWith(line, "\t")) {
        StepIndented(before, lines[i]);
        var trimmed := TrimStart(line);
        var nestedColonIndex := IndexOf(trimmed, ':');
        if nestedColonIndex > 0 {
          var nestedKey := Trim(trimmed[..nestedColonIndex]);
          var nestedValue := Trim(trimmed[nestedColonIndex + 1..]);
          nestedDict := Some(Put(nestedDict.value, nestedKey, StripQuotes(nestedValue)));
        }
        assert Pack(result, currentKey, nestedDict) == StepLine(before, lines[i]);
        continue;
      }
      StepTopLevel(before, lines[i]);
      if currentKey.Some? && nestedDict.Some? {
        result := Put(result, currentKey.value, Map(nestedDict.value));
        currentKey := None;
        nestedDict := None;
      }
      assert result == Flush(before);
      result, currentKey, nestedDict := ParseTopLevelLine(result, line);
    }
    assert lines[..|lines|] == lines;
    if currentKey.Some? && nestedDict.Some? {
      result := Put(result, currentKey.value, Map(nestedDict.value));
    }
  }

  // ---------------------------------------------------------------------
  // The whole document

  /** What `Parse` returns: the frontmatter and the body. */
  function ParseResult(content: string): (Frontmatter, string) {
    if !StartsWith(content, "---") then ([], content)
    else match FindClosingFence(content, 3)
      case None => ([], content)
      case Some((i, e)) => (Block(Trim(content[3..i])), content[e..])
  }

  /** `Parse`: never fails; without an opening fence, or without a closing
      one, the frontmatter is empty and the body is the whole input. */
  method Parse(content: string) returns (frontmatter: Frontmatter, body: string)
    ensures (frontmatter, body) == ParseResult(content)
    ensures !StartsWith(content, "---") ==> frontmatter == [] && body == content
    ensures StartsWith(content, "---") && FindClosingFence(content, 3).None? ==>
              frontmatter == [] && body == content
    ensures StartsWith(content, "---") && FindClosingFence(content, 3).Some? ==>
              var (i, e) := FindClosingFence(content, 3).value;
              frontmatter == Block(Trim(content[3..i])) && body == content[e..]
  {
    if !StartsWith(content, "---") {
      return [], content;
    }
    var m := FindClosingFence(content, 3);
    if m.None? {
      return [], content;
    }
    var (index, end) := m.value;
    var yamlBlock := Trim(content[3..index]);
    body := content[end..];
    frontmatter := ParseYamlBlock(yamlBlock);
  }

  // ---------------------------------------------------------------------
  // Properties

  /** The leftmost match is found by scanning forward. */
  lemma {:induction false} FindFrom(s: string, from: nat, f: nat, e: nat)
    requires from <= f
    requires forall i :: from <= i < f ==> MatchAt(s, i).None?
    requires MatchAt(s, f) == Some(e)
    ensures FindClosingFence(s, from) == Some((f, e))
    decreases f - from
  {
    assert f < |s|;
    if from < f {
      assert MatchAt(s, from).None?;
      assert FindClosingFence(s, from) == FindClosingFence(s, from + 1);
      FindFrom(s, from + 1, f, e);
    } else {
      assert FindClosingFence(s, from) == Some((from, e));
    }
  }

  /** A leading newline does not change what `Trim` keeps. */
  lemma TrimLeadingNewline(block: string)
    ensures Trim("\n" + block) == Trim(block)
  {
    var t := "\n" + block;
    assert t[1..] == block;
    assert LeadingWhiteSpace(t) == 1 + LeadingWhiteSpace(block);
    assert TrimStart(t) == TrimStart(block);
  }

  /** `s[i..]` starts with `\n---`. */
  predicate FenceStart(s: string, i: nat) {
    i + 4 <= |s| && s[i] == '\n' && s[i + 1..i + 4] == "---"
  }

  lemma NoFenceStartNoMatch(s: string, i: nat)
    requires !FenceStart(s, i)
    ensures MatchAt(s, i).None?
  {
  }

  lemma FenceStartSlice(s: string, i: nat)
    requires i + 4 <= |s|
    ensures FenceStart(s, i) <==> s[i..i + 4] == "\n---"
  {
    assert s[i..i + 4] == [s[i]] + s[i + 1..i + 4];
    assert "\n---" == ['\n'] + "---";
  }

  /** Inside the block, a fence start would be an occurrence of `\n---`. */
  lemma NoFenceInBlock(block: string, rest: string, i: nat)
    requires !Contains("\n" + block, "\n---")
    requires 3 <= i && i + 4 <= 4 + |block|
    ensures !FenceStart("---\n" + block + rest, i)
  {
    DocWindow(block, rest, i);
    NotContainsAt("\n" + block, "\n---", i - 3);
    FenceStartSlice("---\n" + block + rest, i);
  }

  lemma DocWindow(block: string, rest: string, i: nat)
    requires 3 <= i && i + 4 <= 4 + |block|
    ensures ("---\n" + block + rest)[i..i + 4] == ("\n" + block)[i - 3..i + 1]
  {
    var doc := "---\n" + block + rest;
    var t := "\n" + block;
    assert "---\n" == "---" + "\n";
    assert doc[3..4 + |block|] == t;
  }

  /** Overlapping the closing `\n---`, a fence start would need a dash
      where that newline is. */
  lemma NoFenceAcrossClose(block: string, body: string, i: nat)
    requires 4 + |block| < i + 4 && i < 4 + |block|
    ensures !FenceStart("---\n" + block + "\n---\n" + body, i)
  {
    var doc := "---\n" + block + "\n---\n" + body;
    var f := 4 + |block|;
    assert doc[f] == '\n';
    if i + 4 <= |doc| {
      assert doc[i + 1..i + 4][f - i - 1] == doc[f];
    }
  }

  /** No closing fence starts before the one after the block. */
  lemma NoEarlierFence(block: string, body: string, i: nat)
    requires !Contains("\n" + block, "\n---")
    requires 3 <= i < 4 + |block|
    ensures MatchAt("---\n" + block + "\n---\n" + body, i).None?
  {
    var doc := "---\n" + block + "\n---\n" + body;
    if i + 4 <= 4 + |block| {
      NoFenceInBlock(block, "\n---\n" + body, i);
      assert doc == "---\n" + block + ("\n---\n" + body);
    } else {
      NoFenceAcrossClose(block, body, i);
    }
    NoFenceStartNoMatch(doc, i);
  }

  /** A document made of an opening fence, a metadata block, a closing
      fence and a body parses to the entries of the block and exactly that
      body, provided no line of the block starts with `---` and the body
      does not open with a blank line (which `\s*\n` would take as part
      of the fence). */
  lemma ParseFencedDocument(block: string, body: string)
    requires !Contains("\n" + block, "\n---")
    requires '\n' !in body[..LeadingWhiteSpace(body)]
    ensures ParseResult("---\n" + block + "\n---\n" + body) == (Block(Trim(block)), body)
  {
    var doc := "---\n" + block + "\n---\n" + body;
    var f := 4 + |block|;
    assert doc[..3] == "---";
    forall i | 3 <= i < f ensures MatchAt(doc, i).None? {
      NoEarlierFence(block, body, i);
    }
    ClosingFenceMatch(block, body);
    FindFrom(doc, 3, f, f + 5);
    assert doc[3..f] == "\n" + block;
    TrimLeadingNewline(block);
    assert doc[f + 5..] == body;
  }

  /** The closing fence after the block ends right before the body. */
  lemma ClosingFenceMatch(block: string, body: string)
    requires '\n' !in body[..LeadingWhiteSpace(body)]
    ensures MatchAt("---\n" + block + "\n---\n" + body, 4 + |block|) == Some(4 + |block| + 5)
  {
    var doc := "---\n" + block + "\n---\n" + body;
    var f := 4 + |block|;
    assert doc[f] == '\n' && doc[f + 4] == '\n';
    assert doc[f + 1..f + 4] == "---";
    assert FenceEndsAt(doc, f, f + 5);
    forall e: nat | FenceEndsAt(doc, f, e)
      ensures e <= f + 5
    {
      FenceNoLonger(block, body, e);
    }
  }

  lemma FenceNoLonger(block: string, body: string, e: nat)
    requires '\n' !in body[..LeadingWhiteSpace(body)]
    requires FenceEndsAt("---\n" + block + "\n---\n" + body, 4 + |block|, e)
    ensures e <= 4 + |block| + 5
  {
    var doc := "---\n" + block + "\n---\n" + body;
    var f := 4 + |block|;
    if e > f + 5 {
      var j := e - 1 - (f + 5);
      assert doc[e - 1] == body[j];
      forall m | 0 <= m <= j ensures IsWhiteSpace(body[m]) {
        assert doc[f + 5 + m] == body[m];
      }
    }
  }

  /** The lines that are neither blank nor comments, in order. */
  function Significant(lines: seq<string>): (r: seq<string>)
    ensures |r| <= |lines|
    decreases |lines|
  {
    if |lines| == 0 then []
    else
      var last := lines[|lines| - 1];
      Significant(lines[..|lines| - 1]) + (if IsSkipped(TrimEndChar(last, '\r')) then [] else [last])
  }

  /** Blank and comment lines can be dropped anywhere, even inside a nested
      map, without changing the result. */
  lemma {:induction false} SkippedLinesIgnored(lines: seq<string>)
    ensures RunLines(Significant(lines)) == RunLines(lines)
    decreases |lines|
  {
    if |lines| > 0 {
      var init := lines[..|lines| - 1];
      var last := lines[|lines| - 1];
      SkippedLinesIgnored(init);
      if IsSkipped(TrimEndChar(last, '\r')) {
        assert Significant(lines) == Significant(init);
        StepSkipped(RunLines(init), last);
      } else {
        var k := Significant(init) + [last];
        assert Significant(lines) == k;
        assert k[..|k| - 1] == Significant(init);
      }
    }
  }

  /** Items that are already clean are kept as they are. */
  /** One part gives its trimmed, quote-stripped text, unless that is empty. */
  lemma CleanItemsOne(part: string)
    ensures CleanItems([part]) == if StripQuotes(Trim(part)) == "" then [] else [StripQuotes(Trim(part))]
  {
    assert [part][1..] == [];
  }

  /** Parts are cleaned one by one, in order. */
  lemma {:induction false} CleanItemsAppend(a: seq<string>, b: seq<string>)
    ensures CleanItems(a + b) == CleanItems(a) + CleanItems(b)
    decreases |a|
  {
    if |a| == 0 {
      assert a + b == b;
    } else {
      assert (a + b)[0] == a[0] && (a + b)[1..] == a[1..] + b;
      CleanItemsAppend(a[1..], b);
      var x := StripQuotes(Trim(a[0]));
      AppendAssociative3(if x != "" then [x] else [], CleanItems(a[1..]), CleanItems(b));
    }
  }

  /** The items are exactly the non-empty cleaned parts. */
  lemma CleanItemsMembers(parts: seq<string>)
    ensures forall x :: x in CleanItems(parts) <==>
              x != "" && exists k :: 0 <= k < |parts| && x == StripQuotes(Trim(parts[k]))
  {
    forall x ensures x in CleanItems(parts) <==>
                     x != "" && exists k :: 0 <= k < |parts| && x == StripQuotes(Trim(parts[k])) {
      CleanItemsMember(parts, x);
    }
  }

  lemma {:induction false} CleanItemsMember(parts: seq<string>, x: string)
    ensures x in CleanItems(parts) <==> x != "" && exists k :: 0 <= k < |parts| && x == StripQuotes(Trim(parts[k]))
    decreases |parts|
  {
    if |parts| > 0 {
      var rest := parts[1..];
      CleanItemsMember(rest, x);
      var x0 := StripQuotes(Trim(parts[0]));
      assert CleanItems(parts) == (if x0 != "" then [x0] else []) + CleanItems(rest);
      if exists k :: 0 <= k < |rest| && x == StripQuotes(Trim(rest[k])) {
        var k :| 0 <= k < |rest| && x == StripQuotes(Trim(rest[k]));
        assert parts[k + 1] == rest[k];
      }
      if exists k :: 0 <= k < |parts| && x == StripQuotes(Trim(parts[k])) {
        var k :| 0 <= k < |parts| && x == StripQuotes(Trim(parts[k]));
        if k > 0 {
          assert rest[k - 1] == parts[k];
        }
      }
    }
  }

  lemma {:induction false} CleanItemsKeepsClean(parts: seq<string>)
    requires forall k :: 0 <= k < |parts| ==> parts[k] != "" && StripQuotes(Trim(parts[k])) == parts[k]
    ensures CleanItems(parts) == parts
    decreases |parts|
  {
    if |parts| > 0 {
      CleanItemsKeepsClean(parts[1..]);
      assert parts == [parts[0]] + parts[1..];
    }
  }

  /** A key given twice keeps its first position and takes its last value. */
  lemma RepeatedKeyLastWins(result: Frontmatter, line: string)
    requires IndexOf(line, ':') > 0
    requires var raw := Trim(line[IndexOf(line, ':') + 1..]);
      raw != "" && !IsInlineList(raw)
    ensures var ci := IndexOf(line, ':');
      var key := Trim(line[..ci]);
      var r := TopLevelEntry(result, line).result;
      && Get(r, key) == Some(Str(StripQuotes(Trim(line[ci + 1..]))))
      && (HasKey(result, key) ==> Keys(r) == Keys(result))
      && forall k :: k != key ==> Get(r, k) == Get(result, k)
  {
    var ci := IndexOf(line, ':');
    var key := Trim(line[..ci]);
    var v := Str(StripQuotes(Trim(line[ci + 1..])));
    TopLevelScalar(result, line, ci, key, Trim(line[ci + 1..]));
    GetPutSame(result, key, v);
    forall k | k != key ensures Get(Put(result, key, v), k) == Get(result, k) {
      GetPutOther(result, key, v, k);
    }
  }

  /** A nested map still open at the end of the block is stored, even when
      it is empty. */
  lemma OpenMapStoredAtEnd(yaml: string)
    requires RunLines(Split(yaml, '\n')).nested.Some?
    ensures var (k, d) := RunLines(Split(yaml, '\n')).nested.value;
      Get(Block(yaml), k) == Some(Map(d))
  {
  }
}
