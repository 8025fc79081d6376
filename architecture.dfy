/** The architecture page's diagram helpers: removing a Mermaid front matter
    block, finding the node ids a flowchart defines, appending highlight
    styles for chosen nodes, and choosing the nodes an assessment highlights. */
module Architecture {
  import opened Values
  import opened Text
  import opened Seqs

  const HighlightStyle := "fill:#fff3cd,stroke:#ffc107,stroke-width:3px,color:#856404"
  const HighlightHeader := "\n\n%% Assessment highlights\n"
  const Fence := "\n---"

  // ------------------------------------------------------------ front matter
  //
  // The front matter pattern is `^---\s*\n.*?\n---\s*\n`, dot matching
  // newlines. The functions below try its choices in the order a
  // backtracking matcher does: the opening `\s*` longest first, the body
  // `.*?` shortest first, the closing `\s*` longest first.

  /** End of the whitespace run that starts at `i`. */
  function RunEnd(s: string, i: nat): (j: nat)
    requires i <= |s|
    ensures i <= j <= |s|
    ensures forall k :: i <= k < j ==> IsSpace(s[k])
    ensures j < |s| ==> !IsSpace(s[j])
    decreases |s| - i
  {
    if i < |s| && IsSpace(s[i]) then RunEnd(s, i + 1) else i
  }

  /** The last newline in `s[lo..hi]`. */
  function LastNewline(s: string, lo: nat, hi: nat): (r: Option<nat>)
    requires lo <= hi <= |s|
    ensures r.Some? ==> lo <= r.value < hi && s[r.value] == '\n'
    ensures r.None? ==> forall m :: lo <= m < hi ==> s[m] != '\n'
    decreases hi - lo
  {
    if hi == lo then None
    else if s[hi - 1] == '\n' then Some(hi - 1)
    else LastNewline(s, lo, hi - 1)
  }

  /** The closing `\n---\s*\n` read at `p`: where the match ends. */
  function CloseAt(s: string, p: nat): (e: Option<nat>)
    ensures e.Some? ==> OccursAt(Fence, s, p) && p + 5 <= e.value <= |s| && s[e.value - 1] == '\n'
    ensures e.Some? ==> forall k :: p + 4 <= k < e.value ==> IsSpace(s[k])
  {
    if OccursAt(Fence, s, p) then
      match LastNewline(s, p + 4, RunEnd(s, p + 4))
      case Some(q) => Some(q + 1)
      case None => None
    else None
  }

  /** The lazy body: the first `p` from `start` on where the closing fence matches. */
  function BodyFrom(s: string, start: nat): (e: Option<nat>)
    ensures e.Some? ==> start + 5 <= e.value <= |s|
    decreases |s| - start
  {
    if start + 4 > |s| then None
    else if CloseAt(s, start).Some? then CloseAt(s, start)
    else BodyFrom(s, start + 1)
  }

  /** The greedy opening `\s*\n`: newlines before `hi` tried from the last. */
  function OpenFrom(s: string, hi: nat): (e: Option<nat>)
    requires 3 <= hi <= |s|
    ensures e.Some? ==> e.value <= |s|
    decreases hi
  {
    if hi == 3 then None
    else if s[hi - 1] == '\n' && BodyFrom(s, hi).Some? then BodyFrom(s, hi)
    else OpenFrom(s, hi - 1)
  }

  /** Where the leading front matter block ends, if the text has one. */
  function FrontmatterEnd(s: string): (e: Option<nat>)
    ensures e.Some? ==> e.value <= |s|
  {
    if StartsWith(s, "---") then OpenFrom(s, RunEnd(s, 3)) else None
  }

  /** `_strip_frontmatter`: drop the leading front matter block, then strip. */
  function StripFrontmatter(code: string): (r: string)
    ensures !StartsWith(code, "---") ==> r == Strip(code)
  {
    match FrontmatterEnd(code)
    case Some(e) => Strip(code[e..])
    case None => Strip(code)
  }

  lemma StripFrontmatterAt(s: string, e: nat)
    requires FrontmatterEnd(s) == Some(e)
    ensures StripFrontmatter(s) == Strip(s[e..])
  {
  }

  /** `s[..e]` is one front matter block: `---`, blank space up to the newline
      at `q`, any text, the fence `\n---` at `p`, blank space up to the
      newline that ends at `e`. */
  predicate Block(s: string, q: nat, p: nat, e: nat) {
    && StartsWith(s, "---") && 3 <= q < p && p + 5 <= e <= |s|
    && (forall k :: 3 <= k < q ==> IsSpace(s[k])) && s[q] == '\n'
    && OccursAt(Fence, s, p)
    && (forall k :: p + 4 <= k < e - 1 ==> IsSpace(s[k])) && s[e - 1] == '\n'
  }

  lemma {:induction false} BodyFromWitness(s: string, start: nat) returns (p: nat)
    requires BodyFrom(s, start).Some?
    ensures start <= p && CloseAt(s, p) == BodyFrom(s, start)
    decreases |s| - start
  {
    if CloseAt(s, start).Some? {
      p := start;
    } else {
      p := BodyFromWitness(s, start + 1);
    }
  }

  lemma OpenFromWitness(s: string, hi: nat) returns (q: nat)
    requires 3 <= hi <= |s| && OpenFrom(s, hi).Some?
    ensures 3 <= q < hi && s[q] == '\n' && OpenFrom(s, hi) == BodyFrom(s, q + 1)
  {
    var h := hi;
    while !(s[h - 1] == '\n' && BodyFrom(s, h).Some?)
      invariant 3 <= h <= hi && OpenFrom(s, h) == OpenFrom(s, hi)
      decreases h
    {
      assert h != 3;
      h := h - 1;
    }
    assert h != 3;
    q := h - 1;
    assert q + 1 == h;
  }

  /** What the pattern removes is exactly one front matter block. */
  lemma FrontmatterIsBlock(s: string) returns (q: nat, p: nat)
    requires FrontmatterEnd(s).Some?
    ensures Block(s, q, p, FrontmatterEnd(s).value)
  {
    var hi := RunEnd(s, 3);
    assert FrontmatterEnd(s) == OpenFrom(s, hi);
    q := OpenFromWitness(s, hi);
    p := BodyFromWitness(s, q + 1);
    BlockOfParts(s, q, p, FrontmatterEnd(s).value);
  }

  lemma BlockOfParts(s: string, q: nat, p: nat, e: nat)
    requires StartsWith(s, "---") && 3 <= q < p && q < RunEnd(s, 3) && s[q] == '\n'
    requires CloseAt(s, p) == Some(e)
    ensures Block(s, q, p, e)
  {
  }

  lemma {:induction false} BodyFromFinds(s: string, start: nat, p: nat)
    requires start <= p && CloseAt(s, p).Some?
    ensures BodyFrom(s, start).Some?
    decreases p - start
  {
    if start < p && CloseAt(s, start).None? {
      BodyFromFinds(s, start + 1, p);
    }
  }

  lemma {:induction false} OpenFromFinds(s: string, hi: nat, q: nat)
    requires 3 <= q < hi <= |s| && s[q] == '\n' && BodyFrom(s, q + 1).Some?
    ensures OpenFrom(s, hi).Some?
    decreases hi
  {
    if q < hi - 1 && !(s[hi - 1] == '\n' && BodyFrom(s, hi).Some?) {
      OpenFromFinds(s, hi - 1, q);
    }
  }

  /** Conversely, whenever the text begins with a front matter block, the
      pattern matches (possibly choosing a different block). */
  lemma BlockIsFound(s: string, q: nat, p: nat, e: nat)
    requires Block(s, q, p, e)
    ensures FrontmatterEnd(s).Some?
  {
    var close := RunEnd(s, p + 4);
    assert e - 1 < close;
    assert CloseAt(s, p).Some?;
    BodyFromFinds(s, q + 1, p);
    assert q < RunEnd(s, 3);
    OpenFromFinds(s, RunEnd(s, 3), q);
  }

  /** A front matter block whose first line is not blank and whose body holds
      no fence is removed exactly: what remains is the stripped rest, even when
      the rest begins with another block. */
  lemma StripsOneBlock(body: string, rest: string)
    requires body != [] && !IsSpace(body[0])
    requires !Occurs(Fence, body)
    ensures StripFrontmatter("---\n" + body + Fence + "\n" + rest) == Strip(rest)
  {
    var k := SimpleBlockEnd(body, rest);
    var head := "---\n" + body + Fence + "\n";
    DropConcat(head, rest, k);
    StripFrontmatterAt(head + rest, |head| + k);
    StripDropSpaces(rest, k);
  }

  /** Where the pattern ends on a simple block: inside the blank space that
      follows the closing fence. */
  lemma SimpleBlockEnd(body: string, rest: string) returns (k: nat)
    requires body != [] && !IsSpace(body[0])
    requires !Occurs(Fence, body)
    ensures var s := "---\n" + body + Fence + "\n" + rest;
            && k <= |rest| && FrontmatterEnd(s) == Some(|s| - |rest| + k)
            && forall j :: 0 <= j < k ==> IsSpace(rest[j])
  {
    var s := "---\n" + body + Fence + "\n" + rest;
    var p := 4 + |body|;
    assert s[..3] == "---";
    assert s[3] == '\n' && s[4] == body[0];
    assert RunEnd(s, 3) == 4 by {
      assert RunEnd(s, 4) == 4;
    }
    assert OccursAt(Fence, s, p) by {
      assert s[p..p + 4] == Fence;
    }
    forall i | 4 <= i < p
      ensures !OccursAt(Fence, s, i)
    {
      if i + 4 > p {
        FenceNotAcross(s, i, p);
      } else if OccursAt(Fence, s, i) {
        assert s[i..i + 4] == body[i - 4..i];
        assert OccursAt(Fence, body, i - 4);
      }
    }
    var run := RunEnd(s, p + 4);
    assert s[p + 4] == '\n';
    var last := LastNewline(s, p + 4, run);
    assert last.Some?;
    var e := last.value + 1;
    assert CloseAt(s, p) == Some(e);
    BodyFromSkips(s, 4, p);
    k := e - (p + 5);
    forall j | 0 <= j < k
      ensures IsSpace(rest[j])
    {
      assert rest[j] == s[p + 5 + j];
    }
  }

  /** No fence starts just before a newline that it would have to cover. */
  lemma FenceNotAcross(s: string, i: nat, p: nat)
    requires i < p < i + 4 && p < |s| && s[p] == '\n'
    ensures !OccursAt(Fence, s, i)
  {
    if i + 4 <= |s| {
      assert s[i..i + 4][p - i] == s[p];
    }
  }

  lemma {:induction false} BodyFromSkips(s: string, start: nat, p: nat)
    requires start <= p && CloseAt(s, p).Some?
    requires forall k :: start <= k < p ==> !OccursAt(Fence, s, k)
    ensures BodyFrom(s, start) == CloseAt(s, p)
    decreases p - start
  {
    if start < p {
      BodyFromSkips(s, start + 1, p);
    }
  }

  // -------------------------------------------------------- node definitions
  //
  // A node definition line matches `^\s+(\S+)\[.+\]`: indentation, then a
  // run of non-space characters up to a `[` that has a `]` at least two
  // characters further on. The run is greedy, so the last such `[` inside
  // the run ends the node id; any `:::class` suffix is then cut off.

  /** The last index of `c` in `s`. */
  function LastIndex(s: string, c: char): (r: Option<nat>)
    ensures r.Some? ==> r.value < |s| && s[r.value] == c && forall k :: r.value < k < |s| ==> s[k] != c
    ensures r.None? ==> c !in s
    decreases |s|
  {
    if s == [] then None
    else if s[|s| - 1] == c then Some(|s| - 1)
    else LastIndex(s[..|s| - 1], c)
  }

  /** The last `[` in `w[1..hi]`. */
  function LastOpenBracket(w: string, hi: nat): (r: Option<nat>)
    requires hi <= |w|
    ensures r.Some? ==> 1 <= r.value < hi && w[r.value] == '['
    ensures r.Some? ==> forall k :: r.value < k < hi ==> w[k] != '['
    ensures r.None? ==> forall k :: 1 <= k < hi ==> w[k] != '['
    decreases hi
  {
    if hi <= 1 then None
    else if w[hi - 1] == '[' then Some(hi - 1)
    else LastOpenBracket(w, hi - 1)
  }

  /** `s.split(pat)[0]`: the text before the first occurrence of `pat`. */
  function BeforeFirst(s: string, pat: string): (r: string)
    requires pat != []
    ensures StartsWith(s, r)
    ensures forall k :: 0 <= k < |r| ==> !OccursAt(pat, s, k)
    ensures |r| < |s| ==> OccursAt(pat, s, |r|)
    decreases |s|
  {
    if |s| < |pat| then s
    else if s[..|pat|] == pat then []
    else
      var t := BeforeFirst(s[1..], pat);
      forall k | 1 <= k <= |t|
        ensures !OccursAt(pat, s, k)
      {
        OccursAtTail(pat, s, k - 1);
      }
      OccursAtTail(pat, s, |t|);
      [s[0]] + t
  }

  lemma OccursAtTail(pat: string, s: string, k: nat)
    requires s != []
    ensures OccursAt(pat, s, k + 1) <==> OccursAt(pat, s[1..], k)
  {
    if k + 1 <= |s| - |pat| {
      assert s[k + 1..k + 1 + |pat|] == s[1..][k..k + |pat|];
    }
  }

  /** The text `_NODE_DEF_RE` captures on a line, if the line matches. */
  function CapturedId(line: string): (raw: Option<string>)
    ensures raw.Some? ==> line != [] && IsSpace(line[0])
    ensures raw.Some? ==> raw.value != [] && StartsWith(LStrip(line), raw.value)
    ensures raw.Some? ==> forall k :: 0 <= k < |raw.value| ==> !IsSpace(raw.value[k])
  {
    var rest := LStrip(line);
    if |rest| == |line| then None else Capture(rest)
  }

  /** The capture on the text after the indentation: the word up to its last
      `[` that has a `]` at least two characters further on. */
  function Capture(rest: string): (raw: Option<string>)
    ensures raw.Some? ==> raw.value != [] && StartsWith(rest, raw.value)
    ensures raw.Some? ==> forall k :: 0 <= k < |raw.value| ==> !IsSpace(raw.value[k])
  {
    var w := TakeWord(rest);
    match LastIndex(rest, ']')
    case None => None
    case Some(close) =>
      if close < 2 then None
      else
        match LastOpenBracket(w, if |w| < close - 1 then |w| else close - 1)
        case None => None
        case Some(j) => Some(w[..j])
  }

  /** The node id a line defines: the captured text cut at `:::`, if any. */
  function NodeDefId(line: string): (id: Option<string>)
    ensures id.Some? <==> CapturedId(line).Some?
    ensures id.Some? ==> line != [] && IsSpace(line[0])
    ensures id.Some? ==> StartsWith(CapturedId(line).value, id.value)
  {
    match CapturedId(line)
    case Some(raw) => Some(BeforeFirst(raw, ":::"))
    case None => None
  }

  /** A node id is a prefix of the captured text that holds no whitespace and
      never the class marker `:::`. */
  lemma NodeDefIdMeaning(line: string)
    requires NodeDefId(line).Some?
    ensures forall k :: 0 <= k < |NodeDefId(line).value| ==> !IsSpace(NodeDefId(line).value[k])
    ensures !Occurs(":::", NodeDefId(line).value)
  {
    var raw := CapturedId(line).value;
    var id := BeforeFirst(raw, ":::");
    assert NodeDefId(line) == Some(id);
    forall k | 0 <= k < |id|
      ensures !IsSpace(id[k])
    {
      assert id[k] == raw[k];
    }
    if Occurs(":::", id) {
      var k :| 0 <= k <= |id| - 3 && OccursAt(":::", id, k);
      assert id == raw[..|id|];
      OccursInPrefix(":::", raw, |id|, k);
    }
  }

  /** An indented `raw[caption]` line defines the node `raw` cut at `:::`. */
  lemma NodeDefIdOfDefinition(indent: string, raw: string, caption: string, tail: string)
    requires indent != [] && forall k :: 0 <= k < |indent| ==> IsSpace(indent[k])
    requires raw != [] && forall k :: 0 <= k < |raw| ==> !IsSpace(raw[k]) && raw[k] != '['
    requires caption != [] && '[' !in caption
    requires tail == [] || IsSpace(tail[0])
    ensures NodeDefId(indent + (raw + "[" + caption + "]" + tail)) == Some(BeforeFirst(raw, ":::"))
  {
    CapturedIdOfDefinition(indent, raw, caption, tail);
  }

  lemma CapturedIdOfDefinition(indent: string, raw: string, caption: string, tail: string)
    requires indent != [] && forall k :: 0 <= k < |indent| ==> IsSpace(indent[k])
    requires raw != [] && forall k :: 0 <= k < |raw| ==> !IsSpace(raw[k]) && raw[k] != '['
    requires caption != [] && '[' !in caption
    requires tail == [] || IsSpace(tail[0])
    ensures CapturedId(indent + (raw + "[" + caption + "]" + tail)) == Some(raw)
  {
    var rest := raw + "[" + caption + "]" + tail;
    LStripOfIndent(indent, rest);
    DefinitionLayout(raw, caption, tail);
    CaptureOfRest(rest, |raw|, |raw| + 1 + |caption|);
  }

  /** Where the brackets of `raw[caption]` sit. */
  lemma DefinitionLayout(raw: string, caption: string, tail: string)
    requires forall k :: 0 <= k < |raw| ==> !IsSpace(raw[k])
    requires '[' !in caption
    ensures var rest := raw + "[" + caption + "]" + tail;
            var c := |raw| + 1 + |caption|;
            && rest[..|raw|] == raw && rest[|raw|] == '[' && rest[c] == ']'
            && (forall k :: 0 <= k < |raw| ==> !IsSpace(rest[k]))
            && (forall k :: |raw| < k < c ==> rest[k] != '[')
            && (c + 1 < |rest| ==> rest[c + 1] == tail[0])
  {
    var rest := raw + "[" + caption + "]" + tail;
    var j := |raw|;
    var c := j + 1 + |caption|;
    forall k | j < k < c
      ensures rest[k] != '['
    {
      assert rest[k] == caption[k - j - 1];
    }
    assert rest[..j] == raw;
  }

  lemma CaptureOfRest(rest: string, j: nat, c: nat)
    requires 1 <= j && j + 2 <= c < |rest| && rest[j] == '[' && rest[c] == ']'
    requires forall k :: 0 <= k < j ==> !IsSpace(rest[k])
    requires forall k :: j < k < c ==> rest[k] != '['
    requires c + 1 == |rest| || IsSpace(rest[c + 1])
    ensures Capture(rest) == Some(rest[..j])
  {
    var w := TakeWord(rest);
    WordReachesBracket(rest, j, c);
    var close := LastIndex(rest, ']').value;
    var hi := if |w| < close - 1 then |w| else close - 1;
    LastOpenBracketAt(w, hi, j);
  }

  /** The word at the start of `rest` runs past the `[` at `j` and ends by
      the `]` at `c`; it has no other `[` after `j`. */
  lemma WordReachesBracket(rest: string, j: nat, c: nat)
    requires 1 <= j < c < |rest| && rest[j] == '['
    requires forall k :: 0 <= k < j ==> !IsSpace(rest[k])
    requires forall k :: j < k < c ==> rest[k] != '['
    requires rest[c] == ']' && (c + 1 == |rest| || IsSpace(rest[c + 1]))
    ensures j < |TakeWord(rest)| <= c + 1
    ensures TakeWord(rest)[..j] == rest[..j]
    ensures forall k :: j < k < |TakeWord(rest)| ==> TakeWord(rest)[k] != '['
  {
    var w := TakeWord(rest);
    forall k | j < k < |w|
      ensures w[k] != '['
    {
      assert w[k] == rest[k];
    }
  }

  lemma {:induction false} LStripOfIndent(indent: string, rest: string)
    requires forall k :: 0 <= k < |indent| ==> IsSpace(indent[k])
    requires rest != [] && !IsSpace(rest[0])
    ensures LStrip(indent + rest) == rest
    decreases |indent|
  {
    if indent == [] {
      assert indent + rest == rest;
    } else {
      assert (indent + rest)[1..] == indent[1..] + rest;
      LStripOfIndent(indent[1..], rest);
    }
  }

  lemma {:induction false} LastOpenBracketAt(w: string, hi: nat, j: nat)
    requires 1 <= j < hi <= |w| && w[j] == '['
    requires forall k :: j < k < hi ==> w[k] != '['
    ensures LastOpenBracket(w, hi) == Some(j)
    decreases hi
  {
    if hi - 1 > j {
      LastOpenBracketAt(w, hi - 1, j);
    }
  }

  /** The ids the diagram defines: one per node definition line. */
  function DefinedIds(code: string): set<string> {
    Found(Split(code, '\n'), NodeDefId)
  }

  /** The values `parse` finds on the given lines. */
  function Found(lines: seq<string>, parse: string -> Option<string>): set<string>
    decreases |lines|
  {
    if lines == [] then {}
    else
      var last := parse(lines[|lines| - 1]);
      Found(lines[..|lines| - 1], parse) + (if last.Some? then {last.value} else {})
  }

  /** A value is found exactly when some line yields it. */
  lemma {:induction false} FoundMeaning(lines: seq<string>, parse: string -> Option<string>, x: string)
    ensures x in Found(lines, parse) <==> exists k :: 0 <= k < |lines| && parse(lines[k]) == Some(x)
    decreases |lines|
  {
    if lines != [] {
      var n := |lines| - 1;
      FoundMeaning(lines[..n], parse, x);
      if x in Found(lines[..n], parse) {
        var k :| 0 <= k < n && parse(lines[..n][k]) == Some(x);
        assert lines[k] == lines[..n][k];
      }
      if exists k :: 0 <= k < |lines| && parse(lines[k]) == Some(x) {
        var k :| 0 <= k < |lines| && parse(lines[k]) == Some(x);
        if k < n {
          assert lines[..n][k] == lines[k];
        }
      }
    }
  }

  lemma FoundStep(lines: seq<string>, parse: string -> Option<string>, i: nat)
    requires i < |lines|
    ensures Found(lines[..i + 1], parse)
         == Found(lines[..i], parse) + (if parse(lines[i]).Some? then {parse(lines[i]).value} else {})
  {
    TakeOfTake(lines, i);
    assert lines[..i + 1][i] == lines[i];
  }

  /** `_collect_defined_node_ids`. */
  method CollectDefinedNodeIds(code: string) returns (ids: set<string>)
    ensures ids == DefinedIds(code)
  {
    var lines := Split(code, '\n');
    ids := {};
    var i := 0;
    while i < |lines|
      invariant 0 <= i <= |lines|
      invariant ids == Found(lines[..i], NodeDefId)
    {
      FoundStep(lines, NodeDefId, i);
      ids := AddNodeId(ids, lines[i]);
      i := i + 1;
    }
    assert lines[..i] == lines;
  }

  /** One line of `_collect_defined_node_ids`: a definition adds its id. */
  method AddNodeId(ids: set<string>, line: string) returns (ids': set<string>)
    ensures ids' == ids + (if NodeDefId(line).Some? then {NodeDefId(line).value} else {})
  {
    ids' := ids;
    var m := NodeDefId(line);
    if m.Some? {
      ids' := ids + {m.value};
    }
  }

  // ------------------------------------------------------------ highlighting

  /** The ids of `xs` that lie in `d`, in order. */
  function KeepIn(xs: seq<string>, d: set<string>): (r: seq<string>)
    ensures forall x :: x in r <==> x in xs && x in d
    ensures NoDup(xs) ==> NoDup(r)
    decreases |xs|
  {
    if xs == [] then [] else (if xs[0] in d then [xs[0]] else []) + KeepIn(xs[1..], d)
  }

  lemma {:induction false} KeepInOrder(xs: seq<string>, d: set<string>)
    requires NoDup(xs)
    ensures forall i, j :: 0 <= i < j < |KeepIn(xs, d)| ==> IndexOf(xs, KeepIn(xs, d)[i]) < IndexOf(xs, KeepIn(xs, d)[j])
    decreases |xs|
  {
    if xs != [] {
      var t := KeepIn(xs[1..], d);
      KeepInOrder(xs[1..], d);
      forall x | x in t
        ensures IndexOf(xs, x) == 1 + IndexOf(xs[1..], x)
      {
        assert x != xs[0];
      }
    }
  }

  /** The ids `highlight_nodes` styles: the requested ids, first occurrence
      only, that the diagram defines. */
  function HighlightedIds(code: string, nodeIds: seq<string>): seq<string> {
    KeepIn(Dedup(nodeIds), DefinedIds(code))
  }

  function StyleLine(nid: string): string {
    "    style " + nid + " " + HighlightStyle
  }

  function StyleLines(ids: seq<string>): (r: seq<string>)
    ensures |r| == |ids| && forall k :: 0 <= k < |ids| ==> r[k] == StyleLine(ids[k])
  {
    seq(|ids|, k requires 0 <= k < |ids| => StyleLine(ids[k]))
  }

  /** `highlight_nodes`: append one style line per highlighted id, or return
      the code unchanged when there is nothing to highlight. */
  function HighlightNodes(code: string, nodeIds: seq<string>): (r: string)
    ensures nodeIds == [] || code == "" ==> r == code
  {
    if nodeIds == [] || code == "" then code
    else
      var h := HighlightedIds(code, nodeIds);
      if h == [] then code
      else RStrip(code) + HighlightHeader + Join(StyleLines(h), "\n") + "\n"
  }

  /** Exactly the requested ids that the diagram defines are highlighted, each
      once, in the order they were first requested. */
  lemma HighlightedIdsMeaning(code: string, nodeIds: seq<string>)
    ensures NoDup(HighlightedIds(code, nodeIds))
    ensures forall x :: x in HighlightedIds(code, nodeIds) <==> x in nodeIds && x in DefinedIds(code)
    ensures forall i, j :: 0 <= i < j < |HighlightedIds(code, nodeIds)| ==>
              IndexOf(nodeIds, HighlightedIds(code, nodeIds)[i]) < IndexOf(nodeIds, HighlightedIds(code, nodeIds)[j])
  {
    var d := Dedup(nodeIds);
    var h := HighlightedIds(code, nodeIds);
    KeepInOrder(d, DefinedIds(code));
    DedupFirstOccurrenceOrder(nodeIds);
    forall i, j | 0 <= i < j < |h|
      ensures IndexOf(nodeIds, h[i]) < IndexOf(nodeIds, h[j])
    {
      var a := IndexOf(d, h[i]);
      var b := IndexOf(d, h[j]);
      assert d[a] == h[i] && d[b] == h[j];
      assert a < b;
    }
  }

  /** With no requested id defined in the diagram, the code comes back unchanged. */
  lemma HighlightNodesUnchanged(code: string, nodeIds: seq<string>)
    requires forall x :: x in nodeIds ==> x !in DefinedIds(code)
    ensures HighlightNodes(code, nodeIds) == code
  {
    HighlightedIdsMeaning(code, nodeIds);
    if HighlightedIds(code, nodeIds) != [] {
      FirstIsMember(HighlightedIds(code, nodeIds));
    }
  }

  /** When some requested id is defined, the code (trailing whitespace
      trimmed) is kept as a prefix, followed by the header and the style lines
      of the highlighted ids, and the result ends in a newline. */
  lemma HighlightNodesAppends(code: string, nodeIds: seq<string>, x: string)
    requires code != "" && x in nodeIds && x in DefinedIds(code)
    ensures var r := HighlightNodes(code, nodeIds);
            var head := RStrip(code) + HighlightHeader;
            && HighlightedIds(code, nodeIds) != []
            && StartsWith(r, head) && EndsWith(r, "\n")
            && r[|head|..|r| - 1] == Join(StyleLines(HighlightedIds(code, nodeIds)), "\n")
  {
    HighlightedIdsMeaning(code, nodeIds);
    var h := HighlightedIds(code, nodeIds);
    assert x in h;
    ConcatParts(RStrip(code) + HighlightHeader, Join(StyleLines(h), "\n"), "\n");
  }

  // -------------------------------------------------- assessment highlights

  /** A control's components without the "all" and "none" markers. */
  function NamedComponents(comps: seq<string>): (r: seq<string>)
    ensures forall x :: x in r <==> x in comps && x != "all" && x != "none"
    decreases |comps|
  {
    if comps == [] then []
    else
      var c := comps[|comps| - 1];
      NamedComponents(comps[..|comps| - 1]) + (if c == "all" || c == "none" then [] else [c])
  }

  /** Each recommended control followed by its named components. `components`
      maps a control with details to the components those details list. */
  function ControlCandidates(controls: seq<string>, components: map<string, seq<string>>): seq<string>
    decreases |controls|
  {
    if controls == [] then []
    else
      var c := controls[|controls| - 1];
      ControlCandidates(controls[..|controls| - 1], components) + [c]
        + (if c in components then NamedComponents(components[c]) else [])
  }

  /** The nodes an assessment highlights: risks, then controls with their
      components, each once where it first appears. */
  function AssessmentHighlights(risks: seq<string>, controls: seq<string>, components: map<string, seq<string>>): seq<string> {
    Dedup(risks + ControlCandidates(controls, components))
  }

  /** `_get_assessment_highlights`. */
  method GetAssessmentHighlights(risks: seq<string>, controls: seq<string>, components: map<string, seq<string>>)
    returns (ids: seq<string>)
    ensures ids == AssessmentHighlights(risks, controls, components)
  {
    ids := AddRisks(risks);
    CandidatesStart(risks, controls, components);
    var j := 0;
    while j < |controls|
      invariant 0 <= j <= |controls|
      invariant ids == Dedup(risks + ControlCandidates(controls[..j], components))
    {
      ids := AddControl(ids, risks + ControlCandidates(controls[..j], components), controls[j], components);
      CandidatesStep(risks, controls, j, components);
      j := j + 1;
    }
    assert controls[..j] == controls;
  }

  /** The first loop of `_get_assessment_highlights`: each relevant risk once. */
  method AddRisks(risks: seq<string>) returns (ids: seq<string>)
    ensures ids == Dedup(risks)
  {
    ids := [];
    var i := 0;
    while i < |risks|
      invariant 0 <= i <= |risks|
      invariant ids == Dedup(risks[..i])
    {
      DedupStep(risks, i);
      if risks[i] !in ids {
        ids := ids + [risks[i]];
      }
      i := i + 1;
    }
    assert risks[..i] == risks;
  }

  lemma CandidatesStart(risks: seq<string>, controls: seq<string>, components: map<string, seq<string>>)
    ensures risks == risks + ControlCandidates(controls[..0], components)
  {
    assert controls[..0] == [];
    AppendEmpty(risks);
  }

  lemma CandidatesStep(risks: seq<string>, controls: seq<string>, j: nat, components: map<string, seq<string>>)
    requires j < |controls|
    ensures var before := risks + ControlCandidates(controls[..j], components) + [controls[j]];
            risks + ControlCandidates(controls[..j + 1], components)
            == if controls[j] in components then before + NamedComponents(components[controls[j]]) else before
  {
    TakeOfTake(controls, j);
    assert controls[..j + 1][j] == controls[j];
    var named := if controls[j] in components then NamedComponents(components[controls[j]]) else [];
    AppendAssoc(risks, ControlCandidates(controls[..j], components) + [controls[j]], named);
    AppendAssoc(risks, ControlCandidates(controls[..j], components), [controls[j]]);
    AppendEmpty(risks + ControlCandidates(controls[..j], components) + [controls[j]]);
  }

  /** One recommended control: the control itself if new, then its named
      components when it has details. */
  method AddControl(ids: seq<string>, ghost sofar: seq<string>, cid: string, components: map<string, seq<string>>)
    returns (out: seq<string>)
    requires ids == Dedup(sofar)
    ensures out == Dedup(if cid in components then sofar + [cid] + NamedComponents(components[cid]) else sofar + [cid])
  {
    DedupSnoc(sofar, cid);
    out := ids;
    if cid !in out {
      out := out + [cid];
    }
    if cid in components {
      out := AddComponents(out, sofar + [cid], components[cid]);
    }
  }

  /** The inner loop over one control's components: each named component
      not yet listed is appended. */
  method AddComponents(ids: seq<string>, ghost sofar: seq<string>, comps: seq<string>) returns (out: seq<string>)
    requires ids == Dedup(sofar)
    ensures out == Dedup(sofar + NamedComponents(comps))
  {
    out := ids;
    AppendEmpty(sofar);
    assert comps[..0] == [];
    var k := 0;
    while k < |comps|
      invariant 0 <= k <= |comps|
      invariant out == Dedup(sofar + NamedComponents(comps[..k]))
    {
      var comp := comps[k];
      NamedComponentsStep(comps, k);
      if comp != "all" && comp != "none" {
        DedupExtend(sofar, NamedComponents(comps[..k]), comp, out);
        if comp !in out {
          out := out + [comp];
        }
      } else {
        AppendEmpty(NamedComponents(comps[..k]));
      }
      k := k + 1;
    }
    assert comps[..k] == comps;
  }

  lemma NamedComponentsStep(comps: seq<string>, k: nat)
    requires k < |comps|
    ensures NamedComponents(comps[..k + 1])
         == NamedComponents(comps[..k]) + (if comps[k] == "all" || comps[k] == "none" then [] else [comps[k]])
  {
    TakeOfTake(comps, k);
    assert comps[..k + 1][k] == comps[k];
  }

  /** De-duplicating one more element after `sofar + a`. */
  lemma DedupExtend<T(!new)>(sofar: seq<T>, a: seq<T>, x: T, ids: seq<T>)
    requires ids == Dedup(sofar + a)
    ensures Dedup(sofar + (a + [x])) == if x in ids then ids else ids + [x]
  {
    AppendAssoc(sofar, a, [x]);
    DedupSnoc(sofar + a, x);
  }

  /** Each control and each named component of a control with details is
      highlighted, the risks come first in their own de-duplicated order, no
      id appears twice, and the "all"/"none" markers only appear when a risk
      or control is literally so named. */
  lemma AssessmentHighlightsMeaning(risks: seq<string>, controls: seq<string>, components: map<string, seq<string>>)
    ensures NoDup(AssessmentHighlights(risks, controls, components))
    ensures |Dedup(risks)| <= |AssessmentHighlights(risks, controls, components)|
    ensures AssessmentHighlights(risks, controls, components)[..|Dedup(risks)|] == Dedup(risks)
    ensures forall x :: x in risks || x in controls ==> x in AssessmentHighlights(risks, controls, components)
    ensures forall c, x :: c in controls && c in components && x in components[c] && x != "all" && x != "none"
              ==> x in AssessmentHighlights(risks, controls, components)
    ensures forall x :: x in AssessmentHighlights(risks, controls, components) && (x == "all" || x == "none")
              ==> x in risks || x in controls
  {
    DedupAppendPrefix(risks, ControlCandidates(controls, components));
    ControlCandidatesMembers(controls, components);
  }

  lemma {:induction false} ControlCandidatesMembers(controls: seq<string>, components: map<string, seq<string>>)
    ensures forall c :: c in controls ==> c in ControlCandidates(controls, components)
    ensures forall c, x :: c in controls && c in components && x in components[c] && x != "all" && x != "none"
              ==> x in ControlCandidates(controls, components)
    ensures forall x :: x in ControlCandidates(controls, components) && (x == "all" || x == "none") ==> x in controls
    decreases |controls|
  {
    if controls != [] {
      var p := controls[..|controls| - 1];
      ControlCandidatesMembers(p, components);
      assert controls == p + [controls[|controls| - 1]];
    }
  }
}
