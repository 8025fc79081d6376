/** The entity-relationship diagram generator: the schema metadata it reads
    (column rows, primary- and foreign-key columns, foreign-key constraint
    rows), the text helpers that read `CREATE TABLE` bodies, and the Mermaid
    `erDiagram` text it renders. */
module ErDiagram {
  import opened Text
  import opened Seqs

  // ---------------------------------------------------------------- names

  /** `_entity_name`: the table name in upper case. */
  function EntityName(table: string): (e: string)
    ensures |e| == |table|
    ensures forall k :: 0 <= k < |table| ==> e[k] == UpperChar(table[k])
    ensures forall k :: 0 <= k < |table| ==> !('a' <= e[k] <= 'z')
  {
    Upper(table)
  }

  /** Entity names are already canonical: naming one again changes nothing. */
  lemma EntityNameIdempotent(table: string)
    ensures EntityName(EntityName(table)) == EntityName(table)
  {
    UpperIdempotent(table);
  }

  /** `_format_type`: the Mermaid type of a column from its SQL `data_type`
      and its `udt_name` (a missing value is the empty string). */
  function FormatType(dataType: string, udtName: string): (r: string)
    ensures Lower(dataType) == "array" ==> r == LStripChar(Lower(udtName), '_') + "[]"
    ensures Lower(dataType) == "timestamp with time zone" ==> r == "timestamptz"
    ensures Lower(dataType) == "timestamp without time zone" ==> r == "timestamp"
    ensures Lower(dataType) !in {"array", "timestamp with time zone", "timestamp without time zone"} ==>
              |r| == |dataType| &&
              forall k :: 0 <= k < |r| ==> r[k] == (if dataType[k] == ' ' then '_' else LowerChar(dataType[k]))
  {
    var dt := Lower(dataType);
    var udt := Lower(udtName);
    if dt == "array" then LStripChar(udt, '_') + "[]"
    else if dt == "timestamp with time zone" then "timestamptz"
    else if dt == "timestamp without time zone" then "timestamp"
    else ReplaceChar(dt, ' ', '_')
  }

  /** The type mapping ignores the case of both inputs. */
  lemma FormatTypeIgnoresCase(dataType: string, udtName: string)
    ensures FormatType(Upper(dataType), Upper(udtName)) == FormatType(dataType, udtName)
  {
    LowerOfUpper(dataType);
    LowerOfUpper(udtName);
  }

  // ------------------------------------------------------ top-level commas

  /** Where the scanner stands: parenthesis depth and open quotes. */
  datatype Lex = Lex(depth: nat, inSingle: bool, inDouble: bool)

  /** The scanner's state: the pieces so far and the current piece. */
  datatype Scan = Scan(parts: seq<string>, buf: string, lex: Lex)

  const Start := Scan([], "", Lex(0, false, false))

  /** Appends a piece when it is non-empty. */
  function Keep(parts: seq<string>, piece: string): seq<string> {
    if piece == "" then parts else parts + [piece]
  }

  /** A comma outside quotes and parentheses ends the current piece. */
  predicate Cuts(lex: Lex, ch: char) {
    ch == ',' && !lex.inSingle && !lex.inDouble && lex.depth == 0
  }

  /** How any other character moves the scanner: a quote toggles its mode
      unless the other quote is open; outside quotes `(` and `)` move the
      depth, never below zero. */
  function Step(lex: Lex, ch: char): Lex {
    if ch == '\'' && !lex.inDouble then lex.(inSingle := !lex.inSingle)
    else if ch == '"' && !lex.inSingle then lex.(inDouble := !lex.inDouble)
    else if !lex.inSingle && !lex.inDouble && ch == '(' then lex.(depth := lex.depth + 1)
    else if !lex.inSingle && !lex.inDouble && ch == ')' then lex.(depth := if lex.depth > 0 then lex.depth - 1 else 0)
    else lex
  }

  /** One character of `_split_top_level_commas`: a cutting comma closes the
      stripped piece (kept when non-empty); any other character joins the
      current piece. */
  function Feed(sc: Scan, ch: char): Scan {
    if Cuts(sc.lex, ch) then Scan(Keep(sc.parts, Strip(sc.buf)), "", sc.lex)
    else Scan(sc.parts, sc.buf + [ch], Step(sc.lex, ch))
  }

  /** Feeds every character of `s`, in order. */
  function ScanFrom(sc: Scan, s: string): Scan
    decreases |s|
  {
    if s == [] then sc else ScanFrom(Feed(sc, s[0]), s[1..])
  }

  /** The pieces once the text is over: the stripped rest is the last one. */
  function Finish(sc: Scan): seq<string> {
    Keep(sc.parts, Strip(sc.buf))
  }

  function SplitTopLevel(text: string): seq<string> {
    Finish(ScanFrom(Start, text))
  }

  /** `_split_top_level_commas`. */
  method SplitTopLevelCommas(text: string) returns (parts: seq<string>)
    ensures parts == SplitTopLevel(text)
  {
    parts := [];
    var buf := "";
    var depth: nat := 0;
    var inSingle := false;
    var inDouble := false;
    var i := 0;
    while i < |text|
      invariant 0 <= i <= |text|
      invariant ScanFrom(Scan(parts, buf, Lex(depth, inSingle, inDouble)), text[i..]) == ScanFrom(Start, text)
    {
      ScanFromStep(Scan(parts, buf, Lex(depth, inSingle, inDouble)), text, i);
      parts, buf, depth, inSingle, inDouble := FeedChar(parts, buf, depth, inSingle, inDouble, text[i]);
      i := i + 1;
    }
    var tail := Strip(buf);
    if tail != "" {
      parts := parts + [tail];
    }
  }

  lemma ScanFromStep(sc: Scan, text: string, i: nat)
    requires i < |text|
    ensures ScanFrom(sc, text[i..]) == ScanFrom(Feed(sc, text[i]), text[i + 1..])
  {
    assert text[i..][1..] == text[i + 1..];
  }

  /** The body of the character loop of `_split_top_level_commas`. */
  method FeedChar(parts: seq<string>, buf: string, depth: nat, inSingle: bool, inDouble: bool, ch: char)
    returns (parts': seq<string>, buf': string, depth': nat, inSingle': bool, inDouble': bool)
    ensures Scan(parts', buf', Lex(depth', inSingle', inDouble')) == Feed(Scan(parts, buf, Lex(depth, inSingle, inDouble)), ch)
  {
    parts', buf', depth', inSingle', inDouble' := parts, buf, depth, inSingle, inDouble;
    if ch == '\'' && !inDouble {
      inSingle' := !inSingle;
      buf' := buf + [ch];
    } else if ch == '"' && !inSingle {
      inDouble' := !inDouble;
      buf' := buf + [ch];
    } else if !inSingle && !inDouble && ch == '(' {
      depth' := depth + 1;
      buf' := buf + [ch];
    } else if !inSingle && !inDouble && ch == ')' {
      depth' := if depth > 0 then depth - 1 else 0;
      buf' := buf + [ch];
    } else if !inSingle && !inDouble && ch == ',' && depth == 0 {
      var piece := Strip(buf);
      if piece != "" {
        parts' := parts + [piece];
      }
      buf' := "";
    } else {
      buf' := buf + [ch];
    }
  }

  /** A piece as the splitter emits it: non-empty, without surrounding whitespace. */
  predicate CleanPiece(p: string) {
    p != "" && !IsSpace(p[0]) && !IsSpace(p[|p| - 1])
  }

  lemma {:induction false} ScanFromClean(sc: Scan, s: string)
    requires forall k :: 0 <= k < |sc.parts| ==> CleanPiece(sc.parts[k])
    ensures forall k :: 0 <= k < |Finish(ScanFrom(sc, s))| ==> CleanPiece(Finish(ScanFrom(sc, s))[k])
    decreases |s|
  {
    if s == [] {
      KeepClean(sc.parts, Strip(sc.buf));
    } else {
      FeedClean(sc, s[0]);
      ScanFromClean(Feed(sc, s[0]), s[1..]);
    }
  }

  /** Appending a stripped piece keeps every piece clean. */
  lemma KeepClean(parts: seq<string>, piece: string)
    requires forall k :: 0 <= k < |parts| ==> CleanPiece(parts[k])
    requires piece != [] ==> !IsSpace(piece[0]) && !IsSpace(piece[|piece| - 1])
    ensures forall k :: 0 <= k < |Keep(parts, piece)| ==> CleanPiece(Keep(parts, piece)[k])
  {
  }

  /** One character keeps every finished piece clean. */
  lemma FeedClean(sc: Scan, ch: char)
    requires forall k :: 0 <= k < |sc.parts| ==> CleanPiece(sc.parts[k])
    ensures forall k :: 0 <= k < |Feed(sc, ch).parts| ==> CleanPiece(Feed(sc, ch).parts[k])
  {
    if Cuts(sc.lex, ch) {
      assert Feed(sc, ch) == Scan(Keep(sc.parts, Strip(sc.buf)), "", sc.lex);
      KeepClean(sc.parts, Strip(sc.buf));
    } else {
      assert Feed(sc, ch) == Scan(sc.parts, sc.buf + [ch], Step(sc.lex, ch));
    }
  }

  /** Every piece of a top-level split is non-empty and stripped. */
  lemma SplitTopLevelClean(text: string)
    ensures forall k :: 0 <= k < |SplitTopLevel(text)| ==> CleanPiece(SplitTopLevel(text)[k])
  {
    ScanFromClean(Start, text);
  }

  /** The stripped, non-empty pieces, in order. */
  function CleanPieces(xs: seq<string>): (r: seq<string>)
    ensures |r| <= |xs|
    decreases |xs|
  {
    if xs == [] then [] else Keep([], Strip(xs[0])) + CleanPieces(xs[1..])
  }

  /** A character that neither quotes nor nests. */
  predicate PlainChar(c: char) {
    c != '\'' && c != '"' && c != '(' && c != ')'
  }

  /** Text without quotes and parentheses. */
  predicate Plain(s: string) {
    forall k :: 0 <= k < |s| ==> PlainChar(s[k])
  }

  lemma CleanPiecesCons(x: string, rest: seq<string>)
    ensures CleanPieces([x] + rest) == Keep([], Strip(x)) + CleanPieces(rest)
  {
    assert ([x] + rest)[1..] == rest;
  }

  /** What the ordinary split predicts for the scan of `s` after `parts` and `buf`. */
  function PlainPrediction(parts: seq<string>, buf: string, s: string): seq<string> {
    var sp := Split(s, ',');
    parts + Keep([], Strip(buf + sp[0])) + CleanPieces(sp[1..])
  }

  const Outside := Lex(0, false, false)

  lemma PlainScanEnd(parts: seq<string>, buf: string)
    ensures Finish(ScanFrom(Scan(parts, buf, Outside), "")) == PlainPrediction(parts, buf, "")
  {
    assert buf + Split("", ',')[0] == buf;
  }

  lemma ScanComma(parts: seq<string>, buf: string, s: string)
    requires s != [] && s[0] == ','
    ensures ScanFrom(Scan(parts, buf, Outside), s) == ScanFrom(Scan(Keep(parts, Strip(buf)), "", Outside), s[1..])
  {
  }

  lemma PredictComma(parts: seq<string>, buf: string, s: string)
    requires s != [] && s[0] == ','
    ensures PlainPrediction(parts, buf, s) == PlainPrediction(Keep(parts, Strip(buf)), "", s[1..])
  {
    var rest := Split(s[1..], ',');
    SplitAtSeparator(s, ',');
    AppendEmpty(buf);
    AppendEmpty(rest[0]);
    var x := Strip(buf);
    var tail := CleanPieces(rest);
    assert tail == Keep([], Strip(rest[0])) + CleanPieces(rest[1..]);
    AppendAssoc(Keep(parts, x), Keep([], Strip(rest[0])), CleanPieces(rest[1..]));
    if x == "" {
      AppendEmpty(parts);
    } else {
      AppendEmpty([x]);
    }
    AppendAssoc(parts, Keep([], x), tail);
  }

  lemma ScanOther(parts: seq<string>, buf: string, s: string)
    requires s != [] && s[0] != ',' && PlainChar(s[0])
    ensures ScanFrom(Scan(parts, buf, Outside), s) == ScanFrom(Scan(parts, buf + [s[0]], Outside), s[1..])
  {
  }

  lemma PredictOther(parts: seq<string>, buf: string, s: string)
    requires s != [] && s[0] != ','
    ensures PlainPrediction(parts, buf, s) == PlainPrediction(parts, buf + [s[0]], s[1..])
  {
    var rest := Split(s[1..], ',');
    SplitAtOther(s, ',');
    AppendAssoc(buf, [s[0]], rest[0]);
  }

  lemma {:induction false} PlainScan(parts: seq<string>, buf: string, s: string)
    requires Plain(s)
    ensures Finish(ScanFrom(Scan(parts, buf, Outside), s)) == PlainPrediction(parts, buf, s)
    decreases |s|
  {
    if s == [] {
      PlainScanEnd(parts, buf);
    } else {
      assert PlainChar(s[0]);
      assert Plain(s[1..]) by {
        forall k | 0 <= k < |s[1..]| ensures PlainChar(s[1..][k]) {
          assert s[1..][k] == s[k + 1];
        }
      }
      if s[0] == ',' {
        PlainScan(Keep(parts, Strip(buf)), "", s[1..]);
        ScanComma(parts, buf, s);
        PredictComma(parts, buf, s);
      } else {
        PlainScan(parts, buf + [s[0]], s[1..]);
        ScanOther(parts, buf, s);
        PredictOther(parts, buf, s);
      }
    }
  }

  /** Scanning a concatenation is scanning its two parts in turn. */
  lemma {:induction false} ScanFromAppend(sc: Scan, x: string, y: string)
    ensures ScanFrom(sc, x + y) == ScanFrom(ScanFrom(sc, x), y)
    decreases |x|
  {
    if x != [] {
      assert (x + y)[0] == x[0] && (x + y)[1..] == x[1..] + y;
      ScanFromAppend(Feed(sc, x[0]), x[1..], y);
    } else {
      assert x + y == y;
    }
  }

  /** The pieces already finished are carried through the rest of the scan untouched. */
  lemma {:induction false} ScanFromParts(p: seq<string>, buf: string, lex: Lex, s: string)
    ensures var r := ScanFrom(Scan([], buf, lex), s);
            ScanFrom(Scan(p, buf, lex), s) == Scan(p + r.parts, r.buf, r.lex)
    decreases |s|
  {
    if s == [] {
      AppendEmpty(p);
    } else if Cuts(lex, s[0]) {
      var x := Strip(buf);
      ScanFromParts(Keep(p, x), "", lex, s[1..]);
      ScanFromParts(Keep([], x), "", lex, s[1..]);
      var r := ScanFrom(Scan([], "", lex), s[1..]);
      AppendEmpty(Keep([], x));
      assert Keep(p, x) == p + Keep([], x);
      AppendAssoc(p, Keep([], x), r.parts);
    } else {
      ScanFromParts(p, buf + [s[0]], Step(lex, s[0]), s[1..]);
    }
  }

  /** Characters that neither cut nor move the scanner just join the current piece. */
  lemma {:induction false} ScanKeeps(sc: Scan, b: string)
    requires forall k :: 0 <= k < |b| ==> !Cuts(sc.lex, b[k]) && Step(sc.lex, b[k]) == sc.lex
    ensures ScanFrom(sc, b) == Scan(sc.parts, sc.buf + b, sc.lex)
    decreases |b|
  {
    if b == [] {
      assert sc.buf + b == sc.buf;
    } else {
      ScanKeeps(Scan(sc.parts, sc.buf + [b[0]], sc.lex), b[1..]);
      assert sc.buf + [b[0]] + b[1..] == sc.buf + b;
    }
  }

  /** Inside parentheses, text without quotes and parentheses joins the current
      piece, commas included. */
  lemma ScanInsideParens(sc: Scan, b: string)
    requires Plain(b) && sc.lex.depth > 0 && !sc.lex.inSingle && !sc.lex.inDouble
    ensures ScanFrom(sc, b) == Scan(sc.parts, sc.buf + b, sc.lex)
  {
    ScanKeeps(sc, b);
  }

  /** Inside an open quote, text without that quote character joins the current
      piece, commas and parentheses included. */
  lemma ScanInsideQuote(sc: Scan, q: char, b: string)
    requires (q == '\'' && sc.lex.inSingle) || (q == '"' && sc.lex.inDouble)
    requires q !in b
    ensures ScanFrom(sc, b) == Scan(sc.parts, sc.buf + b, sc.lex)
  {
    forall k | 0 <= k < |b| ensures !Cuts(sc.lex, b[k]) && Step(sc.lex, b[k]) == sc.lex {
      assert b[k] != q;
    }
    ScanKeeps(sc, b);
  }

  /** Outside quotes and parentheses, text without commas, quotes and
      parentheses joins the current piece. */
  lemma ScanPlainWord(sc: Scan, a: string)
    requires sc.lex == Outside && Plain(a) && ',' !in a
    ensures ScanFrom(sc, a) == Scan(sc.parts, sc.buf + a, Outside)
  {
    forall k | 0 <= k < |a| ensures !Cuts(sc.lex, a[k]) && Step(sc.lex, a[k]) == sc.lex {
      assert PlainChar(a[k]) && a[k] != ',';
    }
    ScanKeeps(sc, a);
  }

  /** A top-level comma closes a piece that ends in a non-space character. */
  lemma CutPiece(piece: string, rest: string)
    requires piece != [] && !IsSpace(piece[|piece| - 1])
    ensures Strip(piece) != []
    ensures ScanFrom(Scan([], piece, Outside), "," + rest) == ScanFrom(Scan([Strip(piece)], "", Outside), rest)
  {
    var a := StripEndingInNonSpace(piece);
    assert ("," + rest)[0] == ',' && ("," + rest)[1..] == rest;
    assert Feed(Scan([], piece, Outside), ',') == Scan([Strip(piece)], "", Outside);
  }

  /** After a first piece, the rest splits as it would alone. */
  lemma FinishAfterPiece(x: string, rest: string)
    ensures Finish(ScanFrom(Scan([x], "", Outside), rest)) == [x] + SplitTopLevel(rest)
  {
    ScanFromParts([x], "", Outside, rest);
    var r := ScanFrom(Start, rest);
    assert Keep([x] + r.parts, Strip(r.buf)) == [x] + Keep(r.parts, Strip(r.buf));
  }

  /** Closing a piece at a top-level comma: the piece comes first, then the
      split of the rest. */
  lemma PieceThenRest(piece: string, rest: string)
    requires piece != [] && !IsSpace(piece[|piece| - 1])
    ensures ScanFrom(Scan([], piece, Outside), "," + rest) == ScanFrom(Scan([Strip(piece)], "", Outside), rest)
    ensures Finish(ScanFrom(Scan([Strip(piece)], "", Outside), rest)) == [Strip(piece)] + SplitTopLevel(rest)
  {
    CutPiece(piece, rest);
    FinishAfterPiece(Strip(piece), rest);
  }

  /** A word, then a parenthesised list without quotes or parentheses, scans
      to one open piece back outside the parentheses. */
  lemma ScanParenthesised(a: string, b: string)
    requires Plain(a) && ',' !in a && Plain(b)
    ensures ScanFrom(Start, a + "(" + b + ")") == Scan([], a + "(" + b + ")", Outside)
  {
    var inside := Lex(1, false, false);
    ScanFromAppend(Start, a, "(");
    ScanPlainWord(Start, a);
    AppendEmpty(a);
    assert ScanFrom(Start, a + "(") == Scan([], a + "(", inside);
    ScanFromAppend(Start, a + "(", b);
    ScanInsideParens(Scan([], a + "(", inside), b);
    ScanFromAppend(Start, a + "(" + b, ")");
  }

  /** A comma inside parentheses does not split: a column such as
      `price numeric(10,2)` followed by a top-level comma is one piece. */
  lemma SplitTopLevelKeepsParens(a: string, b: string, rest: string)
    requires Plain(a) && ',' !in a && Plain(b)
    ensures SplitTopLevel(a + "(" + b + ")," + rest) == [Strip(a + "(" + b + ")")] + SplitTopLevel(rest)
  {
    var piece := a + "(" + b + ")";
    assert a + "(" + b + ")," + rest == piece + ("," + rest);
    ScanFromAppend(Start, piece, "," + rest);
    ScanParenthesised(a, b);
    PieceThenRest(piece, rest);
  }

  /** A word, then a quoted text without that quote character, scans to one
      open piece back outside the quotes. */
  lemma ScanQuoted(a: string, q: char, b: string)
    requires q == '\'' || q == '"'
    requires Plain(a) && ',' !in a && q !in b
    ensures ScanFrom(Start, a + [q] + b + [q]) == Scan([], a + [q] + b + [q], Outside)
  {
    var quoted := Lex(0, q == '\'', q == '"');
    ScanFromAppend(Start, a, [q]);
    ScanPlainWord(Start, a);
    AppendEmpty(a);
    assert Step(Outside, q) == quoted;
    assert ScanFrom(Start, a + [q]) == Scan([], a + [q], quoted);
    ScanFromAppend(Start, a + [q], b);
    ScanInsideQuote(Scan([], a + [q], quoted), q, b);
    ScanFromAppend(Start, a + [q] + b, [q]);
    assert Step(quoted, q) == Outside;
  }

  /** A comma or parenthesis inside quotes does not split: a quoted name or
      default followed by a top-level comma is one piece. */
  lemma SplitTopLevelKeepsQuoted(a: string, q: char, b: string, rest: string)
    requires q == '\'' || q == '"'
    requires Plain(a) && ',' !in a && q !in b
    ensures SplitTopLevel(a + [q] + b + [q] + "," + rest) == [Strip(a + [q] + b + [q])] + SplitTopLevel(rest)
  {
    var piece := a + [q] + b + [q];
    assert piece[|piece| - 1] == q && !IsSpace(q);
    AppendAssoc(piece, ",", rest);
    ScanFromAppend(Start, piece, "," + rest);
    ScanQuoted(a, q, b);
    PieceThenRest(piece, rest);
  }

  /** Without quotes and parentheses the top-level split is an ordinary split
      on commas that drops blank pieces and strips the others. */
  lemma SplitTopLevelOfPlain(text: string)
    requires Plain(text)
    ensures SplitTopLevel(text) == CleanPieces(Split(text, ','))
  {
    var sp := Split(text, ',');
    PlainScan([], "", text);
    assert Start == Scan([], "", Outside);
    AppendEmpty(sp[0]);
    var head := Keep([], Strip(sp[0]));
    assert CleanPieces(sp) == head + CleanPieces(sp[1..]);
    AppendEmpty(head);
  }

  // --------------------------------------------------------- column names

  /** Each piece stripped of surrounding double quotes. */
  function StripQuotes(xs: seq<string>): (r: seq<string>)
    ensures |r| == |xs|
    ensures forall k :: 0 <= k < |xs| ==> r[k] == StripChar(xs[k], '"')
    decreases |xs|
  {
    if xs == [] then [] else [StripChar(xs[0], '"')] + StripQuotes(xs[1..])
  }

  /** `_parse_column_names`: the comma-separated names, blank ones dropped,
      each stripped of whitespace and then of double quotes. */
  function ParseColumnNames(csv: string): seq<string> {
    StripQuotes(CleanPieces(Split(csv, ',')))
  }

  /** No parsed name holds a comma, and none starts or ends with a double quote. */
  lemma ParseColumnNamesShape(csv: string)
    ensures var names := ParseColumnNames(csv);
            && (forall k :: 0 <= k < |names| ==> ',' !in names[k])
            && (forall k :: 0 <= k < |names| ==> names[k] != [] ==> names[k][0] != '"' && names[k][|names[k]| - 1] != '"')
  {
    var sp := Split(csv, ',');
    var pieces := CleanPieces(sp);
    SplitPiecesOmitSeparator(csv, ',');
    CleanPiecesNoSeparator(sp);
    StripQuotesKeepsComma(pieces);
    StripQuotesUnquoted(pieces);
    assert ParseColumnNames(csv) == StripQuotes(pieces);
  }

  lemma StripQuotesKeepsComma(xs: seq<string>)
    requires forall k :: 0 <= k < |xs| ==> ',' !in xs[k]
    ensures forall k :: 0 <= k < |StripQuotes(xs)| ==> ',' !in StripQuotes(xs)[k]
  {
    forall k | 0 <= k < |xs| ensures ',' !in StripQuotes(xs)[k] {
      StripCharKeepsAbsent(xs[k], '"', ',');
    }
  }

  lemma StripQuotesUnquoted(xs: seq<string>)
    ensures var r := StripQuotes(xs);
            forall k :: 0 <= k < |r| ==> r[k] != [] ==> r[k][0] != '"' && r[k][|r[k]| - 1] != '"'
  {
    forall k | 0 <= k < |xs| ensures StripQuotes(xs)[k] == StripChar(xs[k], '"') {
    }
  }

  lemma {:induction false} CleanPiecesNoSeparator(xs: seq<string>)
    requires forall k :: 0 <= k < |xs| ==> ',' !in xs[k]
    ensures forall k :: 0 <= k < |CleanPieces(xs)| ==> ',' !in CleanPieces(xs)[k]
    decreases |xs|
  {
    if xs != [] {
      forall k | 0 <= k < |xs[1..]| ensures ',' !in xs[1..][k] {
        assert xs[1..][k] == xs[k + 1];
      }
      CleanPiecesNoSeparator(xs[1..]);
      StripKeepsAbsent(xs[0], ',');
      AllOfAppend(Keep([], Strip(xs[0])), CleanPieces(xs[1..]), p => ',' !in p);
    }
  }

  lemma {:induction false} CleanPiecesOfClean(xs: seq<string>)
    requires forall k :: 0 <= k < |xs| ==> CleanPiece(xs[k])
    ensures CleanPieces(xs) == xs
    decreases |xs|
  {
    if xs != [] {
      var x, rest := xs[0], xs[1..];
      assert CleanPiece(x);
      forall k | 0 <= k < |rest| ensures CleanPiece(rest[k]) {
        assert rest[k] == xs[k + 1];
      }
      CleanPiecesOfClean(rest);
      StripUnchanged(x);
      assert Keep([], Strip(x)) == [x];
      ConsOfTail(xs);
      assert xs == [x] + rest;
      CleanPiecesCons(x, rest);
    }
  }

  lemma {:induction false} StripQuotesOfUnquoted(xs: seq<string>)
    requires forall k :: 0 <= k < |xs| ==> xs[k] != [] ==> xs[k][0] != '"' && xs[k][|xs[k]| - 1] != '"'
    ensures StripQuotes(xs) == xs
    decreases |xs|
  {
    if xs != [] {
      var x, rest := xs[0], xs[1..];
      forall k | 0 <= k < |rest| ensures rest[k] != [] ==> rest[k][0] != '"' && rest[k][|rest[k]| - 1] != '"' {
        assert rest[k] == xs[k + 1];
      }
      StripQuotesOfUnquoted(rest);
      StripCharUnchanged(x, '"');
      assert StripQuotes(xs) == [StripChar(x, '"')] + StripQuotes(rest);
      ConsOfTail(xs);
    }
  }

  /** A plain column name: non-empty, no comma, no surrounding whitespace or quotes. */
  predicate PlainName(n: string) {
    CleanPiece(n) && ',' !in n && n[0] != '"' && n[|n| - 1] != '"'
  }

  /** Names written out comma-separated are read back unchanged. */
  lemma ParseColumnNamesOfJoin(names: seq<string>)
    requires forall k :: 0 <= k < |names| ==> PlainName(names[k])
    ensures ParseColumnNames(Join(names, ",")) == names
  {
    if names == [] {
      assert Split("", ',') == [""];
      assert CleanPieces([""]) == [];
    } else {
      JoinThenSplit(names, ',');
      CleanPiecesOfClean(names);
      StripQuotesOfUnquoted(names);
    }
  }

  /** On plain text the name list is the top-level split with quotes stripped. */
  lemma ParseColumnNamesIsTopLevelSplit(csv: string)
    requires Plain(csv)
    ensures ParseColumnNames(csv) == StripQuotes(SplitTopLevel(csv))
  {
    SplitTopLevelOfPlain(csv);
  }

  // ---------------------------------------------------------- column types

  /** The words that end a column's type in a column definition. */
  const ConstraintKeywords: set<string> :=
    {"PRIMARY", "REFERENCES", "NOT", "NULL", "DEFAULT", "CHECK", "UNIQUE", "CONSTRAINT", "COLLATE", "GENERATED"}

  predicate IsConstraintKeyword(token: string) {
    Upper(token) in ConstraintKeywords
  }

  /** The tokens before the first constraint keyword. */
  function TypeTokens(tokens: seq<string>): (r: seq<string>)
    ensures |r| <= |tokens| && r == tokens[..|r|]
    ensures forall k :: 0 <= k < |r| ==> !IsConstraintKeyword(r[k])
    ensures |r| < |tokens| ==> IsConstraintKeyword(tokens[|r|])
    decreases |tokens|
  {
    if tokens == [] || IsConstraintKeyword(tokens[0]) then [] else [tokens[0]] + TypeTokens(tokens[1..])
  }

  function ColumnType(rest: string): string {
    StripChar(Strip(Join(TypeTokens(Words(rest)), " ")), ',')
  }

  /** `_parse_column_type`: the words of the definition up to the first
      constraint keyword (in any case), space-joined, without surrounding
      whitespace and commas. */
  method ParseColumnType(rest: string) returns (t: string)
    ensures t == ColumnType(rest)
  {
    var tokens := Words(rest);
    var out := TakeTypeTokens(tokens);
    t := StripChar(Strip(Join(out, " ")), ',');
  }

  /** The token loop of `_parse_column_type`: collect tokens until the first keyword. */
  method TakeTypeTokens(tokens: seq<string>) returns (out: seq<string>)
    ensures out == TypeTokens(tokens)
  {
    out := [];
    var i := 0;
    while i < |tokens|
      invariant 0 <= i <= |tokens|
      invariant out == tokens[..i]
      invariant forall k :: 0 <= k < i ==> !IsConstraintKeyword(tokens[k])
    {
      if IsConstraintKeyword(tokens[i]) {
        break;
      }
      TakeStep(tokens, i);
      out := out + [tokens[i]];
      i := i + 1;
    }
    TypeTokensStop(tokens, i);
  }

  lemma {:induction false} TypeTokensStop(tokens: seq<string>, i: nat)
    requires i <= |tokens|
    requires forall k :: 0 <= k < i ==> !IsConstraintKeyword(tokens[k])
    requires i < |tokens| ==> IsConstraintKeyword(tokens[i])
    ensures TypeTokens(tokens) == tokens[..i]
    decreases i
  {
    if i > 0 {
      var tail := tokens[1..];
      assert forall k :: 0 <= k < i - 1 ==> !IsConstraintKeyword(tail[k]) by {
        forall k | 0 <= k < i - 1 ensures !IsConstraintKeyword(tail[k]) {
          assert tail[k] == tokens[k + 1];
        }
      }
      TypeTokensStop(tail, i - 1);
      assert !IsConstraintKeyword(tokens[0]);
      assert tokens[..i] == [tokens[0]] + tail[..i - 1];
    }
  }

  // ------------------------------------------------------------- grouping

  /** A row of `information_schema.columns` (a missing value is the empty string). */
  datatype Column = Column(tableName: string, columnName: string, dataType: string, udtName: string)

  /** The columns of `table`, in their order. */
  function ColumnsOf(columns: seq<Column>, table: string): (r: seq<Column>)
    ensures forall c :: c in r <==> c in columns && c.tableName == table
    decreases |columns|
  {
    if columns == [] then []
    else
      var prefix := columns[..|columns| - 1];
      var last := columns[|columns| - 1];
      assert columns == prefix + [last];
      ColumnsOf(prefix, table) + (if last.tableName == table then [last] else [])
  }

  lemma ColumnsOfStep(columns: seq<Column>, i: nat)
    requires i < |columns|
    ensures forall t :: ColumnsOf(columns[..i + 1], t) ==
                        ColumnsOf(columns[..i], t) + (if columns[i].tableName == t then [columns[i]] else [])
  {
    TakeOfTake(columns, i);
  }

  /** The grouping after the first `i` columns: a table is a key exactly when
      it has columns among them, and its list holds them in order. */
  ghost predicate ColumnsGroupedUpTo(columns: seq<Column>, i: nat, grouped: map<string, seq<Column>>)
    requires i <= |columns|
  {
    && (forall t :: t in grouped <==> ColumnsOf(columns[..i], t) != [])
    && (forall t :: t in grouped ==> grouped[t] == ColumnsOf(columns[..i], t))
  }

  /** Appending column `i` to its table's list keeps the grouping. */
  lemma ColumnsGroupedStep(columns: seq<Column>, i: nat, grouped: map<string, seq<Column>>)
    requires i < |columns| && ColumnsGroupedUpTo(columns, i, grouped)
    ensures var col := columns[i];
            var current := if col.tableName in grouped then grouped[col.tableName] else [];
            ColumnsGroupedUpTo(columns, i + 1, grouped[col.tableName := current + [col]])
  {
    var col := columns[i];
    var current := if col.tableName in grouped then grouped[col.tableName] else [];
    var next := grouped[col.tableName := current + [col]];
    ColumnsOfStep(columns, i);
    AppendEmpty([col]);
    forall t ensures t in next <==> ColumnsOf(columns[..i + 1], t) != [] {
    }
    forall t | t in next ensures next[t] == ColumnsOf(columns[..i + 1], t) {
    }
  }

  /** `_group_columns_by_table`: a table is a key exactly when it has columns,
      and its list holds its columns in their order. */
  method GroupColumnsByTable(columns: seq<Column>) returns (grouped: map<string, seq<Column>>)
    ensures forall t :: t in grouped <==> ColumnsOf(columns, t) != []
    ensures forall t :: t in grouped ==> grouped[t] == ColumnsOf(columns, t)
  {
    grouped := map[];
    var i := 0;
    while i < |columns|
      invariant 0 <= i <= |columns| && ColumnsGroupedUpTo(columns, i, grouped)
    {
      var col := columns[i];
      ColumnsGroupedStep(columns, i, grouped);
      var t := col.tableName;
      var current := if t in grouped then grouped[t] else [];
      grouped := grouped[t := current + [col]];
      i := i + 1;
    }
    assert columns[..i] == columns;
  }

  /** `columns_by_table.get(table, [])`. */
  function ColumnsFor(grouped: map<string, seq<Column>>, table: string): seq<Column> {
    if table in grouped then grouped[table] else []
  }

  /** A row of the foreign-key query: one column pair of one constraint. */
  datatype FkRow = FkRow(constraintName: string, childTable: string, childColumn: string,
                         parentTable: string, parentColumn: string)

  /** One foreign-key constraint with its `(parent_column, child_column)` pairs. */
  datatype FkGroup = FkGroup(constraintName: string, childTable: string, parentTable: string,
                             pairs: seq<(string, string)>)

  function ConstraintNames(rows: seq<FkRow>): seq<string> {
    seq(|rows|, k requires 0 <= k < |rows| => rows[k].constraintName)
  }

  /** The column pairs of constraint `name`, in row order. */
  function PairsOf(rows: seq<FkRow>, name: string): seq<(string, string)>
    decreases |rows|
  {
    if rows == [] then []
    else
      var last := rows[|rows| - 1];
      PairsOf(rows[..|rows| - 1], name) + (if last.constraintName == name then [(last.parentColumn, last.childColumn)] else [])
  }

  /** The first row of constraint `name`. */
  function FirstRowOf(rows: seq<FkRow>, name: string): (r: FkRow)
    requires name in ConstraintNames(rows)
    ensures r in rows && r.constraintName == name
  {
    rows[IndexOf(ConstraintNames(rows), name)]
  }

  /** The group of constraint `name`: tables from its first row, all its pairs. */
  function GroupOf(rows: seq<FkRow>, name: string): FkGroup
    requires name in ConstraintNames(rows)
  {
    var first := FirstRowOf(rows, name);
    FkGroup(name, first.childTable, first.parentTable, PairsOf(rows, name))
  }

  /** One group per constraint, in the order the constraints first appear. */
  function FkGroups(rows: seq<FkRow>): seq<FkGroup> {
    var order := Dedup(ConstraintNames(rows));
    seq(|order|, k requires 0 <= k < |order| => GroupOf(rows, order[k]))
  }

  /** How the groups change when one more row is read. */
  lemma GroupStep(p: seq<FkRow>, r: FkRow)
    ensures ConstraintNames(p + [r]) == ConstraintNames(p) + [r.constraintName]
    ensures forall n :: n in ConstraintNames(p) && n != r.constraintName ==> GroupOf(p + [r], n) == GroupOf(p, n)
    ensures r.constraintName in ConstraintNames(p) ==>
              GroupOf(p + [r], r.constraintName) ==
              GroupOf(p, r.constraintName).(pairs := GroupOf(p, r.constraintName).pairs + [(r.parentColumn, r.childColumn)])
    ensures r.constraintName !in ConstraintNames(p) ==>
              GroupOf(p + [r], r.constraintName) ==
              FkGroup(r.constraintName, r.childTable, r.parentTable, [(r.parentColumn, r.childColumn)])
  {
    var names := ConstraintNames(p);
    assert ConstraintNames(p + [r]) == names + [r.constraintName];
    assert (p + [r])[..|p|] == p;
    forall n | n in names
      ensures FirstRowOf(p + [r], n) == FirstRowOf(p, n)
    {
      IndexOfPrefix(names, r.constraintName, n);
    }
    if r.constraintName !in names {
      assert IndexOf(names + [r.constraintName], r.constraintName) == |p|;
      assert PairsOf(p, r.constraintName) == [] by {
        PairsOfAbsent(p, r.constraintName);
      }
    }
  }

  lemma {:induction false} PairsOfAbsent(rows: seq<FkRow>, name: string)
    requires name !in ConstraintNames(rows)
    ensures PairsOf(rows, name) == []
    decreases |rows|
  {
    if rows != [] {
      var prefix := rows[..|rows| - 1];
      assert ConstraintNames(prefix) == ConstraintNames(rows)[..|rows| - 1];
      PairsOfAbsent(prefix, name);
      assert rows[|rows| - 1].constraintName == ConstraintNames(rows)[|rows| - 1];
    }
  }

  /** The groups keyed by constraint name after one more row: a new name
      starts a group with the row's tables; every row adds its pair. */
  function WithRow(grouped: map<string, FkGroup>, row: FkRow): map<string, FkGroup> {
    var name := row.constraintName;
    var g := if name in grouped then grouped[name] else FkGroup(name, row.childTable, row.parentTable, []);
    grouped[name := g.(pairs := g.pairs + [(row.parentColumn, row.childColumn)])]
  }

  /** The grouping state after reading the rows `p`. */
  ghost predicate Grouped(p: seq<FkRow>, grouped: map<string, FkGroup>, order: seq<string>) {
    && order == Dedup(ConstraintNames(p))
    && (forall n :: n in grouped <==> n in ConstraintNames(p))
    && (forall n :: n in grouped ==> grouped[n] == GroupOf(p, n))
  }

  /** Reading one more row keeps the grouping state. */
  lemma GroupedSnoc(p: seq<FkRow>, row: FkRow, grouped: map<string, FkGroup>, order: seq<string>)
    requires Grouped(p, grouped, order)
    ensures var name := row.constraintName;
            Grouped(p + [row], WithRow(grouped, row), if name in grouped then order else order + [name])
  {
    var name := row.constraintName;
    var names, names' := ConstraintNames(p), ConstraintNames(p + [row]);
    var next := WithRow(grouped, row);
    GroupStep(p, row);
    assert names' == names + [name];
    assert name in grouped <==> name in names;
    assert (if name in grouped then order else order + [name]) == Dedup(names') by {
      DedupSnoc(names, name);
    }
    assert forall n :: n in next <==> n in names' by {
      forall n ensures n in next <==> n in names' {
        assert n in names' <==> n in names || n == name;
      }
    }
    forall n | n in next ensures next[n] == GroupOf(p + [row], n) {
      if n != name {
        assert next[n] == grouped[n];
      }
    }
  }

  /** The body of the row loop of `_group_fk_relationships`. */
  method AddFkRow(grouped: map<string, FkGroup>, order: seq<string>, row: FkRow)
    returns (grouped': map<string, FkGroup>, order': seq<string>)
    ensures grouped' == WithRow(grouped, row)
    ensures order' == if row.constraintName in grouped then order else order + [row.constraintName]
  {
    var name := row.constraintName;
    grouped', order' := grouped, order;
    if name !in grouped' {
      grouped' := grouped'[name := FkGroup(name, row.childTable, row.parentTable, [])];
      order' := order' + [name];
    }
    var g := grouped'[name];
    grouped' := grouped'[name := g.(pairs := g.pairs + [(row.parentColumn, row.childColumn)])];
  }

  /** `_group_fk_relationships`: rows grouped by constraint name, in the
      order the names first appear. */
  method GroupFkRelationships(rows: seq<FkRow>) returns (groups: seq<FkGroup>)
    ensures groups == FkGroups(rows)
  {
    var grouped: map<string, FkGroup> := map[];
    var order: seq<string> := [];
    var i := 0;
    while i < |rows|
      invariant 0 <= i <= |rows| && Grouped(rows[..i], grouped, order)
    {
      TakeStep(rows, i);
      GroupedSnoc(rows[..i], rows[i], grouped, order);
      grouped, order := AddFkRow(grouped, order, rows[i]);
      i := i + 1;
    }
    assert rows[..i] == rows;
    groups := seq(|order|, k requires 0 <= k < |order| => grouped[order[k]]);
  }

  /** The groups name each constraint once, in the order the constraints
      first appear among the rows. */
  lemma FkGroupsOrder(rows: seq<FkRow>)
    ensures var groups := FkGroups(rows);
            && (forall j :: 0 <= j < |groups| ==> groups[j].constraintName in ConstraintNames(rows))
            && (forall k :: 0 <= k < |rows| ==> exists j :: 0 <= j < |groups| && groups[j].constraintName == rows[k].constraintName)
            && (forall i, j :: 0 <= i < j < |groups| ==>
                  IndexOf(ConstraintNames(rows), groups[i].constraintName) < IndexOf(ConstraintNames(rows), groups[j].constraintName))
  {
    var names := ConstraintNames(rows);
    var order := Dedup(names);
    var groups := FkGroups(rows);
    DedupFirstOccurrenceOrder(names);
    assert forall j :: 0 <= j < |groups| ==> groups[j].constraintName == order[j];
    forall k | 0 <= k < |rows|
      ensures exists j :: 0 <= j < |groups| && groups[j].constraintName == rows[k].constraintName
    {
      assert names[k] == rows[k].constraintName;
      var j := IndexOf(order, names[k]);
      assert groups[j].constraintName == order[j];
    }
  }

  /** A pair is listed for a constraint exactly when some row of that constraint gives it. */
  lemma {:induction false} PairsOfMeaning(rows: seq<FkRow>, name: string, pair: (string, string))
    ensures pair in PairsOf(rows, name) <==>
              exists k :: 0 <= k < |rows| && rows[k].constraintName == name && pair == (rows[k].parentColumn, rows[k].childColumn)
    decreases |rows|
  {
    if rows != [] {
      var prefix := rows[..|rows| - 1];
      PairsOfMeaning(prefix, name, pair);
      if pair in PairsOf(rows, name) && pair !in PairsOf(prefix, name) {
        assert rows[|rows| - 1].constraintName == name;
      }
      if exists k :: 0 <= k < |rows| && rows[k].constraintName == name && pair == (rows[k].parentColumn, rows[k].childColumn) {
        var k :| 0 <= k < |rows| && rows[k].constraintName == name && pair == (rows[k].parentColumn, rows[k].childColumn);
        if k < |rows| - 1 {
          assert prefix[k] == rows[k];
        }
      }
    }
  }

  /** Every row's column pair lands in the group of its constraint, whose
      tables are those of the constraint's first row. */
  lemma RowInItsGroup(rows: seq<FkRow>, k: nat) returns (j: nat)
    requires k < |rows|
    ensures j < |FkGroups(rows)|
    ensures FkGroups(rows)[j].constraintName == rows[k].constraintName
    ensures (rows[k].parentColumn, rows[k].childColumn) in FkGroups(rows)[j].pairs
    ensures exists f :: 0 <= f <= k && rows[f].constraintName == rows[k].constraintName &&
              FkGroups(rows)[j].childTable == rows[f].childTable && FkGroups(rows)[j].parentTable == rows[f].parentTable &&
              forall e :: 0 <= e < f ==> rows[e].constraintName != rows[k].constraintName
  {
    var names := ConstraintNames(rows);
    var name := rows[k].constraintName;
    assert names[k] == name;
    var order := Dedup(names);
    j := IndexOf(order, name);
    PairsOfMeaning(rows, name, (rows[k].parentColumn, rows[k].childColumn));
    var f := IndexOf(names, name);
    assert rows[f].constraintName == names[f];
    forall e | 0 <= e < f ensures rows[e].constraintName != name {
      assert rows[e].constraintName == names[e];
    }
  }

  // ------------------------------------------------------------- rendering

  /** The key tags of a column: "PK" when it is in the primary key, then "FK"
      when it is in a foreign key. */
  function Tags(key: (string, string), pk: set<(string, string)>, fk: set<(string, string)>): seq<string> {
    (if key in pk then ["PK"] else []) + (if key in fk then ["FK"] else [])
  }

  /** The tags as they follow the column name: each preceded by a space. */
  function TagText(tags: seq<string>): string {
    if tags == [] then "" else " " + Join(tags, " ")
  }

  /** One attribute line of an entity: type, name and key tags. */
  function ColumnLine(table: string, col: Column, pk: set<(string, string)>, fk: set<(string, string)>): string {
    "    " + FormatType(col.dataType, col.udtName) + " " + col.columnName + TagText(Tags((table, col.columnName), pk, fk))
  }

  lemma TagTextOf(key: (string, string), pk: set<(string, string)>, fk: set<(string, string)>)
    ensures TagText(Tags(key, pk, fk)) ==
            if key in pk && key in fk then " PK FK" else if key in pk then " PK" else if key in fk then " FK" else ""
  {
    if key in pk && key in fk {
      assert Tags(key, pk, fk) == ["PK", "FK"];
      assert Join(["PK", "FK"], " ") == "PK FK";
    } else if key in pk {
      assert Tags(key, pk, fk) == ["PK"];
    } else if key in fk {
      assert Tags(key, pk, fk) == ["FK"];
    }
  }

  /** A line is told apart by what follows a common head. */
  lemma SuffixDecides(head: string, a: string, b: string)
    ensures head + a == head + b <==> a == b
  {
    if head + a == head + b {
      assert (head + a)[|head|..] == a;
      assert (head + b)[|head|..] == b;
    }
  }

  /** The suffix of an attribute line says which keys the column belongs to. */
  lemma ColumnLineTags(table: string, col: Column, pk: set<(string, string)>, fk: set<(string, string)>)
    ensures var line := ColumnLine(table, col, pk, fk);
            var key := (table, col.columnName);
            var head := "    " + FormatType(col.dataType, col.udtName) + " " + col.columnName;
            && StartsWith(line, head)
            && (key in pk && key in fk <==> line == head + " PK FK")
            && (key in pk && key !in fk <==> line == head + " PK")
            && (key !in pk && key in fk <==> line == head + " FK")
            && (key !in pk && key !in fk <==> line == head)
  {
    var key := (table, col.columnName);
    var head := "    " + FormatType(col.dataType, col.udtName) + " " + col.columnName;
    var tail := TagText(Tags(key, pk, fk));
    TagTextOf(key, pk, fk);
    assert (head + tail)[..|head|] == head;
    SuffixDecides(head, tail, " PK FK");
    SuffixDecides(head, tail, " PK");
    SuffixDecides(head, tail, " FK");
    SuffixDecides(head, tail, "");
    assert head + "" == head;
    assert " PK" != " FK" by {
      assert " PK"[1] != " FK"[1];
    }
  }

  function ColumnLines(table: string, cols: seq<Column>, pk: set<(string, string)>, fk: set<(string, string)>): seq<string>
    decreases |cols|
  {
    if cols == [] then []
    else ColumnLines(table, cols[..|cols| - 1], pk, fk) + [ColumnLine(table, cols[|cols| - 1], pk, fk)]
  }

  /** The block of one table: header, one line per column, closing brace. */
  function EntityBlock(table: string, grouped: map<string, seq<Column>>, pk: set<(string, string)>, fk: set<(string, string)>): seq<string> {
    ["  " + EntityName(table) + " {"] + ColumnLines(table, ColumnsFor(grouped, table), pk, fk) + ["  }"]
  }

  function EntityLines(tables: seq<string>, grouped: map<string, seq<Column>>, pk: set<(string, string)>, fk: set<(string, string)>): seq<string>
    decreases |tables|
  {
    if tables == [] then []
    else EntityLines(tables[..|tables| - 1], grouped, pk, fk) + EntityBlock(tables[|tables| - 1], grouped, pk, fk)
  }

  /** `parent_col->child_col` for each pair, comma-separated. */
  function PairsText(pairs: seq<(string, string)>): string {
    Join(seq(|pairs|, k requires 0 <= k < |pairs| => pairs[k].0 + "->" + pairs[k].1), ", ")
  }

  /** The relationship line of one constraint: the parent has zero or more children. */
  function RelationLine(rel: FkGroup): string {
    "  " + EntityName(rel.parentTable) + " ||--o{ " + EntityName(rel.childTable) + " : \"" + PairsText(rel.pairs) + "\""
  }

  function RelationLines(rels: seq<FkGroup>): seq<string>
    decreases |rels|
  {
    if rels == [] then [] else RelationLines(rels[..|rels| - 1]) + [RelationLine(rels[|rels| - 1])]
  }

  function MermaidLines(tables: seq<string>, grouped: map<string, seq<Column>>, pk: set<(string, string)>,
                        fk: set<(string, string)>, rels: seq<FkGroup>): seq<string> {
    ["erDiagram"] + EntityLines(tables, grouped, pk, fk) + RelationLines(rels) + [""]
  }

  function Mermaid(tables: seq<string>, grouped: map<string, seq<Column>>, pk: set<(string, string)>,
                   fk: set<(string, string)>, rels: seq<FkGroup>): string {
    Join(MermaidLines(tables, grouped, pk, fk, rels), "\n")
  }

  /** `_render_mermaid`. */
  method RenderMermaid(tables: seq<string>, grouped: map<string, seq<Column>>, pk: set<(string, string)>,
                       fk: set<(string, string)>, rels: seq<FkGroup>) returns (text: string)
    ensures text == Mermaid(tables, grouped, pk, fk, rels)
  {
    var lines := ["erDiagram"];
    var i := 0;
    while i < |tables|
      invariant 0 <= i <= |tables|
      invariant lines == ["erDiagram"] + EntityLines(tables[..i], grouped, pk, fk)
    {
      var block := RenderEntity(tables[i], grouped, pk, fk);
      EntityLinesStep(tables, i, grouped, pk, fk);
      AppendAssoc(["erDiagram"], EntityLines(tables[..i], grouped, pk, fk), block);
      lines := lines + block;
      i := i + 1;
    }
    assert tables[..i] == tables;
    ghost var head := lines;
    var j := 0;
    while j < |rels|
      invariant 0 <= j <= |rels|
      invariant lines == head + RelationLines(rels[..j])
    {
      RelationLinesStep(rels, j);
      AppendAssoc(head, RelationLines(rels[..j]), [RelationLine(rels[j])]);
      lines := lines + [RelationLine(rels[j])];
      j := j + 1;
    }
    assert rels[..j] == rels;
    lines := lines + [""];
    text := Join(lines, "\n");
  }

  lemma EntityLinesStep(tables: seq<string>, i: nat, grouped: map<string, seq<Column>>, pk: set<(string, string)>,
                        fk: set<(string, string)>)
    requires i < |tables|
    ensures EntityLines(tables[..i + 1], grouped, pk, fk) ==
            EntityLines(tables[..i], grouped, pk, fk) + EntityBlock(tables[i], grouped, pk, fk)
  {
    TakeOfTake(tables, i);
  }

  lemma RelationLinesStep(rels: seq<FkGroup>, j: nat)
    requires j < |rels|
    ensures RelationLines(rels[..j + 1]) == RelationLines(rels[..j]) + [RelationLine(rels[j])]
  {
    TakeOfTake(rels, j);
  }

  /** The block of one table, as the table loop of `_render_mermaid` writes it. */
  method RenderEntity(table: string, grouped: map<string, seq<Column>>, pk: set<(string, string)>,
                      fk: set<(string, string)>) returns (block: seq<string>)
    ensures block == EntityBlock(table, grouped, pk, fk)
  {
    block := ["  " + EntityName(table) + " {"];
    block := AppendColumnLines(block, table, ColumnsFor(grouped, table), pk, fk);
    block := block + ["  }"];
  }

  /** Appends one attribute line per column. */
  method AppendColumnLines(lines0: seq<string>, table: string, cols: seq<Column>,
                           pk: set<(string, string)>, fk: set<(string, string)>) returns (lines: seq<string>)
    ensures lines == lines0 + ColumnLines(table, cols, pk, fk)
  {
    lines := lines0;
    AppendEmpty(lines0);
    var j := 0;
    while j < |cols|
      invariant 0 <= j <= |cols|
      invariant lines == lines0 + ColumnLines(table, cols[..j], pk, fk)
    {
      TakeOfTake(cols, j);
      var line := ColumnLine(table, cols[j], pk, fk);
      AppendAssoc(lines0, ColumnLines(table, cols[..j], pk, fk), [line]);
      lines := lines + [line];
      j := j + 1;
    }
    assert cols[..j] == cols;
  }

  /** Attribute line `k` belongs to column `k`. */
  lemma {:induction false} ColumnLinesAt(table: string, cols: seq<Column>, pk: set<(string, string)>, fk: set<(string, string)>)
    ensures |ColumnLines(table, cols, pk, fk)| == |cols|
    ensures forall k :: 0 <= k < |cols| ==> ColumnLines(table, cols, pk, fk)[k] == ColumnLine(table, cols[k], pk, fk)
    decreases |cols|
  {
    if cols != [] {
      var prefix := cols[..|cols| - 1];
      var before := ColumnLines(table, prefix, pk, fk);
      var last := ColumnLine(table, cols[|cols| - 1], pk, fk);
      ColumnLinesAt(table, prefix, pk, fk);
      assert ColumnLines(table, cols, pk, fk) == before + [last];
      forall k | 0 <= k < |cols|
        ensures ColumnLines(table, cols, pk, fk)[k] == ColumnLine(table, cols[k], pk, fk)
      {
        if k < |cols| - 1 {
          assert (before + [last])[k] == before[k];
          assert prefix[k] == cols[k];
        }
      }
    }
  }

  /** A table's block opens with its entity name, closes with a brace, and
      lists its grouped columns in between; a table without columns gets an
      empty block. */
  lemma EntityBlockShape(table: string, grouped: map<string, seq<Column>>, pk: set<(string, string)>, fk: set<(string, string)>)
    ensures var block := EntityBlock(table, grouped, pk, fk);
            var cols := ColumnsFor(grouped, table);
            && |block| == |cols| + 2
            && block[0] == "  " + EntityName(table) + " {"
            && block[|block| - 1] == "  }"
            && (forall k :: 0 <= k < |cols| ==> block[k + 1] == ColumnLine(table, cols[k], pk, fk))
            && (table !in grouped ==> block == ["  " + EntityName(table) + " {", "  }"])
  {
    var cols := ColumnsFor(grouped, table);
    var mid := ColumnLines(table, cols, pk, fk);
    ColumnLinesAt(table, cols, pk, fk);
    Bracketed("  " + EntityName(table) + " {", mid, "  }");
    if table !in grouped {
      assert mid == [];
    }
  }

  /** Where the parts of a bracketed sequence sit. */
  lemma Bracketed<T>(a: T, m: seq<T>, z: T)
    ensures var s := [a] + m + [z];
            |s| == |m| + 2 && s[0] == a && s[|s| - 1] == z
            && (forall k :: 0 <= k < |m| ==> s[k + 1] == m[k])
            && (m == [] ==> s == [a, z])
  {
  }

  /** Relationship line `k` belongs to constraint `k`. */
  lemma {:induction false} RelationLinesAt(rels: seq<FkGroup>)
    ensures |RelationLines(rels)| == |rels|
    ensures forall k :: 0 <= k < |rels| ==> RelationLines(rels)[k] == RelationLine(rels[k])
    decreases |rels|
  {
    if rels != [] {
      var prefix := rels[..|rels| - 1];
      var before := RelationLines(prefix);
      var last := RelationLine(rels[|rels| - 1]);
      RelationLinesAt(prefix);
      assert RelationLines(rels) == before + [last];
      forall k | 0 <= k < |rels|
        ensures RelationLines(rels)[k] == RelationLine(rels[k])
      {
        if k < |rels| - 1 {
          assert (before + [last])[k] == before[k];
          assert prefix[k] == rels[k];
        }
      }
    }
  }

  /** The diagram text opens with the `erDiagram` keyword line and ends with a newline. */
  lemma MermaidFrame(tables: seq<string>, grouped: map<string, seq<Column>>, pk: set<(string, string)>,
                     fk: set<(string, string)>, rels: seq<FkGroup>)
    ensures StartsWith(Mermaid(tables, grouped, pk, fk, rels), "erDiagram\n")
    ensures EndsWith(Mermaid(tables, grouped, pk, fk, rels), "\n")
  {
    var body := EntityLines(tables, grouped, pk, fk) + RelationLines(rels);
    var lines := MermaidLines(tables, grouped, pk, fk, rels);
    AppendAssoc(["erDiagram"], EntityLines(tables, grouped, pk, fk), RelationLines(rels));
    var front := ["erDiagram"] + body;
    assert lines == front + [""];
    JoinAppend(front, "", "\n");
    var text := Join(lines, "\n");
    assert text == Join(front, "\n") + "\n" + "";
    assert text[|text| - 1..] == "\n";
    assert lines[0] == "erDiagram" && |lines| >= 2;
    assert text == "erDiagram" + "\n" + Join(lines[1..], "\n");
    assert text[..10] == "erDiagram\n";
  }
}
