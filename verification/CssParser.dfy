/**
 The block parser behind the stylesheet checks (scripts/architecture/checks.py):
 what it computes, and the index loops that compute it.
 */
module CssParser {
  import opened Bytes
  import opened Text

  datatype CssDeclaration = CssDeclaration(selector: string, property: string, value: string, line: int)

  predicate IsQuote(c: char) {
    c == '"' || c == '\''
  }

  // ---- Comments ----

  predicate OpensComment(s: string) {
    |s| >= 2 && s[0] == '/' && s[1] == '*'
  }

  predicate HasComment(s: string) {
    exists i :: 0 <= i < |s| && OpensComment(s[i..])
  }

  /** The index just past the first comment end at or after `i`. */
  function CommentEnd(s: string, i: nat): (r: Option<nat>)
    requires i <= |s|
    ensures r.Some? ==> i + 2 <= r.value <= |s|
    decreases |s| - i
  {
    if |s| - i < 2 then None
    else if s[i] == '*' && s[i+1] == '/' then Some(i + 2)
    else CommentEnd(s, i + 1)
  }

  /** Each closed comment becomes as many line breaks as it spans. */
  function BlankComments(s: string): string
    decreases |s|
  {
    if s == "" then ""
    else
      var end := if OpensComment(s) then CommentEnd(s, 2) else None;
      if end.Some? then seq(Newlines(s[..end.value]), i => '\n') + BlankComments(s[end.value..])
      else [s[0]] + BlankComments(s[1..])
  }

  lemma {:induction false} NewlinesOnly(s: string)
    requires forall i :: 0 <= i < |s| ==> s[i] == '\n'
    ensures Newlines(s) == |s|
  {
    if s != "" {
      NewlinesOnly(s[..|s|-1]);
    }
  }

  /** Blanking comments moves no declaration to another line. */
  lemma {:induction false} BlankingKeepsLines(s: string)
    ensures Newlines(BlankComments(s)) == Newlines(s)
    decreases |s|
  {
    if s != "" {
      var end := if OpensComment(s) then CommentEnd(s, 2) else None;
      var k := if end.Some? then end.value else 1;
      var kept := if end.Some? then seq(Newlines(s[..k]), i => '\n') else s[..1];
      assert BlankComments(s) == kept + BlankComments(s[k..]);
      BlankingKeepsLines(s[k..]);
      if end.Some? {
        NewlinesOnly(kept);
      }
      assert s == s[..k] + s[k..];
      NewlinesAppend(s[..k], s[k..]);
      NewlinesAppend(kept, BlankComments(s[k..]));
    }
  }

  lemma {:induction false} NothingToBlank(s: string)
    requires !HasComment(s)
    ensures BlankComments(s) == s
  {
    if s != "" {
      assert !OpensComment(s) by {
        assert s[0..] == s;
      }
      forall i | 0 <= i < |s[1..]| ensures !OpensComment(s[1..][i..]) {
        assert s[1..][i..] == s[i+1..];
      }
      NothingToBlank(s[1..]);
    }
  }

  // ---- Matching braces ----

  datatype BraceState = BraceState(depth: int, quote: Option<char>, escaped: bool)

  const OUTSIDE := BraceState(0, None, false)

  function BraceStep(st: BraceState, c: char): BraceState {
    if st.quote.Some? then
      if st.escaped then st.(escaped := false)
      else if c == '\\' then st.(escaped := true)
      else if c == st.quote.value then st.(quote := None)
      else st
    else if IsQuote(c) then st.(quote := Some(c))
    else if c == '{' then st.(depth := st.depth + 1)
    else if c == '}' then st.(depth := st.depth - 1)
    else st
  }

  /** At `c` the scan is back at depth zero, outside quotes. */
  predicate Closes(st: BraceState, c: char) {
    st.quote.None? && c == '}' && st.depth == 1
  }

  function MatchFrom(s: string, i: nat, st: BraceState): (r: Option<nat>)
    requires i <= |s|
    ensures r.Some? ==> i <= r.value < |s| && s[r.value] == '}'
    decreases |s| - i
  {
    if i == |s| then None
    else if Closes(st, s[i]) then Some(i)
    else MatchFrom(s, i + 1, BraceStep(st, s[i]))
  }

  /** The scanner's state after the whole of `s`. */
  function StateAfter(st: BraceState, s: string): BraceState {
    if s == "" then st else BraceStep(StateAfter(st, s[..|s|-1]), s[|s|-1])
  }

  predicate ClosesAt(s: string, k: nat) {
    k < |s| && Closes(StateAfter(OUTSIDE, s[..k]), s[k])
  }

  lemma {:induction false} MatchFromIsFirst(s: string, i: nat)
    requires i <= |s|
    ensures match MatchFrom(s, i, StateAfter(OUTSIDE, s[..i]))
            case None => forall k :: i <= k < |s| ==> !ClosesAt(s, k)
            case Some(r) => ClosesAt(s, r) && forall k :: i <= k < r ==> !ClosesAt(s, k)
    decreases |s| - i
  {
    if i < |s| {
      assert s[..i+1][..i] == s[..i];
      MatchFromIsFirst(s, i + 1);
    }
  }

  /** The brace found is the first, hence the only, place where the block that opens the text is balanced. */
  lemma MatchIsBalancing(s: string, k: nat)
    ensures MatchFrom(s, 0, OUTSIDE) == Some(k) <==> ClosesAt(s, k) && forall j :: 0 <= j < k ==> !ClosesAt(s, j)
  {
    assert s[..0] == "";
    MatchFromIsFirst(s, 0);
  }

  // ---- Declarations of one block ----

  datatype DeclState = DeclState(parentheses: nat, quote: Option<char>, escaped: bool)

  const TOP := DeclState(0, None, false)

  function DeclStep(st: DeclState, c: char): DeclState {
    if st.quote.Some? then
      if st.escaped then st.(escaped := false)
      else if c == '\\' then st.(escaped := true)
      else if c == st.quote.value then st.(quote := None)
      else st
    else if IsQuote(c) then st.(quote := Some(c))
    else if c == '(' then st.(parentheses := st.parentheses + 1)
    else if c == ')' then st.(parentheses := if st.parentheses == 0 then 0 else st.parentheses - 1)
    else st
  }

  predicate Ends(st: DeclState, c: char) {
    st.quote.None? && c == ';' && st.parentheses == 0
  }

  /** The first semicolon outside quotes and parentheses, or the state in which the text runs out. */
  datatype Segment = EndsAt(index: nat) | RunsOut(state: DeclState)

  function SegmentFrom(s: string, i: nat, st: DeclState): (r: Segment)
    requires i <= |s|
    ensures r.EndsAt? ==> i <= r.index < |s|
    decreases |s| - i
  {
    if i == |s| then RunsOut(st)
    else if Ends(st, s[i]) then EndsAt(i)
    else SegmentFrom(s, i + 1, DeclStep(st, s[i]))
  }

  lemma {:induction false} QuotedRun(s: string, i: nat, j: nat, q: char, p: nat)
    requires i <= j < |s| && s[j] == q != '\\' && forall k :: i <= k < j ==> s[k] != q && s[k] != '\\'
    ensures SegmentFrom(s, i, DeclState(p, Some(q), false)) == SegmentFrom(s, j + 1, DeclState(p, None, false))
    decreases j - i
  {
    if i < j {
      QuotedRun(s, i + 1, j, q, p);
    }
  }

  lemma {:induction false} QuotedBraces(s: string, i: nat, j: nat, q: char, depth: int)
    requires i <= j < |s| && s[j] == q != '\\' && forall k :: i <= k < j ==> s[k] != q && s[k] != '\\'
    ensures MatchFrom(s, i, BraceState(depth, Some(q), false)) == MatchFrom(s, j + 1, BraceState(depth, None, false))
    decreases j - i
  {
    if i < j {
      QuotedBraces(s, i + 1, j, q, depth);
    }
  }

  /** Only these two characters open a quoted text. */
  lemma QuotesAreThese(c: char)
    ensures BraceStep(OUTSIDE, c).quote == (if c == '"' || c == '\'' then Some(c) else None)
    ensures DeclStep(TOP, c).quote == (if c == '"' || c == '\'' then Some(c) else None)
  {
  }

  /** Between double or single quotes neither a semicolon ends a declaration nor a brace a block. */
  lemma QuotesHideBoth(body: string, rest: string, q: char)
    requires q == '"' || q == '\''
    requires q !in body && '\\' !in body
    ensures var s := [q] + body + [q] + rest;
            && SegmentFrom(s, 0, TOP) == SegmentFrom(s, |body| + 2, TOP)
            && MatchFrom(s, 0, OUTSIDE) == MatchFrom(s, |body| + 2, OUTSIDE)
  {
    var s := [q] + body + [q] + rest;
    assert forall k :: 1 <= k < |body| + 1 ==> s[k] == body[k-1];
    QuotedRun(s, 1, |body| + 1, q, 0);
    QuotedBraces(s, 1, |body| + 1, q, 0);
  }

  predicate IsNameStart(c: char) {
    'a' <= c <= 'z' || c == '_'
  }

  predicate IsNameChar(c: char) {
    IsNameStart(c) || '0' <= c <= '9' || c == '-'
  }

  predicate IsName(s: string) {
    s != "" && IsNameStart(s[0]) && forall i :: 0 <= i < |s| ==> IsNameChar(s[i])
  }

  predicate IsPropertyName(s: string) {
    IsName(if "--" <= s then s[2..] else s)
  }

  /** A letter or an underscore, then letters, digits, underscores and hyphens. */
  predicate IsWord(s: string) {
    && s != "" && ('a' <= s[0] <= 'z' || 'A' <= s[0] <= 'Z' || s[0] == '_')
    && forall i :: 0 <= i < |s| ==>
         'a' <= s[i] <= 'z' || 'A' <= s[i] <= 'Z' || '0' <= s[i] <= '9' || s[i] == '_' || s[i] == '-'
  }

  /** A property is a word of either case, or a custom property: a word after two hyphens. */
  lemma PropertyNameIff(name: string)
    ensures IsPropertyName(Fold(name)) <==> IsWord(name) || (|name| > 2 && name[..2] == "--" && IsWord(name[2..]))
  {
    hide IsWord, IsName, Fold;
    var folded := Fold(name);
    FoldKeepsWords(name);
    FoldKeepsHyphens(name);
    if |name| >= 2 {
      FoldKeepsWords(name[2..]);
      if name[..2] == "--" {
        WordStarts(name);
        WordStarts(name[2..]);
      }
    }
  }

  lemma FoldKeepsHyphens(name: string)
    ensures "--" <= Fold(name) <==> |name| >= 2 && name[..2] == "--"
    ensures |name| >= 2 ==> Fold(name)[2..] == Fold(name[2..])
    ensures |Fold(name)| == |name|
  {
    if |name| >= 2 {
      assert name[..2] == [name[0], name[1]] && Fold(name)[..2] == [Fold(name)[0], Fold(name)[1]];
    }
  }

  lemma WordStarts(name: string)
    ensures |name| >= 2 && name[..2] == "--" ==> !IsWord(name)
    ensures IsWord(name) ==> name != ""
  {
    assert |name| >= 2 ==> name[..2][0] == name[0];
  }

  lemma FoldKeepsWords(name: string)
    ensures IsWord(name) <==> IsName(Fold(name))
  {
    var t := Fold(name);
    assert forall i :: 0 <= i < |name| ==> (IsNameChar(t[i]) <==>
      'a' <= name[i] <= 'z' || 'A' <= name[i] <= 'Z' || '0' <= name[i] <= '9' || name[i] == '_' || name[i] == '-');
  }

  /** What one semicolon-terminated piece contributes; `lines` counts the lines before the piece. */
  function Emit(selector: string, piece: string, lines: int): seq<CssDeclaration> {
    var raw := Strip(piece);
    var colon := IndexOf(raw, ':');
    if colon.None? || '{' in raw then []
    else
      var property := Fold(Strip(raw[..colon.value]));
      if !IsPropertyName(property) then []
      else [CssDeclaration(selector, property, Strip(raw[colon.value + 1..]),
                           lines + Newlines(piece[..|piece| - |raw|]) + 1)]
  }

  function Declarations(selector: string, body: string, lines: int): seq<CssDeclaration>
    decreases |body|
  {
    match SegmentFrom(body, 0, TOP)
    case EndsAt(k) =>
      Emit(selector, body[..k], lines) + Declarations(selector, body[k+1..], lines + Newlines(body[..k+1]))
    case RunsOut(st) =>
      if st.quote.None? && st.parentheses == 0 then Emit(selector, body, lines) else []
  }

  // ---- Nested blocks ----

  datatype Block = Block(open: nat, close: nat)

  /** The first opening brace and the brace that closes it, if both are there. */
  function FindBlock(s: string): (r: Option<Block>)
    ensures r.Some? ==> r.value.open < r.value.close < |s| && s[r.value.open] == '{' && s[r.value.close] == '}'
  {
    match IndexOf(s, '{')
    case None => None
    case Some(open) =>
      match MatchFrom(s[open..], 0, OUTSIDE)
      case None => None
      case Some(length) =>
        assert s[open..][length] == '}' && s[open..][0] == '{';
        Some(Block(open, open + length))
  }

  predicate Within(block: Block, s: string) {
    block.open < block.close < |s|
  }

  function Prelude(s: string, block: Block): string
    requires Within(block, s)
  {
    Strip(s[..block.open])
  }

  function Body(s: string, block: Block): (body: string)
    requires Within(block, s)
    ensures |body| < |s|
  {
    s[block.open + 1..block.close]
  }

  function Rest(s: string, block: Block): (rest: string)
    requires Within(block, s)
    ensures |rest| < |s|
  {
    s[block.close + 1..]
  }

  function Parse(s: string, lines: int): seq<CssDeclaration>
    decreases |s|
  {
    match FindBlock(s)
    case None => []
    case Some(block) => ParseBlock(s, block, lines) + Parse(Rest(s, block), lines + Newlines(s[..block.close + 1]))
  }

  /** At-rules are entered; any other block is read as declarations. */
  function ParseBlock(s: string, block: Block, lines: int): seq<CssDeclaration>
    requires Within(block, s)
    decreases |s|, 0
  {
    var inner := lines + Newlines(s[..block.open + 1]);
    if "@" <= Prelude(s, block) then Parse(Body(s, block), inner)
    else Declarations(Prelude(s, block), Body(s, block), inner)
  }

  // ---- The loops ----

  method MatchingBrace(source: string, start: nat, end: nat) returns (r: int)
    requires start <= end <= |source|
    ensures r == match MatchFrom(source[start..end], 0, OUTSIDE) case None => -1 case Some(k) => start + k
  {
    var depth, quote, escaped := 0, None, false;
    ghost var text := source[start..end];
    var index := start;
    while index < end
      invariant start <= index <= end
      invariant MatchFrom(text, 0, OUTSIDE) == MatchFrom(text, index - start, BraceState(depth, quote, escaped))
    {
      var c := source[index];
      assert text[index - start] == c;
      if quote.Some? {
        if escaped {
          escaped := false;
        } else if c == '\\' {
          escaped := true;
        } else if c == quote.value {
          quote := None;
        }
      } else if IsQuote(c) {
        quote := Some(c);
      } else if c == '{' {
        depth := depth + 1;
      } else if c == '}' {
        depth := depth - 1;
        if depth == 0 {
          return index;
        }
      }
      index := index + 1;
    }
    return -1;
  }

  // The same functions of a range of the source; `offset` is the line the source starts after.

  ghost function LinesBefore(source: string, offset: int, i: nat): int
    requires i <= |source|
  {
    offset + Newlines(source[..i])
  }

  ghost function PieceSpec(source: string, offset: int, selector: string, start: nat, end: nat): seq<CssDeclaration>
    requires start <= end <= |source|
  {
    Emit(selector, source[start..end], LinesBefore(source, offset, start))
  }

  ghost function BlockSpec(source: string, offset: int, selector: string, start: nat, end: nat): seq<CssDeclaration>
    requires start <= end <= |source|
  {
    Declarations(selector, source[start..end], LinesBefore(source, offset, start))
  }

  ghost function RangeSpec(source: string, offset: int, start: nat, end: nat): seq<CssDeclaration>
    requires start <= end <= |source|
  {
    Parse(source[start..end], LinesBefore(source, offset, start))
  }

  lemma LinesAdd(source: string, offset: int, start: nat, mid: nat, end: nat)
    requires start <= mid <= end <= |source|
    ensures LinesBefore(source, offset, start) + Newlines(source[start..end][..mid - start]) == LinesBefore(source, offset, mid)
  {
    SliceOfSlice(source, start, end, start, mid);
    assert source[..start] + source[start..mid] == source[..mid];
    NewlinesAppend(source[..start], source[start..mid]);
  }

  lemma DeclarationsUnfold(selector: string, body: string, lines: int, k: nat)
    requires k < |body| && SegmentFrom(body, 0, TOP) == EndsAt(k)
    ensures Declarations(selector, body, lines) ==
            Emit(selector, body[..k], lines) + Declarations(selector, body[k+1..], lines + Newlines(body[..k+1]))
  {
    hide Emit, SegmentFrom, Newlines;
  }

  lemma PieceEnds(source: string, offset: int, selector: string, start: nat, index: nat, end: nat)
    requires start <= index < end <= |source|
    requires SegmentFrom(source[start..end], 0, TOP) == EndsAt(index - start)
    ensures BlockSpec(source, offset, selector, start, end) ==
            PieceSpec(source, offset, selector, start, index) + BlockSpec(source, offset, selector, index + 1, end)
  {
    hide Declarations, Emit, SegmentFrom, Newlines;
    DeclarationsUnfold(selector, source[start..end], LinesBefore(source, offset, start), index - start);
    SliceOfSlice(source, start, end, start, index);
    SliceOfSlice(source, start, end, index + 1, end);
    LinesAdd(source, offset, start, index + 1, end);
  }

  lemma LastPiece(source: string, offset: int, selector: string, start: nat, end: nat, st: DeclState)
    requires start <= end <= |source|
    requires SegmentFrom(source[start..end], 0, TOP) == RunsOut(st)
    ensures BlockSpec(source, offset, selector, start, end) ==
            if st.quote.None? && st.parentheses == 0 then PieceSpec(source, offset, selector, start, end) else []
  {
    hide Emit, SegmentFrom, Newlines;
  }

  lemma NoBlock(source: string, offset: int, start: nat, end: nat)
    requires start <= end <= |source|
    requires start == end || FindBlock(source[start..end]).None?
    ensures RangeSpec(source, offset, start, end) == []
  {
    hide MatchFrom, Newlines;
  }

  lemma ParseUnfold(s: string, lines: int, block: Block)
    requires FindBlock(s) == Some(block)
    ensures Parse(s, lines) ==
            ParseBlock(s, block, lines) + Parse(Rest(s, block), lines + Newlines(s[..block.close + 1]))
  {
    hide ParseBlock, FindBlock, Newlines, Rest;
  }

  lemma BlockStep(source: string, offset: int, start: nat, block: Block, end: nat)
    requires start <= end <= |source|
    requires FindBlock(source[start..end]) == Some(block)
    ensures var open, close := start + block.open, start + block.close;
            var selector := Strip(source[start..open]);
            RangeSpec(source, offset, start, end) ==
            (if "@" <= selector then RangeSpec(source, offset, open + 1, close)
             else BlockSpec(source, offset, selector, open + 1, close))
            + RangeSpec(source, offset, close + 1, end)
  {
    hide Parse, Declarations, FindBlock, Newlines, Strip;
    ParseUnfold(source[start..end], LinesBefore(source, offset, start), block);
    var open, close := start + block.open, start + block.close;
    SliceOfSlice(source, start, end, start, open);
    SliceOfSlice(source, start, end, open + 1, close);
    SliceOfSlice(source, start, end, close + 1, end);
    LinesAdd(source, offset, start, open + 1, end);
    LinesAdd(source, offset, start, close + 1, end);
  }

  /** `source.find("{", cursor, end)` and the brace that closes it, relative to the cursor. */
  method NextBlock(source: string, cursor: nat, end: nat) returns (block: Option<Block>)
    requires cursor < end <= |source|
    ensures block == FindBlock(source[cursor..end])
  {
    var rest := source[cursor..end];
    var found := IndexOf(rest, '{');
    if found.None? {
      return None;
    }
    var open := cursor + found.value;
    SliceOfSlice(source, cursor, end, open, end);
    var close := MatchingBrace(source, open, end);
    if close < 0 {
      return None;
    }
    return Some(Block(open - cursor, close - cursor));
  }

  class Parser {
    const source: string
    const lineOffset: int
    var declarations: seq<CssDeclaration>

    constructor (source: string, lineOffset: int)
      ensures this.source == source && this.lineOffset == lineOffset && declarations == []
    {
      this.source, this.lineOffset, declarations := source, lineOffset, [];
    }

    method EmitPiece(selector: string, segmentStart: nat, index: nat)
      requires segmentStart <= index <= |source|
      modifies this
      ensures declarations == old(declarations) + PieceSpec(source, lineOffset, selector, segmentStart, index)
    {
      hide Strip, IndexOf, IsPropertyName, Fold;
      var raw := Strip(source[segmentStart..index]);
      var colon := IndexOf(raw, ':');
      if colon.None? || '{' in raw {
        return;
      }
      var property := Fold(Strip(raw[..colon.value]));
      if !IsPropertyName(property) {
        return;
      }
      var line := lineOffset + Newlines(source[..index - |raw|]) + 1;
      LinesAdd(source, lineOffset, segmentStart, index - |raw|, index);
      declarations := declarations + [CssDeclaration(selector, property, Strip(raw[colon.value + 1..]), line)];
    }

    method ScanBlock(selector: string, start: nat, end: nat)
      requires start <= end <= |source|
      modifies this
      ensures declarations == old(declarations) + BlockSpec(source, lineOffset, selector, start, end)
    {
      hide BlockSpec, PieceSpec;
      var segmentStart := start;
      var parentheses, quote, escaped := 0, None, false;
      ghost var rest := source[segmentStart..end];
      ghost var all := old(declarations) + BlockSpec(source, lineOffset, selector, start, end);
      for index := start to end
        invariant start <= segmentStart <= index && 0 <= parentheses
        invariant rest == source[segmentStart..end] && (quote.None? ==> !escaped)
        invariant declarations + BlockSpec(source, lineOffset, selector, segmentStart, end) == all
        invariant SegmentFrom(rest, 0, TOP) ==
                  SegmentFrom(rest, index - segmentStart, DeclState(parentheses, quote, escaped))
      {
        var c := source[index];
        assert rest[index - segmentStart] == c;
        if quote.Some? {
          if escaped {
            escaped := false;
          } else if c == '\\' {
            escaped := true;
          } else if c == quote.value {
            quote := None;
          }
        } else if IsQuote(c) {
          quote := Some(c);
        } else if c == '(' {
          parentheses := parentheses + 1;
        } else if c == ')' {
          parentheses := if parentheses == 0 then 0 else parentheses - 1;
        } else if c == ';' && parentheses == 0 {
          PieceEnds(source, lineOffset, selector, segmentStart, index, end);
          EmitPiece(selector, segmentStart, index);
          segmentStart := index + 1;
          rest := source[segmentStart..end];
        }
      }
      LastPiece(source, lineOffset, selector, segmentStart, end, DeclState(parentheses, quote, escaped));
      if quote.None? && parentheses == 0 {
        EmitPiece(selector, segmentStart, end);
      }
    }

    method ParseRange(start: nat, end: nat)
      requires start <= end <= |source|
      modifies this
      ensures declarations == old(declarations) + RangeSpec(source, lineOffset, start, end)
      decreases end - start
    {
      hide RangeSpec, BlockSpec, FindBlock, Strip;
      var cursor := start;
      ghost var all := old(declarations) + RangeSpec(source, lineOffset, start, end);
      while cursor < end
        invariant start <= cursor <= end
        invariant declarations + RangeSpec(source, lineOffset, cursor, end) == all
      {
        var block := NextBlock(source, cursor, end);
        if block.None? {
          NoBlock(source, lineOffset, cursor, end);
          return;
        }
        BlockStep(source, lineOffset, cursor, block.value, end);
        var open, close := cursor + block.value.open, cursor + block.value.close;
        var selector := Strip(source[cursor..open]);
        if "@" <= selector {
          ParseRange(open + 1, close);
        } else {
          ScanBlock(selector, open + 1, close);
        }
        cursor := close + 1;
      }
      NoBlock(source, lineOffset, cursor, end);
    }
  }

  /** The whole parser. */
  method CssDeclarations(text: string, lineOffset: int) returns (declarations: seq<CssDeclaration>)
    ensures declarations == Parse(BlankComments(text), lineOffset)
  {
    hide Parse, BlankComments;
    var source := BlankComments(text);
    var parser := new Parser(source, lineOffset);
    parser.ParseRange(0, |source|);
    assert source[0..|source|] == source && source[..0] == "";
    declarations := parser.declarations;
  }
}
