/**
 Printing a stylesheet and parsing it again (scripts/architecture/checks.py):
 style rules and arbitrarily nested at-rules, with any spacing, come back as their
 declarations in document order with their reported lines.
 */
module CssRoundTrip {
  import opened Bytes
  import opened Text
  import opened CssParser

  /** `name : value` with the spacing around each part. */
  datatype Declaration = Declaration(lead: string, name: string, gap: string, pad: string, value: string, trail: string)

  /** `last` is a final declaration without its semicolon. */
  datatype RuleBody = RuleBody(closed: seq<Declaration>, last: Option<Declaration>, tail: string)

  datatype Sheet =
    | End(tail: string)
    | Rule(lead: string, selector: string, trail: string, body: RuleBody, rest: Sheet)
    | At(lead: string, prelude: string, trail: string, inner: Sheet, rest: Sheet)

  // ---- Printing ----

  function Show(d: Declaration): string {
    d.lead + (d.name + d.gap + ":" + d.pad + d.value) + d.trail
  }

  function ShowClosed(ds: seq<Declaration>): string {
    if ds == [] then "" else Show(ds[0]) + ";" + ShowClosed(ds[1..])
  }

  function ShowBody(body: RuleBody): string {
    ShowClosed(body.closed) + if body.last.Some? then Show(body.last.value) else body.tail
  }

  function ShowBlock(head: string, body: string): string {
    head + ("{" + body + "}")
  }

  function ShowSheet(sheet: Sheet): string {
    match sheet
    case End(tail) => tail
    case Rule(lead, selector, trail, body, rest) => ShowBlock(lead + selector + trail, ShowBody(body)) + ShowSheet(rest)
    case At(lead, prelude, trail, inner, rest) => ShowBlock(lead + prelude + trail, ShowSheet(inner)) + ShowSheet(rest)
  }

  // ---- What may be printed ----

  /** From `st`, braces occur only inside quotes and every quote is closed. */
  predicate PlainFrom(st: BraceState, s: string)
    decreases |s|
  {
    if s == "" then st.quote.None?
    else (st.quote.Some? || (s[0] != '{' && s[0] != '}')) && PlainFrom(BraceStep(st, s[0]), s[1..])
  }

  predicate Plain(s: string) {
    PlainFrom(OUTSIDE, s)
  }

  /** From `st`, semicolons occur only inside quotes or parentheses, and all of these are closed. */
  predicate TameFrom(st: DeclState, s: string)
    decreases |s|
  {
    if s == "" then st == TOP else !Ends(st, s[0]) && TameFrom(DeclStep(st, s[0]), s[1..])
  }

  predicate Printable(d: Declaration) {
    && Blank(d.lead) && Blank(d.gap) && Blank(d.pad) && Blank(d.trail)
    && IsPropertyName(Fold(d.name))
    && Stripped(d.value) && (d.value == "" ==> d.pad == "")
    && Plain(d.value) && TameFrom(TOP, d.value)
  }

  predicate PrintableBody(body: RuleBody) {
    && (forall i :: 0 <= i < |body.closed| ==> Printable(body.closed[i]))
    && (body.last.Some? ==> Printable(body.last.value))
    && Blank(body.tail)
  }

  predicate PrintableHead(lead: string, head: string, trail: string) {
    Blank(lead) && Blank(trail) && Stripped(head) && Plain(head) && '{' !in head
  }

  predicate PrintableSheet(sheet: Sheet) {
    match sheet
    case End(tail) => Plain(tail) && '{' !in tail
    case Rule(lead, selector, trail, body, rest) =>
      PrintableHead(lead, selector, trail) && !("@" <= selector) && PrintableBody(body) && PrintableSheet(rest)
    case At(lead, prelude, trail, inner, rest) =>
      PrintableHead(lead, prelude, trail) && "@" <= prelude && PrintableSheet(inner) && PrintableSheet(rest)
  }

  // ---- What parsing should give back ----

  /** The parser counts the line `|trail|` characters past the start of the declaration. */
  function ReportedLine(d: Declaration, lines: int): int {
    lines + Newlines(Show(d)[..|d.lead| + |d.trail|]) + 1
  }

  /** A declaration whose value holds an opening brace, even a quoted one, is dropped. */
  function FlatDeclaration(selector: string, d: Declaration, lines: int): seq<CssDeclaration> {
    if '{' in d.value then [] else [CssDeclaration(selector, Fold(d.name), d.value, ReportedLine(d, lines))]
  }

  function FlatClosed(selector: string, ds: seq<Declaration>, lines: int): seq<CssDeclaration> {
    if ds == [] then []
    else FlatDeclaration(selector, ds[0], lines) + FlatClosed(selector, ds[1..], lines + Newlines(Show(ds[0]) + ";"))
  }

  function FlatBody(selector: string, body: RuleBody, lines: int): seq<CssDeclaration> {
    FlatClosed(selector, body.closed, lines) +
    if body.last.Some? then FlatDeclaration(selector, body.last.value, lines + Newlines(ShowClosed(body.closed))) else []
  }

  function Flatten(sheet: Sheet, lines: int): seq<CssDeclaration> {
    match sheet
    case End(tail) => []
    case Rule(lead, selector, trail, body, rest) =>
      var head := lead + selector + trail;
      FlatBody(selector, body, lines + Newlines(head))
      + Flatten(rest, lines + Newlines(ShowBlock(head, ShowBody(body))))
    case At(lead, prelude, trail, inner, rest) =>
      var head := lead + prelude + trail;
      Flatten(inner, lines + Newlines(head))
      + Flatten(rest, lines + Newlines(ShowBlock(head, ShowSheet(inner))))
  }

  // ---- Scanning for braces, over concatenations ----

  function Shift(r: Option<nat>, n: nat): Option<nat> {
    match r case None => None case Some(k) => Some(n + k)
  }

  function Match(s: string, st: BraceState): Option<nat> {
    if s == "" then None
    else if Closes(st, s[0]) then Some(0)
    else Shift(Match(s[1..], BraceStep(st, s[0])), 1)
  }

  lemma {:induction false} MatchFromIsMatch(s: string, i: nat, st: BraceState)
    requires i <= |s|
    ensures MatchFrom(s, i, st) == Shift(Match(s[i..], st), i)
    decreases |s| - i
  {
    if i < |s| {
      MatchFromIsMatch(s, i + 1, BraceStep(st, s[i]));
      assert s[i..][1..] == s[i+1..];
    }
  }

  function Inside(depth: int): BraceState {
    BraceState(depth, None, false)
  }

  lemma {:induction false} PlainIsSkipped(st: BraceState, t: string, rest: string)
    requires st.depth >= 0 && (st.quote.None? ==> !st.escaped)
    requires PlainFrom(OUTSIDE.(quote := st.quote, escaped := st.escaped), t)
    ensures Match(t + rest, st) == Shift(Match(rest, Inside(st.depth)), |t|)
    decreases |t|
  {
    if t == "" {
      assert t + rest == rest;
    } else {
      assert (t + rest)[0] == t[0] && (t + rest)[1..] == t[1..] + rest;
      PlainIsSkipped(BraceStep(st, t[0]), t[1..], rest);
    }
  }

  /** Inside any block, the scan runs over `t` and comes out at the depth it went in. */
  ghost predicate Skips(t: string) {
    forall depth, rest: string :: depth >= 1 ==> Match(t + rest, Inside(depth)) == Shift(Match(rest, Inside(depth)), |t|)
  }

  lemma PlainSkips(t: string)
    requires Plain(t)
    ensures Skips(t)
  {
    forall depth, rest: string | depth >= 1
      ensures Match(t + rest, Inside(depth)) == Shift(Match(rest, Inside(depth)), |t|)
    {
      PlainIsSkipped(Inside(depth), t, rest);
    }
  }

  lemma SkipsBoth(a: string, b: string)
    requires Skips(a) && Skips(b)
    ensures Skips(a + b)
  {
    hide Match;
    forall depth, rest: string | depth >= 1
      ensures Match((a + b) + rest, Inside(depth)) == Shift(Match(rest, Inside(depth)), |a + b|)
    {
      assert (a + b) + rest == a + (b + rest);
      assert Match(a + (b + rest), Inside(depth)) == Shift(Match(b + rest, Inside(depth)), |a|);
      assert Match(b + rest, Inside(depth)) == Shift(Match(rest, Inside(depth)), |b|);
    }
  }

  lemma MatchBlock(t: string, rest: string, depth: nat)
    requires Skips(t)
    ensures Match("{" + t + "}" + rest, Inside(depth)) ==
            if depth == 0 then Some(|t| + 1) else Shift(Match(rest, Inside(depth)), |t| + 2)
  {
    var s := "{" + t + "}" + rest;
    var tail := "}" + rest;
    assert s[0] == '{' && s[1..] == t + tail;
    assert Match(s, Inside(depth)) == Shift(Match(t + tail, Inside(depth + 1)), 1);
    assert Match(t + tail, Inside(depth + 1)) == Shift(Match(tail, Inside(depth + 1)), |t|);
    assert tail[0] == '}' && tail[1..] == rest;
  }

  lemma BlockSkips(t: string)
    requires Skips(t)
    ensures Skips("{" + t + "}")
  {
    hide Match;
    forall depth, rest: string | depth >= 1
      ensures Match(("{" + t + "}") + rest, Inside(depth)) == Shift(Match(rest, Inside(depth)), |"{" + t + "}"|)
    {
      MatchBlock(t, rest, depth);
    }
  }

  // ---- Scanning for semicolons, over concatenations ----

  function ShiftSegment(r: Segment, n: nat): Segment {
    match r case EndsAt(k) => EndsAt(n + k) case RunsOut(st) => r
  }

  function Seg(s: string, st: DeclState): Segment {
    if s == "" then RunsOut(st)
    else if Ends(st, s[0]) then EndsAt(0)
    else ShiftSegment(Seg(s[1..], DeclStep(st, s[0])), 1)
  }

  lemma {:induction false} SegmentFromIsSeg(s: string, i: nat, st: DeclState)
    requires i <= |s|
    ensures SegmentFrom(s, i, st) == ShiftSegment(Seg(s[i..], st), i)
    decreases |s| - i
  {
    if i < |s| {
      SegmentFromIsSeg(s, i + 1, DeclStep(st, s[i]));
      assert s[i..][1..] == s[i+1..];
    }
  }

  lemma {:induction false} TameIsPassed(st: DeclState, t: string, rest: string)
    requires TameFrom(st, t)
    ensures Seg(t + rest, st) == ShiftSegment(Seg(rest, TOP), |t|)
    decreases |t|
  {
    if t == "" {
      assert t + rest == rest;
    } else {
      assert (t + rest)[0] == t[0] && (t + rest)[1..] == t[1..] + rest;
      TameIsPassed(DeclStep(st, t[0]), t[1..], rest);
    }
  }

  // ---- Words without special characters ----

  predicate IsOrdinary(c: char) {
    !IsQuote(c) && c != '{' && c != '}' && c != '(' && c != ')' && c != ';'
  }

  predicate Ordinary(s: string) {
    forall i :: 0 <= i < |s| ==> IsOrdinary(s[i])
  }

  lemma {:induction false} OrdinaryPrefix(word: string, t: string)
    requires Ordinary(word)
    ensures Plain(t) ==> Plain(word + t)
    ensures TameFrom(TOP, t) ==> TameFrom(TOP, word + t)
  {
    if word == "" {
      assert word + t == t;
    } else {
      assert (word + t)[0] == word[0] && (word + t)[1..] == word[1..] + t;
      OrdinaryPrefix(word[1..], t);
    }
  }

  lemma {:induction false} PlainThenOrdinary(st: BraceState, t: string, word: string)
    requires st.depth == 0 && (st.quote.None? ==> !st.escaped)
    requires PlainFrom(st, t) && Ordinary(word)
    ensures PlainFrom(st, t + word)
    decreases |t|
  {
    if t == "" {
      assert t + word == word && word + "" == word;
      OrdinaryPrefix(word, "");
    } else {
      assert (t + word)[0] == t[0] && (t + word)[1..] == t[1..] + word;
      PlainThenOrdinary(BraceStep(st, t[0]), t[1..], word);
    }
  }

  lemma {:induction false} TameThenOrdinary(st: DeclState, t: string, word: string)
    requires TameFrom(st, t) && Ordinary(word)
    ensures TameFrom(st, t + word)
    decreases |t|
  {
    if t == "" {
      assert t + word == word && word + "" == word;
      OrdinaryPrefix(word, "");
    } else {
      assert (t + word)[0] == t[0] && (t + word)[1..] == t[1..] + word;
      TameThenOrdinary(DeclStep(st, t[0]), t[1..], word);
    }
  }

  lemma NameIsOrdinary(name: string)
    requires IsPropertyName(Fold(name))
    ensures Ordinary(name) && ':' !in name && name != "" && Stripped(name)
    ensures forall i :: 0 <= i < |name| ==> !IsSpace(name[i])
  {
    var folded := Fold(name);
    forall i | 0 <= i < |name| ensures IsNameChar(folded[i]) && folded[i] == FoldChar(name[i]) {
      if "--" <= folded && i >= 2 {
        assert folded[2..][i-2] == folded[i];
      }
    }
  }

  lemma BlankIsOrdinary(s: string)
    requires Blank(s)
    ensures Ordinary(s) && ':' !in s && '{' !in s && Plain(s) && TameFrom(TOP, s)
  {
    OrdinaryPrefix(s, "");
    assert s + "" == s;
  }

  // ---- One declaration ----

  lemma ShownDeclarationScans(d: Declaration)
    requires Printable(d)
    ensures Plain(Show(d)) && TameFrom(TOP, Show(d))
  {
    hide Plain, TameFrom, Blank, IsPropertyName, Fold;
    NameIsOrdinary(d.name);
    BlankIsOrdinary(d.lead);
    BlankIsOrdinary(d.gap);
    BlankIsOrdinary(d.pad);
    BlankIsOrdinary(d.trail);
    var word := d.lead + d.name + d.gap + ":" + d.pad;
    assert Ordinary(word);
    PlainAndTameEnd(d.value, d.trail);
    OrdinaryPrefix(word, d.value + d.trail);
    assert Show(d) == word + (d.value + d.trail);
  }

  lemma PlainAndTameEnd(t: string, word: string)
    requires Ordinary(word)
    ensures Plain(t) ==> Plain(t + word)
    ensures TameFrom(TOP, t) ==> TameFrom(TOP, t + word)
  {
    if Plain(t) {
      PlainThenOrdinary(OUTSIDE, t, word);
    }
    if TameFrom(TOP, t) {
      TameThenOrdinary(TOP, t, word);
    }
  }

  function Core(d: Declaration): string {
    d.name + d.gap + ":" + d.pad + d.value
  }

  lemma StrippedCore(d: Declaration)
    requires Printable(d)
    ensures Strip(Show(d)) == Core(d)
    ensures |Show(d)| - |Core(d)| == |d.lead| + |d.trail|
  {
    hide Plain, TameFrom, IsPropertyName, Fold, Strip;
    NameIsOrdinary(d.name);
    var core := Core(d);
    assert core[0] == d.name[0];
    assert d.value != "" ==> core[|core|-1] == d.value[|d.value|-1];
    assert d.value == "" ==> core[|core|-1] == ':';
    StripPadded(d.lead, core, d.trail);
  }

  lemma SplitCore(d: Declaration)
    requires Printable(d)
    ensures IndexOf(Core(d), ':') == Some(|d.name + d.gap|)
    ensures Strip(Core(d)[..|d.name + d.gap|]) == d.name
    ensures Strip(Core(d)[|d.name + d.gap| + 1..]) == d.value
    ensures '{' in Core(d) <==> '{' in d.value
  {
    hide Plain, TameFrom, IsPropertyName, Fold, Strip, IndexOf;
    NameIsOrdinary(d.name);
    BlankIsOrdinary(d.gap);
    BlankIsOrdinary(d.pad);
    var before := d.name + d.gap;
    assert Core(d) == before + [':'] + (d.pad + d.value);
    IndexOfFirst(before, ':', d.pad + d.value);
    assert Core(d)[..|before|] == "" + d.name + d.gap;
    StripPadded("", d.name, d.gap);
    assert Core(d)[|before| + 1..] == d.pad + d.value + "";
    StripPadded(d.pad, d.value, "");
    assert '{' !in before + [':'] + d.pad by { assert Ordinary(before + [':'] + d.pad); }
    assert Core(d) == before + [':'] + d.pad + d.value;
  }

  lemma EmitShown(selector: string, d: Declaration, lines: int)
    requires Printable(d)
    ensures Emit(selector, Show(d), lines) == FlatDeclaration(selector, d, lines)
  {
    hide Plain, TameFrom, IsPropertyName, Strip, IndexOf, Newlines, Show, Core;
    StrippedCore(d);
    SplitCore(d);
  }

  // ---- The body of a rule ----

  lemma {:induction false} DeclarationsOfClosed(selector: string, ds: seq<Declaration>, rest: string, lines: int)
    requires forall i :: 0 <= i < |ds| ==> Printable(ds[i])
    ensures Declarations(selector, ShowClosed(ds) + rest, lines) ==
            FlatClosed(selector, ds, lines) + Declarations(selector, rest, lines + Newlines(ShowClosed(ds)))
  {
    hide Emit, SegmentFrom, Newlines, Printable, FlatDeclaration, Show, Declarations;
    if ds == [] {
      assert ShowClosed(ds) + rest == rest;
      NewlinesEmpty();
    } else {
      var d, more := ds[0], ShowClosed(ds[1..]) + rest;
      var text := ShowClosed(ds) + rest;
      var shown := Show(d);
      assert text == shown + (";" + more);
      SegmentOfShown(d, more);
      assert text[..|shown|] == shown && text[..|shown| + 1] == shown + ";" && text[|shown| + 1..] == more;
      DeclarationsUnfold(selector, text, lines, |shown|);
      EmitShown(selector, d, lines);
      DeclarationsOfClosed(selector, ds[1..], rest, lines + Newlines(shown + ";"));
      NewlinesAppend(shown + ";", ShowClosed(ds[1..]));
      assert ShowClosed(ds) == shown + ";" + ShowClosed(ds[1..]);
    }
  }

  lemma NewlinesEmpty()
    ensures Newlines("") == 0
  {
  }

  lemma SegmentOfShown(d: Declaration, more: string)
    requires Printable(d)
    ensures SegmentFrom(Show(d) + (";" + more), 0, TOP) == EndsAt(|Show(d)|)
    ensures SegmentFrom(Show(d), 0, TOP) == RunsOut(TOP)
  {
    hide Printable, Show;
    var text := Show(d) + (";" + more);
    ShownDeclarationScans(d);
    TameIsPassed(TOP, Show(d), ";" + more);
    assert text[0..] == text;
    SegmentFromIsSeg(text, 0, TOP);
    TameIsPassed(TOP, Show(d), "");
    assert Show(d) + "" == Show(d) && Show(d)[0..] == Show(d);
    SegmentFromIsSeg(Show(d), 0, TOP);
  }

  lemma DeclarationsOfLast(selector: string, body: RuleBody, lines: int)
    requires PrintableBody(body)
    ensures Declarations(selector, if body.last.Some? then Show(body.last.value) else body.tail, lines) ==
            if body.last.Some? then FlatDeclaration(selector, body.last.value, lines) else []
  {
    hide Newlines, Printable, FlatDeclaration, Show, Emit, SegmentFrom;
    if body.last.Some? {
      SegmentOfShown(body.last.value, "");
      EmitShown(selector, body.last.value, lines);
    } else {
      BlankDeclaresNothing(selector, body.tail, lines);
    }
  }

  lemma BlankDeclaresNothing(selector: string, tail: string, lines: int)
    requires Blank(tail)
    ensures Declarations(selector, tail, lines) == []
  {
    BlankIsOrdinary(tail);
    TameIsPassed(TOP, tail, "");
    assert tail + "" == tail && tail[0..] == tail;
    SegmentFromIsSeg(tail, 0, TOP);
    StripBlank(tail);
  }

  lemma DeclarationsOfBody(selector: string, body: RuleBody, lines: int)
    requires PrintableBody(body)
    ensures Declarations(selector, ShowBody(body), lines) == FlatBody(selector, body, lines)
  {
    hide Newlines, Printable, FlatDeclaration, Show, Declarations, FlatClosed, ShowClosed;
    DeclarationsOfClosed(selector, body.closed, if body.last.Some? then Show(body.last.value) else body.tail, lines);
    DeclarationsOfLast(selector, body, lines + Newlines(ShowClosed(body.closed)));
  }

  lemma {:induction false} ClosedSkips(ds: seq<Declaration>)
    requires forall i :: 0 <= i < |ds| ==> Printable(ds[i])
    ensures Skips(ShowClosed(ds))
  {
    hide Skips, Show, Printable;
    if ds == [] {
      PlainSkips("");
    } else {
      ShownDeclarationScans(ds[0]);
      PlainAndTameEnd(Show(ds[0]), "");
      PlainSkips(Show(ds[0]));
      PlainSkips(";");
      SkipsBoth(Show(ds[0]), ";");
      ClosedSkips(ds[1..]);
      SkipsBoth(Show(ds[0]) + ";", ShowClosed(ds[1..]));
    }
  }

  lemma BodySkips(body: RuleBody)
    requires PrintableBody(body)
    ensures Skips(ShowBody(body))
  {
    hide Skips, Show, Printable, Plain, TameFrom;
    ClosedSkips(body.closed);
    if body.last.Some? {
      ShownDeclarationScans(body.last.value);
      PlainSkips(Show(body.last.value));
      SkipsBoth(ShowClosed(body.closed), Show(body.last.value));
    } else {
      BlankIsOrdinary(body.tail);
      PlainSkips(body.tail);
      SkipsBoth(ShowClosed(body.closed), body.tail);
    }
  }

  // ---- Blocks and sheets ----

  lemma HeadScans(lead: string, head: string, trail: string)
    requires PrintableHead(lead, head, trail)
    ensures var text := lead + head + trail;
            Plain(text) && '{' !in text && Strip(text) == head
  {
    hide TameFrom;
    BlankIsOrdinary(lead);
    BlankIsOrdinary(trail);
    PlainAndTameEnd(head, trail);
    OrdinaryPrefix(lead, head + trail);
    assert lead + head + trail == lead + (head + trail);
    StripPadded(lead, head, trail);
  }

  lemma ShownBlockSkips(head: string, body: string)
    requires Plain(head) && Skips(body)
    ensures Skips(ShowBlock(head, body))
  {
    hide Skips, Plain;
    PlainSkips(head);
    BlockSkips(body);
    SkipsBoth(head, "{" + body + "}");
  }

  lemma {:induction false} SheetSkips(sheet: Sheet)
    requires PrintableSheet(sheet)
    ensures Skips(ShowSheet(sheet))
  {
    hide Skips, Plain, ShowBlock, PrintableHead, PrintableBody;
    match sheet
    case End(tail) =>
      PlainSkips(tail);
    case Rule(lead, selector, trail, body, rest) =>
      HeadScans(lead, selector, trail);
      BodySkips(body);
      ShownBlockSkips(lead + selector + trail, ShowBody(body));
      SheetSkips(rest);
      SkipsBoth(ShowBlock(lead + selector + trail, ShowBody(body)), ShowSheet(rest));
    case At(lead, prelude, trail, inner, rest) =>
      HeadScans(lead, prelude, trail);
      SheetSkips(inner);
      ShownBlockSkips(lead + prelude + trail, ShowSheet(inner));
      SheetSkips(rest);
      SkipsBoth(ShowBlock(lead + prelude + trail, ShowSheet(inner)), ShowSheet(rest));
  }

  lemma FindShownBlock(head: string, body: string, rest: string)
    requires '{' !in head && Skips(body)
    ensures FindBlock(ShowBlock(head, body) + rest) == Some(Block(|head|, |head| + |body| + 1))
  {
    hide IndexOf, MatchFrom, Match, Skips;
    var s := ShowBlock(head, body) + rest;
    var block := "{" + body + "}" + rest;
    assert s == head + ['{'] + (body + "}" + rest);
    IndexOfFirst(head, '{', body + "}" + rest);
    assert s[|head|..] == block && block[0..] == block;
    MatchFromIsMatch(block, 0, OUTSIDE);
    MatchBlock(body, rest, 0);
  }

  /** One printed block at the front of a text is parsed by itself, then the rest. */
  lemma ParseShownBlock(head: string, body: string, rest: string, lines: int)
    requires '{' !in head && Skips(body)
    ensures Parse(ShowBlock(head, body) + rest, lines) ==
            (if "@" <= Strip(head) then Parse(body, lines + Newlines(head))
             else Declarations(Strip(head), body, lines + Newlines(head)))
            + Parse(rest, lines + Newlines(ShowBlock(head, body)))
  {
    hide Parse, Declarations, FindBlock, Newlines, Strip, Skips;
    var s := ShowBlock(head, body) + rest;
    var block := Block(|head|, |head| + |body| + 1);
    FindShownBlock(head, body, rest);
    ParseUnfold(s, lines, block);
    assert s[..|head|] == head && Body(s, block) == body && Rest(s, block) == rest;
    assert s[..|head| + 1] == head + "{" && s[..block.close + 1] == ShowBlock(head, body);
    NewlinesAppend(head, "{");
    NewlinesBrace();
  }

  lemma NewlinesBrace()
    ensures Newlines("{") == 0
  {
  }

  /**
   Parsing a printed sheet gives back its declarations, in document order, each
   with its selector, its case-folded property, its value and its reported line.
   */
  lemma {:induction false} ParseShowSheet(sheet: Sheet, lines: int)
    requires PrintableSheet(sheet)
    ensures Parse(ShowSheet(sheet), lines) == Flatten(sheet, lines)
  {
    hide Parse, Declarations, Newlines, Strip, Skips, Plain, ShowBlock, ShowBody, FlatBody, PrintableHead, PrintableBody;
    match sheet
    case End(tail) =>
      ParseNoBlock(tail, lines);
    case Rule(lead, selector, trail, body, rest) =>
      var head := lead + selector + trail;
      HeadScans(lead, selector, trail);
      BodySkips(body);
      ParseShownBlock(head, ShowBody(body), ShowSheet(rest), lines);
      DeclarationsOfBody(selector, body, lines + Newlines(head));
      ParseShowSheet(rest, lines + Newlines(ShowBlock(head, ShowBody(body))));
    case At(lead, prelude, trail, inner, rest) =>
      var head := lead + prelude + trail;
      HeadScans(lead, prelude, trail);
      SheetSkips(inner);
      ParseShownBlock(head, ShowSheet(inner), ShowSheet(rest), lines);
      ParseShowSheet(inner, lines + Newlines(head));
      ParseShowSheet(rest, lines + Newlines(ShowBlock(head, ShowSheet(inner))));
  }

  lemma ParseNoBlock(tail: string, lines: int)
    requires '{' !in tail
    ensures Parse(tail, lines) == []
  {
  }

  /** The reported line is the line of the property name unless trailing space pushes the count over a newline. */
  lemma ReportedLineIsExactIff(d: Declaration, lines: int)
    ensures ReportedLine(d, lines) == lines + Newlines(d.lead) + 1 <==>
            '\n' !in Show(d)[|d.lead|..|d.lead| + |d.trail|]
  {
    var shown := Show(d);
    var counted, drift := shown[..|d.lead| + |d.trail|], shown[|d.lead|..|d.lead| + |d.trail|];
    assert counted == d.lead + drift;
    NewlinesAppend(d.lead, drift);
    NoNewlines(drift);
  }

  /** Whatever comments a text has: if blanking them leaves a printed sheet, parsing returns that sheet's declarations. */
  lemma RoundTrip(text: string, sheet: Sheet, lineOffset: int)
    requires PrintableSheet(sheet) && BlankComments(text) == ShowSheet(sheet)
    ensures Parse(BlankComments(text), lineOffset) == Flatten(sheet, lineOffset)
  {
    hide Parse, Flatten, PrintableSheet, BlankComments, ShowSheet;
    ParseShowSheet(sheet, lineOffset);
  }
}
