/**
 Comments in printed stylesheets (scripts/architecture/checks.py): wherever there is
 spacing there may be comments as well, and parsing gives back the same declarations.
 */
module CssComments {
  import opened Bytes
  import opened Text
  import opened CssParser
  import opened CssRoundTrip

  /**
   Blanking `s` does not depend on what follows it: every comment it opens is closed. If a
   star may follow, no slash at its end is left to open one.
   */
  predicate Seam(s: string, star: bool)
    decreases |s|
  {
    if s == "" then true
    else if OpensComment(s) then CommentEnd(s, 2).Some? && Seam(s[CommentEnd(s, 2).value..], star)
    else (star && |s| == 1 ==> s[0] != '/') && Seam(s[1..], star)
  }

  /** Blank characters and closed comments. */
  predicate Gap(s: string) {
    Seam(s, true) && Blank(BlankComments(s))
  }

  predicate NoStar(s: string) {
    s == "" || s[0] != '*'
  }

  lemma {:induction false} CommentEndStays(s: string, more: string, i: nat)
    requires i <= |s| && CommentEnd(s, i).Some?
    ensures CommentEnd(s + more, i) == CommentEnd(s, i)
    decreases |s| - i
  {
    if !(s[i] == '*' && s[i+1] == '/') {
      CommentEndStays(s, more, i + 1);
    }
  }

  lemma BlankUnfold(s: string)
    requires s != ""
    ensures BlankComments(s) ==
            if OpensComment(s) && CommentEnd(s, 2).Some?
            then seq(Newlines(s[..CommentEnd(s, 2).value]), i => '\n') + BlankComments(s[CommentEnd(s, 2).value..])
            else [s[0]] + BlankComments(s[1..])
  {
    hide Newlines;
  }

  lemma Join3(a: string, b: string, c: string)
    ensures a + (b + c) == (a + b) + c
  {
  }

  /** Blanking goes piece by piece across a seam. */
  lemma {:induction false} SeamThen(s: string, more: string, star: bool)
    requires Seam(s, star) && (star || NoStar(more))
    ensures BlankComments(s + more) == BlankComments(s) + BlankComments(more)
    decreases |s|
  {
    hide BlankComments, Newlines;
    if s == "" {
      assert s + more == more;
      NothingBlanked();
    } else {
      BlankUnfold(s);
      BlankUnfold(s + more);
      if OpensComment(s) {
        var end := CommentEnd(s, 2).value;
        CommentEndStays(s, more, 2);
        assert (s + more)[..end] == s[..end] && (s + more)[end..] == s[end..] + more;
        SeamThen(s[end..], more, star);
        Join3(seq(Newlines(s[..end]), i => '\n'), BlankComments(s[end..]), BlankComments(more));
      } else {
        assert !OpensComment(s + more);
        assert (s + more)[1..] == s[1..] + more;
        SeamThen(s[1..], more, star);
        Join3([s[0]], BlankComments(s[1..]), BlankComments(more));
      }
    }
  }

  lemma NothingBlanked()
    ensures BlankComments("") == ""
  {
  }

  /** Text without a comment opener is a piece that blanking leaves alone. */
  lemma TextSeam(s: string)
    requires !HasComment(s)
    ensures Seam(s, false) && BlankComments(s) == s
  {
    NothingToBlank(s);
    TextIsSeam(s);
  }

  lemma {:induction false} TextIsSeam(s: string)
    requires !HasComment(s)
    ensures Seam(s, false)
  {
    if s != "" {
      assert !OpensComment(s) by { assert s[0..] == s; }
      forall i | 0 <= i < |s[1..]| ensures !OpensComment(s[1..][i..]) {
        assert s[1..][i..] == s[i+1..];
      }
      TextIsSeam(s[1..]);
    }
  }

  lemma TextThen(s: string, more: string)
    requires !HasComment(s) && NoStar(more)
    ensures BlankComments(s + more) == s + BlankComments(more)
  {
    TextSeam(s);
    SeamThen(s, more, false);
  }

  lemma CharThen(c: char, more: string)
    requires c != '/'
    ensures BlankComments([c] + more) == [c] + BlankComments(more)
  {
    BlankUnfold([c] + more);
    assert ([c] + more)[1..] == more;
  }

  lemma GapThen(s: string, more: string)
    requires Gap(s)
    ensures BlankComments(s + more) == BlankComments(s) + BlankComments(more)
    ensures NoStar(more) ==> NoStar(s + more)
  {
    SeamThen(s, more, true);
    if s != "" && !OpensComment(s) {
      BlankUnfold(s);
      assert s[0] == BlankComments(s)[0] && IsSpace(s[0]);
    }
  }

  // ---- The sheet without its comments ----

  function BareDeclaration(d: Declaration): Declaration {
    Declaration(BlankComments(d.lead), d.name, BlankComments(d.gap), BlankComments(d.pad), d.value, BlankComments(d.trail))
  }

  function BareClosed(ds: seq<Declaration>): seq<Declaration> {
    if ds == [] then [] else [BareDeclaration(ds[0])] + BareClosed(ds[1..])
  }

  function BareBody(body: RuleBody): RuleBody {
    RuleBody(BareClosed(body.closed), match body.last case None => None case Some(d) => Some(BareDeclaration(d)),
             BlankComments(body.tail))
  }

  function Bare(sheet: Sheet): Sheet {
    match sheet
    case End(tail) => End(BlankComments(tail))
    case Rule(lead, selector, trail, body, rest) =>
      Rule(BlankComments(lead), selector, BlankComments(trail), BareBody(body), Bare(rest))
    case At(lead, prelude, trail, inner, rest) =>
      At(BlankComments(lead), prelude, BlankComments(trail), Bare(inner), Bare(rest))
  }

  predicate CommentedDeclaration(d: Declaration) {
    Gap(d.lead) && Gap(d.gap) && Gap(d.pad) && Gap(d.trail) && !HasComment(d.name) && !HasComment(d.value)
  }

  predicate CommentedBody(body: RuleBody) {
    && (forall i :: 0 <= i < |body.closed| ==> CommentedDeclaration(body.closed[i]))
    && (body.last.Some? ==> CommentedDeclaration(body.last.value))
    && Gap(body.tail)
  }

  /** Comments stand where there is spacing; texts open none. */
  predicate Commented(sheet: Sheet) {
    match sheet
    case End(tail) => Seam(tail, false)
    case Rule(lead, selector, trail, body, rest) =>
      Gap(lead) && Gap(trail) && !HasComment(selector) && CommentedBody(body) && Commented(rest)
    case At(lead, prelude, trail, inner, rest) =>
      Gap(lead) && Gap(trail) && !HasComment(prelude) && Commented(inner) && Commented(rest)
  }

  // ---- Blanking what is printed ----

  function Nested(d: Declaration, more: string): string {
    d.lead + (d.name + (d.gap + ([':'] + (d.pad + (d.value + (d.trail + more))))))
  }

  lemma ShowIsNested(d: Declaration, more: string)
    ensures Show(d) + more == Nested(d, more)
  {
    var core := d.name + d.gap + ":" + d.pad + d.value;
    assert Show(d) + more == d.lead + (core + (d.trail + more));
    var rest := d.trail + more;
    assert core + rest == d.name + (d.gap + ([':'] + (d.pad + (d.value + rest))));
  }

  lemma ShowThen(d: Declaration, more: string)
    requires CommentedDeclaration(d) && NoStar(more)
    ensures BlankComments(Show(d) + more) == Show(BareDeclaration(d)) + BlankComments(more)
  {
    hide BlankComments, Show, Gap, HasComment;
    ShowIsNested(d, more);
    ShowIsNested(BareDeclaration(d), BlankComments(more));
    var trail := d.trail + more;
    var value := d.value + trail;
    var pad := d.pad + value;
    var colon := [':'] + pad;
    var gap := d.gap + colon;
    GapThen(d.trail, more);
    TextThen(d.value, trail);
    GapThen(d.pad, value);
    CharThen(':', pad);
    GapThen(d.gap, colon);
    TextThen(d.name, gap);
    GapThen(d.lead, d.name + gap);
  }

  lemma {:induction false} ClosedThen(ds: seq<Declaration>, more: string)
    requires forall i :: 0 <= i < |ds| ==> CommentedDeclaration(ds[i])
    ensures BlankComments(ShowClosed(ds) + more) == ShowClosed(BareClosed(ds)) + BlankComments(more)
  {
    hide BlankComments, Show, CommentedDeclaration, BareDeclaration;
    if ds == [] {
      assert ShowClosed(ds) + more == more;
    } else {
      var rest := ShowClosed(ds[1..]) + more;
      ClosedThen(ds[1..], more);
      assert ShowClosed(ds) + more == Show(ds[0]) + ([';'] + rest);
      ShowThen(ds[0], [';'] + rest);
      CharThen(';', rest);
      var bare := BareClosed(ds);
      assert bare[0] == BareDeclaration(ds[0]) && bare[1..] == BareClosed(ds[1..]);
      assert ShowClosed(bare) == Show(bare[0]) + ";" + ShowClosed(bare[1..]);
    }
  }

  lemma BodyThen(body: RuleBody, more: string)
    requires CommentedBody(body) && NoStar(more)
    ensures BlankComments(ShowBody(body) + more) == ShowBody(BareBody(body)) + BlankComments(more)
  {
    hide BlankComments, Show, ShowClosed, BareClosed, CommentedDeclaration, BareDeclaration, Gap;
    var end := if body.last.Some? then Show(body.last.value) else body.tail;
    assert ShowBody(body) + more == ShowClosed(body.closed) + (end + more);
    ClosedThen(body.closed, end + more);
    if body.last.Some? {
      ShowThen(body.last.value, more);
    } else {
      GapThen(body.tail, more);
    }
  }

  lemma BlockIsNested(lead: string, head: string, trail: string, body: string, more: string)
    ensures ShowBlock(lead + head + trail, body) + more == lead + (head + (trail + (['{'] + (body + (['}'] + more)))))
  {
    var block := "{" + body + "}";
    assert block + more == ['{'] + (body + (['}'] + more));
    assert ShowBlock(lead + head + trail, body) + more == lead + (head + (trail + (block + more)));
  }

  /** A block whose body blanks to `bare` blanks to the block around `bare`. */
  lemma BlockThen(lead: string, head: string, trail: string, body: string, bare: string, more: string)
    requires Gap(lead) && Gap(trail) && !HasComment(head)
    requires BlankComments(body + (['}'] + more)) == bare + BlankComments(['}'] + more)
    ensures BlankComments(ShowBlock(lead + head + trail, body) + more) ==
            ShowBlock(BlankComments(lead) + head + BlankComments(trail), bare) + BlankComments(more)
  {
    hide BlankComments, ShowBlock, Gap, HasComment;
    BlockIsNested(lead, head, trail, body, more);
    BlockIsNested(BlankComments(lead), head, BlankComments(trail), bare, BlankComments(more));
    var inner := body + (['}'] + more);
    var open := ['{'] + inner;
    CharThen('}', more);
    CharThen('{', inner);
    GapThen(trail, open);
    TextThen(head, trail + open);
    GapThen(lead, head + (trail + open));
  }

  lemma {:induction false} SheetThen(sheet: Sheet, more: string)
    requires Commented(sheet) && NoStar(more)
    ensures BlankComments(ShowSheet(sheet) + more) == ShowSheet(Bare(sheet)) + BlankComments(more)
  {
    hide BlankComments, ShowBlock, ShowBody, BareBody, CommentedBody, Gap, HasComment, Seam;
    match sheet
    case End(tail) =>
      SeamThen(tail, more, false);
    case Rule(lead, selector, trail, body, rest) =>
      var after := ShowSheet(rest) + more;
      SheetThen(rest, more);
      BodyThen(body, ['}'] + after);
      BlockThen(lead, selector, trail, ShowBody(body), ShowBody(BareBody(body)), after);
      Join3(ShowBlock(lead + selector + trail, ShowBody(body)), ShowSheet(rest), more);
      Join3(ShowBlock(BlankComments(lead) + selector + BlankComments(trail), ShowBody(BareBody(body))),
            ShowSheet(Bare(rest)), BlankComments(more));
    case At(lead, prelude, trail, inner, rest) =>
      var after := ShowSheet(rest) + more;
      SheetThen(rest, more);
      SheetThen(inner, ['}'] + after);
      BlockThen(lead, prelude, trail, ShowSheet(inner), ShowSheet(Bare(inner)), after);
      Join3(ShowBlock(lead + prelude + trail, ShowSheet(inner)), ShowSheet(rest), more);
      Join3(ShowBlock(BlankComments(lead) + prelude + BlankComments(trail), ShowSheet(Bare(inner))),
            ShowSheet(Bare(rest)), BlankComments(more));
  }

  // ---- The round trip ----

  /**
   Printing any tree with comments in any of its spacing and parsing it returns the
   declarations of the tree, on the lines where the comments leave them.
   */
  lemma CommentedRoundTrip(sheet: Sheet, lineOffset: int)
    requires Commented(sheet) && PrintableSheet(Bare(sheet))
    ensures Parse(BlankComments(ShowSheet(sheet)), lineOffset) == Flatten(Bare(sheet), lineOffset)
  {
    hide BlankComments, Parse, ShowSheet, Flatten, PrintableSheet, Commented, Bare;
    SheetThen(sheet, "");
    NothingBlanked();
    assert ShowSheet(sheet) + "" == ShowSheet(sheet) && ShowSheet(Bare(sheet)) + "" == ShowSheet(Bare(sheet));
    RoundTrip(ShowSheet(sheet), Bare(sheet), lineOffset);
  }

  /** A comment inside quotes is a comment to the parser: the quoted text loses it. */
  lemma QuotedCommentIsLost(before: string, after: string)
    requires !HasComment(before)
    ensures BlankComments(before + "\"/*x*/\"" + after) == before + "\"\"" + BlankComments(after)
  {
    hide Newlines;
    var quoted := "/*x*/" + ("\"" + after);
    assert before + "\"/*x*/\"" + after == before + (['"'] + quoted);
    TextThen(before, ['"'] + quoted);
    CharThen('"', quoted);
    ShortCommentBlanks();
    SeamThen("/*x*/", "\"" + after, true);
    CharThen('"', after);
    assert ['"'] + after == "\"" + after;
  }

  lemma ShortCommentBlanks()
    ensures Seam("/*x*/", true) && BlankComments("/*x*/") == ""
  {
    var s := "/*x*/";
    assert CommentEnd(s, 3) == Some(5) && CommentEnd(s, 2) == Some(5);
    assert s[..5] == s && s[5..] == "";
    NoNewlines(s);
  }
}
