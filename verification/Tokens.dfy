/**
 Semicolon-separated token lists (scripts/backfill_ap_optical_treatment_events.py).
 */
module Tokens {
  import opened Bytes
  import opened Text

  /** Keeps the first occurrence of each element. */
  function Dedup(xs: seq<string>): (r: seq<string>)
    ensures forall x :: x in r <==> x in xs
    ensures forall i, j :: 0 <= i < j < |r| ==> r[i] != r[j]
    ensures |r| <= |xs|
  {
    if xs == [] then []
    else
      var r, last := Dedup(xs[..|xs|-1]), xs[|xs|-1];
      assert xs == xs[..|xs|-1] + [last];
      if last in r then r else r + [last]
  }

  lemma {:induction false} DedupDistinct(xs: seq<string>)
    requires forall i, j :: 0 <= i < j < |xs| ==> xs[i] != xs[j]
    ensures Dedup(xs) == xs
  {
    if xs != [] {
      DedupDistinct(xs[..|xs|-1]);
      assert xs[|xs|-1] !in xs[..|xs|-1];
    }
  }

  /** `s.split(";")`. */
  function Split(s: string): (r: seq<string>)
    ensures r != []
    ensures forall i :: 0 <= i < |r| ==> ';' !in r[i]
    decreases |s|
  {
    match IndexOf(s, ';')
    case None => [s]
    case Some(i) => [s[..i]] + Split(s[i+1..])
  }

  /** `";".join(ts)`. */
  function Join(ts: seq<string>): string {
    if ts == [] then "" else if |ts| == 1 then ts[0] else ts[0] + ";" + Join(ts[1..])
  }

  function NonEmpty(ts: seq<string>): (r: seq<string>)
    ensures forall x :: x in r <==> x in ts && x != ""
  {
    if ts == [] then [] else if ts[0] == "" then NonEmpty(ts[1..]) else [ts[0]] + NonEmpty(ts[1..])
  }

  function Tokens(value: string): seq<string> {
    Dedup(NonEmpty(Split(Strip(value))))
  }

  function JoinTokens(a: string, b: string): string {
    Join(Dedup(Tokens(a) + Tokens(b)))
  }

  /** The tokens of several texts, one text after the other. */
  function AllTokens(values: seq<string>): seq<string> {
    if values == [] then [] else AllTokens(values[..|values|-1]) + Tokens(values[|values|-1])
  }

  lemma PairTokens(a: string, b: string)
    ensures AllTokens([a, b]) == Tokens(a) + Tokens(b)
  {
    hide Tokens;
    assert [a, b][..1] == [a] && [a][..0] == [];
    assert AllTokens([a]) == Tokens(a);
  }

  /** One text: append what is not there yet. */
  method AppendTokens(tokens: seq<string>, result0: seq<string>, ghost seen0: seq<string>) returns (result: seq<string>)
    requires result0 == Dedup(seen0)
    ensures result == Dedup(seen0 + tokens)
  {
    hide Dedup;
    result := result0;
    assert seen0 + tokens[..0] == seen0;
    for j := 0 to |tokens|
      invariant result == Dedup(seen0 + tokens[..j])
    {
      assert seen0 + tokens[..j+1] == (seen0 + tokens[..j]) + [tokens[j]];
      DedupStep(seen0 + tokens[..j], tokens[j]);
      if tokens[j] !in result {
        result := result + [tokens[j]];
      }
    }
    assert tokens[..|tokens|] == tokens;
  }

  lemma DedupStep(xs: seq<string>, x: string)
    ensures Dedup(xs + [x]) == if x in Dedup(xs) then Dedup(xs) else Dedup(xs) + [x]
  {
    assert (xs + [x])[..|xs|] == xs;
  }

  /** The loops of `_tokens` and `_join_tokens`, for any number of texts. */
  method CollectTokens(values: seq<string>) returns (text: string)
    ensures text == Join(Dedup(AllTokens(values)))
    ensures |values| == 2 ==> text == JoinTokens(values[0], values[1])
  {
    hide Dedup, Tokens;
    var result: seq<string> := [];
    NothingToDedup();
    for i := 0 to |values|
      invariant result == Dedup(AllTokens(values[..i]))
    {
      assert values[..i+1][..i] == values[..i];
      result := AppendTokens(Tokens(values[i]), result, AllTokens(values[..i]));
    }
    assert values[..|values|] == values;
    if |values| == 2 {
      PairTokens(values[0], values[1]);
      assert values == [values[0], values[1]];
    }
    text := Join(result);
  }

  lemma NothingToDedup()
    ensures Dedup([]) == []
  {
  }

  predicate IsTokenList(ts: seq<string>) {
    && (forall i :: 0 <= i < |ts| ==> ts[i] != "" && ';' !in ts[i])
    && (forall i, j :: 0 <= i < j < |ts| ==> ts[i] != ts[j])
  }

  lemma JoinFront(ts: seq<string>)
    requires ts != []
    ensures Join(ts) == if |ts| == 1 then ts[0] else ts[0] + [';'] + Join(ts[1..])
  {
  }

  lemma SplitFirst(first: string, rest: string)
    requires ';' !in first
    ensures Split(first + [';'] + rest) == [first] + Split(rest)
  {
    hide IndexOf;
    var s := first + [';'] + rest;
    IndexOfFirst(first, ';', rest);
    assert s[..|first|] == first && s[|first| + 1..] == rest;
  }

  lemma {:induction false} SplitJoin(ts: seq<string>)
    requires ts != [] && forall i :: 0 <= i < |ts| ==> ';' !in ts[i]
    ensures Split(Join(ts)) == ts
  {
    hide IndexOf, Join;
    JoinFront(ts);
    if |ts| > 1 {
      SplitJoin(ts[1..]);
      SplitFirst(ts[0], Join(ts[1..]));
    } else {
      assert IndexOf(ts[0], ';').None?;
      assert ts == [ts[0]];
    }
  }

  lemma {:induction false} JoinSplit(s: string)
    ensures Join(Split(s)) == s
    decreases |s|
  {
    var i := IndexOf(s, ';');
    if i.Some? {
      JoinSplit(s[i.value + 1..]);
      var pieces := Split(s);
      assert pieces[1..] == Split(s[i.value + 1..]);
      assert s == s[..i.value] + ";" + s[i.value + 1..];
    }
  }

  lemma {:induction false} NonEmptyAll(ts: seq<string>)
    requires forall i :: 0 <= i < |ts| ==> ts[i] != ""
    ensures NonEmpty(ts) == ts
  {
    if ts != [] {
      NonEmptyAll(ts[1..]);
    }
  }

  /** Text length of a joined list, by its last element. */
  lemma {:induction false} JoinLast(ts: seq<string>, x: string)
    ensures |Join(ts + [x])| == (if ts == [] then 0 else |Join(ts)| + 1) + |x|
  {
    if |ts| > 0 {
      assert (ts + [x])[1..] == ts[1..] + [x];
      JoinLast(ts[1..], x);
    }
  }

  lemma {:induction false} NonEmptyShortens(ts: seq<string>)
    ensures |Join(NonEmpty(ts))| <= |Join(ts)|
  {
    if |ts| > 1 {
      NonEmptyShortens(ts[1..]);
      var rest := NonEmpty(ts[1..]);
      assert ts[0] != "" && rest != [] ==> NonEmpty(ts)[1..] == rest;
    } else if |ts| == 1 {
      assert ts[1..] == [];
    }
  }

  lemma {:induction false} DedupShortens(ts: seq<string>)
    ensures |Join(Dedup(ts))| <= |Join(ts)|
  {
    if ts != [] {
      var init, last := ts[..|ts|-1], ts[|ts|-1];
      DedupShortens(init);
      JoinLast(init, last);
      JoinLast(Dedup(init), last);
      assert ts == init + [last];
    }
  }

  lemma {:induction false} JoinEdges(ts: seq<string>)
    requires ts != [] && forall i :: 0 <= i < |ts| ==> ts[i] != ""
    ensures var s, last := Join(ts), ts[|ts|-1];
            s != "" && s[0] == ts[0][0] && s[|s|-1] == last[|last|-1]
  {
    if |ts| > 1 {
      JoinEdges(ts[1..]);
    }
  }

  lemma {:induction false} StripIsIdentityIff(s: string)
    ensures Strip(s) == s <==> Stripped(s)
  {
  }

  /**
   A list written as text reads back as itself exactly when its first token starts
   and its last token ends with something other than a space.
   */
  lemma ReparsesIff(ts: seq<string>)
    requires IsTokenList(ts)
    ensures Tokens(Join(ts)) == ts <==>
            (ts == [] || (!IsSpace(ts[0][0]) && !IsSpace(ts[|ts|-1][|ts[|ts|-1]|-1])))
  {
    var s := Join(ts);
    StripIsIdentityIff(s);
    if ts != [] {
      JoinEdges(ts);
    }
    if Stripped(s) {
      if ts == [] {
        assert Split("") == [""];
      } else {
        SplitJoin(ts);
        NonEmptyAll(ts);
        DedupDistinct(ts);
      }
    } else {
      var pieces := Split(Strip(s));
      JoinSplit(Strip(s));
      NonEmptyShortens(pieces);
      DedupShortens(NonEmpty(pieces));
      StripShortens(s);
    }
  }

  lemma {:induction false} StripShortens(s: string)
    requires !Stripped(s)
    ensures |Strip(s)| < |s|
  {
  }

  lemma TokensAreTokenList(value: string)
    ensures IsTokenList(Tokens(value))
  {
    hide Split, Strip, Dedup;
    var pieces, ts := Split(Strip(value)), Tokens(value);
    forall i | 0 <= i < |ts| ensures ts[i] != "" && ';' !in ts[i] {
      assert ts[i] in ts;
      assert ts[i] in pieces;
    }
  }

  /** The union keeps the order of first appearance and, written out, is a list without repeats. */
  lemma JoinTokensIsOrderedUnion(a: string, b: string)
    ensures var union := Dedup(Tokens(a) + Tokens(b));
            && IsTokenList(union)
            && JoinTokens(a, b) == Join(union)
            && Tokens(a) <= union
            && (forall t :: t in union <==> t in Tokens(a) || t in Tokens(b))
  {
    hide Tokens;
    TokensAreTokenList(a);
    TokensAreTokenList(b);
    DedupPrefix(Tokens(a), Tokens(b));
    DedupDistinct(Tokens(a));
    var union := Dedup(Tokens(a) + Tokens(b));
    forall i | 0 <= i < |union| ensures union[i] != "" && ';' !in union[i] {
      assert union[i] in union;
      assert union[i] in Tokens(a) || union[i] in Tokens(b);
    }
  }

  lemma {:induction false} DedupPrefix(xs: seq<string>, ys: seq<string>)
    ensures Dedup(xs) <= Dedup(xs + ys)
  {
    if ys == [] {
      assert xs + ys == xs;
    } else {
      var init := xs + ys[..|ys|-1];
      assert (xs + ys)[..|xs + ys|-1] == init;
      DedupPrefix(xs, ys[..|ys|-1]);
    }
  }
}
