/**
 The largest payloads of all task databases, kept in bounded heaps: one per database,
 then one for the report (scripts/maintenance/analyze_task_payloads_dev.py).

 A heap is held as its elements in ascending order, so its first element is the least.
 */
module TopPayloads {

  datatype Record = Record(size: nat, taskId: string)

  /** Larger tokens win; among equal sizes the one met earlier does. */
  datatype Token = Token(size: nat, sequence: nat, taskId: string)

  datatype Database = Database(readable: bool, currentSite: bool, records: seq<Record>)

  predicate Less(a: Token, b: Token) {
    a.size < b.size || (a.size == b.size && a.sequence > b.sequence)
  }

  ghost predicate Ascending(heap: seq<Token>) {
    forall i, j :: 0 <= i < j < |heap| ==> Less(heap[i], heap[j])
  }

  function Push(heap: seq<Token>, t: Token): seq<Token> {
    if heap == [] || Less(t, heap[0]) then [t] + heap else [heap[0]] + Push(heap[1..], t)
  }

  function Sizes(heap: seq<Token>): multiset<nat> {
    if heap == [] then multiset{} else Sizes(heap[1..]) + multiset{heap[0].size}
  }

  ghost predicate Fresh(heap: seq<Token>, t: Token) {
    forall u :: u in heap ==> u.sequence != t.sequence
  }

  lemma {:induction false} PushSizes(heap: seq<Token>, t: Token)
    ensures Sizes(Push(heap, t)) == Sizes(heap) + multiset{t.size} && |Push(heap, t)| == |heap| + 1
  {
    hide Less;
    if heap == [] || Less(t, heap[0]) {
      assert ([t] + heap)[1..] == heap;
    } else {
      PushSizes(heap[1..], t);
      assert Push(heap, t)[1..] == Push(heap[1..], t);
    }
  }

  lemma {:induction false} PushMembers(heap: seq<Token>, t: Token)
    ensures forall u :: u in Push(heap, t) <==> u in heap || u == t
  {
    hide Less;
    if heap != [] && !Less(t, heap[0]) {
      PushMembers(heap[1..], t);
      assert heap == [heap[0]] + heap[1..];
    }
  }

  lemma {:induction false} PushKeeps(heap: seq<Token>, t: Token)
    requires Ascending(heap) && Fresh(heap, t)
    ensures var pushed := Push(heap, t);
            && Ascending(pushed) && |pushed| == |heap| + 1
            && (forall u :: u in pushed <==> u in heap || u == t)
            && Sizes(pushed) == Sizes(heap) + multiset{t.size}
  {
    hide Less, Sizes;
    PushSizes(heap, t);
    PushMembers(heap, t);
    if heap == [] {
    } else if Less(t, heap[0]) {
      forall j | 0 <= j < |heap| ensures Less(t, heap[j]) {
        LessIsTransitive(t, heap[0], heap[j]);
      }
    } else {
      var rest := heap[1..];
      assert heap == [heap[0]] + rest;
      assert heap[0] in heap;
      LessIsTotal(t, heap[0]);
      PushKeeps(rest, t);
      AllAbove(heap[0], rest, Push(rest, t), t);
    }
  }

  lemma AllAbove(least: Token, rest: seq<Token>, pushed: seq<Token>, t: Token)
    requires Less(least, t) && (forall j :: 0 <= j < |rest| ==> Less(least, rest[j]))
    requires forall u :: u in pushed ==> u in rest || u == t
    ensures forall j :: 0 <= j < |pushed| ==> Less(least, pushed[j])
  {
    hide Less;
    forall j | 0 <= j < |pushed| ensures Less(least, pushed[j]) {
      assert pushed[j] in pushed;
    }
  }

  lemma LessIsTransitive(a: Token, b: Token, c: Token)
    ensures (a == b || Less(a, b)) && (b == c || Less(b, c)) ==> a == c || Less(a, c)
    ensures Less(a, b) && (b == c || Less(b, c)) ==> Less(a, c)
  {
  }

  lemma LessIsTotal(a: Token, b: Token)
    ensures a.sequence != b.sequence ==> Less(a, b) || Less(b, a)
    ensures !Less(a, a)
  {
  }

  // ---- The K largest sizes ----

  function Min(a: nat, b: nat): nat {
    if a <= b then a else b
  }

  /** `top` is what remains of `all` when only the `k` largest are kept, multiplicities included. */
  ghost predicate IsTopSizes(top: multiset<nat>, all: multiset<nat>, k: nat) {
    && top <= all
    && |top| == Min(k, |all|)
    && forall x, y :: x in all - top && y in top ==> x <= y
  }

  /** There is only one such multiset. */
  lemma TopSizesAreUnique(a: multiset<nat>, b: multiset<nat>, all: multiset<nat>, k: nat)
    requires IsTopSizes(a, all, k) && IsTopSizes(b, all, k)
    ensures a == b
  {
    if a != b {
      var x := Surplus(a, b);
      var y := Surplus(b, a);
      SurplusIsLeftOut(a, b, all, x);
      SurplusIsLeftOut(b, a, all, y);
    }
  }

  lemma SurplusIsLeftOut(a: multiset<nat>, b: multiset<nat>, all: multiset<nat>, x: nat)
    requires a <= all && a[x] > b[x]
    ensures x in a && x in all - b
  {
  }

  lemma WholeIsPart(a: multiset<nat>, b: multiset<nat>)
    requires a <= b && |b| <= |a|
    ensures a == b
  {
    assert b == a + (b - a);
  }

  /** Of two different multisets of one size, each has more of something. */
  lemma Surplus(a: multiset<nat>, b: multiset<nat>) returns (x: nat)
    requires a != b && |b| <= |a|
    ensures a[x] > b[x]
  {
    if a <= b {
      WholeIsPart(a, b);
    }
    x :| a[x] > b[x];
  }

  lemma TopWhileFilling(top: multiset<nat>, all: multiset<nat>, s: nat, k: nat)
    requires IsTopSizes(top, all, k) && |top| < k
    ensures IsTopSizes(top + multiset{s}, all + multiset{s}, k)
  {
    assert all == top + (all - top);
    assert |all - top| == 0;
    assert all + multiset{s} - (top + multiset{s}) == multiset{};
  }

  lemma TopAfterReplacing(top: multiset<nat>, all: multiset<nat>, least: nat, s: nat, k: nat)
    requires IsTopSizes(top, all, k) && |top| == k && least in top && (forall y :: y in top ==> least <= y) && least <= s
    ensures IsTopSizes(top - multiset{least} + multiset{s}, all + multiset{s}, k)
  {
    var kept, more := top - multiset{least} + multiset{s}, all + multiset{s};
    forall x, y | x in more - kept && y in kept ensures x <= y {
      assert x in all - top || x == least;
    }
  }

  lemma TopAfterRefusing(top: multiset<nat>, all: multiset<nat>, least: nat, s: nat, k: nat)
    requires IsTopSizes(top, all, k) && |top| == k && least in top && (forall y :: y in top ==> least <= y) && s <= least
    ensures IsTopSizes(top, all + multiset{s}, k)
  {
    forall x, y | x in all + multiset{s} - top && y in top ensures x <= y {
      assert x in all - top || x == s;
    }
  }

  // ---- One bounded heap ----

  /** Nothing was turned away that is larger than something kept. */
  ghost predicate KeepsLargest(heap: seq<Token>, offered: seq<Token>) {
    && (forall t :: t in heap ==> t in offered)
    && (forall t, u :: t in offered && t !in heap && u in heap ==> Less(t, u))
  }

  ghost predicate IsHeapOf(heap: seq<Token>, offered: seq<Token>, k: nat) {
    && Ascending(heap) && |heap| == Min(k, |offered|)
    && KeepsLargest(heap, offered)
    && IsTopSizes(Sizes(heap), Sizes(offered), k)
  }

  lemma {:induction false} SizesCount(heap: seq<Token>)
    ensures |Sizes(heap)| == |heap|
    ensures forall s :: s in Sizes(heap) ==> exists i :: 0 <= i < |heap| && heap[i].size == s
  {
    if heap != [] {
      SizesCount(heap[1..]);
      forall s | s in Sizes(heap) ensures exists i :: 0 <= i < |heap| && heap[i].size == s {
        if s in Sizes(heap[1..]) {
          var i :| 0 <= i < |heap[1..]| && heap[1..][i].size == s;
          assert heap[i+1].size == s;
        } else {
          assert heap[0].size == s;
        }
      }
    }
  }

  lemma {:induction false} SizesAppend(a: seq<Token>, b: seq<Token>)
    ensures Sizes(a + b) == Sizes(a) + Sizes(b)
  {
    if a == [] {
      assert a + b == b;
    } else {
      assert (a + b)[1..] == a[1..] + b;
      SizesAppend(a[1..], b);
    }
  }

  /** The loop body shared by both levels: fill up to `k`, then replace the least by anything larger. */
  method Offer(heap: seq<Token>, t: Token, k: nat, ghost offered: seq<Token>) returns (kept: seq<Token>)
    requires k > 0 && IsHeapOf(heap, offered, k) && Fresh(offered, t)
    ensures IsHeapOf(kept, offered + [t], k)
  {
    hide Ascending, KeepsLargest, IsTopSizes, Less, Push, Sizes;
    if |heap| < k {
      kept := Push(heap, t);
      FillHeap(heap, t, k, offered);
    } else if Less(heap[0], t) {
      kept := Push(heap[1..], t);
      ReplaceLeast(heap, t, k, offered);
    } else {
      kept := heap;
      RefuseSmaller(heap, t, k, offered);
    }
  }

  lemma FreshInHeap(heap: seq<Token>, t: Token, k: nat, offered: seq<Token>)
    requires IsHeapOf(heap, offered, k) && Fresh(offered, t)
    ensures Fresh(heap, t) && t !in heap && |Sizes(heap)| == |heap| && |Sizes(offered)| == |offered|
    ensures Sizes(offered + [t]) == Sizes(offered) + multiset{t.size}
  {
    hide Less, IsTopSizes;
    SizesCount(heap);
    SizesCount(offered);
    SizesAppend(offered, [t]);
    assert [t][1..] == [];
  }

  lemma FillHeap(heap: seq<Token>, t: Token, k: nat, offered: seq<Token>)
    requires IsHeapOf(heap, offered, k) && Fresh(offered, t) && |heap| < k
    ensures IsHeapOf(Push(heap, t), offered + [t], k)
  {
    hide Less, Push, Sizes, IsTopSizes, Ascending;
    FreshInHeap(heap, t, k, offered);
    PushKeeps(heap, t);
    TopWhileFilling(Sizes(heap), Sizes(offered), t.size, k);
    FullHeapHoldsAll(heap, offered);
  }

  /** With everything kept so far, nothing has been turned away. */
  lemma {:induction false} FullHeapHoldsAll(heap: seq<Token>, offered: seq<Token>)
    requires Ascending(heap) && |heap| == |offered| && forall t :: t in heap ==> t in offered
    ensures forall t :: t in offered ==> t in heap
  {
    var held, given := set t | t in heap, set t | t in offered;
    AscendingIsDistinct(heap);
    AtMostLength(offered);
    SubsetOfSameSize(held, given);
    forall t | t in offered ensures t in heap {
      assert t in given;
    }
  }

  lemma SubsetOfSameSize(a: set<Token>, b: set<Token>)
    requires a <= b && |b| <= |a|
    ensures a == b
  {
    assert b == a + (b - a);
  }

  lemma {:induction false} AscendingIsDistinct(heap: seq<Token>)
    requires Ascending(heap)
    ensures |set t | t in heap| == |heap|
  {
    hide Less, Ascending, Sizes;
    if heap != [] {
      var rest := heap[1..];
      FirstIsLeast(heap);
      AscendingIsDistinct(rest);
      assert (set t | t in heap) == (set t | t in rest) + {heap[0]};
    }
  }

  lemma {:induction false} AtMostLength(tokens: seq<Token>)
    ensures |set t | t in tokens| <= |tokens|
  {
    if tokens != [] {
      var rest := tokens[1..];
      AtMostLength(rest);
      assert tokens == [tokens[0]] + rest;
      assert (set t | t in tokens) == (set t | t in rest) + {tokens[0]};
    }
  }

  /** The first of an ascending heap is its least, and the first of its sizes. */
  lemma FirstIsLeast(heap: seq<Token>)
    requires Ascending(heap) && heap != []
    ensures heap[0].size in Sizes(heap) && forall s :: s in Sizes(heap) ==> heap[0].size <= s
    ensures Ascending(heap[1..]) && Sizes(heap[1..]) == Sizes(heap) - multiset{heap[0].size}
    ensures forall t :: t in heap ==> t == heap[0] || Less(heap[0], t)
    ensures forall t :: t in heap <==> t == heap[0] || t in heap[1..]
    ensures heap[0] !in heap[1..]
  {
    hide Less;
    assert heap == [heap[0]] + heap[1..];
    forall s | s in Sizes(heap) ensures heap[0].size <= s {
      SizesCount(heap);
      var i :| 0 <= i < |heap| && heap[i].size == s;
      LessIsTotal(heap[0], heap[i]);
      SmallerOrEqual(heap[0], heap[i]);
    }
    forall t | t in heap[1..] ensures t != heap[0] {
      LessIsTotal(t, t);
    }
  }

  lemma SmallerOrEqual(a: Token, b: Token)
    ensures a == b || Less(a, b) ==> a.size <= b.size
  {
  }

  lemma ReplaceLeast(heap: seq<Token>, t: Token, k: nat, offered: seq<Token>)
    requires k > 0 && IsHeapOf(heap, offered, k) && Fresh(offered, t) && |heap| == k && Less(heap[0], t)
    ensures IsHeapOf(Push(heap[1..], t), offered + [t], k)
  {
    hide Push, Sizes, IsTopSizes, Ascending;
    var least, rest := heap[0], heap[1..];
    FreshInHeap(heap, t, k, offered);
    FirstIsLeast(heap);
    PushKeeps(rest, t);
    TopAfterReplacing(Sizes(heap), Sizes(offered), least.size, t.size, k);
    var kept, after := Push(rest, t), offered + [t];
    forall u, v | u in after && u !in kept && v in kept ensures Less(u, v) {
      if u == least {
        assert v == t || Less(least, v);
      } else {
        assert Less(u, least);
        LessIsTransitive(u, least, v);
      }
    }
  }

  lemma RefuseSmaller(heap: seq<Token>, t: Token, k: nat, offered: seq<Token>)
    requires k > 0 && IsHeapOf(heap, offered, k) && Fresh(offered, t) && |heap| == k && !Less(heap[0], t)
    ensures IsHeapOf(heap, offered + [t], k)
  {
    hide Sizes, IsTopSizes, Ascending;
    FreshInHeap(heap, t, k, offered);
    FirstIsLeast(heap);
    assert heap[0] in offered;
    LessIsTotal(t, heap[0]);
    TopAfterRefusing(Sizes(heap), Sizes(offered), heap[0].size, t.size, k);
    forall v | v in heap ensures Less(t, v) {
      LessIsTransitive(t, heap[0], v);
    }
  }

  // ---- Two levels ----

  function Sum(parts: seq<multiset<nat>>): multiset<nat> {
    if parts == [] then multiset{} else Sum(parts[..|parts|-1]) + parts[|parts|-1]
  }

  lemma {:induction false} SumContains(parts: seq<multiset<nat>>, i: nat)
    requires i < |parts|
    ensures parts[i] <= Sum(parts)
  {
    if i < |parts| - 1 {
      SumContains(parts[..|parts|-1], i);
    }
  }

  lemma {:induction false} SumGrows(tops: seq<multiset<nat>>, alls: seq<multiset<nat>>)
    requires |tops| == |alls| && forall i :: 0 <= i < |tops| ==> tops[i] <= alls[i]
    ensures Sum(tops) <= Sum(alls)
  {
    if tops != [] {
      SumGrows(tops[..|tops|-1], alls[..|alls|-1]);
    }
  }

  lemma {:induction false} SurplusInPart(tops: seq<multiset<nat>>, alls: seq<multiset<nat>>, x: nat) returns (i: nat)
    requires |tops| == |alls| && Sum(alls)[x] > Sum(tops)[x]
    ensures i < |tops| && alls[i][x] > tops[i][x]
  {
    var last := |tops| - 1;
    if alls[last][x] > tops[last][x] {
      i := last;
    } else {
      i := SurplusInPart(tops[..last], alls[..last], x);
    }
  }

  ghost predicate TopOfEach(tops: seq<multiset<nat>>, alls: seq<multiset<nat>>, k: nat) {
    |tops| == |alls| && forall i :: 0 <= i < |tops| ==> IsTopSizes(tops[i], alls[i], k)
  }

  /** A part that lost something kept `k`. */
  lemma CutPartIsFull(top: multiset<nat>, all: multiset<nat>, k: nat)
    requires IsTopSizes(top, all, k) && top != all
    ensures |top| == k && |all| > k
  {
    if |all| <= |top| {
      WholeIsPart(top, all);
    }
  }

  lemma MergedSize(tops: seq<multiset<nat>>, alls: seq<multiset<nat>>, k: nat)
    requires TopOfEach(tops, alls, k)
    ensures Min(k, |Sum(tops)|) == Min(k, |Sum(alls)|)
  {
    hide Sum, IsTopSizes;
    PartsBelow(tops, alls, k);
    SumGrows(tops, alls);
    SubsetIsSmaller(Sum(tops), Sum(alls));
    if i :| 0 <= i < |tops| && tops[i] != alls[i] {
      CutPartIsFull(tops[i], alls[i], k);
      SumContains(tops, i);
      SubsetIsSmaller(tops[i], Sum(tops));
    } else {
      assert tops == alls;
    }
  }

  lemma PartsBelow(tops: seq<multiset<nat>>, alls: seq<multiset<nat>>, k: nat)
    requires TopOfEach(tops, alls, k)
    ensures forall i :: 0 <= i < |tops| ==> tops[i] <= alls[i]
  {
  }

  lemma SubsetIsSmaller(a: multiset<nat>, b: multiset<nat>)
    requires a <= b
    ensures |a| <= |b|
  {
    assert b == a + (b - a);
  }

  /** What the report's heap turned away, or a database's heap before it, is no larger than anything in the report. */
  lemma TurnedAwayIsSmaller(tops: seq<multiset<nat>>, alls: seq<multiset<nat>>, top: multiset<nat>, k: nat, x: nat, y: nat)
    requires TopOfEach(tops, alls, k) && IsTopSizes(top, Sum(tops), k)
    requires x in Sum(alls) - top && y in top
    ensures x <= y
  {
    hide Sum;
    if Sum(tops)[x] > top[x] {
      assert x in Sum(tops) - top;
    } else {
      var i := SurplusInPart(tops, alls, x);
      CutPartIsFull(tops[i], alls[i], k);
      SumContains(tops, i);
      assert x in alls[i] - tops[i];
      if tops[i] <= top {
        WholeIsPart(tops[i], top);
      } else {
        var z: nat :| tops[i][z] > top[z];
        assert z in Sum(tops) - top && z in tops[i];
      }
    }
  }

  /** Keeping the `k` largest of each part and then of what was kept is keeping the `k` largest of everything. */
  lemma TopOfTops(tops: seq<multiset<nat>>, alls: seq<multiset<nat>>, top: multiset<nat>, k: nat)
    requires TopOfEach(tops, alls, k) && IsTopSizes(top, Sum(tops), k)
    ensures IsTopSizes(top, Sum(alls), k)
  {
    hide Sum;
    PartsBelow(tops, alls, k);
    SumGrows(tops, alls);
    MergedSize(tops, alls, k);
    forall x, y | x in Sum(alls) - top && y in top ensures x <= y {
      TurnedAwayIsSmaller(tops, alls, top, k, x, y);
    }
  }

  // ---- The report ----

  function TokensOf(records: seq<Record>): seq<Token> {
    seq(|records|, i requires 0 <= i < |records| => Token(records[i].size, i + 1, records[i].taskId))
  }

  method AnalyzeDatabase(records: seq<Record>, k: nat) returns (heap: seq<Token>)
    requires k > 0
    ensures IsHeapOf(heap, TokensOf(records), k)
  {
    hide IsHeapOf;
    heap := [];
    var sequence := 0;
    EmptyHeap(k);
    assert TokensOf(records[..0]) == [];
    for i := 0 to |records|
      invariant sequence == i && IsHeapOf(heap, TokensOf(records[..i]), k)
    {
      sequence := sequence + 1;
      var t := Token(records[i].size, sequence, records[i].taskId);
      ghost var offered := TokensOf(records[..i]);
      assert TokensOf(records[..i+1]) == offered + [t];
      heap := Offer(heap, t, k, offered);
    }
    assert records[..|records|] == records;
  }

  lemma EmptyHeap(k: nat)
    ensures IsHeapOf([], [], k)
  {
  }

  /** The order in which a heap's list is iterated is not fixed here. */
  method Layout(heap: seq<Token>) returns (items: seq<Token>)
    ensures Sizes(items) == Sizes(heap)
  {
    items := heap;
  }

  /** Offers one database's heap to the report's, numbering the tokens anew. */
  method OfferAll(heap: seq<Token>, items: seq<Token>, k: nat, sequence: nat, ghost offered: seq<Token>)
    returns (kept: seq<Token>, last: nat, ghost given: seq<Token>)
    requires k > 0 && IsHeapOf(heap, offered, k) && forall t :: t in offered ==> t.sequence <= sequence
    ensures IsHeapOf(kept, given, k) && Sizes(given) == Sizes(offered) + Sizes(items)
    ensures forall t :: t in given ==> t.sequence <= last
  {
    hide IsHeapOf, Sizes;
    kept, last, given := heap, sequence, offered;
    NoSizes();
    for i := 0 to |items|
      invariant IsHeapOf(kept, given, k) && Sizes(given) == Sizes(offered) + Sizes(items[..i])
      invariant forall t :: t in given ==> t.sequence <= last
    {
      last := last + 1;
      var t := Token(items[i].size, last, items[i].taskId);
      kept := Offer(kept, t, k, given);
      SizesAppend(given, [t]);
      SizesAppend(items[..i], [items[i]]);
      SingleSize(t);
      SingleSize(items[i]);
      assert items[..i+1] == items[..i] + [items[i]];
      given := given + [t];
    }
    assert items[..|items|] == items;
  }

  lemma NoSizes()
    ensures Sizes([]) == multiset{}
  {
  }

  lemma SingleSize(t: Token)
    ensures Sizes([t]) == multiset{t.size}
  {
    assert [t][1..] == [];
  }

  predicate Counted(d: Database) {
    d.readable && d.currentSite
  }

  /** The sizes of all records in the readable databases of current sites, database by database. */
  function CurrentSizes(databases: seq<Database>): seq<multiset<nat>> {
    if databases == [] then []
    else
      var init, d := CurrentSizes(databases[..|databases|-1]), databases[|databases|-1];
      if Counted(d) then init + [Sizes(TokensOf(d.records))] else init
  }

  /** The report keeps exactly the `k` largest sizes of all records in current-site databases. */
  method WriteReport(databases: seq<Database>, k: nat) returns (heap: seq<Token>)
    requires k > 0
    ensures IsTopSizes(Sizes(heap), Sum(CurrentSizes(databases)), k)
  {
    hide IsHeapOf, Sizes, IsTopSizes, TokensOf, TopOfEach;
    heap := [];
    var sequence := 0;
    ghost var offered: seq<Token> := [];
    ghost var tops: seq<multiset<nat>> := [];
    EmptyHeap(k);
    NoSizes();
    assert TopOfEach([], [], k) by { NoTops(k); }
    for i := 0 to |databases|
      invariant IsHeapOf(heap, offered, k) && Sizes(offered) == Sum(tops)
      invariant TopOfEach(tops, CurrentSizes(databases[..i]), k)
      invariant forall t :: t in offered ==> t.sequence <= sequence
    {
      var d := databases[i];
      assert databases[..i+1][..i] == databases[..i];
      if d.readable {
        var top := AnalyzeDatabase(d.records, k);
        if d.currentSite {
          var items := Layout(top);
          heap, sequence, offered := OfferAll(heap, items, k, sequence, offered);
          assert (tops + [Sizes(top)])[..|tops|] == tops;
          HeapHasTopSizes(top, TokensOf(d.records), k);
          OneMoreTop(tops, CurrentSizes(databases[..i]), Sizes(top), Sizes(TokensOf(d.records)), k);
          tops := tops + [Sizes(top)];
        }
      }
    }
    assert databases[..|databases|] == databases;
    HeapHasTopSizes(heap, offered, k);
    TopOfTops(tops, CurrentSizes(databases), Sizes(heap), k);
  }

  lemma NoTops(k: nat)
    ensures TopOfEach([], [], k)
  {
  }

  lemma OneMoreTop(tops: seq<multiset<nat>>, alls: seq<multiset<nat>>, top: multiset<nat>, all: multiset<nat>, k: nat)
    requires TopOfEach(tops, alls, k) && IsTopSizes(top, all, k)
    ensures TopOfEach(tops + [top], alls + [all], k)
  {
    hide IsTopSizes;
  }

  lemma HeapHasTopSizes(heap: seq<Token>, offered: seq<Token>, k: nat)
    requires IsHeapOf(heap, offered, k)
    ensures IsTopSizes(Sizes(heap), Sizes(offered), k)
  {
  }
}
