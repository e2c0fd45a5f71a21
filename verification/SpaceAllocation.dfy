/**
 Dividing the live bytes of a database among its tables and indexes in proportion to
 their weights (scripts/maintenance/audit_tasks_db_space.py), with exact floors.
 */
module SpaceAllocation {

  datatype Table = Table(name: string, weight: nat)

  datatype Index = Index(name: string, owner: string, weight: nat)

  function TableWeight(tables: seq<Table>): nat {
    if tables == [] then 0 else TableWeight(tables[..|tables|-1]) + tables[|tables|-1].weight
  }

  function IndexWeight(indexes: seq<Index>): nat {
    if indexes == [] then 0 else IndexWeight(indexes[..|indexes|-1]) + indexes[|indexes|-1].weight
  }

  /** The largest whole number of bytes within the proportional share. */
  function Share(live: nat, weight: nat, total: nat): (bytes: nat)
    requires total > 0
    ensures bytes * total <= live * weight < bytes * total + total
  {
    ShareIsFloor(live * weight, total);
    live * weight / total
  }

  lemma ShareIsFloor(n: nat, d: nat)
    requires d > 0
    ensures n / d >= 0 && (n / d) * d <= n < (n / d) * d + d
  {
  }

  function TableShares(tables: seq<Table>, live: nat, total: nat): nat
    requires total > 0
  {
    if tables == [] then 0 else TableShares(tables[..|tables|-1], live, total) + Share(live, tables[|tables|-1].weight, total)
  }

  function IndexShares(indexes: seq<Index>, live: nat, total: nat): nat
    requires total > 0
  {
    if indexes == [] then 0 else IndexShares(indexes[..|indexes|-1], live, total) + Share(live, indexes[|indexes|-1].weight, total)
  }

  /** What the indexes of one table get together. */
  function OwnedShares(indexes: seq<Index>, owner: string, live: nat, total: nat): nat
    requires total > 0
  {
    if indexes == [] then 0
    else OwnedShares(indexes[..|indexes|-1], owner, live, total) +
         if indexes[|indexes|-1].owner == owner then Share(live, indexes[|indexes|-1].weight, total) else 0
  }

  ghost predicate Catalogue(tables: seq<Table>, indexes: seq<Index>) {
    && (forall i, j :: 0 <= i < j < |tables| ==> tables[i].name != tables[j].name)
    && (forall k :: 0 <= k < |indexes| ==> indexes[k].weight > 0 && exists i :: 0 <= i < |tables| && tables[i].name == indexes[k].owner)
  }

  function At(bytes: map<string, nat>, name: string): nat {
    if name in bytes then bytes[name] else 0
  }

  /** `sum(bytes.values())`, over the tables that can occur as keys. */
  function Total(tables: seq<Table>, bytes: map<string, nat>): nat {
    if tables == [] then 0 else Total(tables[..|tables|-1], bytes) + At(bytes, tables[|tables|-1].name)
  }

  lemma {:induction false} TotalUnchanged(tables: seq<Table>, before: map<string, nat>, after: map<string, nat>)
    requires forall i :: 0 <= i < |tables| ==> At(before, tables[i].name) == At(after, tables[i].name)
    ensures Total(tables, before) == Total(tables, after)
  {
    if tables != [] {
      TotalUnchanged(tables[..|tables|-1], before, after);
    }
  }

  /** Changing the entry of one table changes the sum by as much. */
  lemma {:induction false} TotalChanged(tables: seq<Table>, bytes: map<string, nat>, m: nat, value: nat)
    requires m < |tables| && forall i, j :: 0 <= i < j < |tables| ==> tables[i].name != tables[j].name
    ensures Total(tables, bytes[tables[m].name := value]) + At(bytes, tables[m].name) == Total(tables, bytes) + value
  {
    var init := tables[..|tables|-1];
    if m == |tables| - 1 {
      TotalUnchanged(init, bytes, bytes[tables[m].name := value]);
    } else {
      TotalChanged(init, bytes, m, value);
    }
  }

  // ---- The shares nearly add up ----

  /** `parts` objects with floors `shares` out of weight `weight` leave less than `parts` bytes over. */
  ghost predicate Leaves(live: nat, total: nat, weight: nat, shares: nat, parts: nat) {
    shares * total <= live * weight && live * weight + parts <= shares * total + parts * total
  }

  lemma LeavesStep(live: nat, total: nat, weight: nat, shares: nat, parts: nat, w: nat)
    requires total > 0 && Leaves(live, total, weight, shares, parts)
    ensures Leaves(live, total, weight + w, shares + Share(live, w, total), parts + 1)
  {
    var s := Share(live, w, total);
    assert live * (weight + w) == live * weight + live * w;
    assert (shares + s) * total == shares * total + s * total;
    assert (parts + 1) * total == parts * total + total;
  }

  lemma {:induction false} TableSharesLeave(tables: seq<Table>, live: nat, total: nat)
    requires total > 0
    ensures Leaves(live, total, TableWeight(tables), TableShares(tables, live, total), |tables|)
  {
    hide Leaves, Share;
    if tables == [] {
      NothingLeaves(live, total);
    } else {
      var init, last := tables[..|tables|-1], tables[|tables|-1];
      TableSharesLeave(init, live, total);
      LeavesStep(live, total, TableWeight(init), TableShares(init, live, total), |init|, last.weight);
    }
  }

  lemma NothingLeaves(live: nat, total: nat)
    ensures Leaves(live, total, 0, 0, 0)
  {
  }

  lemma {:induction false} AllSharesLeave(tables: seq<Table>, indexes: seq<Index>, live: nat, total: nat)
    requires total > 0
    ensures Leaves(live, total, TableWeight(tables) + IndexWeight(indexes),
                   TableShares(tables, live, total) + IndexShares(indexes, live, total), |tables| + |indexes|)
  {
    hide Leaves, Share, TableShares, TableWeight;
    if indexes == [] {
      TableSharesLeave(tables, live, total);
    } else {
      var init, last := indexes[..|indexes|-1], indexes[|indexes|-1];
      AllSharesLeave(tables, init, live, total);
      LeavesStep(live, total, TableWeight(tables) + IndexWeight(init),
                 TableShares(tables, live, total) + IndexShares(init, live, total), |tables| + |init|, last.weight);
    }
  }

  /** Floors never exceed the whole, and fall short of it by less than the number of objects. */
  lemma ResidualIsSmall(tables: seq<Table>, indexes: seq<Index>, live: nat)
    requires TableWeight(tables) + IndexWeight(indexes) > 0
    ensures var total := TableWeight(tables) + IndexWeight(indexes);
            var used := TableShares(tables, live, total) + IndexShares(indexes, live, total);
            used <= live < used + |tables| + |indexes|
  {
    hide TableShares, IndexShares, TableWeight, IndexWeight;
    var total := TableWeight(tables) + IndexWeight(indexes);
    var used, parts := TableShares(tables, live, total) + IndexShares(indexes, live, total), |tables| + |indexes|;
    AllSharesLeave(tables, indexes, live, total);
    SomeObject(tables, indexes);
    CancelTotal(used, live, total);
    assert (used + parts) * total == used * total + parts * total;
    CancelStrict(live, used + parts, total);
  }

  lemma SomeObject(tables: seq<Table>, indexes: seq<Index>)
    requires TableWeight(tables) + IndexWeight(indexes) > 0
    ensures |tables| + |indexes| > 0
  {
  }

  lemma {:induction false} ScaleUp(a: nat, b: nat, total: nat)
    requires total > 0 && a >= b
    ensures a * total >= b * total && (a > b ==> a * total > b * total)
  {
    if a > b {
      ScaleUp(a - 1, b, total);
      assert a * total == (a - 1) * total + total;
    }
  }

  lemma CancelTotal(a: nat, b: nat, total: nat)
    requires total > 0 && a * total <= b * total
    ensures a <= b
  {
    if a > b {
      ScaleUp(a, b, total);
    }
  }

  lemma CancelStrict(a: nat, b: nat, total: nat)
    requires total > 0 && a * total < b * total
    ensures a < b
  {
    if a >= b {
      ScaleUp(a, b, total);
    }
  }

  // ---- The allocation ----

  function Residual(tables: seq<Table>, indexes: seq<Index>, live: nat, total: nat): int
    requires total > 0
  {
    live - TableShares(tables, live, total) - IndexShares(indexes, live, total)
  }

  /** Every table but the residual's, and the indexes of every table, get exactly their floors. */
  ghost predicate ByShares(tables: seq<Table>, indexes: seq<Index>, live: nat, total: nat,
                           tableBytes: map<string, nat>, indexBytes: map<string, nat>, m: nat)
    requires total > 0
  {
    && m < |tables| && 0 <= Residual(tables, indexes, live, total) < |tables| + |indexes|
    && (forall i :: 0 <= i < |tables| ==>
          At(tableBytes, tables[i].name) ==
          Share(live, tables[i].weight, total) + if i == m then Residual(tables, indexes, live, total) else 0)
    && (forall i :: 0 <= i < |tables| ==> Share(live, tables[i].weight, total) <= Share(live, tables[m].weight, total))
    && (forall i :: 0 <= i < m ==> Share(live, tables[i].weight, total) < Share(live, tables[m].weight, total))
    && (forall owner :: At(indexBytes, owner) == OwnedShares(indexes, owner, live, total))
  }

  lemma OwnerOf(tables: seq<Table>, indexes: seq<Index>, k: nat) returns (m: nat)
    requires Catalogue(tables, indexes) && k < |indexes|
    ensures m < |tables| && tables[m].name == indexes[k].owner
  {
    assert indexes[k].weight > 0;
    m :| 0 <= m < |tables| && tables[m].name == indexes[k].owner;
  }

  lemma {:induction false} TotalOfNothing(tables: seq<Table>)
    ensures Total(tables, map[]) == 0
  {
    if tables != [] {
      TotalOfNothing(tables[..|tables|-1]);
    }
  }

  method Weigh(tables: seq<Table>, indexes: seq<Index>) returns (total: nat)
    ensures total == TableWeight(tables) + IndexWeight(indexes)
  {
    total := 0;
    for i := 0 to |tables|
      invariant total == TableWeight(tables[..i])
    {
      assert tables[..i+1][..i] == tables[..i];
      total := total + tables[i].weight;
    }
    assert tables[..|tables|] == tables;
    for i := 0 to |indexes|
      invariant total == TableWeight(tables) + IndexWeight(indexes[..i])
    {
      assert indexes[..i+1][..i] == indexes[..i];
      total := total + indexes[i].weight;
    }
    assert indexes[..|indexes|] == indexes;
  }

  method ShareTables(tables: seq<Table>, live: nat, total: nat) returns (bytes: map<string, nat>)
    requires total > 0 && forall i, j :: 0 <= i < j < |tables| ==> tables[i].name != tables[j].name
    ensures forall name :: name in bytes <==> exists i :: 0 <= i < |tables| && tables[i].name == name
    ensures forall i :: 0 <= i < |tables| ==> bytes[tables[i].name] == Share(live, tables[i].weight, total)
    ensures Total(tables, bytes) == TableShares(tables, live, total)
  {
    hide Share;
    bytes := map[];
    for i := 0 to |tables|
      invariant forall name :: name in bytes <==> exists j :: 0 <= j < i && tables[j].name == name
      invariant forall j :: 0 <= j < i ==> bytes[tables[j].name] == Share(live, tables[j].weight, total)
      invariant Total(tables[..i], bytes) == TableShares(tables[..i], live, total)
    {
      assert tables[..i+1][..i] == tables[..i];
      var more := bytes[tables[i].name := Share(live, tables[i].weight, total)];
      TotalUnchanged(tables[..i], bytes, more);
      bytes := more;
    }
    assert tables[..|tables|] == tables;
  }

  method ShareIndexes(tables: seq<Table>, indexes: seq<Index>, live: nat, total: nat) returns (bytes: map<string, nat>)
    requires total > 0 && Catalogue(tables, indexes)
    ensures forall owner :: At(bytes, owner) == OwnedShares(indexes, owner, live, total)
    ensures Total(tables, bytes) == IndexShares(indexes, live, total)
  {
    hide Share, Total;
    bytes := map[];
    TotalOfNothing(tables);
    for k := 0 to |indexes|
      invariant forall owner :: At(bytes, owner) == OwnedShares(indexes[..k], owner, live, total)
      invariant Total(tables, bytes) == IndexShares(indexes[..k], live, total)
    {
      assert indexes[..k+1][..k] == indexes[..k];
      var owner, share := indexes[k].owner, Share(live, indexes[k].weight, total);
      ghost var m := OwnerOf(tables, indexes, k);
      TotalChanged(tables, bytes, m, At(bytes, owner) + share);
      bytes := bytes[owner := At(bytes, owner) + share];
    }
    assert indexes[..|indexes|] == indexes;
  }

  method LargestTable(tables: seq<Table>, bytes: map<string, nat>) returns (m: nat)
    requires tables != [] && forall i :: 0 <= i < |tables| ==> tables[i].name in bytes
    ensures m < |tables| && forall i :: 0 <= i < |tables| ==> bytes[tables[i].name] <= bytes[tables[m].name]
    ensures forall i :: 0 <= i < m ==> bytes[tables[i].name] < bytes[tables[m].name]
  {
    m := 0;
    for i := 1 to |tables|
      invariant m < i && forall j :: 0 <= j < i ==> bytes[tables[j].name] <= bytes[tables[m].name]
      invariant forall j :: 0 <= j < m ==> bytes[tables[j].name] < bytes[tables[m].name]
    {
      if bytes[tables[i].name] > bytes[tables[m].name] {
        m := i;
      }
    }
  }

  /** The whole of the live bytes is allocated; only the first largest table gets more than its floor, and less than one byte per object more. */
  method EstimateAllocation(tables: seq<Table>, indexes: seq<Index>, live: nat)
    returns (tableBytes: map<string, nat>, indexBytes: map<string, nat>)
    requires Catalogue(tables, indexes)
    ensures forall name :: name in tableBytes <==> exists i :: 0 <= i < |tables| && tables[i].name == name
    ensures tables != [] ==> Total(tables, tableBytes) + Total(tables, indexBytes) == live
    ensures var total := TableWeight(tables) + IndexWeight(indexes);
            total > 0 ==>
              exists m: nat :: ByShares(tables, indexes, live, total, tableBytes, indexBytes, m)
    ensures TableWeight(tables) + IndexWeight(indexes) == 0 ==>
              indexBytes == map[] && forall i :: 0 <= i < |tables| ==> tableBytes[tables[i].name] == if i == 0 then live else 0
  {
    hide Share, TableShares, IndexShares, OwnedShares, Total, TableWeight, IndexWeight;
    var total := Weigh(tables, indexes);
    if total == 0 {
      tableBytes := AllToFirst(tables, live);
      indexBytes := map[];
      TotalOfNothing(tables);
      return;
    }
    tableBytes := ShareTables(tables, live, total);
    indexBytes := ShareIndexes(tables, indexes, live, total);
    ResidualIsSmall(tables, indexes, live);
    SomeTable(tables, indexes);
    var used := TableShares(tables, live, total) + IndexShares(indexes, live, total);
    var m := LargestTable(tables, tableBytes);
    if used < live {
      TotalChanged(tables, tableBytes, m, tableBytes[tables[m].name] + (live - used));
      tableBytes := tableBytes[tables[m].name := tableBytes[tables[m].name] + (live - used)];
    }
    assert ByShares(tables, indexes, live, total, tableBytes, indexBytes, m);
  }

  lemma SomeTable(tables: seq<Table>, indexes: seq<Index>)
    requires Catalogue(tables, indexes) && TableWeight(tables) + IndexWeight(indexes) > 0
    ensures tables != []
  {
    if indexes != [] {
      var m := OwnerOf(tables, indexes, 0);
    }
  }

  method AllToFirst(tables: seq<Table>, live: nat) returns (bytes: map<string, nat>)
    requires forall i, j :: 0 <= i < j < |tables| ==> tables[i].name != tables[j].name
    ensures forall name :: name in bytes <==> exists i :: 0 <= i < |tables| && tables[i].name == name
    ensures forall i :: 0 <= i < |tables| ==> bytes[tables[i].name] == if i == 0 then live else 0
    ensures tables != [] ==> Total(tables, bytes) == live
  {
    hide Total;
    bytes := map[];
    for i := 0 to |tables|
      invariant forall name :: name in bytes <==> exists j :: 0 <= j < i && tables[j].name == name
      invariant forall j :: 0 <= j < i ==> bytes[tables[j].name] == if j == 0 then live else 0
    {
      bytes := bytes[tables[i].name := if i == 0 then live else 0];
    }
    FirstTakesAll(tables, bytes, live);
  }

  lemma {:induction false} FirstTakesAll(tables: seq<Table>, bytes: map<string, nat>, live: nat)
    requires forall i :: 0 <= i < |tables| ==> At(bytes, tables[i].name) == if i == 0 then live else 0
    ensures tables != [] ==> Total(tables, bytes) == live
  {
    if tables != [] {
      FirstTakesAll(tables[..|tables|-1], bytes, live);
    }
  }
}
